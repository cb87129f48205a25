// The registry of device-specific developer fields: per-field display
// metadata, alias normalisation, prefix-based device lookup, display labels
// and the configuration export served to the frontend.
module DeviceMappings {
  import opened Wrappers
  import opened Text
  import opened Tables

  /** One device field; the storage and display units are always filled in. */
  datatype FieldMapping = FieldMapping(
    fieldName: string,
    displayLabel: string,
    unit: string,
    description: string,
    fieldCategory: string,
    storageUnit: string,
    displayUnit: string,
    requiresConversion: bool,
    precision: int)

  /** `FieldMapping(...)` followed by `__post_init__`: a missing unit of either kind is `unit`. */
  function MakeFieldMapping(fieldName: string, displayLabel: string, unit: string, description: string,
                            fieldCategory: string, storageUnit: Option<string>, displayUnit: Option<string>,
                            requiresConversion: bool, precision: int): (m: FieldMapping)
    ensures m.storageUnit == (if storageUnit.Some? then storageUnit.value else unit)
    ensures m.displayUnit == (if displayUnit.Some? then displayUnit.value else unit)
    ensures m.fieldName == fieldName && m.displayLabel == displayLabel && m.unit == unit
    ensures m.description == description && m.fieldCategory == fieldCategory
    ensures m.requiresConversion == requiresConversion && m.precision == precision
  {
    FieldMapping(fieldName, displayLabel, unit, description, fieldCategory,
                 storageUnit.GetOr(unit), displayUnit.GetOr(unit), requiresConversion, precision)
  }

  /** A field with the defaults: units from `unit`, no conversion, precision 2. */
  function Plain(fieldName: string, displayLabel: string, unit: string, description: string, fieldCategory: string): FieldMapping
  {
    MakeFieldMapping(fieldName, displayLabel, unit, description, fieldCategory, None, None, false, 2)
  }

  datatype DeviceConfig = DeviceConfig(
    deviceId: string,
    deviceName: string,
    fieldPrefix: string,
    displayPrefix: string,
    fields: Table<FieldMapping>,
    fieldAliases: Table<string>)

  // ------------------------------------------------------ the DragonRun tables

  // One constant per field, so that a proof about one field does not unfold the whole table.
  const DrTimestamp: FieldMapping := Plain("dr_timestamp", "时间戳", "ms", "步态数据记录的时间点", "basic")
  const DrDistance: FieldMapping := Plain("dr_distance", "距离", "m", "跑步累计距离", "basic")
  const DrSpeed: FieldMapping := MakeFieldMapping("dr_speed", "配速", "min/km", "当前配速", "pace", Some("m/s"), Some("min/km"), true, 2)
  const DrCadence: FieldMapping := Plain("dr_cadence", "步频", "spm", "每分钟步数（双脚计数）", "dynamics")
  const DrStride: FieldMapping := Plain("dr_stride", "步幅", "cm", "单步距离", "dynamics")
  const DrGct: FieldMapping := Plain("dr_gct", "触地时间", "ms", "每步跑步时地面接触的时间", "dynamics")
  const DrAirTime: FieldMapping := Plain("dr_air_time", "腾空时间", "ms", "每步跑步时双脚离地的时间", "dynamics")
  const DrVOsc: FieldMapping := Plain("dr_v_osc", "垂直振幅", "cm", "身体重心上下振幅", "dynamics")
  const DrVerticalRatio: FieldMapping := Plain("dr_vertical_ratio", "垂直步幅比", "%", "垂直振幅与步幅的比值", "dynamics")
  const DrSSL: FieldMapping := Plain("dr_SSL", "步速损失", "cm/s", "每次着地时速度损失量", "dynamics")
  const DrSSLPercent: FieldMapping := Plain("dr_SSL_percent", "步速损失占比", "%", "步速损失占当前速度的百分比", "dynamics")
  const DrVerticalPower: FieldMapping := Plain("dr_vertical_power", "垂直功率", "W", "克服重力做功的功率", "power")
  const DrPropulsivePower: FieldMapping := Plain("dr_propulsive_power", "前进功率", "W", "前进方向的有效功率", "power")
  const DrSlopePower: FieldMapping := Plain("dr_slope_power", "坡度功率", "W", "上坡或下坡消耗的功率", "power")
  const DrTotalPower: FieldMapping := Plain("dr_total_power", "总功率", "W", "垂直功率+前进功率+坡度功率", "power")
  const DrLSS: FieldMapping := Plain("dr_LSS", "下肢刚度", "kN/m", "腿部弹性系数，刚度越高弹性越好", "biomechanics")
  const DrVILR: FieldMapping := Plain("dr_v_ILR", "垂直冲击力", "bw/s", "垂直方向的冲击负荷率", "impact")
  const DrHILR: FieldMapping := Plain("dr_h_ILR", "水平冲击力", "bw/s", "水平方向的冲击负荷率", "impact")
  const DrVPIF: FieldMapping := Plain("dr_v_PIF", "垂直冲击峰值", "g", "足部着地时垂直方向的最大加速度", "impact")
  const DrHPIF: FieldMapping := Plain("dr_h_PIF", "水平冲击峰值", "g", "足部着地时水平方向的最大加速度", "impact")
  const DrBodyXPIF: FieldMapping := Plain("dr_body_X_PIF", "传感器X轴冲击", "g", "传感器X轴检测到的冲击峰值", "impact")
  const DrBodyYPIF: FieldMapping := Plain("dr_body_Y_PIF", "传感器Y轴冲击", "g", "传感器Y轴检测到的冲击峰值", "impact")
  const DrBodyZPIF: FieldMapping := Plain("dr_body_Z_PIF", "传感器Z轴冲击", "g", "传感器Z轴检测到的冲击峰值", "impact")

  const DragonRunFields: Table<FieldMapping> := [
    ("dr_timestamp", DrTimestamp),
    ("dr_distance", DrDistance),
    ("dr_speed", DrSpeed),
    ("dr_cadence", DrCadence),
    ("dr_stride", DrStride),
    ("dr_gct", DrGct),
    ("dr_air_time", DrAirTime),
    ("dr_v_osc", DrVOsc),
    ("dr_vertical_ratio", DrVerticalRatio),
    ("dr_SSL", DrSSL),
    ("dr_SSL_percent", DrSSLPercent),
    ("dr_vertical_power", DrVerticalPower),
    ("dr_propulsive_power", DrPropulsivePower),
    ("dr_slope_power", DrSlopePower),
    ("dr_total_power", DrTotalPower),
    ("dr_LSS", DrLSS),
    ("dr_v_ILR", DrVILR),
    ("dr_h_ILR", DrHILR),
    ("dr_v_PIF", DrVPIF),
    ("dr_h_PIF", DrHPIF),
    ("dr_body_X_PIF", DrBodyXPIF),
    ("dr_body_Y_PIF", DrBodyYPIF),
    ("dr_body_Z_PIF", DrBodyZPIF)
  ]

  const DragonRunFieldAliases: Table<string> := [
    ("dr_stance", "dr_gct"),
    ("dr_air", "dr_air_time"),
    ("dr_at", "dr_air_time"),
    ("dr_vertical_osc", "dr_v_osc"),
    ("dr_vert_osc", "dr_v_osc"),
    ("dr_prop_power", "dr_propulsive_power"),
    ("dr_ssl", "dr_SSL"),
    ("dr_ssl%", "dr_SSL_percent"),
    ("dr_SSL%", "dr_SSL_percent"),
    ("dr_lss", "dr_LSS"),
    ("dr_v_ilr", "dr_v_ILR"),
    ("dr_h_ilr", "dr_h_ILR"),
    ("dr_v_pif", "dr_v_PIF"),
    ("dr_h_pif", "dr_h_PIF"),
    ("dr_body_x_pif", "dr_body_X_PIF"),
    ("dr_body_y_pif", "dr_body_Y_PIF"),
    ("dr_body_z_pif", "dr_body_Z_PIF"),
    ("dr_slop_power", "dr_slope_power")
  ]

  const DragonRun: DeviceConfig :=
    DeviceConfig("dragonrun", "龙豆跑步", "dr_", "DR_", DragonRunFields, DragonRunFieldAliases)

  /** The table holds the 23 DragonValue fields. */
  lemma DragonRunFieldCount()
    ensures |DragonRunFields| == 23 && |DragonRunFieldAliases| == 18
  {
  }

  /** Where each alias target sits in the field table. */
  const AliasTargetIndex: seq<nat> := [5, 6, 6, 7, 7, 12, 9, 10, 10, 15, 16, 17, 18, 19, 20, 21, 22, 13]

  /** How often `p` occurs in `s` (`str.count`, for a non-empty `p`). */
  function CountOccurrences(s: string, p: string): nat
    requires p != []
    decreases |s|
  {
    if |s| < |p| then 0
    else (if s[..|p|] == p then 1 else 0) + CountOccurrences(s[1..], p)
  }

  /** Every alias names a field of the table. */
  lemma AliasTargetsAreFields()
    ensures forall a :: 0 <= a < |DragonRunFieldAliases| ==> Lookup(DragonRunFields, DragonRunFieldAliases[a].1).Some?
  {
    forall a | 0 <= a < |DragonRunFieldAliases|
      ensures Lookup(DragonRunFields, DragonRunFieldAliases[a].1).Some?
    {
      var k := AliasTargetIndex[a];
      assert DragonRunFields[k].0 == DragonRunFieldAliases[a].1;
      LookupSpec(DragonRunFields, DragonRunFieldAliases[a].1);
    }
  }

  /** No `d` in `s` is followed by `r`. */
  predicate NoDr(s: string)
  {
    forall i :: 0 <= i < |s| - 1 ==> !(s[i] == 'd' && s[i + 1] == 'r')
  }

  lemma {:induction false} CountNone(s: string)
    requires NoDr(s)
    ensures CountOccurrences(s, "dr_") == 0
    decreases |s|
  {
    if |s| >= 3 {
      assert s[..3] != "dr_" by { assert !(s[0] == 'd' && s[1] == 'r'); }
      CountNone(s[1..]);
    }
  }

  /** The name starts with `dr_` and has no other `dr` in it. */
  predicate SinglePrefix(s: string)
  {
    |s| >= 3 && s[..3] == "dr_" && NoDr(s[1..])
  }

  /** Such a name holds `dr_` exactly once. */
  lemma {:induction false} CountOne(s: string)
    requires SinglePrefix(s)
    ensures CountOccurrences(s, "dr_") == 1
  {
    CountNone(s[1..]);
  }

  lemma AliasTargetsSinglePrefixFirst()
    ensures forall a :: 0 <= a < 3 ==> SinglePrefix(DragonRunFieldAliases[a].1)
  {
  }

  lemma AliasTargetsSinglePrefixSecond()
    ensures forall a :: 3 <= a < 6 ==> SinglePrefix(DragonRunFieldAliases[a].1)
  {
  }

  lemma AliasTargetsSinglePrefixThird()
    ensures forall a :: 6 <= a < 9 ==> SinglePrefix(DragonRunFieldAliases[a].1)
  {
  }

  lemma AliasTargetsSinglePrefixFourth()
    ensures forall a :: 9 <= a < 12 ==> SinglePrefix(DragonRunFieldAliases[a].1)
  {
  }

  lemma AliasTargetsSinglePrefixFifth()
    ensures forall a :: 12 <= a < 15 ==> SinglePrefix(DragonRunFieldAliases[a].1)
  {
  }

  lemma AliasTargetsSinglePrefixSixth()
    ensures forall a :: 15 <= a < 18 ==> SinglePrefix(DragonRunFieldAliases[a].1)
  {
  }

  /** Every alias target has the `dr_` prefix once and only once. */
  lemma AliasTargetsSinglePrefix()
    ensures forall a :: 0 <= a < |DragonRunFieldAliases| ==>
      SinglePrefix(DragonRunFieldAliases[a].1) && CountOccurrences(DragonRunFieldAliases[a].1, "dr_") == 1
  {
    AliasTargetsSinglePrefixFirst();
    AliasTargetsSinglePrefixSecond();
    AliasTargetsSinglePrefixThird();
    AliasTargetsSinglePrefixFourth();
    AliasTargetsSinglePrefixFifth();
    AliasTargetsSinglePrefixSixth();
    forall a | 0 <= a < |DragonRunFieldAliases|
      ensures CountOccurrences(DragonRunFieldAliases[a].1, "dr_") == 1
    {
      CountOne(DragonRunFieldAliases[a].1);
    }
  }

  // ------------------------------------------------------ lookups over the registered devices

  /** `get_device_by_prefix`: the first registered device whose prefix starts the name. */
  function FirstByPrefix(devices: seq<DeviceConfig>, name: string): Option<DeviceConfig>
  {
    if devices == [] then None
    else if StartsWith(name, devices[0].fieldPrefix) then Some(devices[0])
    else FirstByPrefix(devices[1..], name)
  }

  /** It finds nothing exactly when no prefix matches, and otherwise the earliest match. */
  lemma {:induction false} FirstByPrefixSpec(devices: seq<DeviceConfig>, name: string)
    ensures FirstByPrefix(devices, name).None? <==>
      forall k :: 0 <= k < |devices| ==> !StartsWith(name, devices[k].fieldPrefix)
    ensures FirstByPrefix(devices, name).Some? ==>
      exists k :: 0 <= k < |devices| && devices[k] == FirstByPrefix(devices, name).value &&
        StartsWith(name, devices[k].fieldPrefix) &&
        forall j :: 0 <= j < k ==> !StartsWith(name, devices[j].fieldPrefix)
    decreases |devices|
  {
    if devices != [] && !StartsWith(name, devices[0].fieldPrefix) {
      var rest := devices[1..];
      FirstByPrefixSpec(rest, name);
      assert forall k :: 1 <= k < |devices| ==> devices[k] == rest[k - 1];
      if FirstByPrefix(rest, name).Some? {
        var k :| 0 <= k < |rest| && rest[k] == FirstByPrefix(rest, name).value &&
          StartsWith(name, rest[k].fieldPrefix) &&
          forall j :: 0 <= j < k ==> !StartsWith(name, rest[j].fieldPrefix);
        assert devices[k + 1] == rest[k];
      }
    }
  }

  /** `normalize_field_name`: the alias target for a device field, else the name itself. */
  function NormalizeFieldName(devices: seq<DeviceConfig>, raw: string): string
  {
    match FirstByPrefix(devices, raw)
    case None => raw
    case Some(d) => Lookup(d.fieldAliases, raw).GetOr(raw)
  }

  /** `display_prefix + display_label + " (" + unit + ")"`. */
  function FullLabel(device: DeviceConfig, m: FieldMapping): string
  {
    device.displayPrefix + m.displayLabel + " (" + m.unit + ")"
  }

  /** `get_display_label`: the full label of a known device field, else the name itself. */
  function DisplayLabel(devices: seq<DeviceConfig>, name: string): string
  {
    match FirstByPrefix(devices, name)
    case None => name
    case Some(d) =>
      match Lookup(d.fields, name)
      case None => name
      case Some(m) => FullLabel(d, m)
  }

  /**
   * With no matching device prefix the name comes back unchanged; with a
   * matching device it becomes the target of its first alias entry, or
   * stays as it is when it is no alias of that device.
   */
  lemma {:induction false} NormalizeFieldNameSpec(devices: seq<DeviceConfig>, raw: string)
    ensures (forall k :: 0 <= k < |devices| ==> !StartsWith(raw, devices[k].fieldPrefix)) ==>
      NormalizeFieldName(devices, raw) == raw
    ensures FirstByPrefix(devices, raw).Some? ==>
      var d := FirstByPrefix(devices, raw).value;
      d in devices && StartsWith(raw, d.fieldPrefix) &&
      ((forall k :: 0 <= k < |d.fieldAliases| ==> d.fieldAliases[k].0 != raw) ==> NormalizeFieldName(devices, raw) == raw) &&
      (forall k :: 0 <= k < |d.fieldAliases| && d.fieldAliases[k].0 == raw && (forall j :: 0 <= j < k ==> d.fieldAliases[j].0 != raw) ==>
         NormalizeFieldName(devices, raw) == d.fieldAliases[k].1)
  {
    FirstByPrefixSpec(devices, raw);
    if FirstByPrefix(devices, raw).Some? {
      var d := FirstByPrefix(devices, raw).value;
      LookupSpec(d.fieldAliases, raw);
      forall k | 0 <= k < |d.fieldAliases| && d.fieldAliases[k].0 == raw && (forall j :: 0 <= j < k ==> d.fieldAliases[j].0 != raw)
        ensures NormalizeFieldName(devices, raw) == d.fieldAliases[k].1
      {
        LookupAt(d.fieldAliases, k);
      }
    }
  }

  /**
   * An unknown device or field gives the name itself; a known field gives
   * the device's display prefix, the field's label and its unit.
   */
  lemma {:induction false} DisplayLabelSpec(devices: seq<DeviceConfig>, name: string)
    ensures (forall k :: 0 <= k < |devices| ==> !StartsWith(name, devices[k].fieldPrefix)) ==>
      DisplayLabel(devices, name) == name
    ensures FirstByPrefix(devices, name).Some? ==>
      var d := FirstByPrefix(devices, name).value;
      d in devices && StartsWith(name, d.fieldPrefix) &&
      ((forall k :: 0 <= k < |d.fields| ==> d.fields[k].0 != name) ==> DisplayLabel(devices, name) == name) &&
      (forall k :: 0 <= k < |d.fields| && d.fields[k].0 == name && (forall j :: 0 <= j < k ==> d.fields[j].0 != name) ==>
         DisplayLabel(devices, name) == d.displayPrefix + d.fields[k].1.displayLabel + " (" + d.fields[k].1.unit + ")")
  {
    FirstByPrefixSpec(devices, name);
    if FirstByPrefix(devices, name).Some? {
      var d := FirstByPrefix(devices, name).value;
      LookupSpec(d.fields, name);
      forall k | 0 <= k < |d.fields| && d.fields[k].0 == name && (forall j :: 0 <= j < k ==> d.fields[j].0 != name)
        ensures DisplayLabel(devices, name) == d.displayPrefix + d.fields[k].1.displayLabel + " (" + d.fields[k].1.unit + ")"
      {
        LookupAt(d.fields, k);
      }
    }
  }

  // ------------------------------------------------------ registration

  predicate UniqueIds(devices: seq<DeviceConfig>)
  {
    forall i, j :: 0 <= i < j < |devices| ==> devices[i].deviceId != devices[j].deviceId
  }

  /** `_devices[config.device_id] = config`: replace in place, or append a new id. */
  function Registered(devices: seq<DeviceConfig>, config: DeviceConfig): (r: seq<DeviceConfig>)
    ensures |r| == |devices| || |r| == |devices| + 1
  {
    if devices == [] then [config]
    else if devices[0].deviceId == config.deviceId then [config] + devices[1..]
    else [devices[0]] + Registered(devices[1..], config)
  }

  /**
   * Registering keeps the ids distinct, makes `config` the device of its
   * id, and leaves every other device where it was; a new id comes last.
   */
  lemma {:induction false} RegisteredSpec(devices: seq<DeviceConfig>, config: DeviceConfig)
    requires UniqueIds(devices)
    ensures var r := Registered(devices, config);
      UniqueIds(r) && config in r &&
      (forall k :: 0 <= k < |r| && r[k].deviceId == config.deviceId ==> r[k] == config) &&
      (forall k :: 0 <= k < |devices| && devices[k].deviceId != config.deviceId ==> r[k] == devices[k]) &&
      (forall k :: 0 <= k < |devices| && devices[k].deviceId == config.deviceId ==> |r| == |devices| && r[k] == config) &&
      ((forall k :: 0 <= k < |devices| ==> devices[k].deviceId != config.deviceId) ==> r == devices + [config])
  {
    var r := Registered(devices, config);
    RegisteredPositions(devices, config);
    forall k | 0 <= k < |devices| && devices[k].deviceId == config.deviceId
      ensures |r| == |devices| && r[k] == config
    {
      RegisteredReplaces(devices, config, k);
    }
    if k :| 0 <= k < |devices| && devices[k].deviceId == config.deviceId {
      assert |r| == |devices| && r[k] == config;
      assert forall i :: 0 <= i < |r| ==> r[i].deviceId == devices[i].deviceId;
      forall i | 0 <= i < |r| && r[i].deviceId == config.deviceId ensures r[i] == config {
        assert devices[i].deviceId == config.deviceId;
      }
    } else {
      assert r == devices + [config];
      assert forall i :: 0 <= i < |devices| ==> r[i] == devices[i];
    }
  }

  /** Devices whose id differs keep their place; a new id is appended. */
  lemma {:induction false} RegisteredPositions(devices: seq<DeviceConfig>, config: DeviceConfig)
    ensures var r := Registered(devices, config);
      (forall k :: 0 <= k < |devices| && devices[k].deviceId != config.deviceId ==> r[k] == devices[k]) &&
      ((forall k :: 0 <= k < |devices| ==> devices[k].deviceId != config.deviceId) ==> r == devices + [config])
    decreases |devices|
  {
    if devices != [] && devices[0].deviceId != config.deviceId {
      var rest := devices[1..];
      RegisteredPositions(rest, config);
      var t := Registered(rest, config);
      assert Registered(devices, config) == [devices[0]] + t;
      assert forall k :: 1 <= k < |devices| ==> devices[k] == rest[k - 1];
      assert devices == [devices[0]] + rest;
    }
  }

  /** With distinct ids, the device that has `config`'s id is replaced in place. */
  lemma {:induction false} RegisteredReplaces(devices: seq<DeviceConfig>, config: DeviceConfig, k: int)
    requires UniqueIds(devices) && 0 <= k < |devices| && devices[k].deviceId == config.deviceId
    ensures var r := Registered(devices, config); |r| == |devices| && r[k] == config
    decreases k
  {
    if k > 0 {
      var rest := devices[1..];
      assert devices[0].deviceId != devices[k].deviceId;
      assert rest[k - 1] == devices[k];
      RegisteredReplaces(rest, config, k - 1);
      assert Registered(devices, config) == [devices[0]] + Registered(rest, config);
    }
  }

  // ------------------------------------------------------ configuration export

  datatype FieldExport = FieldExport(
    fieldName: string,
    displayLabel: string,
    unit: string,
    fullLabel: string,
    description: string,
    category: string,
    storageUnit: Option<string>,   // present only when non-empty
    displayUnit: Option<string>,   // present only when non-empty
    requiresConversion: bool,
    precision: int)

  datatype DeviceExport = DeviceExport(deviceName: string, fieldPrefix: string, displayPrefix: string, fields: seq<FieldExport>)

  function NonEmpty(s: string): Option<string>
  {
    if s != "" then Some(s) else None
  }

  /** One entry of a device's exported field list. */
  function ExportField(device: DeviceConfig, name: string, m: FieldMapping): FieldExport
  {
    FieldExport(name, m.displayLabel, m.unit, FullLabel(device, m), m.description, m.fieldCategory,
                NonEmpty(m.storageUnit), NonEmpty(m.displayUnit), m.requiresConversion, m.precision)
  }

  /** A device's exported field list, in table order. */
  function ExportFields(device: DeviceConfig): (r: seq<FieldExport>)
    ensures |r| == |device.fields|
  {
    seq(|device.fields|, k requires 0 <= k < |device.fields| => ExportField(device, device.fields[k].0, device.fields[k].1))
  }

  function ExportDevice(device: DeviceConfig): DeviceExport
  {
    DeviceExport(device.deviceName, device.fieldPrefix, device.displayPrefix, ExportFields(device))
  }

  /** `get_all_devices_config`: one entry per device id. */
  function ExportAll(devices: seq<DeviceConfig>): map<string, DeviceExport>
  {
    if devices == [] then map[]
    else ExportAll(devices[..|devices| - 1])[devices[|devices| - 1].deviceId := ExportDevice(devices[|devices| - 1])]
  }

  /**
   * The export has exactly the registered ids as keys, and with distinct
   * ids each entry describes its device with one field entry per table row.
   */
  lemma {:induction false} ExportAllSpec(devices: seq<DeviceConfig>)
    requires UniqueIds(devices)
    ensures forall id :: id in ExportAll(devices) <==> exists k :: 0 <= k < |devices| && devices[k].deviceId == id
    ensures forall k :: 0 <= k < |devices| ==>
      ExportAll(devices)[devices[k].deviceId] == ExportDevice(devices[k]) &&
      |ExportAll(devices)[devices[k].deviceId].fields| == |devices[k].fields|
    decreases |devices|
  {
    if devices != [] {
      var init := devices[..|devices| - 1];
      assert UniqueIds(init);
      ExportAllSpec(init);
      assert forall k :: 0 <= k < |init| ==> init[k] == devices[k];
    }
  }

  /**
   * A field a device exports carries the label `get_display_label` gives
   * its name, when lookups of that name reach that device and that row.
   */
  lemma {:induction false} ExportedLabelIsDisplayLabel(devices: seq<DeviceConfig>, i: nat, k: nat)
    requires i < |devices| && k < |devices[i].fields|
    requires FirstByPrefix(devices, devices[i].fields[k].0) == Some(devices[i])
    requires UniqueKeys(devices[i].fields)
    ensures ExportFields(devices[i])[k].fullLabel == DisplayLabel(devices, devices[i].fields[k].0)
    ensures ExportFields(devices[i])[k].fieldName == devices[i].fields[k].0
  {
    LookupEntry(devices[i].fields, k);
  }

  // ------------------------------------------------------ the registry

  /** The class-level device dictionary, in registration order. */
  class DeviceRegistry {
    var devices: seq<DeviceConfig>

    /** Importing the module registers DragonRun. */
    constructor ()
      ensures devices == [DragonRun]
    {
      devices := [DragonRun];
    }

    method Register(config: DeviceConfig)
      modifies this
      ensures devices == Registered(old(devices), config)
    {
      devices := Registered(devices, config);
    }

    /** The nested loops building the export. */
    method GetAllDevicesConfig() returns (result: map<string, DeviceExport>)
      ensures result == ExportAll(devices)
    {
      result := map[];
      for i := 0 to |devices|
        invariant result == ExportAll(devices[..i])
      {
        assert devices[..i + 1][..i] == devices[..i];
        var device := devices[i];
        var fields: seq<FieldExport> := [];
        for k := 0 to |device.fields|
          invariant fields == ExportFields(device)[..k]
        {
          var (name, m) := device.fields[k];
          fields := fields + [ExportField(device, name, m)];
        }
        assert fields == ExportFields(device) by { assert ExportFields(device)[..|device.fields|] == ExportFields(device); }
        result := result[device.deviceId := DeviceExport(device.deviceName, device.fieldPrefix, device.displayPrefix, fields)];
      }
      assert devices[..|devices|] == devices;
    }
  }

  // ------------------------------------------------------ the registry after import

  /** With one device registered, a lookup finds it exactly when its prefix starts the name. */
  lemma {:induction false} SingleDeviceLookup(d: DeviceConfig, name: string)
    ensures FirstByPrefix([d], name) == if StartsWith(name, d.fieldPrefix) then Some(d) else None
  {
    assert [d][1..] == [];
  }

  /** Prefix lookups: DragonRun names find DragonRun, other names find nothing. */
  lemma DefaultPrefixLookups()
    ensures FirstByPrefix([DragonRun], "dr_gct") == Some(DragonRun)
    ensures FirstByPrefix([DragonRun], "dr_v_osc") == Some(DragonRun)
    ensures FirstByPrefix([DragonRun], "garmin_gct").None?
    ensures FirstByPrefix([DragonRun], "unknown_field").None?
    ensures FirstByPrefix([DragonRun], "heart_rate").None?
  {
    var prefix := DragonRun.fieldPrefix;
    assert prefix == "dr_";
    SingleDeviceLookup(DragonRun, "dr_gct");
    SingleDeviceLookup(DragonRun, "dr_v_osc");
    SingleDeviceLookup(DragonRun, "garmin_gct");
    SingleDeviceLookup(DragonRun, "unknown_field");
    SingleDeviceLookup(DragonRun, "heart_rate");
    assert "garmin_gct"[0] != prefix[0];
    assert "unknown_field"[0] != prefix[0];
    assert "heart_rate"[0] != prefix[0];
  }

  /** An alias normalises to its target. */
  lemma DefaultNormalizationStance()
    ensures NormalizeFieldName([DragonRun], "dr_stance") == "dr_gct"
  {
    SingleDeviceLookup(DragonRun, "dr_stance");
    LookupAt(DragonRunFieldAliases, 0);
  }

  /** Case variants normalise to the official capitalisation. */
  lemma DefaultNormalizationCase()
    ensures NormalizeFieldName([DragonRun], "dr_ssl") == "dr_SSL"
  {
    SingleDeviceLookup(DragonRun, "dr_ssl");
    LookupAt(DragonRunFieldAliases, 6);
  }

  /** `dr_gct` is labelled `DR_触地时间 (ms)`. */
  lemma DefaultDisplayLabel()
    ensures DisplayLabel([DragonRun], "dr_gct") == "DR_触地时间 (ms)"
  {
    SingleDeviceLookup(DragonRun, "dr_gct");
    LookupAt(DragonRunFields, 5);
    GctFullLabel();
  }

  lemma GctFullLabel()
    ensures FullLabel(DragonRun, DrGct) == "DR_触地时间 (ms)"
  {
  }
}
