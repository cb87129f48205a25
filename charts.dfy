// The chart page's pure helpers: the unit type that decides which fields
// share a Y axis, the first-match grouping of fields for the field
// selector, the time-axis and pace values, the label of imported
// heart-rate fields and the trace colours.
module Charts {
  import opened Wrappers
  import opened Numbers
  import opened Text
  import opened Clock
  import opened Tables

  // ------------------------------------------------------ unit types

  /** `FIELD_UNIT_TYPES`: fields with the same unit type share an axis. */
  const FieldUnitTypes: Table<string> := [
    ("speed", "pace"),
    ("enhanced_speed", "pace"),
    ("avg_speed", "pace"),
    ("max_speed", "pace"),
    ("dr_speed", "pace"),
    ("dr_avg_speed", "pace"),
    ("dr_max_speed", "pace"),
    ("dr_lap_avg_speed", "pace"),
    ("dr_s_avg_speed", "pace"),
    ("heart_rate", "heart_rate"),
    ("avg_heart_rate", "heart_rate"),
    ("max_heart_rate", "heart_rate"),
    ("cadence", "cadence"),
    ("avg_cadence", "cadence"),
    ("max_cadence", "cadence"),
    ("power", "power"),
    ("avg_power", "power"),
    ("max_power", "power"),
    ("altitude", "altitude"),
    ("enhanced_altitude", "altitude"),
    ("total_ascent", "altitude"),
    ("total_descent", "altitude"),
    ("step_length", "step_length"),
    ("avg_step_length", "step_length"),
    ("stride_length", "step_length"),
    ("stance_time", "ground_contact"),
    ("avg_stance_time", "ground_contact"),
    ("gct", "ground_contact"),
    ("stance_time_balance", "stance_balance"),
    ("air_time", "air_time"),
    ("vertical_oscillation", "vertical_oscillation"),
    ("avg_vertical_oscillation", "vertical_oscillation"),
    ("v_osc", "vertical_oscillation"),
    ("grade", "grade"),
    ("temperature", "temperature"),
    ("avg_temperature", "temperature"),
    ("v_pif", "v_pif"),
    ("bias", "bias"),
    ("distance", "distance"),
    ("total_distance", "distance"),
    ("total_calories", "calories")]

  /** The key after a leading `iq_` is removed. */
  function UnitKey(field: string): (k: string)
    ensures StartsWith(field, "iq_") ==> "iq_" + k == field
    ensures !StartsWith(field, "iq_") ==> k == field
  {
    if StartsWith(field, "iq_") then field[3..] else field
  }

  /** An imported heart-rate column: `imported_hr` or `imported_<device>_hr`. */
  predicate ImportedHr(key: string)
  {
    key == "imported_hr" || (StartsWith(key, "imported_") && EndsWith(key, "_hr"))
  }

  /** `getFieldUnitType`. */
  function GetFieldUnitType(field: string): string
  {
    var key := UnitKey(field);
    if ImportedHr(key) then "heart_rate" else Lookup(FieldUnitTypes, key).GetOr(key)
  }

  /**
   * Imported heart-rate columns are heart rate; any other key is its
   * table entry, and a key the table does not list is its own type.
   * A leading `iq_` is ignored.
   */
  lemma {:induction false} GetFieldUnitTypeSpec(field: string)
    ensures var key := UnitKey(field);
      (ImportedHr(key) ==> GetFieldUnitType(field) == "heart_rate") &&
      (!ImportedHr(key) && (forall k :: 0 <= k < |FieldUnitTypes| ==> FieldUnitTypes[k].0 != key) ==>
        GetFieldUnitType(field) == key) &&
      (!ImportedHr(key) ==>
        forall k :: (0 <= k < |FieldUnitTypes| && FieldUnitTypes[k].0 == key &&
          forall j :: 0 <= j < k ==> FieldUnitTypes[j].0 != key) ==>
          GetFieldUnitType(field) == FieldUnitTypes[k].1)
  {
    var key := UnitKey(field);
    LookupSpec(FieldUnitTypes, key);
    forall k | 0 <= k < |FieldUnitTypes| && FieldUnitTypes[k].0 == key && (forall j :: 0 <= j < k ==> FieldUnitTypes[j].0 != key)
      ensures Lookup(FieldUnitTypes, key) == Some(FieldUnitTypes[k].1)
    {
      LookupAt(FieldUnitTypes, k);
    }
  }

  /** An IQ column has the unit type of its key. */
  lemma {:induction false} IqPrefixIgnored(key: string)
    requires !StartsWith(key, "iq_")
    ensures GetFieldUnitType("iq_" + key) == GetFieldUnitType(key)
  {
    assert ("iq_" + key)[..3] == "iq_";
    assert ("iq_" + key)[3..] == key;
  }

  /** Every `imported_<device>_hr` column, IQ-prefixed or not, is heart rate. */
  lemma {:induction false} ImportedIsHeartRate(device: string)
    ensures GetFieldUnitType("imported_" + device + "_hr") == "heart_rate"
    ensures GetFieldUnitType("iq_imported_" + device + "_hr") == "heart_rate"
  {
    ImportedKey(device);
    ImportedHrUnit("imported_" + device + "_hr");
    ImportedHrUnit("iq_imported_" + device + "_hr");
  }

  /** The column name of an imported device is an imported heart-rate key, with or without `iq_`. */
  lemma {:induction false} ImportedKey(device: string)
    ensures ImportedHr(UnitKey("imported_" + device + "_hr"))
    ensures ImportedHr(UnitKey("iq_imported_" + device + "_hr"))
  {
    var key := "imported_" + device + "_hr";
    assert key[..9] == "imported_";
    assert key[|key| - 3..] == "_hr";
    assert UnitKey(key) == key by { assert key[..3] != "iq_" by { assert key[1] == 'm'; } }
    var iq := "iq_imported_" + device + "_hr";
    assert iq[..3] == "iq_";
    assert iq[3..] == key by {
      assert |iq[3..]| == |key|;
      forall i | 0 <= i < |key| ensures iq[3..][i] == key[i] {
        if i < 9 { } else if i < 9 + |device| { assert key[i] == device[i - 9] && iq[i + 3] == device[i - 9]; } else { }
      }
    }
  }

  /** An imported heart-rate key is heart rate whatever the unit table says. */
  lemma {:induction false} ImportedHrUnit(field: string)
    requires ImportedHr(UnitKey(field))
    ensures GetFieldUnitType(field) == "heart_rate"
  {
  }

  // ------------------------------------------------------ grouping

  /**
   * One group of the field selector: a title, a fixed field list and an
   * anchored name prefix (the only kind of `fieldPattern` the
   * configuration uses).
   */
  datatype GroupConfig = GroupConfig(title: string, fields: Option<seq<string>>, pattern: Option<string>)

  /** The title of the group that collects unmatched IQ fields. */
  const UncategorizedTitle := "未分类IQ字段"

  /** `groupConfig.fields.includes(key) || groupConfig.fieldPattern.test(key)`. */
  predicate Matches(g: GroupConfig, key: string)
  {
    (g.fields.Some? && key in g.fields.value) || (g.pattern.Some? && StartsWith(key, g.pattern.value))
  }

  /** The key a field is grouped by: the first `iq_` removed. */
  function GroupKey(field: string): string
  {
    JsReplaceFirst(field, "iq_", "")
  }

  /** The first group from index `j` on that matches `key`. */
  function AssignFrom(config: Table<GroupConfig>, key: string, j: nat): (r: Option<nat>)
    ensures r.Some? ==> j <= r.value < |config| && Matches(config[r.value].1, key)
    decreases |config| - j
  {
    if j >= |config| then None
    else if Matches(config[j].1, key) then Some(j)
    else AssignFrom(config, key, j + 1)
  }

  /** The group, in configuration order, that a key goes to. */
  function Assign(config: Table<GroupConfig>, key: string): Option<nat>
  {
    AssignFrom(config, key, 0)
  }

  /** The chosen group matches and no earlier group does; None means no group matches. */
  lemma {:induction false} AssignFromSpec(config: Table<GroupConfig>, key: string, j: nat)
    ensures AssignFrom(config, key, j).None? <==> forall i :: j <= i < |config| ==> !Matches(config[i].1, key)
    ensures AssignFrom(config, key, j).Some? ==> forall i :: j <= i < AssignFrom(config, key, j).value ==> !Matches(config[i].1, key)
    decreases |config| - j
  {
    if j < |config| && !Matches(config[j].1, key) {
      AssignFromSpec(config, key, j + 1);
    }
  }

  /** The fields of a group entry so far. */
  function FieldsOf(g: GroupConfig): seq<string>
  {
    if g.fields.Some? then g.fields.value else []
  }

  /** `grouped[gk]`, created from its configuration with no fields if absent, gets `field` appended. */
  function AddToGroup(grouped: Table<GroupConfig>, gk: string, cfg: GroupConfig, field: string): Table<GroupConfig>
  {
    match Lookup(grouped, gk)
    case None => Put(grouped, gk, cfg.(fields := Some([field])))
    case Some(g) => Put(grouped, gk, g.(fields := Some(FieldsOf(g) + [field])))
  }

  /** The groups after the fields of `fields` have been placed, in order. */
  function Grouped(fields: seq<string>, config: Table<GroupConfig>): Table<GroupConfig>
    decreases |fields|
  {
    if fields == [] then []
    else
      var rest, field := Grouped(fields[..|fields| - 1], config), fields[|fields| - 1];
      match Assign(config, GroupKey(field))
      case None => rest
      case Some(j) => AddToGroup(rest, config[j].0, config[j].1, field)
  }

  /** The fields, in order, that go to group `j`. */
  function Members(fields: seq<string>, config: Table<GroupConfig>, j: nat): (r: seq<string>)
    ensures forall x :: x in r <==> x in fields && Assign(config, GroupKey(x)) == Some(j)
    decreases |fields|
  {
    if fields == [] then []
    else
      var rest, field := Members(fields[..|fields| - 1], config, j), fields[|fields| - 1];
      assert fields == fields[..|fields| - 1] + [field];
      if Assign(config, GroupKey(field)) == Some(j) then rest + [field] else rest
  }

  /** The fields, in order, that match no group. */
  function Unassigned(fields: seq<string>, config: Table<GroupConfig>): (r: seq<string>)
    ensures forall x :: x in r <==> x in fields && Assign(config, GroupKey(x)).None?
    decreases |fields|
  {
    if fields == [] then []
    else
      var rest, field := Unassigned(fields[..|fields| - 1], config), fields[|fields| - 1];
      assert fields == fields[..|fields| - 1] + [field];
      if Assign(config, GroupKey(field)).None? then rest + [field] else rest
  }

  /** `groupFieldsByConfig`: the placed groups, plus `uncategorized` for IQ fields that matched none. */
  function GroupedFields(fields: seq<string>, config: Table<GroupConfig>, isIqField: bool): Table<GroupConfig>
  {
    var grouped, left := Grouped(fields, config), Unassigned(fields, config);
    if |left| > 0 && isIqField then Put(grouped, "uncategorized", GroupConfig(UncategorizedTitle, Some(left), None))
    else grouped
  }

  /**
   * With distinct group names, each configured group is present exactly
   * when some field was placed in it, and then holds its configuration
   * with exactly those fields in input order; nothing else is present.
   */
  lemma {:induction false} GroupedSpec(fields: seq<string>, config: Table<GroupConfig>, j: nat, k: string)
    requires UniqueKeys(config) && j < |config|
    ensures Lookup(Grouped(fields, config), config[j].0) ==
      if Members(fields, config, j) == [] then None
      else Some(config[j].1.(fields := Some(Members(fields, config, j))))
    ensures Lookup(Grouped(fields, config), k).Some? ==> exists i :: 0 <= i < |config| && config[i].0 == k
    decreases |fields|
  {
    if fields != [] {
      var prefix, field := fields[..|fields| - 1], fields[|fields| - 1];
      GroupedSpec(prefix, config, j, k);
      var rest := Grouped(prefix, config);
      match Assign(config, GroupKey(field))
      case None =>
      case Some(i) =>
        var gk := config[i].0;
        PutSpec(rest, gk, (if Lookup(rest, gk).None? then config[i].1.(fields := Some([field]))
          else Lookup(rest, gk).value.(fields := Some(FieldsOf(Lookup(rest, gk).value) + [field]))), config[j].0);
        PutKeys(rest, gk, (if Lookup(rest, gk).None? then config[i].1.(fields := Some([field]))
          else Lookup(rest, gk).value.(fields := Some(FieldsOf(Lookup(rest, gk).value) + [field]))), k);
        assert Grouped(fields, config) == AddToGroup(rest, gk, config[i].1, field);
        if i == j {
          var m := Members(prefix, config, j);
          assert Members(fields, config, j) == m + [field];
          if m == [] {
            assert [] + [field] == [field];
          } else {
            assert FieldsOf(Lookup(rest, gk).value) == m;
          }
        } else {
          assert config[i].0 != config[j].0;
        }
    }
  }

  /** Each field goes to at most one group, and a matched field never goes to `uncategorized`. */
  lemma {:induction false} NoFieldInTwoGroups(fields: seq<string>, config: Table<GroupConfig>, x: string, i: nat, j: nat)
    requires x in Members(fields, config, i) && x in Members(fields, config, j)
    ensures i == j && x !in Unassigned(fields, config)
  {
  }

  /**
   * The `uncategorized` entry holds exactly the unmatched fields, and is
   * written only for IQ fields when there is at least one; otherwise the
   * result is the placed groups alone.
   */
  lemma {:induction false} UncategorizedSpec(fields: seq<string>, config: Table<GroupConfig>, isIqField: bool, k: string)
    ensures |Unassigned(fields, config)| > 0 && isIqField ==>
      Lookup(GroupedFields(fields, config, isIqField), "uncategorized") ==
        Some(GroupConfig(UncategorizedTitle, Some(Unassigned(fields, config)), None))
    ensures k != "uncategorized" ==> Lookup(GroupedFields(fields, config, isIqField), k) == Lookup(Grouped(fields, config), k)
    ensures |Unassigned(fields, config)| == 0 || !isIqField ==> GroupedFields(fields, config, isIqField) == Grouped(fields, config)
  {
    PutSpec(Grouped(fields, config), "uncategorized",
      GroupConfig(UncategorizedTitle, Some(Unassigned(fields, config)), None), k);
  }

  /** `FIELD_GROUPS.iq`: the groups of the IQ field selector, in configuration order. */
  const IqFieldGroups: Table<GroupConfig> := [
    ("dragonPower", GroupConfig("龙豆-功率", Some(["dr_vertical_power", "dr_propulsive_power",
      "dr_slope_power", "dr_total_power"]), None)),
    ("dragonImpact", GroupConfig("龙豆-冲击力", Some(["dr_v_pif", "dr_h_pif", "dr_v_ilr", "dr_h_ilr",
      "dr_body_x_pif", "dr_body_y_pif", "dr_body_z_pif"]), None)),
    ("dragonDynamics", GroupConfig("龙豆-跑步动态", Some(["dr_gct", "dr_air_time", "dr_v_osc", "dr_vertical_ratio",
      "dr_stride", "dr_cadence", "dr_lss"]), None)),
    ("dragonOther", GroupConfig("龙豆-其他", Some(["dr_timestamp", "dr_distance", "dr_speed", "dr_ssl",
      "dr_ssl_percent"]), None)),
    ("imported", GroupConfig("导入数据", None, Some("imported_"))),
    ("uncategorized", GroupConfig(UncategorizedTitle, Some([]), None))]

  /** The IQ groups have distinct names, and every imported column lands in `imported`. */
  lemma {:induction false} ImportedColumnsGroup(rest: string)
    ensures UniqueKeys(IqFieldGroups)
    ensures Assign(IqFieldGroups, "imported_" + rest) == Some(4) && IqFieldGroups[4].0 == "imported"
  {
    var key := "imported_" + rest;
    assert key[..9] == "imported_";
    assert key[0] == 'i';
    forall j | 0 <= j < 4 ensures !Matches(IqFieldGroups[j].1, key) {
      assert forall f :: f in IqFieldGroups[j].1.fields.value ==> f[0] == 'd';
    }
    assert Matches(IqFieldGroups[4].1, key);
    assert AssignFrom(IqFieldGroups, key, 4) == Some(4);
    assert AssignFrom(IqFieldGroups, key, 3) == Some(4);
    assert AssignFrom(IqFieldGroups, key, 2) == Some(4);
    assert AssignFrom(IqFieldGroups, key, 1) == Some(4);
  }

  /** The forEach over the fields with the inner search over the groups, then the `uncategorized` entry. */
  method GroupFieldsByConfig(fields: seq<string>, config: Table<GroupConfig>, isIqField: bool)
    returns (grouped: Table<GroupConfig>)
    ensures grouped == GroupedFields(fields, config, isIqField)
  {
    grouped := [];
    var uncategorized: seq<string> := [];
    for n := 0 to |fields|
      invariant grouped == Grouped(fields[..n], config)
      invariant uncategorized == Unassigned(fields[..n], config)
    {
      var field := fields[n];
      var key := GroupKey(field);
      var placed := false;
      var j := 0;
      ghost var before := grouped;
      while j < |config| && !placed
        invariant 0 <= j <= |config|
        invariant !placed ==> grouped == before && Assign(config, key) == AssignFrom(config, key, j)
        invariant placed ==>
          Assign(config, key).Some? &&
          grouped == AddToGroup(before, config[Assign(config, key).value].0, config[Assign(config, key).value].1, field)
        decreases |config| - j
      {
        var (groupKey, groupConfig) := config[j];
        if groupConfig.fields.Some? && key in groupConfig.fields.value {
          grouped := AddToGroup(grouped, groupKey, groupConfig, field);
          placed := true;
        } else if groupConfig.pattern.Some? && StartsWith(key, groupConfig.pattern.value) {
          grouped := AddToGroup(grouped, groupKey, groupConfig, field);
          placed := true;
        }
        j := j + 1;
      }
      if !placed {
        uncategorized := uncategorized + [field];
      }
      assert fields[..n + 1][..n] == fields[..n];
    }
    assert fields[..|fields|] == fields;
    if |uncategorized| > 0 && isIqField {
      grouped := Put(grouped, "uncategorized", GroupConfig(UncategorizedTitle, Some(uncategorized), None));
    }
  }

  // ------------------------------------------------------ time axis and pace

  /** `formatTimeAxis`: "" for null, else `Math.floor(s / 60)` and `Math.floor(s % 60)` as `M:SS`. */
  function FormatTimeAxis(seconds: Option<real>): string
  {
    if seconds.None? then ""
    else MinSec((seconds.value / 60.0).Floor, JsRem(seconds.value, 60.0).Floor)
  }

  /**
   * Null gives ""; a non-negative time reads back as whole minutes (not
   * wrapped at the hour) and seconds below 60 that add up to its whole
   * seconds.
   */
  lemma {:induction false} FormatTimeAxisSpec(seconds: Option<real>)
    ensures seconds.None? ==> FormatTimeAxis(seconds) == ""
    ensures seconds.Some? && seconds.value >= 0.0 ==>
      var x := seconds.value;
      PyMinutes(x) >= 0 && ReadsMinSec(FormatTimeAxis(seconds), PyMinutes(x), PySeconds(x)) &&
      60 * PyMinutes(x) + PySeconds(x) == x.Floor
  {
    if seconds.Some? && seconds.value >= 0.0 {
      var x := seconds.value;
      JsRemOfNonNegative(x, 60.0);
      SplitMinutes(x);
      MinSecReadBack(PyMinutes(x), PySeconds(x));
    }
  }

  /** 90 seconds is `1:30`. */
  lemma {:induction false} TimeAxisNinety()
    ensures FormatTimeAxis(Some(90.0)) == "1:30"
  {
    assert JsRem(90.0, 60.0) == 30.0 by { JsRemOfNonNegative(90.0, 60.0); }
    assert IntToString(30) == "30" by { assert NatToString(30) == NatToString(3) + [DigitChar(0)]; }
  }

  /** 3661 seconds is `61:01`: the minutes do not wrap at the hour. */
  lemma {:induction false} TimeAxisOverAnHour()
    ensures FormatTimeAxis(Some(3661.0)) == "61:01"
  {
    assert JsRem(3661.0, 60.0) == 1.0 by { JsRemOfNonNegative(3661.0, 60.0); }
    assert IntToString(61) == "61" by { assert NatToString(61) == NatToString(6) + [DigitChar(1)]; }
  }

  /** `speedToPaceValue`: minutes per kilometre, null for a falsy or non-positive speed. */
  function SpeedToPaceValue(speed: Option<real>): Option<real>
  {
    if speed.None? || speed.value <= 0.0 then None else Some(1000.0 / 60.0 / speed.value)
  }

  /**
   * A pace exists exactly for a positive speed; pace times speed is a
   * kilometre in minutes' terms, and in seconds it is the back end's
   * `1000 / speed`.
   */
  lemma {:induction false} SpeedToPaceValueSpec(speed: Option<real>)
    ensures SpeedToPaceValue(speed).Some? <==> speed.Some? && speed.value > 0.0
    ensures SpeedToPaceValue(speed).Some? ==>
      SpeedToPaceValue(speed).value > 0.0 &&
      SpeedToPaceValue(speed).value * speed.value == 1000.0 / 60.0 &&
      SpeedToPaceValue(speed).value * 60.0 == 1000.0 / speed.value
  {
  }

  /** A faster speed gives a strictly smaller pace. */
  lemma {:induction false} PaceDecreasing(a: real, b: real)
    requires 0.0 < a < b
    ensures SpeedToPaceValue(Some(b)).value < SpeedToPaceValue(Some(a)).value
  {
    var k := 1000.0 / 60.0;
    assert k / b < k / a by {
      assert k / b * b == k && k / a * a == k;
      assert k / a * b > k / a * a;
    }
  }

  // ------------------------------------------------------ imported labels

  /** `substring(a, b)`: both ends clamped to the string, swapped when `a > b`. */
  function JsSubstring(s: string, a: int, b: int): (r: string)
    ensures 0 <= a <= b <= |s| ==> r == s[a..b]
  {
    var lo := if a < 0 then 0 else if a > |s| then |s| else a;
    var hi := if b < 0 then 0 else if b > |s| then |s| else b;
    if lo <= hi then s[lo..hi] else s[hi..lo]
  }

  /**
   * The label of an imported heart-rate column, for keys that the device
   * configuration does not know; None where the key is not such a column.
   */
  function ImportedLabel(key: string): Option<string>
  {
    if key == "imported_hr" then Some("导入_心率 (bpm)")
    else if StartsWith(key, "imported_") && EndsWith(key, "_hr") then
      var device := JsSubstring(key, |"imported_"|, |key| - |"_hr"|);
      Some(if device != "" then "导入_" + device + "_心率 (bpm)" else "导入_心率 (bpm)")
    else None
  }

  /**
   * `imported_<device>_hr` is labelled with the device, an empty device
   * falls back to the generic label, and only imported heart-rate keys
   * get an imported label.
   */
  lemma {:induction false} ImportedLabelSpec(device: string, key: string)
    ensures ImportedLabel("imported_" + device + "_hr") ==
      Some(if device != "" then "导入_" + device + "_心率 (bpm)" else "导入_心率 (bpm)")
    ensures ImportedLabel(key).Some? <==> ImportedHr(key)
  {
    var k := "imported_" + device + "_hr";
    assert k[..9] == "imported_";
    assert k[|k| - 3..] == "_hr";
    assert k[9..|k| - 3] == device;
  }

  // ------------------------------------------------------ trace colours

  /** `COLOR_PALETTE`: sixteen high-contrast colours. */
  const ColorPalette: seq<string> := [
    "#e74c3c", "#3498db", "#2ecc71", "#f39c12",
    "#9b59b6", "#1abc9c", "#e67e22", "#34495e",
    "#c0392b", "#2980b9", "#27ae60", "#8e44ad",
    "#d35400", "#16a085", "#f1c40f", "#7f8c8d"]

  /** JavaScript `%` on integers: the sign follows the dividend. */
  function JsIntRem(a: int, n: int): (r: int)
    requires n > 0
    ensures a >= 0 ==> r == a % n
    ensures a < 0 ==> -n < r <= 0 && r == -((-a) % n)
  {
    if a >= 0 then a % n else -((-a) % n)
  }

  /** `getTraceColor`: undefined (None) where JavaScript's remainder is negative. */
  function GetTraceColor(index: int): Option<string>
  {
    var r := JsIntRem(index, |ColorPalette|);
    if 0 <= r < |ColorPalette| then Some(ColorPalette[r]) else None
  }

  /** No two palette entries are the same colour. */
  lemma {:induction false} PaletteDistinct()
    ensures forall i, j :: 0 <= i < j < |ColorPalette| ==> ColorPalette[i] != ColorPalette[j]
  {
  }

  /**
   * Colours repeat with period 16 and sixteen consecutive traces all
   * differ; a negative index that is not a multiple of 16 has no colour.
   */
  lemma {:induction false} GetTraceColorSpec(i: int, j: int)
    ensures i >= 0 ==> GetTraceColor(i) == Some(ColorPalette[i % 16])
    ensures i >= 0 ==> GetTraceColor(i + 16) == GetTraceColor(i)
    ensures 0 <= i < j < i + 16 ==> GetTraceColor(i) != GetTraceColor(j)
    ensures i < 0 && i % 16 != 0 ==> GetTraceColor(i).None?
  {
    PaletteDistinct();
    if 0 <= i < j < i + 16 {
      assert i % 16 != j % 16;
    }
  }
}
