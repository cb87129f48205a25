// Unit normalisation of FIT field values: per-field scale factors with a
// plausible range, and a fallback that searches a fixed list of scale
// factors for one that brings a value into range.
module FieldUnits {
  import opened Wrappers
  import opened Tables

  /** A field's FIT unit, display unit, scale factor and plausible range after scaling. */
  datatype UnitConfig = UnitConfig(
    fieldName: string,
    fitUnit: string,
    displayUnit: string,
    scaleFactor: real,
    low: real,
    high: real)

  /** A table entry keyed by the field's own name. */
  function Entry(name: string, fitUnit: string, displayUnit: string, scaleFactor: real, low: real, high: real): (e: (string, UnitConfig))
    ensures e.0 == name && e.1.fieldName == name
  {
    (name, UnitConfig(name, fitUnit, displayUnit, scaleFactor, low, high))
  }

  /** `180 / 2**31`: semicircles to degrees. */
  const SemicircleDegrees: real := 180.0 / 2147483648.0

  /** Standard FIT fields. */
  const StandardFieldUnits: Table<UnitConfig> := [
    Entry("vertical_oscillation", "mm", "cm", 0.1, 3.0, 20.0),
    Entry("avg_vertical_oscillation", "mm", "cm", 0.1, 3.0, 20.0),
    Entry("step_length", "mm", "m", 0.001, 0.4, 2.5),
    Entry("avg_step_length", "mm", "m", 0.001, 0.4, 2.5),
    Entry("stance_time", "ms", "ms", 1.0, 150.0, 400.0),
    Entry("avg_stance_time", "ms", "ms", 1.0, 150.0, 400.0),
    Entry("stance_time_percent", "percent", "percent", 0.01, 20.0, 50.0),
    Entry("avg_stance_time_percent", "percent", "percent", 0.01, 20.0, 50.0),
    Entry("position_lat", "semicircles", "degrees", SemicircleDegrees, -90.0, 90.0),
    Entry("position_long", "semicircles", "degrees", SemicircleDegrees, -180.0, 180.0),
    Entry("speed", "m/s", "m/s", 0.001, 0.5, 15.0),
    Entry("avg_speed", "m/s", "m/s", 0.001, 0.5, 15.0),
    Entry("enhanced_speed", "m/s", "m/s", 0.001, 0.5, 15.0),
    Entry("enhanced_avg_speed", "m/s", "m/s", 0.001, 0.5, 15.0),
    Entry("heart_rate", "bpm", "bpm", 1.0, 40.0, 220.0),
    Entry("avg_heart_rate", "bpm", "bpm", 1.0, 40.0, 220.0),
    Entry("max_heart_rate", "bpm", "bpm", 1.0, 40.0, 220.0),
    Entry("cadence", "rpm", "spm", 2.0, 140.0, 220.0),
    Entry("avg_cadence", "rpm", "spm", 2.0, 140.0, 220.0),
    Entry("max_cadence", "rpm", "spm", 2.0, 140.0, 220.0),
    Entry("power", "watts", "watts", 1.0, 50.0, 1500.0),
    Entry("avg_power", "watts", "watts", 1.0, 50.0, 1500.0),
    Entry("max_power", "watts", "watts", 1.0, 50.0, 1500.0),
    Entry("altitude", "m", "m", 0.2, -500.0, 9000.0),
    Entry("enhanced_altitude", "m", "m", 0.2, -500.0, 9000.0),
    Entry("total_ascent", "m", "m", 1.0, 0.0, 10000.0),
    Entry("total_descent", "m", "m", 1.0, 0.0, 10000.0),
    Entry("distance", "m", "m", 0.01, 0.0, 500000.0),
    Entry("total_distance", "m", "m", 0.01, 0.0, 500000.0),
    Entry("calories", "kcal", "kcal", 1.0, 0.0, 10000.0),
    Entry("total_calories", "kcal", "kcal", 1.0, 0.0, 10000.0)
  ]

  /** Developer (IQ) fields. */
  const IqFieldUnits: Table<UnitConfig> := [
    Entry("dr_timestamp", "ms", "ms", 1.0, 0.0, 100000.0),
    Entry("dr_distance", "m", "m", 1.0, 0.0, 100000.0),
    Entry("dr_speed", "m/s", "m/s", 1.0, 0.5, 15.0),
    Entry("dr_cadence", "spm", "spm", 1.0, 140.0, 220.0),
    Entry("dr_stride", "cm", "cm", 1.0, 50.0, 200.0),
    Entry("dr_gct", "ms", "ms", 1.0, 150.0, 400.0),
    Entry("dr_air_time", "ms", "ms", 1.0, 50.0, 300.0),
    Entry("dr_v_osc", "cm", "cm", 1.0, 3.0, 20.0),
    Entry("dr_vertical_ratio", "percent", "percent", 1.0, 0.0, 15.0),
    Entry("dr_ssl", "", "", 1.0, 0.0, 50.0),
    Entry("dr_ssl_percent", "percent", "percent", 1.0, 0.0, 30.0),
    Entry("dr_vertical_power", "watts", "watts", 1.0, 0.0, 500.0),
    Entry("dr_propulsive_power", "watts", "watts", 1.0, 0.0, 500.0),
    Entry("dr_slope_power", "watts", "watts", 1.0, 0.0, 500.0),
    Entry("dr_total_power", "watts", "watts", 1.0, 0.0, 1000.0),
    Entry("dr_lss", "", "", 1.0, 5.0, 25.0),
    Entry("dr_v_ilr", "", "", 1.0, 5.0, 30.0),
    Entry("dr_h_ilr", "", "", 1.0, 5.0, 30.0),
    Entry("dr_v_pif", "", "", 1.0, 0.0, 10.0),
    Entry("dr_h_pif", "", "", 1.0, 0.0, 10.0),
    Entry("dr_body_x_pif", "", "", 1.0, 0.0, 10.0),
    Entry("dr_body_y_pif", "", "", 1.0, 0.0, 10.0),
    Entry("dr_body_z_pif", "", "", 1.0, 0.0, 10.0),
    Entry("v_osc", "cm", "cm", 1.0, 3.0, 20.0),
    Entry("gct", "ms", "ms", 1.0, 150.0, 400.0),
    Entry("air_time", "ms", "ms", 1.0, 50.0, 300.0),
    Entry("stride_length", "m", "m", 1.0, 0.8, 3.0),
    Entry("v_pif", "", "", 1.0, 0.0, 100.0),
    Entry("bias", "percent", "percent", 1.0, 45.0, 55.0),
    Entry("form_power", "watts", "watts", 1.0, 0.0, 500.0),
    Entry("leg_spring_stiffness", "", "", 1.0, 5.0, 20.0)
  ]

  /**
   * The range of a field by its configured name, over both tables: a name
   * configured twice keeps its position from the first time and the range
   * from the last.
   */
  function RangesOf(configs: seq<UnitConfig>): map<string, (real, real)>
  {
    if configs == [] then map[]
    else
      var last := configs[|configs| - 1];
      RangesOf(configs[..|configs| - 1])[last.fieldName := (last.low, last.high)]
  }

  /** The names with a range are the configured names. */
  lemma {:induction false} RangesOfDomain(configs: seq<UnitConfig>)
    ensures forall name :: name in RangesOf(configs) <==> exists k :: 0 <= k < |configs| && configs[k].fieldName == name
    decreases |configs|
  {
    if configs != [] {
      var init := configs[..|configs| - 1];
      var last := configs[|configs| - 1];
      RangesOfDomain(init);
      forall name ensures name in RangesOf(configs) <==> exists k :: 0 <= k < |configs| && configs[k].fieldName == name {
        if name != last.fieldName && exists k :: 0 <= k < |configs| && configs[k].fieldName == name {
          var k :| 0 <= k < |configs| && configs[k].fieldName == name;
          assert init[k].fieldName == name;
        }
      }
    }
  }

  /** A name has the range of its last configuration. */
  lemma {:induction false} RangesOfLast(configs: seq<UnitConfig>, k: nat)
    requires k < |configs| && forall j :: k < j < |configs| ==> configs[j].fieldName != configs[k].fieldName
    ensures configs[k].fieldName in RangesOf(configs)
    ensures RangesOf(configs)[configs[k].fieldName] == (configs[k].low, configs[k].high)
    decreases |configs|
  {
    var init := configs[..|configs| - 1];
    if k < |init| {
      assert init[k] == configs[k];
      assert forall j :: k < j < |init| ==> init[j] == configs[j];
      RangesOfLast(init, k);
    }
  }

  const FieldReasonableRanges: map<string, (real, real)> := RangesOf(Values(StandardFieldUnits) + Values(IqFieldUnits))

  // ------------------------------------------------------ range checks and detection

  /** Python's chained `low <= v <= high`. */
  predicate InRange(v: real, low: real, high: real)
  {
    low <= v && v <= high
  }

  /** The fallback scale factors, tried in this order. */
  const ScaleFactors: seq<real> := [0.1, 0.01, 0.001, 10.0, 100.0, 1000.0]

  /** The value under each scale factor, in order. */
  function Rescalings(value: real, scales: seq<real>): (r: seq<real>)
    ensures |r| == |scales|
  {
    seq(|scales|, k requires 0 <= k < |scales| => value * scales[k])
  }

  /** The loop over the scale factors: the first rescaled value that lands in range. */
  function FirstInRange(candidates: seq<real>, low: real, high: real): Option<real>
  {
    if candidates == [] then None
    else if InRange(candidates[0], low, high) then Some(candidates[0])
    else FirstInRange(candidates[1..], low, high)
  }

  /**
   * The search fails exactly when no candidate is in range; otherwise it
   * gives the first candidate that is.
   */
  lemma {:induction false} FirstInRangeSpec(candidates: seq<real>, low: real, high: real)
    ensures FirstInRange(candidates, low, high).None? <==>
      forall k :: 0 <= k < |candidates| ==> !InRange(candidates[k], low, high)
    ensures FirstInRange(candidates, low, high).Some? ==>
      exists k :: 0 <= k < |candidates| && FirstInRange(candidates, low, high).value == candidates[k] &&
        InRange(candidates[k], low, high) &&
        forall j :: 0 <= j < k ==> !InRange(candidates[j], low, high)
    decreases |candidates|
  {
    if candidates != [] && !InRange(candidates[0], low, high) {
      var rest := candidates[1..];
      FirstInRangeSpec(rest, low, high);
      assert forall k :: 1 <= k < |candidates| ==> candidates[k] == rest[k - 1];
      if FirstInRange(rest, low, high).Some? {
        var k :| 0 <= k < |rest| && FirstInRange(rest, low, high).value == rest[k] &&
          InRange(rest[k], low, high) && forall j :: 0 <= j < k ==> !InRange(rest[j], low, high);
        assert candidates[k + 1] == rest[k];
      }
    }
  }

  /** `smart_unit_detection`: the value itself when in range, else the first in-range rescaling. */
  function SmartUnitDetection(value: real, low: real, high: real): Option<real>
  {
    if InRange(value, low, high) then Some(value)
    else FirstInRange(Rescalings(value, ScaleFactors), low, high)
  }

  /**
   * An in-range value is kept; any result is in range; the result is the
   * value times the first scale factor that brings it into range, and
   * there is none exactly when no scale factor does.
   */
  lemma {:induction false} SmartUnitDetectionSpec(value: real, low: real, high: real)
    ensures InRange(value, low, high) ==> SmartUnitDetection(value, low, high) == Some(value)
    ensures SmartUnitDetection(value, low, high).Some? ==> InRange(SmartUnitDetection(value, low, high).value, low, high)
    ensures !InRange(value, low, high) ==>
      (SmartUnitDetection(value, low, high).None? <==>
         forall k :: 0 <= k < |ScaleFactors| ==> !InRange(Rescalings(value, ScaleFactors)[k], low, high))
    ensures !InRange(value, low, high) && SmartUnitDetection(value, low, high).Some? ==>
      exists k :: 0 <= k < |ScaleFactors| && SmartUnitDetection(value, low, high).value == value * ScaleFactors[k] &&
        forall j :: 0 <= j < k ==> !InRange(value * ScaleFactors[j], low, high)
  {
    var cs := Rescalings(value, ScaleFactors);
    FirstInRangeSpec(cs, low, high);
    if !InRange(value, low, high) && SmartUnitDetection(value, low, high).Some? {
      var k :| 0 <= k < |cs| && FirstInRange(cs, low, high).value == cs[k] &&
        InRange(cs[k], low, high) && forall j :: 0 <= j < k ==> !InRange(cs[j], low, high);
      assert forall j :: 0 <= j <= k ==> cs[j] == value * ScaleFactors[j];
    }
  }

  // ------------------------------------------------------ normalisation

  /**
   * `normalize_field_value` over a given configuration table and range
   * table: the configured conversion when it lands in range, else
   * detection on the raw value, else the conversion anyway; an unconfigured
   * field with a known range goes through detection; anything else is
   * returned as it is.
   */
  function NormalizeWith(configs: Table<UnitConfig>, ranges: map<string, (real, real)>, name: string, value: Option<real>): Option<real>
  {
    if value.None? then None
    else
      match Lookup(configs, name)
      case Some(c) =>
        var converted := value.value * c.scaleFactor;
        if InRange(converted, c.low, c.high) then Some(converted)
        else Some(SmartUnitDetection(value.value, c.low, c.high).GetOr(converted))
      case None =>
        if name in ranges then Some(SmartUnitDetection(value.value, ranges[name].0, ranges[name].1).GetOr(value.value))
        else Some(value.value)
  }

  /** The configuration table the flag selects. */
  function ConfigTable(isIqField: bool): Table<UnitConfig>
  {
    if isIqField then IqFieldUnits else StandardFieldUnits
  }

  function NormalizeFieldValue(name: string, value: Option<real>, isIqField: bool): Option<real>
  {
    NormalizeWith(ConfigTable(isIqField), FieldReasonableRanges, name, value)
  }

  /** Nothing in, nothing out. */
  lemma {:induction false} NormalizeWithNone(configs: Table<UnitConfig>, ranges: map<string, (real, real)>, name: string, value: Option<real>)
    ensures NormalizeWith(configs, ranges, name, value).None? <==> value.None?
  {
  }

  /**
   * A configured field gets its conversion whenever that is in range, and
   * otherwise an in-range rescaling of the raw value if detection finds
   * one, the out-of-range conversion if not.
   */
  lemma {:induction false} NormalizeWithConfigured(configs: Table<UnitConfig>, ranges: map<string, (real, real)>, name: string, value: real)
    requires Lookup(configs, name).Some?
    ensures var c := Lookup(configs, name).value;
      var converted := value * c.scaleFactor;
      var r := NormalizeWith(configs, ranges, name, Some(value));
      r.Some? &&
      (InRange(converted, c.low, c.high) ==> r.value == converted) &&
      (!InRange(converted, c.low, c.high) && SmartUnitDetection(value, c.low, c.high).Some? ==>
         r == SmartUnitDetection(value, c.low, c.high) && InRange(r.value, c.low, c.high)) &&
      (!InRange(converted, c.low, c.high) && SmartUnitDetection(value, c.low, c.high).None? ==> r.value == converted) &&
      (r.value == converted || InRange(r.value, c.low, c.high))
  {
    var c := Lookup(configs, name).value;
    SmartUnitDetectionSpec(value, c.low, c.high);
  }

  /**
   * A field without configuration goes through detection when it has a
   * known range, keeping the raw value when detection fails, and is
   * returned unchanged when it has none.
   */
  lemma {:induction false} NormalizeWithUnconfigured(configs: Table<UnitConfig>, ranges: map<string, (real, real)>, name: string, value: real)
    requires Lookup(configs, name).None?
    ensures var r := NormalizeWith(configs, ranges, name, Some(value));
      r.Some? &&
      (name !in ranges ==> r.value == value) &&
      (name in ranges ==> r.value == value || InRange(r.value, ranges[name].0, ranges[name].1)) &&
      (name in ranges && SmartUnitDetection(value, ranges[name].0, ranges[name].1).Some? ==>
         r == SmartUnitDetection(value, ranges[name].0, ranges[name].1))
  {
    if name in ranges {
      SmartUnitDetectionSpec(value, ranges[name].0, ranges[name].1);
    }
  }

  // ------------------------------------------------------ examples

  /** A standard vertical oscillation of 79.1 mm is 7.91 cm. */
  lemma VerticalOscillationExample()
    ensures NormalizeFieldValue("vertical_oscillation", Some(79.1), false) == Some(7.91)
  {
    LookupAt(StandardFieldUnits, 0);
  }

  /** A DragonRun timestamp out of range is rescaled by detection. */
  lemma DragonRunTimestampExample()
    ensures NormalizeFieldValue("dr_timestamp", Some(200000.0), true) == Some(20000.0)
  {
    LookupAt(IqFieldUnits, 0);
  }
}
