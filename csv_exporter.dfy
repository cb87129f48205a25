// The CSV exporter: the cell formatting of durations, paces and
// timestamps, the flattening of a record into a row dictionary, and the
// header that `write_csv` computes for a list of rows.
module CsvExporter {
  import opened Wrappers
  import opened Numbers
  import opened Text
  import opened Clock
  import opened Seqs
  import opened Sorting
  import opened Models
  import FitParser

  // ------------------------------------------------------ cell formatting

  /** `strftime("%Y-%m-%d %H:%M:%S")` of a present timestamp, "" for a missing one. */
  function FormatTimestamp(ts: Option<real>, strftime: real -> string): (r: string)
    ensures ts.None? ==> r == ""
  {
    if ts.None? then "" else strftime(ts.value)
  }

  /** The pace as `M:SS`, with "" where the parser would print `--:--`. */
  function FormatPace(speed: Option<real>): string
  {
    if speed.None? || speed.value <= 0.0 then "" else PaceText(speed.value)
  }

  /**
   * The exporter's pace is empty exactly when there is no forward speed,
   * and otherwise is the parser's pace string, whose read-back is
   * `FitParser.SpeedToPaceSpec`.
   */
  lemma {:induction false} FormatPaceSpec(speed: Option<real>)
    ensures FormatPace(speed) == "" <==> speed.None? || speed.value <= 0.0
    ensures FormatPace(speed) != "" ==> FormatPace(speed) == FitParser.SpeedToPace(speed)
    ensures FormatPace(speed) == "" <==> FitParser.SpeedToPace(speed) == "--:--"
  {
    FitParser.SpeedToPaceSpec(speed);
    if speed.Some? && speed.value > 0.0 {
      PaceTextSpec(speed.value);
    }
  }

  /** `H:MM:SS` when the hours are positive, otherwise minutes-of-the-hour and seconds. */
  function FormatDuration(seconds: Option<real>): string
  {
    if seconds.None? then ""
    else
      var x := seconds.value;
      if PyHours(x) > 0 then HourMinSec(PyHours(x), PyMinuteOfHour(x), PySeconds(x))
      else MinSec(PyMinuteOfHour(x), PySeconds(x))
  }

  /**
   * A missing duration is "". A duration of an hour or more reads back as
   * `H:MM:SS` with at least one hour, a shorter non-negative one as
   * `M:SS`; either way the parts, minutes and seconds below 60, add up to
   * the whole seconds of the duration.
   */
  lemma {:induction false} FormatDurationSpec(seconds: Option<real>)
    ensures seconds.None? ==> FormatDuration(seconds) == ""
    ensures seconds.Some? && seconds.value >= 3600.0 ==>
      var x := seconds.value;
      PyHours(x) >= 1 &&
      ReadsHourMinSec(FormatDuration(seconds), PyHours(x), PyMinuteOfHour(x), PySeconds(x)) &&
      3600 * PyHours(x) + 60 * PyMinuteOfHour(x) + PySeconds(x) == x.Floor
    ensures seconds.Some? && 0.0 <= seconds.value < 3600.0 ==>
      var x := seconds.value;
      ReadsMinSec(FormatDuration(seconds), PyMinuteOfHour(x), PySeconds(x)) &&
      60 * PyMinuteOfHour(x) + PySeconds(x) == x.Floor
  {
    if seconds.Some? && seconds.value >= 0.0 {
      var x := seconds.value;
      SplitHours(x);
      var h, m, s := PyHours(x), PyMinuteOfHour(x), PySeconds(x);
      if x >= 3600.0 {
        assert x.Floor >= 3600;
        assert h >= 1;
        HourMinSecReadBack(h, m, s);
      } else {
        assert x.Floor < 3600;
        assert h == 0;
        MinSecReadBack(m, s);
      }
    }
  }

  /** `round(x, 3)` on exact reals: the nearest thousandth, ties to even. */
  function Round3(x: real): (r: real)
    ensures -0.0005 <= r - x <= 0.0005
  {
    RoundHalfEven(x * 1000.0) as real / 1000.0
  }

  // ------------------------------------------------------ record rows

  /** A value in a row dictionary: None, a number, a string, or an IQ value as stored. */
  datatype Cell = Missing | Number(x: real) | Str(s: string) | Iq(v: Value)

  function NumberCell(x: Option<real>): Cell
  {
    if x.Some? then Number(x.value) else Missing
  }

  /** The base columns of a record row, before the IQ columns. */
  const BaseKeys: seq<string> := [
    "timestamp", "elapsed_time", "elapsed_time_formatted", "distance_m", "distance_km",
    "heart_rate_bpm", "speed_mps", "pace_min_km", "cadence_spm", "power_w",
    "altitude_m", "latitude", "longitude", "grade_percent", "temperature_c",
    "vertical_oscillation_cm", "stance_time_ms", "stance_time_balance_percent", "step_length_m"]

  /** The value of one base column for `record`. */
  function BaseCell(record: Record, key: string, strftime: real -> string): Cell
  {
    match key
    case "timestamp" => Str(FormatTimestamp(record.timestamp, strftime))
    case "elapsed_time" => NumberCell(record.elapsedTime)
    case "elapsed_time_formatted" => Str(FormatDuration(record.elapsedTime))
    case "distance_m" => NumberCell(record.distance)
    case "distance_km" => if record.distance.Some? then Number(Round3(record.distance.value / 1000.0)) else Missing
    case "heart_rate_bpm" => NumberCell(record.heartRate)
    case "speed_mps" => NumberCell(record.speed)
    case "pace_min_km" => Str(FormatPace(record.speed))
    case "cadence_spm" => NumberCell(record.cadence)
    case "power_w" => NumberCell(record.power)
    case "altitude_m" => NumberCell(record.altitude)
    case "latitude" => NumberCell(record.positionLat)
    case "longitude" => NumberCell(record.positionLong)
    case "grade_percent" => NumberCell(record.grade)
    case "temperature_c" => NumberCell(record.temperature)
    case "vertical_oscillation_cm" => NumberCell(record.verticalOscillation)
    case "stance_time_ms" => NumberCell(record.stanceTime)
    case "stance_time_balance_percent" => NumberCell(record.stanceTimeBalance)
    case "step_length_m" => NumberCell(record.stepLength)
    case _ => Missing
  }

  /** The base part of the row dictionary. */
  function BaseRow(record: Record, strftime: real -> string): map<string, Cell>
  {
    map k | k in BaseKeys :: BaseCell(record, k, strftime)
  }

  /** The column name of the IQ key `q`. */
  function IqColumn(q: string): (k: string)
    ensures |k| == |q| + 3 && k[..3] == "iq_" && k[3..] == q
  {
    "iq_" + q
  }

  /** The IQ columns for the keys in `done`: `iq_<key>` holds the stored value. */
  function IqColumns(iq: map<string, Value>, done: set<string>): map<string, Cell>
  {
    map q | q in done && q in iq :: IqColumn(q) := Iq(iq[q])
  }

  /** Every key of the record's IQ dictionary, prefixed. */
  function FlatRow(record: Record, strftime: real -> string): map<string, Cell>
  {
    BaseRow(record, strftime) + IqColumns(record.iqFields, record.iqFields.Keys)
  }

  /** Whether `include_fields` keeps the column `k`: an empty or missing list keeps all. */
  predicate Kept(includeFields: Option<seq<string>>, k: string)
  {
    includeFields.None? || |includeFields.value| == 0 ||
    k in includeFields.value || k == "timestamp" || k == "elapsed_time"
  }

  /** The `include_fields` filter on a row. */
  function KeepColumns(row: map<string, Cell>, includeFields: Option<seq<string>>): map<string, Cell>
  {
    map k | k in row && Kept(includeFields, k) :: row[k]
  }

  /** `record_to_dict`: the flattened row, then the `include_fields` filter. */
  function RecordDict(record: Record, includeFields: Option<seq<string>>, strftime: real -> string): map<string, Cell>
  {
    KeepColumns(FlatRow(record, strftime), includeFields)
  }

  /** One more IQ key done adds its column. */
  lemma {:induction false} IqColumnsStep(iq: map<string, Value>, done: set<string>, q: string)
    requires q in iq
    ensures IqColumns(iq, done + {q}) == IqColumns(iq, done)[IqColumn(q) := Iq(iq[q])]
  {
    var a, b := IqColumns(iq, done + {q}), IqColumns(iq, done)[IqColumn(q) := Iq(iq[q])];
    forall k | k in a ensures k in b && a[k] == b[k] {
      var p :| p in done + {q} && p in iq && k == IqColumn(p);
    }
    forall k | k in b ensures k in a {
      if k != IqColumn(q) {
        var p :| p in done && p in iq && k == IqColumn(p);
      }
    }
  }

  /** No keys done, no columns. */
  lemma {:induction false} IqColumnsEmpty(iq: map<string, Value>)
    ensures IqColumns(iq, {}) == map[]
  {
    assert forall k :: k !in IqColumns(iq, {});
  }

  /** Adding the column of one more IQ key to a row. */
  lemma {:induction false} AddIqColumnStep(base: map<string, Cell>, iq: map<string, Value>, done: set<string>, q: string)
    requires q in iq
    ensures (base + IqColumns(iq, done))[IqColumn(q) := Iq(iq[q])] == base + IqColumns(iq, done + {q})
  {
    IqColumnsStep(iq, done, q);
    var b := IqColumns(iq, done);
    assert (base + b)[IqColumn(q) := Iq(iq[q])] == base + b[IqColumn(q) := Iq(iq[q])];
  }

  /** The loop of `record_to_dict` over the IQ dictionary: one `iq_<key>` column per key. */
  method AddIqColumns(base: map<string, Cell>, iq: map<string, Value>) returns (data: map<string, Cell>)
    ensures data == base + IqColumns(iq, iq.Keys)
  {
    data := base;
    var todo := iq.Keys;
    ghost var done: set<string> := {};
    IqColumnsEmpty(iq);
    while todo != {}
      invariant todo + done == iq.Keys && todo !! done
      invariant data == base + IqColumns(iq, done)
      decreases todo
    {
      var key :| key in todo;
      AddIqColumnStep(base, iq, done, key);
      data := data[IqColumn(key) := Iq(iq[key])];
      done := done + {key};
      todo := todo - {key};
    }
  }

  /** `record_to_dict`: the base columns, the IQ columns, then the filter. */
  method RecordToDict(record: Record, includeFields: Option<seq<string>>, strftime: real -> string)
    returns (data: map<string, Cell>)
    ensures data == RecordDict(record, includeFields, strftime)
  {
    data := AddIqColumns(BaseRow(record, strftime), record.iqFields);
    if includeFields.Some? && |includeFields.value| > 0 {
      data := KeepColumns(data, includeFields);
    } else {
      KeepColumnsSpec(data, includeFields);
    }
  }

  /** No base column starts with `iq_`, so no IQ column can replace one. */
  lemma {:induction false} BaseKeysNotIq(k: string)
    requires k in BaseKeys
    ensures !StartsWith(k, "iq_")
  {
    var i :| 0 <= i < |BaseKeys| && BaseKeys[i] == k;
    assert k[0] != 'i';
  }

  /**
   * The flattened row: every base column with its value, and `iq_<key>`
   * with the stored value for every IQ key; and no other column.
   */
  lemma {:induction false} FlatRowSpec(record: Record, strftime: real -> string)
    ensures forall k :: k in BaseKeys ==>
      k in FlatRow(record, strftime) && FlatRow(record, strftime)[k] == BaseCell(record, k, strftime)
    ensures forall q :: q in record.iqFields ==>
      IqColumn(q) in FlatRow(record, strftime) && FlatRow(record, strftime)[IqColumn(q)] == Iq(record.iqFields[q])
    ensures forall k :: k in FlatRow(record, strftime) ==>
      k in BaseKeys || (StartsWith(k, "iq_") && k[3..] in record.iqFields)
  {
    var iq := IqColumns(record.iqFields, record.iqFields.Keys);
    forall k | k in BaseKeys ensures k !in iq {
      BaseKeysNotIq(k);
    }
    forall q | q in record.iqFields ensures IqColumn(q) in iq {
      assert q in record.iqFields.Keys;
    }
    forall k | k in iq ensures StartsWith(k, "iq_") && k[3..] in record.iqFields {
      var p :| p in record.iqFields && k == IqColumn(p);
    }
  }

  /**
   * The filter only drops columns. With `include_fields` a non-empty list,
   * a column survives exactly when it is listed or is `timestamp` or
   * `elapsed_time`; without it, nothing is dropped.
   */
  lemma {:induction false} KeepColumnsSpec(row: map<string, Cell>, includeFields: Option<seq<string>>)
    ensures var d := KeepColumns(row, includeFields); forall k :: k in d ==> k in row && d[k] == row[k]
    ensures includeFields.None? || includeFields.value == [] ==> KeepColumns(row, includeFields) == row
    ensures includeFields.Some? && includeFields.value != [] ==>
      forall k :: k in KeepColumns(row, includeFields) <==>
        k in row && (k in includeFields.value || k == "timestamp" || k == "elapsed_time")
  {
  }

  /** `timestamp` and `elapsed_time` are in every row, whatever `include_fields` says. */
  lemma {:induction false} RecordDictKeepsTime(record: Record, includeFields: Option<seq<string>>, strftime: real -> string)
    ensures "timestamp" in RecordDict(record, includeFields, strftime)
    ensures "elapsed_time" in RecordDict(record, includeFields, strftime)
  {
    assert BaseKeys[0] == "timestamp" && BaseKeys[1] == "elapsed_time";
    assert "timestamp" in BaseRow(record, strftime) && "elapsed_time" in BaseRow(record, strftime);
  }

  // ------------------------------------------------------ header

  /** Some row has the column `k`. */
  predicate InSomeRow(data: seq<map<string, Cell>>, k: string)
  {
    exists i :: 0 <= i < |data| && k in data[i]
  }

  /**
   * The header `write_csv` writes: nothing for no rows, else the union of
   * all rows' keys, sorted and without repeats.
   */
  method CsvHeader(data: seq<map<string, Cell>>) returns (header: Option<seq<string>>)
    ensures header.None? <==> data == []
    ensures header.Some? ==> Sorted(header.value) && NoRepeats(header.value)
    ensures header.Some? ==> forall k :: k in header.value <==> InSomeRow(data, k)
  {
    if data == [] {
      return None;
    }
    var names: set<string> := {};
    for i := 0 to |data|
      invariant forall k :: k in names <==> exists j :: 0 <= j < i && k in data[j]
    {
      names := names + data[i].Keys;
    }
    var fieldnames := SortedFromSet(names);
    header := Some(fieldnames);
  }
}
