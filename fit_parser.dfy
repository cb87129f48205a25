// The parts of the FIT parser that compute rather than decode: the pace
// string, the cadence doubling, the back-fill of missing elapsed times and
// the collection of the fields an activity has data for.
module FitParser {
  import opened Wrappers
  import opened Text
  import opened Clock
  import opened Seqs
  import opened Sorting
  import opened Models

  // ------------------------------------------------------ pace and cadence

  /** Seconds per kilometre as `M:SS`, or `--:--` when there is no forward speed. */
  function SpeedToPace(speed: Option<real>): string
  {
    if speed.None? || speed.value <= 0.0 then "--:--" else PaceText(speed.value)
  }

  /**
   * The placeholder appears exactly when the speed is missing or not
   * positive; otherwise the string reads back as whole minutes and
   * two-digit seconds whose total is the whole seconds of `1000 / speed`.
   */
  lemma {:induction false} SpeedToPaceSpec(speed: Option<real>)
    ensures SpeedToPace(speed) == "--:--" <==> speed.None? || speed.value <= 0.0
    ensures speed.Some? && speed.value > 0.0 ==>
      var p := 1000.0 / speed.value;
      PyMinutes(p) >= 0 && ReadsMinSec(SpeedToPace(speed), PyMinutes(p), PySeconds(p)) &&
      60 * PyMinutes(p) + PySeconds(p) == p.Floor
  {
    if speed.Some? && speed.value > 0.0 {
      PaceTextSpec(speed.value);
      var r := SpeedToPace(speed);
      assert IsDigit(r[0]);
    }
  }

  /** FIT stores single-leg cadence; a record holds the two-leg value. */
  function RecordCadence(raw: Option<real>): (c: Option<real>)
    ensures c.None? <==> raw.None?
    ensures c.Some? ==> c.value / 2.0 == raw.value
  {
    if raw.Some? then Some(raw.value * 2.0) else None
  }

  // ------------------------------------------------------ elapsed-time back-fill

  /**
   * One record after the back-fill: an existing elapsed time is kept;
   * otherwise it is the time since `start`, or distance over the average
   * speed, or the record's index.
   */
  function BackfilledRecord(r: Record, i: nat, start: Option<real>, avgSpeed: Option<real>): Record
  {
    if r.elapsedTime.Some? then r
    else if r.timestamp.Some? && start.Some? then r.(elapsedTime := Some(r.timestamp.value - start.value))
    else if r.distance.Some? && avgSpeed.Some? && avgSpeed.value > 0.0 then
      r.(elapsedTime := Some(r.distance.value / avgSpeed.value))
    else r.(elapsedTime := Some(i as real))
  }

  /** Every record back-filled from the first timestamp of the list. */
  function Backfilled(records: seq<Record>, avgSpeed: Option<real>): (r: seq<Record>)
    ensures |r| == |records|
  {
    seq(|records|, i requires 0 <= i < |records| => BackfilledRecord(records[i], i, FirstTimestamp(records), avgSpeed))
  }

  /** The two loops of the parser: find the first timestamp, then fill the gaps. */
  method BackfillElapsedTime(records: seq<Record>, avgSpeed: Option<real>) returns (out: seq<Record>)
    ensures out == Backfilled(records, avgSpeed)
  {
    var start: Option<real> := None;
    var j := 0;
    while j < |records| && start.None?
      invariant 0 <= j <= |records|
      invariant start.None? ==> FirstTimestamp(records) == FirstTimestamp(records[j..])
      invariant start.Some? ==> start == FirstTimestamp(records)
    {
      assert records[j..][1..] == records[j + 1..];
      if records[j].timestamp.Some? {
        start := records[j].timestamp;
      }
      j := j + 1;
    }
    if start.None? {
      assert records[j..] == [];
    }
    out := [];
    for i := 0 to |records|
      invariant |out| == i
      invariant forall k :: 0 <= k < i ==> out[k] == BackfilledRecord(records[k], k, start, avgSpeed)
    {
      var record := records[i];
      if record.elapsedTime.None? {
        if record.timestamp.Some? && start.Some? {
          record := record.(elapsedTime := Some(record.timestamp.value - start.value));
        } else if record.distance.Some? && avgSpeed.Some? && avgSpeed.value > 0.0 {
          record := record.(elapsedTime := Some(record.distance.value / avgSpeed.value));
        } else {
          record := record.(elapsedTime := Some(i as real));
        }
      }
      out := out + [record];
    }
  }

  /**
   * What the back-fill does to record `k`: afterwards it has an elapsed
   * time; one it had is never overwritten; no other field changes; a
   * missing one is the time since the first timestamp of the activity
   * when the record has a timestamp, else distance over a positive
   * average speed, else the index. The first timestamped record, when
   * it lacked an elapsed time, starts the clock at 0.
   */
  lemma {:induction false} BackfilledSpec(records: seq<Record>, avgSpeed: Option<real>, k: nat)
    requires k < |records|
    ensures var o := Backfilled(records, avgSpeed)[k];
      o.elapsedTime.Some? &&
      (records[k].elapsedTime.Some? ==> o == records[k]) &&
      o.(elapsedTime := records[k].elapsedTime) == records[k]
    ensures records[k].elapsedTime.None? && records[k].timestamp.Some? ==>
      FirstTimestamp(records).Some? &&
      Backfilled(records, avgSpeed)[k].elapsedTime == Some(records[k].timestamp.value - FirstTimestamp(records).value)
    ensures (records[k].elapsedTime.None? && records[k].timestamp.None? &&
        records[k].distance.Some? && avgSpeed.Some? && avgSpeed.value > 0.0) ==>
      Backfilled(records, avgSpeed)[k].elapsedTime == Some(records[k].distance.value / avgSpeed.value)
    ensures (records[k].elapsedTime.None? && records[k].timestamp.None? &&
        (records[k].distance.None? || avgSpeed.None? || avgSpeed.value <= 0.0)) ==>
      Backfilled(records, avgSpeed)[k].elapsedTime == Some(k as real)
    ensures (records[k].elapsedTime.None? && records[k].timestamp.Some? &&
        forall j :: 0 <= j < k ==> records[j].timestamp.None?) ==>
      Backfilled(records, avgSpeed)[k].elapsedTime == Some(0.0)
  {
    FirstTimestampSpec(records);
    if records[k].timestamp.Some? && forall j :: 0 <= j < k ==> records[j].timestamp.None? {
      var m :| 0 <= m < |records| && records[m].timestamp == FirstTimestamp(records) &&
        forall j :: 0 <= j < m ==> records[j].timestamp.None?;
      assert m == k;
    }
  }

  // ------------------------------------------------------ available fields

  /** The standard attributes the parser offers for charting and export. */
  const StandardRecordFields: seq<string> := [
    "elapsed_time", "distance", "heart_rate", "speed", "cadence",
    "power", "altitude", "grade", "temperature", "vertical_oscillation",
    "vertical_ratio", "stance_time", "stance_time_balance", "step_length",
    "position_lat", "position_long"]

  /** A standard field is available when the first record has a value for it. */
  predicate StandardAvailable(records: seq<Record>, f: string)
  {
    |records| > 0 && f in StandardRecordFields && RecordField(records[0], f).Some?
  }

  /** Lap and session summary names, which are not time series. */
  predicate SummaryName(name: string)
  {
    StartsWith(name, "lap_") || StartsWith(name, "s_")
  }

  /** Some record among `rs` has the IQ key `k`. */
  predicate Seen(rs: seq<Record>, k: string)
  {
    exists j :: 0 <= j < |rs| && k in rs[j].iqFields
  }

  /** Some record among `rs` has a non-null value for the IQ key `k`. */
  predicate Valued(rs: seq<Record>, k: string)
  {
    exists j :: 0 <= j < |rs| && k in rs[j].iqFields && !rs[j].iqFields[k].Null?
  }

  /** An IQ field is available when it is not a summary and some record has a value for it. */
  predicate IqAvailable(records: seq<Record>, k: string)
  {
    !SummaryName(k) && Valued(records, k)
  }

  /** The inner loop over one record's IQ dictionary: first sighting marks False, a value marks True. */
  method AddRecordIq(withValues: map<string, bool>, r: Record) returns (w: map<string, bool>)
    ensures forall k :: k in w <==> k in withValues || (!SummaryName(k) && k in r.iqFields)
    ensures forall k :: k in w ==>
      (w[k] <==> (k in withValues && withValues[k]) || (!SummaryName(k) && k in r.iqFields && !r.iqFields[k].Null?))
  {
    w := withValues;
    var todo := r.iqFields.Keys;
    while todo != {}
      invariant todo <= r.iqFields.Keys
      invariant forall k :: k in w <==> k in withValues || (!SummaryName(k) && k in r.iqFields && k !in todo)
      invariant forall k :: k in w ==>
        (w[k] <==>
          (k in withValues && withValues[k]) ||
          (!SummaryName(k) && k in r.iqFields && k !in todo && !r.iqFields[k].Null?))
      decreases |todo|
    {
      var name :| name in todo;
      todo := todo - {name};
      if !SummaryName(name) {
        if name !in w {
          w := w[name := false];
        }
        if !r.iqFields[name].Null? {
          w := w[name := true];
        }
      }
    }
  }

  /** Extending the records seen by one more. */
  lemma {:induction false} SeenStep(records: seq<Record>, i: nat, k: string)
    requires i < |records|
    ensures Seen(records[..i + 1], k) <==> Seen(records[..i], k) || k in records[i].iqFields
    ensures Valued(records[..i + 1], k) <==>
      Valued(records[..i], k) || (k in records[i].iqFields && !records[i].iqFields[k].Null?)
  {
    var a, b := records[..i], records[..i + 1];
    assert forall j :: 0 <= j < i ==> b[j] == a[j];
    assert b[i] == records[i];
    if Seen(b, k) {
      var j :| 0 <= j < |b| && k in b[j].iqFields;
      if j < i { assert k in a[j].iqFields; }
    }
    if Valued(b, k) {
      var j :| 0 <= j < |b| && k in b[j].iqFields && !b[j].iqFields[k].Null?;
      if j < i { assert k in a[j].iqFields && !a[j].iqFields[k].Null?; }
    }
  }

  /** The names among the standard ones that `sample` has a value for. */
  method CollectStandard(sample: Record) returns (present: set<string>)
    ensures forall f :: f in present <==> f in StandardRecordFields && RecordField(sample, f).Some?
  {
    present := {};
    for n := 0 to |StandardRecordFields|
      invariant forall f :: f in present <==>
        (exists m :: 0 <= m < n && StandardRecordFields[m] == f) && RecordField(sample, f).Some?
    {
      var field := StandardRecordFields[n];
      if RecordField(sample, field).Some? {
        present := present + {field};
      }
    }
  }

  /** The `iq_fields_with_values` dictionary: every non-summary key seen, True when some record has a value. */
  method CollectIq(records: seq<Record>) returns (withValues: map<string, bool>)
    ensures forall k :: k in withValues <==> !SummaryName(k) && Seen(records, k)
    ensures forall k :: k in withValues ==> (withValues[k] <==> Valued(records, k))
  {
    withValues := map[];
    for i := 0 to |records|
      invariant forall k :: k in withValues <==> !SummaryName(k) && Seen(records[..i], k)
      invariant forall k :: k in withValues ==> (withValues[k] <==> Valued(records[..i], k))
    {
      withValues := AddRecordIq(withValues, records[i]);
      forall k ensures (k in withValues <==> !SummaryName(k) && Seen(records[..i + 1], k)) &&
        (k in withValues ==> (withValues[k] <==> Valued(records[..i + 1], k)))
      {
        SeenStep(records, i, k);
      }
    }
    assert records[..|records|] == records;
  }

  /**
   * The standard and IQ fields an activity has data for, each sorted and
   * without repeats: the standard ones present in the first record, the
   * IQ ones that are not summaries and hold a value in some record.
   */
  method CollectAvailableFields(records: seq<Record>) returns (standard: seq<string>, iq: seq<string>)
    ensures Sorted(standard) && NoRepeats(standard)
    ensures forall f :: f in standard <==> StandardAvailable(records, f)
    ensures Sorted(iq) && NoRepeats(iq)
    ensures forall f :: f in iq <==> IqAvailable(records, f)
    ensures records == [] ==> standard == [] && iq == []
  {
    var standardSet: set<string> := {};
    var withValues: map<string, bool> := map[];
    if records != [] {
      standardSet := CollectStandard(records[0]);
      withValues := CollectIq(records);
    }
    var iqSet := set k | k in withValues && withValues[k];
    standard := SortedFromSet(standardSet);
    iq := SortedFromSet(iqSet);
    forall f ensures f in iq <==> IqAvailable(records, f) {
      if IqAvailable(records, f) {
        var j :| 0 <= j < |records| && f in records[j].iqFields && !records[j].iqFields[f].Null?;
        assert Seen(records, f);
      }
    }
  }
}
