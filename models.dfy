// The data records the back end keeps for an activity: per-second records,
// the session summary, merge options, criteria, statistics and provenance,
// and the activity object that the heart-rate merge updates in place.
// Datetimes are seconds on one common (naive) time line.
module Models {
  import opened Wrappers

  /** A value held in an `iq_fields` dictionary (JSON scalar). */
  datatype Value = Null | Num(n: real) | Text(s: string) | Flag(b: bool)

  /** One per-second record of a FIT activity. */
  datatype Record = Record(
    timestamp: Option<real>,
    elapsedTime: Option<real>,
    distance: Option<real>,
    heartRate: Option<real>,
    speed: Option<real>,
    cadence: Option<real>,
    power: Option<real>,
    altitude: Option<real>,
    positionLat: Option<real>,
    positionLong: Option<real>,
    grade: Option<real>,
    temperature: Option<real>,
    verticalOscillation: Option<real>,
    verticalRatio: Option<real>,
    stanceTime: Option<real>,
    stanceTimeBalance: Option<real>,
    stepLength: Option<real>,
    fractionalCadence: Option<real>,
    iqFields: map<string, Value>)

  /** The standard record attributes by their Python attribute name. */
  function RecordField(r: Record, name: string): Option<real>
  {
    match name
    case "timestamp" => r.timestamp
    case "elapsed_time" => r.elapsedTime
    case "distance" => r.distance
    case "heart_rate" => r.heartRate
    case "speed" => r.speed
    case "cadence" => r.cadence
    case "power" => r.power
    case "altitude" => r.altitude
    case "position_lat" => r.positionLat
    case "position_long" => r.positionLong
    case "grade" => r.grade
    case "temperature" => r.temperature
    case "vertical_oscillation" => r.verticalOscillation
    case "vertical_ratio" => r.verticalRatio
    case "stance_time" => r.stanceTime
    case "stance_time_balance" => r.stanceTimeBalance
    case "step_length" => r.stepLength
    case "fractional_cadence" => r.fractionalCadence
    case _ => None
  }

  /** The timestamp of the first record that has one. */
  function FirstTimestamp(records: seq<Record>): Option<real>
  {
    if records == [] then None
    else if records[0].timestamp.Some? then records[0].timestamp
    else FirstTimestamp(records[1..])
  }

  /** It is None exactly when no record has a timestamp, and else the first one found. */
  lemma {:induction false} FirstTimestampSpec(records: seq<Record>)
    ensures FirstTimestamp(records).None? <==> forall k :: 0 <= k < |records| ==> records[k].timestamp.None?
    ensures FirstTimestamp(records).Some? ==>
      exists k :: 0 <= k < |records| && records[k].timestamp == FirstTimestamp(records) &&
        forall j :: 0 <= j < k ==> records[j].timestamp.None?
    decreases |records|
  {
    if records != [] && records[0].timestamp.None? {
      FirstTimestampSpec(records[1..]);
      assert forall k :: 1 <= k < |records| ==> records[k] == records[1..][k - 1];
      if FirstTimestamp(records).Some? {
        var k :| 0 <= k < |records[1..]| && records[1..][k].timestamp == FirstTimestamp(records) &&
          forall j :: 0 <= j < k ==> records[1..][j].timestamp.None?;
        assert records[k + 1].timestamp == FirstTimestamp(records);
      }
    }
  }

  /** The session summary fields the core reads. */
  datatype Session = Session(startTime: Option<real>, avgSpeed: Option<real>)

  /** User overrides for the merge thresholds; None means "use the default". */
  datatype HrMergeOptions = HrMergeOptions(
    autoAlignMaxShiftSec: Option<real>,
    autoAlignMatchToleranceSec: Option<real>,
    autoAlignMinMatchRatio: Option<real>,
    interpolateMaxGapSec: Option<real>,
    allowExtrapolation: Option<bool>)

  /** The thresholds a merge actually used. */
  datatype MergeCriteria = MergeCriteria(
    autoAlignMaxShiftSec: Option<real>,
    autoAlignMatchToleranceSec: Option<real>,
    autoAlignMinMatchRatio: Option<real>,
    interpolateMaxGapSec: Option<real>,
    allowExtrapolation: Option<bool>)

  datatype MergeSource = MergeSource(fileName: Option<string>, deviceName: Option<string>)

  datatype MergeStats = MergeStats(
    offsetSec: Option<real>,
    matchRatio: Option<real>,
    interpRatio: Option<real>,
    droppedRatio: Option<real>)

  datatype MergeProvenance = MergeProvenance(
    version: string,
    methodName: string,
    decision: string,
    sources: seq<MergeSource>,
    criteria: Option<MergeCriteria>,
    stats: Option<MergeStats>)

  const MetadataAlign := "metadata_align"
  const LinearInterpolate := "linear_interpolate"

  /** A stored activity; the heart-rate merge mutates it in place. */
  class Activity {
    var session: Session
    var records: seq<Record>
    var availableFields: seq<string>
    var availableIqFields: seq<string>
    var mergeProvenance: Option<MergeProvenance>

    constructor (session: Session, records: seq<Record>, availableFields: seq<string>, availableIqFields: seq<string>)
      ensures this.session == session && this.records == records
      ensures this.availableFields == availableFields && this.availableIqFields == availableIqFields
      ensures mergeProvenance == None
    {
      this.session := session;
      this.records := records;
      this.availableFields := availableFields;
      this.availableIqFields := availableIqFields;
      this.mergeProvenance := None;
    }
  }
}
