// Merging a parsed heart-rate CSV into an activity: the effective
// thresholds, the projection of both time lines onto seconds from the
// activity's base timestamp, the 0.1 s offset histogram, the exact-match
// ratio and method choice, the per-record resolution, and the in-place
// update of the activity with its provenance.
module HrCsvMerge {
  import opened Wrappers
  import opened Numbers
  import opened Sorting
  import opened Models
  import opened HrSearch
  import opened HrCsvParse
  import opened Seqs

  // ------------------------------------------------------ thresholds

  /** The configured defaults of the merge thresholds. */
  const DefaultMaxShiftSec: real := 8.0
  const DefaultMatchToleranceSec: real := 1.0
  const DefaultMinMatchRatio: real := 0.85
  const DefaultInterpolateMaxGapSec: real := 5.0
  const DefaultAllowExtrapolation: bool := false

  function Override<T>(given: Option<T>, fallback: T): T
  {
    if given.Some? then given.value else fallback
  }

  /** `_effective_options`: each threshold is the caller's value when given, else the default. */
  function EffectiveOptions(options: Option<HrMergeOptions>): (c: MergeCriteria)
    ensures c.autoAlignMaxShiftSec.Some? && c.autoAlignMatchToleranceSec.Some? &&
      c.autoAlignMinMatchRatio.Some? && c.interpolateMaxGapSec.Some? && c.allowExtrapolation.Some?
    ensures options.None? ==>
      c == MergeCriteria(Some(DefaultMaxShiftSec), Some(DefaultMatchToleranceSec), Some(DefaultMinMatchRatio),
                         Some(DefaultInterpolateMaxGapSec), Some(DefaultAllowExtrapolation))
    ensures options.Some? ==>
      var o := options.value;
      (o.autoAlignMaxShiftSec.Some? ==> c.autoAlignMaxShiftSec == o.autoAlignMaxShiftSec) &&
      (o.autoAlignMaxShiftSec.None? ==> c.autoAlignMaxShiftSec == Some(DefaultMaxShiftSec)) &&
      (o.autoAlignMatchToleranceSec.Some? ==> c.autoAlignMatchToleranceSec == o.autoAlignMatchToleranceSec) &&
      (o.autoAlignMatchToleranceSec.None? ==> c.autoAlignMatchToleranceSec == Some(DefaultMatchToleranceSec)) &&
      (o.autoAlignMinMatchRatio.Some? ==> c.autoAlignMinMatchRatio == o.autoAlignMinMatchRatio) &&
      (o.autoAlignMinMatchRatio.None? ==> c.autoAlignMinMatchRatio == Some(DefaultMinMatchRatio)) &&
      (o.interpolateMaxGapSec.Some? ==> c.interpolateMaxGapSec == o.interpolateMaxGapSec) &&
      (o.interpolateMaxGapSec.None? ==> c.interpolateMaxGapSec == Some(DefaultInterpolateMaxGapSec)) &&
      (o.allowExtrapolation.Some? ==> c.allowExtrapolation == o.allowExtrapolation) &&
      (o.allowExtrapolation.None? ==> c.allowExtrapolation == Some(DefaultAllowExtrapolation))
  {
    var o := options.GetOr(HrMergeOptions(None, None, None, None, None));
    MergeCriteria(
      Some(Override(o.autoAlignMaxShiftSec, DefaultMaxShiftSec)),
      Some(Override(o.autoAlignMatchToleranceSec, DefaultMatchToleranceSec)),
      Some(Override(o.autoAlignMinMatchRatio, DefaultMinMatchRatio)),
      Some(Override(o.interpolateMaxGapSec, DefaultInterpolateMaxGapSec)),
      Some(Override(o.allowExtrapolation, DefaultAllowExtrapolation)))
  }

  /** `float(x or 0)`: a missing threshold reads as zero. */
  function OrZero(x: Option<real>): real { x.GetOr(0.0) }

  // ------------------------------------------------------ time lines

  /** `_get_activity_base_timestamp`: the session start, else the first record timestamp. */
  function BaseTimestamp(session: Session, records: seq<Record>): (r: Option<real>)
    ensures session.startTime.Some? ==> r == session.startTime
    ensures session.startTime.None? ==> r == FirstTimestamp(records)
  {
    if session.startTime.Some? then session.startTime else FirstTimestamp(records)
  }

  /** `_record_datetime`: the record timestamp, else the base shifted by the elapsed time. */
  function RecordDatetime(r: Record, base: real): (t: Option<real>)
    ensures r.timestamp.Some? ==> t == r.timestamp
    ensures r.timestamp.None? && r.elapsedTime.Some? ==> t == Some(base + r.elapsedTime.value)
    ensures t.None? <==> r.timestamp.None? && r.elapsedTime.None?
  {
    if r.timestamp.Some? then r.timestamp
    else if r.elapsedTime.Some? then Some(base + r.elapsedTime.value)
    else None
  }

  /**
   * CSV sample times in seconds from the base; `coerce` stands for
   * `_coerce_to_base_timezone` with this base.
   */
  function CsvTimes(samples: seq<HrSample>, base: real, coerce: real -> real): (r: seq<real>)
    ensures |r| == |samples|
  {
    seq(|samples|, k requires 0 <= k < |samples| => coerce(samples[k].t) - base)
  }

  function CsvValues(samples: seq<HrSample>): (r: seq<int>)
    ensures |r| == |samples|
  {
    seq(|samples|, k requires 0 <= k < |samples| => samples[k].bpm)
  }

  /** Record times in seconds from the base, None where a record has no time. */
  function FitTimes(records: seq<Record>, base: real, coerce: real -> real): (r: seq<Option<real>>)
    ensures |r| == |records|
  {
    seq(|records|, k requires 0 <= k < |records| =>
      match RecordDatetime(records[k], base) case None => None case Some(d) => Some(coerce(d) - base))
  }

  /** With an order-preserving time-zone coercion the CSV time line is sorted. */
  lemma {:induction false} CsvTimesSorted(samples: seq<HrSample>, base: real, coerce: real -> real)
    requires SortedByTime(samples)
    requires forall a: real, b: real :: a <= b ==> coerce(a) <= coerce(b)
    ensures SortedReals(CsvTimes(samples, base, coerce))
  {
    var c := CsvTimes(samples, base, coerce);
    forall i, j | 0 <= i < j < |c| ensures c[i] <= c[j] {
      assert samples[i].t <= samples[j].t;
      assert coerce(samples[i].t) <= coerce(samples[j].t);
    }
  }

  // ------------------------------------------------------ offset histogram

  /** How many record times the offset search looks at. */
  const OffsetWindow: nat := 800

  function WindowSize(n: nat): (w: nat)
    ensures w <= n && w <= OffsetWindow && (w == n || w == OffsetWindow)
  {
    if n < OffsetWindow then n else OffsetWindow
  }

  /** The delta one record time contributes: its nearest CSV time minus it, when close enough. */
  function DeltaOf(t: Option<real>, csv: seq<real>, maxShift: real, tol: real): (r: seq<real>)
    ensures |r| <= 1
    ensures r != [] ==>
      (t.Some? && FindNearestTime(csv, t.value).Some? &&
       r[0] == FindNearestTime(csv, t.value).value - t.value && Abs(r[0]) <= maxShift + tol)
  {
    match t
    case None => []
    case Some(x) =>
      match FindNearestTime(csv, x)
      case None => []
      case Some(n) => if Abs(n - x) <= maxShift + tol then [n - x] else []
  }

  /** The deltas of `fit`, in order. */
  function DeltasOf(fit: seq<Option<real>>, csv: seq<real>, maxShift: real, tol: real): seq<real>
  {
    if fit == [] then []
    else DeltasOf(fit[..|fit| - 1], csv, maxShift, tol) + DeltaOf(fit[|fit| - 1], csv, maxShift, tol)
  }

  /** The deltas the histogram is built from: those of the first 800 record times. */
  function Deltas(fit: seq<Option<real>>, csv: seq<real>, maxShift: real, tol: real): seq<real>
  {
    DeltasOf(fit[..WindowSize(|fit|)], csv, maxShift, tol)
  }

  /** Every delta is within `maxShift + tol`. */
  lemma {:induction false} DeltasBounded(fit: seq<Option<real>>, csv: seq<real>, maxShift: real, tol: real)
    ensures forall d :: d in DeltasOf(fit, csv, maxShift, tol) ==> Abs(d) <= maxShift + tol
    decreases |fit|
  {
    if fit != [] { DeltasBounded(fit[..|fit| - 1], csv, maxShift, tol); }
  }

  /** `round(d * 10) / 10.0`: the delta on the 0.1 s grid. */
  function Bin(d: real): (b: real)
    ensures -0.05 <= b - d <= 0.05
  {
    RoundHalfEven(d * 10.0) as real / 10.0
  }

  /** The binned deltas within `maxShift`, in order. */
  function Bins(deltas: seq<real>, maxShift: real): seq<real>
  {
    if deltas == [] then []
    else
      Bins(deltas[..|deltas| - 1], maxShift) +
      (if Abs(deltas[|deltas| - 1]) <= maxShift then [Bin(deltas[|deltas| - 1])] else [])
  }

  /** Every bin lies within `maxShift` plus half a grid step. */
  lemma {:induction false} BinsBounded(deltas: seq<real>, maxShift: real)
    ensures forall b :: b in Bins(deltas, maxShift) ==> Abs(b) <= maxShift + 0.05
    decreases |deltas|
  {
    if deltas != [] { BinsBounded(deltas[..|deltas| - 1], maxShift); }
  }

  /** How often `x` occurs in `s`. */
  function Count(s: seq<real>, x: real): nat { multiset(s)[x] }

  /**
   * `max(counts.items(), key=count)` over the first `j` keys: the first key
   * of largest count.
   */
  function FirstMax(keys: seq<real>, bins: seq<real>, j: nat): (m: real)
    requires 0 < j <= |keys|
    ensures m in keys[..j]
  {
    if j == 1 then keys[0]
    else
      var m := FirstMax(keys, bins, j - 1);
      if Count(bins, keys[j - 1]) > Count(bins, m) then keys[j - 1] else m
  }

  /** Its count is the largest; every key before it has a smaller count. */
  lemma {:induction false} FirstMaxSpec(keys: seq<real>, bins: seq<real>, j: nat)
    requires 0 < j <= |keys|
    ensures forall k :: 0 <= k < j ==> Count(bins, keys[k]) <= Count(bins, FirstMax(keys, bins, j))
    ensures exists i ::
      (0 <= i < j && keys[i] == FirstMax(keys, bins, j) &&
       forall k :: 0 <= k < i ==> Count(bins, keys[k]) < Count(bins, keys[i]))
    decreases j
  {
    if j > 1 {
      FirstMaxSpec(keys, bins, j - 1);
      var m := FirstMax(keys, bins, j - 1);
      if Count(bins, keys[j - 1]) > Count(bins, m) {
        assert forall k :: 0 <= k < j - 1 ==> Count(bins, keys[k]) < Count(bins, keys[j - 1]);
      }
    }
  }

  /** The histogram's pick over a non-empty list of bins. */
  function MostFrequent(b: seq<real>): real
    requires b != []
  {
    FirstMax(FirstOccurrences(b), b, |FirstOccurrences(b)|)
  }

  /** No bin is more frequent than the pick. */
  lemma {:induction false} MostFrequentIsMax(b: seq<real>)
    requires b != []
    ensures MostFrequent(b) in b
    ensures forall x :: x in b ==> Count(b, x) <= Count(b, MostFrequent(b))
  {
    var f := FirstOccurrences(b);
    FirstOccurrencesSpec(b);
    FirstMaxSpec(f, b, |f|);
    assert f[..|f|] == f;
    forall x | x in b ensures Count(b, x) <= Count(b, MostFrequent(b)) {
      assert x in f;
      var m :| 0 <= m < |f| && f[m] == x;
    }
  }

  /** Where a bin sits among the keys. */
  lemma {:induction false} KeyOf(b: seq<real>, k: nat) returns (m: nat)
    requires k < |b|
    ensures m < |FirstOccurrences(b)| && FirstOccurrences(b)[m] == b[k]
  {
    FirstOccurrencesSpec(b);
    assert b[k] in b;
    m :| 0 <= m < |FirstOccurrences(b)| && FirstOccurrences(b)[m] == b[k];
  }

  /** Every bin seen before the pick first occurs is strictly less frequent. */
  lemma {:induction false} MostFrequentFirstOnTie(b: seq<real>, k: nat)
    requires k < |b| && MostFrequent(b) !in b[..k + 1]
    ensures Count(b, b[k]) < Count(b, MostFrequent(b))
  {
    var f := FirstOccurrences(b);
    FirstMaxSpec(f, b, |f|);
    var i :| 0 <= i < |f| && f[i] == MostFrequent(b) &&
      forall m :: 0 <= m < i ==> Count(b, f[m]) < Count(b, f[i]);
    var m := KeyOf(b, k);
    assert b[..k + 1][k] == b[k];
    if m > i {
      FirstOccurrencesOrder(b, k, m, i);
    }
  }

  /** The offset the histogram picks: the most frequent bin (first on a tie), or 0 with no bins. */
  function BestOffset(deltas: seq<real>, maxShift: real): real
  {
    var b := Bins(deltas, maxShift);
    if b == [] then 0.0 else MostFrequent(b)
  }

  /**
   * The chosen offset is 0 when no delta is within `maxShift`; otherwise it
   * is one of the bins, within `maxShift` of zero up to half a grid step, no
   * bin is more frequent, and every bin seen before its first occurrence is
   * strictly less frequent (a tie goes to the bin seen first).
   */
  lemma {:induction false} BestOffsetSpec(deltas: seq<real>, maxShift: real)
    ensures Bins(deltas, maxShift) == [] ==> BestOffset(deltas, maxShift) == 0.0
    ensures var b := Bins(deltas, maxShift); var best := BestOffset(deltas, maxShift);
      b != [] ==>
        (best in b && Abs(best) <= maxShift + 0.05 &&
         (forall x :: x in b ==> Count(b, x) <= Count(b, best)) &&
         (forall k :: 0 <= k < |b| && best !in b[..k + 1] ==> Count(b, b[k]) < Count(b, best)))
  {
    var b := Bins(deltas, maxShift);
    if b != [] {
      MostFrequentIsMax(b);
      BinsBounded(deltas, maxShift);
      forall k | 0 <= k < |b| && MostFrequent(b) !in b[..k + 1] ensures Count(b, b[k]) < Count(b, MostFrequent(b)) {
        MostFrequentFirstOnTie(b, k);
      }
    }
  }

  // ------------------------------------------------------ match ratio

  /** `min(0.2, tol / 5)` for a positive tolerance, else 0. */
  function ExactTol(tol: real): (r: real)
    ensures tol <= 0.0 ==> r == 0.0
    ensures tol > 0.0 ==> 0.0 < r <= 0.2 && r <= tol / 5.0 && (r == 0.2 || r == tol / 5.0)
  {
    if tol > 0.0 then Min(0.2, tol / 5.0) else 0.0
  }

  /** How many record times there are. */
  function TimedCount(fit: seq<Option<real>>): (n: nat)
    ensures n <= |fit|
  {
    if fit == [] then 0
    else TimedCount(fit[..|fit| - 1]) + (if fit[|fit| - 1].Some? then 1 else 0)
  }

  /** Whether a record time, shifted by the offset, has a CSV sample within the exact tolerance. */
  predicate ExactMatch(t: Option<real>, csv: seq<real>, offset: real, exactTol: real)
  {
    t.Some? && exactTol > 0.0 && HasMatchWithin(csv, t.value + offset, exactTol)
  }

  /** How many record times match exactly. */
  function ExactMatches(fit: seq<Option<real>>, csv: seq<real>, offset: real, exactTol: real): nat
  {
    if fit == [] then 0
    else ExactMatches(fit[..|fit| - 1], csv, offset, exactTol) + (if ExactMatch(fit[|fit| - 1], csv, offset, exactTol) then 1 else 0)
  }

  /** Only timed records can match, and nothing matches with a zero tolerance. */
  lemma {:induction false} ExactMatchesBounded(fit: seq<Option<real>>, csv: seq<real>, offset: real, exactTol: real)
    ensures ExactMatches(fit, csv, offset, exactTol) <= TimedCount(fit)
    ensures exactTol <= 0.0 ==> ExactMatches(fit, csv, offset, exactTol) == 0
    decreases |fit|
  {
    if fit != [] { ExactMatchesBounded(fit[..|fit| - 1], csv, offset, exactTol); }
  }

  /** `matched_exact / total`, or 0 with no timed record. */
  function MatchRatio(matched: nat, total: nat): (r: real)
    ensures total == 0 ==> r == 0.0
    ensures total > 0 ==> r * total as real == matched as real
    ensures matched <= total ==> 0.0 <= r <= 1.0
  {
    if total > 0 then matched as real / total as real else 0.0
  }

  /** `_find_nearest_time` over every record time, the ratio, and the method choice. */
  method CountMatches(fit: seq<Option<real>>, csv: seq<real>, offset: real, exactTol: real) returns (total: nat, matched: nat)
    ensures total == TimedCount(fit) && matched == ExactMatches(fit, csv, offset, exactTol)
  {
    total, matched := 0, 0;
    for i := 0 to |fit|
      invariant total == TimedCount(fit[..i]) && matched == ExactMatches(fit[..i], csv, offset, exactTol)
    {
      assert fit[..i + 1][..i] == fit[..i];
      if fit[i].None? {
        continue;
      }
      total := total + 1;
      var target := fit[i].value + offset;
      if exactTol > 0.0 && HasMatchWithin(csv, target, exactTol) {
        matched := matched + 1;
      }
    }
    assert fit[..|fit|] == fit;
  }

  // ------------------------------------------------------ offset search, imperative

  /** The source's loop appending the CSV times and values. */
  method BuildCsvTimeline(samples: seq<HrSample>, base: real, coerce: real -> real) returns (times: seq<real>, values: seq<int>)
    ensures times == CsvTimes(samples, base, coerce) && values == CsvValues(samples)
  {
    times, values := [], [];
    for i := 0 to |samples|
      invariant |times| == i && |values| == i
      invariant forall k :: 0 <= k < i ==> times[k] == coerce(samples[k].t) - base && values[k] == samples[k].bpm
    {
      times := times + [coerce(samples[i].t) - base];
      values := values + [samples[i].bpm];
    }
  }

  /** The source's loop building the record time line. */
  method BuildFitTimes(records: seq<Record>, base: real, coerce: real -> real) returns (fit: seq<Option<real>>)
    ensures fit == FitTimes(records, base, coerce)
  {
    fit := [];
    for i := 0 to |records|
      invariant |fit| == i
      invariant forall k :: 0 <= k < i ==> fit[k] == FitTimes(records, base, coerce)[k]
    {
      var dt := RecordDatetime(records[i], base);
      if dt.Some? {
        fit := fit + [Some(coerce(dt.value) - base)];
      } else {
        fit := fit + [None];
      }
    }
  }

  /** The nearest-neighbour deltas of the first 800 record times. */
  method ComputeDeltas(fit: seq<Option<real>>, csv: seq<real>, maxShift: real, tol: real) returns (deltas: seq<real>)
    ensures deltas == Deltas(fit, csv, maxShift, tol)
  {
    deltas := [];
    var w := WindowSize(|fit|);
    var window := fit[..w];
    for i := 0 to w
      invariant deltas == DeltasOf(window[..i], csv, maxShift, tol)
    {
      assert window[..i + 1][..i] == window[..i];
      if window[i].None? {
        continue;
      }
      var t := window[i].value;
      var nearest := FindNearestTime(csv, t);
      if nearest.None? {
        continue;
      }
      var delta := nearest.value - t;
      if Abs(delta) <= maxShift + tol {
        deltas := deltas + [delta];
      }
    }
    assert window[..w] == window;
  }

  /** One step of the histogram: the bins of a prefix grow by at most one bin. */
  lemma {:induction false} BinsStep(deltas: seq<real>, i: nat, maxShift: real)
    requires i < |deltas|
    ensures Bins(deltas[..i + 1], maxShift) ==
      Bins(deltas[..i], maxShift) + (if Abs(deltas[i]) <= maxShift then [Bin(deltas[i])] else [])
  {
    assert deltas[..i + 1][..i] == deltas[..i];
  }

  /** A dictionary of bin counts, with its keys in insertion order. */
  ghost predicate CountsOf(counts: map<real, nat>, order: seq<real>, bins: seq<real>)
  {
    order == FirstOccurrences(bins) &&
    (forall x :: x in counts <==> x in order) &&
    (forall x :: x in counts ==> counts[x] == Count(bins, x))
  }

  /** Counting a bin already seen adds one to its count. */
  lemma {:induction false} CountsBump(counts: map<real, nat>, order: seq<real>, bins: seq<real>, b: real)
    requires CountsOf(counts, order, bins) && b in counts
    ensures CountsOf(counts[b := counts[b] + 1], order, bins + [b])
  {
    FirstOccurrencesStep(bins, b);
    assert multiset(bins + [b]) == multiset(bins) + multiset{b};
  }

  /** Counting a new bin gives it a count of one and appends it to the keys. */
  lemma {:induction false} CountsNew(counts: map<real, nat>, order: seq<real>, bins: seq<real>, b: real)
    requires CountsOf(counts, order, bins) && b !in counts
    ensures CountsOf(counts[b := 1], order + [b], bins + [b])
  {
    FirstOccurrencesSpec(bins);
    FirstOccurrencesStep(bins, b);
    assert multiset(bins + [b]) == multiset(bins) + multiset{b};
    assert b !in bins;
  }

  /** The histogram loop: count each bin within `maxShift`, keys in insertion order. */
  method CountBins(deltas: seq<real>, maxShift: real) returns (counts: map<real, nat>, order: seq<real>)
    ensures CountsOf(counts, order, Bins(deltas, maxShift))
  {
    counts, order := map[], [];
    for i := 0 to |deltas|
      invariant CountsOf(counts, order, Bins(deltas[..i], maxShift))
    {
      BinsStep(deltas, i, maxShift);
      if Abs(deltas[i]) <= maxShift {
        var b := Bin(deltas[i]);
        if b in counts {
          CountsBump(counts, order, Bins(deltas[..i], maxShift), b);
          counts := counts[b := counts[b] + 1];
        } else {
          CountsNew(counts, order, Bins(deltas[..i], maxShift), b);
          counts := counts[b := 1];
          order := order + [b];
        }
      } else {
        assert Bins(deltas[..i], maxShift) + [] == Bins(deltas[..i], maxShift);
      }
    }
    assert deltas[..|deltas|] == deltas;
  }

  /** `max(counts.items(), key=count)`: the first key of largest count. */
  method FirstMaxKey(counts: map<real, nat>, order: seq<real>, ghost bins: seq<real>) returns (best: real)
    requires order != [] && CountsOf(counts, order, bins)
    ensures best == FirstMax(order, bins, |order|)
  {
    assert forall x :: x in counts <==> x in order;
    assert forall k :: 0 <= k < |order| ==> order[k] in order;
    assert forall k :: 0 <= k < |order| ==> order[k] in counts;
    best := order[0];
    for j := 1 to |order|
      invariant best == FirstMax(order, bins, j) && best in order
    {
      if counts[order[j]] > counts[best] {
        best := order[j];
      }
    }
  }

  /** The histogram over the deltas and its most frequent bin, or 0 without deltas or bins. */
  method ChooseBestOffset(deltas: seq<real>, maxShift: real) returns (best: real)
    ensures best == BestOffset(deltas, maxShift)
  {
    best := 0.0;
    if |deltas| == 0 {
      return;
    }
    var counts, order := CountBins(deltas, maxShift);
    if |order| > 0 {
      best := FirstMaxKey(counts, order, Bins(deltas, maxShift));
    }
  }

  // ------------------------------------------------------ per-record resolution

  /** The settings the merge loop runs with. */
  datatype Plan = Plan(align: bool, offset: real, exactTol: real, maxGap: real, allowExtrapolation: bool)

  /** What the merge loop does with one record. */
  datatype Outcome =
    | Untimed               // no time: counted as dropped
    | Aligned(bpm: int)     // the nearest CSV sample is within the exact tolerance
    | TooFar                // the nearest CSV sample is not: counted as dropped
    | NoCandidate           // no CSV sample at all: nothing written, nothing counted
    | Interpolated(bpm: int)
    | Unavailable           // interpolation gave nothing: counted as dropped

  function Resolve(t: Option<real>, csv: seq<real>, values: seq<int>, plan: Plan): (o: Outcome)
    requires |values| == |csv|
    ensures t.None? <==> o.Untimed?
    ensures plan.align ==> !o.Interpolated? && !o.Unavailable?
    ensures !plan.align ==> !o.Aligned? && !o.TooFar? && !o.NoCandidate?
  {
    match t
    case None => Untimed
    case Some(x) =>
      var target := x + plan.offset;
      if plan.align then
        match NearestCandidate(csv, target)
        case None => NoCandidate
        case Some(idx) => if Abs(csv[idx] - target) <= plan.exactTol then Aligned(values[idx]) else TooFar
      else
        match InterpolateValue(csv, values, target, plan.maxGap, plan.allowExtrapolation)
        case None => Unavailable
        case Some(v) => Interpolated(v)
  }

  /** The value written into the record, if any. */
  function Written(o: Outcome): Option<int>
  {
    match o
    case Aligned(v) => Some(v)
    case Interpolated(v) => Some(v)
    case _ => None
  }

  predicate IsDropped(o: Outcome)
  {
    o.Untimed? || o.TooFar? || o.Unavailable?
  }

  /**
   * In alignment mode a timed record gets a value exactly when the CSV
   * sample nearest its shifted time is within the exact tolerance, and the
   * value is that sample's; on sorted CSV times, exactly when ANY sample is
   * that close.
   */
  lemma {:induction false} AlignedValueSpec(x: real, csv: seq<real>, values: seq<int>, plan: Plan)
    requires |values| == |csv| && |csv| > 0 && plan.align
    ensures var o := Resolve(Some(x), csv, values, plan);
      (Written(o).Some? <==> HasMatchWithin(csv, x + plan.offset, plan.exactTol)) &&
      (Written(o).None? ==> o.TooFar?) &&
      (Written(o).Some? ==>
        exists k :: 0 <= k < |csv| && FindNearestTime(csv, x + plan.offset) == Some(csv[k]) &&
          Abs(csv[k] - (x + plan.offset)) <= plan.exactTol && Written(o) == Some(values[k]))
    ensures SortedReals(csv) ==>
      (Written(Resolve(Some(x), csv, values, plan)).Some? <==>
       exists k :: 0 <= k < |csv| && Abs(csv[k] - (x + plan.offset)) <= plan.exactTol)
  {
    var target := x + plan.offset;
    HasMatchIffNearestWithin(csv, target, plan.exactTol);
    if SortedReals(csv) { HasMatchWithinComplete(csv, target, plan.exactTol); }
  }

  /** In interpolation mode a timed record gets exactly what `_interpolate_value` returns. */
  lemma {:induction false} InterpolatedValueSpec(x: real, csv: seq<real>, values: seq<int>, plan: Plan)
    requires |values| == |csv| && !plan.align
    ensures Written(Resolve(Some(x), csv, values, plan)) ==
      InterpolateValue(csv, values, x + plan.offset, plan.maxGap, plan.allowExtrapolation)
    ensures Resolve(Some(x), csv, values, plan).Unavailable? <==> Written(Resolve(Some(x), csv, values, plan)).None?
  {
  }

  /** The outcome of every record. */
  function Outcomes(fit: seq<Option<real>>, csv: seq<real>, values: seq<int>, plan: Plan): (os: seq<Outcome>)
    requires |values| == |csv|
    ensures |os| == |fit|
  {
    seq(|fit|, k requires 0 <= k < |fit| => Resolve(fit[k], csv, values, plan))
  }

  /** `iq_fields[key] = value` when the outcome carries a value. */
  function MergeRecord(r: Record, o: Outcome, key: string): (m: Record)
    ensures Written(o).Some? ==> m.iqFields == r.iqFields[key := Num(Written(o).value as real)]
    ensures Written(o).None? ==> m == r
    ensures m.(iqFields := r.iqFields) == r
  {
    match Written(o)
    case None => r
    case Some(v) => r.(iqFields := r.iqFields[key := Num(v as real)])
  }

  function MergedRecords(records: seq<Record>, os: seq<Outcome>, key: string): (rs: seq<Record>)
    requires |os| == |records|
    ensures |rs| == |records|
  {
    seq(|records|, k requires 0 <= k < |records| => MergeRecord(records[k], os[k], key))
  }

  /** How many outcomes are counted as dropped. */
  function DroppedCount(os: seq<Outcome>): (n: nat)
    ensures n <= |os|
  {
    if os == [] then 0 else DroppedCount(os[..|os| - 1]) + (if IsDropped(os[|os| - 1]) then 1 else 0)
  }

  /** How many outcomes are interpolated values. */
  function InterpolatedCount(os: seq<Outcome>): (n: nat)
    ensures n <= |os|
  {
    if os == [] then 0 else InterpolatedCount(os[..|os| - 1]) + (if os[|os| - 1].Interpolated? then 1 else 0)
  }

  /** How many outcomes write a value. */
  function WrittenCount(os: seq<Outcome>): (n: nat)
    ensures n <= |os|
  {
    if os == [] then 0 else WrittenCount(os[..|os| - 1]) + (if Written(os[|os| - 1]).Some? then 1 else 0)
  }

  /**
   * Every record is either written or dropped, never both, once the CSV
   * has a sample; interpolation counts only in interpolation mode, where it
   * is exactly the written records.
   */
  lemma {:induction false} CountsPartition(fit: seq<Option<real>>, csv: seq<real>, values: seq<int>, plan: Plan)
    requires |values| == |csv| && |csv| > 0
    ensures var os := Outcomes(fit, csv, values, plan);
      DroppedCount(os) + WrittenCount(os) == |fit| &&
      (plan.align ==> InterpolatedCount(os) == 0) &&
      (!plan.align ==> InterpolatedCount(os) == WrittenCount(os)) &&
      DroppedCount(os) >= |fit| - TimedCount(fit)
    decreases |fit|
  {
    if fit != [] {
      var fit0 := fit[..|fit| - 1];
      CountsPartition(fit0, csv, values, plan);
      var os := Outcomes(fit, csv, values, plan);
      assert os[..|os| - 1] == Outcomes(fit0, csv, values, plan);
    }
  }

  /** The source's merge loop: write each value into its record and count the outcomes. */
  method ApplyOutcomes(activity: Activity, fit: seq<Option<real>>, csv: seq<real>, values: seq<int>, plan: Plan, key: string)
    returns (dropped: nat, interpolated: nat)
    requires |values| == |csv| && |fit| == |activity.records|
    modifies activity
    ensures activity.records == MergedRecords(old(activity.records), Outcomes(fit, csv, values, plan), key)
    ensures dropped == DroppedCount(Outcomes(fit, csv, values, plan))
    ensures interpolated == InterpolatedCount(Outcomes(fit, csv, values, plan))
    ensures activity.session == old(activity.session) && activity.availableFields == old(activity.availableFields)
    ensures activity.availableIqFields == old(activity.availableIqFields)
    ensures activity.mergeProvenance == old(activity.mergeProvenance)
  {
    ghost var os := Outcomes(fit, csv, values, plan);
    ghost var before := activity.records;
    dropped, interpolated := 0, 0;
    for i := 0 to |fit|
      invariant |activity.records| == |before|
      invariant forall k :: 0 <= k < i ==> activity.records[k] == MergeRecord(before[k], os[k], key)
      invariant forall k :: i <= k < |before| ==> activity.records[k] == before[k]
      invariant dropped == DroppedCount(os[..i]) && interpolated == InterpolatedCount(os[..i])
      invariant activity.session == old(activity.session) && activity.availableFields == old(activity.availableFields)
      invariant activity.availableIqFields == old(activity.availableIqFields)
      invariant activity.mergeProvenance == old(activity.mergeProvenance)
    {
      assert os[..i + 1][..i] == os[..i];
      var o := Resolve(fit[i], csv, values, plan);
      if IsDropped(o) {
        dropped := dropped + 1;
      }
      if o.Interpolated? {
        interpolated := interpolated + 1;
      }
      var w := Written(o);
      if w.Some? {
        var r := activity.records[i];
        activity.records := activity.records[i := r.(iqFields := r.iqFields[key := Num(w.value as real)])];
      }
    }
    assert os[..|fit|] == os;
  }

  // ------------------------------------------------------ key, field list, provenance

  /** `f"imported_{sanitize_device_name(device)}_hr"`. */
  function IqKey(deviceName: Option<string>): (k: string)
    ensures |k| > 12 && k[..9] == "imported_" && k[|k| - 3..] == "_hr"
    ensures IsFieldFragment(k[9..|k| - 3]) && k[9..|k| - 3] == SanitizeDeviceName(deviceName)
  {
    var d := SanitizeDeviceName(deviceName);
    var k := "imported_" + d + "_hr";
    assert k[..9] == "imported_" && k[9..|k| - 3] == d && k[|k| - 3..] == "_hr";
    k
  }

  /** Append the key when it is missing and sort the list; otherwise keep the list. */
  function AddIqField(fields: seq<string>, key: string): seq<string>
  {
    if key in fields then fields else SortStrings(fields + [key])
  }

  /**
   * Afterwards the key is listed, exactly once when it was listed at most
   * once before; a new key sorts the list and adds nothing else.
   */
  lemma {:induction false} AddIqFieldSpec(fields: seq<string>, key: string)
    ensures key in AddIqField(fields, key)
    ensures key in fields ==> AddIqField(fields, key) == fields
    ensures key !in fields ==>
      Sorted(AddIqField(fields, key)) && multiset(AddIqField(fields, key)) == multiset(fields) + multiset{key}
    ensures multiset(fields)[key] <= 1 ==> multiset(AddIqField(fields, key))[key] == 1
    ensures Sorted(fields) ==> Sorted(AddIqField(fields, key))
  {
    if key !in fields {
      SortStringsSorted(fields + [key]);
      assert key in multiset(SortStrings(fields + [key]));
    } else {
      assert key in multiset(fields);
    }
  }

  /** Adding the same key again changes nothing. */
  lemma {:induction false} AddIqFieldIdempotent(fields: seq<string>, key: string)
    ensures AddIqField(AddIqField(fields, key), key) == AddIqField(fields, key)
  {
    AddIqFieldSpec(fields, key);
  }

  /** `n / total`, or None with no timed record. */
  function Ratio(n: nat, total: nat): (r: Option<real>)
    ensures r.None? <==> total == 0
    ensures r.Some? ==> r.value * total as real == n as real && 0.0 <= r.value
  {
    if total > 0 then Some(n as real / total as real) else None
  }

  function MethodName(align: bool): string
  {
    if align then MetadataAlign else LinearInterpolate
  }

  /** What the merge records about itself. */
  function Provenance(parsed: ParsedHrCsv, criteria: MergeCriteria, plan: Plan, matchRatio: real,
                      total: nat, dropped: nat, interpolated: nat): MergeProvenance
  {
    MergeProvenance(
      "1", MethodName(plan.align), "auto",
      [MergeSource(parsed.sourceFileName, parsed.deviceName)],
      Some(criteria),
      Some(MergeStats(Some(plan.offset), Some(matchRatio), Ratio(interpolated, total), Ratio(dropped, total))))
  }

  // ------------------------------------------------------ the merge

  /** The activity's state a merge produces. */
  datatype Merged = Merged(records: seq<Record>, availableIqFields: seq<string>, provenance: MergeProvenance)

  /** The settings the merge loop uses, from the record and CSV time lines. */
  function PlanOf(criteria: MergeCriteria, fit: seq<Option<real>>, csv: seq<real>): Plan
  {
    var maxShift := OrZero(criteria.autoAlignMaxShiftSec);
    var tol := OrZero(criteria.autoAlignMatchToleranceSec);
    var offset := BestOffset(Deltas(fit, csv, maxShift, tol), maxShift);
    var exactTol := ExactTol(tol);
    var total := TimedCount(fit);
    var ratio := MatchRatio(ExactMatches(fit, csv, offset, exactTol), total);
    Plan(total > 0 && ratio >= OrZero(criteria.autoAlignMinMatchRatio), offset, exactTol,
         OrZero(criteria.interpolateMaxGapSec), criteria.allowExtrapolation.GetOr(false))
  }

  /** The exact-match ratio under a plan's offset and tolerance. */
  function PlanRatio(fit: seq<Option<real>>, csv: seq<real>, plan: Plan): real
  {
    MatchRatio(ExactMatches(fit, csv, plan.offset, plan.exactTol), TimedCount(fit))
  }

  /** The merge once both time lines are known. */
  function MergeTimelines(records: seq<Record>, iqFields: seq<string>, parsed: ParsedHrCsv, criteria: MergeCriteria,
                          csv: seq<real>, values: seq<int>, fit: seq<Option<real>>): Merged
    requires |values| == |csv| && |fit| == |records|
  {
    var plan := PlanOf(criteria, fit, csv);
    var key := IqKey(parsed.deviceName);
    var os := Outcomes(fit, csv, values, plan);
    Merged(
      MergedRecords(records, os, key),
      AddIqField(iqFields, key),
      Provenance(parsed, criteria, plan, PlanRatio(fit, csv, plan), TimedCount(fit),
                 DroppedCount(os), InterpolatedCount(os)))
  }

  /**
   * `merge_offline_hr_csv_into_activity` as a function of the activity's
   * old state: the error it raises, or the new records, IQ field list and
   * provenance.
   */
  function MergeOutcome(session: Session, records: seq<Record>, iqFields: seq<string>, rows: seq<Row>,
                        sourceFileName: Option<string>, options: Option<HrMergeOptions>, p: Parsers,
                        coerce: real -> real): Result<Merged, MergeError>
  {
    match ParseResult(rows, sourceFileName, p)
    case Err(e) => Err(e)
    case Ok(parsed) =>
      match BaseTimestamp(session, records)
      case None => Err(NoBaseTimestamp)
      case Some(base) =>
        var csv := CsvTimes(parsed.samples, base, coerce);
        if |csv| == 0 then Err(NoCsvSamples)
        else
          Ok(MergeTimelines(records, iqFields, parsed, EffectiveOptions(options), csv,
                            CsvValues(parsed.samples), FitTimes(records, base, coerce)))
  }

  /** Choose the offset and the method, then write the values and the provenance. */
  method MergeIntoActivity(activity: Activity, parsed: ParsedHrCsv, criteria: MergeCriteria,
                           csv: seq<real>, values: seq<int>, fit: seq<Option<real>>)
    requires |values| == |csv| && |fit| == |activity.records|
    modifies activity
    ensures var m := MergeTimelines(old(activity.records), old(activity.availableIqFields), parsed, criteria, csv, values, fit);
      activity.records == m.records && activity.availableIqFields == m.availableIqFields &&
      activity.mergeProvenance == Some(m.provenance)
    ensures activity.session == old(activity.session) && activity.availableFields == old(activity.availableFields)
  {
    var maxShift := OrZero(criteria.autoAlignMaxShiftSec);
    var tol := OrZero(criteria.autoAlignMatchToleranceSec);
    var deltas := ComputeDeltas(fit, csv, maxShift, tol);
    var offset := ChooseBestOffset(deltas, maxShift);
    var exactTol := ExactTol(tol);
    var total, matched := CountMatches(fit, csv, offset, exactTol);
    var ratio := MatchRatio(matched, total);
    var align := total > 0 && ratio >= OrZero(criteria.autoAlignMinMatchRatio);
    var plan := Plan(align, offset, exactTol, OrZero(criteria.interpolateMaxGapSec), criteria.allowExtrapolation.GetOr(false));
    assert plan == PlanOf(criteria, fit, csv);
    var key := IqKey(parsed.deviceName);
    var dropped, interpolated := ApplyOutcomes(activity, fit, csv, values, plan, key);
    activity.availableIqFields := AddIqField(activity.availableIqFields, key);
    activity.mergeProvenance := Some(Provenance(parsed, criteria, plan, ratio, total, dropped, interpolated));
  }

  /** The source's merge: it changes the activity in place, or raises before changing anything. */
  method MergeOfflineHrCsvIntoActivity(activity: Activity, rows: seq<Row>, sourceFileName: Option<string>,
                                       options: Option<HrMergeOptions>, p: Parsers, coerce: real -> real)
    returns (r: Result<Activity, MergeError>)
    modifies activity
    ensures var m := MergeOutcome(old(activity.session), old(activity.records), old(activity.availableIqFields),
                                  rows, sourceFileName, options, p, coerce);
      match m
      case Err(e) =>
        r == Err(e) && activity.records == old(activity.records) &&
        activity.availableIqFields == old(activity.availableIqFields) &&
        activity.mergeProvenance == old(activity.mergeProvenance)
      case Ok(st) =>
        r == Ok(activity) && activity.records == st.records &&
        activity.availableIqFields == st.availableIqFields && activity.mergeProvenance == Some(st.provenance)
    ensures activity.session == old(activity.session) && activity.availableFields == old(activity.availableFields)
  {
    var parsed := ParseOfflineHrCsv(rows, sourceFileName, p);
    if parsed.Err? {
      return Err(parsed.error);
    }
    var criteria := EffectiveOptions(options);
    var base := BaseTimestamp(activity.session, activity.records);
    if base.None? {
      return Err(NoBaseTimestamp);
    }
    var csv, values := BuildCsvTimeline(parsed.value.samples, base.value, coerce);
    if |csv| == 0 {
      return Err(NoCsvSamples);
    }
    var fit := BuildFitTimes(activity.records, base.value, coerce);
    MergeIntoActivity(activity, parsed.value, criteria, csv, values, fit);
    return Ok(activity);
  }

  // ------------------------------------------------------ what a merge promises

  /**
   * The merge raises what parsing raises, then "no base timestamp" when the
   * activity has neither a start time nor a timestamped record; it never
   * finds the CSV empty, since parsing already rejects that.
   */
  lemma {:induction false} MergeErrors(session: Session, records: seq<Record>, iqFields: seq<string>, rows: seq<Row>,
                                       sourceFileName: Option<string>, options: Option<HrMergeOptions>, p: Parsers,
                                       coerce: real -> real)
    ensures var m := MergeOutcome(session, records, iqFields, rows, sourceFileName, options, p, coerce);
      (ParseResult(rows, sourceFileName, p).Err? ==> m == Err(ParseResult(rows, sourceFileName, p).error)) &&
      (ParseResult(rows, sourceFileName, p).Ok? ==>
        (m == Err(NoBaseTimestamp) <==>
         session.startTime.None? && forall k :: 0 <= k < |records| ==> records[k].timestamp.None?)) &&
      m != Err(NoCsvSamples)
  {
    FirstTimestampSpec(records);
    if ParseResult(rows, sourceFileName, p).Ok? {
      ParseResultSamples(rows, sourceFileName, p);
    }
  }

  /**
   * A merge keeps every record but its `iq_fields[key]`, lists the key among
   * the IQ fields, chooses `metadata_align` exactly when some record is
   * timed and the exact-match ratio reaches the minimum, and reports a
   * match ratio in [0, 1] and ratios that are None exactly when no record
   * is timed.
   */
  lemma {:induction false} MergeTimelinesSpec(records: seq<Record>, iqFields: seq<string>, parsed: ParsedHrCsv,
                                              criteria: MergeCriteria, csv: seq<real>, values: seq<int>,
                                              fit: seq<Option<real>>)
    requires |values| == |csv| && |fit| == |records|
    ensures var m := MergeTimelines(records, iqFields, parsed, criteria, csv, values, fit);
      var key := IqKey(parsed.deviceName);
      |m.records| == |records| &&
      (forall k :: 0 <= k < |records| ==>
         m.records[k].(iqFields := records[k].iqFields) == records[k] &&
         m.records[k].iqFields - {key} == records[k].iqFields - {key}) &&
      key in m.availableIqFields
    ensures var m := MergeTimelines(records, iqFields, parsed, criteria, csv, values, fit);
      var plan := PlanOf(criteria, fit, csv);
      (m.provenance.methodName == MetadataAlign <==>
       TimedCount(fit) > 0 && PlanRatio(fit, csv, plan) >= OrZero(criteria.autoAlignMinMatchRatio)) &&
      (m.provenance.methodName == MetadataAlign || m.provenance.methodName == LinearInterpolate) &&
      m.provenance.stats.Some? &&
      m.provenance.stats.value.offsetSec == Some(plan.offset) &&
      m.provenance.stats.value.matchRatio.Some? &&
      0.0 <= m.provenance.stats.value.matchRatio.value <= 1.0 &&
      (m.provenance.stats.value.droppedRatio.None? <==> TimedCount(fit) == 0) &&
      (m.provenance.stats.value.interpRatio.None? <==> TimedCount(fit) == 0)
  {
    var plan := PlanOf(criteria, fit, csv);
    var key := IqKey(parsed.deviceName);
    AddIqFieldSpec(iqFields, key);
    ExactMatchesBounded(fit, csv, plan.offset, plan.exactTol);
    var m := MergeTimelines(records, iqFields, parsed, criteria, csv, values, fit);
    var os := Outcomes(fit, csv, values, plan);
    forall k | 0 <= k < |records|
      ensures m.records[k].(iqFields := records[k].iqFields) == records[k]
      ensures m.records[k].iqFields - {key} == records[k].iqFields - {key}
    {
      assert m.records[k] == MergeRecord(records[k], os[k], key);
    }
  }
}
