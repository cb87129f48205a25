// The time-axis lookups of the offline heart-rate merge: the lower-bound
// binary search over CSV sample times, the nearest-of-two-candidates lookup,
// the "is there a sample within tol" test, and bracketed linear
// interpolation of heart-rate values.
module HrSearch {
  import opened Wrappers
  import opened Numbers

  predicate SortedReals(s: seq<real>)
  {
    forall i, j :: 0 <= i < j < |s| ==> s[i] <= s[j]
  }

  /**
   * The result of the binary-search loop when its bounds are `lo` and `hi`:
   * halve [lo, hi) until it is empty, moving right past every midpoint
   * whose time is below `t`.
   */
  function BisectFrom(s: seq<real>, t: real, lo: nat, hi: nat): (r: nat)
    requires lo <= hi <= |s|
    ensures lo <= r <= hi
    decreases hi - lo
  {
    if lo < hi then
      var mid := (lo + hi) / 2;
      if s[mid] < t then BisectFrom(s, t, mid + 1, hi) else BisectFrom(s, t, lo, mid)
    else lo
  }

  /** The index `_nearest_index` returns, for sorted and unsorted input alike. */
  function BisectLeft(s: seq<real>, t: real): (r: nat)
    ensures r <= |s|
  {
    BisectFrom(s, t, 0, |s|)
  }

  /** Every element left of a lower bound is below `t`, every other one is not. */
  predicate IsLowerBound(s: seq<real>, t: real, i: nat)
  {
    i <= |s| &&
    (forall k :: 0 <= k < i ==> s[k] < t) &&
    (forall k :: i <= k < |s| ==> s[k] >= t)
  }

  lemma {:induction false} BisectFromLowerBound(s: seq<real>, t: real, lo: nat, hi: nat)
    requires lo <= hi <= |s| && SortedReals(s)
    requires forall k :: 0 <= k < lo ==> s[k] < t
    requires forall k :: hi <= k < |s| ==> s[k] >= t
    ensures IsLowerBound(s, t, BisectFrom(s, t, lo, hi))
    decreases hi - lo
  {
    if lo < hi {
      var mid := (lo + hi) / 2;
      if s[mid] < t {
        BisectFromLowerBound(s, t, mid + 1, hi);
      } else {
        BisectFromLowerBound(s, t, lo, mid);
      }
    }
  }

  /** On sorted times the search is a lower bound, and the only one. */
  lemma {:induction false} BisectLeftLowerBound(s: seq<real>, t: real)
    requires SortedReals(s)
    ensures IsLowerBound(s, t, BisectLeft(s, t))
    ensures forall j: nat :: IsLowerBound(s, t, j) ==> j == BisectLeft(s, t)
  {
    BisectFromLowerBound(s, t, 0, |s|);
    var i := BisectLeft(s, t);
    forall j: nat | IsLowerBound(s, t, j) ensures j == i {
      if j < i { LowerBoundsAgree(s, t, j, i); }
      if i < j { LowerBoundsAgree(s, t, i, j); }
    }
  }

  lemma {:induction false} LowerBoundsAgree(s: seq<real>, t: real, a: nat, b: nat)
    requires IsLowerBound(s, t, a) && IsLowerBound(s, t, b) && a <= b
    ensures a == b
  {
    var probe := if a < |s| then s[a] else t;
    assert a < |s| ==> probe >= t;
  }

  /** `_nearest_index`: the binary-search loop itself. */
  method NearestIndex(s: seq<real>, t: real) returns (lo: nat)
    ensures lo == BisectLeft(s, t)
    ensures SortedReals(s) ==> IsLowerBound(s, t, lo)
  {
    lo := 0;
    var hi := |s|;
    while lo < hi
      invariant lo <= hi <= |s|
      invariant BisectFrom(s, t, lo, hi) == BisectLeft(s, t)
      decreases hi - lo
    {
      var mid := (lo + hi) / 2;
      if s[mid] < t {
        lo := mid + 1;
      } else {
        hi := mid;
      }
    }
    if SortedReals(s) { BisectLeftLowerBound(s, t); }
  }

  /**
   * `_find_nearest_time`: of the samples at the search index and just left
   * of it, the one closer to `t`; on a tie the one at the search index.
   */
  function FindNearestTime(s: seq<real>, t: real): (r: Option<real>)
    ensures r.None? <==> |s| == 0
    ensures r.Some? ==>
      var i := BisectLeft(s, t);
      ((i < |s| && r.value == s[i]) || (0 < i && r.value == s[i - 1])) &&
      (i < |s| ==> Abs(r.value - t) <= Abs(s[i] - t)) &&
      (0 < i ==> Abs(r.value - t) <= Abs(s[i - 1] - t)) &&
      (i < |s| && (i == 0 || Abs(s[i] - t) <= Abs(s[i - 1] - t)) ==> r.value == s[i])
  {
    if |s| == 0 then None
    else
      var i := BisectLeft(s, t);
      if i < |s| && 0 < i then
        (if Abs(s[i - 1] - t) < Abs(s[i] - t) then Some(s[i - 1]) else Some(s[i]))
      else if i < |s| then Some(s[i])
      else Some(s[i - 1])
  }

  /** On sorted times the lookup finds a sample nearest to `t` overall. */
  lemma {:induction false} NearestIsGlobal(s: seq<real>, t: real)
    requires SortedReals(s) && |s| > 0
    ensures forall k :: 0 <= k < |s| ==> Abs(FindNearestTime(s, t).value - t) <= Abs(s[k] - t)
  {
    BisectLeftLowerBound(s, t);
    var i := BisectLeft(s, t);
    forall k | 0 <= k < |s| ensures Abs(FindNearestTime(s, t).value - t) <= Abs(s[k] - t) {
      if k < i { assert s[k] <= s[i - 1] < t; }
      else { assert t <= s[i] <= s[k]; }
    }
  }

  /** `_has_match_within`: a sample at the search index or left of it lies within `tol`. */
  function HasMatchWithin(s: seq<real>, t: real, tol: real): (r: bool)
    ensures |s| == 0 ==> !r
    ensures r ==> exists k :: 0 <= k < |s| && Abs(s[k] - t) <= tol
  {
    if |s| == 0 then false
    else
      var i := BisectLeft(s, t);
      (i < |s| && Abs(s[i] - t) <= tol) || (i > 0 && Abs(s[i - 1] - t) <= tol)
  }

  /** A match within `tol` exists exactly when the nearest sample is within `tol`. */
  lemma {:induction false} HasMatchIffNearestWithin(s: seq<real>, t: real, tol: real)
    ensures HasMatchWithin(s, t, tol) <==>
      (FindNearestTime(s, t).Some? && Abs(FindNearestTime(s, t).value - t) <= tol)
  {
  }

  /** On sorted times the test finds a match whenever ANY sample is within `tol`. */
  lemma {:induction false} HasMatchWithinComplete(s: seq<real>, t: real, tol: real)
    requires SortedReals(s)
    ensures HasMatchWithin(s, t, tol) <==> exists k :: 0 <= k < |s| && Abs(s[k] - t) <= tol
  {
    if k :| 0 <= k < |s| && Abs(s[k] - t) <= tol {
      NearestIsGlobal(s, t);
      HasMatchIffNearestWithin(s, t, tol);
    }
  }

  /**
   * The candidate index the merge's alignment loop picks (the same two
   * candidates and the same tie rule as `_find_nearest_time`).
   */
  function NearestCandidate(s: seq<real>, t: real): (r: Option<nat>)
    ensures r.None? <==> |s| == 0
    ensures r.Some? ==> r.value < |s| && FindNearestTime(s, t) == Some(s[r.value])
  {
    if |s| == 0 then None
    else
      var i := BisectLeft(s, t);
      if i < |s| && 0 < i then
        (if Abs(s[i - 1] - t) < Abs(s[i] - t) then Some(i - 1) else Some(i))
      else if i < |s| then Some(i)
      else Some(i - 1)
  }

  /**
   * `_interpolate_value`: an exact hit returns its value; outside the
   * samples only extrapolation (by the first or last value) gives a value;
   * inside, a degenerate bracket returns the left value, a bracket wider
   * than `maxGap` gives nothing, and otherwise the linear blend is rounded.
   */
  function InterpolateValue(times: seq<real>, values: seq<int>, t: real, maxGap: real, allowExtrapolation: bool): (r: Option<int>)
    requires |values| == |times|
    ensures |times| == 0 ==> r.None?
    ensures |times| > 0 ==>
      var i := BisectLeft(times, t);
      (i < |times| && times[i] == t ==> r == Some(values[i])) &&
      (!(i < |times| && times[i] == t) && i == 0 ==>
         r == (if allowExtrapolation then Some(values[0]) else None)) &&
      (!(i < |times| && times[i] == t) && i == |times| ==>
         r == (if allowExtrapolation then Some(values[|values| - 1]) else None)) &&
      (!(i < |times| && times[i] == t) && 0 < i < |times| && times[i] <= times[i - 1] ==>
         r == Some(values[i - 1])) &&
      (!(i < |times| && times[i] == t) && 0 < i < |times| && times[i] > times[i - 1] ==>
         (r.None? <==> times[i] - times[i - 1] > maxGap))
  {
    if |times| == 0 then None
    else
      var i := BisectLeft(times, t);
      if i < |times| && times[i] == t then Some(values[i])
      else if i == 0 then (if allowExtrapolation then Some(values[0]) else None)
      else if i >= |times| then (if allowExtrapolation then Some(values[|values| - 1]) else None)
      else
        var t0 := times[i - 1];
        var t1 := times[i];
        if t1 <= t0 then Some(values[i - 1])
        else if t1 - t0 > maxGap then None
        else Some(RoundHalfEven(Blend(values[i - 1] as real, values[i] as real, (t - t0) / (t1 - t0))))
  }

  /** `(1 - alpha) * v0 + alpha * v1`. */
  function Blend(v0: real, v1: real, alpha: real): real
  {
    (1.0 - alpha) * v0 + alpha * v1
  }

  lemma {:induction false} BlendBetween(v0: real, v1: real, alpha: real)
    requires 0.0 <= alpha <= 1.0
    ensures Blend(v0, v1, alpha) == v0 + alpha * (v1 - v0)
    ensures v0 <= v1 ==> v0 <= Blend(v0, v1, alpha) <= v1
    ensures v1 <= v0 ==> v1 <= Blend(v0, v1, alpha) <= v0
  {
    assert (1.0 - alpha) * v0 == v0 - alpha * v0;
    assert alpha * (v1 - v0) == alpha * v1 - alpha * v0;
    if v0 <= v1 {
      FractionOf(alpha, v1 - v0);
    } else {
      FractionOf(alpha, v0 - v1);
      assert alpha * (v1 - v0) == -(alpha * (v0 - v1));
    }
  }

  /** A fraction of a non-negative amount lies between nothing and all of it. */
  lemma {:induction false} FractionOf(alpha: real, d: real)
    requires 0.0 <= alpha <= 1.0 && 0.0 <= d
    ensures 0.0 <= alpha * d <= d
  {
    assert d - alpha * d == (1.0 - alpha) * d;
    assert 0.0 <= (1.0 - alpha) * d;
    assert 0.0 <= alpha * d;
  }

  /**
   * On sorted times an interpolated value is never outside the two
   * bracketing sample values.
   */
  lemma {:induction false} InterpolationWithinBracket(times: seq<real>, values: seq<int>, t: real, maxGap: real, allowExtrapolation: bool)
    requires |values| == |times| && SortedReals(times)
    requires var i := BisectLeft(times, t); 0 < i < |times| && times[i] != t
    ensures var i := BisectLeft(times, t);
      var r := InterpolateValue(times, values, t, maxGap, allowExtrapolation);
      r.Some? ==>
        (values[i - 1] <= values[i] ==> values[i - 1] <= r.value <= values[i]) &&
        (values[i] <= values[i - 1] ==> values[i] <= r.value <= values[i - 1])
  {
    BisectLeftLowerBound(times, t);
    var i := BisectLeft(times, t);
    var t0, t1 := times[i - 1], times[i];
    if t0 < t1 && t1 - t0 <= maxGap {
      assert t0 < t < t1;
      var alpha := (t - t0) / (t1 - t0);
      UnitFraction(t - t0, t1 - t0);
      BlendBetween(values[i - 1] as real, values[i] as real, alpha);
      var v := Blend(values[i - 1] as real, values[i] as real, alpha);
      if values[i - 1] <= values[i] {
        RoundBetween(values[i - 1], values[i], v);
      } else {
        RoundBetween(values[i], values[i - 1], v);
      }
    }
  }
}
