// Minute-and-second renderings of durations and paces: the splitting into
// hours, minutes and seconds that Python (`//`, `%`, `int`) and JavaScript
// (`Math.floor`, `%`) perform, and the `M:SS` / `H:MM:SS` strings built
// from the parts.
module Clock {
  import opened Numbers
  import opened Text

  // ------------------------------------------------------ renderings

  /** `f"{m}:{s:02d}"` and `` `${m}:${s.toString().padStart(2, '0')}` ``. */
  function MinSec(m: int, s: int): string
  {
    IntToString(m) + ":" + PadStart2(IntToString(s))
  }

  /** `f"{h}:{m:02d}:{s:02d}"` and its JavaScript template twin. */
  function HourMinSec(h: int, m: int, s: int): string
  {
    IntToString(h) + ":" + PadStart2(IntToString(m)) + ":" + PadStart2(IntToString(s))
  }

  /** `r` is digits for `m`, a colon, and two digits for `s`. */
  predicate ReadsMinSec(r: string, m: int, s: int)
  {
    |r| >= 4 && r[|r| - 3] == ':' &&
    (forall k :: 0 <= k < |r| - 3 ==> IsDigit(r[k])) &&
    (forall k :: |r| - 2 <= k < |r| ==> IsDigit(r[k])) &&
    DigitsValue(r[..|r| - 3]) == m && DigitsValue(r[|r| - 2..]) == s
  }

  /** `r` is digits for `h`, a colon, two digits for `m`, a colon, and two digits for `s`. */
  predicate ReadsHourMinSec(r: string, h: int, m: int, s: int)
  {
    |r| >= 7 && r[|r| - 6] == ':' && r[|r| - 3] == ':' &&
    (forall k :: 0 <= k < |r| - 6 ==> IsDigit(r[k])) &&
    (forall k :: |r| - 5 <= k < |r| - 3 ==> IsDigit(r[k])) &&
    (forall k :: |r| - 2 <= k < |r| ==> IsDigit(r[k])) &&
    DigitsValue(r[..|r| - 6]) == h && DigitsValue(r[|r| - 5..|r| - 3]) == m && DigitsValue(r[|r| - 2..]) == s
  }

  /** Reading `M:SS` back gives the minutes and seconds it was built from. */
  lemma {:induction false} MinSecReadBack(m: nat, s: nat)
    requires s < 60
    ensures ReadsMinSec(MinSec(m, s), m, s)
  {
    var a, b := NatToString(m), PadStart2(NatToString(s));
    TwoDigits(s);
    NatToStringValue(m);
    var r := MinSec(m, s);
    assert r == a + ":" + b;
    assert r[..|r| - 3] == a;
    assert r[|r| - 2..] == b;
  }

  /** Reading `H:MM:SS` back gives the hours, minutes and seconds it was built from. */
  lemma {:induction false} HourMinSecReadBack(h: nat, m: nat, s: nat)
    requires m < 60 && s < 60
    ensures ReadsHourMinSec(HourMinSec(h, m, s), h, m, s)
  {
    var a, b, c := NatToString(h), PadStart2(NatToString(m)), PadStart2(NatToString(s));
    TwoDigits(m);
    TwoDigits(s);
    NatToStringValue(h);
    var r := HourMinSec(h, m, s);
    assert r == a + ":" + b + ":" + c;
    assert r[..|r| - 6] == a;
    assert r[|r| - 5..|r| - 3] == b;
    assert r[|r| - 2..] == c;
  }

  // ------------------------------------------------------ Python's split

  /** `int(x // 60)`. */
  function PyMinutes(x: real): int
  {
    PyFloorDiv(x, 60.0)
  }

  /** `int(x % 60)`: the whole seconds past the minute. */
  function PySeconds(x: real): (s: nat)
    ensures s < 60
  {
    PyMod(x, 60.0).Floor
  }

  /** `int(x // 3600)`. */
  function PyHours(x: real): int
  {
    PyFloorDiv(x, 3600.0)
  }

  /** `int((x % 3600) // 60)`: the whole minutes past the hour. */
  function PyMinuteOfHour(x: real): (m: nat)
    ensures m < 60
  {
    var rest := PyMod(x, 3600.0);
    ScaleBounds(0.0, rest, 60.0, 60.0);
    PyFloorDiv(rest, 60.0)
  }

  /** Minutes and seconds together are the whole seconds of `x`. */
  lemma {:induction false} SplitMinutes(x: real)
    ensures 60 * PyMinutes(x) + PySeconds(x) == x.Floor
  {
    var q, r := PyMinutes(x), PyMod(x, 60.0);
    assert x == 60.0 * q as real + r;
    assert (60 * q) as real + r.Floor as real <= x < (60 * q) as real + r.Floor as real + 1.0;
  }

  /** Hours, minutes past the hour and seconds together are the whole seconds of `x`. */
  lemma {:induction false} SplitHours(x: real)
    ensures 3600 * PyHours(x) + 60 * PyMinuteOfHour(x) + PySeconds(x) == x.Floor
  {
    var h, rest := PyHours(x), PyMod(x, 3600.0);
    var m := PyMinuteOfHour(x);
    var r := PyMod(rest, 60.0);
    assert rest == 60.0 * m as real + r;
    assert x == 60.0 * (60 * h + m) as real + r;
    FloorDivUnique(x, 60 * h + m, r);
    SplitMinutes(x);
  }

  /** Python's `//` by 60 is the quotient of any split with a remainder in [0, 60). */
  lemma {:induction false} FloorDivUnique(x: real, q: int, r: real)
    requires x == 60.0 * q as real + r && 0.0 <= r < 60.0
    ensures PyMinutes(x) == q && PyMod(x, 60.0) == r
  {
    assert x / 60.0 == q as real + r / 60.0;
  }

  // ------------------------------------------------------ JavaScript's split

  /** On non-negative numbers JavaScript's `%` is Python's. */
  lemma {:induction false} JsRemOfNonNegative(x: real, y: real)
    requires x >= 0.0 && y > 0.0
    ensures JsRem(x, y) == PyMod(x, y)
  {
  }

  // ------------------------------------------------------ pace

  /** `1000 / speed` seconds per kilometre, rendered `M:SS`. */
  function PaceText(speed: real): string
    requires speed > 0.0
  {
    var p := 1000.0 / speed;
    MinSec(PyMinutes(p), PySeconds(p))
  }

  /**
   * The rendering reads back as whole minutes and seconds per kilometre,
   * seconds below 60, which together are the whole seconds of `1000 / speed`.
   */
  lemma {:induction false} PaceTextSpec(speed: real)
    requires speed > 0.0
    ensures var p := 1000.0 / speed;
      PyMinutes(p) >= 0 && ReadsMinSec(PaceText(speed), PyMinutes(p), PySeconds(p)) &&
      60 * PyMinutes(p) + PySeconds(p) == p.Floor
  {
    var p := 1000.0 / speed;
    assert p > 0.0;
    SplitMinutes(p);
    MinSecReadBack(PyMinutes(p), PySeconds(p));
  }
}
