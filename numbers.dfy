// The numeric operators of Python and JavaScript that differ from Dafny's,
// stated over exact reals: floor division and modulo, truncation toward zero,
// JavaScript's remainder, Python's round-half-to-even, and ceiling.
module Numbers {

  function Min(a: real, b: real): (r: real)
    ensures r <= a && r <= b && (r == a || r == b)
  {
    if a <= b then a else b
  }

  function Abs(x: real): (r: real)
    ensures r >= 0.0 && (r == x || r == -x)
  {
    if x < 0.0 then -x else x
  }

  /** Python `int(x)` and JavaScript `Math.trunc(x)`: rounding toward zero. */
  function Trunc(x: real): (r: int)
    ensures x >= 0.0 ==> r as real <= x < r as real + 1.0
    ensures x < 0.0 ==> r as real - 1.0 < x <= r as real
  {
    if x >= 0.0 then x.Floor else -((-x).Floor)
  }

  /** `Math.ceil(x)`. */
  function Ceil(x: real): (r: int)
    ensures r as real - 1.0 < x <= r as real
  {
    -((-x).Floor)
  }

  /** Python `x // y` on floats: the floor of the quotient. */
  function PyFloorDiv(x: real, y: real): (r: int)
    requires y != 0.0
    ensures r as real <= x / y < r as real + 1.0
  {
    (x / y).Floor
  }

  /** Python `x % y` on floats: the sign follows the divisor. */
  function PyMod(x: real, y: real): (r: real)
    requires y > 0.0
    ensures 0.0 <= r < y
    ensures x == y * PyFloorDiv(x, y) as real + r
  {
    var q := PyFloorDiv(x, y);
    ScaleBounds(q as real, x, q as real + 1.0, y);
    x - y * q as real
  }

  /** JavaScript `x % y`: the sign follows the dividend. */
  function JsRem(x: real, y: real): (r: real)
    requires y > 0.0
    ensures x >= 0.0 ==> 0.0 <= r < y
    ensures x < 0.0 ==> -y < r <= 0.0
    ensures x == y * Trunc(x / y) as real + r
  {
    var q := Trunc(x / y);
    if x >= 0.0 then
      ScaleBounds(q as real, x, q as real + 1.0, y);
      x - y * q as real
    else
      ScaleBounds(q as real - 1.0, x, q as real, y);
      x - y * q as real
  }

  /** Multiplying a bracketed quotient back by its positive divisor. */
  lemma {:induction false} ScaleBounds(lo: real, x: real, hi: real, y: real)
    requires y > 0.0
    ensures lo <= x / y ==> lo * y <= x
    ensures x / y < hi ==> x < hi * y
    ensures lo < x / y ==> lo * y < x
    ensures x / y <= hi ==> x <= hi * y
  {
    assert (x / y) * y == x;
  }

  lemma {:induction false} UnitFraction(x: real, y: real)
    requires 0.0 <= x <= y && y > 0.0
    ensures 0.0 <= x / y <= 1.0
  {
    ScaleBounds(1.0, x, 1.0, y);
    ScaleBounds(0.0, x, 0.0, y);
  }

  /**
   * Python 3 `round(x)`: the nearest integer, and of two equally near ones
   * the even one.
   */
  function RoundHalfEven(x: real): (r: int)
    ensures -0.5 <= r as real - x <= 0.5
    ensures r as real - x == 0.5 || x - r as real == 0.5 ==> r % 2 == 0
  {
    var f := x.Floor;
    var d := x - f as real;
    if d < 0.5 then f
    else if d > 0.5 then f + 1
    else if f % 2 == 0 then f
    else f + 1
  }

  /** Rounding never leaves an integer interval around its argument. */
  lemma {:induction false} RoundBetween(a: int, b: int, x: real)
    requires a as real <= x <= b as real
    ensures a <= RoundHalfEven(x) <= b
  {
    var f := x.Floor;
    assert a <= f;
    if RoundHalfEven(x) == f + 1 {
      assert x > f as real;
      assert f < b;
    }
  }

  lemma {:induction false} RoundOfInteger(n: int)
    ensures RoundHalfEven(n as real) == n
  {
  }
}
