// Character and string helpers shared by the Python back end and the
// JavaScript front end: decimal rendering, zero padding, prefix / suffix /
// substring tests, ASCII case folding, stripping, and JavaScript's
// `String.prototype.replace` with a string pattern.
module Text {
  import opened Wrappers

  // ---------------------------------------------------------------- digits

  predicate IsDigit(c: char) { '0' <= c <= '9' }

  function DigitChar(d: nat): (c: char)
    requires d < 10
    ensures IsDigit(c) && (c as int) - ('0' as int) == d
  {
    (('0' as int) + d) as char
  }

  function DigitValue(c: char): (d: nat)
    requires IsDigit(c)
    ensures d < 10 && DigitChar(d) == c
  {
    (c as int) - ('0' as int)
  }

  /** The decimal value of a string of digits (most significant first). */
  function DigitsValue(s: string): nat
    requires forall i :: 0 <= i < |s| ==> IsDigit(s[i])
  {
    if s == [] then 0 else DigitsValue(s[..|s| - 1]) * 10 + DigitValue(s[|s| - 1])
  }

  /** Python `str(n)` / JavaScript `n.toString()` for a natural number. */
  function NatToString(n: nat): (s: string)
    ensures |s| >= 1
    ensures forall i :: 0 <= i < |s| ==> IsDigit(s[i])
    ensures |s| > 1 ==> s[0] != '0'
    ensures n < 10 <==> |s| == 1
    decreases n
  {
    if n < 10 then [DigitChar(n)] else NatToString(n / 10) + [DigitChar(n % 10)]
  }

  lemma {:induction false} NatToStringValue(n: nat)
    ensures DigitsValue(NatToString(n)) == n
    decreases n
  {
    if n >= 10 {
      var s := NatToString(n);
      assert s[..|s| - 1] == NatToString(n / 10);
      NatToStringValue(n / 10);
    }
  }

  /** Python `str(i)` / JavaScript `i.toString()` for an integer. */
  function IntToString(i: int): (s: string)
    ensures i >= 0 ==> s == NatToString(i)
    ensures i < 0 ==> s == "-" + NatToString(-i)
  {
    if i >= 0 then NatToString(i) else "-" + NatToString(-i)
  }

  /** JavaScript `s.padStart(2, '0')`; also Python's `{:02d}` on a natural number. */
  function PadStart2(s: string): (r: string)
    ensures |s| >= 2 ==> r == s
    ensures |s| < 2 ==> |r| == 2 && r[2 - |s|..] == s
    ensures forall i :: 0 <= i < 2 - |s| ==> r[i] == '0'
  {
    if |s| >= 2 then s else if |s| == 1 then "0" + s else "00"
  }

  /** Two-digit rendering of n < 100: exactly two digits with value n. */
  lemma {:induction false} TwoDigits(n: nat)
    requires n < 100
    ensures |PadStart2(NatToString(n))| == 2
    ensures forall i :: 0 <= i < 2 ==> IsDigit(PadStart2(NatToString(n))[i])
    ensures DigitsValue(PadStart2(NatToString(n))) == n
  {
    var s := NatToString(n);
    NatToStringValue(n);
    if n < 10 {
      var r := PadStart2(s);
      assert r == ['0', s[0]];
      assert r[..1] == ['0'];
    }
  }

  // ------------------------------------------------------- prefix / suffix

  predicate StartsWith(s: string, p: string) { |p| <= |s| && s[..|p|] == p }

  predicate EndsWith(s: string, p: string) { |p| <= |s| && s[|s| - |p|..] == p }

  /** `p` occurs in `s` starting at index `i`. */
  predicate OccursAt(s: string, p: string, i: nat)
  {
    i + |p| <= |s| && s[i..i + |p|] == p
  }

  /** Python `p in s` / JavaScript `s.includes(p)` for strings. */
  predicate Contains(s: string, p: string)
  {
    exists i: nat | i <= |s| :: OccursAt(s, p, i)
  }

  /** The first index at or after `from` where `p` occurs in `s`. */
  function IndexOfFrom(s: string, p: string, from: nat): (r: Option<nat>)
    requires from <= |s|
    ensures r.Some? ==> from <= r.value && OccursAt(s, p, r.value)
    ensures r.Some? ==> forall j: nat :: from <= j < r.value ==> !OccursAt(s, p, j)
    ensures r.None? ==> forall j: nat :: from <= j ==> !OccursAt(s, p, j)
    decreases |s| - from
  {
    if from + |p| > |s| then None
    else if s[from..from + |p|] == p then Some(from)
    else if from == |s| then None
    else IndexOfFrom(s, p, from + 1)
  }

  function IndexOf(s: string, p: string): (r: Option<nat>)
    ensures r.Some? ==> OccursAt(s, p, r.value)
    ensures r.Some? ==> forall j: nat :: j < r.value ==> !OccursAt(s, p, j)
    ensures r.None? <==> !Contains(s, p)
  {
    IndexOfFrom(s, p, 0)
  }

  /**
   * JavaScript `s.replace(p, t)` with a string pattern: only the FIRST
   * occurrence of `p`, wherever it is, is replaced.
   */
  function JsReplaceFirst(s: string, p: string, t: string): (r: string)
    ensures !Contains(s, p) ==> r == s
  {
    match IndexOf(s, p)
    case None => s
    case Some(k) => s[..k] + t + s[k + |p|..]
  }

  lemma {:induction false} ReplacePrefixedFirst(k: string, p: string)
    requires |p| > 0
    ensures JsReplaceFirst(p + k, p, "") == k
  {
    assert OccursAt(p + k, p, 0) by { assert (p + k)[0..|p|] == p; }
  }

  // ------------------------------------------------------------ case folding

  function AsciiLowerChar(c: char): (d: char)
    ensures 'A' <= c <= 'Z' ==> 'a' <= d <= 'z'
    ensures !('A' <= c <= 'Z') ==> d == c
  {
    if 'A' <= c <= 'Z' then ((c as int) + 32) as char else c
  }

  /** Python `str.lower()` restricted to ASCII letters. */
  function Lower(s: string): (r: string)
    ensures |r| == |s|
  {
    if s == [] then [] else [AsciiLowerChar(s[0])] + Lower(s[1..])
  }

  /** `Lower` maps every character on its own. */
  lemma {:induction false} LowerEach(s: string)
    ensures forall i :: 0 <= i < |s| ==> Lower(s)[i] == AsciiLowerChar(s[i])
    decreases |s|
  {
    if s != [] {
      LowerEach(s[1..]);
      assert Lower(s) == [AsciiLowerChar(s[0])] + Lower(s[1..]);
    }
  }

  /** `Lower` of a concatenation is the concatenation of the `Lower`s. */
  lemma {:induction false} LowerAppend(a: string, b: string)
    ensures Lower(a + b) == Lower(a) + Lower(b)
    decreases |a|
  {
    if a == [] {
      assert a + b == b;
    } else {
      assert (a + b)[0] == a[0] && (a + b)[1..] == a[1..] + b;
      assert Lower(a + b) == [AsciiLowerChar(a[0])] + Lower(a[1..] + b);
      LowerAppend(a[1..], b);
    }
  }

  // ---------------------------------------------------------------- strip

  /** The characters Python's `str.strip()` removes, restricted to ASCII. */
  const Whitespace: set<char> := {' ', '\t', '\n', '\r', '\U{B}', '\U{C}', '\U{1C}', '\U{1D}', '\U{1E}', '\U{1F}'}

  /** The first index at or after `i` whose character is not in `cs`. */
  function StripStart(s: string, cs: set<char>, i: nat): (a: nat)
    requires i <= |s|
    ensures i <= a <= |s|
    decreases |s| - i
  {
    if i == |s| || s[i] !in cs then i else StripStart(s, cs, i + 1)
  }

  lemma {:induction false} StripStartSpec(s: string, cs: set<char>, i: nat)
    requires i <= |s|
    ensures var a := StripStart(s, cs, i);
      (a < |s| ==> s[a] !in cs) && forall k :: i <= k < a ==> s[k] in cs
    decreases |s| - i
  {
    if i < |s| && s[i] in cs { StripStartSpec(s, cs, i + 1); }
  }

  /** The last end at or below `j` (and not below `a`) whose end character is not in `cs`. */
  function StripEnd(s: string, cs: set<char>, a: nat, j: nat): (b: nat)
    requires a <= j <= |s|
    ensures a <= b <= j
    decreases j
  {
    if j == a || s[j - 1] !in cs then j else StripEnd(s, cs, a, j - 1)
  }

  lemma {:induction false} StripEndSpec(s: string, cs: set<char>, a: nat, j: nat)
    requires a <= j <= |s|
    ensures var b := StripEnd(s, cs, a, j);
      (b > a ==> s[b - 1] !in cs) && forall k :: b <= k < j ==> s[k] in cs
    decreases j
  {
    if j > a && s[j - 1] in cs { StripEndSpec(s, cs, a, j - 1); }
  }

  /** Python `s.strip(chars)`: drop leading and trailing characters of `cs`. */
  function StripChars(s: string, cs: set<char>): string
  {
    var a := StripStart(s, cs, 0);
    var b := StripEnd(s, cs, a, |s|);
    s[a..b]
  }

  /**
   * What `strip` keeps: a slice of `s` that neither starts nor ends with a
   * character of `cs`, everything cut off lying in `cs`; it is empty exactly
   * when every character is in `cs`.
   */
  lemma {:induction false} StripCharsSpec(s: string, cs: set<char>)
    ensures var a := StripStart(s, cs, 0); var b := StripEnd(s, cs, a, |s|);
      StripChars(s, cs) == s[a..b] &&
      (forall k :: 0 <= k < a ==> s[k] in cs) &&
      (forall k :: b <= k < |s| ==> s[k] in cs)
    ensures var r := StripChars(s, cs); r != [] ==> r[0] !in cs && r[|r| - 1] !in cs
    ensures (forall k :: 0 <= k < |s| ==> s[k] in cs) <==> StripChars(s, cs) == []
  {
    var a := StripStart(s, cs, 0);
    StripStartSpec(s, cs, 0);
    StripEndSpec(s, cs, a, |s|);
  }

  /** Python `s.strip()`. */
  function Strip(s: string): string { StripChars(s, Whitespace) }

  /** Python `s.strip().lower()`, the normalised form of a CSV cell. */
  function Norm(s: string): string { Lower(Strip(s)) }
}
