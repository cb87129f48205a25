// Generic facts about sequences: the distinct elements in order of first
// occurrence (the key order of a dictionary or set built by appending).
module Seqs {

  /** The distinct elements of `s` in order of first occurrence. */
  function FirstOccurrences<T(==)>(s: seq<T>): (r: seq<T>)
    ensures |r| <= |s| && (|s| > 0 ==> |r| > 0)
  {
    if s == [] then []
    else
      var f := FirstOccurrences(s[..|s| - 1]);
      if s[|s| - 1] in f then f else f + [s[|s| - 1]]
  }

  predicate NoRepeats<T(==)>(f: seq<T>)
  {
    forall i, j :: 0 <= i < j < |f| ==> f[i] != f[j]
  }

  /** It holds each element of `s` once. */
  lemma {:induction false} FirstOccurrencesSpec<T>(s: seq<T>)
    ensures forall x :: x in FirstOccurrences(s) <==> x in s
    ensures NoRepeats(FirstOccurrences(s))
    decreases |s|
  {
    if s != [] {
      var s0, y := s[..|s| - 1], s[|s| - 1];
      FirstOccurrencesSpec(s0);
      assert s == s0 + [y];
      forall x ensures x in FirstOccurrences(s) <==> x in s {
        assert x in s <==> x in s0 || x == y;
      }
      var f, f0 := FirstOccurrences(s), FirstOccurrences(s0);
      if y !in f0 {
        assert f == f0 + [y];
        forall i, j | 0 <= i < j < |f| ensures f[i] != f[j] {
          assert f[i] == f0[i] && f0[i] in f0;
          if j == |f0| {
            assert f[j] == y;
          } else {
            assert f[j] == f0[j];
            assert f0[i] != f0[j];
          }
        }
      }
    }
  }

  /** Each listed element occurs in `s`. */
  lemma {:induction false} FirstOccurrencesMember<T>(s: seq<T>, i: nat)
    requires i < |FirstOccurrences(s)|
    ensures FirstOccurrences(s)[i] in s
    decreases |s|
  {
    var s0 := s[..|s| - 1];
    assert s == s0 + [s[|s| - 1]];
    if i < |FirstOccurrences(s0)| {
      FirstOccurrencesMember(s0, i);
      assert FirstOccurrences(s)[i] == FirstOccurrences(s0)[i];
    }
  }

  /**
   * Its order is that of first occurrence: wherever an element occurs in
   * `s`, every element listed before it has occurred earlier.
   */
  lemma {:induction false} FirstOccurrencesOrder<T>(s: seq<T>, k: nat, m: nat, m': nat)
    requires k < |s| && m' < m < |FirstOccurrences(s)| && s[k] == FirstOccurrences(s)[m]
    ensures FirstOccurrences(s)[m'] in s[..k]
    decreases |s|
  {
    var s0, y := s[..|s| - 1], s[|s| - 1];
    var f0 := FirstOccurrences(s0);
    FirstOccurrencesSpec(s0);
    if k < |s| - 1 {
      assert s0[k] == s[k];
      if m < |f0| {
        FirstOccurrencesOrder(s0, k, m, m');
        assert s0[..k] == s[..k];
      } else {
        assert false;
      }
    } else {
      assert s[..k] == s0;
      assert FirstOccurrences(s)[m'] == f0[m'];
      FirstOccurrencesMember(s0, m');
    }
  }

  /** Appending to the list whose first occurrences are taken. */
  lemma {:induction false} FirstOccurrencesStep<T>(b: seq<T>, x: T)
    ensures FirstOccurrences(b + [x]) == if x in FirstOccurrences(b) then FirstOccurrences(b) else FirstOccurrences(b) + [x]
  {
    assert (b + [x])[..|b|] == b;
  }
}
