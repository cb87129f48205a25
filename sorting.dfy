// Python's ordering of strings (lexicographic by code point) and the sort
// that `sorted(...)` / `list.sort()` perform on lists of strings.
module Sorting {
  import opened Seqs

  /** Python `a <= b` on strings. */
  predicate Below(a: string, b: string)
    decreases |a|
  {
    a == [] || (b != [] && (a[0] < b[0] || (a[0] == b[0] && Below(a[1..], b[1..]))))
  }

  lemma {:induction false} BelowRefl(a: string)
    ensures Below(a, a)
    decreases |a|
  {
    if a != [] { BelowRefl(a[1..]); }
  }

  lemma {:induction false} BelowAntisym(a: string, b: string)
    requires Below(a, b) && Below(b, a)
    ensures a == b
    decreases |a|
  {
    if a != [] && b != [] {
      BelowAntisym(a[1..], b[1..]);
      assert a == [a[0]] + a[1..] && b == [b[0]] + b[1..];
    }
  }

  lemma {:induction false} BelowTrans(a: string, b: string, c: string)
    requires Below(a, b) && Below(b, c)
    ensures Below(a, c)
    decreases |a|
  {
    if a != [] && b != [] && c != [] && a[0] == b[0] == c[0] {
      BelowTrans(a[1..], b[1..], c[1..]);
    }
  }

  lemma {:induction false} BelowTotal(a: string, b: string)
    ensures Below(a, b) || Below(b, a)
    decreases |a|
  {
    if a != [] && b != [] && a[0] == b[0] {
      BelowTotal(a[1..], b[1..]);
    }
  }

  predicate Sorted(s: seq<string>)
  {
    forall i, j :: 0 <= i < j < |s| ==> Below(s[i], s[j])
  }

  /** Insert `x` before the first element it is strictly below. */
  function Insert(x: string, s: seq<string>): (r: seq<string>)
    ensures multiset(r) == multiset(s) + multiset{x}
    ensures |r| == |s| + 1
    ensures r[0] == x || (s != [] && r[0] == s[0])
  {
    if s == [] then [x]
    else if Below(x, s[0]) then [x] + s
    else
      assert s == [s[0]] + s[1..];
      [s[0]] + Insert(x, s[1..])
  }

  lemma {:induction false} InsertSorted(x: string, s: seq<string>)
    requires Sorted(s)
    ensures Sorted(Insert(x, s))
    decreases |s|
  {
    if s != [] && Below(x, s[0]) {
      forall j | 0 <= j < |s| ensures Below(x, s[j]) {
        if j > 0 { BelowTrans(x, s[0], s[j]); }
      }
    } else if s != [] {
      BelowTotal(x, s[0]);
      InsertSorted(x, s[1..]);
      var t := Insert(x, s[1..]);
      assert Insert(x, s) == [s[0]] + t;
      assert Below(s[0], t[0]);
      forall j | 0 < j < |t| ensures Below(s[0], t[j]) {
        BelowTrans(s[0], t[0], t[j]);
      }
    }
  }

  /** Python `sorted(xs)` on a list of strings. */
  function SortStrings(s: seq<string>): (r: seq<string>)
    ensures multiset(r) == multiset(s)
    ensures |r| == |s|
    decreases |s|
  {
    if s == [] then []
    else
      assert s == s[..|s| - 1] + [s[|s| - 1]];
      Insert(s[|s| - 1], SortStrings(s[..|s| - 1]))
  }

  lemma {:induction false} SortStringsSorted(s: seq<string>)
    ensures Sorted(SortStrings(s))
    decreases |s|
  {
    if s != [] {
      SortStringsSorted(s[..|s| - 1]);
      InsertSorted(s[|s| - 1], SortStrings(s[..|s| - 1]));
    }
  }

  /** The head of a sorted list is below every element of it. */
  lemma {:induction false} HeadBelow(a: seq<string>, x: string)
    requires Sorted(a) && x in multiset(a)
    ensures Below(a[0], x)
  {
    var i :| 0 <= i < |a| && a[i] == x;
    if i == 0 { BelowRefl(x); }
  }

  lemma {:induction false} TailMultiset(a: seq<string>)
    requires a != []
    ensures multiset(a[1..]) == multiset(a) - multiset{a[0]}
  {
    assert a == [a[0]] + a[1..];
  }

  /** Two sorted arrangements of the same strings are the same list. */
  lemma {:induction false} SortedUnique(a: seq<string>, b: seq<string>)
    requires Sorted(a) && Sorted(b) && multiset(a) == multiset(b)
    ensures a == b
    decreases |a|
  {
    assert |b| == |a| by { assert |multiset(a)| == |multiset(b)|; }
    if a != [] {
      assert a[0] in multiset(a);
      assert b[0] in multiset(b);
      HeadBelow(b, a[0]);
      HeadBelow(a, b[0]);
      BelowAntisym(a[0], b[0]);
      TailMultiset(a);
      TailMultiset(b);
      SortedUnique(a[1..], b[1..]);
      assert a == [a[0]] + a[1..] && b == [b[0]] + b[1..];
    }
  }

  /** Whatever algorithm sorts, the result is SortStrings of its input. */
  lemma {:induction false} SortedIsSortStrings(s: seq<string>, r: seq<string>)
    requires Sorted(r) && multiset(r) == multiset(s)
    ensures r == SortStrings(s)
  {
    SortStringsSorted(s);
    SortedUnique(r, SortStrings(s));
  }

  /** Sorting a list that has no repeats gives a list that has none either. */
  lemma {:induction false} SortedNoRepeats(s: seq<string>)
    requires forall i, j :: 0 <= i < j < |s| ==> s[i] != s[j]
    ensures forall x :: multiset(SortStrings(s))[x] <= 1
  {
    forall x ensures multiset(SortStrings(s))[x] <= 1 { MultiplicityOne(s, x); }
  }

  lemma {:induction false} MultiplicityOne(s: seq<string>, x: string)
    requires forall i, j :: 0 <= i < j < |s| ==> s[i] != s[j]
    ensures multiset(s)[x] <= 1
    decreases |s|
  {
    if s != [] {
      assert s == [s[0]] + s[1..];
      MultiplicityOne(s[1..], x);
      if s[0] == x { assert x !in s[1..]; }
    }
  }

  /** Two equal entries at distinct positions make a multiplicity of at least two. */
  lemma {:induction false} RepeatCounts(r: seq<string>, i: nat, j: nat)
    requires i < j < |r| && r[i] == r[j]
    ensures multiset(r)[r[i]] >= 2
  {
    assert r == r[..j] + [r[j]] + r[j + 1..];
    assert r[..j][i] == r[i];
    assert multiset(r[..j])[r[i]] >= 1;
  }

  /** `sorted(list(s))` for a set of strings: its elements, once each, in order. */
  method SortedFromSet(s: set<string>) returns (r: seq<string>)
    ensures Sorted(r) && NoRepeats(r)
    ensures forall x :: x in r <==> x in s
    ensures |r| == |s|
  {
    var acc: seq<string> := [];
    var rest := s;
    while rest != {}
      invariant forall x :: x in s <==> x in rest || x in acc
      invariant forall x :: x in rest ==> x !in acc
      invariant rest <= s && |acc| + |rest| == |s|
      invariant forall i, j :: 0 <= i < j < |acc| ==> acc[i] != acc[j]
      decreases |rest|
    {
      var x :| x in rest;
      acc := acc + [x];
      rest := rest - {x};
    }
    r := SortStrings(acc);
    SortStringsSorted(acc);
    SortedNoRepeats(acc);
    forall i, j | 0 <= i < j < |r| ensures r[i] != r[j] {
      if r[i] == r[j] { RepeatCounts(r, i, j); }
    }
    forall x ensures x in r <==> x in s {
      assert x in r <==> x in multiset(r);
      assert x in acc <==> x in multiset(acc);
    }
  }
}
