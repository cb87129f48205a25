// Python dictionaries as lists of (key, value) entries in insertion order,
// with `d.get(key)` and the facts about it every table of the model uses.
module Tables {
  import opened Wrappers

  /** A dictionary with its keys in insertion order. */
  type Table<V> = seq<(string, V)>

  /** `d.get(key)`. */
  function Lookup<V>(d: Table<V>, key: string): Option<V>
  {
    if d == [] then None
    else if d[0].0 == key then Some(d[0].1)
    else Lookup(d[1..], key)
  }

  /** A key is found exactly when some entry has it, and the first such entry gives the value. */
  lemma {:induction false} LookupSpec<V>(d: Table<V>, key: string)
    ensures Lookup(d, key).None? <==> forall k :: 0 <= k < |d| ==> d[k].0 != key
    ensures Lookup(d, key).Some? ==>
      exists k :: 0 <= k < |d| && d[k] == (key, Lookup(d, key).value) && forall j :: 0 <= j < k ==> d[j].0 != key
    decreases |d|
  {
    if d != [] && d[0].0 != key {
      var rest := d[1..];
      LookupSpec(rest, key);
      assert forall k :: 1 <= k < |d| ==> d[k] == rest[k - 1];
      if Lookup(rest, key).Some? {
        var k :| 0 <= k < |rest| && rest[k] == (key, Lookup(rest, key).value) && forall j :: 0 <= j < k ==> rest[j].0 != key;
        assert d[k + 1] == rest[k];
      }
    }
  }

  /** The entry at `k` is what its key looks up when no earlier entry has that key. */
  lemma {:induction false} LookupAt<V>(d: Table<V>, k: nat)
    requires k < |d| && forall j :: 0 <= j < k ==> d[j].0 != d[k].0
    ensures Lookup(d, d[k].0) == Some(d[k].1)
    decreases k
  {
    if k > 0 {
      assert d[0].0 != d[k].0;
      assert d[1..][k - 1] == d[k];
      LookupAt(d[1..], k - 1);
    }
  }

  predicate UniqueKeys<V>(d: Table<V>)
  {
    forall i, j :: 0 <= i < j < |d| ==> d[i].0 != d[j].0
  }

  /** With distinct keys, each entry is what its key looks up. */
  lemma {:induction false} LookupEntry<V>(d: Table<V>, k: nat)
    requires UniqueKeys(d) && k < |d|
    ensures Lookup(d, d[k].0) == Some(d[k].1)
  {
    LookupAt(d, k);
  }

  /** `d.values()`, in insertion order. */
  function Values<V>(d: Table<V>): (r: seq<V>)
    ensures |r| == |d|
  {
    seq(|d|, k requires 0 <= k < |d| => d[k].1)
  }

  /** `d[key] = v`: an existing key keeps its place, a new one goes last. */
  function Put<V>(d: Table<V>, key: string, v: V): (r: Table<V>)
    ensures |r| == |d| || |r| == |d| + 1
  {
    if d == [] then [(key, v)]
    else if d[0].0 == key then [(key, v)] + d[1..]
    else [d[0]] + Put(d[1..], key, v)
  }

  /** After `d[key] = v` the key looks up `v` and every other key what it did before. */
  lemma {:induction false} PutSpec<V>(d: Table<V>, key: string, v: V, other: string)
    ensures Lookup(Put(d, key, v), key) == Some(v)
    ensures other != key ==> Lookup(Put(d, key, v), other) == Lookup(d, other)
    decreases |d|
  {
    if d != [] && d[0].0 != key {
      PutSpec(d[1..], key, v, other);
    }
  }

  /** The keys after `d[key] = v` are the keys before, and `key`. */
  lemma {:induction false} PutKeys<V>(d: Table<V>, key: string, v: V, k: string)
    ensures Lookup(Put(d, key, v), k).Some? <==> Lookup(d, k).Some? || k == key
  {
    PutSpec(d, key, v, k);
  }
}
