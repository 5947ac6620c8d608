/** Python's `dict` as an ordered association list. Iteration follows
    insertion order; assigning to a key that is already present keeps that
    key's position, and assigning to a new key appends it. */
module Dicts {
  import opened Wrappers

  type Dict<K, V> = seq<(K, V)>

  /** The keys in iteration order (`list(d.keys())`). */
  function Keys<K, V>(d: Dict<K, V>): (ks: seq<K>)
    ensures |ks| == |d|
    ensures forall i :: 0 <= i < |d| ==> ks[i] == d[i].0
  {
    seq(|d|, i requires 0 <= i < |d| => d[i].0)
  }

  /** No key occurs twice: true of every Python dict. */
  predicate Unique<K(==), V>(d: Dict<K, V>) {
    forall i, j :: 0 <= i < j < |d| ==> d[i].0 != d[j].0
  }

  /** Position of the first entry for `k`, or -1 when `k` is absent. */
  function IndexOf<K(==), V>(d: Dict<K, V>, k: K): (i: int)
    ensures -1 <= i < |d|
    ensures i >= 0 ==> d[i].0 == k
    ensures forall j :: 0 <= j < |d| && (i < 0 || j < i) ==> d[j].0 != k
  {
    if d == [] then -1
    else if d[0].0 == k then 0
    else var j := IndexOf(d[1..], k); if j < 0 then -1 else j + 1
  }

  /** `d.get(k)`: the value stored under `k`, or None. */
  function Get<K(==), V>(d: Dict<K, V>, k: K): (r: Option<V>)
    ensures r.Some? <==> k in Keys(d)
    ensures Unique(d) ==> forall i :: 0 <= i < |d| && d[i].0 == k ==> r == Some(d[i].1)
  {
    var i := IndexOf(d, k);
    if i < 0 then None else Some(d[i].1)
  }

  /** Looking a key up in a non-empty dict: the first entry, or the rest. */
  lemma GetCons<K, V>(d: Dict<K, V>, k: K)
    requires d != []
    ensures Get(d, k) == if d[0].0 == k then Some(d[0].1) else Get(d[1..], k)
  {
  }

  /** `d[k] = v`. */
  function Put<K(==,!new), V>(d: Dict<K, V>, k: K, v: V): (r: Dict<K, V>)
    ensures Get(r, k) == Some(v)
    ensures forall k' :: k' != k ==> Get(r, k') == Get(d, k')
    ensures forall k' :: k' in Keys(r) <==> k' in Keys(d) || k' == k
    ensures k !in Keys(d) ==> r == d + [(k, v)]
    ensures k in Keys(d) ==> |r| == |d|
    ensures |d| <= |r| && Keys(r)[..|d|] == Keys(d)
    ensures Unique(d) ==> Unique(r)
  {
    var i := IndexOf(d, k);
    if i < 0 then
      AppendFacts(d, k, v);
      d + [(k, v)]
    else
      ReplaceFacts(d, k, v, i);
      d[i := (k, v)]
  }

  /** `d[k] = v` leaves the key order alone or appends `k`. */
  lemma PutKeys<K(!new), V>(d: Dict<K, V>, k: K, v: V)
    ensures Keys(Put(d, k, v)) == if k in Keys(d) then Keys(d) else Keys(d) + [k]
  {
    var r := Put(d, k, v);
    if k in Keys(d) {
      assert Keys(r) == Keys(r)[..|d|];
    }
  }

  lemma AppendFacts<K, V>(d: Dict<K, V>, k: K, v: V)
    requires k !in Keys(d)
    ensures var r := d + [(k, v)];
      && Get(r, k) == Some(v)
      && (forall k' :: k' != k ==> Get(r, k') == Get(d, k'))
      && Keys(r) == Keys(d) + [k]
      && (Unique(d) ==> Unique(r))
  {
    var r := d + [(k, v)];
    assert forall j :: 0 <= j < |d| ==> r[j] == d[j];
    assert r[|d|] == (k, v);
    assert IndexOf(r, k) == |d|;
    forall k' | k' != k ensures Get(r, k') == Get(d, k') {
      SameIndexOnPrefix(d, r, k');
    }
  }

  /** Looking up a key other than the appended one ignores the appended entry. */
  lemma SameIndexOnPrefix<K, V>(d: Dict<K, V>, r: Dict<K, V>, k: K)
    requires |d| < |r| && r[..|d|] == d
    requires forall j :: |d| <= j < |r| ==> r[j].0 != k
    ensures IndexOf(r, k) == IndexOf(d, k)
  {
    assert forall j :: 0 <= j < |d| ==> r[j] == d[j];
  }

  lemma ReplaceFacts<K, V>(d: Dict<K, V>, k: K, v: V, i: int)
    requires i == IndexOf(d, k) && i >= 0
    ensures var r := d[i := (k, v)];
      && Get(r, k) == Some(v)
      && (forall k' :: k' != k ==> Get(r, k') == Get(d, k'))
      && Keys(r) == Keys(d)
      && (Unique(d) ==> Unique(r))
  {
    var r := d[i := (k, v)];
    assert Keys(r) == Keys(d);
    forall k' ensures IndexOf(r, k') == IndexOf(d, k') {
      SameKeysSameIndex(d, r, k');
    }
  }

  /** Where a key is found depends only on the key sequence. */
  lemma SameKeysSameIndex<K, V>(a: Dict<K, V>, b: Dict<K, V>, k: K)
    requires Keys(a) == Keys(b)
    ensures IndexOf(a, k) == IndexOf(b, k)
  {
    assert |a| == |Keys(a)| == |b|;
  }

  /** `seen` followed by the elements of `ks` it lacks, each once, in the
      order they first occur in `ks`: the key order of a dict into which
      the keys `ks` are assigned one by one. */
  function AppendNew<K(==,!new)>(seen: seq<K>, ks: seq<K>): (r: seq<K>)
    ensures |seen| <= |r| && r[..|seen|] == seen
    ensures forall x :: x in r <==> x in seen || x in ks
    decreases |ks|
  {
    if ks == [] then seen
    else
      var next := if ks[0] in seen then seen else seen + [ks[0]];
      var r := AppendNew(next, ks[1..]);
      assert r[..|seen|] == r[..|next|][..|seen|];
      assert forall x :: x in ks <==> x == ks[0] || x in ks[1..];
      r
  }

  /** Appending new keys from two runs one after the other is the same as
      from their concatenation. */
  lemma {:induction false} AppendNewConcat<K(!new)>(seen: seq<K>, a: seq<K>, b: seq<K>)
    ensures AppendNew(AppendNew(seen, a), b) == AppendNew(seen, a + b)
    decreases |a|
  {
    if a == [] {
      assert a + b == b;
    } else {
      assert (a + b)[0] == a[0];
      assert (a + b)[1..] == a[1..] + b;
      AppendNewConcat(if a[0] in seen then seen else seen + [a[0]], a[1..], b);
    }
  }

  /** `d[k] = v` for every `(k, v)` of `entries`, in order. */
  function PutAll<K(==,!new), V>(d: Dict<K, V>, entries: Dict<K, V>): Dict<K, V>
    decreases |entries|
  {
    if entries == [] then d else PutAll(Put(d, entries[0].0, entries[0].1), entries[1..])
  }

  /** Copying a dict key by key into an empty one gives back the same dict. */
  lemma {:induction false} PutAllCopies<K(!new), V>(d: Dict<K, V>, entries: Dict<K, V>)
    requires Unique(d + entries)
    ensures PutAll(d, entries) == d + entries
    decreases |entries|
  {
    if entries != [] {
      var k := entries[0].0;
      assert (d + entries)[|d|] == entries[0];
      assert k !in Keys(d) by {
        forall i | 0 <= i < |d| ensures Keys(d)[i] != k {
          assert (d + entries)[i] == d[i];
        }
      }
      assert d + entries == (d + [entries[0]]) + entries[1..];
      PutAllCopies(d + [entries[0]], entries[1..]);
    }
  }
}
