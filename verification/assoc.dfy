/** Python dicts as the source uses them: insertion-ordered association lists
    whose keys are distinct. */
module Assoc {
  import opened Wrappers

  /** No key occurs twice, as in any Python dict. */
  predicate DistinctKeys<K(==), V>(d: seq<(K, V)>)
  {
    forall i, j | 0 <= i < j < |d| :: d[i].0 != d[j].0
  }

  /** The keys of a dict, in insertion order. */
  function Keys<K, V>(d: seq<(K, V)>): (r: seq<K>)
    ensures |r| == |d| && forall i | 0 <= i < |d| :: r[i] == d[i].0
  {
    if |d| == 0 then [] else [d[0].0] + Keys(d[1..])
  }

  /** The values of a dict, in insertion order. */
  function Values<K, V>(d: seq<(K, V)>): (r: seq<V>)
    ensures |r| == |d| && forall i | 0 <= i < |d| :: r[i] == d[i].1
  {
    if |d| == 0 then [] else [d[0].1] + Values(d[1..])
  }

  /** Pairs the i-th key with the i-th value. */
  function Zip<K, V>(ks: seq<K>, vs: seq<V>): (r: seq<(K, V)>)
    requires |ks| == |vs|
    ensures |r| == |ks| && forall i | 0 <= i < |ks| :: r[i] == (ks[i], vs[i])
  {
    if |ks| == 0 then [] else [(ks[0], vs[0])] + Zip(ks[1..], vs[1..])
  }

  /** Round trip: taking a dict apart into keys and values and zipping them
      back together gives the dict. */
  lemma ZipKeysValues<K, V>(d: seq<(K, V)>)
    ensures Zip(Keys(d), Values(d)) == d
  {
  }

  /** Lookup: the value stored under `k`, if any. */
  function Get<K(==), V>(d: seq<(K, V)>, k: K): (r: Option<V>)
    ensures r.None? <==> forall i | 0 <= i < |d| :: d[i].0 != k
    ensures r.Some? ==> exists i | 0 <= i < |d| :: d[i] == (k, r.value)
  {
    if |d| == 0 then None
    else if d[0].0 == k then Some(d[0].1)
    else Get(d[1..], k)
  }

  /** In a dict, looking up the i-th key finds the i-th value. */
  lemma {:induction false} GetAt<K, V>(d: seq<(K, V)>, i: nat)
    requires DistinctKeys(d) && i < |d|
    ensures Get(d, d[i].0) == Some(d[i].1)
  {
    if i > 0 {
      assert d[0].0 != d[i].0;
      assert d[1..][i - 1] == d[i];
      GetAt(d[1..], i - 1);
    }
  }

  /** Looking up in a dict extended by one entry at the end. */
  lemma {:induction false} GetAppend<K, V>(d: seq<(K, V)>, k: K, v: V, x: K)
    ensures Get(d + [(k, v)], x) == if Get(d, x).Some? then Get(d, x) else if x == k then Some(v) else None
  {
    if |d| > 0 {
      assert (d + [(k, v)])[1..] == d[1..] + [(k, v)];
      GetAppend(d[1..], k, v, x);
    } else {
      assert d + [(k, v)] == [(k, v)];
    }
  }
}
