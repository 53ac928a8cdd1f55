/** A Python `dict` kept as its items in insertion order: assigning to an
    existing key replaces its value in place, a new key goes at the end. */
module Dicts {
  import opened Wrappers

  function Keys<K, V>(d: seq<(K, V)>): (ks: seq<K>)
    ensures |ks| == |d|
    ensures forall i :: 0 <= i < |d| ==> ks[i] == d[i].0
  {
    if d == [] then [] else [d[0].0] + Keys(d[1..])
  }

  function ValuesOf<K, V>(d: seq<(K, V)>): (vs: seq<V>)
    ensures |vs| == |d|
    ensures forall i :: 0 <= i < |d| ==> vs[i] == d[i].1
  {
    if d == [] then [] else [d[0].1] + ValuesOf(d[1..])
  }

  predicate Distinct<T(==)>(s: seq<T>) {
    forall i, j :: 0 <= i < j < |s| ==> s[i] != s[j]
  }

  /** No key occurs twice. */
  predicate DistinctKeys<K(==), V>(d: seq<(K, V)>) {
    forall i, j :: 0 <= i < j < |d| ==> d[i].0 != d[j].0
  }

  /** `d[k]`, or `None` when `k` is not a key. */
  function Lookup<K(==,!new), V>(d: seq<(K, V)>, k: K): (r: Option<V>)
    ensures r.Some? <==> k in Keys(d)
  {
    if d == [] then None else if d[0].0 == k then Some(d[0].1) else Lookup(d[1..], k)
  }

  /** `d[k] = v`. */
  function Insert<K(==,!new), V>(d: seq<(K, V)>, k: K, v: V): (r: seq<(K, V)>)
    ensures k !in Keys(d) ==> r == d + [(k, v)]
    ensures k in Keys(d) ==> Keys(r) == Keys(d)
    ensures forall e :: e in r ==> e in d || e == (k, v)
  {
    if d == [] then [(k, v)]
    else if d[0].0 == k then [(k, v)] + d[1..]
    else
      var rest := Insert(d[1..], k, v);
      assert Keys(d) == [d[0].0] + Keys(d[1..]);
      assert Keys([d[0]] + rest) == [d[0].0] + Keys(rest);
      [d[0]] + rest
  }

  /** After `d[k] = v`, `d[k]` is `v` and every other key keeps its value. */
  lemma {:induction false} InsertLookup<K(!new), V>(d: seq<(K, V)>, k: K, v: V, k': K)
    ensures Lookup(Insert(d, k, v), k') == if k' == k then Some(v) else Lookup(d, k')
  {
    if d != [] && d[0].0 != k {
      InsertLookup(d[1..], k, v, k');
    }
  }

  lemma InsertDistinct<K(!new), V>(d: seq<(K, V)>, k: K, v: V)
    requires DistinctKeys(d)
    ensures DistinctKeys(Insert(d, k, v))
  {
    var r := Insert(d, k, v);
    if k in Keys(d) {
      assert forall i :: 0 <= i < |r| ==> r[i].0 == Keys(r)[i] == Keys(d)[i] == d[i].0;
    } else {
      forall i | 0 <= i < |d|
        ensures d[i].0 != k
      {
        assert Keys(d)[i] == d[i].0;
      }
    }
  }

  /** `{k: v for k, v in pairs}`: the pairs inserted left to right. */
  function FromPairs<K(==,!new), V>(ps: seq<(K, V)>): (d: seq<(K, V)>)
    ensures DistinctKeys(d)
    ensures forall e :: e in d ==> e in ps
  {
    if ps == [] then []
    else
      var d := FromPairs(ps[..|ps| - 1]);
      InsertDistinct(d, ps[|ps| - 1].0, ps[|ps| - 1].1);
      Insert(d, ps[|ps| - 1].0, ps[|ps| - 1].1)
  }

  /** The value of the last pair with key `k`, searching from the end. */
  function LastValue<K(==), V>(ps: seq<(K, V)>, k: K): Option<V> {
    if ps == [] then None
    else if ps[|ps| - 1].0 == k then Some(ps[|ps| - 1].1)
    else LastValue(ps[..|ps| - 1], k)
  }

  /** Each key of the comprehension maps to the value of the last pair with
      that key, and a key no pair has is absent. */
  lemma {:induction false} FromPairsLookup<K(!new), V>(ps: seq<(K, V)>, k: K)
    ensures Lookup(FromPairs(ps), k) == LastValue(ps, k)
  {
    if ps != [] {
      var n := |ps|;
      FromPairsLookup(ps[..n - 1], k);
      InsertLookup(FromPairs(ps[..n - 1]), ps[n - 1].0, ps[n - 1].1, k);
    }
  }

  lemma DistinctInit<K, V>(ps: seq<(K, V)>)
    requires ps != [] && DistinctKeys(ps)
    ensures DistinctKeys(ps[..|ps| - 1])
    ensures ps[|ps| - 1].0 !in Keys(ps[..|ps| - 1])
  {
  }

  /** With distinct keys the comprehension keeps every pair, in order. */
  lemma {:induction false} FromPairsDistinct<K(!new), V>(ps: seq<(K, V)>)
    requires DistinctKeys(ps)
    ensures FromPairs(ps) == ps
  {
    if ps != [] {
      var n := |ps|;
      DistinctInit(ps);
      FromPairsDistinct(ps[..n - 1]);
      assert ps[..n - 1] + [ps[n - 1]] == ps;
    }
  }

  lemma {:induction false} FromPairsLength<K(!new), V>(ps: seq<(K, V)>)
    ensures |FromPairs(ps)| <= |ps|
  {
    if ps != [] {
      FromPairsLength(ps[..|ps| - 1]);
    }
  }
}
