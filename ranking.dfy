/** Sums of real vectors and `numpy.argsort`: the index order behind the
    probability ranking of the priority-admission classifier. */
module Ranking {

  function Sum(s: seq<real>): real {
    if s == [] then 0.0 else Sum(s[..|s| - 1]) + s[|s| - 1]
  }

  lemma {:induction false} SumConcat(a: seq<real>, b: seq<real>)
    ensures Sum(a + b) == Sum(a) + Sum(b)
    decreases |b|
  {
    if b != [] {
      assert (a + b)[..|a + b| - 1] == a + b[..|b| - 1];
      SumConcat(a, b[..|b| - 1]);
    } else {
      assert a + b == a;
    }
  }

  /** The indices 0, 1, ..., n - 1. */
  function Range(n: nat): (r: seq<nat>)
    ensures |r| == n
    ensures forall k :: 0 <= k < n ==> r[k] == k
  {
    if n == 0 then [] else Range(n - 1) + [n - 1]
  }

  predicate InBounds(o: seq<nat>, n: nat) {
    forall k :: 0 <= k < |o| ==> o[k] < n
  }

  /** `o` lists every index of a length-`n` vector exactly once. */
  predicate IsIndexPerm(o: seq<nat>, n: nat) {
    multiset(o) == multiset(Range(n))
  }

  /** `p[o]` with an index vector `o` (numpy fancy indexing). */
  function Gather(p: seq<real>, o: seq<nat>): (r: seq<real>)
    requires InBounds(o, |p|)
    ensures |r| == |o|
    ensures forall k :: 0 <= k < |o| ==> r[k] == p[o[k]]
  {
    seq(|o|, k requires 0 <= k < |o| => p[o[k]])
  }

  predicate Ascending(o: seq<nat>, p: seq<real>)
    requires InBounds(o, |p|)
  {
    forall k, l :: 0 <= k < l < |o| ==> p[o[k]] <= p[o[l]]
  }

  predicate Descending(o: seq<nat>, p: seq<real>)
    requires InBounds(o, |p|)
  {
    forall k, l :: 0 <= k < l < |o| ==> p[o[k]] >= p[o[l]]
  }

  /** Equal values appear in index order. */
  predicate TiesInOrder(o: seq<nat>, p: seq<real>)
    requires InBounds(o, |p|)
  {
    forall k, l :: 0 <= k < l < |o| && p[o[k]] == p[o[l]] ==> o[k] < o[l]
  }

  /** One step of the insertion sort: `i` goes after every index whose value
      is at most `p[i]`, so equal values keep their index order. */
  function InsertIndex(o: seq<nat>, i: nat, p: seq<real>): (r: seq<nat>)
    requires i < |p| && InBounds(o, |p|)
    ensures InBounds(r, |p|) && |r| == |o| + 1
    ensures multiset(r) == multiset(o) + multiset{i}
  {
    if o == [] then [i]
    else if p[i] < p[o[0]] then [i] + o
    else
      assert o == [o[0]] + o[1..];
      [o[0]] + InsertIndex(o[1..], i, p)
  }

  lemma {:induction false} InsertIndexAscending(o: seq<nat>, i: nat, p: seq<real>)
    requires i < |p| && InBounds(o, |p|)
    requires Ascending(o, p)
    ensures Ascending(InsertIndex(o, i, p), p)
  {
    var r := InsertIndex(o, i, p);
    if o == [] {
    } else if p[i] < p[o[0]] {
      InsertFrontAscending(o, i, p);
    } else {
      var t := o[1..];
      var rest := InsertIndex(t, i, p);
      assert forall k, l :: 0 <= k < l < |t| ==> t[k] == o[k + 1] && t[l] == o[l + 1];
      InsertIndexAscending(t, i, p);
      assert r == [o[0]] + rest;
      forall k, l | 0 <= k < l < |r|
        ensures p[r[k]] <= p[r[l]]
      {
        assert r[l] == rest[l - 1];
        if k > 0 {
          assert r[k] == rest[k - 1];
        } else {
          HeadBelowInserted(o, i, p, l - 1);
        }
      }
    }
  }

  /** An index with a smaller value than the first goes in front. */
  lemma InsertFrontAscending(o: seq<nat>, i: nat, p: seq<real>)
    requires i < |p| && InBounds(o, |p|) && o != [] && p[i] < p[o[0]]
    requires Ascending(o, p)
    ensures Ascending([i] + o, p)
  {
    var r := [i] + o;
    forall k, l | 0 <= k < l < |r|
      ensures p[r[k]] <= p[r[l]]
    {
      assert r[l] == o[l - 1];
      if k > 0 {
        assert r[k] == o[k - 1];
      } else if l > 1 {
        assert p[o[0]] <= p[o[l - 1]];
      }
    }
  }

  /** The first index of an ascending order is no larger than anything
      inserting `i` after it can put in the rest. */
  lemma HeadBelowInserted(o: seq<nat>, i: nat, p: seq<real>, k: nat)
    requires i < |p| && InBounds(o, |p|) && o != [] && Ascending(o, p) && p[i] >= p[o[0]]
    requires k < |InsertIndex(o[1..], i, p)|
    ensures p[o[0]] <= p[InsertIndex(o[1..], i, p)[k]]
  {
    var t := o[1..];
    var x := InsertIndex(t, i, p)[k];
    assert x in multiset(t) + multiset{i};
    if x != i {
      assert x in t;
      var j :| 0 <= j < |t| && t[j] == x;
      assert o[j + 1] == x;
    }
  }

  /** An index with a smaller value than every other has no tie. */
  lemma InsertFrontTies(o: seq<nat>, i: nat, p: seq<real>)
    requires i < |p| && InBounds(o, |p|) && o != [] && p[i] < p[o[0]]
    requires Ascending(o, p) && TiesInOrder(o, p)
    ensures TiesInOrder([i] + o, p)
  {
    var r := [i] + o;
    forall k, l | 0 <= k < l < |r|
      ensures p[r[k]] == p[r[l]] ==> r[k] < r[l]
    {
      assert r[l] == o[l - 1];
      if k > 0 {
        assert r[k] == o[k - 1];
      } else {
        assert p[o[0]] <= p[o[l - 1]];
      }
    }
  }

  /** The first index keeps its place before every index tied with it that
      inserting a larger index `i` after it puts in the rest. */
  lemma InsertAfterHeadTies(o: seq<nat>, i: nat, p: seq<real>)
    requires i < |p| && InBounds(o, |p|) && o != [] && TiesInOrder(o, p)
    requires InBounds(o, i)
    requires TiesInOrder(InsertIndex(o[1..], i, p), p)
    ensures TiesInOrder([o[0]] + InsertIndex(o[1..], i, p), p)
  {
    var t := o[1..];
    var rest := InsertIndex(t, i, p);
    var r := [o[0]] + rest;
    forall k, l | 0 <= k < l < |r| && p[r[k]] == p[r[l]]
      ensures r[k] < r[l]
    {
      assert r[l] == rest[l - 1];
      if k > 0 {
        assert r[k] == rest[k - 1];
      } else {
        var x := rest[l - 1];
        assert x in multiset(t) + multiset{i};
        if x != i {
          assert x in t;
          var j :| 0 <= j < |t| && t[j] == x;
          assert o[j + 1] == x;
        }
      }
    }
  }

  /** Inserting an index larger than all others keeps ties in index order. */
  lemma {:induction false} InsertIndexTies(o: seq<nat>, i: nat, p: seq<real>)
    requires i < |p| && InBounds(o, |p|) && Ascending(o, p) && TiesInOrder(o, p)
    requires InBounds(o, i)
    ensures TiesInOrder(InsertIndex(o, i, p), p)
    decreases |o|
  {
    if o == [] {
    } else if p[i] < p[o[0]] {
      InsertFrontTies(o, i, p);
    } else {
      var t := o[1..];
      assert forall k :: 0 <= k < |t| ==> t[k] == o[k + 1];
      InsertIndexTies(t, i, p);
      InsertAfterHeadTies(o, i, p);
    }
  }

  /** An index permutation of 0, ..., n - 1 holds only indices below n. */
  lemma IndexPermBelow(o: seq<nat>, n: nat)
    requires IsIndexPerm(o, n)
    ensures InBounds(o, n)
  {
    forall k | 0 <= k < |o|
      ensures o[k] < n
    {
      assert o[k] in multiset(Range(n));
      assert o[k] in Range(n);
    }
  }

  /** The insertion sort of the indices 0, ..., n - 1 by their values. */
  function ArgsortPrefix(p: seq<real>, n: nat): (o: seq<nat>)
    requires n <= |p|
    ensures InBounds(o, |p|) && |o| == n
  {
    if n == 0 then [] else InsertIndex(ArgsortPrefix(p, n - 1), n - 1, p)
  }

  lemma {:induction false} ArgsortPrefixPerm(p: seq<real>, n: nat)
    requires n <= |p|
    ensures IsIndexPerm(ArgsortPrefix(p, n), n)
  {
    if n > 0 {
      ArgsortPrefixPerm(p, n - 1);
      RangeStep(n);
    }
  }

  lemma {:induction false} ArgsortPrefixAscending(p: seq<real>, n: nat)
    requires n <= |p|
    ensures Ascending(ArgsortPrefix(p, n), p)
  {
    if n > 0 {
      ArgsortPrefixAscending(p, n - 1);
      InsertIndexAscending(ArgsortPrefix(p, n - 1), n - 1, p);
      assert ArgsortPrefix(p, n) == InsertIndex(ArgsortPrefix(p, n - 1), n - 1, p);
    }
  }

  /** One step of the insertion sort keeps ties in index order. */
  lemma ArgsortStepTies(p: seq<real>, n: nat)
    requires 0 < n <= |p|
    requires TiesInOrder(ArgsortPrefix(p, n - 1), p)
    ensures TiesInOrder(InsertIndex(ArgsortPrefix(p, n - 1), n - 1, p), p)
  {
    ArgsortPrefixAscending(p, n - 1);
    ArgsortPrefixBelow(p, n - 1);
    InsertIndexTies(ArgsortPrefix(p, n - 1), n - 1, p);
  }

  /** The insertion sort of 0, ..., n - 1 holds only indices below n. */
  lemma ArgsortPrefixBelow(p: seq<real>, n: nat)
    requires n <= |p|
    ensures InBounds(ArgsortPrefix(p, n), n)
  {
    ArgsortPrefixPerm(p, n);
    IndexPermBelow(ArgsortPrefix(p, n), n);
  }

  lemma {:induction false} ArgsortPrefixTies(p: seq<real>, n: nat)
    requires n <= |p|
    ensures TiesInOrder(ArgsortPrefix(p, n), p)
  {
    if n > 0 {
      ArgsortPrefixTies(p, n - 1);
      ArgsortStepTies(p, n);
    }
  }

  lemma RangeStep(n: nat)
    requires n > 0
    ensures multiset(Range(n)) == multiset(Range(n - 1)) + multiset{(n - 1) as nat}
  {
    assert Range(n) == Range(n - 1) + [n - 1];
  }

  /** `np.argsort(p)`: ascending, ties in index order. */
  function ArgsortAsc(p: seq<real>): (o: seq<nat>)
    ensures InBounds(o, |p|) && |o| == |p| && IsIndexPerm(o, |p|) && Ascending(o, p)
    ensures TiesInOrder(o, p)
  {
    ArgsortPrefixPerm(p, |p|);
    ArgsortPrefixAscending(p, |p|);
    ArgsortPrefixTies(p, |p|);
    ArgsortPrefix(p, |p|)
  }

  function Reverse(o: seq<nat>): (r: seq<nat>)
    ensures |r| == |o|
    ensures forall k :: 0 <= k < |o| ==> r[k] == o[|o| - 1 - k]
    ensures multiset(r) == multiset(o)
  {
    if o == [] then []
    else
      var r := Reverse(o[1..]) + [o[0]];
      assert o == [o[0]] + o[1..];
      r
  }

  lemma ReverseDescending(a: seq<nat>, p: seq<real>)
    requires InBounds(a, |p|) && Ascending(a, p)
    ensures InBounds(Reverse(a), |p|) && Descending(Reverse(a), p)
  {
    var o := Reverse(a);
    forall k, l | 0 <= k < l < |o|
      ensures p[o[k]] >= p[o[l]]
    {
      var k', l' := |a| - 1 - l, |a| - 1 - k;
      assert o[k] == a[l'] && o[l] == a[k'];
      assert k' < l';
    }
  }

  /** `np.argsort(p)[::-1]`: every index once, values non-increasing. */
  function ArgsortDesc(p: seq<real>): (o: seq<nat>)
    ensures InBounds(o, |p|) && |o| == |p| && IsIndexPerm(o, |p|) && Descending(o, p)
  {
    ReverseDescending(ArgsortAsc(p), p);
    Reverse(ArgsortAsc(p))
  }

  function Negate(p: seq<real>): (q: seq<real>)
    ensures |q| == |p|
    ensures forall k :: 0 <= k < |p| ==> q[k] == -p[k]
  {
    seq(|p|, k requires 0 <= k < |p| => -p[k])
  }

  /** An ascending order of the negated values is a descending order of the values. */
  lemma NegateAscending(o: seq<nat>, p: seq<real>)
    requires InBounds(o, |p|) && Ascending(o, Negate(p))
    ensures Descending(o, p)
  {
    forall k, l | 0 <= k < l < |o|
      ensures p[o[k]] >= p[o[l]]
    {
      assert Negate(p)[o[k]] <= Negate(p)[o[l]];
    }
  }

  /** Negating the values does not change which of them are equal. */
  lemma NegateTies(o: seq<nat>, p: seq<real>)
    requires InBounds(o, |p|) && TiesInOrder(o, Negate(p))
    ensures TiesInOrder(o, p)
  {
    forall k, l | 0 <= k < l < |o| && p[o[k]] == p[o[l]]
      ensures o[k] < o[l]
    {
      assert Negate(p)[o[k]] == Negate(p)[o[l]];
    }
  }

  /** The stable insertion sort of the negated values: every index once,
      values non-increasing, equal values in index order. */
  function ArgsortDescStable(p: seq<real>): (o: seq<nat>)
    ensures InBounds(o, |p|) && |o| == |p| && IsIndexPerm(o, |p|) && Descending(o, p)
    ensures TiesInOrder(o, p)
  {
    NegateAscending(ArgsortAsc(Negate(p)), p);
    NegateTies(ArgsortAsc(Negate(p)), p);
    ArgsortAsc(Negate(p))
  }

  /** `s[o]` for a sequence of any element type. */
  function Select<T>(s: seq<T>, o: seq<nat>): (r: seq<T>)
    requires InBounds(o, |s|)
    ensures |r| == |o|
    ensures forall k :: 0 <= k < |o| ==> r[k] == s[o[k]]
  {
    seq(|o|, k requires 0 <= k < |o| => s[o[k]])
  }

  lemma SelectConcat<T>(s: seq<T>, a: seq<nat>, b: seq<nat>)
    requires InBounds(a, |s|) && InBounds(b, |s|)
    ensures InBounds(a + b, |s|)
    ensures Select(s, a + b) == Select(s, a) + Select(s, b)
  {
  }

  /** Selecting by two permutations of the same indices gives the same
      elements, each as often. */
  lemma {:induction false} SelectPerm<T>(s: seq<T>, o1: seq<nat>, o2: seq<nat>)
    requires InBounds(o1, |s|) && InBounds(o2, |s|)
    requires multiset(o1) == multiset(o2)
    ensures multiset(Select(s, o1)) == multiset(Select(s, o2))
    decreases |o1|
  {
    if o1 == [] {
      assert o2 == [];
    } else {
      var n := |o1|;
      var j := PermStep(o1, o2);
      var init1, a, b := o1[..n - 1], o2[..j], o2[j + 1..];
      assert o1 == init1 + [o1[n - 1]];
      assert o2 == a + [o2[j]] + b;
      SelectConcat(s, init1, [o1[n - 1]]);
      SelectConcat(s, a + [o2[j]], b);
      SelectConcat(s, a, [o2[j]]);
      SelectConcat(s, a, b);
      SelectPerm(s, init1, a + b);
    }
  }

  /** Selecting by a permutation of all indices keeps every element exactly as often. */
  lemma SelectPermuted<T>(s: seq<T>, o: seq<nat>)
    requires InBounds(o, |s|) && IsIndexPerm(o, |s|)
    ensures multiset(Select(s, o)) == multiset(s)
  {
    var r := Range(|s|);
    SelectPerm(s, o, r);
    assert Select(s, r) == s;
  }

  /** A permutation of the indices lists every index. */
  lemma IndexPermCovers(o: seq<nat>, n: nat, i: nat) returns (k: nat)
    requires IsIndexPerm(o, n) && i < n
    ensures k < |o| && o[k] == i
  {
    assert Range(n)[i] == i;
    assert i in multiset(Range(n));
    assert i in multiset(o);
    k :| 0 <= k < |o| && o[k] == i;
  }

  /** A permutation of the indices lists no index twice. */
  lemma IndexPermDistinct(o: seq<nat>, n: nat, k: nat, l: nat)
    requires IsIndexPerm(o, n)
    requires k < l < |o|
    ensures o[k] != o[l]
  {
    if o[k] == o[l] {
      var x := o[k];
      assert o == o[..k] + [x] + o[k + 1..l] + [x] + o[l + 1..];
      assert multiset(o)[x] >= 2;
      RangeCount(n, x);
      assert false;
    }
  }

  /** Each index below `n` occurs once in `Range(n)`, and no other value does. */
  lemma {:induction false} RangeCount(n: nat, x: nat)
    ensures multiset(Range(n))[x] == if x < n then 1 else 0
  {
    if n > 0 {
      RangeCount(n - 1, x);
      RangeStep(n);
      CountStep(multiset(Range(n)), multiset(Range(n - 1)), n, x);
    }
  }

  lemma CountStep(m: multiset<nat>, init: multiset<nat>, n: nat, x: nat)
    requires n > 0 && m == init + multiset{(n - 1) as nat}
    requires init[x] == if x < n - 1 then 1 else 0
    ensures m[x] == if x < n then 1 else 0
  {
  }

  lemma GatherConcat(p: seq<real>, a: seq<nat>, b: seq<nat>)
    requires InBounds(a, |p|) && InBounds(b, |p|)
    ensures InBounds(a + b, |p|)
    ensures Gather(p, a + b) == Gather(p, a) + Gather(p, b)
  {
  }

  /** Taking index `j` out of `o` takes `p[o[j]]` out of the sum. */
  lemma SumRemove(p: seq<real>, o: seq<nat>, j: nat)
    requires InBounds(o, |p|) && j < |o|
    ensures InBounds(o[..j] + o[j + 1..], |p|)
    ensures Sum(Gather(p, o)) == p[o[j]] + Sum(Gather(p, o[..j] + o[j + 1..]))
  {
    var a, b := o[..j], o[j + 1..];
    assert o == a + [o[j]] + b;
    GatherConcat(p, a + [o[j]], b);
    GatherConcat(p, a, [o[j]]);
    GatherConcat(p, a, b);
    SumConcat(Gather(p, a) + Gather(p, [o[j]]), Gather(p, b));
    SumConcat(Gather(p, a), Gather(p, [o[j]]));
    SumConcat(Gather(p, a), Gather(p, b));
  }

  /** Where the last index of `o1` sits in its permutation `o2`, and what is
      left of both without it. */
  lemma PermStep(o1: seq<nat>, o2: seq<nat>) returns (j: nat)
    requires o1 != [] && multiset(o1) == multiset(o2)
    ensures j < |o2| && o2[j] == o1[|o1| - 1]
    ensures multiset(o1[..|o1| - 1]) == multiset(o2[..j] + o2[j + 1..])
  {
    var n := |o1|;
    var x := o1[n - 1];
    assert x in multiset(o2);
    assert x in o2;
    j :| 0 <= j < |o2| && o2[j] == x;
    MultisetRemove(o1, n - 1);
    MultisetRemove(o2, j);
    assert o1[..n - 1] + o1[n..] == o1[..n - 1];
  }

  /** Reordering a vector by a permutation keeps its sum. */
  lemma {:induction false} SumGatherPerm(p: seq<real>, o1: seq<nat>, o2: seq<nat>)
    requires InBounds(o1, |p|) && InBounds(o2, |p|)
    requires multiset(o1) == multiset(o2)
    ensures Sum(Gather(p, o1)) == Sum(Gather(p, o2))
    decreases |o1|
  {
    if o1 == [] {
      assert o2 == [];
    } else {
      var n := |o1|;
      var j := PermStep(o1, o2);
      var init1, rest2 := o1[..n - 1], o2[..j] + o2[j + 1..];
      SumRemove(p, o1, n - 1);
      assert o1[..n - 1] + o1[n..] == init1;
      assert Sum(Gather(p, o1)) == p[o1[n - 1]] + Sum(Gather(p, init1));
      SumRemove(p, o2, j);
      assert Sum(Gather(p, o2)) == p[o1[n - 1]] + Sum(Gather(p, rest2));
      SumGatherPerm(p, init1, rest2);
    }
  }

  lemma MultisetRemove(o: seq<nat>, j: nat)
    requires j < |o|
    ensures multiset(o[..j] + o[j + 1..]) == multiset(o) - multiset{o[j]}
  {
    assert o == o[..j] + [o[j]] + o[j + 1..];
  }

  /** `p[order]` has the sum of `p` when `order` is a permutation of its indices. */
  lemma SumPermuted(p: seq<real>, o: seq<nat>)
    requires InBounds(o, |p|) && IsIndexPerm(o, |p|)
    ensures Sum(Gather(p, o)) == Sum(p)
  {
    var r := Range(|p|);
    assert InBounds(r, |p|);
    SumGatherPerm(p, o, r);
    assert Gather(p, r) == p;
  }

  /** `v / s` elementwise. */
  function Scale(v: seq<real>, s: real): (r: seq<real>)
    requires s != 0.0
    ensures |r| == |v|
    ensures forall k :: 0 <= k < |v| ==> r[k] == v[k] / s
  {
    seq(|v|, k requires 0 <= k < |v| => v[k] / s)
  }

  lemma {:induction false} SumScale(v: seq<real>, s: real)
    requires s != 0.0
    ensures Sum(Scale(v, s)) == Sum(v) / s
  {
    if v != [] {
      var n := |v|;
      assert Scale(v, s)[..n - 1] == Scale(v[..n - 1], s);
      SumScale(v[..n - 1], s);
    }
  }
}
