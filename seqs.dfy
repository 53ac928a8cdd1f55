/** Filtering a sequence and keeping its order: what a pandas boolean mask,
    a polars `filter` and a list comprehension with a condition do. */
module Seqs {
  import opened Wrappers

  /** The elements satisfying `p`, in their original order. */
  function Filter<T>(s: seq<T>, p: T -> bool): (r: seq<T>)
    ensures |r| <= |s|
  {
    if s == [] then [] else (if p(s[0]) then [s[0]] else []) + Filter(s[1..], p)
  }

  /** `a` is `b` with some elements left out, the others in the same order. */
  predicate IsSubsequence<T(==)>(a: seq<T>, b: seq<T>)
    decreases |b|
  {
    if a == [] then true
    else if b == [] then false
    else (a[0] == b[0] && IsSubsequence(a[1..], b[1..])) || IsSubsequence(a, b[1..])
  }

  lemma FilterCons<T>(x: T, s: seq<T>, p: T -> bool)
    ensures Filter([x] + s, p) == (if p(x) then [x] else []) + Filter(s, p)
  {
    assert ([x] + s)[1..] == s;
  }

  lemma {:induction false} FilterMembers<T>(s: seq<T>, p: T -> bool, x: T)
    ensures x in Filter(s, p) <==> x in s && p(x)
  {
    if s != [] {
      FilterMembers(s[1..], p, x);
      assert s == [s[0]] + s[1..];
    }
  }

  lemma {:induction false} FilterIsSubsequence<T>(s: seq<T>, p: T -> bool)
    ensures IsSubsequence(Filter(s, p), s)
  {
    if s != [] {
      FilterIsSubsequence(s[1..], p);
      var rest := Filter(s[1..], p);
      var a := Filter(s, p);
      if p(s[0]) {
        assert a == [s[0]] + rest;
        assert a[0] == s[0] && a[1..] == rest;
      } else {
        assert a == rest;
      }
    }
  }

  /** Filtering with a condition every element meets keeps everything. */
  lemma {:induction false} FilterAll<T>(s: seq<T>, p: T -> bool)
    requires forall k :: 0 <= k < |s| ==> p(s[k])
    ensures Filter(s, p) == s
  {
    if s != [] {
      FilterAll(s[1..], p);
    }
  }

  /** Filtering again with the same condition removes nothing more. */
  lemma FilterIdempotent<T>(s: seq<T>, p: T -> bool)
    ensures Filter(Filter(s, p), p) == Filter(s, p)
  {
    var r := Filter(s, p);
    forall k | 0 <= k < |r|
      ensures p(r[k])
    {
      FilterMembers(s, p, r[k]);
    }
    FilterAll(r, p);
  }

  /** Two filters in a row are one filter on both conditions. */
  lemma {:induction false} FilterFilter<T>(s: seq<T>, p: T -> bool, q: T -> bool, pq: T -> bool)
    requires forall x :: pq(x) == (p(x) && q(x))
    ensures Filter(Filter(s, p), q) == Filter(s, pq)
  {
    if s != [] {
      FilterFilter(s[1..], p, q, pq);
      assert pq(s[0]) == (p(s[0]) && q(s[0]));
      if p(s[0]) {
        assert Filter(s, p) == [s[0]] + Filter(s[1..], p);
        FilterCons(s[0], Filter(s[1..], p), q);
      } else {
        assert Filter(s, p) == Filter(s[1..], p);
      }
    }
  }

  /** Filters with the same condition, written twice, agree. */
  lemma {:induction false} FilterExt<T>(s: seq<T>, p: T -> bool, q: T -> bool)
    requires forall x :: p(x) == q(x)
    ensures Filter(s, p) == Filter(s, q)
  {
    if s != [] {
      FilterExt(s[1..], p, q);
      assert p(s[0]) == q(s[0]);
    }
  }

  /** A relation that holds between every earlier and later element still
      holds after filtering. */
  lemma FilterPairwise<T>(s: seq<T>, p: T -> bool, rel: (T, T) -> bool)
    requires forall k, l :: 0 <= k < l < |s| ==> rel(s[k], s[l])
    ensures var f := Filter(s, p); forall k, l :: 0 <= k < l < |f| ==> rel(f[k], f[l])
  {
    FilterIsSubsequence(s, p);
    SubsequencePairwise(Filter(s, p), s, rel);
  }

  lemma {:induction false} SubsequenceRefl<T>(s: seq<T>)
    ensures IsSubsequence(s, s)
    decreases |s|
  {
    if s != [] {
      SubsequenceRefl(s[1..]);
    }
  }

  lemma {:induction false} SubsequenceMembers<T>(a: seq<T>, b: seq<T>, x: T)
    requires IsSubsequence(a, b) && x in a
    ensures x in b
    decreases |b|
  {
    if a[0] == b[0] && IsSubsequence(a[1..], b[1..]) {
      if x != a[0] {
        assert x in a[1..];
        SubsequenceMembers(a[1..], b[1..], x);
      }
    } else {
      SubsequenceMembers(a, b[1..], x);
    }
  }

  /** A relation between every earlier and later element of `b` holds in
      every subsequence of `b`. */
  lemma {:induction false} SubsequencePairwise<T>(a: seq<T>, b: seq<T>, rel: (T, T) -> bool)
    requires IsSubsequence(a, b)
    requires forall k, l :: 0 <= k < l < |b| ==> rel(b[k], b[l])
    ensures forall k, l :: 0 <= k < l < |a| ==> rel(a[k], a[l])
    decreases |b|
  {
    if a != [] {
      var b' := b[1..];
      assert forall k, l :: 0 <= k < l < |b'| ==> rel(b'[k], b'[l]) by {
        forall k, l | 0 <= k < l < |b'|
          ensures rel(b'[k], b'[l])
        {
          assert b'[k] == b[k + 1] && b'[l] == b[l + 1];
        }
      }
      if a[0] == b[0] && IsSubsequence(a[1..], b') {
        SubsequencePairwise(a[1..], b', rel);
        forall k, l | 0 <= k < l < |a|
          ensures rel(a[k], a[l])
        {
          assert a[l] == a[1..][l - 1];
          if k == 0 {
            SubsequenceMembers(a[1..], b', a[l]);
            var m :| 0 <= m < |b'| && b'[m] == a[l];
            assert b[m + 1] == a[l];
          } else {
            assert a[k] == a[1..][k - 1];
          }
        }
      } else {
        SubsequencePairwise(a, b', rel);
      }
    }
  }

  /** Filtering a list grown by one element: what a loop appending the
      elements that pass computes. */
  lemma {:induction false} FilterSnoc<T>(s: seq<T>, x: T, p: T -> bool)
    ensures Filter(s + [x], p) == Filter(s, p) + (if p(x) then [x] else [])
  {
    if s == [] {
      assert [x][1..] == [];
    } else {
      var t := s + [x];
      assert t[0] == s[0] && t[1..] == s[1..] + [x];
      assert Filter(t, p) == (if p(s[0]) then [s[0]] else []) + Filter(s[1..] + [x], p);
      FilterSnoc(s[1..], x, p);
      assert Filter(s, p) == (if p(s[0]) then [s[0]] else []) + Filter(s[1..], p);
    }
  }

  /** How often `x` occurs after filtering. */
  lemma {:induction false} FilterCount<T>(s: seq<T>, p: T -> bool, x: T)
    ensures multiset(Filter(s, p))[x] == if p(x) then multiset(s)[x] else 0
  {
    if s != [] {
      FilterCount(s[1..], p, x);
      assert s == [s[0]] + s[1..];
    }
  }

  /** The sequences of `ss` joined in order: what `pd.concat` of a list of
      frames gives. */
  function Concat<T>(ss: seq<seq<T>>): seq<T> {
    if ss == [] then [] else Concat(ss[..|ss| - 1]) + ss[|ss| - 1]
  }

  lemma ConcatSnoc<T>(ss: seq<seq<T>>, x: seq<T>)
    ensures Concat(ss + [x]) == Concat(ss) + x
  {
    assert (ss + [x])[..|ss|] == ss;
  }

  lemma ConcatFive<T>(a: seq<T>, b: seq<T>, c: seq<T>, d: seq<T>, e: seq<T>)
    ensures Concat([a, b, c, d, e]) == a + b + c + d + e
  {
    assert Concat([a]) == a by {
      ConcatSnoc([], a);
      assert [] + [a] == [a];
    }
    assert Concat([a, b]) == a + b by {
      ConcatSnoc([a], b);
      assert [a] + [b] == [a, b];
    }
    assert Concat([a, b, c]) == a + b + c by {
      ConcatSnoc([a, b], c);
      assert [a, b] + [c] == [a, b, c];
    }
    assert Concat([a, b, c, d]) == a + b + c + d by {
      ConcatSnoc([a, b, c], d);
      assert [a, b, c] + [d] == [a, b, c, d];
    }
    ConcatSnoc([a, b, c, d], e);
    assert [a, b, c, d] + [e] == [a, b, c, d, e];
  }

  /** `f` applied to the first `n` elements with their positions, in order,
      stopping at the first failure: what a loop that appends each result or
      raises computes. */
  function TraverseIndexed<T, U, E>(s: seq<T>, n: nat, f: (T, int) -> Result<U, E>): (r: Result<seq<U>, E>)
    requires n <= |s|
    ensures r.Success? ==> |r.value| == n && forall i :: 0 <= i < n ==> f(s[i], i) == Success(r.value[i])
  {
    if n == 0 then Success([])
    else
      var front :- TraverseIndexed(s, n - 1, f);
      var last :- f(s[n - 1], n - 1);
      Success(front + [last])
  }

  lemma TraverseStep<T, U, E>(s: seq<T>, i: nat, f: (T, int) -> Result<U, E>, results: seq<U>)
    requires i < |s| && TraverseIndexed(s, i, f) == Success(results)
    ensures var r := f(s[i], i);
      TraverseIndexed(s, i + 1, f) == if r.Failure? then Failure(r.error) else Success(results + [r.value])
  {
  }

  /** The traversal succeeds exactly when `f` succeeds on every element it visits. */
  lemma {:induction false} TraverseSuccess<T, U, E>(s: seq<T>, n: nat, f: (T, int) -> Result<U, E>)
    requires n <= |s|
    ensures TraverseIndexed(s, n, f).Success? <==> forall i :: 0 <= i < n ==> f(s[i], i).Success?
  {
    if n > 0 {
      TraverseSuccess(s, n - 1, f);
    }
  }

  /** Once the traversal fails, every longer one fails with the same error. */
  lemma {:induction false} TraverseFailureStays<T, U, E>(s: seq<T>, m: nat, n: nat, f: (T, int) -> Result<U, E>)
    requires m <= n <= |s|
    requires TraverseIndexed(s, m, f).Failure?
    ensures TraverseIndexed(s, n, f) == TraverseIndexed(s, m, f)
    decreases n - m
  {
    if m < n {
      TraverseFailureStays(s, m, n - 1, f);
      assert TraverseIndexed(s, n - 1, f).Failure?;
    }
  }

  /** A loop applying `f` to each element with its position and appending
      the result, which returns the first failure as soon as it occurs. */
  method TraverseLoop<T, U, E>(s: seq<T>, f: (T, int) -> Result<U, E>) returns (r: Result<seq<U>, E>)
    ensures r == TraverseIndexed(s, |s|, f)
  {
    var results: seq<U> := [];
    var i := 0;
    while i < |s|
      invariant 0 <= i <= |s|
      invariant TraverseIndexed(s, i, f) == Success(results)
    {
      var x := f(s[i], i);
      TraverseStep(s, i, f, results);
      if x.Failure? {
        TraverseFailureStays(s, i + 1, |s|, f);
        return Failure(x.error);
      }
      results := results + [x.value];
      i := i + 1;
    }
    r := Success(results);
  }

  /** The values `f` gives, in order, for the elements where it gives one:
      what a loop appending a result for some elements builds. */
  function Collect<T, U>(s: seq<T>, f: T -> Option<U>): (r: seq<U>)
    ensures |r| <= |s|
  {
    if s == [] then []
    else
      var last := f(s[|s| - 1]);
      Collect(s[..|s| - 1], f) + (if last.Some? then [last.value] else [])
  }

  lemma {:induction false} CollectMembers<T, U>(s: seq<T>, f: T -> Option<U>, y: U)
    ensures y in Collect(s, f) <==> exists k :: 0 <= k < |s| && f(s[k]) == Some(y)
  {
    if s != [] {
      var init := s[..|s| - 1];
      CollectMembers(init, f, y);
      if y in Collect(init, f) {
        var k :| 0 <= k < |init| && f(init[k]) == Some(y);
        assert s[k] == init[k];
      }
      if exists k :: 0 <= k < |s| && f(s[k]) == Some(y) {
        var k :| 0 <= k < |s| && f(s[k]) == Some(y);
        if k < |init| {
          assert init[k] == s[k];
        }
      }
    }
  }
}
