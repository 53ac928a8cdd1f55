/** The batch endpoints of src/api/routers/l1.py and src/api/routers/l2.py,
    which share one shape: a ceiling on the number of items, an optional
    concurrency override, one worker per item that answers `[]` at once
    for an invalid province and otherwise runs the predictor, and the
    results put back in item order by their index tags.

    The workers run one after another here, in a completion order given as
    a parameter (any permutation of the item indices); the semaphore and
    the thread pool only bound how many run at a time and are not
    modelled. */
module Batch {
  import opened Wrappers
  import opened Seqs
  import opened Ranking

  datatype BatchError<E> =
      /** 422: the `concurrency` query parameter is below 1 (line 25 of either file). */
    | InvalidConcurrency
      /** 413 (lines 28-29 of either file). */
    | TooManyItems(max: nat)
      /** A predictor failure propagated by `gather`. */
    | WorkerFailed(e: E)

  /** Lines 25 and 31 of either file: `concurrency or MAX_BATCH_CONCURRENCY`, after the
      `ge=1` check of the query parameter. */
  function Limit(concurrency: Option<int>, maxConcurrency: int): (r: Result<int, BatchError<bool>>)
    ensures r.Failure? <==> concurrency.Some? && concurrency.value < 1
    ensures r.Success? && concurrency.Some? ==> r.value == concurrency.value
    ensures r.Success? && concurrency.None? ==> r.value == maxConcurrency
    ensures r.Success? && maxConcurrency >= 1 ==> r.value >= 1
  {
    if concurrency.Some? && concurrency.value < 1 then Failure(InvalidConcurrency)
    else Success(if concurrency.Some? && concurrency.value != 0 then concurrency.value else maxConcurrency)
  }

  /** `worker(i, items[i])` (l1.py lines 34-39, l2.py lines 34-40). */
  function Worker<U, R, E>(items: seq<U>, valid: U -> bool, predict: U -> Result<R, E>, empty: R, i: nat): Result<R, E>
    requires i < |items|
  {
    if !valid(items[i]) then Success(empty) else predict(items[i])
  }

  /** The indices whose worker calls the predictor, in completion order. */
  function Calls<U>(items: seq<U>, valid: U -> bool, order: seq<nat>): seq<nat> {
    Filter(order, (i: nat) => i < |items| && valid(items[i]))
  }

  /** The worker of `order[k]` is the first, in completion order, to fail,
      with error `e`. */
  predicate FailsFirst<U, R, E(==)>(items: seq<U>, valid: U -> bool, predict: U -> Result<R, E>, empty: R,
                                order: seq<nat>, k: nat, e: E)
  {
    k < |order| && (forall j :: 0 <= j <= k ==> order[j] < |items|)
    && Worker(items, valid, predict, empty, order[k]).Failure? && Worker(items, valid, predict, empty, order[k]).error == e
    && forall j :: 0 <= j < k ==> Worker(items, valid, predict, empty, order[j]).Success?
  }

  function Tags<R>(done: seq<(nat, R)>): (t: seq<nat>)
    ensures |t| == |done|
    ensures forall j :: 0 <= j < |done| ==> t[j] == done[j].0
  {
    seq(|done|, j requires 0 <= j < |done| => done[j].0)
  }

  /** `gather` (l1.py line 41, l2.py lines 42-43): the workers run in completion order `order`;
      `done` is what each returns, its index tag and its result. */
  method RunWorkers<U, R, E>(items: seq<U>, valid: U -> bool, predict: U -> Result<R, E>, empty: R, order: seq<nat>)
    returns (done: seq<(nat, Result<R, E>)>, calls: seq<nat>)
    requires forall k :: 0 <= k < |order| ==> order[k] < |items|
    ensures |done| == |order|
    ensures forall j :: 0 <= j < |order| ==> done[j] == (order[j], Worker(items, valid, predict, empty, order[j]))
    ensures calls == Calls(items, valid, order)
  {
    done := [];
    calls := [];
    for k := 0 to |order|
      invariant |done| == k
      invariant forall j :: 0 <= j < k ==> done[j] == (order[j], Worker(items, valid, predict, empty, order[j]))
      invariant calls == Calls(items, valid, order[..k])
    {
      var i := order[k];
      var r: Result<R, E>;
      if !valid(items[i]) {
        r := Success(empty);
      } else {
        r := predict(items[i]);
        calls := calls + [i];
      }
      FilterSnoc(order[..k], i, (i: nat) => i < |items| && valid(items[i]));
      assert order[..k + 1] == order[..k] + [i];
      done := done + [(i, r)];
    }
    assert order[..|order|] == order;
  }

  /** l1.py lines 42-43 and l2.py lines 44-45, `sort(key=lambda t: t[0])`, then the comprehension:
      each result lands at the position its tag names. */
  method RestoreOrder<R>(done: seq<(nat, R)>, n: nat, default: R) returns (out: seq<R>)
    requires IsIndexPerm(Tags(done), n)
    ensures |out| == n
    ensures forall j :: 0 <= j < |done| ==> done[j].0 < n && out[done[j].0] == done[j].1
  {
    var tags := Tags(done);
    OrderCovers(tags, n);
    var a := new R[n](_ => default);
    for k := 0 to |done|
      invariant forall j :: 0 <= j < k ==> a[done[j].0] == done[j].1
    {
      forall j | 0 <= j < k
        ensures done[j].0 != done[k].0
      {
        IndexPermDistinct(tags, n, j, k);
      }
      a[done[k].0] := done[k].1;
    }
    out := a[..];
  }

  /** The batch endpoint. `res` is the response (the list of per-item
      results or the error), `calls` the items the predictor ran on. */
  method RunBatch<U, R, E(==)>(items: seq<U>, valid: U -> bool, predict: U -> Result<R, E>, empty: R,
                           maxItems: nat, concurrency: Option<int>, maxConcurrency: int, order: seq<nat>)
    returns (res: Result<seq<R>, BatchError<E>>, calls: seq<nat>)
    requires IsIndexPerm(order, |items|)
    ensures concurrency.Some? && concurrency.value < 1 ==> res == Failure(InvalidConcurrency) && calls == []
    ensures Limit(concurrency, maxConcurrency).Success? && |items| > maxItems
      ==> res == Failure(TooManyItems(maxItems)) && calls == []
    ensures Limit(concurrency, maxConcurrency).Success? && |items| <= maxItems
      ==> calls == Calls(items, valid, order)
    ensures res.Success? <==> Limit(concurrency, maxConcurrency).Success? && |items| <= maxItems
                              && forall i :: 0 <= i < |items| ==> Worker(items, valid, predict, empty, i).Success?
    ensures res.Success? ==>
      |res.value| == |items| && forall i :: 0 <= i < |items| ==> res.value[i] == Worker(items, valid, predict, empty, i).value
    ensures res.Failure? && res.error.WorkerFailed? ==>
      exists k :: FailsFirst(items, valid, predict, empty, order, k, res.error.e)
  {
    calls := [];
    var limit := Limit(concurrency, maxConcurrency);
    if limit.Failure? {
      return Failure(InvalidConcurrency), calls;
    }
    var n := |items|;
    if n > maxItems {
      return Failure(TooManyItems(maxItems)), calls;
    }
    OrderCovers(order, n);
    var done;
    done, calls := RunWorkers(items, valid, predict, empty, order);
    // `gather` raises the first failure.
    for k := 0 to n
      invariant forall j :: 0 <= j < k ==> done[j].1.Success?
    {
      if done[k].1.Failure? {
        assert FailsFirst(items, valid, predict, empty, order, k, done[k].1.error);
        return Failure(WorkerFailed(done[k].1.error)), calls;
      }
    }
    var values := seq(n, j requires 0 <= j < n => (done[j].0, done[j].1.value));
    assert Tags(values) == order;
    var out := RestoreOrder(values, n, empty);
    forall i | 0 <= i < n
      ensures Worker(items, valid, predict, empty, i).Success? && out[i] == Worker(items, valid, predict, empty, i).value
    {
      assert i in order;
      var k :| 0 <= k < n && order[k] == i;
      assert values[k] == (i, done[k].1.value);
    }
    res := Success(out);
  }

  /** A completion order lists every index. */
  lemma OrderCovers(order: seq<nat>, n: nat)
    requires IsIndexPerm(order, n)
    ensures |order| == n
    ensures forall k :: 0 <= k < |order| ==> order[k] < n
    ensures forall i :: 0 <= i < n ==> i in order
  {
    assert |order| == |multiset(order)| == |multiset(Range(n))| == n;
    forall k | 0 <= k < |order|
      ensures order[k] < n
    {
      assert order[k] in multiset(Range(n));
    }
    forall i | 0 <= i < n
      ensures i in order
    {
      assert Range(n)[i] == i;
      assert i in multiset(order);
    }
  }

  /** Each item with a valid province runs the predictor exactly once, and
      no other item runs it. */
  lemma CallsOnce<U>(items: seq<U>, valid: U -> bool, order: seq<nat>, i: nat)
    requires IsIndexPerm(order, |items|) && i < |items|
    ensures multiset(Calls(items, valid, order))[i] == if valid(items[i]) then 1 else 0
  {
    FilterCount(order, (i: nat) => i < |items| && valid(items[i]), i);
    RangeCount(|items|, i);
  }
}
