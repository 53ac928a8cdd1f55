/** The endpoints of src/api/routers/l1.py: `predict_major_l1` and its batch
    form. The batch limits `BATCH_MAX_ITEMS` and `MAX_BATCH_CONCURRENCY`
    are not defined in src/core/config.py and are parameters here. */
module L1Router {
  import opened Wrappers
  import opened Ranking
  import opened Batch
  import opened L1Schema
  import opened L1Predictor

  /** The response of `predict_major_l1`: `[]` for a province outside
      the list, the predictor's answer otherwise. */
  function RespondL1(a: Artifacts, u: UserInputL1, floatRepr: real -> string): Result<seq<Recommendation>, PredictError> {
    if !IsTinhTpValid(u) then Success([]) else PredictSpec(a, u, floatRepr)
  }

  /** `predict_major_l1` (lines 11-15). */
  method PredictMajorL1(a: Artifacts, u: UserInputL1, floatRepr: real -> string) returns (res: Result<seq<Recommendation>, PredictError>)
    ensures !IsTinhTpValid(u) ==> res == Success([])
    ensures IsTinhTpValid(u) ==> res == PredictSpec(a, u, floatRepr)
  {
    if !IsTinhTpValid(u) {
      return Success([]);
    }
    res := Predict(a, u, floatRepr);
  }

  /** `predict_major_l1_batch`, the workers completing in `order`: entry
      `i` of the response is what the single endpoint answers for item
      `i`, whatever the completion order. */
  method PredictMajorL1Batch(a: Artifacts, items: seq<UserInputL1>, maxItems: nat, concurrency: Option<int>,
                              maxConcurrency: int, order: seq<nat>, floatRepr: real -> string)
    returns (res: Result<seq<seq<Recommendation>>, BatchError<PredictError>>, calls: seq<nat>)
    requires IsIndexPerm(order, |items|)
    ensures concurrency.Some? && concurrency.value < 1 ==> res == Failure(InvalidConcurrency) && calls == []
    ensures Limit(concurrency, maxConcurrency).Success? && |items| > maxItems
      ==> res == Failure(TooManyItems(maxItems)) && calls == []
    ensures Limit(concurrency, maxConcurrency).Success? && |items| <= maxItems
      ==> forall i :: 0 <= i < |items| ==> multiset(calls)[i] == if IsTinhTpValid(items[i]) then 1 else 0
    ensures res.Success? <==> Limit(concurrency, maxConcurrency).Success? && |items| <= maxItems
                              && forall i :: 0 <= i < |items| ==> RespondL1(a, items[i], floatRepr).Success?
    ensures res.Success? ==>
      |res.value| == |items| && forall i :: 0 <= i < |items| ==> res.value[i] == RespondL1(a, items[i], floatRepr).value
  {
    var valid := (u: UserInputL1) => IsTinhTpValid(u);
    var predict := (u: UserInputL1) => PredictSpec(a, u, floatRepr);
    res, calls := RunBatch(items, valid, predict, [], maxItems, concurrency, maxConcurrency, order);
    forall i | 0 <= i < |items|
      ensures Worker(items, valid, predict, [], i) == RespondL1(a, items[i], floatRepr)
    {
    }
    if Limit(concurrency, maxConcurrency).Success? && |items| <= maxItems {
      forall i | 0 <= i < |items|
        ensures multiset(calls)[i] == if IsTinhTpValid(items[i]) then 1 else 0
      {
        CallsOnce(items, valid, order, i);
      }
    }
  }
}
