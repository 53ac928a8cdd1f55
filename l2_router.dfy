/** The endpoints of src/api/routers/l2.py: `predict_major_l2` and its batch
    form. The batch limits `BATCH_MAX_ITEMS` and `MAX_BATCH_CONCURRENCY`
    are not defined in src/core/config.py and are parameters here. */
module L2Router {
  import opened Wrappers
  import opened Ranking
  import opened Batch
  import opened L2Schema
  import opened L2Predictor
  import opened L2Preprocess

  /** The response of `predict_major_l2`: `[]` for a province outside
      the list, the predictor's answer otherwise. */
  function RespondL2(m: L2Model, catalog: Frame, u: UserInputL2, floatRepr: real -> string): Result<seq<L2PredictResult>, L2Error> {
    if !IsTinhTpValid(u) then Success([]) else PredictSpec(m, u, catalog, floatRepr)
  }

  /** `predict_major_l2` (lines 11-15). */
  method PredictMajorL2(m: L2Model, catalog: Frame, u: UserInputL2, floatRepr: real -> string) returns (res: Result<seq<L2PredictResult>, L2Error>)
    ensures !IsTinhTpValid(u) ==> res == Success([])
    ensures IsTinhTpValid(u) ==> res == PredictSpec(m, u, catalog, floatRepr)
  {
    if !IsTinhTpValid(u) {
      return Success([]);
    }
    res := Predict(m, u, catalog, floatRepr);
  }

  /** `predict_major_l2_batch`, the workers completing in `order`: entry
      `i` of the response is what the single endpoint answers for item
      `i`, whatever the completion order. */
  method PredictMajorL2Batch(m: L2Model, catalog: Frame, items: seq<UserInputL2>, maxItems: nat, concurrency: Option<int>,
                              maxConcurrency: int, order: seq<nat>, floatRepr: real -> string)
    returns (res: Result<seq<seq<L2PredictResult>>, BatchError<L2Error>>, calls: seq<nat>)
    requires IsIndexPerm(order, |items|)
    ensures concurrency.Some? && concurrency.value < 1 ==> res == Failure(InvalidConcurrency) && calls == []
    ensures Limit(concurrency, maxConcurrency).Success? && |items| > maxItems
      ==> res == Failure(TooManyItems(maxItems)) && calls == []
    ensures Limit(concurrency, maxConcurrency).Success? && |items| <= maxItems
      ==> forall i :: 0 <= i < |items| ==> multiset(calls)[i] == if IsTinhTpValid(items[i]) then 1 else 0
    ensures res.Success? <==> Limit(concurrency, maxConcurrency).Success? && |items| <= maxItems
                              && forall i :: 0 <= i < |items| ==> RespondL2(m, catalog, items[i], floatRepr).Success?
    ensures res.Success? ==>
      |res.value| == |items| && forall i :: 0 <= i < |items| ==> res.value[i] == RespondL2(m, catalog, items[i], floatRepr).value
  {
    var valid := (u: UserInputL2) => IsTinhTpValid(u);
    var predict := (u: UserInputL2) => PredictSpec(m, u, catalog, floatRepr);
    res, calls := RunBatch(items, valid, predict, [], maxItems, concurrency, maxConcurrency, order);
    forall i | 0 <= i < |items|
      ensures Worker(items, valid, predict, [], i) == RespondL2(m, catalog, items[i], floatRepr)
    {
    }
    if Limit(concurrency, maxConcurrency).Success? && |items| <= maxItems {
      forall i | 0 <= i < |items|
        ensures multiset(calls)[i] == if IsTinhTpValid(items[i]) then 1 else 0
      {
        CallsOnce(items, valid, order, i);
      }
    }
  }
}
