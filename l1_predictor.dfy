/** The priority-admission predictor (src/services/l1/predictor.py): label
    inference for each variant row and the post-processing of an opaque,
    per-group classifier's output. The classifier, the one-hot encoder and the
    label encoder are function-typed values; only the rules around them are
    modelled. */
module L1Predictor {
  import opened Wrappers
  import opened Text
  import opened Values
  import opened Dicts
  import opened Ranking
  import opened L1Schema
  import opened L1Preprocess
  import Seqs

  const NoPriority: string := "Không ưu tiên"

  /** `L1PredictResult`: the priority label and the programme codes with
      their probabilities, in dict order. */
  datatype Recommendation = Recommendation(loaiUuTien: string, maXetTuyen: seq<(string, real)>)

  /** A fitted classifier: with `predict_proba` it yields one probability per
      class, without it one encoded label. */
  datatype Classifier =
    | Proba(predictProba: seq<real> -> seq<real>)
    | Plain(predict: seq<real> -> int)

  /** A fitted one-hot encoder: its `feature_names_in_` if it has them, and
      `transform`, which fails on a category it cannot encode. */
  datatype Encoder = Encoder(featureNamesIn: Option<seq<string>>, transform: seq<string> -> Option<seq<real>>)

  /** A fitted label encoder: its `classes_`. */
  datatype LabelEncoder = LabelEncoder(classes: seq<string>)

  /** A group key: the row's values for `group_cols`, as a tuple. */
  type GroupKey = seq<Value>

  /** The fields of `L1Predictor`. A model entry may be `None`. */
  datatype Artifacts = Artifacts(
    models: map<GroupKey, Option<Classifier>>,
    encoders: map<GroupKey, Encoder>,
    labelEncoders: map<GroupKey, LabelEncoder>,
    classLists: map<GroupKey, seq<string>>,
    groupCols: seq<string>,
    oheCols: seq<string>)

  /** What `predict` raises. */
  datatype PredictError =
    | KeyError(column: string)   // a column missing from the row
    | NameError                  // line 92: the bare name `ohe_cols`
    | AttributeError             // line 109: `None.predict`
    | IndexError                 // too few labels, or a label index out of range
    | ValueError                 // `inverse_transform` of an unseen label
    | TransformError             // the encoder rejects the row

  /** The columns of a preprocessed row once `row_id` is added (line 66). */
  const FrameColumns: seq<string> := [
    "cong_lap", "tinh_tp", "hoc_phi", "hsg_1", "hsg_2", "hsg_3",
    "ahld", "dan_toc_thieu_so", "haimuoi_huyen_ngheo_tnb", "nhom_nganh",
    "hsg_subject", "row_id"]

  function OptStr(v: Option<string>): Value {
    match v
    case None => Null
    case Some(s) => Str(s)
  }

  /** `r[c]` for the row `r` at position `rowId`. */
  function Cell(r: VariantRow, rowId: int, c: string): (v: Option<Value>)
    ensures v.Some? <==> c in FrameColumns
  {
    if c == "cong_lap" then Some(Int(r.congLap))
    else if c == "tinh_tp" then Some(Str(r.tinhTp))
    else if c == "hoc_phi" then Some(Float(r.hocPhi))
    else if c == "hsg_1" then Some(OptStr(r.hsg1))
    else if c == "hsg_2" then Some(OptStr(r.hsg2))
    else if c == "hsg_3" then Some(OptStr(r.hsg3))
    else if c == "ahld" then Some(Int(r.ahld))
    else if c == "dan_toc_thieu_so" then Some(Int(r.danTocThieuSo))
    else if c == "haimuoi_huyen_ngheo_tnb" then Some(Int(r.haimuoiHuyenNgheo))
    else if c == "nhom_nganh" then Some(Str(r.nhomNganh))
    else if c == "hsg_subject" then Some(Str(r.hsgSubject))
    else if c == "row_id" then Some(Int(rowId))
    else None
  }

  /** `tuple(r[c] for c in cols)` and `r[cols]`: the values of the named
      columns in order, or a `KeyError` for the first one the row lacks. */
  function RowValues(r: VariantRow, rowId: int, cols: seq<string>): (res: Result<seq<Value>, PredictError>)
    ensures res.Success? <==> forall i :: 0 <= i < |cols| ==> cols[i] in FrameColumns
    ensures res.Success? ==> (|res.value| == |cols|
      && forall i :: 0 <= i < |cols| ==> Cell(r, rowId, cols[i]) == Some(res.value[i]))
    ensures res.Failure? ==> exists i :: 0 <= i < |cols| && res.error == KeyError(cols[i]) && cols[i] !in FrameColumns
  {
    if cols == [] then Success([])
    else
      match Cell(r, rowId, cols[0])
      case None => Failure(KeyError(cols[0]))
      case Some(v) =>
        var rest :- RowValues(r, rowId, cols[1..]);
        assert forall i :: 1 <= i < |cols| ==> cols[1..][i - 1] == cols[i];
        Success([v] + rest)
  }

  /** The subject texts `infer_loai_uu_tien` treats as "no olympiad award". */
  const NoSubject: set<string> := {"0", "UNK", "None", "nan", ""}

  /** `infer_loai_uu_tien`: the first signal in the fixed precedence order
      olympiad, `ahld`, `dan_toc_thieu_so`, `haimuoi_huyen_ngheo_tnb`. */
  function InferLoai(r: VariantRow): string {
    if r.hsgSubject !in NoSubject then "HSG " + r.hsgSubject
    else if r.ahld == 1 then "AHLD"
    else if r.danTocThieuSo == 1 then "Dân tộc thiểu số"
    else if r.haimuoiHuyenNgheo == 1 then "50 huyện nghèo/TNB"
    else NoPriority
  }

  /** Lines 103-106: the labels and normalised probabilities in the order
      `np.argsort(p)[::-1]`. */
  function RankedPairs(p: seq<real>, o: seq<nat>, labels: seq<string>, s: real): (ps: seq<(string, real)>)
    requires InBounds(o, |p|) && InBounds(o, |labels|) && s != 0.0
    ensures |ps| == |o|
    ensures forall k :: 0 <= k < |o| ==> ps[k] == (labels[o[k]], p[o[k]] / s)
  {
    seq(|o|, k requires 0 <= k < |o| => (labels[o[k]], p[o[k]] / s))
  }

  /** Lines 98-107: the mapping built from a probability vector `p` and the
      class labels. A vector summing to at most 0 gives the empty mapping;
      fewer labels than probabilities make the fancy indexing fail. */
  function ProbaMap(p: seq<real>, labels: seq<string>): (r: Result<seq<(string, real)>, PredictError>)
    ensures Sum(p) <= 0.0 ==> r == Success([])
    ensures Sum(p) > 0.0 ==> (r.Failure? <==> |labels| < |p|)
    ensures r.Failure? ==> r.error == IndexError
    ensures r.Success? ==> DistinctKeys(r.value) && |r.value| <= |p|
    ensures Sum(p) > 0.0 && r.Success? ==> forall k :: 0 <= k < |r.value| ==>
      exists i :: 0 <= i < |p| <= |labels| && r.value[k] == (labels[i], p[i] / Sum(p))
  {
    var s := Sum(p);
    if s <= 0.0 then Success([])
    else
      var o := ArgsortDesc(p);
      if |labels| < |p| then Failure(IndexError)
      else
        var d := FromPairs(RankedPairs(p, o, labels, s));
        FromPairsLength(RankedPairs(p, o, labels, s));
        RankedPairsEntries(p, o, labels, s);
        Success(d)
  }

  /** Every entry of the mapping built from the ranked pairs is some label
      with its own normalised probability. */
  lemma RankedPairsEntries(p: seq<real>, o: seq<nat>, labels: seq<string>, s: real)
    requires InBounds(o, |p|) && |labels| >= |p| && s != 0.0
    ensures var d := FromPairs(RankedPairs(p, o, labels, s));
      forall k :: 0 <= k < |d| ==> exists i :: 0 <= i < |p| <= |labels| && d[k] == (labels[i], p[i] / s)
  {
    var ps := RankedPairs(p, o, labels, s);
    var d := FromPairs(ps);
    forall k | 0 <= k < |d|
      ensures exists i :: 0 <= i < |p| <= |labels| && d[k] == (labels[i], p[i] / s)
    {
      assert d[k] in ps;
      var j :| 0 <= j < |ps| && ps[j] == d[k];
      assert d[k] == (labels[o[j]], p[o[j]] / s);
    }
  }

  /** Every label of a permutation's pairs appears with its own normalised
      probability. */
  lemma RankedPairsCovers(p: seq<real>, o: seq<nat>, labels: seq<string>, s: real)
    requires InBounds(o, |p|) && IsIndexPerm(o, |p|) && |labels| >= |p| && s != 0.0
    ensures forall i :: 0 <= i < |p| ==> (labels[i], p[i] / s) in RankedPairs(p, o, labels, s)
  {
    var ps := RankedPairs(p, o, labels, s);
    forall i | 0 <= i < |p|
      ensures (labels[i], p[i] / s) in ps
    {
      var k := IndexPermCovers(o, |p|, i);
      assert ps[k] == (labels[i], p[i] / s);
    }
  }

  /** Line 110: the single decoded label, through the label encoder when
      there is one (an encoded label outside its classes is a `ValueError`),
      else by Python indexing into the class list (negative indices count
      from the end), else nothing. */
  function Decode(yhat: int, le: Option<LabelEncoder>, clsList: seq<string>): (r: Result<seq<(string, real)>, PredictError>)
    ensures le.Some? ==> (r.Success? <==> 0 <= yhat < |le.value.classes|)
    ensures le.Some? && r.Success? ==> r.value == [(le.value.classes[yhat], 1.0)]
    ensures le.None? && clsList == [] ==> r == Success([])
    ensures le.None? && clsList != [] ==> (r.Success? <==> -|clsList| <= yhat < |clsList|)
    ensures le.None? && clsList != [] && r.Success? ==>
      r.value == [(clsList[if yhat < 0 then yhat + |clsList| else yhat], 1.0)]
  {
    if le.Some? then
      if 0 <= yhat < |le.value.classes| then Success([(le.value.classes[yhat], 1.0)]) else Failure(PredictError.ValueError)
    else if clsList == [] then Success([])
    else if -|clsList| <= yhat < |clsList| then
      Success([(clsList[if yhat < 0 then yhat + |clsList| else yhat], 1.0)])
    else Failure(IndexError)
  }

  /** The body of the loop of `predict` (lines 70-111) for the row `r` at
      position `rowId`. */
  function PredictRow(a: Artifacts, r: VariantRow, rowId: int, floatRepr: real -> string): (res: Result<Recommendation, PredictError>)
    ensures res.Success? ==> res.value.loaiUuTien == InferLoai(r)
  {
    var gkey :- RowValues(r, rowId, a.groupCols);
    var loai := InferLoai(r);
    if loai == NoPriority || gkey !in a.models then Success(Recommendation(loai, []))
    else
      var clf := a.models[gkey];
      var enc := Get(a.encoders, gkey);
      var le := Get(a.labelEncoders, gkey);
      var clsList := Get(a.classLists, gkey).GetOr([]);
      if clf.None? && clsList == [] then Success(Recommendation(loai, []))
      else if enc.None? || enc.value.featureNamesIn.None? then Failure(NameError)
      else
        var x :- RowValues(r, rowId, enc.value.featureNamesIn.value);
        match enc.value.transform(Cells(x, floatRepr))
        case None => Failure(TransformError)
        case Some(features) =>
          match clf
          case None => Failure(AttributeError)
          case Some(Proba(f)) =>
            var m :- ProbaMap(f(features), if le.Some? then le.value.classes else clsList);
            Success(Recommendation(loai, m))
          case Some(Plain(g)) =>
            var m :- Decode(g(features), le, clsList);
            Success(Recommendation(loai, m))
  }

  /** The row's values for the encoder's columns as text (line 93). */
  function Cells(x: seq<Value>, floatRepr: real -> string): (cells: seq<string>)
    ensures |cells| == |x| && forall i :: 0 <= i < |x| ==> cells[i] == StrOf(x[i], floatRepr)
  {
    seq(|x|, i requires 0 <= i < |x| => StrOf(x[i], floatRepr))
  }

  /** The results of the first `n` rows, in row order; the first failing row
      decides the error. */
  function PredictPrefix(a: Artifacts, rows: seq<VariantRow>, n: nat, floatRepr: real -> string): (res: Result<seq<Recommendation>, PredictError>)
    requires n <= |rows|
    ensures res.Success? ==> (|res.value| == n
      && forall i :: 0 <= i < n ==> PredictRow(a, rows[i], i, floatRepr) == Success(res.value[i]))
  {
    Seqs.TraverseIndexed(rows, n, RowStep(a, floatRepr))
  }

  /** `PredictRow` as the function of a row and its position that the loop
      applies. */
  function RowStep(a: Artifacts, floatRepr: real -> string): (VariantRow, int) -> Result<Recommendation, PredictError> {
    (r, i) => PredictRow(a, r, i, floatRepr)
  }

  /** What `predict` returns for the frame of variant rows `rows`. */
  function PredictRows(a: Artifacts, rows: seq<VariantRow>, floatRepr: real -> string): Result<seq<Recommendation>, PredictError> {
    if rows == [] then Success([Recommendation(NoPriority, [])])
    else PredictPrefix(a, rows, |rows|, floatRepr)
  }

  /** What `predict` returns for a request. */
  function PredictSpec(a: Artifacts, u: UserInputL1, floatRepr: real -> string): Result<seq<Recommendation>, PredictError> {
    PredictRows(a, Expand([u]), floatRepr)
  }

  /** `L1Predictor.predict`: the request is expanded into variant rows,
      which are then predicted. */
  method Predict(a: Artifacts, u: UserInputL1, floatRepr: real -> string) returns (res: Result<seq<Recommendation>, PredictError>)
    ensures res == PredictSpec(a, u, floatRepr)
  {
    var rows := CleanAndCast([u]);
    res := PredictFrame(a, rows, floatRepr);
  }

  /** Lines 63-112 of `predict`: an empty frame gives the single "no
      priority" result; otherwise one result is appended per row, and the
      first row that raises ends the loop with its error. */
  method PredictFrame(a: Artifacts, rows: seq<VariantRow>, floatRepr: real -> string) returns (res: Result<seq<Recommendation>, PredictError>)
    ensures res == PredictRows(a, rows, floatRepr)
  {
    if |rows| == 0 {
      return Success([Recommendation(NoPriority, [])]);
    }
    res := Seqs.TraverseLoop(rows, RowStep(a, floatRepr));
  }

  /** One more row: its result is appended, or its error ends the prefix. */
  lemma PrefixStep(a: Artifacts, rows: seq<VariantRow>, i: nat, floatRepr: real -> string, results: seq<Recommendation>)
    requires i < |rows| && PredictPrefix(a, rows, i, floatRepr) == Success(results)
    ensures var r := PredictRow(a, rows[i], i, floatRepr);
      PredictPrefix(a, rows, i + 1, floatRepr) == if r.Failure? then Failure(r.error) else Success(results + [r.value])
  {
    Seqs.TraverseStep(rows, i, RowStep(a, floatRepr), results);
  }

  /** Once a row fails, every longer prefix fails with the same error. */
  lemma PrefixFailureStays(a: Artifacts, rows: seq<VariantRow>, m: nat, n: nat, floatRepr: real -> string)
    requires m <= n <= |rows|
    requires PredictPrefix(a, rows, m, floatRepr).Failure?
    ensures PredictPrefix(a, rows, n, floatRepr) == PredictPrefix(a, rows, m, floatRepr)
  {
    Seqs.TraverseFailureStays(rows, m, n, RowStep(a, floatRepr));
  }

  // ---------------------------------------------------------------------
  // Properties.

  /** With non-negative probabilities summing above 0 and distinct labels
      for them, the mapping lists every label once, with values
      `p_i / sum(p)` that are non-negative, in non-increasing order, and sum
      to 1. */
  lemma ProbaMapNormalised(p: seq<real>, labels: seq<string>)
    requires Sum(p) > 0.0 && |labels| >= |p|
    requires forall i :: 0 <= i < |p| ==> p[i] >= 0.0
    requires Distinct(labels[..|p|])
    ensures ProbaMap(p, labels).Success?
    ensures NormalisedMapping(ProbaMap(p, labels).value, p, labels)
  {
    var s := Sum(p);
    var o := ArgsortDesc(p);
    var ps := RankedPairs(p, o, labels, s);
    RankedPairsDistinct(p, o, labels, s);
    FromPairsDistinct(ps);
    assert ProbaMap(p, labels) == Success(ps);
    RankedPairsSum(p, o, labels, s);
    RankedPairsOrder(p, o, labels, s);
    RankedPairsCovers(p, o, labels, s);
  }

  lemma RankedPairsOrder(p: seq<real>, o: seq<nat>, labels: seq<string>, s: real)
    requires InBounds(o, |p|) && Descending(o, p) && |labels| >= |p| && s > 0.0
    requires forall i :: 0 <= i < |p| ==> p[i] >= 0.0
    ensures var ps := RankedPairs(p, o, labels, s);
      && (forall k :: 0 <= k < |ps| ==> ps[k].0 in labels[..|p|] && 0.0 <= ps[k].1)
      && (forall k, l :: 0 <= k < l < |ps| ==> ps[k].1 >= ps[l].1)
  {
    var ps := RankedPairs(p, o, labels, s);
    forall k | 0 <= k < |ps|
      ensures ps[k].0 in labels[..|p|] && 0.0 <= ps[k].1
    {
      assert labels[o[k]] == labels[..|p|][o[k]];
      DivMonotone(p[o[k]], 0.0, s);
    }
    forall k, l | 0 <= k < l < |ps|
      ensures ps[k].1 >= ps[l].1
    {
      DivMonotone(p[o[k]], p[o[l]], s);
    }
  }

  lemma DivMonotone(x: real, y: real, s: real)
    requires s > 0.0 && x >= y
    ensures x / s >= y / s
  {
  }

  lemma RankedPairsDistinct(p: seq<real>, o: seq<nat>, labels: seq<string>, s: real)
    requires InBounds(o, |p|) && IsIndexPerm(o, |p|) && |labels| >= |p| && s != 0.0
    requires Distinct(labels[..|p|])
    ensures DistinctKeys(RankedPairs(p, o, labels, s))
  {
    var ps := RankedPairs(p, o, labels, s);
    forall k, l | 0 <= k < l < |ps|
      ensures ps[k].0 != ps[l].0
    {
      IndexPermDistinct(o, |p|, k, l);
      assert labels[o[k]] == labels[..|p|][o[k]] && labels[o[l]] == labels[..|p|][o[l]];
    }
  }

  lemma RankedPairsSum(p: seq<real>, o: seq<nat>, labels: seq<string>, s: real)
    requires InBounds(o, |p|) && IsIndexPerm(o, |p|) && |labels| >= |p| && s == Sum(p) && s != 0.0
    ensures Sum(ValuesOf(RankedPairs(p, o, labels, s))) == 1.0
  {
    var g := Gather(p, o);
    assert ValuesOf(RankedPairs(p, o, labels, s)) == Scale(g, s);
    SumScale(g, s);
    SumPermuted(p, o);
    DivSelf(s);
  }

  lemma DivSelf(s: real)
    requires s != 0.0
    ensures s / s == 1.0
  {
  }

  /** A mapping with one entry per probability and distinct keys: each
      entry is a label paired with its own probability divided by the sum,
      every label appears so, the values are non-negative, in non-increasing
      order, and sum to 1. */
  predicate NormalisedMapping(m: seq<(string, real)>, p: seq<real>, labels: seq<string>) {
    && Sum(p) > 0.0
    && |m| == |p| <= |labels|
    && DistinctKeys(m)
    && (forall k :: 0 <= k < |m| ==> exists i :: 0 <= i < |p| && m[k] == (labels[i], p[i] / Sum(p)))
    && (forall i :: 0 <= i < |p| ==> (labels[i], p[i] / Sum(p)) in m)
    && (forall k :: 0 <= k < |m| ==> m[k].0 in labels[..|p|] && 0.0 <= m[k].1)
    && (forall k, l :: 0 <= k < l < |m| ==> m[k].1 >= m[l].1)
    && Sum(ValuesOf(m)) == 1.0
  }

  /** The labels a group's probabilities are read against (line 103). */
  function GroupLabels(a: Artifacts, k: GroupKey): seq<string> {
    var le := Get(a.labelEncoders, k);
    if le.Some? then le.value.classes else Get(a.classLists, k).GetOr([])
  }

  /** A row that reaches its group's classifier (line 102): it has a
      priority label, its group has a model and an encoder with feature
      names, its feature columns exist, and the encoder turns them into
      `features`. */
  predicate ReachesClassifier(a: Artifacts, r: VariantRow, rowId: int, floatRepr: real -> string, features: seq<real>) {
    && RowValues(r, rowId, a.groupCols).Success?
    && var k := RowValues(r, rowId, a.groupCols).value;
    && InferLoai(r) != NoPriority
    && k in a.models && a.models[k].Some?
    && k in a.encoders && a.encoders[k].featureNamesIn.Some?
    && RowValues(r, rowId, a.encoders[k].featureNamesIn.value).Success?
    && a.encoders[k].transform(Cells(RowValues(r, rowId, a.encoders[k].featureNamesIn.value).value, floatRepr)) == Some(features)
  }

  /** Lines 102-107: a row that reaches a probability model gets exactly
      `ProbaMap` of its probabilities against its group's labels, or that
      mapping's error. */
  lemma PredictRowProba(a: Artifacts, r: VariantRow, rowId: int, floatRepr: real -> string, features: seq<real>)
    requires ReachesClassifier(a, r, rowId, floatRepr, features)
    requires a.models[RowValues(r, rowId, a.groupCols).value].value.Proba?
    ensures var k := RowValues(r, rowId, a.groupCols).value;
      var m := ProbaMap(a.models[k].value.predictProba(features), GroupLabels(a, k));
      var res := PredictRow(a, r, rowId, floatRepr);
      && (res.Success? <==> m.Success?)
      && (res.Success? ==> res.value == Recommendation(InferLoai(r), m.value))
      && (res.Failure? ==> res.error == m.error)
  {
  }

  /** Lines 108-111: a row that reaches a plain model gets exactly the
      decoded label of its prediction, or the decoding error. */
  lemma PredictRowPlain(a: Artifacts, r: VariantRow, rowId: int, floatRepr: real -> string, features: seq<real>)
    requires ReachesClassifier(a, r, rowId, floatRepr, features)
    requires a.models[RowValues(r, rowId, a.groupCols).value].value.Plain?
    ensures var k := RowValues(r, rowId, a.groupCols).value;
      var m := Decode(a.models[k].value.predict(features), Get(a.labelEncoders, k), Get(a.classLists, k).GetOr([]));
      var res := PredictRow(a, r, rowId, floatRepr);
      && (res.Success? <==> m.Success?)
      && (res.Success? ==> res.value == Recommendation(InferLoai(r), m.value))
      && (res.Failure? ==> res.error == m.error)
  {
  }

  /** A row whose probability model gives non-negative probabilities with a
      positive sum, read against enough distinct labels, predicts a
      normalised mapping. */
  predicate ProbaRowOk(a: Artifacts, r: VariantRow, rowId: int, floatRepr: real -> string, features: seq<real>) {
    && ReachesClassifier(a, r, rowId, floatRepr, features)
    && var k := RowValues(r, rowId, a.groupCols).value;
    && a.models[k].value.Proba?
    && var p := a.models[k].value.predictProba(features);
    && Sum(p) > 0.0 && |GroupLabels(a, k)| >= |p|
    && (forall i :: 0 <= i < |p| ==> p[i] >= 0.0)
    && Distinct(GroupLabels(a, k)[..|p|])
  }

  /** Lines 102-107 with `ProbaMapNormalised`: such a row succeeds, and its
      mapping is normalised. */
  lemma {:induction false} PredictRowNormalised(a: Artifacts, r: VariantRow, rowId: int, floatRepr: real -> string, features: seq<real>)
    requires ProbaRowOk(a, r, rowId, floatRepr, features)
    ensures PredictRow(a, r, rowId, floatRepr).Success?
    ensures var k := RowValues(r, rowId, a.groupCols).value;
      NormalisedMapping(PredictRow(a, r, rowId, floatRepr).value.maXetTuyen,
                        a.models[k].value.predictProba(features), GroupLabels(a, k))
  {
    var k := RowValues(r, rowId, a.groupCols).value;
    ProbaMapNormalised(a.models[k].value.predictProba(features), GroupLabels(a, k));
    PredictRowProba(a, r, rowId, floatRepr, features);
  }

  /** In a successful prediction, the result of every variant row that
      meets `ProbaRowOk` is a normalised mapping. */
  lemma {:induction false} PredictSpecNormalised(a: Artifacts, u: UserInputL1, floatRepr: real -> string, i: nat, features: seq<real>)
    requires PredictSpec(a, u, floatRepr).Success?
    requires i < |Expand([u])| && ProbaRowOk(a, Expand([u])[i], i, floatRepr, features)
    ensures i < |PredictSpec(a, u, floatRepr).value|
    ensures var r := Expand([u])[i]; var k := RowValues(r, i, a.groupCols).value;
      NormalisedMapping(PredictSpec(a, u, floatRepr).value[i].maXetTuyen,
                        a.models[k].value.predictProba(features), GroupLabels(a, k))
  {
    var rows := Expand([u]);
    assert PredictSpec(a, u, floatRepr) == PredictPrefix(a, rows, |rows|, floatRepr);
    PredictRowNormalised(a, rows[i], i, floatRepr, features);
  }

  /** A row labelled "no priority", or whose group key has no model, yields
      its label with the empty mapping, whatever the models, encoders and
      class lists are. */
  lemma UnmatchedRowIgnoresModels(a: Artifacts, b: Artifacts, r: VariantRow, rowId: int, floatRepr: real -> string)
    requires a.groupCols == b.groupCols
    requires RowValues(r, rowId, a.groupCols).Success?
    requires var k := RowValues(r, rowId, a.groupCols).value;
      InferLoai(r) == NoPriority || (k !in a.models && k !in b.models)
    ensures PredictRow(a, r, rowId, floatRepr) == Success(Recommendation(InferLoai(r), []))
    ensures PredictRow(b, r, rowId, floatRepr) == Success(Recommendation(InferLoai(r), []))
  {
  }

  /** Lines 85-92 and 109: a group whose model is `None` but whose class list
      is not empty never yields a result. The code appends
      `{cls_list[0]: 1.0}` and then goes on to line 92, where `ohe_cols` is an
      undefined name, or, with an encoder that has feature names, to line 109,
      where `None.predict` is called. */
  lemma NoneClassifierFails(a: Artifacts, r: VariantRow, rowId: int, floatRepr: real -> string)
    requires RowValues(r, rowId, a.groupCols).Success?
    requires var k := RowValues(r, rowId, a.groupCols).value;
      && InferLoai(r) != NoPriority
      && k in a.models && a.models[k].None?
      && k in a.classLists && a.classLists[k] != []
    ensures var res := PredictRow(a, r, rowId, floatRepr);
      && res.Failure?
      && (res.error == NameError || res.error == AttributeError
          || res.error == TransformError || res.error.KeyError?)
  {
  }

  /** Each variant row of a request gets the label of its one signal. */
  lemma VariantRowLabel(u: UserInputL1, i: nat)
    requires i < |Expand([u])|
    ensures var r := Expand([u])[i];
      && (r.hsgSubject != "0" ==>
            InferLoai(r) == if PickHsg(u) in NoSubject then NoPriority else "HSG " + PickHsg(u))
      && (r.ahld != 0 ==> InferLoai(r) == "AHLD")
      && (r.danTocThieuSo != 0 ==> InferLoai(r) == "Dân tộc thiểu số")
      && (r.haimuoiHuyenNgheo != 0 ==> InferLoai(r) == "50 huyện nghèo/TNB")
      && (IsNoneRow(r) ==> InferLoai(r) == NoPriority)
  {
    VariantRowShape(u, i);
  }

  /** A successful prediction has one result per variant row, labelled as
      that row; for a validated request that is between 1 and 4 results. */
  lemma PredictResults(a: Artifacts, u: UserInputL1, floatRepr: real -> string, subjects: set<string>, groups: set<string>)
    requires Valid(u, subjects, groups)
    requires PredictSpec(a, u, floatRepr).Success?
    ensures var res := PredictSpec(a, u, floatRepr).value;
      && |res| == |Expand([u])| && 1 <= |res| <= 4
      && forall i :: 0 <= i < |res| ==> res[i].loaiUuTien == InferLoai(Expand([u])[i])
  {
    VariantCount(u);
  }
}
