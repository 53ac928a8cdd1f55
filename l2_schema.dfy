/** The candidate-ranking request `UserInputL2` (src/services/l2/schema.py):
    its two normalisers, the lax coercions pydantic applies to the other
    fields, and the province test `is_tinh_tp_valid`.

    As for the priority-admission request, a raw field is `None` when the
    request omits it; the two normalised text fields arrive as the `str()`
    text of the JSON value (`None` for JSON null), the other text fields as
    their string or `None` when the value is not a string. */
module L2Schema {
  import opened Wrappers
  import opened Text
  import opened Values
  import Constants
  import L1Schema

  datatype FieldError = FieldError(field: string, reason: string)

  datatype RawL2 = RawL2(
    congLap: Option<Value>,
    tinhTp: Option<Option<string>>,
    toHopMon: Option<Option<string>>,
    diemChuan: Option<Value>,
    hocPhi: Option<Value>,
    tenCcta: Option<Option<string>>,
    diemCcta: Option<Option<string>>,
    hk10: Option<Value>, hk11: Option<Value>, hk12: Option<Value>,
    hl10: Option<Value>, hl11: Option<Value>, hl12: Option<Value>,
    nhomNganh: Option<Value>)

  /** A validated request. */
  datatype UserInputL2 = UserInputL2(
    congLap: int,
    tinhTp: string,
    toHopMon: string,
    diemChuan: real,
    hocPhi: real,
    tenCcta: string,
    diemCcta: string,
    hk10: int, hk11: int, hk12: int,
    hl10: int, hl11: int, hl12: int,
    nhomNganh: int)

  /** `norm_tinh_tp`: the same expression as the priority-admission validator. */
  function NormTinhTp(v: Option<string>): (r: Option<string>)
    ensures v.None? <==> r.None?
    ensures v.Some? ==> r == Some(Strip(v.value))
  {
    L1Schema.NormTinhTp(v)
  }

  /** `norm_thm`: stripped, then upper-cased. */
  function NormThm(v: Option<string>): (r: Option<string>)
    ensures v.None? <==> r.None?
    ensures v.Some? ==> r == Some(Upper(Strip(v.value)))
  {
    match v
    case None => None
    case Some(x) => Some(Upper(Strip(x)))
  }

  /** `is_tinh_tp_valid`. */
  predicate IsTinhTpValid(u: UserInputL2) {
    Constants.IsProvince(Strip(u.tinhTp))
  }

  function ValidateInt(name: string, raw: Option<Value>): (r: Result<int, FieldError>)
    ensures r.Success? <==> raw.Some? && LaxInt(raw.value).Some?
    ensures r.Success? ==> r.value == LaxInt(raw.value).value
  {
    if raw.None? then Failure(FieldError(name, "field required"))
    else match LaxInt(raw.value)
      case None => Failure(FieldError(name, "input should be a valid integer"))
      case Some(i) => Success(i)
  }

  function ValidateFloat(name: string, raw: Option<Value>): (r: Result<real, FieldError>)
    ensures r.Success? <==> raw.Some? && LaxFloat(raw.value).Some?
    ensures r.Success? ==> r.value == LaxFloat(raw.value).value
  {
    if raw.None? then Failure(FieldError(name, "field required"))
    else match LaxFloat(raw.value)
      case None => Failure(FieldError(name, "input should be a valid number"))
      case Some(x) => Success(x)
  }

  /** A `str` field after its `before` normaliser (`norm_tinh_tp`,
      `norm_thm`) or with none. */
  function ValidateStr(name: string, raw: Option<Option<string>>, norm: Norm): (r: Result<string, FieldError>)
    ensures r.Success? <==> raw.Some? && raw.value.Some?
    ensures r.Success? ==> r.value == ApplyNorm(norm, raw.value.value)
  {
    if raw.None? then Failure(FieldError(name, "field required"))
    else if raw.value.None? then Failure(FieldError(name, "input should be a valid string"))
    else Success(ApplyNorm(norm, raw.value.value))
  }

  datatype Norm = TinhTpNorm | ThmNorm | NoNorm

  function ApplyNorm(norm: Norm, x: string): string {
    match norm
    case TinhTpNorm => NormTinhTp(Some(x)).value
    case ThmNorm => NormThm(Some(x)).value
    case NoNorm => x
  }

  /** The fields after `to_hop_mon`, validated. */
  datatype Rest = Rest(diemChuan: real, hocPhi: real, tenCcta: string, diemCcta: string,
                       hk10: int, hk11: int, hk12: int, hl10: int, hl11: int, hl12: int, nhomNganh: int)

  function ValidateRest(raw: RawL2): (r: Result<Rest, FieldError>)
    ensures r.Success? <==>
      && raw.diemChuan.Some? && LaxFloat(raw.diemChuan.value).Some?
      && raw.hocPhi.Some? && LaxFloat(raw.hocPhi.value).Some?
      && raw.tenCcta.Some? && raw.tenCcta.value.Some?
      && raw.diemCcta.Some? && raw.diemCcta.value.Some?
      && raw.hk10.Some? && LaxInt(raw.hk10.value).Some?
      && raw.hk11.Some? && LaxInt(raw.hk11.value).Some?
      && raw.hk12.Some? && LaxInt(raw.hk12.value).Some?
      && raw.hl10.Some? && LaxInt(raw.hl10.value).Some?
      && raw.hl11.Some? && LaxInt(raw.hl11.value).Some?
      && raw.hl12.Some? && LaxInt(raw.hl12.value).Some?
      && raw.nhomNganh.Some? && LaxInt(raw.nhomNganh.value).Some?
    ensures r.Success? ==> r.value == Rest(
      LaxFloat(raw.diemChuan.value).value, LaxFloat(raw.hocPhi.value).value,
      raw.tenCcta.value.value, raw.diemCcta.value.value,
      LaxInt(raw.hk10.value).value, LaxInt(raw.hk11.value).value, LaxInt(raw.hk12.value).value,
      LaxInt(raw.hl10.value).value, LaxInt(raw.hl11.value).value, LaxInt(raw.hl12.value).value,
      LaxInt(raw.nhomNganh.value).value)
  {
    var diemChuan :- ValidateFloat("diem_chuan", raw.diemChuan);
    var hocPhi :- ValidateFloat("hoc_phi", raw.hocPhi);
    var tenCcta :- ValidateStr("ten_ccta", raw.tenCcta, NoNorm);
    var diemCcta :- ValidateStr("diem_ccta", raw.diemCcta, NoNorm);
    var hk10 :- ValidateInt("hk10", raw.hk10);
    var hk11 :- ValidateInt("hk11", raw.hk11);
    var hk12 :- ValidateInt("hk12", raw.hk12);
    var hl10 :- ValidateInt("hl10", raw.hl10);
    var hl11 :- ValidateInt("hl11", raw.hl11);
    var hl12 :- ValidateInt("hl12", raw.hl12);
    var nhomNganh :- ValidateInt("nhom_nganh", raw.nhomNganh);
    Success(Rest(diemChuan, hocPhi, tenCcta, diemCcta, hk10, hk11, hk12, hl10, hl11, hl12, nhomNganh))
  }

  /** Constructing `UserInputL2`: the fields in declaration order; the first
      failing field is reported. */
  function ValidateL2(raw: RawL2): (r: Result<UserInputL2, FieldError>)
    ensures r.Success? <==>
      && raw.congLap.Some? && LaxInt(raw.congLap.value).Some?
      && raw.tinhTp.Some? && raw.tinhTp.value.Some?
      && raw.toHopMon.Some? && raw.toHopMon.value.Some?
      && ValidateRest(raw).Success?
    ensures r.Success? ==>
      && r.value.congLap == LaxInt(raw.congLap.value).value
      && r.value.tinhTp == Strip(raw.tinhTp.value.value)
      && r.value.toHopMon == Upper(Strip(raw.toHopMon.value.value))
    ensures r.Success? ==> var w := ValidateRest(raw).value;
      r.value == UserInputL2(r.value.congLap, r.value.tinhTp, r.value.toHopMon, w.diemChuan, w.hocPhi,
                             w.tenCcta, w.diemCcta, w.hk10, w.hk11, w.hk12, w.hl10, w.hl11, w.hl12, w.nhomNganh)
  {
    var congLap :- ValidateInt("cong_lap", raw.congLap);
    var tinhTp :- ValidateStr("tinh_tp", raw.tinhTp, TinhTpNorm);
    var toHopMon :- ValidateStr("to_hop_mon", raw.toHopMon, ThmNorm);
    var w :- ValidateRest(raw);
    Success(UserInputL2(congLap, tinhTp, toHopMon, w.diemChuan, w.hocPhi, w.tenCcta, w.diemCcta,
                        w.hk10, w.hk11, w.hk12, w.hl10, w.hl11, w.hl12, w.nhomNganh))
  }

  /** The request as a client sends it: every number as a JSON number and
      every text as a string. */
  function Send(cl: int, tp: string, thm: string, dc: real, hp: real, ten: string, diem: string,
                hk: seq<int>, hl: seq<int>, nn: int): RawL2
    requires |hk| == 3 && |hl| == 3
  {
    RawL2(Some(Int(cl)), Some(Some(tp)), Some(Some(thm)), Some(Float(dc)), Some(Float(hp)),
          Some(Some(ten)), Some(Some(diem)),
          Some(Int(hk[0])), Some(Int(hk[1])), Some(Int(hk[2])),
          Some(Int(hl[0])), Some(Int(hl[1])), Some(Int(hl[2])), Some(Int(nn)))
  }

  /** No field has a range check: every integer is accepted for `cong_lap`,
      the conduct and ability ratings and `nhom_nganh`, every real (negative
      ones included) for `diem_chuan` and `hoc_phi`; only the two normalised
      texts change. */
  lemma {:induction false} ValidateAcceptsAnyNumbers(cl: int, tp: string, thm: string, dc: real, hp: real,
                                                     ten: string, diem: string, hk: seq<int>, hl: seq<int>, nn: int)
    requires |hk| == 3 && |hl| == 3
    ensures ValidateL2(Send(cl, tp, thm, dc, hp, ten, diem, hk, hl, nn))
      == Success(UserInputL2(cl, Strip(tp), Upper(Strip(thm)), dc, hp, ten, diem,
                             hk[0], hk[1], hk[2], hl[0], hl[1], hl[2], nn))
  {
    var raw := Send(cl, tp, thm, dc, hp, ten, diem, hk, hl, nn);
    assert ValidateRest(raw) == Success(Rest(dc, hp, ten, diem, hk[0], hk[1], hk[2], hl[0], hl[1], hl[2], nn));
  }

  /** What every validated request satisfies. */
  predicate Normalised(u: UserInputL2) {
    u.tinhTp == Strip(u.tinhTp) && u.toHopMon == Upper(u.toHopMon) && u.toHopMon == Strip(u.toHopMon)
  }

  /** A stripped text stays stripped when upper-cased. */
  lemma UpperStripped(t: string)
    ensures Strip(Upper(Strip(t))) == Upper(Strip(t))
  {
    var s := Strip(t);
    StripEnds(t);
    if |s| > 0 {
      UpperKeepsSpaces(s[0]);
      UpperKeepsSpaces(s[|s| - 1]);
    }
    StripUnchanged(Upper(s));
  }

  /** What `norm_thm` returns is upper-case and stripped. */
  lemma ThmNormalised(t: string)
    ensures var s := Upper(Strip(t)); s == Upper(s) && s == Strip(s)
  {
    UpperStripped(t);
    UpperIdempotent(Strip(t));
  }

  /** The two normalised fields of a validated request. */
  lemma {:induction false} ValidatedTexts(raw: RawL2)
    requires ValidateL2(raw).Success?
    ensures raw.tinhTp.Some? && raw.tinhTp.value.Some? && raw.toHopMon.Some? && raw.toHopMon.value.Some?
    ensures ValidateL2(raw).value.tinhTp == Strip(raw.tinhTp.value.value)
    ensures ValidateL2(raw).value.toHopMon == Upper(Strip(raw.toHopMon.value.value))
  {
  }

  /** The province and the combination are stored normalised. */
  lemma {:induction false} ValidateL2Normalised(raw: RawL2)
    requires ValidateL2(raw).Success?
    ensures Normalised(ValidateL2(raw).value)
  {
    ValidatedTexts(raw);
    StripIdempotent(raw.tinhTp.value.value);
    ThmNormalised(raw.toHopMon.value.value);
  }

  /** `norm_thm` is idempotent. */
  lemma NormThmIdempotent(v: Option<string>)
    ensures NormThm(NormThm(v)) == NormThm(v)
  {
    if v.Some? {
      ThmNormalised(v.value);
    }
  }

  /** `norm_tinh_tp` is idempotent. */
  lemma NormTinhTpIdempotent(v: Option<string>)
    ensures NormTinhTp(NormTinhTp(v)) == NormTinhTp(v)
  {
    L1Schema.NormTinhTpIdempotent(v);
  }

  /** After validation the province test is membership of the stripped raw name. */
  lemma {:induction false} ValidProvinceIsMembership(raw: RawL2)
    requires ValidateL2(raw).Success?
    ensures IsTinhTpValid(ValidateL2(raw).value) <==> Strip(raw.tinhTp.value.value) in Constants.TinhTP
  {
    ValidatedTexts(raw);
    StripIdempotent(raw.tinhTp.value.value);
  }
}
