/** The priority-admission request `UserInputL1` (src/services/l1/schema.py):
    its field validators, the checks pydantic applies to their results, and
    the province test `is_tinh_tp_valid`.

    A raw field is `Option<...>`: `None` when the request omits it. Numeric
    fields arrive as JSON values; text fields as the `str()` text of the value
    (`None` for JSON null). `HSGSubject` and `NhomNganh` are enumerations whose
    values are not part of this model; their value sets are parameters. */
module L1Schema {
  import opened Wrappers
  import opened Text
  import opened Values
  import Constants

  datatype FieldError = FieldError(field: string, reason: string)

  datatype RawL1 = RawL1(
    congLap: Option<Value>,
    tinhTp: Option<Option<string>>,
    hocPhi: Option<Value>,
    hsg1: Option<Option<string>>,
    hsg2: Option<Option<string>>,
    hsg3: Option<Option<string>>,
    ahld: Option<Value>,
    danTocThieuSo: Option<Value>,
    haimuoiHuyenNgheo: Option<Value>,
    nhomNganh: Option<Option<string>>)

  /** A validated request. */
  datatype UserInputL1 = UserInputL1(
    congLap: int,
    tinhTp: string,
    hocPhi: real,
    hsg1: Option<string>,
    hsg2: Option<string>,
    hsg3: Option<string>,
    ahld: int,
    danTocThieuSo: int,
    haimuoiHuyenNgheo: int,
    nhomNganh: string)

  /** `_coerce_cong_lap`. */
  function CoerceCongLap(v: Value): (r: Result<int, string>)
    ensures v.Null? || Blank(v) ==> r == Failure("cong_lap is required (0 or 1)")
    ensures r.Success? <==> !v.Null? && !Blank(v) && PyInt(v).Success? && PyInt(v).value in {0, 1}
    ensures r.Success? ==> r.value == PyInt(v).value && (r.value == 0 || r.value == 1)
  {
    if v.Null? || Blank(v) then Failure("cong_lap is required (0 or 1)")
    else match PyInt(v)
      case Failure(_) => Failure("invalid literal for int()")
      case Success(iv) => if iv != 0 && iv != 1 then Failure("cong_lap must be 0 or 1") else Success(iv)
  }

  /** `_coerce_hoc_phi`. */
  function CoerceHocPhi(v: Value): (r: Result<real, string>)
    ensures r.Success? <==> PyFloat(v).Success? && PyFloat(v).value >= 0.0
    ensures r.Success? ==> r.value == PyFloat(v).value && r.value >= 0.0
  {
    match PyFloat(v)
    case Failure(_) => Failure("could not convert to float")
    case Success(fv) => if fv < 0.0 then Failure("hoc_phi must be >= 0") else Success(fv)
  }

  /** `_norm_hsg`. */
  function NormHsg(v: Option<string>): (r: Option<string>)
    ensures v.None? <==> r.None?
    ensures v.Some? && (Strip(v.value) == "" || Strip(v.value) == "0") ==> r == Some("0")
    ensures v.Some? && Strip(v.value) != "" && Strip(v.value) != "0" ==> r == Some(Strip(v.value))
  {
    match v
    case None => None
    case Some(x) =>
      var s := Strip(x);
      if s == "" || s == "0" then Some("0") else Some(s)
  }

  /** `_coerce_flag`. */
  function CoerceFlag(v: Value): (r: Result<int, string>)
    ensures r.Success? <==> PyInt(v).Success? && PyInt(v).value in {0, 1}
    ensures r.Success? ==> r.value == PyInt(v).value
  {
    match PyInt(v)
    case Failure(_) => Failure("invalid literal for int()")
    case Success(iv) => if iv != 0 && iv != 1 then Failure("flag must be 0 or 1") else Success(iv)
  }

  /** `norm_tinh_tp`. */
  function NormTinhTp(v: Option<string>): (r: Option<string>)
    ensures v.None? <==> r.None?
    ensures v.Some? ==> r == Some(Strip(v.value))
  {
    match v
    case None => None
    case Some(x) => Some(Strip(x))
  }

  /** `is_tinh_tp_valid`. */
  predicate IsTinhTpValid(u: UserInputL1) {
    Constants.IsProvince(Strip(u.tinhTp))
  }

  /** The field `hsg_k`: an omitted field takes its default `None` without the
      validator running; the result must be `None`, `"0"` or an `HSGSubject`. */
  function ValidateHsg(name: string, raw: Option<Option<string>>, subjects: set<string>)
    : (r: Result<Option<string>, FieldError>)
    ensures r.Success? ==> HsgOk(r.value, subjects)
    ensures raw.None? ==> r == Success(None)
    ensures raw.Some? ==> (r.Success? <==> HsgOk(NormHsg(raw.value), subjects))
    ensures raw.Some? && r.Success? ==> r.value == NormHsg(raw.value)
    ensures raw.Some? && HsgOk(raw.value, subjects) ==> r == Success(raw.value)
  {
    NormHsgStripped(raw.GetOr(None));
    if raw.None? then Success(None)
    else
      var h := NormHsg(raw.value);
      if h.None? || h.value == "0" || h.value in subjects then Success(h)
      else Failure(FieldError(name, "not a valid HSGSubject"))
  }

  /** A priority flag: an omitted flag takes its default 0, otherwise `_coerce_flag`. */
  function ValidateFlag(name: string, raw: Option<Value>): (r: Result<int, FieldError>)
    ensures r.Success? ==> r.value == 0 || r.value == 1
    ensures raw.None? ==> r == Success(0)
    ensures raw.Some? ==> (r.Success? <==> PyInt(raw.value).Success? && PyInt(raw.value).value in {0, 1})
    ensures raw.Some? && r.Success? ==> r.value == PyInt(raw.value).value
    ensures r.Failure? ==> r.error.field == name
  {
    if raw.None? then Success(0)
    else match CoerceFlag(raw.value)
      case Failure(msg) => Failure(FieldError(name, msg))
      case Success(iv) => Success(iv)
  }

  /** `cong_lap`: required, then `_coerce_cong_lap`. */
  function ValidateCongLap(raw: Option<Value>): (r: Result<int, FieldError>)
    ensures r.Success? ==> r.value == 0 || r.value == 1
    ensures raw.None? ==> r.Failure?
    ensures raw.Some? ==>
      (r.Success? <==> !raw.value.Null? && !Blank(raw.value) && PyInt(raw.value).Success? && PyInt(raw.value).value in {0, 1})
    ensures raw.Some? && r.Success? ==> r.value == PyInt(raw.value).value
    ensures raw.Some? && raw.value.Int? ==> (r.Success? <==> raw.value.i in {0, 1})
  {
    if raw.None? then Failure(FieldError("cong_lap", "field required"))
    else match CoerceCongLap(raw.value)
      case Failure(msg) => Failure(FieldError("cong_lap", msg))
      case Success(iv) => Success(iv)
  }

  function ValidateTinhTp(raw: Option<Option<string>>): (r: Result<string, FieldError>)
    ensures r.Success? <==> raw.Some? && raw.value.Some?
    ensures r.Success? ==> r.value == Strip(raw.value.value) && r.value == Strip(r.value)
  {
    StripIdempotent(raw.GetOr(None).GetOr(""));
    if raw.None? then Failure(FieldError("tinh_tp", "field required"))
    else match NormTinhTp(raw.value)
      case None => Failure(FieldError("tinh_tp", "input should be a valid string"))
      case Some(s) => Success(s)
  }

  function ValidateHocPhi(raw: Option<Value>): (r: Result<real, FieldError>)
    ensures r.Success? ==> r.value >= 0.0
    ensures raw.None? ==> r.Failure?
    ensures raw.Some? ==> (r.Success? <==> PyFloat(raw.value).Success? && PyFloat(raw.value).value >= 0.0)
    ensures raw.Some? && r.Success? ==> r.value == PyFloat(raw.value).value
    ensures raw.Some? && raw.value.Float? ==> (r.Success? <==> raw.value.x >= 0.0)
    ensures r.Success? && raw.Some? && raw.value.Float? ==> r.value == raw.value.x
  {
    if raw.None? then Failure(FieldError("hoc_phi", "field required"))
    else match CoerceHocPhi(raw.value)
      case Failure(msg) => Failure(FieldError("hoc_phi", msg))
      case Success(x) => Success(x)
  }

  function ValidateNhomNganh(raw: Option<Option<string>>, groups: set<string>): (r: Result<string, FieldError>)
    ensures r.Success? <==> raw.Some? && raw.value.Some? && raw.value.value in groups
    ensures r.Success? ==> r.value == raw.value.value
  {
    if raw.None? || raw.value.None? then Failure(FieldError("nhom_nganh", "field required"))
    else if raw.value.value in groups then Success(raw.value.value)
    else Failure(FieldError("nhom_nganh", "not a valid NhomNganh"))
  }

  /** Constructing `UserInputL1`: the fields in declaration order; the first
      failing field is reported. It accepts exactly when every field does,
      each field of the result is its own validator's value, and everything
      it accepts is `Valid`. */
  function ValidateL1(raw: RawL1, subjects: set<string>, groups: set<string>)
    : (r: Result<UserInputL1, FieldError>)
    ensures r.Success? <==>
      && ValidateCongLap(raw.congLap).Success?
      && ValidateTinhTp(raw.tinhTp).Success?
      && ValidateHocPhi(raw.hocPhi).Success?
      && ValidateHsg("hsg_1", raw.hsg1, subjects).Success?
      && ValidateHsg("hsg_2", raw.hsg2, subjects).Success?
      && ValidateHsg("hsg_3", raw.hsg3, subjects).Success?
      && ValidateFlag("ahld", raw.ahld).Success?
      && ValidateFlag("dan_toc_thieu_so", raw.danTocThieuSo).Success?
      && ValidateFlag("haimuoi_huyen_ngheo_tnb", raw.haimuoiHuyenNgheo).Success?
      && ValidateNhomNganh(raw.nhomNganh, groups).Success?
    ensures r.Success? ==> r.value == UserInputL1(
      ValidateCongLap(raw.congLap).value,
      ValidateTinhTp(raw.tinhTp).value,
      ValidateHocPhi(raw.hocPhi).value,
      ValidateHsg("hsg_1", raw.hsg1, subjects).value,
      ValidateHsg("hsg_2", raw.hsg2, subjects).value,
      ValidateHsg("hsg_3", raw.hsg3, subjects).value,
      ValidateFlag("ahld", raw.ahld).value,
      ValidateFlag("dan_toc_thieu_so", raw.danTocThieuSo).value,
      ValidateFlag("haimuoi_huyen_ngheo_tnb", raw.haimuoiHuyenNgheo).value,
      ValidateNhomNganh(raw.nhomNganh, groups).value)
    ensures r.Success? ==> Valid(r.value, subjects, groups)
    ensures ValidateCongLap(raw.congLap).Failure? ==> r == Failure(ValidateCongLap(raw.congLap).error)
  {
    var congLap :- ValidateCongLap(raw.congLap);
    var tinhTp :- ValidateTinhTp(raw.tinhTp);
    var hocPhi :- ValidateHocPhi(raw.hocPhi);
    var hsg1 :- ValidateHsg("hsg_1", raw.hsg1, subjects);
    var hsg2 :- ValidateHsg("hsg_2", raw.hsg2, subjects);
    var hsg3 :- ValidateHsg("hsg_3", raw.hsg3, subjects);
    var ahld :- ValidateFlag("ahld", raw.ahld);
    var dtts :- ValidateFlag("dan_toc_thieu_so", raw.danTocThieuSo);
    var hm :- ValidateFlag("haimuoi_huyen_ngheo_tnb", raw.haimuoiHuyenNgheo);
    var nhomNganh :- ValidateNhomNganh(raw.nhomNganh, groups);
    Success(UserInputL1(congLap, tinhTp, hocPhi, hsg1, hsg2, hsg3, ahld, dtts, hm, nhomNganh))
  }

  /** An olympiad field as `_norm_hsg` and the field type leave it. */
  predicate HsgOk(h: Option<string>, subjects: set<string>) {
    h.Some? ==> h.value != "" && h.value == Strip(h.value) && (h.value == "0" || h.value in subjects)
  }

  /** What every validated request satisfies. */
  predicate Valid(u: UserInputL1, subjects: set<string>, groups: set<string>) {
    && (u.congLap == 0 || u.congLap == 1)
    && u.tinhTp == Strip(u.tinhTp)
    && u.hocPhi >= 0.0
    && HsgOk(u.hsg1, subjects) && HsgOk(u.hsg2, subjects) && HsgOk(u.hsg3, subjects)
    && (u.ahld == 0 || u.ahld == 1)
    && (u.danTocThieuSo == 0 || u.danTocThieuSo == 1)
    && (u.haimuoiHuyenNgheo == 0 || u.haimuoiHuyenNgheo == 1)
    && u.nhomNganh in groups
  }

  /** The request as `model_dump()` gives it back. */
  function Dump(u: UserInputL1): RawL1 {
    RawL1(Some(Int(u.congLap)), Some(Some(u.tinhTp)), Some(Float(u.hocPhi)),
          Some(u.hsg1), Some(u.hsg2), Some(u.hsg3),
          Some(Int(u.ahld)), Some(Int(u.danTocThieuSo)), Some(Int(u.haimuoiHuyenNgheo)),
          Some(Some(u.nhomNganh)))
  }

  lemma NormHsgStripped(v: Option<string>)
    ensures NormHsg(v).Some? ==> NormHsg(v).value != "" && NormHsg(v).value == Strip(NormHsg(v).value)
  {
    if v.Some? {
      var s := Strip(v.value);
      if s != "" && s != "0" {
        StripIdempotent(v.value);
        assert NormHsg(v) == Some(s);
      } else {
        assert NormHsg(v) == Some("0");
        StripUnchanged("0");
      }
    }
  }

  /** Validating the dump of a valid request gives the same request back:
      every validator is a fixpoint on the values it produces. */
  lemma {:induction false} ValidateDumpRoundTrip(u: UserInputL1, subjects: set<string>, groups: set<string>)
    requires Valid(u, subjects, groups)
    ensures ValidateL1(Dump(u), subjects, groups) == Success(u)
  {
    assert ValidateCongLap(Some(Int(u.congLap))) == Success(u.congLap);
    assert ValidateTinhTp(Some(Some(u.tinhTp))) == Success(u.tinhTp);
    assert ValidateHocPhi(Some(Float(u.hocPhi))) == Success(u.hocPhi);
    assert ValidateHsg("hsg_1", Some(u.hsg1), subjects) == Success(u.hsg1);
    assert ValidateHsg("hsg_2", Some(u.hsg2), subjects) == Success(u.hsg2);
    assert ValidateHsg("hsg_3", Some(u.hsg3), subjects) == Success(u.hsg3);
    assert ValidateFlag("ahld", Some(Int(u.ahld))) == Success(u.ahld);
    assert ValidateFlag("dan_toc_thieu_so", Some(Int(u.danTocThieuSo))) == Success(u.danTocThieuSo);
    assert ValidateFlag("haimuoi_huyen_ngheo_tnb", Some(Int(u.haimuoiHuyenNgheo))) == Success(u.haimuoiHuyenNgheo);
    assert ValidateNhomNganh(Some(Some(u.nhomNganh)), groups) == Success(u.nhomNganh);
  }

  /** `_norm_hsg` is idempotent. */
  lemma NormHsgIdempotent(v: Option<string>)
    ensures NormHsg(NormHsg(v)) == NormHsg(v)
  {
    NormHsgStripped(v);
  }

  /** `norm_tinh_tp` is idempotent. */
  lemma NormTinhTpIdempotent(v: Option<string>)
    ensures NormTinhTp(NormTinhTp(v)) == NormTinhTp(v)
  {
    if v.Some? {
      StripIdempotent(v.value);
    }
  }

  /** After validation the province test is membership of the stripped raw name. */
  lemma {:induction false} ValidProvinceIsMembership(raw: RawL1, subjects: set<string>, groups: set<string>)
    requires ValidateL1(raw, subjects, groups).Success?
    ensures var u := ValidateL1(raw, subjects, groups).value;
      u.tinhTp == Strip(raw.tinhTp.value.value) &&
      (IsTinhTpValid(u) <==> Strip(raw.tinhTp.value.value) in Constants.TinhTP)
  {
    var u := ValidateL1(raw, subjects, groups).value;
    var x := raw.tinhTp.value.value;
    assert u.tinhTp == Strip(x);
    StripIdempotent(x);
    assert Strip(u.tinhTp) == Strip(x);
  }
}
