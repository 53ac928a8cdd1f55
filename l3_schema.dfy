/** The transcript-scoring request `UserInputL3` (src/services/l3/schema.py):
    the subject grades of school years 10, 11 and 12 (`HocBa`, học bạ), the
    optional national-award and English-certificate entries, and the checks
    pydantic applies to every field.

    A grade object arrives as a JSON object, modelled as a map from key to
    value; keys that are not `Grade` attributes are ignored, as pydantic
    does by default. A raw field is `None` when the request omits it. */
module L3Schema {
  import opened Wrappers
  import opened Text
  import opened Values
  import Constants
  import L1Schema
  import Seqs

  type FieldError = L1Schema.FieldError

  /** The attributes of `Grade`, in declaration order; the first
      `RequiredCount` of them have no default. */
  const GradeFields: seq<string> :=
    ["toan", "ly", "hoa", "van", "anh", "sinh", "su", "dia", "tin", "gdkt_pl", "ve_tt", "ve_dt"]
  const RequiredCount: nat := 5

  /** The position of `name` among the attributes, `|GradeFields|` if it is none of them. */
  function FieldIndex(name: string): (k: nat)
    ensures k <= |GradeFields|
    ensures k < |GradeFields| ==> GradeFields[k] == name
    ensures forall j :: 0 <= j < k ==> GradeFields[j] != name
  {
    FieldIndexFrom(name, 0)
  }

  function FieldIndexFrom(name: string, j: nat): (k: nat)
    requires j <= |GradeFields|
    requires forall i :: 0 <= i < j ==> GradeFields[i] != name
    decreases |GradeFields| - j
    ensures j <= k <= |GradeFields|
    ensures k < |GradeFields| ==> GradeFields[k] == name
    ensures forall i :: 0 <= i < k ==> GradeFields[i] != name
  {
    if j == |GradeFields| || GradeFields[j] == name then j else FieldIndexFrom(name, j + 1)
  }

  /** A `Grade` instance: the value of each attribute, in declaration order. */
  datatype Grade = Grade(scores: seq<Option<real>>)

  /** `getattr(grade, name, None)` for a name that is an attribute or no name at all. */
  function Score(g: Grade, name: string): Option<real> {
    var k := FieldIndex(name);
    if k < |g.scores| then g.scores[k] else None
  }

  datatype HocBa = HocBa(grade10: Grade, grade11: Grade, grade12: Grade)
  datatype AwardQG = AwardQG(subject: string, level: int)
  datatype AwardEnglish = AwardEnglish(level: string)

  datatype UserInputL3 = UserInputL3(
    congLap: int,
    tinhTp: string,
    hocPhi: real,
    hocBa: HocBa,
    awardQg: Option<AwardQG>,
    awardEnglish: Option<AwardEnglish>,
    nhomNganh: string)

  type RawGrade = map<string, Value>

  /** A nested object: `None` when the key is missing or its value is not an object. */
  datatype RawHocBa = RawHocBa(grade10: Option<RawGrade>, grade11: Option<RawGrade>, grade12: Option<RawGrade>)
  datatype RawAwardQG = RawAwardQG(subject: Option<Value>, level: Option<Value>)
  datatype RawAwardEnglish = RawAwardEnglish(level: Option<Value>)

  /** An optional nested object as the request gives it: the key is
      missing, its value is JSON null, some other non-object value, or an
      object. */
  datatype RawNested<T> = Omitted | NullGiven | NotObject(v: Value) | Object(obj: T)

  /** The request body. */
  datatype RawL3 = RawL3(
    congLap: Option<Value>,
    tinhTp: Option<Option<string>>,
    hocPhi: Option<Value>,
    hocBa: Option<RawHocBa>,
    awardQg: RawNested<RawAwardQG>,
    awardEnglish: RawNested<RawAwardEnglish>,
    nhomNganh: Option<Option<string>>)

  /** The levels the pattern `^(A1|A2|B1|B2|C1|C2)$` accepts. */
  const EnglishLevels: set<string> := {"A1", "A2", "B1", "B2", "C1", "C2"}

  predicate InGradeRange(x: Option<real>) {
    x.Some? ==> 0.0 <= x.value <= 10.0
  }

  /** Whether one `Optional[float]` attribute with `ge=0, le=10` accepts the
      object's entry for it. */
  predicate ScoreOk(raw: RawGrade, name: string, required: bool) {
    if name in raw then raw[name].Null? || (LaxFloat(raw[name]).Some? && InGradeRange(LaxFloat(raw[name])))
    else !required
  }

  /** The attribute value an accepted entry gives. */
  function Expected(raw: RawGrade, name: string): Option<real> {
    if name in raw then LaxFloat(raw[name]) else None
  }

  function ValidateScore(name: string, raw: RawGrade, required: bool): (r: Result<Option<real>, FieldError>)
    ensures r.Success? <==> ScoreOk(raw, name, required)
    ensures r.Success? ==> r.value == Expected(raw, name) && InGradeRange(r.value)
  {
    if name !in raw then
      if required then Failure(L1Schema.FieldError(name, "field required")) else Success(None)
    else if raw[name].Null? then Success(None)
    else match LaxFloat(raw[name])
      case None => Failure(L1Schema.FieldError(name, "input should be a valid number"))
      case Some(x) =>
        if x < 0.0 then Failure(L1Schema.FieldError(name, "input should be greater than or equal to 0"))
        else if x > 10.0 then Failure(L1Schema.FieldError(name, "input should be less than or equal to 10"))
        else Success(Some(x))
  }

  /** The attributes are accepted exactly when each one is, and each then
      holds the number sent, in [0, 10]. */
  lemma ValidateScores(raw: RawGrade, check: (string, int) -> Result<Option<real>, FieldError>)
    requires forall name, i :: check(name, i) == ValidateScore(name, raw, i < RequiredCount)
    ensures var r := Seqs.TraverseIndexed(GradeFields, |GradeFields|, check);
      && (r.Success? <==> forall i :: 0 <= i < |GradeFields| ==> ScoreOk(raw, GradeFields[i], i < RequiredCount))
      && (r.Success? ==>
            && |r.value| == |GradeFields|
            && forall i :: 0 <= i < |GradeFields| ==> r.value[i] == Expected(raw, GradeFields[i]) && InGradeRange(r.value[i]))
  {
    Seqs.TraverseSuccess(GradeFields, |GradeFields|, check);
  }

  /** A grade is accepted exactly when every attribute without a default is
      present and every present attribute is null or a number in [0, 10];
      each attribute then holds the number sent. */
  function ValidateGrade(raw: Option<RawGrade>): (r: Result<Grade, FieldError>)
    ensures r.Success? <==> raw.Some? && forall i :: 0 <= i < |GradeFields| ==> ScoreOk(raw.value, GradeFields[i], i < RequiredCount)
    ensures r.Success? ==> GradeValid(r.value)
    ensures r.Success? ==> forall i :: 0 <= i < |GradeFields| ==> r.value.scores[i] == Expected(raw.value, GradeFields[i])
  {
    if raw.None? then Failure(L1Schema.FieldError("hoc_ba", "input should be a valid dictionary"))
    else
      // The attributes in declaration order; the first failing one is reported.
      var check := (name: string, i: int) => ValidateScore(name, raw.value, i < RequiredCount);
      ValidateScores(raw.value, check);
      var scores :- Seqs.TraverseIndexed(GradeFields, |GradeFields|, check);
      Success(Grade(scores))
  }

  function ValidateHocBa(raw: Option<RawHocBa>): (r: Result<HocBa, FieldError>)
    ensures r.Success? ==> HocBaValid(r.value)
    ensures r.Success? <==>
      && raw.Some?
      && ValidateGrade(raw.value.grade10).Success?
      && ValidateGrade(raw.value.grade11).Success?
      && ValidateGrade(raw.value.grade12).Success?
    ensures r.Success? ==> r.value == HocBa(
      ValidateGrade(raw.value.grade10).value,
      ValidateGrade(raw.value.grade11).value,
      ValidateGrade(raw.value.grade12).value)
  {
    if raw.None? then Failure(L1Schema.FieldError("hoc_ba", "field required"))
    else
      var g10 :- ValidateGrade(raw.value.grade10);
      var g11 :- ValidateGrade(raw.value.grade11);
      var g12 :- ValidateGrade(raw.value.grade12);
      Success(HocBa(g10, g11, g12))
  }

  /** `Optional[AwardQG] = None`: omitted and `null` give `None`; any other
      non-object is refused; an object needs a string subject and an integer
      level from 1 to 4. */
  function ValidateAwardQg(raw: RawNested<RawAwardQG>): (r: Result<Option<AwardQG>, FieldError>)
    ensures r.Success? && r.value.Some? ==> 1 <= r.value.value.level <= 4
    ensures raw.Omitted? || raw.NullGiven? ==> r == Success(None)
    ensures raw.NotObject? ==> r.Failure?
    ensures raw.Object? ==>
      (r.Success? <==> var a := raw.obj;
        a.subject.Some? && a.subject.value.Str? && a.level.Some? && LaxInt(a.level.value).Some?
        && 1 <= LaxInt(a.level.value).value <= 4)
    ensures raw.Object? && r.Success? ==>
      r.value == Some(AwardQG(raw.obj.subject.value.s, LaxInt(raw.obj.level.value).value))
  {
    match raw
    case Omitted => Success(None)
    case NullGiven => Success(None)
    case NotObject(_) => Failure(L1Schema.FieldError("award_qg", "input should be a valid dictionary"))
    case Object(a) =>
      if a.subject.None? then Failure(L1Schema.FieldError("award_qg.subject", "field required"))
      else if !a.subject.value.Str? then Failure(L1Schema.FieldError("award_qg.subject", "input should be a valid string"))
      else if a.level.None? then Failure(L1Schema.FieldError("award_qg.level", "field required"))
      else match LaxInt(a.level.value)
        case None => Failure(L1Schema.FieldError("award_qg.level", "input should be a valid integer"))
        case Some(l) =>
          if l < 1 || l > 4 then Failure(L1Schema.FieldError("award_qg.level", "input should be between 1 and 4"))
          else Success(Some(AwardQG(a.subject.value.s, l)))
  }

  /** `Optional[AwardEnglish] = None`: omitted and `null` give `None`; any
      other non-object is refused; an object needs a string level matching
      the pattern exactly. */
  function ValidateAwardEnglish(raw: RawNested<RawAwardEnglish>): (r: Result<Option<AwardEnglish>, FieldError>)
    ensures r.Success? && r.value.Some? ==> r.value.value.level in EnglishLevels
    ensures raw.Omitted? || raw.NullGiven? ==> r == Success(None)
    ensures raw.NotObject? ==> r.Failure?
    ensures raw.Object? ==>
      (r.Success? <==> var l := raw.obj.level; l.Some? && l.value.Str? && l.value.s in EnglishLevels)
    ensures raw.Object? && r.Success? ==> r.value == Some(AwardEnglish(raw.obj.level.value.s))
  {
    match raw
    case Omitted => Success(None)
    case NullGiven => Success(None)
    case NotObject(_) => Failure(L1Schema.FieldError("award_english", "input should be a valid dictionary"))
    case Object(a) =>
      var l := a.level;
      if l.None? then Failure(L1Schema.FieldError("award_english.level", "field required"))
      else if !l.value.Str? then Failure(L1Schema.FieldError("award_english.level", "input should be a valid string"))
      else if l.value.s !in EnglishLevels then Failure(L1Schema.FieldError("award_english.level", "string should match pattern"))
      else Success(Some(AwardEnglish(l.value.s)))
  }

  /** `_v_cong_lap` (`int(v)`, then a test for 0 or 1) on a provided value:
      what `int()` cannot convert is refused too. */
  function CoerceCongLap(raw: Option<Value>): (r: Result<int, FieldError>)
    ensures r.Success? <==> raw.Some? && PyInt(raw.value).Success? && PyInt(raw.value).value in {0, 1}
    ensures r.Success? ==> r.value == PyInt(raw.value).value
  {
    if raw.None? then Failure(L1Schema.FieldError("cong_lap", "field required"))
    else match PyInt(raw.value)
      case Failure(_) => Failure(L1Schema.FieldError("cong_lap", "invalid literal for int()"))
      case Success(iv) =>
        if iv != 0 && iv != 1 then Failure(L1Schema.FieldError("cong_lap", "cong_lap must be 0 or 1"))
        else Success(iv)
  }

  /** `hoc_phi: float = Field(..., ge=0)`. */
  function ValidateHocPhi(raw: Option<Value>): (r: Result<real, FieldError>)
    ensures r.Success? <==> raw.Some? && LaxFloat(raw.value).Some? && LaxFloat(raw.value).value >= 0.0
    ensures r.Success? ==> r.value == LaxFloat(raw.value).value
  {
    if raw.None? then Failure(L1Schema.FieldError("hoc_phi", "field required"))
    else match LaxFloat(raw.value)
      case None => Failure(L1Schema.FieldError("hoc_phi", "input should be a valid number"))
      case Some(x) =>
        if x < 0.0 then Failure(L1Schema.FieldError("hoc_phi", "input should be greater than or equal to 0"))
        else Success(x)
  }

  /** Constructing `UserInputL3`: the fields in declaration order; the first
      failing field is reported. `groups` is the value set of `NhomNganh`. */
  function ValidateL3(raw: RawL3, groups: set<string>): (r: Result<UserInputL3, FieldError>)
    ensures r.Success? ==> raw.tinhTp.Some? && raw.tinhTp.value.Some? && r.value.tinhTp == Strip(raw.tinhTp.value.value)
    ensures r.Success? ==> Valid(r.value, groups)
    ensures raw.awardQg.NotObject? || raw.awardEnglish.NotObject? ==> r.Failure?
    ensures r.Success? <==>
      && CoerceCongLap(raw.congLap).Success?
      && L1Schema.ValidateTinhTp(raw.tinhTp).Success?
      && ValidateHocPhi(raw.hocPhi).Success?
      && ValidateHocBa(raw.hocBa).Success?
      && ValidateAwardQg(raw.awardQg).Success?
      && ValidateAwardEnglish(raw.awardEnglish).Success?
      && L1Schema.ValidateNhomNganh(raw.nhomNganh, groups).Success?
    ensures r.Success? ==> r.value == UserInputL3(
      CoerceCongLap(raw.congLap).value,
      L1Schema.ValidateTinhTp(raw.tinhTp).value,
      ValidateHocPhi(raw.hocPhi).value,
      ValidateHocBa(raw.hocBa).value,
      ValidateAwardQg(raw.awardQg).value,
      ValidateAwardEnglish(raw.awardEnglish).value,
      L1Schema.ValidateNhomNganh(raw.nhomNganh, groups).value)
  {
    StripIdempotent(raw.tinhTp.GetOr(None).GetOr(""));
    var congLap :- CoerceCongLap(raw.congLap);
    var tinhTp :- L1Schema.ValidateTinhTp(raw.tinhTp);
    var hocPhi :- ValidateHocPhi(raw.hocPhi);
    var hocBa :- ValidateHocBa(raw.hocBa);
    var awardQg :- ValidateAwardQg(raw.awardQg);
    var awardEnglish :- ValidateAwardEnglish(raw.awardEnglish);
    var nhomNganh :- L1Schema.ValidateNhomNganh(raw.nhomNganh, groups);
    Success(UserInputL3(congLap, tinhTp, hocPhi, hocBa, awardQg, awardEnglish, nhomNganh))
  }

  /** `is_tinh_tp_valid`. */
  predicate IsTinhTpValid(u: UserInputL3) {
    Constants.IsProvince(Strip(u.tinhTp))
  }

  /** A grade every validated request holds: exactly the attributes of
      `Grade`, each `None` or in [0, 10]. */
  predicate GradeValid(g: Grade) {
    |g.scores| == |GradeFields| && forall i :: 0 <= i < |g.scores| ==> InGradeRange(g.scores[i])
  }

  predicate HocBaValid(h: HocBa) {
    GradeValid(h.grade10) && GradeValid(h.grade11) && GradeValid(h.grade12)
  }

  /** What every validated request satisfies. */
  predicate Valid(u: UserInputL3, groups: set<string>) {
    && (u.congLap == 0 || u.congLap == 1)
    && u.tinhTp == Strip(u.tinhTp)
    && u.hocPhi >= 0.0
    && HocBaValid(u.hocBa)
    && (u.awardQg.Some? ==> 1 <= u.awardQg.value.level <= 4)
    && (u.awardEnglish.Some? ==> u.awardEnglish.value.level in EnglishLevels)
    && u.nhomNganh in groups
  }

  /** After validation the province test is membership of the stripped raw name. */
  lemma {:induction false} ValidProvinceIsMembership(raw: RawL3, groups: set<string>)
    requires ValidateL3(raw, groups).Success?
    ensures var u := ValidateL3(raw, groups).value;
      u.tinhTp == Strip(raw.tinhTp.value.value) &&
      (IsTinhTpValid(u) <==> Strip(raw.tinhTp.value.value) in Constants.TinhTP)
  {
    StripIdempotent(raw.tinhTp.value.value);
  }
}
