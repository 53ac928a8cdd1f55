/** Priority-variant expansion (src/services/l1/preprocess.py): `pick_hsg`
    and `clean_and_cast_L1`. A request with several priority signals becomes
    one row per signal, each row with only that signal set; a request with
    none becomes a single "none" row. */
module L1Preprocess {
  import opened Wrappers
  import opened Text
  import opened L1Schema
  import Seqs

  /** A row of the frame once the `hsg_subject` column has been added. */
  datatype VariantRow = VariantRow(
    congLap: int,
    tinhTp: string,
    hocPhi: real,
    hsg1: Option<string>,
    hsg2: Option<string>,
    hsg3: Option<string>,
    ahld: int,
    danTocThieuSo: int,
    haimuoiHuyenNgheo: int,
    nhomNganh: string,
    hsgSubject: string)

  /** The three binary priority columns, in the order the source visits them. */
  datatype Flag = Ahld | DanTocThieuSo | HaimuoiHuyenNgheo

  const Flags: seq<Flag> := [Ahld, DanTocThieuSo, HaimuoiHuyenNgheo]

  function FlagValue(r: VariantRow, f: Flag): int {
    match f
    case Ahld => r.ahld
    case DanTocThieuSo => r.danTocThieuSo
    case HaimuoiHuyenNgheo => r.haimuoiHuyenNgheo
  }

  /** The test `pick_hsg` applies to one `hsg_k` value; note that the "0"
      comparison is on the unstripped text. */
  predicate Picks(v: Option<string>) {
    v.Some? && Strip(v.value) != "" && v.value != "0"
  }

  /** The loop of `pick_hsg` over the given values. */
  function FirstHsg(vs: seq<Option<string>>): string {
    if vs == [] then "0"
    else if Picks(vs[0]) then Strip(vs[0].value)
    else FirstHsg(vs[1..])
  }

  /** `pick_hsg` returns the stripped text of the first value that passes its
      test, and "0" when none does. */
  lemma {:induction false} FirstHsgIsFirstPick(vs: seq<Option<string>>)
    ensures (forall k :: 0 <= k < |vs| ==> !Picks(vs[k])) ==> FirstHsg(vs) == "0"
    ensures forall k :: (0 <= k < |vs| && Picks(vs[k]) && (forall j :: 0 <= j < k ==> !Picks(vs[j])))
                        ==> FirstHsg(vs) == Strip(vs[k].value)
  {
    if forall k :: 0 <= k < |vs| ==> !Picks(vs[k]) {
      FirstHsgNone(vs);
    }
    forall k | 0 <= k < |vs| && Picks(vs[k]) && (forall j :: 0 <= j < k ==> !Picks(vs[j]))
      ensures FirstHsg(vs) == Strip(vs[k].value)
    {
      FirstHsgAt(vs, k);
    }
  }

  lemma {:induction false} FirstHsgNone(vs: seq<Option<string>>)
    requires forall k :: 0 <= k < |vs| ==> !Picks(vs[k])
    ensures FirstHsg(vs) == "0"
  {
    if vs != [] {
      var t := vs[1..];
      assert !Picks(vs[0]);
      forall k | 0 <= k < |t|
        ensures !Picks(t[k])
      {
        assert t[k] == vs[k + 1];
      }
      FirstHsgNone(t);
    }
  }

  lemma {:induction false} FirstHsgAt(vs: seq<Option<string>>, k: nat)
    requires k < |vs| && Picks(vs[k])
    requires forall j :: 0 <= j < k ==> !Picks(vs[j])
    ensures FirstHsg(vs) == Strip(vs[k].value)
  {
    if k > 0 {
      var t := vs[1..];
      assert !Picks(vs[0]);
      assert t[k - 1] == vs[k];
      forall j | 0 <= j < k - 1
        ensures !Picks(t[j])
      {
        assert t[j] == vs[j + 1];
      }
      FirstHsgAt(t, k - 1);
    }
  }

  /** `pick_hsg`: the first awarded olympiad subject among `hsg_1`, `hsg_2`,
      `hsg_3`, or "0". */
  function PickHsg(u: UserInputL1): string {
    FirstHsg([u.hsg1, u.hsg2, u.hsg3])
  }

  /** On a validated request the picked subject is "0" or an allowed subject,
      and it is "0" exactly when no `hsg_k` names a subject. */
  lemma PickHsgValid(u: UserInputL1, subjects: set<string>, groups: set<string>)
    requires Valid(u, subjects, groups)
    ensures PickHsg(u) == "0" || PickHsg(u) in subjects
    ensures PickHsg(u) == "0" <==> forall h :: h in [u.hsg1, u.hsg2, u.hsg3] ==> h.None? || h.value == "0"
  {
    var vs := [u.hsg1, u.hsg2, u.hsg3];
    assert forall k :: 0 <= k < |vs| ==> HsgOk(vs[k], subjects);
    FirstHsgValidated(vs, subjects);
  }

  lemma {:induction false} FirstHsgValidated(vs: seq<Option<string>>, subjects: set<string>)
    requires forall k :: 0 <= k < |vs| ==> HsgOk(vs[k], subjects)
    ensures FirstHsg(vs) == "0" || FirstHsg(vs) in subjects
    ensures FirstHsg(vs) == "0" <==> forall h :: h in vs ==> h.None? || h.value == "0"
  {
    if vs != [] {
      PicksValidated(vs[0], subjects);
      FirstHsgValidated(vs[1..], subjects);
      assert forall h :: h in vs <==> h == vs[0] || h in vs[1..];
    }
  }

  /** A validated `hsg_k` passes the `pick_hsg` test exactly when it names a subject. */
  lemma PicksValidated(h: Option<string>, subjects: set<string>)
    requires HsgOk(h, subjects)
    ensures Picks(h) <==> h.Some? && h.value != "0"
    ensures Picks(h) ==> Strip(h.value) == h.value && h.value in subjects
  {
  }

  /** Line 11: the request with its `hsg_subject` column. */
  function WithSubject(u: UserInputL1): VariantRow {
    VariantRow(u.congLap, u.tinhTp, u.hocPhi, u.hsg1, u.hsg2, u.hsg3,
               u.ahld, u.danTocThieuSo, u.haimuoiHuyenNgheo, u.nhomNganh, PickHsg(u))
  }

  /** Line 11 on a whole frame. */
  function Tagged(df: seq<UserInputL1>): (w: seq<VariantRow>)
    ensures |w| == |df|
  {
    if df == [] then [] else [WithSubject(df[0])] + Tagged(df[1..])
  }

  /** Line 17: the olympiad row with every flag cleared. */
  function ClearFlags(r: VariantRow): VariantRow {
    r.(ahld := 0, danTocThieuSo := 0, haimuoiHuyenNgheo := 0)
  }

  /** Lines 22-25: the row of flag `f`, with no subject and the other two flags cleared. */
  function OnlyFlag(r: VariantRow, f: Flag): VariantRow {
    var s := r.(hsgSubject := "0");
    match f
    case Ahld => s.(danTocThieuSo := 0, haimuoiHuyenNgheo := 0)
    case DanTocThieuSo => s.(ahld := 0, haimuoiHuyenNgheo := 0)
    case HaimuoiHuyenNgheo => s.(ahld := 0, danTocThieuSo := 0)
  }

  predicate IsNoneRow(r: VariantRow) {
    r.hsgSubject == "0" && r.ahld == 0 && r.danTocThieuSo == 0 && r.haimuoiHuyenNgheo == 0
  }

  /** Lines 37-40: the number of active signals of a row. */
  function ActiveCount(r: VariantRow): int {
    (if r.hsgSubject != "0" then 1 else 0) + r.ahld + r.danTocThieuSo + r.haimuoiHuyenNgheo
  }

  /** Line 16 with 17: the olympiad rows. */
  function HsgRows(df: seq<VariantRow>): (out: seq<VariantRow>)
    ensures |out| <= |df|
  {
    if df == [] then []
    else (if df[0].hsgSubject != "0" then [ClearFlags(df[0])] else []) + HsgRows(df[1..])
  }

  /** Lines 21-25: the rows of flag `f`. */
  function FlagRows(df: seq<VariantRow>, f: Flag): (out: seq<VariantRow>)
    ensures |out| <= |df|
  {
    if df == [] then []
    else (if FlagValue(df[0], f) == 1 then [OnlyFlag(df[0], f)] else []) + FlagRows(df[1..], f)
  }

  /** Lines 28-33: the rows with no signal at all. */
  function NoneRows(df: seq<VariantRow>): (out: seq<VariantRow>)
    ensures |out| <= |df|
  {
    if df == [] then []
    else (if IsNoneRow(df[0]) then [df[0]] else []) + NoneRows(df[1..])
  }

  /** Line 41: keep the rows with at most one active signal. */
  function KeepAtMostOne(rows: seq<VariantRow>): (out: seq<VariantRow>)
    ensures |out| <= |rows|
  {
    if rows == [] then []
    else (if ActiveCount(rows[0]) <= 1 then [rows[0]] else []) + KeepAtMostOne(rows[1..])
  }

  /** The list `rows` of frames: the olympiad part, the part of each flag in
      the order of `Flags`, and the none part. */
  function Parts(w: seq<VariantRow>): seq<seq<VariantRow>> {
    [HsgRows(w), FlagRows(w, Ahld), FlagRows(w, DanTocThieuSo), FlagRows(w, HaimuoiHuyenNgheo), NoneRows(w)]
  }

  /** The frame `clean_and_cast_L1` builds from the tagged frame `w`. */
  function ExpandTagged(w: seq<VariantRow>): seq<VariantRow> {
    KeepAtMostOne(Seqs.Concat(Parts(w)))
  }

  /** The frame `clean_and_cast_L1` returns for the request frame `df`. */
  function Expand(df: seq<UserInputL1>): seq<VariantRow> {
    ExpandTagged(Tagged(df))
  }

  /** `clean_and_cast_L1`: the subject column is computed, then the frame
      is expanded. */
  method CleanAndCast(df: seq<UserInputL1>) returns (out: seq<VariantRow>)
    ensures out == Expand(df)
  {
    var w := Tagged(df);
    out := ExpandFrame(w);
  }

  /** Lines 15-42 of `clean_and_cast_L1`: the olympiad rows, the rows of
      each flag and the none rows are appended to `rows`, and the result is
      filtered on the active count. */
  method ExpandFrame(w: seq<VariantRow>) returns (out: seq<VariantRow>)
    ensures out == ExpandTagged(w)
  {
    var rows: seq<seq<VariantRow>> := [HsgRows(w)];
    for k := 0 to |Flags|
      invariant |rows| == k + 1 && rows[0] == HsgRows(w)
      invariant forall j :: 0 <= j < k ==> rows[j + 1] == FlagRows(w, Flags[j])
    {
      rows := rows + [FlagRows(w, Flags[k])];
    }
    rows := rows + [NoneRows(w)];
    assert Flags[0] == Ahld && Flags[1] == DanTocThieuSo && Flags[2] == HaimuoiHuyenNgheo;
    assert rows[1] == FlagRows(w, Ahld) && rows[2] == FlagRows(w, DanTocThieuSo);
    assert rows[3] == FlagRows(w, HaimuoiHuyenNgheo) && rows[4] == NoneRows(w);
    assert rows == Parts(w);
    out := KeepAtMostOne(Seqs.Concat(rows));
  }

  // ---------------------------------------------------------------------
  // The expansion of one request, stated row by row.

  /** The variant rows of a tagged request row, written out case by case: an
      olympiad row if a subject was picked, the `ahld`, `dan_toc_thieu_so` and
      `haimuoi_huyen_ngheo_tnb` rows for the flags that are 1, and a none row
      if nothing is set. */
  function RowVariants(b: VariantRow): seq<VariantRow> {
    (if b.hsgSubject != "0" then [ClearFlags(b)] else [])
    + (if b.ahld == 1 then [OnlyFlag(b, Ahld)] else [])
    + (if b.danTocThieuSo == 1 then [OnlyFlag(b, DanTocThieuSo)] else [])
    + (if b.haimuoiHuyenNgheo == 1 then [OnlyFlag(b, HaimuoiHuyenNgheo)] else [])
    + (if IsNoneRow(b) then [b] else [])
  }

  /** The variant rows of one request. */
  function Variants(u: UserInputL1): seq<VariantRow> {
    RowVariants(WithSubject(u))
  }

  lemma AllRowsActiveAtMostOne(rows: seq<VariantRow>)
    requires forall i :: 0 <= i < |rows| ==> ActiveCount(rows[i]) <= 1
    ensures KeepAtMostOne(rows) == rows
  {
    if rows != [] {
      AllRowsActiveAtMostOne(rows[1..]);
    }
  }

  /** Every variant row of a tagged row carries at most one active signal. */
  lemma RowVariantsActiveAtMostOne(b: VariantRow, i: nat)
    requires i < |RowVariants(b)|
    ensures ActiveCount(RowVariants(b)[i]) <= 1
  {
    var p0 := if b.hsgSubject != "0" then [ClearFlags(b)] else [];
    var p1 := if b.ahld == 1 then [OnlyFlag(b, Ahld)] else [];
    var p2 := if b.danTocThieuSo == 1 then [OnlyFlag(b, DanTocThieuSo)] else [];
    var p3 := if b.haimuoiHuyenNgheo == 1 then [OnlyFlag(b, HaimuoiHuyenNgheo)] else [];
    var p4 := if IsNoneRow(b) then [b] else [];
    assert RowVariants(b) == p0 + p1 + p2 + p3 + p4;
    var r := RowVariants(b)[i];
    assert r in p0 || r in p1 || r in p2 || r in p3 || r in p4;
  }

  lemma FlagRowsOne(b: VariantRow, f: Flag)
    ensures FlagRows([b], f) == if FlagValue(b, f) == 1 then [OnlyFlag(b, f)] else []
  {
    assert [b][1..] == [];
  }

  lemma PartsOne(b: VariantRow)
    ensures Seqs.Concat(Parts([b])) == RowVariants(b)
  {
    var w := [b];
    assert w[1..] == [];
    var p0 := HsgRows(w);
    var p1 := FlagRows(w, Ahld);
    var p2 := FlagRows(w, DanTocThieuSo);
    var p3 := FlagRows(w, HaimuoiHuyenNgheo);
    var p4 := NoneRows(w);
    assert p0 == if b.hsgSubject != "0" then [ClearFlags(b)] else [];
    assert p4 == if IsNoneRow(b) then [b] else [];
    FlagRowsOne(b, Ahld);
    FlagRowsOne(b, DanTocThieuSo);
    FlagRowsOne(b, HaimuoiHuyenNgheo);
    Seqs.ConcatFive(p0, p1, p2, p3, p4);
  }

  /** The expansion of a one-row frame is its `RowVariants`, in the order the
      source appends the parts, and the final filter removes nothing. */
  lemma ExpandRow(b: VariantRow)
    ensures ExpandTagged([b]) == RowVariants(b)
  {
    PartsOne(b);
    var rows := RowVariants(b);
    forall i | 0 <= i < |rows|
      ensures ActiveCount(rows[i]) <= 1
    {
      RowVariantsActiveAtMostOne(b, i);
    }
    AllRowsActiveAtMostOne(rows);
  }

  /** The expansion of a one-request frame is `Variants`, and the final
      `active_cnt <= 1` filter removes nothing. */
  lemma ExpandOne(u: UserInputL1)
    ensures Expand([u]) == Variants(u)
  {
    assert Tagged([u]) == [WithSubject(u)];
    ExpandRow(WithSubject(u));
  }

  function Count(b: bool): nat {
    if b then 1 else 0
  }

  /** With flags in {0, 1}, the number of variants is the number of active
      signals, or 1 when there is none: never empty, never more than 4. */
  lemma VariantCount(u: UserInputL1)
    requires u.ahld in {0, 1} && u.danTocThieuSo in {0, 1} && u.haimuoiHuyenNgheo in {0, 1}
    ensures var n := Count(PickHsg(u) != "0") + u.ahld + u.danTocThieuSo + u.haimuoiHuyenNgheo;
      |Expand([u])| == (if n >= 1 then n else 1)
    ensures 1 <= |Expand([u])| <= 4
  {
    ExpandOne(u);
  }

  /** The structure of each variant row, and that the fields that are not
      priority signals are copied unchanged from the request. */
  lemma {:induction false} VariantRowShape(u: UserInputL1, i: nat)
    requires i < |Expand([u])|
    ensures var r := Expand([u])[i];
      && r.congLap == u.congLap && r.tinhTp == u.tinhTp && r.hocPhi == u.hocPhi
      && r.nhomNganh == u.nhomNganh
      && r.hsg1 == u.hsg1 && r.hsg2 == u.hsg2 && r.hsg3 == u.hsg3
      && ActiveCount(r) <= 1
      && (r.hsgSubject != "0" ==> r.hsgSubject == PickHsg(u) && r.ahld == 0 && r.danTocThieuSo == 0 && r.haimuoiHuyenNgheo == 0)
      && (r.ahld != 0 ==> r.ahld == 1 && r.hsgSubject == "0" && r.danTocThieuSo == 0 && r.haimuoiHuyenNgheo == 0)
      && (r.danTocThieuSo != 0 ==> r.danTocThieuSo == 1 && r.hsgSubject == "0" && r.ahld == 0 && r.haimuoiHuyenNgheo == 0)
      && (r.haimuoiHuyenNgheo != 0 ==> r.haimuoiHuyenNgheo == 1 && r.hsgSubject == "0" && r.ahld == 0 && r.danTocThieuSo == 0)
  {
    ExpandOne(u);
    RowVariantsActiveAtMostOne(WithSubject(u), i);
    RowVariantShape(WithSubject(u), i);
  }

  lemma RowVariantShape(b: VariantRow, i: nat)
    requires i < |RowVariants(b)|
    ensures var r := RowVariants(b)[i];
      && r.congLap == b.congLap && r.tinhTp == b.tinhTp && r.hocPhi == b.hocPhi && r.nhomNganh == b.nhomNganh
      && r.hsg1 == b.hsg1 && r.hsg2 == b.hsg2 && r.hsg3 == b.hsg3
      && (r.hsgSubject != "0" ==> r.hsgSubject == b.hsgSubject && r.ahld == 0 && r.danTocThieuSo == 0 && r.haimuoiHuyenNgheo == 0)
      && (r.ahld != 0 ==> r.ahld == 1 && r.hsgSubject == "0" && r.danTocThieuSo == 0 && r.haimuoiHuyenNgheo == 0)
      && (r.danTocThieuSo != 0 ==> r.danTocThieuSo == 1 && r.hsgSubject == "0" && r.ahld == 0 && r.haimuoiHuyenNgheo == 0)
      && (r.haimuoiHuyenNgheo != 0 ==> r.haimuoiHuyenNgheo == 1 && r.hsgSubject == "0" && r.ahld == 0 && r.danTocThieuSo == 0)
  {
    var p0 := if b.hsgSubject != "0" then [ClearFlags(b)] else [];
    var p1 := if b.ahld == 1 then [OnlyFlag(b, Ahld)] else [];
    var p2 := if b.danTocThieuSo == 1 then [OnlyFlag(b, DanTocThieuSo)] else [];
    var p3 := if b.haimuoiHuyenNgheo == 1 then [OnlyFlag(b, HaimuoiHuyenNgheo)] else [];
    var p4 := if IsNoneRow(b) then [b] else [];
    assert RowVariants(b) == p0 + p1 + p2 + p3 + p4;
    var r := RowVariants(b)[i];
    assert r in p0 || r in p1 || r in p2 || r in p3 || r in p4;
  }

  /** Row order and existence: [olympiad] ++ [ahld] ++ [dan_toc] ++ [haimuoi] ++ [none],
      each present exactly when its condition holds. */
  lemma {:induction false} VariantOrder(u: UserInputL1)
    ensures var s := PickHsg(u);
      var hs := if s != "0" then 1 else 0;
      var a := if u.ahld == 1 then 1 else 0;
      var d := if u.danTocThieuSo == 1 then 1 else 0;
      var h := if u.haimuoiHuyenNgheo == 1 then 1 else 0;
      var none := s == "0" && u.ahld == 0 && u.danTocThieuSo == 0 && u.haimuoiHuyenNgheo == 0;
      var rows := Expand([u]);
      && |rows| == hs + a + d + h + (if none then 1 else 0)
      && (s != "0" ==> rows[0].hsgSubject == s)
      && (u.ahld == 1 ==> rows[hs].ahld == 1)
      && (u.danTocThieuSo == 1 ==> rows[hs + a].danTocThieuSo == 1)
      && (u.haimuoiHuyenNgheo == 1 ==> rows[hs + a + d].haimuoiHuyenNgheo == 1)
      && (none ==> rows == [WithSubject(u)] && IsNoneRow(rows[0]))
  {
    ExpandOne(u);
  }
}
