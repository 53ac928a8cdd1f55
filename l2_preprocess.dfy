/** Pair generation for the candidate-ranking model
    (src/services/l2/preprocess.py): the catalog rows that match the
    student on the four hard keys, each widened with the student's and the
    candidate's columns, the rating differentials and the coerced tuition,
    budget and base score.

    The catalog is a parameter (reading and casting the spreadsheet is not
    part of this model). A frame is its column names and its rows; a row maps
    column names to cells. */
module L2Preprocess {
  import opened Wrappers
  import opened Text
  import opened Values
  import opened Seqs
  import opened L2Schema

  type Row = map<string, Value>

  datatype Frame = Frame(cols: seq<string>, rows: seq<Row>)

  /** A cell of a row; a row without the column has a missing cell. */
  function Cell(r: Row, c: string): Value {
    if c in r then r[c] else Null
  }

  /** `df.get(c)` on a frame, read in row `r`: missing when the frame has no
      column `c`. */
  function ColCell(cols: seq<string>, r: Row, c: string): Value {
    if c in cols then Cell(r, c) else Null
  }

  datatype PrepError =
    | ColumnNotFound(column: string)  // polars: a filter column is absent
    | AttributeError                  // `.fillna` on the scalar that `to_numeric(None)` returns
    | NoObjectsToConcatenate          // `pd.concat([])`

  const HardFilters: seq<string> := ["tinh_tp", "to_hop_mon", "cong_lap", "nhom_nganh"]

  /** The conduct (`hk`) and ability (`hl`) ratings of grades 10 to 12. */
  const HB: seq<string> := ["hk10", "hk11", "hk12", "hl10", "hl11", "hl12"]

  const StudentCols: seq<string> := [
    "cong_lap", "tinh_tp", "to_hop_mon", "diem_chuan", "hoc_phi", "ten_ccta", "diem_ccta",
    "hk10", "hk11", "hk12", "hl10", "hl11", "hl12", "nhom_nganh"]

  /** `pd.DataFrame([data.model_dump()])`. */
  function StudentRow(u: UserInputL2): Row {
    map["cong_lap" := Int(u.congLap), "tinh_tp" := Str(u.tinhTp), "to_hop_mon" := Str(u.toHopMon),
        "diem_chuan" := Float(u.diemChuan), "hoc_phi" := Float(u.hocPhi),
        "ten_ccta" := Str(u.tenCcta), "diem_ccta" := Str(u.diemCcta),
        "hk10" := Int(u.hk10), "hk11" := Int(u.hk11), "hk12" := Int(u.hk12),
        "hl10" := Int(u.hl10), "hl11" := Int(u.hl11), "hl12" := Int(u.hl12),
        "nhom_nganh" := Int(u.nhomNganh)]
  }

  function StudentFrame(u: UserInputL2): Frame {
    Frame(StudentCols, [StudentRow(u)])
  }

  // ---------------------------------------------------------------------
  // input_to_pairs_L2: the polars pre-filter.

  /** The first of `ks` that is not a column. */
  function FirstMissing(cols: seq<string>, ks: seq<string>): (m: Option<string>)
    ensures m.None? <==> forall k :: k in ks ==> k in cols
    ensures m.Some? ==> m.value in ks && m.value !in cols
  {
    if ks == [] then None
    else if ks[0] !in cols then Some(ks[0])
    else FirstMissing(cols, ks[1..])
  }

  /** `pl.col(k).is_in(input_data[k].unique())`. */
  predicate InStudents(students: seq<Row>, r: Row, k: string) {
    exists j :: 0 <= j < |students| && CellEq(Cell(r, k), Cell(students[j], k))
  }

  /** Lines 39-44: the four `is_in` tests joined with `&`. */
  predicate CatalogMatch(students: seq<Row>, r: Row) {
    && InStudents(students, r, "tinh_tp")
    && InStudents(students, r, "to_hop_mon")
    && InStudents(students, r, "cong_lap")
    && InStudents(students, r, "nhom_nganh")
  }

  function PreFilter(students: Frame, catalog: Frame): (r: Result<Frame, PrepError>)
    ensures r.Success? ==> r.value.cols == catalog.cols
  {
    match FirstMissing(students.cols, HardFilters)
    case Some(k) => Failure(ColumnNotFound(k))
    case None =>
      match FirstMissing(catalog.cols, HardFilters)
      case Some(k) => Failure(ColumnNotFound(k))
      case None => Success(Frame(catalog.cols, Filter(catalog.rows, r => CatalogMatch(students.rows, r))))
  }

  // ---------------------------------------------------------------------
  // filter_candidates_per_student_L2: one student.

  /** Line 62: the hard filter on `k` applies to this student. */
  predicate FilterApplies(cols: seq<string>, s: Row, k: string) {
    k in cols && k in s && !s[k].Null?
  }

  /** Lines 61-63 for the first `n` hard filters: `cand` keeps the rows equal
      to the student on each applicable key. */
  function HardFiltered(s: Row, cand: Frame, n: nat): seq<Row>
    requires n <= |HardFilters|
  {
    if n == 0 then cand.rows
    else
      var rows := HardFiltered(s, cand, n - 1);
      var k := HardFilters[n - 1];
      if FilterApplies(cand.cols, s, k) then Filter(rows, r => CellEq(Cell(r, k), s[k])) else rows
  }

  /** The first numeric token of a text, `re.search(r"(\d+\.?\d*)", t)`:
      `None` when the text has no digit. */
  function NumberToken(t: string): (x: Option<real>)
    ensures x.Some? ==> x.value >= 0.0
  {
    var k := FirstDigit(t);
    if k == |t| then None
    else
      var m := t[k..];
      var n := DigitRun(m);
      var frac := if n < |m| && m[n] == '.' then m[n + 1..][..DigitRun(m[n + 1..])] else "";
      Some(DecimalValue(m[..n], frac))
  }

  function FirstDigit(t: string): (k: nat)
    ensures k <= |t|
    ensures forall i :: 0 <= i < k ==> !IsDigit(t[i])
    ensures k < |t| ==> IsDigit(t[k])
  {
    if t == [] || IsDigit(t[0]) then 0 else 1 + FirstDigit(t[1..])
  }

  /** The length of the run of digits `t` starts with. */
  function DigitRun(t: string): (n: nat)
    ensures n <= |t| && AllDigits(t[..n])
    ensures n < |t| ==> !IsDigit(t[n])
  {
    if t != [] && IsDigit(t[0]) then
      var n := 1 + DigitRun(t[1..]);
      assert forall i :: 1 <= i < n ==> t[..n][i] == t[1..][..n - 1][i - 1];
      n
    else 0
  }

  /** Lines 92-94 and 98-99 on the text of a rating: the first numeric token,
      10 when there is none or it is 0, then `int()`. */
  function RatingOf(t: string): (v: int)
    ensures v >= 0
  {
    match NumberToken(t)
    case None => 10
    case Some(x) => if x == 0.0 then 10 else x.Floor
  }

  /** Line 92: a student's rating; `NaN` gives 10. */
  function StudentRating(v: Value, floatRepr: real -> string): int {
    if v.Null? then 10 else RatingOf(StrOf(v, floatRepr))
  }

  /** Lines 96-101: a candidate's required rating; all 10 without the column. */
  function CandRating(cols: seq<string>, r: Row, c: string, floatRepr: real -> string): int {
    if c in cols then RatingOf(StrOf(Cell(r, c), floatRepr)) else 10
  }

  /** The dict `stu_hb_vals` of lines 89-94. */
  function StudentRatings(s: Row, floatRepr: real -> string): (hb: map<string, int>)
    ensures forall c :: c in HB <==> c in hb
  {
    map c | c in HB :: StudentRating(Cell(s, c), floatRepr)
  }

  /** `int(pd.to_numeric(v))`, 0 when the value is not numeric (lines 69 and 75). */
  function IntOrZero(v: Value): int {
    match ToNumeric(v)
    case None => 0
    case Some(x) => Trunc(x)
  }

  /** Lines 77-82: `y_base`, else `diem_chuan`, else `diem_chuan_final`. */
  function YBase(cols: seq<string>, r: Row): Option<real> {
    if "y_base" in cols then ToNumeric(Cell(r, "y_base"))
    else if "diem_chuan" in cols then ToNumeric(Cell(r, "diem_chuan"))
    else ToNumeric(ColCell(cols, r, "diem_chuan_final"))
  }

  /** One row of the output: the 11 numeric columns, then the 12 categorical
      ones, of `need_cols` (lines 104-113). */
  datatype PairRow = PairRow(
    studentDiemChuan: Option<real>,
    studentBudgetMax: int,
    candDiemChuanFinal: Option<real>,
    candHocPhi: int,
    candYBase: Option<real>,
    diffHk10: int, diffHk11: int, diffHk12: int,
    diffHl10: int, diffHl11: int, diffHl12: int,
    studentCongLap: Value, studentTinhTp: Value, studentToHopMon: Value,
    studentTenCcta: Value, studentDiemCcta: Value, studentNhomNganh: Value,
    candCongLap: Value, candTinhTp: Value, candToHopMon: Value,
    candNhomNganh: Value, candMaXetTuyen: Value, candIsBaseRow: Value)

  /** `diff_<c>` of line 102: the requirement minus the student's rating. */
  function Diff(hb: map<string, int>, cols: seq<string>, r: Row, c: string, floatRepr: real -> string): int
    requires c in hb
  {
    CandRating(cols, r, c, floatRepr) - hb[c]
  }

  /** Lines 65-102 for candidate row `r` of student `s`. */
  function PairOf(s: Row, hb: map<string, int>, cols: seq<string>, r: Row, floatRepr: real -> string): PairRow
    requires forall c :: c in HB ==> c in hb
  {
    PairRow(
      ToNumeric(Cell(s, "diem_chuan")),
      IntOrZero(Cell(s, "hoc_phi")),
      ToNumeric(ColCell(cols, r, "diem_chuan_final")),
      IntOrZero(ColCell(cols, r, "hoc_phi")),
      YBase(cols, r),
      Diff(hb, cols, r, "hk10", floatRepr), Diff(hb, cols, r, "hk11", floatRepr),
      Diff(hb, cols, r, "hk12", floatRepr), Diff(hb, cols, r, "hl10", floatRepr),
      Diff(hb, cols, r, "hl11", floatRepr), Diff(hb, cols, r, "hl12", floatRepr),
      Cell(s, "cong_lap"), Cell(s, "tinh_tp"), Cell(s, "to_hop_mon"),
      Cell(s, "ten_ccta"), Cell(s, "diem_ccta"), Cell(s, "nhom_nganh"),
      ColCell(cols, r, "cong_lap"), ColCell(cols, r, "tinh_tp"), ColCell(cols, r, "to_hop_mon"),
      ColCell(cols, r, "nhom_nganh"), ColCell(cols, r, "ma_xet_tuyen"),
      if "is_base_row" in cols then Cell(r, "is_base_row") else Bool(false))
  }

  /** The columns of `cand` for the rows `rows`. */
  function PairsOf(s: Row, hb: map<string, int>, cols: seq<string>, rows: seq<Row>, floatRepr: real -> string)
    : (ps: seq<PairRow>)
    requires forall c :: c in HB ==> c in hb
    ensures |ps| == |rows|
    ensures forall i :: 0 <= i < |rows| ==> ps[i] == PairOf(s, hb, cols, rows[i], floatRepr)
  {
    if rows == [] then []
    else
      var rest := PairsOf(s, hb, cols, rows[1..], floatRepr);
      assert forall i :: 0 <= i < |rows| - 1 ==> rows[1..][i] == rows[i + 1];
      [PairOf(s, hb, cols, rows[0], floatRepr)] + rest
  }

  /** The frame `out` of one student. */
  function StudentPairs(s: Row, cand: Frame, floatRepr: real -> string): seq<PairRow> {
    PairsOf(s, StudentRatings(s, floatRepr), cand.cols, HardFiltered(s, cand, |HardFilters|), floatRepr)
  }

  /** Lines 60-119 for student `s`: the hard filters, the rating dict, then
      the columns; without a `hoc_phi` column line 75 raises. */
  method CandidatesFor(s: Row, cand: Frame, floatRepr: real -> string) returns (res: Result<seq<PairRow>, PrepError>)
    ensures "hoc_phi" !in cand.cols ==> res == Failure(AttributeError)
    ensures "hoc_phi" in cand.cols ==> res == Success(StudentPairs(s, cand, floatRepr))
  {
    var rows := cand.rows;
    for i := 0 to |HardFilters|
      invariant rows == HardFiltered(s, cand, i)
    {
      var k := HardFilters[i];
      if k in cand.cols && k in s && !s[k].Null? {
        rows := Filter(rows, r => CellEq(Cell(r, k), s[k]));
      }
    }
    if "hoc_phi" !in cand.cols {
      return Failure(AttributeError);
    }
    var hb: map<string, int> := map[];
    for i := 0 to |HB|
      invariant forall c :: c in hb <==> c in HB[..i]
      invariant forall c :: c in hb ==> hb[c] == StudentRating(Cell(s, c), floatRepr)
    {
      hb := hb[HB[i] := StudentRating(Cell(s, HB[i]), floatRepr)];
    }
    assert HB[..|HB|] == HB;
    assert hb == StudentRatings(s, floatRepr);
    res := Success(PairsOf(s, hb, cand.cols, rows, floatRepr));
  }

  /** The pairs of the students `ss`, concatenated in student order. */
  function AllPairs(ss: seq<Row>, cand: Frame, floatRepr: real -> string): seq<PairRow> {
    if ss == [] then [] else AllPairs(ss[..|ss| - 1], cand, floatRepr) + StudentPairs(ss[|ss| - 1], cand, floatRepr)
  }

  lemma AllPairsStep(ss: seq<Row>, j: nat, cand: Frame, floatRepr: real -> string)
    requires j < |ss|
    ensures AllPairs(ss[..j + 1], cand, floatRepr) == AllPairs(ss[..j], cand, floatRepr) + StudentPairs(ss[j], cand, floatRepr)
  {
    assert ss[..j + 1][..j] == ss[..j];
  }

  /** What `filter_candidates_per_student_L2` returns. */
  function FilterSpec(students: Frame, cand: Frame, floatRepr: real -> string): Result<seq<PairRow>, PrepError> {
    if students.rows == [] then Failure(NoObjectsToConcatenate)
    else if "hoc_phi" !in cand.cols then Failure(AttributeError)
    else Success(AllPairs(students.rows, cand, floatRepr))
  }

  /** `filter_candidates_per_student_L2`: one `out` frame per student,
      appended to `outs`, then concatenated; the final casts of lines 123-128
      leave the values as they are. */
  method FilterCandidatesPerStudent(students: Frame, cand: Frame, floatRepr: real -> string)
    returns (res: Result<seq<PairRow>, PrepError>)
    ensures res == FilterSpec(students, cand, floatRepr)
  {
    var outs: seq<PairRow> := [];
    for j := 0 to |students.rows|
      invariant "hoc_phi" in cand.cols || j == 0
      invariant outs == AllPairs(students.rows[..j], cand, floatRepr)
    {
      var out := CandidatesFor(students.rows[j], cand, floatRepr);
      if out.Failure? {
        return out;
      }
      AllPairsStep(students.rows, j, cand, floatRepr);
      outs := outs + out.value;
    }
    if |students.rows| == 0 {
      return Failure(NoObjectsToConcatenate);
    }
    assert students.rows[..|students.rows|] == students.rows;
    res := Success(outs);
  }

  function InputToPairsSpec(students: Frame, catalog: Frame, floatRepr: real -> string): Result<seq<PairRow>, PrepError> {
    var cand :- PreFilter(students, catalog);
    FilterSpec(students, cand, floatRepr)
  }

  /** `input_to_pairs_L2`. */
  method InputToPairs(students: Frame, catalog: Frame, floatRepr: real -> string) returns (res: Result<seq<PairRow>, PrepError>)
    ensures res == InputToPairsSpec(students, catalog, floatRepr)
  {
    var cand := PreFilter(students, catalog);
    if cand.Failure? {
      return Failure(cand.error);
    }
    res := FilterCandidatesPerStudent(students, cand.value, floatRepr);
  }

  /** `preprocess_input_data_L2` with the catalog given. */
  function PreprocessL2(u: UserInputL2, catalog: Frame, floatRepr: real -> string): Result<seq<PairRow>, PrepError> {
    InputToPairsSpec(StudentFrame(u), catalog, floatRepr)
  }

  // ---------------------------------------------------------------------
  // The columns of the output.

  const ColsNum: seq<string> := [
    "student_diem_chuan", "student_budget_max",
    "cand_diem_chuan_final", "cand_hoc_phi", "cand_y_base",
    "diff_hk10", "diff_hk11", "diff_hk12", "diff_hl10", "diff_hl11", "diff_hl12"]

  const ColsCat: seq<string> := [
    "student_cong_lap", "student_tinh_tp", "student_to_hop_mon", "student_ten_ccta",
    "student_diem_ccta", "student_nhom_nganh",
    "cand_cong_lap", "cand_tinh_tp", "cand_to_hop_mon", "cand_nhom_nganh",
    "cand_ma_xet_tuyen", "cand_is_base_row"]

  function OptReal(x: Option<real>): Value {
    if x.Some? then Float(x.value) else Null
  }

  /** The cell of column `c` of an output row, `None` for a column it lacks. */
  function PairCol(p: PairRow, c: string): Option<Value> {
    if c == "student_diem_chuan" then Some(OptReal(p.studentDiemChuan))
    else if c == "student_budget_max" then Some(Int(p.studentBudgetMax))
    else if c == "cand_diem_chuan_final" then Some(OptReal(p.candDiemChuanFinal))
    else if c == "cand_hoc_phi" then Some(Int(p.candHocPhi))
    else if c == "cand_y_base" then Some(OptReal(p.candYBase))
    else if c == "diff_hk10" then Some(Int(p.diffHk10))
    else if c == "diff_hk11" then Some(Int(p.diffHk11))
    else if c == "diff_hk12" then Some(Int(p.diffHk12))
    else if c == "diff_hl10" then Some(Int(p.diffHl10))
    else if c == "diff_hl11" then Some(Int(p.diffHl11))
    else if c == "diff_hl12" then Some(Int(p.diffHl12))
    else if c == "student_cong_lap" then Some(p.studentCongLap)
    else if c == "student_tinh_tp" then Some(p.studentTinhTp)
    else if c == "student_to_hop_mon" then Some(p.studentToHopMon)
    else if c == "student_ten_ccta" then Some(p.studentTenCcta)
    else if c == "student_diem_ccta" then Some(p.studentDiemCcta)
    else if c == "student_nhom_nganh" then Some(p.studentNhomNganh)
    else if c == "cand_cong_lap" then Some(p.candCongLap)
    else if c == "cand_tinh_tp" then Some(p.candTinhTp)
    else if c == "cand_to_hop_mon" then Some(p.candToHopMon)
    else if c == "cand_nhom_nganh" then Some(p.candNhomNganh)
    else if c == "cand_ma_xet_tuyen" then Some(p.candMaXetTuyen)
    else if c == "cand_is_base_row" then Some(p.candIsBaseRow)
    else None
  }

  /** The output has exactly the columns `need_cols`. */
  lemma PairColumns(p: PairRow, c: string)
    ensures PairCol(p, c).Some? <==> c in ColsNum + ColsCat
  {
    assert c in ColsNum + ColsCat <==> c in ColsNum || c in ColsCat;
    PairColumnsNum(c);
    PairColumnsCat(c);
  }

  lemma PairColumnsNum(c: string)
    ensures c in ColsNum <==>
      c in {"student_diem_chuan", "student_budget_max", "cand_diem_chuan_final", "cand_hoc_phi", "cand_y_base",
            "diff_hk10", "diff_hk11", "diff_hk12", "diff_hl10", "diff_hl11", "diff_hl12"}
  {
  }

  lemma PairColumnsCat(c: string)
    ensures c in ColsCat <==>
      c in {"student_cong_lap", "student_tinh_tp", "student_to_hop_mon", "student_ten_ccta",
            "student_diem_ccta", "student_nhom_nganh", "cand_cong_lap", "cand_tinh_tp", "cand_to_hop_mon",
            "cand_nhom_nganh", "cand_ma_xet_tuyen", "cand_is_base_row"}
  {
  }

  // ---------------------------------------------------------------------
  // Properties.

  /** The row agrees with the student on the first `n` hard keys that apply. */
  predicate AgreesUpTo(s: Row, cols: seq<string>, r: Row, n: nat)
    requires n <= |HardFilters|
  {
    forall i :: 0 <= i < n && FilterApplies(cols, s, HardFilters[i]) ==> CellEq(Cell(r, HardFilters[i]), s[HardFilters[i]])
  }

  /** The successive filters of lines 61-63 are one filter on all applicable keys. */
  lemma {:induction false} HardFilteredIsFilter(s: Row, cand: Frame, n: nat)
    requires n <= |HardFilters|
    ensures HardFiltered(s, cand, n) == Filter(cand.rows, r => AgreesUpTo(s, cand.cols, r, n))
  {
    if n == 0 {
      FilterAll(cand.rows, r => AgreesUpTo(s, cand.cols, r, 0));
    } else {
      HardFilteredIsFilter(s, cand, n - 1);
      var k := HardFilters[n - 1];
      var prev := r => AgreesUpTo(s, cand.cols, r, n - 1);
      var next := r => AgreesUpTo(s, cand.cols, r, n);
      if FilterApplies(cand.cols, s, k) {
        var q := r => CellEq(Cell(r, k), s[k]);
        assert forall r :: next(r) == (prev(r) && q(r));
        FilterFilter(cand.rows, prev, q, next);
      } else {
        assert forall r :: prev(r) == next(r);
        FilterExt(cand.rows, prev, next);
      }
    }
  }

  /** A student's candidates are exactly the rows equal to the student on
      every applicable hard key, in catalog order. */
  lemma HardFilteredRows(s: Row, cand: Frame, x: Row)
    ensures var rows := HardFiltered(s, cand, |HardFilters|);
      && (x in rows <==> x in cand.rows && AgreesUpTo(s, cand.cols, x, |HardFilters|))
      && IsSubsequence(rows, cand.rows)
  {
    HardFilteredIsFilter(s, cand, |HardFilters|);
    FilterMembers(cand.rows, r => AgreesUpTo(s, cand.cols, r, |HardFilters|), x);
    FilterIsSubsequence(cand.rows, r => AgreesUpTo(s, cand.cols, r, |HardFilters|));
  }

  /** A catalog row matching request `u` on the four hard keys. */
  predicate MatchesStudent(u: UserInputL2, r: Row) {
    && CellEq(Cell(r, "tinh_tp"), Str(u.tinhTp))
    && CellEq(Cell(r, "to_hop_mon"), Str(u.toHopMon))
    && CellEq(Cell(r, "cong_lap"), Int(u.congLap))
    && CellEq(Cell(r, "nhom_nganh"), Int(u.nhomNganh))
  }

  function Matching(u: UserInputL2, rows: seq<Row>): seq<Row> {
    Filter(rows, r => MatchesStudent(u, r))
  }

  /** The matching rows are the catalog rows equal to the request on the four
      keys, in catalog order. */
  lemma MatchingRows(u: UserInputL2, rows: seq<Row>, x: Row)
    ensures x in Matching(u, rows) <==> x in rows && MatchesStudent(u, x)
    ensures IsSubsequence(Matching(u, rows), rows)
  {
    FilterMembers(rows, r => MatchesStudent(u, r), x);
    FilterIsSubsequence(rows, r => MatchesStudent(u, r));
  }

  lemma InOneStudent(s: Row, r: Row, k: string)
    ensures InStudents([s], r, k) == CellEq(Cell(r, k), Cell(s, k))
  {
    if CellEq(Cell(r, k), Cell(s, k)) {
      assert [s][0] == s;
    }
  }

  lemma PreFilterOne(u: UserInputL2, catalog: Frame)
    requires forall k :: k in HardFilters ==> k in catalog.cols
    ensures PreFilter(StudentFrame(u), catalog) == Success(Frame(catalog.cols, Matching(u, catalog.rows)))
  {
    var srow := StudentRow(u);
    assert FirstMissing(StudentCols, HardFilters) == None;
    StudentCells(u);
    forall r
      ensures CatalogMatch([srow], r) == MatchesStudent(u, r)
    {
      InOneStudent(srow, r, "tinh_tp");
      InOneStudent(srow, r, "to_hop_mon");
      InOneStudent(srow, r, "cong_lap");
      InOneStudent(srow, r, "nhom_nganh");
    }
    FilterExt(catalog.rows, r => CatalogMatch([srow], r), r => MatchesStudent(u, r));
  }

  /** The second, per-student hard filter removes nothing from the rows the
      pre-filter kept. */
  lemma SecondFilterKeepsAll(u: UserInputL2, catalog: Frame)
    ensures var cand := Frame(catalog.cols, Matching(u, catalog.rows));
      HardFiltered(StudentRow(u), cand, |HardFilters|) == cand.rows
  {
    var srow := StudentRow(u);
    var cand := Frame(catalog.cols, Matching(u, catalog.rows));
    var a := r => AgreesUpTo(srow, cand.cols, r, |HardFilters|);
    forall i | 0 <= i < |cand.rows|
      ensures a(cand.rows[i])
    {
      MatchingRows(u, catalog.rows, cand.rows[i]);
    }
    HardFilteredIsFilter(srow, cand, |HardFilters|);
    FilterAll(cand.rows, a);
  }

  /** With the hard-filter columns and `hoc_phi` in the catalog, the pairs of
      a request are the matching catalog rows, in catalog order, each widened
      by `PairOf`; no match gives no pair rather than an error. */
  lemma {:induction false} PairsOfRequest(u: UserInputL2, catalog: Frame, floatRepr: real -> string)
    requires forall k :: k in HardFilters ==> k in catalog.cols
    requires "hoc_phi" in catalog.cols
    ensures var s := StudentRow(u);
      PreprocessL2(u, catalog, floatRepr)
        == Success(PairsOf(s, StudentRatings(s, floatRepr), catalog.cols, Matching(u, catalog.rows), floatRepr))
  {
    var s := StudentRow(u);
    var cand := Frame(catalog.cols, Matching(u, catalog.rows));
    PreFilterOne(u, catalog);
    SecondFilterKeepsAll(u, catalog);
    assert AllPairs([s], cand, floatRepr) == StudentPairs(s, cand, floatRepr);
  }

  /** The error outcomes: a missing hard-filter column is reported first, a
      missing `hoc_phi` column next. */
  lemma PreprocessErrors(u: UserInputL2, catalog: Frame, floatRepr: real -> string)
    ensures FirstMissing(catalog.cols, HardFilters).Some? ==>
      PreprocessL2(u, catalog, floatRepr) == Failure(ColumnNotFound(FirstMissing(catalog.cols, HardFilters).value))
    ensures FirstMissing(catalog.cols, HardFilters).None? && "hoc_phi" !in catalog.cols ==>
      PreprocessL2(u, catalog, floatRepr) == Failure(AttributeError)
  {
    assert FirstMissing(StudentCols, HardFilters) == None;
  }

  lemma {:induction false} DigitRunAll(d: string)
    requires AllDigits(d)
    ensures DigitRun(d) == |d|
  {
    if d != [] {
      DigitRunAll(d[1..]);
    }
  }

  lemma NumberTokenOfDigits(d: string)
    requires |d| > 0 && AllDigits(d)
    ensures NumberToken(d) == Some(DigitsValue(d) as real)
  {
    DigitRunAll(d);
    assert d[0..] == d && d[..|d|] == d;
  }

  /** `str()` of an integer rating reads back as that rating, 0 as 10, and a
      negative one as its absolute value, because the token skips the sign. */
  lemma RatingOfDecimal(i: int)
    ensures RatingOf(IntToDecimal(i)) == if i == 0 then 10 else if i < 0 then -i else i
  {
    var n: nat := if i < 0 then -i else i;
    var d := NatToDecimal(n);
    NumberTokenOfDigits(d);
    if i < 0 {
      var t := "-" + d;
      assert IntToDecimal(i) == t;
      assert FirstDigit(t) == 1 by {
        assert !IsDigit(t[0]) && t[1..] == d && IsDigit(d[0]);
      }
      assert t[1..] == d;
    }
  }

  /** A text with no digit rates 10. */
  lemma RatingWithoutDigits(t: string)
    requires forall i :: 0 <= i < |t| ==> !IsDigit(t[i])
    ensures RatingOf(t) == 10
  {
    assert FirstDigit(t) == |t|;
  }

  /** "0.5" is not 0, so it truncates to 0 instead of defaulting to 10. */
  lemma RatingOfHalf()
    ensures RatingOf("0.5") == 0
  {
    var t := "0.5";
    assert FirstDigit(t) == 0;
    assert t[0..] == t;
    assert DigitRun(t) == 1 by {
      assert DigitRun(t[1..]) == 0;
    }
    assert t[2..] == "5" && DigitRun("5") == 1 by {
      assert DigitRun("5"[1..]) == 0;
    }
    assert DigitsValue("5") == 5 && DigitsValue("0") == 0 by {
      assert "5"[..0] == [] && "0"[..0] == [];
    }
    assert NumberToken(t) == Some(DecimalValue("0", "5"));
  }

  /** The requirement side uses the student's rule: a column's cell rates as
      a student value would, a missing cell (whose text has no digit) as 10. */
  lemma CandRatingIsStudentRule(cols: seq<string>, r: Row, c: string, floatRepr: real -> string)
    requires c in cols
    ensures CandRating(cols, r, c, floatRepr) == StudentRating(Cell(r, c), floatRepr)
  {
    if Cell(r, c).Null? {
      RatingWithoutDigits("None");
    }
  }

  /** A rating missing on both sides gives the differential 0. */
  lemma DiffBothMissing(s: Row, cols: seq<string>, r: Row, c: string, floatRepr: real -> string)
    requires c in HB && c !in cols && Cell(s, c).Null?
    ensures Diff(StudentRatings(s, floatRepr), cols, r, c, floatRepr) == 0
  {
  }

  /** The cells of the student frame's single row. */
  lemma StudentCells(u: UserInputL2)
    ensures var s := StudentRow(u);
      && Cell(s, "cong_lap") == Int(u.congLap) && Cell(s, "tinh_tp") == Str(u.tinhTp)
      && Cell(s, "to_hop_mon") == Str(u.toHopMon) && Cell(s, "diem_chuan") == Float(u.diemChuan)
      && Cell(s, "hoc_phi") == Float(u.hocPhi) && Cell(s, "ten_ccta") == Str(u.tenCcta)
      && Cell(s, "diem_ccta") == Str(u.diemCcta) && Cell(s, "nhom_nganh") == Int(u.nhomNganh)
      && Cell(s, "hk10") == Int(u.hk10) && Cell(s, "hk11") == Int(u.hk11) && Cell(s, "hk12") == Int(u.hk12)
      && Cell(s, "hl10") == Int(u.hl10) && Cell(s, "hl11") == Int(u.hl11) && Cell(s, "hl12") == Int(u.hl12)
  {
    StudentTextCells(u);
    StudentRatingCells(u);
  }

  lemma StudentTextCells(u: UserInputL2)
    ensures var s := StudentRow(u);
      && Cell(s, "cong_lap") == Int(u.congLap) && Cell(s, "tinh_tp") == Str(u.tinhTp)
      && Cell(s, "to_hop_mon") == Str(u.toHopMon) && Cell(s, "diem_chuan") == Float(u.diemChuan)
      && Cell(s, "hoc_phi") == Float(u.hocPhi) && Cell(s, "ten_ccta") == Str(u.tenCcta)
      && Cell(s, "diem_ccta") == Str(u.diemCcta) && Cell(s, "nhom_nganh") == Int(u.nhomNganh)
  {
  }

  lemma StudentRatingCells(u: UserInputL2)
    ensures var s := StudentRow(u);
      && Cell(s, "hk10") == Int(u.hk10) && Cell(s, "hk11") == Int(u.hk11) && Cell(s, "hk12") == Int(u.hk12)
      && Cell(s, "hl10") == Int(u.hl10) && Cell(s, "hl11") == Int(u.hl11) && Cell(s, "hl12") == Int(u.hl12)
  {
  }

  /** A student's rating for an integer field, as `RatingOfDecimal` gives it. */
  function IntRating(i: int): int {
    if i == 0 then 10 else if i < 0 then -i else i
  }

  lemma StudentRatingOfInt(i: int, floatRepr: real -> string)
    ensures StudentRating(Int(i), floatRepr) == IntRating(i)
  {
    RatingOfDecimal(i);
  }

  /** The student's columns of every pair of request `u`: its score, its
      texts and its codes as given, its budget truncated. */
  lemma StudentColumns(u: UserInputL2, cols: seq<string>, r: Row, floatRepr: real -> string)
    ensures var s := StudentRow(u);
      var p := PairOf(s, StudentRatings(s, floatRepr), cols, r, floatRepr);
      && p.studentDiemChuan == Some(u.diemChuan)
      && p.studentBudgetMax == Trunc(u.hocPhi)
      && p.studentTinhTp == Str(u.tinhTp) && p.studentToHopMon == Str(u.toHopMon)
      && p.studentTenCcta == Str(u.tenCcta) && p.studentDiemCcta == Str(u.diemCcta)
      && p.studentCongLap == Int(u.congLap) && p.studentNhomNganh == Int(u.nhomNganh)
  {
    StudentCells(u);
  }

  /** Each differential of a pair of request `u` is the requirement minus
      the student's own rating: the rating itself when positive. */
  lemma StudentDiffs(u: UserInputL2, cols: seq<string>, r: Row, floatRepr: real -> string)
    ensures var s := StudentRow(u);
      var p := PairOf(s, StudentRatings(s, floatRepr), cols, r, floatRepr);
      && p.diffHk10 == CandRating(cols, r, "hk10", floatRepr) - IntRating(u.hk10)
      && p.diffHk11 == CandRating(cols, r, "hk11", floatRepr) - IntRating(u.hk11)
      && p.diffHk12 == CandRating(cols, r, "hk12", floatRepr) - IntRating(u.hk12)
      && p.diffHl10 == CandRating(cols, r, "hl10", floatRepr) - IntRating(u.hl10)
      && p.diffHl11 == CandRating(cols, r, "hl11", floatRepr) - IntRating(u.hl11)
      && p.diffHl12 == CandRating(cols, r, "hl12", floatRepr) - IntRating(u.hl12)
  {
    StudentCells(u);
    StudentRatingOfInt(u.hk10, floatRepr);
    StudentRatingOfInt(u.hk11, floatRepr);
    StudentRatingOfInt(u.hk12, floatRepr);
    StudentRatingOfInt(u.hl10, floatRepr);
    StudentRatingOfInt(u.hl11, floatRepr);
    StudentRatingOfInt(u.hl12, floatRepr);
  }
}
