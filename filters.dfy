/** The school filter of the transcript service (src/services/l3/spk/filters.py):
    the rows of the school-programme table a request can apply to. */
module SchoolFilter {
  import opened Values
  import opened L3Schema
  import Seqs

  /** A row of the school-programme table: the four cells the filter reads
      (`cong_lap`, `tp`, `Học phí`, `nhom_nganh`) and the others, carried
      along unchanged. */
  datatype School = School(congLap: Value, tp: Value, hocPhi: Value, nhomNganh: Value, other: map<string, Value>)

  predicate CongLapMatches(r: School, u: UserInputL3) {
    CellEq(r.congLap, Int(u.congLap))
  }

  /** The province test reads the column `tp`. */
  predicate TpMatches(r: School, u: UserInputL3) {
    CellEq(r.tp, Str(u.tinhTp))
  }

  /** `df['Học phí'] <= hoc_phi`: a missing fee compares false. */
  predicate FeeWithin(r: School, u: UserInputL3) {
    NumberOf(r.hocPhi).Some? && NumberOf(r.hocPhi).value <= u.hocPhi
  }

  predicate GroupMatches(r: School, u: UserInputL3) {
    CellEq(r.nhomNganh, Str(u.nhomNganh))
  }

  /** `filter_schools`: the public/private filter, the province filter when
      `tinh_tp` is non-empty, the fee filter when `hoc_phi` is non-zero, the
      programme-group filter. */
  function FilterSchools(df: seq<School>, u: UserInputL3): seq<School> {
    var a := Seqs.Filter(df, (r: School) => CongLapMatches(r, u));
    var b := if u.tinhTp != "" then Seqs.Filter(a, (r: School) => TpMatches(r, u)) else a;
    var c := if u.hocPhi != 0.0 then Seqs.Filter(b, (r: School) => FeeWithin(r, u)) else b;
    Seqs.Filter(c, (r: School) => GroupMatches(r, u))
  }

  /** The condition a kept row meets: the province and the budget count
      only when they are set. */
  predicate Keep(r: School, u: UserInputL3) {
    && CongLapMatches(r, u)
    && (u.tinhTp != "" ==> TpMatches(r, u))
    && (u.hocPhi != 0.0 ==> FeeWithin(r, u))
    && GroupMatches(r, u)
  }

  /** The chain of filters is the one filter on `Keep`. */
  lemma FilterSchoolsIsOneFilter(df: seq<School>, u: UserInputL3)
    ensures FilterSchools(df, u) == Seqs.Filter(df, (r: School) => Keep(r, u))
  {
    var p1 := (r: School) => CongLapMatches(r, u);
    var a := Seqs.Filter(df, p1);
    var q2 := (r: School) => CongLapMatches(r, u) && (u.tinhTp != "" ==> TpMatches(r, u));
    var b := if u.tinhTp != "" then Seqs.Filter(a, (r: School) => TpMatches(r, u)) else a;
    if u.tinhTp != "" {
      Seqs.FilterFilter(df, p1, (r: School) => TpMatches(r, u), q2);
    } else {
      Seqs.FilterExt(df, p1, q2);
    }
    var q3 := (r: School) => q2(r) && (u.hocPhi != 0.0 ==> FeeWithin(r, u));
    var c := if u.hocPhi != 0.0 then Seqs.Filter(b, (r: School) => FeeWithin(r, u)) else b;
    if u.hocPhi != 0.0 {
      Seqs.FilterFilter(df, q2, (r: School) => FeeWithin(r, u), q3);
    } else {
      Seqs.FilterExt(df, q2, q3);
    }
    var q4 := (r: School) => q3(r) && GroupMatches(r, u);
    Seqs.FilterFilter(df, q3, (r: School) => GroupMatches(r, u), q4);
    Seqs.FilterExt(df, q4, (r: School) => Keep(r, u));
  }

  /** A row is kept exactly when it is in the table and matches the
      public/private choice, the province (if set), the budget (if set)
      and the programme group. */
  lemma FilterSchoolsMembers(df: seq<School>, u: UserInputL3, x: School)
    ensures x in FilterSchools(df, u) <==>
      && x in df
      && CongLapMatches(x, u)
      && (u.tinhTp != "" ==> TpMatches(x, u))
      && (u.hocPhi != 0.0 ==> FeeWithin(x, u))
      && GroupMatches(x, u)
  {
    FilterSchoolsIsOneFilter(df, u);
    Seqs.FilterMembers(df, (r: School) => Keep(r, u), x);
  }

  /** The kept rows are rows of the table, in the table's order. */
  lemma FilterSchoolsSubsequence(df: seq<School>, u: UserInputL3)
    ensures Seqs.IsSubsequence(FilterSchools(df, u), df)
  {
    FilterSchoolsIsOneFilter(df, u);
    Seqs.FilterIsSubsequence(df, (r: School) => Keep(r, u));
  }

  /** Filtering the filtered table again keeps every row. */
  lemma FilterSchoolsIdempotent(df: seq<School>, u: UserInputL3)
    ensures FilterSchools(FilterSchools(df, u), u) == FilterSchools(df, u)
  {
    FilterSchoolsIsOneFilter(df, u);
    FilterSchoolsIsOneFilter(FilterSchools(df, u), u);
    Seqs.FilterIdempotent(df, (r: School) => Keep(r, u));
  }

  /** A budget of 0.0 keeps every fee, however high. */
  lemma ZeroBudgetKeepsAnyFee(df: seq<School>, u: UserInputL3, x: School)
    requires u.hocPhi == 0.0
    requires x in df && CongLapMatches(x, u) && (u.tinhTp != "" ==> TpMatches(x, u)) && GroupMatches(x, u)
    ensures x in FilterSchools(df, u)
  {
    FilterSchoolsMembers(df, u, x);
  }

  /** An empty province keeps every province. */
  lemma EmptyProvinceKeepsAny(df: seq<School>, u: UserInputL3, x: School)
    requires u.tinhTp == ""
    requires x in df && CongLapMatches(x, u) && (u.hocPhi != 0.0 ==> FeeWithin(x, u)) && GroupMatches(x, u)
    ensures x in FilterSchools(df, u)
  {
    FilterSchoolsMembers(df, u, x);
  }
}
