/** The transcript scorer (src/services/l3/spk/score_cal.py): a subject's
    three-year mean, the weighted score of a combination of three subjects
    (tổ hợp) on the admission scale of 30, the best combination of a list,
    the award bonus, and the combinations of a programme read from the
    combinations table. */
module ScoreCal {
  import opened Wrappers
  import opened Text
  import opened Values
  import opened L3Schema
  import L3Tables
  import Ranking
  import Seqs

  // ---------------------------------------------------------------------
  // Subject means (`get_dtbm`)
  // ---------------------------------------------------------------------

  /** The `Grade` attribute a subject name denotes: its `SUBJECT_MAP` entry,
      or the name lower-cased. */
  function FieldName(subject: string): string {
    if subject in L3Tables.SubjectMap then L3Tables.SubjectMap[subject] else Lower(subject)
  }

  /** The three years in the order `get_dtbm` visits them. */
  function Years(h: HocBa): seq<Grade> {
    [h.grade10, h.grade11, h.grade12]
  }

  /** The recorded (non-`None`) grades of `field`, in the order of `grades`. */
  function Recorded(grades: seq<Grade>, field: string): (r: seq<real>)
    ensures |r| <= |grades|
  {
    if grades == [] then []
    else
      var last := Score(grades[|grades| - 1], field);
      Recorded(grades[..|grades| - 1], field) + (if last.Some? then [last.value] else [])
  }

  /** `sum(scores) / len(scores) if scores else 0.0`. */
  function Mean(s: seq<real>): real {
    if s == [] then 0.0 else Ranking.Sum(s) / |s| as real
  }

  /** The value `get_dtbm` computes. */
  function Dtbm(h: HocBa, subject: string): real {
    Mean(Recorded(Years(h), FieldName(subject)))
  }

  /** `get_dtbm`: collects the recorded grades of the three years, then
      takes their mean. */
  method GetDtbm(h: HocBa, subject: string) returns (d: real)
    ensures d == Dtbm(h, subject)
  {
    var field := FieldName(subject);
    var years := Years(h);
    var scores: seq<real> := [];
    for i := 0 to |years|
      invariant scores == Recorded(years[..i], field)
    {
      assert years[..i + 1][..i] == years[..i];
      var score := Score(years[i], field);
      if score.Some? {
        scores := scores + [score.value];
      }
    }
    assert years[..|years|] == years;
    if |scores| > 0 {
      d := Ranking.Sum(scores) / |scores| as real;
    } else {
      d := 0.0;
    }
  }

  lemma {:induction false} SumBounds(s: seq<real>, lo: real, hi: real)
    requires forall k :: 0 <= k < |s| ==> lo <= s[k] <= hi
    ensures |s| as real * lo <= Ranking.Sum(s) <= |s| as real * hi
  {
    if s != [] {
      SumBounds(s[..|s| - 1], lo, hi);
    }
  }

  /** A mean of values in [lo, hi] lies there too, and so does 0.0 for none. */
  lemma MeanBounds(s: seq<real>, lo: real, hi: real)
    requires lo <= 0.0 <= hi
    requires forall k :: 0 <= k < |s| ==> lo <= s[k] <= hi
    ensures lo <= Mean(s) <= hi
  {
    if s != [] {
      SumBounds(s, lo, hi);
      var n := |s| as real;
      assert Ranking.Sum(s) / n >= lo by {
        assert Ranking.Sum(s) >= n * lo;
      }
      assert Ranking.Sum(s) / n <= hi by {
        assert Ranking.Sum(s) <= n * hi;
      }
    }
  }

  /** A valid grade reads every name as `None` or a grade in [0, 10]. */
  lemma ScoreInRange(g: Grade, name: string)
    requires GradeValid(g)
    ensures InGradeRange(Score(g, name))
  {
  }

  lemma {:induction false} RecordedInRange(grades: seq<Grade>, field: string)
    requires forall k :: 0 <= k < |grades| ==> GradeValid(grades[k])
    ensures forall k :: 0 <= k < |Recorded(grades, field)| ==> 0.0 <= Recorded(grades, field)[k] <= 10.0
  {
    if grades != [] {
      RecordedInRange(grades[..|grades| - 1], field);
      ScoreInRange(grades[|grades| - 1], field);
    }
  }

  /** With grades in [0, 10], every subject mean lies in [0, 10]. */
  lemma DtbmRange(h: HocBa, subject: string)
    requires HocBaValid(h)
    ensures 0.0 <= Dtbm(h, subject) <= 10.0
  {
    RecordedInRange(Years(h), FieldName(subject));
    MeanBounds(Recorded(Years(h), FieldName(subject)), 0.0, 10.0);
  }

  /** The recorded grades over the three years, spelled out. */
  lemma RecordedYears(h: HocBa, f: string)
    ensures var a := Score(h.grade10, f); var b := Score(h.grade11, f); var c := Score(h.grade12, f);
      Recorded(Years(h), f)
        == (if a.Some? then [a.value] else []) + (if b.Some? then [b.value] else []) + (if c.Some? then [c.value] else [])
  {
    var y := Years(h);
    assert y[..2][..1] == y[..1] && y[..1][..0] == [] && y[..2] == [h.grade10, h.grade11] && y[..1] == [h.grade10];
    assert Recorded(y[..1], f) == Recorded([], f) + (if Score(h.grade10, f).Some? then [Score(h.grade10, f).value] else []);
  }

  /** A subject recorded in all three years: the plain mean of the three. */
  lemma DtbmAllRecorded(h: HocBa, subject: string)
    requires var f := FieldName(subject);
      Score(h.grade10, f).Some? && Score(h.grade11, f).Some? && Score(h.grade12, f).Some?
    ensures var f := FieldName(subject);
      Dtbm(h, subject) == (Score(h.grade10, f).value + Score(h.grade11, f).value + Score(h.grade12, f).value) / 3.0
  {
    var f := FieldName(subject);
    RecordedYears(h, f);
    var r := Recorded(Years(h), f);
    assert r == [Score(h.grade10, f).value, Score(h.grade11, f).value, Score(h.grade12, f).value];
    assert r[..2][..1] == [r[0]] && r[..2] == [r[0], r[1]] && [r[0]][..0] == [];
    assert Ranking.Sum(r[..1]) == r[0] by {
      assert r[..1][..0] == [];
    }
    assert r[..2][..1] == r[..1];
    assert Ranking.Sum(r) == r[0] + r[1] + r[2];
    assert Dtbm(h, subject) == Mean(r) == Ranking.Sum(r) / 3.0;
  }

  /** A subject recorded in no year has mean 0.0. */
  lemma DtbmNoneRecorded(h: HocBa, subject: string)
    requires var f := FieldName(subject);
      Score(h.grade10, f).None? && Score(h.grade11, f).None? && Score(h.grade12, f).None?
    ensures Dtbm(h, subject) == 0.0
  {
    RecordedYears(h, FieldName(subject));
  }

  /** Every display name of `SUBJECT_MAP` leads to an attribute of `Grade`. */
  lemma SubjectMapNamesAttributes(subject: string)
    requires subject in L3Tables.SubjectMap
    ensures FieldIndex(FieldName(subject)) < |GradeFields|
  {
    var f := FieldName(subject);
    assert f in GradeFields;
    var k :| 0 <= k < |GradeFields| && GradeFields[k] == f;
    assert FieldIndex(f) <= k;
  }

  // ---------------------------------------------------------------------
  // Combination scores
  // ---------------------------------------------------------------------

  /** `calculate_to_hop_score`: twice the first subject's mean plus the
      other two, times 3/4, so on the scale of 30; 0.0 unless there are
      exactly three subjects. */
  function ToHopScore(h: HocBa, toHop: seq<string>): real {
    if |toHop| != 3 then 0.0
    else (Dtbm(h, toHop[0]) * 2.0 + Dtbm(h, toHop[1]) + Dtbm(h, toHop[2])) * 3.0 / 4.0
  }

  /** With grades in [0, 10], a combination scores in [0, 30]. */
  lemma ToHopScoreRange(h: HocBa, toHop: seq<string>)
    requires HocBaValid(h)
    ensures 0.0 <= ToHopScore(h, toHop) <= 30.0
  {
    if |toHop| == 3 {
      DtbmRange(h, toHop[0]);
      DtbmRange(h, toHop[1]);
      DtbmRange(h, toHop[2]);
    }
  }

  // ---------------------------------------------------------------------
  // The best combination (`calculate_best_to_hop_score`)
  // ---------------------------------------------------------------------

  /** The running best after visiting `list` from the start value
      `(0.0, [])`: a combination replaces the best one only when it scores
      strictly more. */
  function BestFold(list: seq<seq<string>>, score: seq<string> -> real): (seq<string>, real)
  {
    if list == [] then ([], 0.0)
    else
      var (t, b) := BestFold(list[..|list| - 1], score);
      var last := list[|list| - 1];
      if score(last) > b then (last, score(last)) else (t, b)
  }

  /** The loop of `calculate_best_to_hop_score`, for any scoring function. */
  method BestBy(list: seq<seq<string>>, score: seq<string> -> real) returns (bestScore: real, bestToHop: seq<string>)
    ensures (bestToHop, bestScore) == BestFold(list, score)
  {
    if |list| == 0 {
      return 0.0, [];
    }
    bestScore := 0.0;
    bestToHop := [];
    for i := 0 to |list|
      invariant (bestToHop, bestScore) == BestFold(list[..i], score)
    {
      assert list[..i + 1][..i] == list[..i];
      var s := score(list[i]);
      if s > bestScore {
        bestScore := s;
        bestToHop := list[i];
      }
    }
    assert list[..|list|] == list;
  }

  /** The best score is at least 0.0 and at least every combination's score. */
  lemma {:induction false} BestFoldUpper(list: seq<seq<string>>, score: seq<string> -> real)
    ensures BestFold(list, score).1 >= 0.0
    ensures forall k :: 0 <= k < |list| ==> score(list[k]) <= BestFold(list, score).1
  {
    if list != [] {
      var init := list[..|list| - 1];
      BestFoldUpper(init, score);
      forall k | 0 <= k < |list| - 1
        ensures score(list[k]) <= BestFold(list, score).1
      {
        assert list[k] == init[k];
      }
    }
  }

  /** A positive best score belongs to the FIRST combination reaching it;
      a best score of 0.0 comes with the empty combination. */
  lemma {:induction false} BestFoldFirst(list: seq<seq<string>>, score: seq<string> -> real)
    ensures var (t, b) := BestFold(list, score);
      b > 0.0 ==>
        exists k :: 0 <= k < |list| && list[k] == t && score(list[k]) == b &&
          forall j :: 0 <= j < k ==> score(list[j]) < b
    ensures var (t, b) := BestFold(list, score); b <= 0.0 ==> t == []
  {
    if list != [] {
      var init := list[..|list| - 1];
      var last := list[|list| - 1];
      BestFoldFirst(init, score);
      BestFoldUpper(init, score);
      var (t0, b0) := BestFold(init, score);
      if score(last) > b0 {
        forall j | 0 <= j < |list| - 1
          ensures score(list[j]) < score(last)
        {
          assert list[j] == init[j];
        }
      } else if b0 > 0.0 {
        var k :| 0 <= k < |init| && init[k] == t0 && score(init[k]) == b0
          && forall j :: 0 <= j < k ==> score(init[j]) < b0;
        assert list[k] == init[k];
        forall j | 0 <= j < k
          ensures score(list[j]) < b0
        {
          assert list[j] == init[j];
        }
      }
    }
  }

  /** The best score is positive exactly when some combination scores above 0. */
  lemma BestFoldPositive(list: seq<seq<string>>, score: seq<string> -> real)
    ensures BestFold(list, score).1 > 0.0 <==> exists k :: 0 <= k < |list| && score(list[k]) > 0.0
  {
    BestFoldUpper(list, score);
    BestFoldFirst(list, score);
  }

  /** `calculate_best_to_hop_score` with `calculate_to_hop_score`. */
  method BestToHopScore(h: HocBa, list: seq<seq<string>>) returns (bestScore: real, bestToHop: seq<string>)
    ensures (bestToHop, bestScore) == BestFold(list, t => ToHopScore(h, t))
  {
    bestScore, bestToHop := BestBy(list, t => ToHopScore(h, t));
  }

  /** With grades in [0, 10], the best score lies in [0, 30]. */
  lemma BestToHopRange(h: HocBa, list: seq<seq<string>>)
    requires HocBaValid(h)
    ensures 0.0 <= BestFold(list, t => ToHopScore(h, t)).1 <= 30.0
  {
    var score := t => ToHopScore(h, t);
    BestFoldUpper(list, score);
    BestFoldFirst(list, score);
    var (t, b) := BestFold(list, score);
    if b > 0.0 {
      var k :| 0 <= k < |list| && list[k] == t && score(list[k]) == b;
      ToHopScoreRange(h, list[k]);
    }
  }

  // ---------------------------------------------------------------------
  // Bonus points
  // ---------------------------------------------------------------------

  /** `"A" in str(ma_nganh) or ma_nganh.endswith("A")`. */
  predicate IsEnglishProgram(maNganh: string) {
    Contains(maNganh, "A") || EndsWith(maNganh, "A")
  }

  /** The `endswith` test adds nothing: a programme is English-taught exactly
      when its code contains the letter A. */
  lemma IsEnglishProgramContains(maNganh: string)
    ensures IsEnglishProgram(maNganh) <==> Contains(maNganh, "A")
  {
    if EndsWith(maNganh, "A") {
      EndsWithContains(maNganh, "A");
    }
  }

  /** `AWARD_QG_POINTS.get(level, 0.0)`. */
  function QgPoints(level: int): real {
    if level in L3Tables.AwardQgPoints then L3Tables.AwardQgPoints[level] else 0.0
  }

  /** `AWARD_ENGLISH_POINTS.get(level, 0.0)`. */
  function EnglishPoints(level: string): real {
    if level in L3Tables.AwardEnglishPoints then L3Tables.AwardEnglishPoints[level] else 0.0
  }

  /** The bonus `calculate_bonus` adds up: the national-award points, plus
      the English points on an English-taught programme. */
  function Bonus(awardQg: Option<AwardQG>, awardEnglish: Option<AwardEnglish>, maNganh: string): real {
    (if awardQg.Some? then QgPoints(awardQg.value.level) else 0.0)
    + (if IsEnglishProgram(maNganh) && awardEnglish.Some? then EnglishPoints(awardEnglish.value.level) else 0.0)
  }

  /** `calculate_bonus`: starts at 0.0 and adds each award's points. */
  method CalculateBonus(awardQg: Option<AwardQG>, awardEnglish: Option<AwardEnglish>, maNganh: string)
    returns (bonus: real)
    ensures bonus == Bonus(awardQg, awardEnglish, maNganh)
  {
    bonus := 0.0;
    if awardQg.Some? {
      bonus := bonus + QgPoints(awardQg.value.level);
    }
    if IsEnglishProgram(maNganh) && awardEnglish.Some? {
      bonus := bonus + EnglishPoints(awardEnglish.value.level);
    }
  }

  /** The national-award points by level: 1.2 for levels 1 to 3, 1.0 for
      level 4, nothing for any other number. */
  lemma QgPointsTable(level: int)
    ensures QgPoints(level) == if 1 <= level <= 3 then 1.2 else if level == 4 then 1.0 else 0.0
  {
  }

  /** Every level a validated award can hold has an entry in its table. */
  lemma ValidLevelsInTables()
    ensures forall l :: 1 <= l <= 4 ==> l in L3Tables.AwardQgPoints
    ensures forall l :: l in EnglishLevels <==> l in L3Tables.AwardEnglishPoints
  {
  }

  /** The bonus lies in [0, 2.2], whatever the awards and the code. */
  lemma BonusRange(awardQg: Option<AwardQG>, awardEnglish: Option<AwardEnglish>, maNganh: string)
    ensures 0.0 <= Bonus(awardQg, awardEnglish, maNganh) <= 2.2
  {
    if awardEnglish.Some? {
      var l := awardEnglish.value.level;
      assert 0.0 <= EnglishPoints(l) <= 1.0 by {
        if l in L3Tables.AwardEnglishPoints {
          assert l in {"A1", "A2", "B1", "B2", "C1", "C2"};
        }
      }
    }
  }

  /** Outside English-taught programmes the certificate earns nothing. */
  lemma BonusEnglishOnlyWithA(awardQg: Option<AwardQG>, awardEnglish: Option<AwardEnglish>, maNganh: string)
    requires !Contains(maNganh, "A")
    ensures Bonus(awardQg, awardEnglish, maNganh) == Bonus(awardQg, None, maNganh)
  {
    IsEnglishProgramContains(maNganh);
  }

  // ---------------------------------------------------------------------
  // Combinations of a programme (`parse_to_hop_from_dataframe`)
  // ---------------------------------------------------------------------

  /** A row of the combinations table: its `nganh` and `Tổ hợp môn` cells. */
  datatype ToHopRow = ToHopRow(nganh: Value, toHopMon: Value)

  predicate IsParen(c: char) {
    c == '(' || c == ')'
  }

  function StripEach(parts: seq<string>): (r: seq<string>)
    ensures |r| == |parts|
    ensures forall k :: 0 <= k < |r| ==> r[k] == Strip(parts[k])
  {
    seq(|parts|, k requires 0 <= k < |parts| => Strip(parts[k]))
  }

  /** One cell text: parentheses stripped from both ends, split on commas,
      each part stripped. */
  function ParseCell(s: string): seq<string> {
    StripEach(Split(StripBy(s, IsParen), ','))
  }

  /** The combination a cell holds: the parts of a text cell, when there
      are exactly three. */
  function CellCombo(v: Value): Option<seq<string>> {
    if v.Str? && |ParseCell(v.s)| == 3 then Some(ParseCell(v.s)) else None
  }

  function RowCombo(r: ToHopRow): Option<seq<string>> {
    CellCombo(r.toHopMon)
  }

  /** The combinations the loop collects from `rows`: the parts of every
      text cell that has exactly three. */
  function Combos(rows: seq<ToHopRow>): seq<seq<string>> {
    Seqs.Collect(rows, RowCombo)
  }

  /** The rows of programme `maNganh` (`df['nganh'] == ma_nganh`: only a
      text cell equals a text). */
  function ProgramRows(rows: seq<ToHopRow>, maNganh: string): seq<ToHopRow> {
    Seqs.Filter(rows, (r: ToHopRow) => r.nganh == Str(maNganh))
  }

  /** `parse_to_hop_from_dataframe`. */
  method ParseToHopFromDataframe(rows: seq<ToHopRow>, maNganh: string) returns (toHopList: seq<seq<string>>)
    ensures toHopList == Combos(ProgramRows(rows, maNganh))
  {
    var nganhRows := ProgramRows(rows, maNganh);
    toHopList := [];
    for i := 0 to |nganhRows|
      invariant toHopList == Combos(nganhRows[..i])
    {
      assert nganhRows[..i + 1][..i] == nganhRows[..i];
      var toHopStr := nganhRows[i].toHopMon;
      if toHopStr.Str? {
        var subjects := ParseCell(toHopStr.s);
        if |subjects| == 3 {
          toHopList := toHopList + [subjects];
        }
      }
      assert RowCombo(nganhRows[i]) == CellCombo(toHopStr);
    }
    assert nganhRows[..|nganhRows|] == nganhRows;
  }

  /** The combinations found for a programme come from its own rows only. */
  lemma ParseToHopMembers(rows: seq<ToHopRow>, maNganh: string, x: seq<string>)
    ensures x in Combos(ProgramRows(rows, maNganh)) <==>
      exists r :: r in rows && r.nganh == Str(maNganh) && CellCombo(r.toHopMon) == Some(x)
  {
    var p := ProgramRows(rows, maNganh);
    Seqs.CollectMembers(p, RowCombo, x);
    if x in Combos(p) {
      var k :| 0 <= k < |p| && RowCombo(p[k]) == Some(x);
      Seqs.FilterMembers(rows, (r: ToHopRow) => r.nganh == Str(maNganh), p[k]);
    }
    if exists r :: r in rows && r.nganh == Str(maNganh) && CellCombo(r.toHopMon) == Some(x) {
      var r :| r in rows && r.nganh == Str(maNganh) && CellCombo(r.toHopMon) == Some(x);
      Seqs.FilterMembers(rows, (r: ToHopRow) => r.nganh == Str(maNganh), r);
      var k :| 0 <= k < |p| && p[k] == r;
      assert RowCombo(p[k]) == Some(x);
    }
  }

  /** Every part of a parsed cell is stripped and holds no comma. */
  lemma ParseCellParts(s: string)
    ensures forall k :: 0 <= k < |ParseCell(s)| ==> var part := ParseCell(s)[k];
      Strip(part) == part && ',' !in part
  {
    var pieces := Split(StripBy(s, IsParen), ',');
    forall k | 0 <= k < |pieces|
      ensures Strip(Strip(pieces[k])) == Strip(pieces[k]) && ',' !in Strip(pieces[k])
    {
      StripIdempotent(pieces[k]);
      StripKeepsOut(pieces[k], ',');
    }
  }

  /** A stripped, comma-free name that does not begin or end with a parenthesis. */
  predicate PlainName(a: string) {
    |a| > 0 && Strip(a) == a && ',' !in a && !IsParen(a[0]) && !IsParen(a[|a| - 1])
  }

  lemma SplitThree(a: string, b: string, c: string)
    requires ',' !in a && ',' !in b && ',' !in c
    ensures Split(a + [','] + b + [','] + c, ',') == [a, b, c]
  {
    SplitFront(a, ',', b + [','] + c);
    SplitFront(b, ',', c);
    SplitNone(c, ',');
    assert a + [','] + b + [','] + c == a + [','] + (b + [','] + c);
  }

  lemma FormatPieces(a: string, b: string, c: string)
    ensures "(" + a + ", " + b + ", " + c + ")" == ['('] + (a + [','] + ([' '] + b) + [','] + ([' '] + c)) + [')']
  {
    var l := "(" + a + ", " + b + ", " + c + ")";
    var r := ['('] + (a + [','] + ([' '] + b) + [','] + ([' '] + c)) + [')'];
    assert |l| == |r|;
    forall i | 0 <= i < |l|
      ensures l[i] == r[i]
    {
    }
  }

  lemma StripEachSpaced(a: string, b: string, c: string)
    requires PlainName(a) && PlainName(b) && PlainName(c)
    ensures StripEach([a, [' '] + b, [' '] + c]) == [a, b, c]
  {
    StripAfterSpace(b);
    StripAfterSpace(c);
  }

  lemma StripParens(a: string, b: string, c: string)
    requires PlainName(a) && PlainName(c)
    ensures StripBy("(" + a + ", " + b + ", " + c + ")", IsParen) == a + [','] + ([' '] + b) + [','] + ([' '] + c)
  {
    var inner := a + [','] + ([' '] + b) + [','] + ([' '] + c);
    FormatPieces(a, b, c);
    assert |inner| > 0 && inner[0] == a[0] && inner[|inner| - 1] == c[|c| - 1];
    StripByWrapped(inner, '(', ')', IsParen);
  }

  /** The table's format `(a, b, c)` reads back as the three names. */
  lemma ParseCellFormat(a: string, b: string, c: string)
    requires PlainName(a) && PlainName(b) && PlainName(c)
    ensures ParseCell("(" + a + ", " + b + ", " + c + ")") == [a, b, c]
  {
    var b' := [' '] + b;
    var c' := [' '] + c;
    StripParens(a, b, c);
    assert ',' !in b' && ',' !in c';
    SplitThree(a, b', c');
    StripEachSpaced(a, b, c);
  }
}
