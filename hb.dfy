/** The transcript scorer over a programme table (src/services/l3/spk/hb.py):
    the union of the subjects of a list of combinations, the combination
    score on the scale of 10, the best combination, the bonus read from
    table cells, the combinations a `to_hop_mon` cell holds, and
    `calculate_hocba`, which scores every programme row.

    `get_dtbm` in this file is the same code as in score_cal.py; the model
    uses `ScoreCal.Dtbm` for both, and likewise the best-combination loop
    `ScoreCal.BestBy` and the tables of `L3Tables`. */
module HocBaCalc {
  import opened Wrappers
  import opened Text
  import opened Values
  import opened L3Schema
  import L3Tables
  import ScoreCal

  // ---------------------------------------------------------------------
  // Subjects of a list of combinations (`get_unique_subjects`)
  // ---------------------------------------------------------------------

  /** `get_unique_subjects`: the set updated with every combination. */
  method GetUniqueSubjects(toHopList: seq<seq<string>>) returns (unique: set<string>)
    ensures forall s :: s in unique <==> exists k :: 0 <= k < |toHopList| && s in toHopList[k]
  {
    unique := {};
    for i := 0 to |toHopList|
      invariant forall s :: s in unique <==> exists k :: 0 <= k < i && s in toHopList[k]
    {
      unique := unique + set s | s in toHopList[i];
    }
  }

  // ---------------------------------------------------------------------
  // Combination scores
  // ---------------------------------------------------------------------

  /** `calculate_to_hop_score` of this file: twice the first subject's mean
      plus the other two, over 4, so on the scale of 10; 0.0 unless there
      are exactly three subjects. */
  function ToHopScore(h: HocBa, toHop: seq<string>): real {
    if |toHop| != 3 then 0.0
    else (ScoreCal.Dtbm(h, toHop[0]) * 2.0 + ScoreCal.Dtbm(h, toHop[1]) + ScoreCal.Dtbm(h, toHop[2])) / 4.0
  }

  /** With grades in [0, 10], a combination scores in [0, 10]. */
  lemma ToHopScoreRange(h: HocBa, toHop: seq<string>)
    requires HocBaValid(h)
    ensures 0.0 <= ToHopScore(h, toHop) <= 10.0
  {
    if |toHop| == 3 {
      ScoreCal.DtbmRange(h, toHop[0]);
      ScoreCal.DtbmRange(h, toHop[1]);
      ScoreCal.DtbmRange(h, toHop[2]);
    }
  }

  /** The two scorers differ by the factor 3 of score_cal.py alone. */
  lemma ScalesDiffer(h: HocBa, toHop: seq<string>)
    ensures ScoreCal.ToHopScore(h, toHop) == 3.0 * ToHopScore(h, toHop)
  {
  }

  /** The best combination and its score. */
  function Best(h: HocBa, list: seq<seq<string>>): (seq<string>, real) {
    ScoreCal.BestFold(list, t => ToHopScore(h, t))
  }

  /** `calculate_best_to_hop_score` with this file's `calculate_to_hop_score`. */
  method BestToHopScore(h: HocBa, list: seq<seq<string>>) returns (bestScore: real, bestToHop: seq<string>)
    ensures (bestToHop, bestScore) == Best(h, list)
  {
    bestScore, bestToHop := ScoreCal.BestBy(list, t => ToHopScore(h, t));
  }

  /** With grades in [0, 10], the best score lies in [0, 10], is at least
      every combination's score, and a positive one is the score of the
      first combination reaching it. */
  lemma BestFacts(h: HocBa, list: seq<seq<string>>)
    requires HocBaValid(h)
    ensures var (t, b) := Best(h, list);
      && 0.0 <= b <= 10.0
      && (forall k :: 0 <= k < |list| ==> ToHopScore(h, list[k]) <= b)
      && (b > 0.0 ==>
            exists k :: 0 <= k < |list| && list[k] == t && ToHopScore(h, list[k]) == b &&
              forall j :: 0 <= j < k ==> ToHopScore(h, list[j]) < b)
      && (b <= 0.0 ==> t == [])
  {
    var score := t => ToHopScore(h, t);
    ScoreCal.BestFoldUpper(list, score);
    ScoreCal.BestFoldFirst(list, score);
    var (t, b) := Best(h, list);
    if b > 0.0 {
      var k :| 0 <= k < |list| && list[k] == t && score(list[k]) == b;
      ToHopScoreRange(h, list[k]);
    }
  }

  // ---------------------------------------------------------------------
  // Bonus points from table cells (`calculate_bonus`)
  // ---------------------------------------------------------------------

  /** An `award_qg` cell: a dict (with its `level` entry, if it has one) or
      any other value. */
  datatype QgCell = QgDict(level: Option<Value>) | QgOther

  /** Python truthiness of a scalar cell. */
  predicate Truthy(v: Value) {
    match v
    case Null => false
    case Bool(b) => b
    case Int(i) => i != 0
    case Float(x) => x != 0.0
    case Str(s) => s != ""
  }

  /** The integer key a value hashes and compares equal to, if any: `True`,
      `1` and `1.0` all find the entry 1. */
  function IntKey(v: Value): Option<int> {
    match v
    case Bool(b) => Some(if b then 1 else 0)
    case Int(i) => Some(i)
    case Float(x) => if x.Floor as real == x then Some(x.Floor) else None
    case _ => None
  }

  /** `AWARD_QG_POINTS.get(level, 0.0)` for a cell value. */
  function QgPointsOf(level: Value): real {
    if IntKey(level).Some? then ScoreCal.QgPoints(IntKey(level).value) else 0.0
  }

  /** `AWARD_ENGLISH_POINTS.get(award_english, 0.0)` for a cell value. */
  function EnglishPointsOf(v: Value): real {
    if v.Str? then ScoreCal.EnglishPoints(v.s) else 0.0
  }

  /** The bonus `calculate_bonus` of this file adds up. */
  function Bonus(awardQg: QgCell, awardEnglish: Value, maNganh: string): real {
    (if awardQg.QgDict? && awardQg.level.Some? then QgPointsOf(awardQg.level.value) else 0.0)
    + (if ScoreCal.IsEnglishProgram(maNganh) && Truthy(awardEnglish) then EnglishPointsOf(awardEnglish) else 0.0)
  }

  /** `calculate_bonus`: starts at 0.0 and adds each award's points. */
  method CalculateBonus(awardQg: QgCell, awardEnglish: Value, maNganh: string) returns (bonus: real)
    ensures bonus == Bonus(awardQg, awardEnglish, maNganh)
  {
    bonus := 0.0;
    if awardQg.QgDict? && awardQg.level.Some? {
      bonus := bonus + QgPointsOf(awardQg.level.value);
    }
    if ScoreCal.IsEnglishProgram(maNganh) && Truthy(awardEnglish) {
      bonus := bonus + EnglishPointsOf(awardEnglish);
    }
  }

  /** The bonus lies in [0, 2.2], whatever the cells hold. */
  lemma BonusRange(awardQg: QgCell, awardEnglish: Value, maNganh: string)
    ensures 0.0 <= Bonus(awardQg, awardEnglish, maNganh) <= 2.2
  {
    if awardQg.QgDict? && awardQg.level.Some? && IntKey(awardQg.level.value).Some? {
      ScoreCal.QgPointsTable(IntKey(awardQg.level.value).value);
    }
    ScoreCal.BonusRange(None, if awardEnglish.Str? then Some(AwardEnglish(awardEnglish.s)) else None, maNganh);
  }

  /** The cells a validated request's awards give (a dict with the integer
      level, the level text, `None` when absent) earn the same bonus as
      score_cal.py's `calculate_bonus` gives the awards themselves. */
  lemma BonusAgrees(awardQg: Option<AwardQG>, awardEnglish: Option<AwardEnglish>, maNganh: string)
    ensures Bonus(if awardQg.Some? then QgDict(Some(Int(awardQg.value.level))) else QgOther,
                  if awardEnglish.Some? then Str(awardEnglish.value.level) else Null,
                  maNganh)
         == ScoreCal.Bonus(awardQg, awardEnglish, maNganh)
  {
    if awardEnglish.Some? && awardEnglish.value.level == "" {
      assert "" !in L3Tables.AwardEnglishPoints;
    }
  }

  /** A dict without a `level` entry, or a cell that is no dict, earns no
      national-award points. */
  lemma BonusNeedsLevel(awardQg: QgCell, awardEnglish: Value, maNganh: string)
    requires !(awardQg.QgDict? && awardQg.level.Some?)
    ensures Bonus(awardQg, awardEnglish, maNganh) == Bonus(QgOther, awardEnglish, maNganh)
  {
  }

  // ---------------------------------------------------------------------
  // The combinations of a cell (`parse_to_hop_list`)
  // ---------------------------------------------------------------------

  /** An item of a list cell: a subject name, a list of subject names, or
      anything else. */
  datatype Item = ItemStr(s: string) | ItemList(names: seq<string>) | ItemOther

  /** A `to_hop_mon` cell: a list, a text, or any other value. */
  datatype ToHopCell = CellList(items: seq<Item>) | CellText(s: string) | CellOther

  /** `[s.strip() for s in text.replace(',', ' ').split()]`. */
  function TextSubjects(s: string): seq<string> {
    ScoreCal.StripEach(Words(ReplaceChar(s, ',', ' ')))
  }

  /** `parse_to_hop_list`. */
  function ParseToHopList(cell: ToHopCell): (r: seq<seq<string>>)
  {
    match cell
    case CellList(items) =>
      if forall k :: 0 <= k < |items| ==> items[k].ItemList? then
        seq(|items|, k requires 0 <= k < |items| => items[k].names)
      else if forall k :: 0 <= k < |items| ==> items[k].ItemStr? then
        [seq(|items|, k requires 0 <= k < |items| => items[k].s)]
      else []
    case CellText(s) =>
      var subjects := TextSubjects(s);
      if |subjects| == 3 then [subjects] else []
    case CellOther => []
  }

  /** A list of combinations reads back as itself; a list of subject names
      as the one combination they form. */
  lemma ParseListCells(list: seq<seq<string>>, names: seq<string>)
    requires names != []
    ensures ParseToHopList(CellList(seq(|list|, k requires 0 <= k < |list| => ItemList(list[k])))) == list
    ensures ParseToHopList(CellList(seq(|names|, k requires 0 <= k < |names| => ItemStr(names[k])))) == [names]
  {
    var c := seq(|names|, k requires 0 <= k < |names| => ItemStr(names[k]));
    assert !c[0].ItemList?;
    assert seq(|c|, k requires 0 <= k < |c| => c[k].s) == names;
  }

  /** The subjects read from a text are non-empty and hold no white space
      and no comma. */
  lemma TextSubjectsClean(s: string)
    ensures forall k :: 0 <= k < |TextSubjects(s)| ==> var w := TextSubjects(s)[k];
      w != [] && ',' !in w && forall i :: 0 <= i < |w| ==> !IsSpace(w[i])
  {
    var t := ReplaceChar(s, ',', ' ');
    var ws := Words(t);
    assert ',' !in t;
    SplitWhereKeepsOut(t, IsSpace, ',');
    forall k | 0 <= k < |ws|
      ensures Strip(ws[k]) == ws[k] && ',' !in ws[k]
    {
      StripUnchanged(ws[k]);
    }
  }

  /** A subject name the text form can carry: non-empty, no white space,
      no comma. */
  predicate Word(a: string) {
    a != [] && ',' !in a && forall i :: 0 <= i < |a| ==> !IsSpace(a[i])
  }

  lemma ReplaceCommas(a: string, b: string, c: string)
    requires Word(a) && Word(b) && Word(c)
    ensures ReplaceChar(a + "," + b + "," + c, ',', ' ') == a + [' '] + (b + [' '] + c)
  {
    var l := ReplaceChar(a + "," + b + "," + c, ',', ' ');
    var r := a + [' '] + (b + [' '] + c);
    assert |l| == |r|;
    forall i | 0 <= i < |l|
      ensures l[i] == r[i]
    {
      if i < |a| {
        assert (a + "," + b + "," + c)[i] == a[i];
      } else if i == |a| {
      } else if i < |a| + 1 + |b| {
        assert (a + "," + b + "," + c)[i] == b[i - |a| - 1];
      } else if i == |a| + 1 + |b| {
      } else {
        assert (a + "," + b + "," + c)[i] == c[i - |a| - 2 - |b|];
      }
    }
  }

  lemma WordsThree(a: string, b: string, c: string)
    requires Word(a) && Word(b) && Word(c)
    ensures Words(a + [' '] + (b + [' '] + c)) == [a, b, c]
  {
    WordsFront(a, ' ', b + [' '] + c);
    WordsFront(b, ' ', c);
    WordsOne(c);
  }

  /** The text form `a,b,c` reads back as the one combination [a, b, c]. */
  lemma ParseTextFormat(a: string, b: string, c: string)
    requires Word(a) && Word(b) && Word(c)
    ensures ParseToHopList(CellText(a + "," + b + "," + c)) == [[a, b, c]]
  {
    ReplaceCommas(a, b, c);
    WordsThree(a, b, c);
    StripUnchanged(a);
    StripUnchanged(b);
    StripUnchanged(c);
    assert ScoreCal.StripEach([a, b, c]) == [a, b, c];
  }

  // ---------------------------------------------------------------------
  // Scoring a programme table (`calculate_hocba`)
  // ---------------------------------------------------------------------

  /** A programme row: the cells `calculate_hocba` reads. */
  datatype HbRow = HbRow(maNganh: string, toHopMon: ToHopCell, diemChuan: real, awardQg: QgCell, awardEnglish: Value)

  /** A row of the result: the input row and the five added columns. */
  datatype HbResult = HbResult(row: HbRow, bestToHopScore: real, bestToHop: seq<string>,
                               bonusPoints: real, totalScore: real, isPassed: bool)

  /** The result row for one programme row. */
  function RowResult(h: HocBa, row: HbRow): HbResult {
    var (t, b) := Best(h, ParseToHopList(row.toHopMon));
    var bonus := Bonus(row.awardQg, row.awardEnglish, row.maNganh);
    HbResult(row, b, t, bonus, b + bonus, b + bonus >= row.diemChuan)
  }

  lemma RowResultOf(h: HocBa, row: HbRow, bestScore: real, bestToHop: seq<string>, bonus: real)
    requires (bestToHop, bestScore) == Best(h, ParseToHopList(row.toHopMon))
    requires bonus == Bonus(row.awardQg, row.awardEnglish, row.maNganh)
    ensures RowResult(h, row) == HbResult(row, bestScore, bestToHop, bonus, bestScore + bonus, bestScore + bonus >= row.diemChuan)
  {
  }

  /** The body of the loop of `calculate_hocba` for one row: the best
      combination and its score, and the bonus. */
  method ScoreRow(h: HocBa, row: HbRow) returns (bestScore: real, bestToHop: seq<string>, bonus: real)
    ensures RowResult(h, row) == HbResult(row, bestScore, bestToHop, bonus, bestScore + bonus, bestScore + bonus >= row.diemChuan)
  {
    var toHopList := ParseToHopList(row.toHopMon);
    bestScore, bestToHop := BestToHopScore(h, toHopList);
    bonus := CalculateBonus(row.awardQg, row.awardEnglish, row.maNganh);
    RowResultOf(h, row, bestScore, bestToHop, bonus);
  }

  /** `calculate_hocba`: the five columns are collected row by row, then
      added to a copy of the table. */
  method CalculateHocba(h: HocBa, df: seq<HbRow>) returns (result: seq<HbResult>)
    ensures |result| == |df|
    ensures forall i :: 0 <= i < |df| ==> result[i] == RowResult(h, df[i])
  {
    var bestScores: seq<real> := [];
    var bestToHops: seq<seq<string>> := [];
    var bonusPoints: seq<real> := [];
    var totalScores: seq<real> := [];
    var isPassed: seq<bool> := [];
    ghost var done: seq<HbResult> := [];
    for i := 0 to |df|
      invariant |done| == |bestScores| == |bestToHops| == |bonusPoints| == |totalScores| == |isPassed| == i
      invariant forall k :: 0 <= k < i ==> done[k] == RowResult(h, df[k])
      invariant forall k :: 0 <= k < i ==>
        done[k] == HbResult(df[k], bestScores[k], bestToHops[k], bonusPoints[k], totalScores[k], isPassed[k])
    {
      var row := df[i];
      var bestScore, bestToHop, bonus := ScoreRow(h, row);
      bestScores := bestScores + [bestScore];
      bestToHops := bestToHops + [bestToHop];
      bonusPoints := bonusPoints + [bonus];
      var total := bestScore + bonus;
      totalScores := totalScores + [total];
      isPassed := isPassed + [total >= row.diemChuan];
      done := done + [RowResult(h, row)];
    }
    result := seq(|df|, k requires 0 <= k < |df| =>
      HbResult(df[k], bestScores[k], bestToHops[k], bonusPoints[k], totalScores[k], isPassed[k]));
  }

  /** With grades in [0, 10], every result row keeps its input row, has a
      best score in [0, 10], a bonus in [0, 2.2], their sum as total, and
      passes exactly when the total reaches the row's cut-off. */
  lemma RowResultFacts(h: HocBa, row: HbRow)
    requires HocBaValid(h)
    ensures var r := RowResult(h, row);
      && r.row == row
      && 0.0 <= r.bestToHopScore <= 10.0
      && 0.0 <= r.bonusPoints <= 2.2
      && r.totalScore == r.bestToHopScore + r.bonusPoints
      && 0.0 <= r.totalScore <= 12.2
      && (r.isPassed <==> r.totalScore >= row.diemChuan)
  {
    BestFacts(h, ParseToHopList(row.toHopMon));
    BonusRange(row.awardQg, row.awardEnglish, row.maNganh);
  }

  /** A row whose cell yields no combination is scored on its bonus alone. */
  lemma NoCombinationBonusOnly(h: HocBa, row: HbRow)
    requires ParseToHopList(row.toHopMon) == []
    ensures RowResult(h, row).bestToHop == [] && RowResult(h, row).totalScore == RowResult(h, row).bonusPoints
  {
  }

  /** Lowering a row's cut-off never turns a pass into a fail. */
  lemma PassMonotone(h: HocBa, row: HbRow, lower: real)
    requires lower <= row.diemChuan
    ensures RowResult(h, row).isPassed ==> RowResult(h, row.(diemChuan := lower)).isPassed
  {
  }
}
