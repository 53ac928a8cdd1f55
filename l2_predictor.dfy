/** The candidate ranker (src/services/l2/predictor.py): the vocabulary
    cleaning done when the model is loaded, the feature frame handed to the
    gradient-boosted model, the threshold / sort / de-duplication of its
    scores, and the tuition-discount filter `discount_fee` with its CEFR
    test `_has_cefr`.

    The booster itself is a function parameter of the model: only what the
    surrounding code does with its scores is modelled. */
module L2Predictor {
  import opened Wrappers
  import opened Text
  import opened Values
  import opened Seqs
  import opened Dicts
  import opened Ranking
  import opened L2Schema
  import opened L2Preprocess

  const Unk := "__UNK__"

  // ---------------------------------------------------------------------
  // Cleaning a vocabulary (lines 28-35).

  /** `(str(x) for x in vocab if x is not None)`. */
  function Texts(vocab: seq<Value>, floatRepr: real -> string): (t: seq<string>)
    ensures |t| <= |vocab|
  {
    if vocab == [] then []
    else Texts(vocab[..|vocab| - 1], floatRepr)
         + (if vocab[|vocab| - 1].Null? then [] else [StrOf(vocab[|vocab| - 1], floatRepr)])
  }

  /** The texts in first-occurrence order, each once: what the `seen` loop
      of lines 29-33 collects. */
  function Dedupe(s: seq<string>): seq<string> {
    if s == [] then []
    else
      var d := Dedupe(s[..|s| - 1]);
      if s[|s| - 1] in d then d else d + [s[|s| - 1]]
  }

  /** `vs.remove(x)`: drops the first occurrence. */
  function RemoveFirst(s: seq<string>, x: string): (r: seq<string>)
    ensures x in s ==> |r| == |s| - 1
    ensures x !in s ==> r == s
  {
    if s == [] then []
    else if s[0] == x then s[1..]
    else [s[0]] + RemoveFirst(s[1..], x)
  }

  /** The cleaned list `cat_vocab[c]` of line 35. */
  function CleanedVocab(vocab: seq<Value>, floatRepr: real -> string): seq<string> {
    [Unk] + VocabRest(Texts(vocab, floatRepr))
  }

  /** The de-duplicated texts without `__UNK__` (line 34). */
  function VocabRest(t: seq<string>): seq<string> {
    var vs := Dedupe(t);
    if Unk in vs then RemoveFirst(vs, Unk) else vs
  }

  /** Lines 29-35 for one vocabulary. */
  method CleanVocab(vocab: seq<Value>, floatRepr: real -> string) returns (out: seq<string>)
    ensures out == CleanedVocab(vocab, floatRepr)
  {
    var vs: seq<string> := [];
    var seen: set<string> := {};
    for i := 0 to |vocab|
      invariant vs == Dedupe(Texts(vocab[..i], floatRepr))
      invariant forall x :: x in seen <==> x in vs
    {
      ghost var t := Texts(vocab[..i], floatRepr);
      assert vocab[..i + 1][..i] == vocab[..i];
      if !vocab[i].Null? {
        var v := StrOf(vocab[i], floatRepr);
        assert Texts(vocab[..i + 1], floatRepr) == t + [v];
        assert (t + [v])[..|t|] == t;
        assert Dedupe(t + [v]) == if v in Dedupe(t) then Dedupe(t) else Dedupe(t) + [v];
        if v !in seen {
          seen := seen + {v};
          vs := vs + [v];
        }
      } else {
        assert Texts(vocab[..i + 1], floatRepr) == t;
      }
    }
    assert vocab[..|vocab|] == vocab;
    if Unk in vs {
      vs := RemoveFirst(vs, Unk);
    }
    out := [Unk] + vs;
  }

  /** Lines 28-35: every vocabulary of `cat_vocab` replaced by its cleaned
      list, the columns keeping their order. */
  method CleanCatVocab(catVocab: seq<(string, seq<Value>)>, floatRepr: real -> string)
    returns (out: seq<(string, seq<string>)>)
    ensures |out| == |catVocab|
    ensures forall i :: 0 <= i < |catVocab| ==> out[i] == (catVocab[i].0, CleanedVocab(catVocab[i].1, floatRepr))
  {
    out := [];
    for i := 0 to |catVocab|
      invariant |out| == i
      invariant forall j :: 0 <= j < i ==> out[j] == (catVocab[j].0, CleanedVocab(catVocab[j].1, floatRepr))
    {
      var vs := CleanVocab(catVocab[i].1, floatRepr);
      out := out + [(catVocab[i].0, vs)];
    }
  }

  /** The position of the first `x` in `s`. */
  function IndexOf(s: seq<string>, x: string): (k: nat)
    requires x in s
    ensures k < |s| && s[k] == x
    ensures forall j :: 0 <= j < k ==> s[j] != x
  {
    if s[0] == x then 0 else 1 + IndexOf(s[1..], x)
  }

  lemma {:induction false} IndexOfPrefix(a: seq<string>, b: seq<string>, x: string)
    requires x in a
    ensures IndexOf(a + b, x) == IndexOf(a, x)
  {
    var k := IndexOf(a, x);
    var k' := IndexOf(a + b, x);
    assert (a + b)[k] == x;
  }

  /** The kept texts are exactly the non-`None` entries' texts. */
  lemma {:induction false} TextsMembers(vocab: seq<Value>, floatRepr: real -> string, x: string)
    ensures x in Texts(vocab, floatRepr)
      <==> exists i :: 0 <= i < |vocab| && !vocab[i].Null? && StrOf(vocab[i], floatRepr) == x
  {
    if vocab != [] {
      var n := |vocab|;
      var init := vocab[..n - 1];
      TextsMembers(init, floatRepr, x);
      if x in Texts(vocab, floatRepr) {
        if x in Texts(init, floatRepr) {
          var i :| 0 <= i < |init| && !init[i].Null? && StrOf(init[i], floatRepr) == x;
          assert vocab[i] == init[i];
        } else {
          assert !vocab[n - 1].Null? && StrOf(vocab[n - 1], floatRepr) == x;
        }
      }
      if exists i :: 0 <= i < |vocab| && !vocab[i].Null? && StrOf(vocab[i], floatRepr) == x {
        var i :| 0 <= i < |vocab| && !vocab[i].Null? && StrOf(vocab[i], floatRepr) == x;
        if i < n - 1 {
          assert init[i] == vocab[i];
        }
      }
    }
  }

  lemma {:induction false} DedupeMembers(s: seq<string>, x: string)
    ensures x in Dedupe(s) <==> x in s
  {
    if s != [] {
      var n := |s|;
      DedupeMembers(s[..n - 1], x);
      assert s == s[..n - 1] + [s[n - 1]];
    }
  }

  lemma {:induction false} DedupeDistinct(s: seq<string>)
    ensures Distinct(Dedupe(s))
  {
    if s != [] {
      DedupeDistinct(s[..|s| - 1]);
    }
  }

  /** Each text appears at its first occurrence: an earlier entry of the
      cleaned list was seen earlier in the input. */
  lemma {:induction false} DedupeOrder(s: seq<string>)
    ensures forall x :: x in Dedupe(s) ==> x in s
    ensures forall i, j :: 0 <= i < j < |Dedupe(s)| ==> SeenBefore(s, Dedupe(s)[i], Dedupe(s)[j])
  {
    forall x | x in Dedupe(s)
      ensures x in s
    {
      DedupeMembers(s, x);
    }
    if s != [] {
      var n := |s|;
      var init := s[..n - 1];
      var d := Dedupe(init);
      DedupeOrder(init);
      assert s == init + [s[n - 1]];
      forall y | y in d
        ensures IndexOf(s, y) == IndexOf(init, y)
      {
        IndexOfPrefix(init, [s[n - 1]], y);
      }
      if s[n - 1] !in d {
        DedupeMembers(init, s[n - 1]);
        assert IndexOf(s, s[n - 1]) == n - 1;
      }
    }
  }

  lemma {:induction false} RemoveFirstMembers(s: seq<string>, x: string, y: string)
    requires Distinct(s)
    ensures y in RemoveFirst(s, x) <==> y in s && y != x
  {
    if s != [] {
      assert Distinct(s[1..]) by {
        forall i, j | 0 <= i < j < |s[1..]|
          ensures s[1..][i] != s[1..][j]
        {
          assert s[1..][i] == s[i + 1] && s[1..][j] == s[j + 1];
        }
      }
      RemoveFirstMembers(s[1..], x, y);
      assert s == [s[0]] + s[1..];
      if s[0] == x {
        assert forall j :: 0 < j < |s| ==> s[j] != x;
      }
    }
  }

  lemma {:induction false} RemoveFirstSubsequence(s: seq<string>, x: string)
    ensures IsSubsequence(RemoveFirst(s, x), s)
  {
    if s != [] {
      var r := RemoveFirst(s, x);
      if s[0] == x {
        SubsequenceRefl(s[1..]);
        if r != [] {
          assert IsSubsequence(r, s[1..]);
        }
      } else {
        RemoveFirstSubsequence(s[1..], x);
        assert r[0] == s[0] && r[1..] == RemoveFirst(s[1..], x);
      }
    }
  }

  lemma SubsequenceDistinct(a: seq<string>, b: seq<string>)
    requires IsSubsequence(a, b) && Distinct(b)
    ensures Distinct(a)
  {
    SubsequencePairwise(a, b, (u: string, v: string) => u != v);
  }

  /** The cleaned vocabulary starts with `__UNK__`, holds it once, holds no
      text twice, and holds `__UNK__` and the text of every non-`None`
      entry, nothing else. */
  lemma CleanedVocabShape(vocab: seq<Value>, floatRepr: real -> string)
    ensures var out := CleanedVocab(vocab, floatRepr);
      out[0] == Unk
      && (forall i :: 1 <= i < |out| ==> out[i] != Unk)
      && Distinct(out)
      && (forall x :: x in out <==> x == Unk || exists i :: 0 <= i < |vocab| && !vocab[i].Null? && StrOf(vocab[i], floatRepr) == x)
  {
    var t := Texts(vocab, floatRepr);
    var vs := Dedupe(t);
    var rest := VocabRest(t);
    var out := [Unk] + rest;
    DedupeDistinct(t);
    RemoveFirstSubsequence(vs, Unk);
    SubsequenceDistinct(rest, vs);
    forall x
      ensures x in rest <==> x in vs && x != Unk
    {
      RemoveFirstMembers(vs, Unk, x);
    }
    forall i | 1 <= i < |out|
      ensures out[i] != Unk
    {
      assert out[i] == rest[i - 1];
    }
    forall x
      ensures x in out <==> x == Unk || exists i :: 0 <= i < |vocab| && !vocab[i].Null? && StrOf(vocab[i], floatRepr) == x
    {
      DedupeMembers(t, x);
      TextsMembers(vocab, floatRepr, x);
    }
  }

  /** `u` first appears in `t` before `v` does. */
  predicate SeenBefore(t: seq<string>, u: string, v: string) {
    u in t && v in t && IndexOf(t, u) < IndexOf(t, v)
  }

  lemma VocabRestOrder(t: seq<string>)
    ensures forall k, l :: 0 <= k < l < |VocabRest(t)| ==> SeenBefore(t, VocabRest(t)[k], VocabRest(t)[l])
  {
    var vs := Dedupe(t);
    var before := (u, v) => SeenBefore(t, u, v);
    DedupeOrder(t);
    assert forall k, l :: 0 <= k < l < |vs| ==> before(vs[k], vs[l]);
    RemoveFirstSubsequence(vs, Unk);
    SubsequencePairwise(VocabRest(t), vs, before);
  }

  /** The texts after `__UNK__` keep the order in which they first appear
      in the raw vocabulary. */
  lemma CleanedVocabOrder(vocab: seq<Value>, floatRepr: real -> string)
    ensures var out := CleanedVocab(vocab, floatRepr);
      forall i, j :: 1 <= i < j < |out| ==> SeenBefore(Texts(vocab, floatRepr), out[i], out[j])
  {
    var t := Texts(vocab, floatRepr);
    var rest := VocabRest(t);
    var out := CleanedVocab(vocab, floatRepr);
    assert out == [Unk] + rest;
    VocabRestOrder(t);
    forall i, j | 1 <= i < j < |out|
      ensures SeenBefore(t, out[i], out[j])
    {
      assert out[i] == rest[i - 1] && out[j] == rest[j - 1];
    }
  }

  /** Every vocabulary of `cat_vocab` has been cleaned: it starts with `__UNK__`. */
  predicate Cleaned(catVocab: seq<(string, seq<string>)>) {
    forall i :: 0 <= i < |catVocab| ==> |catVocab[i].1| > 0 && catVocab[i].1[0] == Unk
  }

  /** What `load` produces passes `Cleaned`. */
  lemma CleanCatVocabCleaned(catVocab: seq<(string, seq<Value>)>, floatRepr: real -> string, out: seq<(string, seq<string>)>)
    requires |out| == |catVocab|
    requires forall i :: 0 <= i < |catVocab| ==> out[i] == (catVocab[i].0, CleanedVocab(catVocab[i].1, floatRepr))
    ensures Cleaned(out)
  {
  }

  lemma {:induction false} LookupCleaned(catVocab: seq<(string, seq<string>)>, f: string)
    requires Cleaned(catVocab)
    ensures Lookup(catVocab, f).Some? ==> Unk in Lookup(catVocab, f).value
  {
    if catVocab != [] && catVocab[0].0 != f {
      LookupCleaned(catVocab[1..], f);
    }
  }

  // ---------------------------------------------------------------------
  // The feature frame (lines 38-50).

  /** A cell of the frame the booster reads. */
  datatype Feature = Category(c: string) | Number(x: real) | Missing

  /** Lines 42-44: the text of the cell, `__UNK__` when the vocabulary lacks
      it; a text that is not a category of the vocabulary is missing. */
  function CatFeature(vocab: seq<string>, t: string): (f: Feature)
    ensures f.Category? ==> f.c in vocab
  {
    if t in vocab then Category(t) else if Unk in vocab then Category(Unk) else Missing
  }

  /** Line 49: `pd.to_numeric(errors="coerce")`. */
  function NumFeature(v: Value): (f: Feature)
    ensures f.Number? <==> ToNumeric(v).Some?
    ensures !f.Category?
  {
    match ToNumeric(v)
    case Some(x) => Number(x)
    case None => Missing
  }

  /** Feature `f` of output row `p`: missing when the rows have no such
      column (line 46), categorical when `cat_vocab` lists it, numeric
      otherwise. */
  function FeatureOf(catVocab: seq<(string, seq<string>)>, f: string, p: PairRow, floatRepr: real -> string): Feature {
    match PairCol(p, f)
    case None => Missing
    case Some(v) =>
      match Lookup(catVocab, f)
      case Some(vocab) => CatFeature(vocab, StrOf(v, floatRepr))
      case None => NumFeature(v)
  }

  function Column(catVocab: seq<(string, seq<string>)>, f: string, ps: seq<PairRow>, floatRepr: real -> string): (col: seq<Feature>)
    ensures |col| == |ps|
    ensures forall i :: 0 <= i < |ps| ==> col[i] == FeatureOf(catVocab, f, ps[i], floatRepr)
  {
    seq(|ps|, i requires 0 <= i < |ps| => FeatureOf(catVocab, f, ps[i], floatRepr))
  }

  /** The frame of line 50, column by column in the order of `feature_names`. */
  function PrepSpec(catVocab: seq<(string, seq<string>)>, featureNames: seq<string>, ps: seq<PairRow>,
                    floatRepr: real -> string): (x: seq<seq<Feature>>)
    ensures |x| == |featureNames|
  {
    seq(|featureNames|, j requires 0 <= j < |featureNames| => Column(catVocab, featureNames[j], ps, floatRepr))
  }

  /** `_prep_df_for_predict`: one column per feature name. */
  method PrepDf(catVocab: seq<(string, seq<string>)>, featureNames: seq<string>, ps: seq<PairRow>,
                floatRepr: real -> string) returns (x: seq<seq<Feature>>)
    ensures x == PrepSpec(catVocab, featureNames, ps, floatRepr)
  {
    x := [];
    for j := 0 to |featureNames|
      invariant x == PrepSpec(catVocab, featureNames[..j], ps, floatRepr)
    {
      x := x + [Column(catVocab, featureNames[j], ps, floatRepr)];
      assert featureNames[..j + 1][..j] == featureNames[..j];
    }
    assert featureNames[..|featureNames|] == featureNames;
  }

  /** With cleaned vocabularies every categorical feature the rows have is
      a category of its vocabulary: the cell's text, or `__UNK__` for a text
      the vocabulary lacks. */
  lemma PrepCategories(catVocab: seq<(string, seq<string>)>, f: string, p: PairRow, floatRepr: real -> string)
    requires Cleaned(catVocab) && Lookup(catVocab, f).Some?
    requires f in ColsNum + ColsCat
    ensures var t := StrOf(PairCol(p, f).value, floatRepr); var vocab := Lookup(catVocab, f).value;
      FeatureOf(catVocab, f, p, floatRepr) == Category(if t in vocab then t else Unk)
  {
    PairColumns(p, f);
    LookupCleaned(catVocab, f);
  }

  /** A feature name the rows lack is missing, whatever the vocabularies. */
  lemma PrepAbsentFeature(catVocab: seq<(string, seq<string>)>, f: string, p: PairRow, floatRepr: real -> string)
    requires f !in ColsNum + ColsCat
    ensures FeatureOf(catVocab, f, p, floatRepr) == Missing
  {
    PairColumns(p, f);
  }

  /** A column `cat_vocab` does not list is never categorical, and a number
      in it reaches the booster unchanged. */
  lemma PrepNumbers(catVocab: seq<(string, seq<string>)>, f: string, p: PairRow, floatRepr: real -> string)
    requires Lookup(catVocab, f).None? && f in ColsNum + ColsCat
    ensures !FeatureOf(catVocab, f, p, floatRepr).Category?
    ensures NumberOf(PairCol(p, f).value).Some?
      ==> FeatureOf(catVocab, f, p, floatRepr) == Number(NumberOf(PairCol(p, f).value).value)
  {
    PairColumns(p, f);
  }

  // ---------------------------------------------------------------------
  // Threshold, sort and de-duplication (lines 62-69).

  /** `L2PredictResult`. */
  datatype L2PredictResult = L2PredictResult(maXetTuyen: string, score: real)

  function ScoresOf(rs: seq<L2PredictResult>): (p: seq<real>)
    ensures |p| == |rs|
    ensures forall i :: 0 <= i < |rs| ==> p[i] == rs[i].score
  {
    seq(|rs|, i requires 0 <= i < |rs| => rs[i].score)
  }

  function CodesOf(rs: seq<L2PredictResult>): (c: seq<string>)
    ensures |c| == |rs|
    ensures forall i :: 0 <= i < |rs| ==> c[i] == rs[i].maXetTuyen
  {
    seq(|rs|, i requires 0 <= i < |rs| => rs[i].maXetTuyen)
  }

  function Reorder(rs: seq<L2PredictResult>, o: seq<nat>): (r: seq<L2PredictResult>)
    requires InBounds(o, |rs|)
    ensures |r| == |o|
    ensures forall k :: 0 <= k < |o| ==> r[k] == rs[o[k]]
  {
    seq(|o|, k requires 0 <= k < |o| => rs[o[k]])
  }

  /** `sort_values("score", ascending=False)`: the entries by non-increasing
      score, through a stable sort, so tied scores keep their row order. */
  function SortByScore(rs: seq<L2PredictResult>): (r: seq<L2PredictResult>)
    ensures |r| == |rs|
  {
    Reorder(rs, ArgsortDescStable(ScoresOf(rs)))
  }

  /** `drop_duplicates(subset="cand_ma_xet_tuyen", keep="first")`. */
  function DropDuplicateCodes(rs: seq<L2PredictResult>): seq<L2PredictResult> {
    if rs == [] then []
    else
      var n := |rs|;
      DropDuplicateCodes(rs[..n - 1]) + (if rs[n - 1].maXetTuyen in CodesOf(rs[..n - 1]) then [] else [rs[n - 1]])
  }

  function AboveThreshold(rs: seq<L2PredictResult>, threshold: real): seq<L2PredictResult> {
    Filter(rs, (r: L2PredictResult) => r.score >= threshold)
  }

  /** The ranked list `top`. */
  function Top(rs: seq<L2PredictResult>, threshold: real): seq<L2PredictResult> {
    DropDuplicateCodes(SortByScore(AboveThreshold(rs, threshold)))
  }

  predicate SortedByScore(rs: seq<L2PredictResult>) {
    forall k, l :: 0 <= k < l < |rs| ==> rs[k].score >= rs[l].score
  }

  predicate DistinctCodes(rs: seq<L2PredictResult>) {
    forall k, l :: 0 <= k < l < |rs| ==> rs[k].maXetTuyen != rs[l].maXetTuyen
  }

  /** No entry of `rs` with the code of `x` scores higher. */
  predicate BestOfCode(rs: seq<L2PredictResult>, x: L2PredictResult) {
    forall y :: y in rs && y.maXetTuyen == x.maXetTuyen ==> y.score <= x.score
  }

  lemma SortByScoreSorted(rs: seq<L2PredictResult>)
    ensures SortedByScore(SortByScore(rs))
  {
    var p := ScoresOf(rs);
    var o := ArgsortDescStable(p);
    var r := SortByScore(rs);
    forall k, l | 0 <= k < l < |r|
      ensures r[k].score >= r[l].score
    {
      assert r[k] == rs[o[k]] && r[l] == rs[o[l]];
      assert p[o[k]] >= p[o[l]];
    }
  }

  /** Sorting keeps every entry and adds none. */
  lemma SortByScoreMembers(rs: seq<L2PredictResult>, x: L2PredictResult)
    ensures x in SortByScore(rs) <==> x in rs
  {
    var p := ScoresOf(rs);
    var o := ArgsortDescStable(p);
    var r := SortByScore(rs);
    if x in rs {
      var i :| 0 <= i < |rs| && rs[i] == x;
      var k := IndexPermCovers(o, |rs|, i);
      assert r[k] == x;
    }
    if x in r {
      var k :| 0 <= k < |r| && r[k] == x;
      assert rs[o[k]] == x;
    }
  }

  /** Sorting is a permutation: every entry is kept exactly as often. */
  lemma SortByScorePermutation(rs: seq<L2PredictResult>)
    ensures multiset(SortByScore(rs)) == multiset(rs)
  {
    var o := ArgsortDescStable(ScoresOf(rs));
    SelectPermuted(rs, o);
    assert SortByScore(rs) == Select(rs, o);
  }

  /** Two tied scores keep their row order. */
  /** Stability: of two entries with the same score, the one listed first
      comes from the earlier row. */
  lemma SortByScoreStable(rs: seq<L2PredictResult>)
    ensures var r := SortByScore(rs);
      forall k, l :: 0 <= k < l < |r| && r[k].score == r[l].score ==>
        exists i, j :: 0 <= i < j < |rs| && r[k] == rs[i] && r[l] == rs[j]
  {
    var p := ScoresOf(rs);
    var o := ArgsortDescStable(p);
    var r := SortByScore(rs);
    forall k, l | 0 <= k < l < |r| && r[k].score == r[l].score
      ensures exists i, j :: 0 <= i < j < |rs| && r[k] == rs[i] && r[l] == rs[j]
    {
      assert r[k] == rs[o[k]] && r[l] == rs[o[l]];
      assert p[o[k]] == p[o[l]];
    }
  }

  lemma SortByScoreTieExample()
    ensures SortByScore([L2PredictResult("A", 0.5), L2PredictResult("B", 0.5)])
         == [L2PredictResult("A", 0.5), L2PredictResult("B", 0.5)]
  {
    var rs := [L2PredictResult("A", 0.5), L2PredictResult("B", 0.5)];
    var p := ScoresOf(rs);
    var o := ArgsortDescStable(p);
    assert p[o[0]] == p[o[1]] == 0.5;
    assert o == [0, 1];
  }

  /** An entry survives the de-duplication exactly when no earlier entry
      has its code. */
  lemma DropDupMembers(rs: seq<L2PredictResult>, x: L2PredictResult)
    ensures x in DropDuplicateCodes(rs)
      <==> exists i :: 0 <= i < |rs| && rs[i] == x && x.maXetTuyen !in CodesOf(rs[..i])
  {
    if x in DropDuplicateCodes(rs) {
      DropDupSound(rs, x);
    }
    if exists i :: 0 <= i < |rs| && rs[i] == x && x.maXetTuyen !in CodesOf(rs[..i]) {
      var i :| 0 <= i < |rs| && rs[i] == x && x.maXetTuyen !in CodesOf(rs[..i]);
      DropDupComplete(rs, i);
    }
  }

  lemma {:induction false} DropDupSound(rs: seq<L2PredictResult>, x: L2PredictResult)
    requires x in DropDuplicateCodes(rs)
    ensures exists i :: 0 <= i < |rs| && rs[i] == x && x.maXetTuyen !in CodesOf(rs[..i])
  {
    assert rs != [];
    var n := |rs|;
    var init := rs[..n - 1];
    if x in DropDuplicateCodes(init) {
      DropDupSound(init, x);
      var i :| 0 <= i < |init| && init[i] == x && x.maXetTuyen !in CodesOf(init[..i]);
      assert rs[..i] == init[..i];
      assert rs[i] == x;
    } else {
      assert rs[n - 1] == x;
      assert rs[..n - 1] == init;
    }
  }

  lemma {:induction false} DropDupComplete(rs: seq<L2PredictResult>, i: nat)
    requires i < |rs| && rs[i].maXetTuyen !in CodesOf(rs[..i])
    ensures rs[i] in DropDuplicateCodes(rs)
  {
    var n := |rs|;
    var init := rs[..n - 1];
    if i < n - 1 {
      assert init[i] == rs[i] && init[..i] == rs[..i];
      DropDupComplete(init, i);
    } else {
      assert rs[..i] == init;
    }
  }

  lemma DropDupElement(rs: seq<L2PredictResult>, x: L2PredictResult)
    requires x in DropDuplicateCodes(rs)
    ensures x in rs && x.maXetTuyen in CodesOf(rs)
  {
    DropDupMembers(rs, x);
    var i :| 0 <= i < |rs| && rs[i] == x && x.maXetTuyen !in CodesOf(rs[..i]);
    assert CodesOf(rs)[i] == x.maXetTuyen;
  }

  lemma {:induction false} DropDupDistinct(rs: seq<L2PredictResult>)
    ensures DistinctCodes(DropDuplicateCodes(rs))
  {
    if rs != [] {
      var n := |rs|;
      var init := rs[..n - 1];
      DropDupDistinct(init);
      var d := DropDuplicateCodes(init);
      if rs[n - 1].maXetTuyen !in CodesOf(init) {
        forall k | 0 <= k < |d|
          ensures d[k].maXetTuyen != rs[n - 1].maXetTuyen
        {
          DropDupElement(init, d[k]);
        }
      }
    }
  }

  lemma {:induction false} DropDupSorted(rs: seq<L2PredictResult>)
    requires SortedByScore(rs)
    ensures SortedByScore(DropDuplicateCodes(rs))
  {
    if rs != [] {
      var n := |rs|;
      var init := rs[..n - 1];
      assert SortedByScore(init);
      DropDupSorted(init);
      var d := DropDuplicateCodes(init);
      forall k | 0 <= k < |d|
        ensures d[k].score >= rs[n - 1].score
      {
        DropDupElement(init, d[k]);
        var i :| 0 <= i < |init| && init[i] == d[k];
      }
    }
  }

  /** The first entry with code `c`. */
  lemma {:induction false} FirstWithCode(s: seq<L2PredictResult>, c: string, k: nat) returns (i: nat)
    requires k < |s| && s[k].maXetTuyen == c
    ensures i <= k && s[i].maXetTuyen == c && c !in CodesOf(s[..i])
    decreases k
  {
    if c in CodesOf(s[..k]) {
      var j :| 0 <= j < k && CodesOf(s[..k])[j] == c;
      assert s[j].maXetTuyen == c;
      i := FirstWithCode(s, c, j);
    } else {
      i := k;
    }
  }

  /** The sorted list holds the entries that reach the threshold. */
  lemma SortedAbove(rs: seq<L2PredictResult>, t: real, y: L2PredictResult)
    ensures y in SortByScore(AboveThreshold(rs, t)) <==> y in rs && y.score >= t
  {
    SortByScoreMembers(AboveThreshold(rs, t), y);
    FilterMembers(rs, (r: L2PredictResult) => r.score >= t, y);
  }

  /** In a sorted list the first entry with a code scores best for it. */
  lemma FirstOfCodeBest(s: seq<L2PredictResult>, i: nat, y: L2PredictResult)
    requires SortedByScore(s) && i < |s| && s[i].maXetTuyen !in CodesOf(s[..i])
    requires y in s && y.maXetTuyen == s[i].maXetTuyen
    ensures y.score <= s[i].score
  {
    var j :| 0 <= j < |s| && s[j] == y;
    assert j >= i by {
      assert forall m :: 0 <= m < i ==> CodesOf(s[..i])[m] == s[m].maXetTuyen;
    }
  }

  lemma TopSound(rs: seq<L2PredictResult>, t: real, x: L2PredictResult)
    requires x in Top(rs, t)
    ensures x in rs && x.score >= t && BestOfCode(rs, x)
  {
    var s := SortByScore(AboveThreshold(rs, t));
    SortByScoreSorted(AboveThreshold(rs, t));
    DropDupMembers(s, x);
    var i :| 0 <= i < |s| && s[i] == x && x.maXetTuyen !in CodesOf(s[..i]);
    SortedAbove(rs, t, x);
    forall y | y in rs && y.maXetTuyen == x.maXetTuyen
      ensures y.score <= x.score
    {
      SortedAbove(rs, t, y);
      if y.score >= t {
        FirstOfCodeBest(s, i, y);
      }
    }
  }

  lemma TopComplete(rs: seq<L2PredictResult>, t: real, x: L2PredictResult)
    requires x in rs && x.score >= t && BestOfCode(rs, x)
    ensures x in Top(rs, t)
  {
    var s := SortByScore(AboveThreshold(rs, t));
    SortByScoreSorted(AboveThreshold(rs, t));
    SortedAbove(rs, t, x);
    var k :| 0 <= k < |s| && s[k] == x;
    var i := FirstWithCode(s, x.maXetTuyen, k);
    if i < k {
      assert s[i].score >= s[k].score;
    }
    SortedAbove(rs, t, s[i]);
    assert s[i].score <= x.score;
    assert s[i].maXetTuyen == x.maXetTuyen && s[i].score == x.score;
    DropDupComplete(s, i);
  }

  /** An entry is ranked exactly when it reaches the threshold and no entry
      with its code scores higher. */
  lemma TopMembers(rs: seq<L2PredictResult>, t: real, x: L2PredictResult)
    ensures x in Top(rs, t) <==> x in rs && x.score >= t && BestOfCode(rs, x)
  {
    if x in Top(rs, t) {
      TopSound(rs, t, x);
    }
    if x in rs && x.score >= t && BestOfCode(rs, x) {
      TopComplete(rs, t, x);
    }
  }

  /** The ranked list is sorted by score, best first, and lists each code once. */
  lemma TopShape(rs: seq<L2PredictResult>, t: real)
    ensures SortedByScore(Top(rs, t)) && DistinctCodes(Top(rs, t))
  {
    var s := SortByScore(AboveThreshold(rs, t));
    SortByScoreSorted(AboveThreshold(rs, t));
    DropDupSorted(s);
    DropDupDistinct(s);
  }

  /** Raising the threshold only removes entries. */
  lemma TopThresholdMonotone(rs: seq<L2PredictResult>, t1: real, t2: real, x: L2PredictResult)
    requires t1 <= t2 && x in Top(rs, t2)
    ensures x in Top(rs, t1)
  {
    TopMembers(rs, t2, x);
    TopMembers(rs, t1, x);
  }

  // ---------------------------------------------------------------------
  // `_has_cefr` (lines 72-83).

  const CefrLevels: set<string> := {"A1", "A2", "B1", "B2", "C1", "C2"}

  /** A character of `\w`, restricted to ASCII. */
  predicate IsWordChar(c: char) {
    'A' <= c <= 'Z' || 'a' <= c <= 'z' || IsDigit(c) || c == '_'
  }

  /** `\b(A1|A2|B1|B2|C1|C2)\b` matches at position `i`. The text searched
      is already upper-cased, so the `re.I` flag changes nothing. */
  predicate CefrAt(s: string, i: nat) {
    i + 2 <= |s| && s[i..i + 2] in CefrLevels
    && (i == 0 || !IsWordChar(s[i - 1]))
    && (i + 2 == |s| || !IsWordChar(s[i + 2]))
  }

  /** `_CEFR_RE.search(s)` from position `i`: the leftmost match. */
  function FirstCefrFrom(s: string, i: nat): (r: Option<string>)
    ensures r.Some? ==> r.value in CefrLevels
    decreases |s| - i
  {
    if i + 2 > |s| then None
    else if CefrAt(s, i) then Some(s[i..i + 2])
    else FirstCefrFrom(s, i + 1)
  }

  function UpperAll(ts: set<string>): set<string> {
    set t | t in ts :: Upper(t)
  }

  /** `_has_cefr(val, targets)`: the first CEFR token decides; without one,
      any target occurring in the text counts. */
  predicate HasCefr(val: Option<string>, targets: set<string>) {
    if val.None? || val.value == "" then false
    else
      var s := Upper(val.value);
      match FirstCefrFrom(s, 0)
      case Some(tok) => tok in UpperAll(targets)
      case None => exists t :: t in targets && Contains(s, Upper(t))
  }

  lemma UpperLower(x: string)
    ensures Upper(Lower(x)) == Upper(x)
  {
  }

  /** The test ignores case. */
  lemma HasCefrIgnoresCase(x: string, targets: set<string>)
    ensures HasCefr(Some(Lower(x)), targets) == HasCefr(Some(x), targets)
    ensures HasCefr(Some(Upper(x)), targets) == HasCefr(Some(x), targets)
  {
    UpperLower(x);
    UpperIdempotent(x);
  }

  /** A token found in `s` is still the first one when text follows after a
      separator. */
  lemma {:induction false} FirstCefrAppend(s: string, t: string, i: nat)
    requires |t| > 0 && !IsWordChar(t[0])
    requires FirstCefrFrom(s, i).Some?
    ensures FirstCefrFrom(s + t, i) == FirstCefrFrom(s, i)
    decreases |s| - i
  {
    var s' := s + t;
    assert s'[i..i + 2] == s[i..i + 2];
    if i > 0 {
      assert s'[i - 1] == s[i - 1];
    }
    if i + 2 < |s| {
      assert s'[i + 2] == s[i + 2];
    } else {
      assert s'[i + 2] == t[0];
    }
    if !CefrAt(s, i) {
      FirstCefrAppend(s, t, i + 1);
    }
  }

  /** Once the text holds a CEFR token, whatever is written after it (past
      a space) cannot change the verdict: the first token decides. */
  lemma FirstTokenDecides(a: string, b: string, targets: set<string>)
    requires FirstCefrFrom(Upper(a), 0).Some?
    ensures HasCefr(Some(a + " " + b), targets) == HasCefr(Some(a), targets)
  {
    assert Upper(a + " " + b) == Upper(a) + (" " + Upper(b));
    FirstCefrAppend(Upper(a), " " + Upper(b), 0);
  }

  lemma CefrLevelLetters(t: string)
    ensures t in CefrLevels ==> |t| == 2 && t[0] in "ABC"
  {
  }

  /** A lower-case level is found. */
  lemma CefrLowerCaseExample()
    ensures HasCefr(Some("ielts b2"), {"B1", "B2"})
  {
    var s := Upper("ielts b2");
    assert s == "IELTS B2";
    assert s[6..8] == "B2" && s[5] == ' ';
    assert CefrAt(s, 6);
    forall i | 0 <= i < 6
      ensures !CefrAt(s, i)
    {
      assert s[i..i + 2][0] == s[i];
      assert s[i] in "IELTS ";
      CefrLevelLetters(s[i..i + 2]);
    }
    assert FirstCefrFrom(s, 6) == Some("B2");
    assert FirstCefrFrom(s, 0) == Some("B2");
    assert Upper("B2") == "B2";
  }

  /** A level later in the text does not override the first one. */
  lemma CefrFirstTokenExample()
    ensures !HasCefr(Some("B1 A2"), {"A2"})
  {
    var s := Upper("B1 A2");
    assert s == "B1 A2";
    assert s[0..2] == "B1" && s[2] == ' ';
    assert FirstCefrFrom(s, 0) == Some("B1");
    assert Upper("A2") == "A2";
  }

  /** Without a whole-word token a target inside a longer word still counts. */
  lemma CefrContainmentExample()
    ensures HasCefr(Some("XB1"), {"B1"})
  {
    var s := Upper("XB1");
    assert s == "XB1";
    assert s[0..2] == "XB" && s[0] == 'X';
    assert !CefrAt(s, 0) && !CefrAt(s, 1);
    assert FirstCefrFrom(s, 0) == None;
    assert Upper("B1") == "B1";
    assert s[1..3] == "B1";
    ContainsAt(s, "B1", 1);
  }

  // ---------------------------------------------------------------------
  // `discount_fee` (lines 85-117).

  /** Line 108: the programmes the tuition rule applies to. */
  predicate IsUefThptqg(code: string) {
    StartsWith(code, "UEF") && EndsWith(code, "THPTQG")
  }

  predicate Tier1(u: UserInputL2) {
    ((21.0 <= u.diemChuan < 24.0) || HasCefr(Some(u.diemCcta), {"A2"})) && u.hocPhi >= 60_000_000.0
  }

  predicate Tier2(u: UserInputL2) {
    ((24.0 <= u.diemChuan < 27.0) || HasCefr(Some(u.diemCcta), {"B1", "B2"})) && u.hocPhi >= 40_000_000.0
  }

  predicate Tier3(u: UserInputL2) {
    ((27.0 <= u.diemChuan <= 30.0) || HasCefr(Some(u.diemCcta), {"C1", "C2"})) && u.hocPhi >= 0.0
  }

  /** Lines 108-116: whether result `r` stays. */
  predicate KeepsResult(u: UserInputL2, r: L2PredictResult) {
    !IsUefThptqg(r.maXetTuyen) || Tier1(u) || Tier2(u) || Tier3(u)
  }

  function DiscountSpec(u: UserInputL2, results: seq<L2PredictResult>): seq<L2PredictResult> {
    Filter(results, (r: L2PredictResult) => KeepsResult(u, r))
  }

  /** `discount_fee`. The score and the budget are already numbers, so the
      fallbacks of lines 93-101 never apply. */
  method DiscountFee(u: UserInputL2, results: seq<L2PredictResult>) returns (out: seq<L2PredictResult>)
    ensures out == DiscountSpec(u, results)
  {
    var score := u.diemChuan;
    var budget := u.hocPhi;
    out := [];
    for i := 0 to |results|
      invariant out == DiscountSpec(u, results[..i])
    {
      var r := results[i];
      var code := r.maXetTuyen;
      FilterSnoc(results[..i], r, (r: L2PredictResult) => KeepsResult(u, r));
      assert results[..i + 1] == results[..i] + [r];
      if StartsWith(code, "UEF") && EndsWith(code, "THPTQG") {
        var tier1 := ((21.0 <= score < 24.0) || HasCefr(Some(u.diemCcta), {"A2"})) && budget >= 60_000_000.0;
        var tier2 := ((24.0 <= score < 27.0) || HasCefr(Some(u.diemCcta), {"B1", "B2"})) && budget >= 40_000_000.0;
        var tier3 := ((27.0 <= score <= 30.0) || HasCefr(Some(u.diemCcta), {"C1", "C2"})) && budget >= 0.0;
        if tier1 || tier2 || tier3 {
          out := out + [r];
        }
      } else {
        out := out + [r];
      }
    }
    assert results[..|results|] == results;
  }

  /** The filter only removes entries, keeps the order, and keeps every
      code outside the rule. */
  lemma DiscountKeepsOthers(u: UserInputL2, results: seq<L2PredictResult>, x: L2PredictResult)
    ensures IsSubsequence(DiscountSpec(u, results), results)
    ensures x in results && !IsUefThptqg(x.maXetTuyen) ==> x in DiscountSpec(u, results)
  {
    FilterIsSubsequence(results, (r: L2PredictResult) => KeepsResult(u, r));
    FilterMembers(results, (r: L2PredictResult) => KeepsResult(u, r), x);
  }

  /** The decision is one for all programmes of the rule: it reads neither
      the score of the result nor its code beyond the prefix and suffix. */
  lemma KeepsIsPerStudent(u: UserInputL2, r1: L2PredictResult, r2: L2PredictResult)
    requires IsUefThptqg(r1.maXetTuyen) && IsUefThptqg(r2.maXetTuyen)
    ensures KeepsResult(u, r1) == KeepsResult(u, r2)
  {
  }

  /** A larger budget never drops a result that a smaller one keeps. */
  lemma KeepsBudgetMonotone(u: UserInputL2, budget: real, r: L2PredictResult)
    requires KeepsResult(u, r) && u.hocPhi <= budget
    ensures KeepsResult(u.(hocPhi := budget), r)
  {
  }

  /** With a negative budget every programme of the rule is dropped and all
      others stay. */
  lemma NegativeBudgetDropsRule(u: UserInputL2, results: seq<L2PredictResult>)
    requires u.hocPhi < 0.0
    ensures DiscountSpec(u, results) == Filter(results, (r: L2PredictResult) => !IsUefThptqg(r.maXetTuyen))
  {
    FilterExt(results, (r: L2PredictResult) => KeepsResult(u, r), (r: L2PredictResult) => !IsUefThptqg(r.maXetTuyen));
  }

  /** A score of 23.999 with a budget of 60,000,000 meets the first tier. */
  lemma FirstTierExample(u: UserInputL2, r: L2PredictResult)
    requires u.diemChuan == 23.999 && u.hocPhi == 60_000_000.0
    ensures KeepsResult(u, r)
  {
  }

  /** Without any CEFR level in the certificate text, a score outside
      [21, 30] drops every programme of the rule. */
  lemma OutOfRangeDropsRule(u: UserInputL2, r: L2PredictResult)
    requires !HasCefr(Some(u.diemCcta), {"A2"}) && !HasCefr(Some(u.diemCcta), {"B1", "B2"})
    requires !HasCefr(Some(u.diemCcta), {"C1", "C2"})
    requires u.diemChuan < 21.0 || u.diemChuan > 30.0
    requires IsUefThptqg(r.maXetTuyen)
    ensures !KeepsResult(u, r)
  {
  }

  // ---------------------------------------------------------------------
  // `predict` (lines 52-70).

  /** `L2Predictor`: the booster (with its iteration count) is a function
      from the feature frame to one score per row. */
  datatype L2Model = L2Model(
    booster: seq<seq<Feature>> -> seq<real>,
    featureNames: seq<string>,
    catVocab: seq<(string, seq<string>)>,
    threshold: real)

  datatype L2Error =
    | PrepFailed(e: PrepError)
      /** Line 60: pandas refuses a score column of the wrong length. */
    | ScoreLengthMismatch

  /** Lines 60 and 64: each row's programme code as text, with its score. */
  function Scored(ps: seq<PairRow>, score: seq<real>, floatRepr: real -> string): (rs: seq<L2PredictResult>)
    requires |score| == |ps|
    ensures |rs| == |ps|
    ensures forall i :: 0 <= i < |ps| ==> rs[i] == L2PredictResult(StrOf(ps[i].candMaXetTuyen, floatRepr), score[i])
  {
    seq(|ps|, i requires 0 <= i < |ps| => L2PredictResult(StrOf(ps[i].candMaXetTuyen, floatRepr), score[i]))
  }

  /** The scores the booster gives the rows `ps`. */
  function BoosterScores(m: L2Model, ps: seq<PairRow>, floatRepr: real -> string): seq<real> {
    m.booster(PrepSpec(m.catVocab, m.featureNames, ps, floatRepr))
  }

  function PredictSpec(m: L2Model, u: UserInputL2, catalog: Frame, floatRepr: real -> string)
    : Result<seq<L2PredictResult>, L2Error>
  {
    match PreprocessL2(u, catalog, floatRepr)
    case Failure(e) => Failure(PrepFailed(e))
    case Success(ps) =>
      if ps == [] then Success([])
      else
        var score := BoosterScores(m, ps, floatRepr);
        if |score| != |ps| then Failure(ScoreLengthMismatch)
        else Success(DiscountSpec(u, Top(Scored(ps, score, floatRepr), m.threshold)))
  }

  /** `predict`. The frame has one row per pair, so the check of line 56
      never fires once line 54 has passed. */
  method Predict(m: L2Model, u: UserInputL2, catalog: Frame, floatRepr: real -> string)
    returns (res: Result<seq<L2PredictResult>, L2Error>)
    ensures res == PredictSpec(m, u, catalog, floatRepr)
  {
    var processed := InputToPairs(StudentFrame(u), catalog, floatRepr);
    if processed.Failure? {
      return Failure(PrepFailed(processed.error));
    }
    var ps := processed.value;
    if ps == [] {
      return Success([]);
    }
    var x := PrepDf(m.catVocab, m.featureNames, ps, floatRepr);
    var score := m.booster(x);
    if |score| != |ps| {
      return Failure(ScoreLengthMismatch);
    }
    var top := Top(Scored(ps, score, floatRepr), m.threshold);
    var kept := DiscountFee(u, top);
    res := Success(kept);
  }

  /** The ranked list after the tuition rule. */
  lemma RecommendedShape(u: UserInputL2, rows: seq<L2PredictResult>, t: real)
    ensures var rs := DiscountSpec(u, Top(rows, t));
      SortedByScore(rs) && DistinctCodes(rs)
      && forall x :: x in rs ==> x in rows && x.score >= t && BestOfCode(rows, x) && KeepsResult(u, x)
  {
    var top := Top(rows, t);
    var keep := (r: L2PredictResult) => KeepsResult(u, r);
    TopShape(rows, t);
    FilterPairwise(top, keep, (a: L2PredictResult, b: L2PredictResult) => a.score >= b.score);
    FilterPairwise(top, keep, (a: L2PredictResult, b: L2PredictResult) => a.maXetTuyen != b.maXetTuyen);
    forall x | x in DiscountSpec(u, top)
      ensures x in rows && x.score >= t && BestOfCode(rows, x) && KeepsResult(u, x)
    {
      FilterMembers(top, keep, x);
      TopMembers(rows, t, x);
    }
  }

  /** Every recommendation reaches the threshold, is the best-scored row of
      its programme, passes the tuition rule; the list is sorted by score,
      best first, and names each programme once. */
  lemma PredictResults(m: L2Model, u: UserInputL2, catalog: Frame, floatRepr: real -> string)
    requires PredictSpec(m, u, catalog, floatRepr).Success?
    requires PreprocessL2(u, catalog, floatRepr).Success? && PreprocessL2(u, catalog, floatRepr).value != []
    ensures var ps := PreprocessL2(u, catalog, floatRepr).value;
      var rows := Scored(ps, BoosterScores(m, ps, floatRepr), floatRepr);
      var rs := PredictSpec(m, u, catalog, floatRepr).value;
      SortedByScore(rs) && DistinctCodes(rs)
      && forall x :: x in rs ==> x in rows && x.score >= m.threshold && BestOfCode(rows, x) && KeepsResult(u, x)
  {
    var ps := PreprocessL2(u, catalog, floatRepr).value;
    RecommendedShape(u, Scored(ps, BoosterScores(m, ps, floatRepr), floatRepr), m.threshold);
  }

  /** Raising the threshold only removes recommendations. */
  lemma PredictThresholdMonotone(m: L2Model, t: real, u: UserInputL2, catalog: Frame, floatRepr: real -> string, x: L2PredictResult)
    requires m.threshold <= t
    requires PredictSpec(m.(threshold := t), u, catalog, floatRepr).Success?
    requires x in PredictSpec(m.(threshold := t), u, catalog, floatRepr).value
    ensures PredictSpec(m, u, catalog, floatRepr).Success?
    ensures x in PredictSpec(m, u, catalog, floatRepr).value
  {
    var m2 := m.(threshold := t);
    var ps := PreprocessL2(u, catalog, floatRepr).value;
    assert BoosterScores(m2, ps, floatRepr) == BoosterScores(m, ps, floatRepr);
    var rows := Scored(ps, BoosterScores(m, ps, floatRepr), floatRepr);
    var keep := (r: L2PredictResult) => KeepsResult(u, r);
    FilterMembers(Top(rows, t), keep, x);
    TopThresholdMonotone(rows, m.threshold, t, x);
    FilterMembers(Top(rows, m.threshold), keep, x);
  }
}
