# Admission recommendation core, modelled in Dafny

The system recommends university programmes to Vietnamese high-school
students. It has three pipelines behind an HTTP API:

- **L1, priority admission** (`src/services/l1`). A request names public or
  private schooling, a province, a tuition budget, up to three olympiad
  subjects, three binary priority flags and a programme group.
  - The validator normalises and checks the fields.
  - The preprocessor expands the request into one "variant row" per active
    priority signal, or a single row when there is none.
  - The predictor labels each row with its priority type. A per-group
    classifier then turns the row into programme codes with probabilities.
- **L2, candidate ranking** (`src/services/l2`). A request carries a score,
  a budget, a subject combination, an English certificate and six conduct
  and ability ratings.
  - The preprocessor keeps the catalogue rows that match the request on
    four hard keys and widens each into a feature row.
  - A gradient-boosted model scores the feature rows.
  - The predictor keeps the rows above a threshold, ranks them, keeps one
    per programme and applies a tuition rule to the UEF national-exam
    programmes.
- **L3, transcript scoring** (`src/services/l3`).
  - The request validator.
  - The subject means over three school years.
  - The weighted combination scores and the best combination.
  - The award bonus.
  - The parsing of combination cells.
  - The per-programme scoring of `calculate_hocba`.
  - The school filter.
- **The routers** (`src/api/routers/l1.py`, `l2.py`). Each answers an empty
  list for a province outside the fixed list. Each batch endpoint checks the
  concurrency and the size limit, runs one worker per item and returns the
  results in item order.

Each source file is one Dafny module: `L1Schema`, `L1Preprocess`,
`L1Predictor`, `L2Schema`, `L2Preprocess`, `L2Predictor`, `L3Schema`,
`ScoreCal`, `HocBaCalc`, `SchoolFilter`, `L1Router`, `L2Router` and
`Constants`/`L3Tables`. `Batch` is the batch logic the two routers share.
Helper modules:

- `Wrappers`: Option and Result.
- `Text`: Python's `strip`, `split`, `upper`, `in` and `replace`.
- `Values`: JSON values and pandas cells, with Python's and pydantic's
  coercions.
- `Seqs`: filters that keep order.
- `Ranking`: sums, descending argsort and index permutations.
- `Dicts`: the insertion semantics of a Python dict built from pairs.

The imperative code is modelled as methods with loops, each proved equal to
a specification function. These are the vocabulary cleaning of the L2
loader, the column loop of `_prep_df_for_predict`, the per-student loop, the
`discount_fee` loop, the prediction loops, `get_dtbm`, the best-combination
loop, `calculate_bonus`, `parse_to_hop_from_dataframe`,
`get_unique_subjects`, `calculate_hocba` and the batch gather. The
properties that code promises are then proved as lemmas about those
functions. The validators, the filters and the parsing are functions.

Opaque components are parameters:

- the fitted classifiers, encoders and label encoders (L1);
- the booster (L2);
- `floatRepr`, Python's `repr` of a float, wherever a float is turned into
  text;
- the completion order of the batch workers.

The model follows the code where its comments or docstrings say otherwise:

- `filter_schools` documents a column `tinh_tp` but filters on the column
  `tp` (`src/services/l3/spk/filters.py:23`). The model reads `tp`.
- In `L1Predictor.predict`, a group whose model is `None` but whose class
  list is not empty has no `continue` (lines 85-90). The code then reaches
  line 92. There `ohe_cols` is an undefined name when the encoder has no
  feature names, and otherwise `None.predict` fails at line 109. The model
  returns these error outcomes (`NoneClassifierFails`) rather than the
  `{cls_list[0]: 1.0}` the code appends first.
- The docstring of `calculate_to_hop_score` in score_cal.py gives the
  formula `(2a + b + c) / 4`. The code multiplies by 3 first, giving a
  scale of 30 (line 43). The copy in hb.py has no factor 3 (scale of 10).
  Both are modelled as written, and `HocBaCalc.ScalesDiffer` relates them.
- `Constants.TinhTP` spells "Ðồng Nai" with U+00D0 (the Icelandic eth), as
  the source does (`src/services/constants.py:10`). So a request naming
  "Đồng Nai" with U+0110 is outside the accepted provinces
  (`Constants.ProvinceFacts`).

`get_dtbm` in hb.py is the same code as in score_cal.py, so both files use
`ScoreCal.GetDtbm`/`ScoreCal.Dtbm`.

## Model

| member | source | states |
|---|---|---|
| Constants.ProvinceFacts | src/services/constants.py:3-20 | The province list has 17 names; "Ðồng Nai" begins with U+00D0 and "Đồng Tháp" with U+0110, so the usual spelling "Đồng Nai" is not a member. |
| Values.PyInt | src/services/l1/schema.py:63-69 | `int(v)`: an integer gives itself and `None` raises TypeError. |
| Values.LaxFloat | src/services/l2/schema.py:10-11 | pydantic's lax `float`: every integer and float is accepted as its value. |
| Values.ToNumeric | src/services/l2/preprocess.py:65-75 | `pd.to_numeric(errors="coerce")`: `None` gives NaN, a number gives itself. |
| Values.ParseIntOfDecimal | src/services/l2/preprocess.py:92 | The decimal text of every integer parses back to that integer. |
| Text.StripIdempotent | src/services/l1/schema.py:30-32 | Stripping twice is stripping once. |
| L1Schema.CoerceCongLap | src/services/l1/schema.py:35-43 | A missing or blank value is rejected with the required-field message; otherwise the value is accepted exactly when `int(v)` is 0 or 1, and then it is that integer. |
| L1Schema.CoerceHocPhi | src/services/l1/schema.py:45-51 | Accepted exactly when `float(v)` succeeds and is non-negative; the result is that float. |
| L1Schema.NormHsg | src/services/l1/schema.py:53-61 | `None` stays `None`; a blank or "0" text becomes "0"; any other text becomes its stripped form. |
| L1Schema.CoerceFlag | src/services/l1/schema.py:63-69 | A flag is accepted exactly when `int(v)` is 0 or 1, and keeps that value. |
| L1Schema.NormTinhTp | src/services/l1/schema.py:30-32 | `None` stays `None`, a text is stripped. |
| L1Schema.ValidateHsg | src/services/l1/schema.py:13-15 | An omitted olympiad field takes its default `None`; a given one is accepted exactly when `_norm_hsg` of it is `None`, "0" or an allowed subject, and is stored as that normal form; every value so normalised is accepted unchanged. |
| L1Schema.ValidateFlag | src/services/l1/schema.py:17-19 | An omitted flag takes its default 0; a given one is accepted exactly when `int(v)` is 0 or 1, and is stored as that integer; a rejection names the flag. |
| L1Schema.ValidateCongLap | src/services/l1/schema.py:9 | An omitted value is rejected; a given one is accepted exactly when it is not null or blank and `int(v)` is 0 or 1, and is stored as that integer. |
| L1Schema.ValidateTinhTp | src/services/l1/schema.py:10 | The province is accepted exactly when it is a text, and is stored stripped (a fixed point of stripping). |
| L1Schema.ValidateHocPhi | src/services/l1/schema.py:11-51 | An omitted budget is rejected; a given one (integer, float, boolean or numeric text) is accepted exactly when `float(v)` succeeds and is non-negative, and is stored as that float. |
| L1Schema.ValidateNhomNganh | src/services/l1/schema.py:21 | The group is accepted exactly when it is one of the allowed group values, and is stored unchanged. |
| L1Schema.NormHsgStripped | src/services/l1/schema.py:53-61 | A normalised olympiad field is never empty and is already stripped. |
| L1Schema.ValidateL1 | src/services/l1/schema.py:8-69 | A request is accepted exactly when every field is; each stored field is that field's validated value; every accepted request satisfies every field constraint at once; a rejected `cong_lap` is the error reported. |
| L1Schema.ValidateDumpRoundTrip | src/services/l1/schema.py:8-69 | Validating the `model_dump()` of a valid request gives the same request back. |
| L1Schema.NormHsgIdempotent | src/services/l1/schema.py:53-61 | Normalising an olympiad field twice is normalising it once. |
| L1Schema.NormTinhTpIdempotent | src/services/l1/schema.py:30-32 | Normalising the province twice is normalising it once. |
| L1Schema.ValidProvinceIsMembership | src/services/l1/schema.py:24-28 | After validation, `is_tinh_tp_valid` holds exactly when the stripped raw province is in the province list. |
| L1Preprocess.FirstHsgIsFirstPick | src/services/l1/preprocess.py:44-51 | With no value passing the test the result is "0"; otherwise it is the stripped text of the first value that passes. |
| L1Preprocess.PickHsgValid | src/services/l1/preprocess.py:44-51 | On a validated request the picked subject is "0" or an allowed subject, and it is "0" exactly when every olympiad field is `None` or "0". |
| L1Preprocess.FirstHsgValidated | src/services/l1/preprocess.py:44-51 | Over validated values the first pick is "0" or an allowed subject, and "0" exactly when no value names a subject. |
| L1Preprocess.PicksValidated | src/services/l1/preprocess.py:47 | A validated olympiad value passes the test exactly when it names a subject, and it is already stripped and allowed. |
| L1Preprocess.Tagged | src/services/l1/preprocess.py:11 | Adding the subject column keeps the number of rows. |
| L1Preprocess.HsgRows | src/services/l1/preprocess.py:16-18 | The olympiad part has no more rows than the frame. |
| L1Preprocess.FlagRows | src/services/l1/preprocess.py:20-26 | A flag's part has no more rows than the frame. |
| L1Preprocess.NoneRows | src/services/l1/preprocess.py:28-34 | The no-signal part has no more rows than the frame. |
| L1Preprocess.KeepAtMostOne | src/services/l1/preprocess.py:37-41 | The final filter only removes rows. |
| L1Preprocess.CleanAndCast | src/services/l1/preprocess.py:10-42 | The loop-built frame is the expansion `Expand`: the subject column, the olympiad rows, the rows of each flag, the no-signal rows, concatenated and filtered to at most one active signal. |
| L1Preprocess.ExpandFrame | src/services/l1/preprocess.py:15-42 | The list of frames built by the loop over the three flags holds the olympiad part, the flag parts in the order ahld, dan_toc_thieu_so, haimuoi_huyen_ngheo_tnb, and the none part; their concatenation is filtered to at most one active signal. |
| L1Preprocess.AllRowsActiveAtMostOne | src/services/l1/preprocess.py:37-41 | The final filter keeps every row that has at most one active signal. |
| L1Preprocess.RowVariantsActiveAtMostOne | src/services/l1/preprocess.py:16-41 | Every variant row of a request row carries at most one active signal, so the final filter removes nothing. |
| L1Preprocess.FlagRowsOne | src/services/l1/preprocess.py:20-26 | A one-row frame gives its flag row exactly when the flag is 1. |
| L1Preprocess.PartsOne | src/services/l1/preprocess.py:16-36 | The concatenated parts of a one-row frame are its variants, case by case. |
| L1Preprocess.ExpandRow | src/services/l1/preprocess.py:36-41 | The filtered concatenation of a one-row frame is its variants. |
| L1Preprocess.ExpandOne | src/services/l1/preprocess.py:5-42 | Preprocessing one request gives exactly its variants. |
| L1Preprocess.VariantCount | src/services/l1/preprocess.py:5-42 | The number of variant rows is the number of active signals, or 1 when there is none: between 1 and 4. |
| L1Preprocess.VariantRowShape | src/services/l1/preprocess.py:16-34 | Each variant row copies the request's non-signal fields, carries at most one signal, and that signal is the picked subject or a flag equal to 1. |
| L1Preprocess.VariantOrder | src/services/l1/preprocess.py:36 | The rows come in the order olympiad, AHLD, ethnic minority, poor district, no signal, each present exactly when its condition holds. |
| L1Predictor.Cell | src/services/l1/predictor.py:66-70 | A cell exists exactly for the columns of the preprocessed frame with `row_id`. |
| L1Predictor.RowValues | src/services/l1/predictor.py:70 | Reading columns succeeds exactly when every column exists, giving one value per column; a missing column raises KeyError naming it. |
| L1Predictor.RankedPairs | src/services/l1/predictor.py:103-106 | Entry k pairs the label and the normalised probability at position `order[k]`. |
| L1Predictor.ProbaMap | src/services/l1/predictor.py:97-107 | A sum of at most 0 gives the empty mapping; otherwise it fails with IndexError exactly when there are fewer labels than probabilities, and succeeds with distinct keys, each entry a label paired with its own probability divided by the sum. |
| L1Predictor.RankedPairsEntries | src/services/l1/predictor.py:103-107 | Every entry of the dict built from the ranked pairs is `labels[i]` with `p[i] / sum`. |
| L1Predictor.RankedPairsCovers | src/services/l1/predictor.py:103-106 | Under a permutation order, every label appears with its own `p[i] / sum`. |
| L1Predictor.Decode | src/services/l1/predictor.py:109-111 | With a label encoder, the label at the predicted index, or ValueError out of range; without one, nothing for an empty class list, else the class at the index, negative indices counting from the end, IndexError out of range. |
| L1Predictor.PredictRow | src/services/l1/predictor.py:69-111 | A row's result carries the label `infer_loai_uu_tien` gives it. |
| L1Predictor.Cells | src/services/l1/predictor.py:93 | One text per feature value, each its `str()`. |
| L1Predictor.PredictRowProba | src/services/l1/predictor.py:93-107 | A row that reaches a probability model succeeds exactly when `ProbaMap` of its probabilities against its group's labels does, with that mapping, and otherwise fails with its error. |
| L1Predictor.PredictRowPlain | src/services/l1/predictor.py:93-111 | A row that reaches a plain model succeeds exactly when decoding its predicted label does, with that mapping, and otherwise fails with the decoding error. |
| L1Predictor.PredictRowNormalised | src/services/l1/predictor.py:93-107 | A row whose probability model gives non-negative probabilities with a positive sum against enough distinct labels succeeds with a normalised mapping: each label exactly once, paired with its own `p_i / sum(p)`, non-increasing, summing to 1. |
| L1Predictor.PredictSpecNormalised | src/services/l1/predictor.py:61-112 | In a successful prediction, every such row's result is a normalised mapping: one entry per probability, each label paired with its own `p_i / sum(p)` and every label present, non-increasing, summing to 1. |
| L1Predictor.PredictPrefix | src/services/l1/predictor.py:69-111 | A successful prefix holds one result per row, each the row's own successful result. |
| L1Predictor.Predict | src/services/l1/predictor.py:61-112 | The loop returns the results of all variant rows in order, or the first row's error; an empty frame gives the single "no priority" result. |
| L1Predictor.PredictFrame | src/services/l1/predictor.py:63-112 | On the frame of variant rows: the single "no priority" result for an empty frame, else one result per row in row order, or the error of the first row that raises. |
| Seqs.TraverseLoop | src/services/l1/predictor.py:66-112 | The loop over the rows of `predict`: it returns the results of all rows in order, or the error of the first row that raises, exactly as the reference traversal does. |
| L1Predictor.PrefixStep | src/services/l1/predictor.py:69-111 | One more row appends its result or ends the prefix with its error. |
| L1Predictor.PrefixFailureStays | src/services/l1/predictor.py:69-111 | Once a row fails, every longer prefix fails with that same error. |
| L1Predictor.ProbaMapNormalised | src/services/l1/predictor.py:97-107 | With non-negative probabilities summing above 0 and distinct labels, the mapping succeeds, lists every label once with the value `p_i / sum(p)` of its own probability, in descending probability, and its values sum to 1. |
| L1Predictor.RankedPairsOrder | src/services/l1/predictor.py:103-105 | A descending order gives non-increasing normalised probabilities. |
| L1Predictor.RankedPairsDistinct | src/services/l1/predictor.py:104-106 | A permutation of distinct labels gives distinct keys. |
| L1Predictor.RankedPairsSum | src/services/l1/predictor.py:99-105 | The normalised probabilities sum to 1. |
| L1Predictor.UnmatchedRowIgnoresModels | src/services/l1/predictor.py:72-78 | A "no priority" row, or one whose group has no model, yields its label with an empty mapping whatever the models are. |
| L1Predictor.NoneClassifierFails | src/services/l1/predictor.py:85-92 | A group whose model is `None` but whose class list is not empty never yields a result: the row ends in NameError, AttributeError or an encoder failure. |
| L1Predictor.VariantRowLabel | src/services/l1/predictor.py:49-59 | Each variant row is labelled by its one signal: "HSG" with the subject, AHLD, ethnic minority, poor district, or no priority. |
| L1Predictor.PredictResults | src/services/l1/predictor.py:61-112 | A successful prediction has one result per variant row, 1 to 4 of them, each labelled as its row. |
| L1Router.PredictMajorL1 | src/api/routers/l1.py:11-15 | A province outside the list gives `[]`; otherwise the predictor's answer. |
| L1Router.PredictMajorL1Batch | src/api/routers/l1.py:21-43 | A concurrency below 1 is rejected and too many items give 413, both before any prediction; otherwise each valid-province item is predicted once, and the answer lists every item's result in item order, or the first failure in completion order. |
| L2Schema.NormTinhTp | src/services/l2/schema.py:28-30 | `None` stays `None`, a text is stripped. |
| L2Schema.NormThm | src/services/l2/schema.py:32-34 | `None` stays `None`, a text is stripped and upper-cased. |
| L2Schema.ValidateInt | src/services/l2/schema.py:7 | An integer field is accepted exactly when pydantic's lax `int` accepts the value, and keeps what it gives. |
| L2Schema.ValidateFloat | src/services/l2/schema.py:10-11 | A float field is accepted exactly when pydantic's lax `float` accepts the value, and keeps what it gives. |
| L2Schema.ValidateStr | src/services/l2/schema.py:8-9 | A text field is accepted exactly when it is a text, and is stored through its normaliser. |
| L2Schema.ValidateRest | src/services/l2/schema.py:10-20 | The fields after `to_hop_mon` are accepted exactly when each is present and convertible (lax `float`, text, lax `int`), and hold the converted values. |
| L2Schema.ValidateL2 | src/services/l2/schema.py:6-34 | A request is accepted exactly when `cong_lap` is a lax integer, both normalised fields are texts and the rest is accepted; it stores the integer, the stripped province, the stripped upper-cased combination and the rest's values. |
| L2Schema.ValidateAcceptsAnyNumbers | src/services/l2/schema.py:6-20 | No field has a range check: every request sent with numbers and texts is accepted. |
| L2Schema.UpperStripped | src/services/l2/schema.py:34 | Upper-casing a stripped text leaves it stripped. |
| L2Schema.ThmNormalised | src/services/l2/schema.py:34 | The normalised combination is upper-case and stripped. |
| L2Schema.ValidatedTexts | src/services/l2/schema.py:28-34 | A validated request stores the stripped province and the stripped, upper-cased combination. |
| L2Schema.ValidateL2Normalised | src/services/l2/schema.py:6-34 | Every validated request has both texts normalised. |
| L2Schema.NormThmIdempotent | src/services/l2/schema.py:32-34 | Normalising the combination twice is normalising it once. |
| L2Schema.NormTinhTpIdempotent | src/services/l2/schema.py:28-30 | Normalising the province twice is normalising it once. |
| L2Schema.ValidProvinceIsMembership | src/services/l2/schema.py:22-26 | After validation, `is_tinh_tp_valid` holds exactly when the stripped raw province is in the list. |
| L2Preprocess.FirstMissing | src/services/l2/preprocess.py:39-44 | Nothing is missing exactly when every key is a column; a reported key is a key that is not a column. |
| L2Preprocess.PreFilter | src/services/l2/preprocess.py:34-44 | The pre-filtered catalogue keeps the catalogue's columns. |
| L2Preprocess.NumberToken | src/services/l2/preprocess.py:92 | The first numeric token is non-negative. |
| L2Preprocess.FirstDigit | src/services/l2/preprocess.py:92 | The position of the first digit: no digit before it. |
| L2Preprocess.DigitRun | src/services/l2/preprocess.py:92 | The longest run of digits at the start. |
| L2Preprocess.RatingOf | src/services/l2/preprocess.py:92-94 | A rating read from text is non-negative. |
| L2Preprocess.StudentRatings | src/services/l2/preprocess.py:89-94 | The rating dict has exactly the six rating keys. |
| L2Preprocess.PairsOf | src/services/l2/preprocess.py:65-118 | One output row per candidate row, in order, each widened by `PairOf`. |
| L2Preprocess.CandidatesFor | src/services/l2/preprocess.py:60-119 | A catalogue without `hoc_phi` fails with AttributeError: `to_numeric(None)` returns a NaN float scalar, which has no `.fillna`; otherwise the loop gives the student's pairs. |
| L2Preprocess.AllPairsStep | src/services/l2/preprocess.py:59-121 | One more student appends that student's pairs. |
| L2Preprocess.FilterCandidatesPerStudent | src/services/l2/preprocess.py:50-129 | The per-student loop gives every student's pairs concatenated in student order, or the first failure. |
| L2Preprocess.InputToPairs | src/services/l2/preprocess.py:34-48 | The pre-filter, then the per-student step. |
| L2Preprocess.PairColumns | src/services/l2/preprocess.py:104-118 | An output row has exactly the columns `cols_num + cols_cat`. |
| L2Preprocess.HardFilteredIsFilter | src/services/l2/preprocess.py:61-63 | The successive hard filters are one filter: equality on every applicable key. |
| L2Preprocess.HardFilteredRows | src/services/l2/preprocess.py:61-63 | A candidate is kept exactly when it is a catalogue row equal to the student on every applicable key, and the kept rows keep the catalogue order. |
| L2Preprocess.MatchingRows | src/services/l2/preprocess.py:39-44 | The matching rows are exactly the catalogue rows equal to the request on the four hard keys, in catalogue order. |
| L2Preprocess.InOneStudent | src/services/l2/preprocess.py:35-43 | With one student, `is_in` of the unique values is equality with that student's cell. |
| L2Preprocess.PreFilterOne | src/services/l2/preprocess.py:34-44 | With the hard-key columns present, the pre-filter keeps exactly the matching rows. |
| L2Preprocess.SecondFilterKeepsAll | src/services/l2/preprocess.py:59-63 | The per-student hard filter removes nothing from the pre-filtered rows. |
| L2Preprocess.PairsOfRequest | src/services/l2/preprocess.py:10-129 | With the hard-key columns and `hoc_phi`, the pairs are the matching catalogue rows in order; no match gives no pair, not an error. |
| L2Preprocess.PreprocessErrors | src/services/l2/preprocess.py:39-75 | A missing hard-key column is reported first, a missing `hoc_phi` next. |
| L2Preprocess.DigitRunAll | src/services/l2/preprocess.py:92 | A text of digits is one run. |
| L2Preprocess.NumberTokenOfDigits | src/services/l2/preprocess.py:92 | A text of digits reads as its number. |
| L2Preprocess.RatingOfDecimal | src/services/l2/preprocess.py:92-94 | An integer rating reads back as itself, 0 as 10, and a negative one as its magnitude, since the sign is no part of the token. |
| L2Preprocess.RatingWithoutDigits | src/services/l2/preprocess.py:92 | A text without a digit rates 10. |
| L2Preprocess.RatingOfHalf | src/services/l2/preprocess.py:92-94 | "0.5" is not 0, so it truncates to 0 instead of defaulting to 10. |
| L2Preprocess.CandRatingIsStudentRule | src/services/l2/preprocess.py:96-99 | A catalogue rating follows the student's rule. |
| L2Preprocess.DiffBothMissing | src/services/l2/preprocess.py:96-102 | A rating missing on both sides gives differential 0. |
| L2Preprocess.StudentCells | src/services/l2/preprocess.py:10-11 | The student frame's row holds every request field under its name. |
| L2Preprocess.StudentRatingOfInt | src/services/l2/preprocess.py:89-94 | An integer rating of the student reads as itself, 0 as 10, a negative one as its magnitude. |
| L2Preprocess.StudentColumns | src/services/l2/preprocess.py:65-72 | Every pair carries the student's score, truncated budget, texts and codes. |
| L2Preprocess.StudentDiffs | src/services/l2/preprocess.py:89-102 | Each differential is the requirement minus the student's rating. |
| L2Predictor.Texts | src/services/l2/predictor.py:31 | The texts of the vocabulary are no more than its entries. |
| L2Predictor.RemoveFirst | src/services/l2/predictor.py:34 | `remove` drops one occurrence when there is one and changes nothing otherwise. |
| L2Predictor.CleanVocab | src/services/l2/predictor.py:29-35 | The `seen` loop gives the cleaned vocabulary. |
| L2Predictor.CleanCatVocab | src/services/l2/predictor.py:28-35 | Every vocabulary is replaced by its cleaned form under the same name, in the same order. |
| L2Predictor.IndexOf | src/services/l2/predictor.py:34 | The position of the first occurrence. |
| L2Predictor.IndexOfPrefix | src/services/l2/predictor.py:34 | The first occurrence in a prefix is the first in the whole. |
| L2Predictor.TextsMembers | src/services/l2/predictor.py:31 | The texts are exactly those of the non-`None` entries. |
| L2Predictor.DedupeMembers | src/services/l2/predictor.py:30-33 | De-duplication keeps every text. |
| L2Predictor.DedupeDistinct | src/services/l2/predictor.py:30-33 | De-duplication keeps each text once. |
| L2Predictor.DedupeOrder | src/services/l2/predictor.py:30-33 | De-duplication keeps the order of first occurrence. |
| L2Predictor.RemoveFirstMembers | src/services/l2/predictor.py:34 | In a list without repeats, `remove(x)` drops exactly `x`. |
| L2Predictor.RemoveFirstSubsequence | src/services/l2/predictor.py:34 | `remove` keeps the order of the rest. |
| L2Predictor.SubsequenceDistinct | src/services/l2/predictor.py:34 | Dropping entries keeps a list free of repeats. |
| L2Predictor.CleanedVocabShape | src/services/l2/predictor.py:28-35 | The cleaned vocabulary starts with `__UNK__`, holds it once, has no repeats, and holds exactly `__UNK__` and the texts of the non-`None` entries. |
| L2Predictor.VocabRestOrder | src/services/l2/predictor.py:30-34 | The texts after `__UNK__` keep their first-occurrence order. |
| L2Predictor.CleanedVocabOrder | src/services/l2/predictor.py:28-35 | The cleaned vocabulary lists its texts in the order of first occurrence. |
| L2Predictor.CleanCatVocabCleaned | src/services/l2/predictor.py:28-36 | What the loader stores: every vocabulary starts with `__UNK__`. |
| L2Predictor.LookupCleaned | src/services/l2/predictor.py:40-44 | Every vocabulary found holds `__UNK__`. |
| L2Predictor.CatFeature | src/services/l2/predictor.py:42-44 | A categorical feature is always a category of its vocabulary. |
| L2Predictor.NumFeature | src/services/l2/predictor.py:49 | A numeric feature is a number exactly when `to_numeric` gives one. |
| L2Predictor.Column | src/services/l2/predictor.py:40-50 | A column holds one feature per row. |
| L2Predictor.PrepSpec | src/services/l2/predictor.py:50 | The frame has one column per feature name. |
| L2Predictor.PrepDf | src/services/l2/predictor.py:38-50 | The column loop gives the frame `PrepSpec`. |
| L2Predictor.PrepCategories | src/services/l2/predictor.py:40-44 | With cleaned vocabularies a categorical cell is its text when the vocabulary has it and `__UNK__` otherwise. |
| L2Predictor.PrepAbsentFeature | src/services/l2/predictor.py:45-46 | A feature the rows lack is missing. |
| L2Predictor.PrepNumbers | src/services/l2/predictor.py:47-49 | A column outside `cat_vocab` is never categorical. |
| L2Predictor.ScoresOf | src/services/l2/predictor.py:60 | The scores of the results, in order. |
| L2Predictor.CodesOf | src/services/l2/predictor.py:63-64 | The codes of the results, in order. |
| L2Predictor.Reorder | src/services/l2/predictor.py:65 | Entry k of the reordered list is entry `o[k]`. |
| L2Predictor.SortByScore | src/services/l2/predictor.py:65 | Sorting keeps the length. |
| L2Predictor.SortByScoreSorted | src/services/l2/predictor.py:65 | The sorted list is in non-increasing score order. |
| L2Predictor.SortByScoreMembers | src/services/l2/predictor.py:65 | Every entry of the sorted list is an input row, and every input row is in the sorted list. |
| L2Predictor.SortByScorePermutation | src/services/l2/predictor.py:65 | Sorting is a permutation: every entry appears as often as in the input. |
| L2Predictor.SortByScoreStable | src/services/l2/predictor.py:65 | The sort is stable: of two entries with equal scores, the one listed first comes from the earlier input row. |
| L2Predictor.SortByScoreTieExample | src/services/l2/predictor.py:65 | Two rows with the same score keep their row order. |
| Ranking.ArgsortDescStable | src/services/l2/predictor.py:65 | The descending index order lists every index once, with non-increasing values, and equal values in index order. |
| Ranking.ArgsortAsc | src/services/l1/predictor.py:103 | The ascending index order lists every index once, with non-decreasing values, and equal values in index order. |
| Ranking.SelectPermuted | src/services/l2/predictor.py:65 | Taking the rows in the order of an index permutation keeps every row exactly as often. |
| L2Predictor.DropDupMembers | src/services/l2/predictor.py:66 | An entry survives exactly when no earlier entry has its code. |
| L2Predictor.DropDupElement | src/services/l2/predictor.py:66 | A surviving entry comes from the list. |
| L2Predictor.DropDupDistinct | src/services/l2/predictor.py:66 | The survivors have distinct codes. |
| L2Predictor.DropDupSorted | src/services/l2/predictor.py:66 | De-duplication keeps a sorted list sorted. |
| L2Predictor.FirstWithCode | src/services/l2/predictor.py:66 | Every code that occurs has a first occurrence. |
| L2Predictor.SortedAbove | src/services/l2/predictor.py:63-65 | The sorted list holds exactly the entries reaching the threshold. |
| L2Predictor.FirstOfCodeBest | src/services/l2/predictor.py:65-66 | In a sorted list, the first entry of a code scores best for that code. |
| L2Predictor.TopSound | src/services/l2/predictor.py:62-68 | A ranked entry reaches the threshold and scores best for its code. |
| L2Predictor.TopComplete | src/services/l2/predictor.py:62-68 | Any entry reaching the threshold and scoring best for its code is ranked. |
| L2Predictor.TopMembers | src/services/l2/predictor.py:62-68 | An entry is ranked exactly when it reaches the threshold and scores best for its code. |
| L2Predictor.TopShape | src/services/l2/predictor.py:62-68 | The ranking is sorted best first and names each programme once. |
| L2Predictor.TopThresholdMonotone | src/services/l2/predictor.py:63 | Raising the threshold only removes entries. |
| L2Predictor.FirstCefrFrom | src/services/l2/predictor.py:72 | A match is one of the six CEFR levels. |
| L2Predictor.UpperLower | src/services/l2/predictor.py:78 | Upper-casing ignores an earlier lower-casing. |
| L2Predictor.HasCefrIgnoresCase | src/services/l2/predictor.py:72-83 | The CEFR test gives the same answer for the lower- and upper-cased text. |
| L2Predictor.FirstCefrAppend | src/services/l2/predictor.py:80 | Text appended after a break does not change the leftmost match. |
| L2Predictor.FirstTokenDecides | src/services/l2/predictor.py:80-82 | Once the text holds a CEFR token, later text does not change the answer. |
| L2Predictor.CefrLevelLetters | src/services/l2/predictor.py:72 | Every level is a letter among A, B, C and one more character. |
| L2Predictor.CefrLowerCaseExample | src/services/l2/predictor.py:72-83 | "ielts b2" satisfies the targets B1/B2. |
| L2Predictor.CefrFirstTokenExample | src/services/l2/predictor.py:80-82 | In "B1 A2" the first token B1 decides, so A2 is not found. |
| L2Predictor.CefrContainmentExample | src/services/l2/predictor.py:83 | With no whole-word token, a target inside a word ("XB1") still counts. |
| L2Predictor.DiscountFee | src/services/l2/predictor.py:85-117 | The loop keeps exactly the results `KeepsResult` accepts, in order. |
| L2Predictor.DiscountKeepsOthers | src/services/l2/predictor.py:103-117 | The rule removes entries without reordering, and keeps every code outside the UEF national-exam programmes. |
| L2Predictor.KeepsIsPerStudent | src/services/l2/predictor.py:108-113 | The decision is the same for every programme of the rule. |
| L2Predictor.KeepsBudgetMonotone | src/services/l2/predictor.py:109-111 | A larger budget never drops a result a smaller one keeps. |
| L2Predictor.NegativeBudgetDropsRule | src/services/l2/predictor.py:109-113 | With a negative budget every programme of the rule is dropped and all others stay. |
| L2Predictor.FirstTierExample | src/services/l2/predictor.py:109 | A score of 23.999 with a budget of 60,000,000 meets the first tier. |
| L2Predictor.OutOfRangeDropsRule | src/services/l2/predictor.py:109-113 | Without a CEFR level and with a score outside [21, 30], a rule programme is dropped. |
| L2Predictor.Scored | src/services/l2/predictor.py:60-64 | Each row's code as text, with its score, in row order. |
| L2Predictor.Predict | src/services/l2/predictor.py:52-70 | Preprocessing errors pass through; no pair gives `[]`; a booster that returns the wrong number of scores fails; otherwise the ranking after the tuition rule. |
| L2Predictor.RecommendedShape | src/services/l2/predictor.py:62-70 | The final list is sorted best first, names each programme once, and each entry reaches the threshold, is its programme's best and passes the tuition rule. |
| L2Predictor.PredictResults | src/services/l2/predictor.py:52-70 | The same about a successful prediction and the booster's scores of the request's pairs. |
| L2Predictor.PredictThresholdMonotone | src/services/l2/predictor.py:62-70 | A lower threshold keeps every recommendation a higher one gives. |
| L2Router.PredictMajorL2 | src/api/routers/l2.py:11-15 | A province outside the list gives `[]`; otherwise the predictor's answer. |
| L2Router.PredictMajorL2Batch | src/api/routers/l2.py:21-45 | As for L1: concurrency and size checks first, each valid item predicted once, results in item order or the first failure in completion order. |
| Batch.Limit | src/api/routers/l1.py:25-31 | A concurrency below 1 is rejected; a given concurrency is used, else the default. |
| Batch.Tags | src/api/routers/l1.py:42 | The tags of the completed workers, in completion order. |
| Batch.RunWorkers | src/api/routers/l1.py:34-41 | Each index in completion order is paired with its worker's outcome; the predictor runs on the valid-province items only. |
| Batch.RestoreOrder | src/api/routers/l1.py:42-43 | Sorting by tag puts each result at its item's position. |
| Batch.RunBatch | src/api/routers/l1.py:21-43 | The shared batch endpoint: errors before any work, the predictor calls, the results in item order, the first failure in completion order. |
| Batch.OrderCovers | src/api/routers/l1.py:41 | A completion order lists every index. |
| Batch.CallsOnce | src/api/routers/l1.py:34-41 | Each valid-province item runs the predictor exactly once, and each other item never does. |
| L3Schema.FieldIndex | src/services/l3/schema.py:6-18 | The position of an attribute of `Grade`, or past the end for a name that is none. |
| L3Schema.ValidateScore | src/services/l3/schema.py:7-18 | An attribute is accepted exactly when it meets its constraints (required or defaulted, `None` or in [0, 10]), and keeps its value. |
| L3Schema.ValidateScores | src/services/l3/schema.py:7-18 | Checking the attributes in declaration order succeeds exactly when every attribute is accepted, and then yields one value per attribute: the number sent, in [0, 10]. |
| L3Schema.ValidateGrade | src/services/l3/schema.py:6-18 | A grade is accepted exactly when every attribute is, and holds every given value in [0, 10]. |
| L3Schema.ValidateHocBa | src/services/l3/schema.py:20-23 | A transcript is accepted exactly when it is given and its three grades are; it stores those three grades, each valid. |
| L3Schema.ValidateAwardQg | src/services/l3/schema.py:25-37 | An omitted or `null` award gives `None`; any other non-object is rejected; an object is accepted exactly when its subject is a text and its level a lax integer from 1 to 4, and is stored with them. |
| L3Schema.ValidateAwardEnglish | src/services/l3/schema.py:29-38 | An omitted or `null` certificate gives `None`; any other non-object is rejected; an object is accepted exactly when its level is one of the six CEFR levels, and is stored with it. |
| L3Schema.CoerceCongLap | src/services/l3/schema.py:51-57 | Accepted exactly when `int(v)` is 0 or 1, keeping that integer. |
| L3Schema.ValidateHocPhi | src/services/l3/schema.py:35 | Accepted exactly when a lax float is non-negative, keeping it. |
| L3Schema.ValidateL3 | src/services/l3/schema.py:32-57 | A request is accepted exactly when every field is; each stored field is that field's validated value, the province stripped; every accepted request satisfies every field constraint; an award that is not an object rejects the request. |
| L3Schema.ValidProvinceIsMembership | src/services/l3/schema.py:41-49 | After validation, `is_tinh_tp_valid` holds exactly when the stripped raw province is in the list. |
| ScoreCal.Recorded | src/services/l3/spk/score_cal.py:19-23 | The recorded grades are no more than the years. |
| ScoreCal.GetDtbm | src/services/l3/spk/score_cal.py:6-25 | The loop over the three years gives the mean of the recorded grades, 0.0 for none. |
| ScoreCal.SumBounds | src/services/l3/spk/score_cal.py:25 | A sum of values within bounds lies within the bounds times the count. |
| ScoreCal.MeanBounds | src/services/l3/spk/score_cal.py:25 | A mean of values within bounds, or 0.0, lies within them. |
| ScoreCal.ScoreInRange | src/services/l3/spk/score_cal.py:21 | A valid grade reads every name as `None` or a grade in [0, 10]. |
| ScoreCal.RecordedInRange | src/services/l3/spk/score_cal.py:19-23 | Every recorded grade lies in [0, 10]. |
| ScoreCal.DtbmRange | src/services/l3/spk/score_cal.py:6-25 | With validated grades every subject mean lies in [0, 10]. |
| ScoreCal.RecordedYears | src/services/l3/spk/score_cal.py:20-23 | The recorded grades, year by year. |
| ScoreCal.DtbmAllRecorded | src/services/l3/spk/score_cal.py:6-25 | A subject recorded in all three years has the plain mean of the three. |
| ScoreCal.DtbmNoneRecorded | src/services/l3/spk/score_cal.py:25 | A subject recorded in no year has mean 0.0. |
| ScoreCal.SubjectMapNamesAttributes | src/services/l3/spk/constants.py:17-30 | Every display name of `SUBJECT_MAP` leads to an attribute of `Grade`. |
| ScoreCal.ToHopScoreRange | src/services/l3/spk/score_cal.py:27-44 | With validated grades a combination scores in [0, 30]. |
| ScoreCal.BestBy | src/services/l3/spk/score_cal.py:57-69 | The loop gives the running best. |
| ScoreCal.BestFoldUpper | src/services/l3/spk/score_cal.py:60-67 | The best score is at least 0 and at least every combination's score. |
| ScoreCal.BestFoldFirst | src/services/l3/spk/score_cal.py:63-67 | A positive best belongs to the first combination reaching it, and every earlier one scores lower; a best of 0 comes with the empty combination. |
| ScoreCal.BestFoldPositive | src/services/l3/spk/score_cal.py:60-67 | The best score is positive exactly when some combination scores above 0. |
| ScoreCal.BestToHopScore | src/services/l3/spk/score_cal.py:46-69 | `calculate_best_to_hop_score` with the combination score. |
| ScoreCal.BestToHopRange | src/services/l3/spk/score_cal.py:46-69 | With validated grades the best score lies in [0, 30]. |
| ScoreCal.IsEnglishProgramContains | src/services/l3/spk/score_cal.py:96-98 | A programme is English-taught exactly when its code contains "A"; the `endswith` test adds nothing. |
| ScoreCal.CalculateBonus | src/services/l3/spk/score_cal.py:71-94 | The method adds the table points of each present award. |
| ScoreCal.QgPointsTable | src/services/l3/spk/constants.py:1-6 | National-award points: 1.2 for levels 1 to 3, 1.0 for level 4, 0 otherwise. |
| ScoreCal.ValidLevelsInTables | src/services/l3/spk/constants.py:1-15 | Every level a validated award can hold has a point entry. |
| ScoreCal.BonusRange | src/services/l3/spk/score_cal.py:71-94 | The bonus lies in [0, 2.2]. |
| ScoreCal.BonusEnglishOnlyWithA | src/services/l3/spk/score_cal.py:89-92 | Outside English-taught programmes the certificate earns nothing. |
| ScoreCal.StripEach | src/services/l3/spk/score_cal.py:124 | Every part is stripped, in order. |
| ScoreCal.ParseToHopFromDataframe | src/services/l3/spk/score_cal.py:100-130 | The loop collects the combinations of the programme's text cells with exactly three parts, in row order. |
| ScoreCal.ParseToHopMembers | src/services/l3/spk/score_cal.py:112-128 | A combination is found exactly when some row of the programme carries it. |
| ScoreCal.ParseCellParts | src/services/l3/spk/score_cal.py:122-124 | Every part of a parsed cell is stripped and holds no comma. |
| ScoreCal.SplitThree | src/services/l3/spk/score_cal.py:124 | Three comma-free names joined by commas split back into them. |
| ScoreCal.StripEachSpaced | src/services/l3/spk/score_cal.py:124 | Stripping the parts removes the spaces after the commas. |
| ScoreCal.StripParens | src/services/l3/spk/score_cal.py:122 | `strip("()")` removes exactly the outer parentheses. |
| ScoreCal.ParseCellFormat | src/services/l3/spk/score_cal.py:119-128 | The table's format `(a, b, c)` reads back as the three names. |
| HocBaCalc.GetUniqueSubjects | src/services/l3/spk/hb.py:49-54 | The union holds exactly the subjects of some combination. |
| HocBaCalc.ToHopScoreRange | src/services/l3/spk/hb.py:56-68 | With validated grades this file's combination score lies in [0, 10]. |
| HocBaCalc.ScalesDiffer | src/services/l3/spk/hb.py:56-68 | The score_cal.py score is three times this file's. |
| HocBaCalc.BestToHopScore | src/services/l3/spk/hb.py:70-89 | The best-combination loop with this file's score. |
| HocBaCalc.BestFacts | src/services/l3/spk/hb.py:70-89 | The best score lies in [0, 10], is at least every combination's score, and is positive only for a listed combination. |
| HocBaCalc.CalculateBonus | src/services/l3/spk/hb.py:91-103 | The method adds each award cell's table points. |
| HocBaCalc.BonusRange | src/services/l3/spk/hb.py:91-103 | The bonus lies in [0, 2.2] whatever the cells hold. |
| HocBaCalc.BonusAgrees | src/services/l3/spk/hb.py:91-103 | On the cells of a validated request's awards, this bonus equals the score_cal.py bonus. |
| HocBaCalc.BonusNeedsLevel | src/services/l3/spk/hb.py:96-97 | A national-award cell that is no dict with a `level` earns nothing. |
| HocBaCalc.ParseListCells | src/services/l3/spk/hb.py:107-113 | A list of combinations reads back as itself; a list of names as one combination. |
| HocBaCalc.TextSubjectsClean | src/services/l3/spk/hb.py:116 | The subjects read from text are non-empty and hold no space or comma. |
| HocBaCalc.ReplaceCommas | src/services/l3/spk/hb.py:116 | Replacing the commas of `a,b,c` gives the names separated by spaces. |
| HocBaCalc.ParseTextFormat | src/services/l3/spk/hb.py:114-117 | The text `a,b,c` reads back as the one combination `[a, b, c]`. |
| HocBaCalc.ScoreRow | src/services/l3/spk/hb.py:147-160 | For one programme row: the best combination and its score, and the award bonus, which with their sum and the pass test against the cut-off make that row's result. |
| HocBaCalc.CalculateHocba | src/services/l3/spk/hb.py:121-177 | One result row per programme row, in order, each the row's five computed columns. |
| HocBaCalc.RowResultFacts | src/services/l3/spk/hb.py:146-168 | A result keeps its input row, has a best score in [0, 10], a bonus in [0, 2.2], the total of the two, and passes exactly when the total reaches the cut-off. |
| HocBaCalc.NoCombinationBonusOnly | src/services/l3/spk/hb.py:148-163 | A row with no combination is scored on its bonus alone. |
| HocBaCalc.PassMonotone | src/services/l3/spk/hb.py:167-168 | Lowering a cut-off never turns a pass into a fail. |
| SchoolFilter.FilterSchoolsIsOneFilter | src/services/l3/spk/filters.py:16-32 | The chain of filters is one filter on the combined condition. |
| SchoolFilter.FilterSchoolsMembers | src/services/l3/spk/filters.py:5-32 | A row is kept exactly when it matches the public/private choice, the province if one is given, the budget if non-zero, and the group. |
| SchoolFilter.FilterSchoolsSubsequence | src/services/l3/spk/filters.py:5-32 | The kept rows keep the table's order. |
| SchoolFilter.FilterSchoolsIdempotent | src/services/l3/spk/filters.py:5-32 | Filtering twice is filtering once. |
| SchoolFilter.ZeroBudgetKeepsAnyFee | src/services/l3/spk/filters.py:26-27 | A budget of 0 keeps every fee. |
| SchoolFilter.EmptyProvinceKeepsAny | src/services/l3/spk/filters.py:22-23 | An empty province keeps every province. |

## Left out

- Python's float `repr` is the parameter `floatRepr`. IEEE rounding is not modelled: reals are exact.
- `upper`, `lower`, `\w`, `\b` and `isdigit` are restricted to ASCII; there is no Unicode case mapping or normalisation.
- pydantic reports every failing field; the model reports the first failing field, in declaration order.
- pydantic's subtler lax conversions are not modelled: exponent notation, `_` separators and byte strings.
- Values.LaxFloat: a string is accepted only in positional decimal notation (no exponent, `inf` or `nan`).
- Values.PyFloat, L1Schema.CoerceHocPhi: Python's `float()` also accepts exponent notation ("1e5"), `inf`, `nan` and `_` separators ("1_000"); the model accepts only positional decimal text, so such a budget string is modelled as rejected.
- L1Predictor.PredictRow: group keys are compared as `seq<Value>`, so `Int(1)`, `Float(1.0)` and `Bool(true)` are different keys, whereas Python's tuple equality makes `(1, "714")`, `(1.0, "714")` and `(True, "714")` find the same model entry.
- L1Schema.CoerceHocPhi: `float(None)` raises TypeError, which pydantic does not turn into a validation error (the request fails with a server error). The model reports it as a rejected field, like the ValueError.
- L1Schema.CoerceFlag, L3Schema.CoerceCongLap: `int(None)` raises TypeError, and pydantic does not turn a TypeError into a validation error. The model reports it as a rejected field, like the ValueError.
- Text fields that receive a non-string JSON value are taken by their `str()` text.
- The names of `getattr` that are attributes of `BaseModel` itself (`getattr(grade, "copy")`) are not modelled. A name is an attribute of `Grade` or of none.
- Concurrency is not modelled: the semaphore, `asyncio.to_thread` and the interleaving of the workers. `gather` runs the workers in a completion order given as a parameter. The real `gather` already returns its results in argument order, so the sort of l1.py line 42 and l2.py line 44 changes nothing.
- `BATCH_MAX_ITEMS` and `MAX_BATCH_CONCURRENCY` are parameters. The batch routers (`src/api/routers/l1.py:28-31`, `src/api/routers/l2.py:28-31`) read them from `settings`, but `src/core/config.py` defines only `MODEL_DIR`, `DATA_DIR` and `L2_THRESHOLD`, so as written those reads would raise AttributeError. The model takes the two limits as given. The sets of `HSGSubject` and `NhomNganh` values are parameters too.
- The fitted models are function parameters: the sklearn classifiers, the one-hot and label encoders, and the LightGBM booster.
- The booster's choice of iteration count (l2/predictor.py line 58) is part of the booster parameter.
- `L1Predictor.load` and `L2Predictor.load` read their artefacts from disk: the pickles, the JSON files and the model file. Only the vocabulary cleaning of the L2 loader (lines 28-35) is modelled.
- `preprocess_input_data_L2` reads the catalogue from an Excel file and casts its columns (lines 12-30). The model takes the catalogue as a frame of cells.
- The final dtype casts of `filter_candidates_per_student_L2` (lines 123-128) are not modelled; the preprocessing already produces integers and floats in those columns.
- L2Predictor.SortByScore: the sort is stable, so tied scores keep their row order (SortByScoreStable). pandas' default quicksort keeps that order on small frames but does not promise it in general. In L1, `np.argsort(p)[::-1]` is modelled as the reverse of a stable ascending sort, so tied probabilities come out in reverse index order; numpy's default quicksort does not promise an order for ties either.
- `get_to_hop_mon_from_db` (filters.py from line 34) reads a database and is not part of this model.
- `get_subject_scores` (hb.py lines 179-181) is not part of this model. It only maps `get_dtbm` over a list.
- The `__main__` blocks are not part of this model, nor are the constant tables hb.py repeats (lines 5-34); they are equal to `L3Tables`.
- In hb.py, the inner items of a `to_hop_mon` list are strings, lists of strings or other values. A list item holding non-strings is returned as is by `parse_to_hop_list` and is not modelled.
- In hb.py, an `award_english` cell that is a list or dict raises TypeError (it is unhashable), which is not modelled. Its other values are looked up by their key.
- HocBaCalc.ParseTextFormat: the text form cannot carry a subject name with spaces (such as "Vẽ TT"), since it splits on white space. The lemma is stated for names without spaces.
- L2Predictor.Scored: a programme code cell is taken by its `str()` text.
- HocBaCalc.ScoreRow: the `diem_chuan` and `ma_nganh` cells of hb.py are taken as a number and a text.
- SchoolFilter.FilterSchools: a missing column raises KeyError in pandas, which is not modelled; every row has the four cells.
- SchoolFilter.FilterSchools: a text fee cell raises TypeError in the comparison; the model compares only numeric fees and drops the others, as it drops a missing fee.
- SchoolFilter.FilterSchools: `NhomNganh`'s `.value` is taken as a text.
- Not part of this model, being outside the core: `crawl.py`, `score_processor.py`, `utils.py`, `predict.py`, `api.py`, `schemas.py`, `main.py`, `core/config.py` and `ml/src/train_predict_knn.py`.
