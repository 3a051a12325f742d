# Scoring core of the video similarity descriptor runtime, in Dafny

This project models the scoring core of the descriptor-track runtime of the
Meta Video Similarity Challenge. It covers three parts:

- `generate_rankings.py`: cutting the query rows into growing batches for the
  range search; cropping the search output to an exact number of results;
  flattening it into scored (query, reference) rows and keeping the best
  score per pair; and the `Q`/`R` video id formatting.
- `metric.py`: the micro-average precision (µAP) of a submission against the
  ground truth, and the ground-truth subset filter of its entry point.
- `utils.py`: run-length grouping of stored video ids, the store/load round
  trip of per-video descriptors, the truncated list rendering used in error
  messages, and the validation of a descriptor submission.

Files:

- `seqs.dfy` (module `Seqs`): sequence helpers used by all modules, such as
  concatenation, offsets, masks, filters, flat maps and permutations.
- `utils.dfy` (module `Utils`): models `runtime/scoring/utils.py`.
- `generate_rankings.dfy` (module `GenerateRankings`): models
  `runtime/scoring/generate_rankings.py`.
- `metric.dfy` (module `Metric`): models `runtime/scoring/metric.py`.
- `metric_properties.dfy` (module `MetricProperties`): relates the score to
  a precision-recall curve whose recall counts every ground-truth positive,
  bounds it, shows that a perfect submission scores 1.0, and works through
  a submission with a blank reference id.
- `metric_order.dfy` (module `MetricOrder`): proves that the score does not
  depend on the order of the submission's rows, nor on the order of the
  ground truth's rows.

The modelled code's loops are Dafny methods with loop invariants:
`query_iterator`, the mask, count and cumulative-sum steps of the crop,
`same_value_ranges`, `store_features` and `load_features`. Each method is
proved against a specification function: `IsBatching`, `Cropped`,
`ValueRuns`, `Stored` and `Regroup`. The lemmas then state what the source
promises about those functions. The rest of the code is expression code and
is modelled as functions and lemmas.

Scores and distances are `real`. A numpy float is `Utils.Float`, which has
separate `NaN` and infinity cases. Video ids are `int` inside the
descriptor files and strings (`Q0001` for query video 1, `R00002` for reference video 2) in the CSV files. The
exceptions the code raises are values of `Utils.Error`.

Points where the code's behaviour is easy to misread:

- Batch sizes are not capped at 20 000. The test `bs < 20_000` runs before
  the doubling, so the sizes go 16 384, 32 768 and then stay at 32 768
  (`BatchSizeClosedForm`).
- The crop has no fixed tie-break. `argpartition` may keep any of several
  entries with equal distance, so the model accepts every valid partition
  (`IsArgPartition`). `ArgPartition` is one way to compute one.
- The average precision has no per-row tie-break between matching and
  non-matching rows. It groups tied scores into one threshold, as
  `average_precision_score` does, so the curve has one point per distinct
  score.
- With zero ground-truth positives `score` divides by `actual_n_pos`, which
  raises `ZeroDivisionError`. `Score` returns `Err(ZeroDivisionError)` in
  that case. When the ground truth's `reference_id` column is blank in every
  row, pandas reads it as float64 and the merge raises `ValueError` first.
  Column dtypes are not modelled (see "## Left out").
- Recall is measured against the positives among the merged rows, and the
  result is then rescaled by `predicted_n_pos / actual_n_pos`.
  `ScoreIsFullRecall` proves that this equals recall measured against every
  ground-truth positive.
- The merge matches a blank reference id in the submission with a blank
  reference id in the ground truth, as pandas matches missing keys. Such a
  row is labelled 1 and counts in `predicted_n_pos`, but not in
  `actual_n_pos`, so the score can exceed 1. `BlankReferenceScore` computes
  a score of 2.0 for a two-row submission.
- An empty search output makes `score_df` a frame with no columns, and the
  `groupby` raises `KeyError` (`EvaluateSimilarity`).

## Model

| member | source | states |
|---|---|---|
| GenerateRankings.QueryIterator | runtime/scoring/generate_rankings.py:22-34 | the yielded batches are exactly the requested slices `xq[Requested(k) : Requested(k) + BatchSize(k)]` clipped to `xq`, stopping once the requests pass the end; together they concatenate back to `xq` |
| GenerateRankings.BatchSizeClosedForm | runtime/scoring/generate_rankings.py:27-33 | the size requested for batch `k` is `min(32 * 2^k, 32768)`: doubling stops only after a size reaches 20 000 or more |
| GenerateRankings.BatchingShape | runtime/scoring/generate_rankings.py:26-34 | no batch is yielded exactly when `xq` is empty; every batch is non-empty and at most its requested size; only the last can be shorter; batch `k` starts at `Requested(k)`; the batches tile `xq` in order, with no gap or overlap |
| GenerateRankings.BatchSizes | runtime/scoring/generate_rankings.py:30-34 | each batch has between 1 and `BatchSize(k)` rows, and every batch but the last has exactly `BatchSize(k)` |
| GenerateRankings.BatchesTile | runtime/scoring/generate_rankings.py:26-34 | the concatenation of the batches is `xq`, and there are no batches exactly when `xq` is empty |
| GenerateRankings.ArgPartition | runtime/scoring/generate_rankings.py:59 | returns `k` distinct in-range positions, none with a larger distance than any position left out |
| GenerateRankings.BuildMask | runtime/scoring/generate_rankings.py:60-61 | the mask is true exactly at the positions in `o` |
| GenerateRankings.PerQueryCounts | runtime/scoring/generate_rankings.py:64-66 | `nres[0] = 0` and `nres[i+1]` is the number of kept entries in `lims[i]:lims[i+1]` |
| GenerateRankings.CumulativeCounts | runtime/scoring/generate_rankings.py:67 | `new_lims[i]` is the number of kept entries before `lims[i]` |
| GenerateRankings.CropToNumResults | runtime/scoring/generate_rankings.py:58-68 | the result is the masked `dis` and `ids` with the recounted boundaries (`Cropped` under the mask of `o`) |
| GenerateRankings.KeepMaskCount | runtime/scoring/generate_rankings.py:59-61 | a mask built from `k` distinct in-range positions has exactly `k` entries set |
| GenerateRankings.CroppedWellFormed | runtime/scoring/generate_rankings.py:62-67 | the cropped result is well formed: `new_lims` starts at 0, never decreases, and ends at the number of kept entries; `new_lims[i+1] - new_lims[i]` is the number of entries kept in query `i`'s range |
| GenerateRankings.CroppedExactCount | runtime/scoring/generate_rankings.py:57-68 | after a crop, `dis` and `ids` hold exactly `num_results` entries, `new_lims[0] = 0` and `new_lims[nq] = num_results` |
| GenerateRankings.CroppedPerQuery | runtime/scoring/generate_rankings.py:62-67 | the entries kept for query `i` are that query's masked entries, in their original order, with `dis` and `ids` still aligned |
| GenerateRankings.CroppedKeepsSmallest | runtime/scoring/generate_rankings.py:59-63 | every kept entry comes from a position `argpartition` chose and carries that position's distance and id; no kept distance exceeds a dropped one |
| GenerateRankings.SearchWithCappedRes | runtime/scoring/generate_rankings.py:55-70 | with at most `num_results` results, `lims`, `dis` and `ids` come back unchanged; otherwise the result is the crop under some valid `argpartition`; either way it is well formed with `min(n, num_results)` entries |
| GenerateRankings.ScoreRowsAt | runtime/scoring/generate_rankings.py:108-116 | `score_df` has one row per result, and row `j` in query `i`'s range is `(query_ids[i], reference_ids[ids[j]], -dis[j])` |
| GenerateRankings.MaxScore | runtime/scoring/generate_rankings.py:119 | the group value is at least every score of the pair and equals one of them |
| GenerateRankings.GroupMax | runtime/scoring/generate_rankings.py:118-120 | one entry per (query id, reference id) pair that occurs; its value is the maximum of that pair's scores |
| GenerateRankings.FrameRowsAt | runtime/scoring/generate_rankings.py:108-116 | over all `nq` queries, `score_df` has one row per result, and row `j` in query `i`'s range is `(query_ids[i], reference_ids[ids[j]], -dis[j])`; a query with results has an id |
| GenerateRankings.EvaluateSimilarity | runtime/scoring/generate_rankings.py:101-121 | crops the search output to `30 * len(reference)` results as `search_with_capped_res` does; fails with `IndexError` when a query with results has no id or a result names a reference row that has none; fails with `KeyError` when no result is left; otherwise returns the per-pair maxima of the flattened rows |
| GenerateRankings.QueryId | runtime/scoring/generate_rankings.py:153 | a query id is `Q` followed by at least 4 characters |
| GenerateRankings.ReferenceId | runtime/scoring/generate_rankings.py:157-159 | a reference id is `R` followed by at least 5 characters |
| GenerateRankings.ZFill | runtime/scoring/generate_rankings.py:153 | `zfill` pads to `max(len, width)` and never truncates |
| GenerateRankings.ZFillRoundTrip | runtime/scoring/generate_rankings.py:153 | parsing the zero-padded decimal string of any integer, negative ones included, gives the integer back |
| GenerateRankings.IdsShape | runtime/scoring/generate_rankings.py:153-159 | a non-negative id becomes `Q` plus its digits left-padded with zeros to 4, and `R` plus its digits padded to 5; longer numbers are kept whole |
| GenerateRankings.IdsRoundTrip | runtime/scoring/generate_rankings.py:153-159 | the prefix is `Q` (resp. `R`), and the rest of the id parses back to the integer |
| GenerateRankings.IdsInjective | runtime/scoring/generate_rankings.py:153-159 | two videos get the same query id (or the same reference id) exactly when their integer ids are equal |
| Utils.SameValueRanges | runtime/scoring/utils.py:33-44 | fails with `IndexError` exactly on empty input; otherwise yields `ValueRuns(values)`, whose ranges tile `[0, len(values))` in order from 0 to `len(values)`, each non-empty and holding a single value, with adjacent ranges differing in value |
| Utils.RunsFromCover | runtime/scoring/utils.py:37-44 | the runs from `start` cover `values[start:]` without gap or overlap, each constant and differing from its neighbour |
| Utils.RunCoverUnique | runtime/scoring/utils.py:37-44 | any such cover of maximal runs is the one `same_value_ranges` yields |
| Utils.ValueRunsExpand | runtime/scoring/utils.py:33-44 | repeating each yielded value over its range gives back `values` |
| Utils.StoreFeatures | runtime/scoring/utils.py:47-57 | an empty list fails with `ValueError` (`np.concatenate` of nothing), and so do feature or timestamp rows of different widths; otherwise the arrays are the concatenated video ids, each repeated `len(feature)` times, feature rows and timestamp rows |
| Utils.LoadFeatures | runtime/scoring/utils.py:61-76 | an empty id column fails with `IndexError`; otherwise the result is one `VideoFeature` per run of equal ids, with rows `start:end` of the timestamps and features |
| Utils.Slice | runtime/scoring/utils.py:72-73 | `s[start:end]` is the plain slice when `start <= end <= len(s)` |
| Utils.StoredValueRuns | runtime/scoring/utils.py:52-68 | the runs of the stored id column are exactly the row ranges of the stored videos |
| Utils.StoreLoadRoundTrip | runtime/scoring/utils.py:47-76 | when every video has at least one row and as many timestamps as feature rows, and neighbouring videos have different ids, loading what was stored gives back the same list of videos |
| Utils.LoadStoreRoundTrip | runtime/scoring/utils.py:61-76 | for arrays of equal length, concatenating the loaded groups reproduces the stored arrays |
| Utils.RStrip | runtime/scoring/utils.py:84 | `rstrip` removes all trailing copies of the character and nothing else |
| Utils.FormatListTruncated | runtime/scoring/utils.py:79-84 | the text is bracketed by `[` and `]`, and a list of more than three items ends in `, ...]` |
| Utils.FormatListTruncatedShape | runtime/scoring/utils.py:79-84 | up to three items render as `str(list)`; more render as the first three followed by `, ...]`, when the third item's rendering does not end in `]` |
| Utils.InvalidIdSet | runtime/scoring/utils.py:162-164 | an id is invalid exactly when it is submitted and not among the valid ids |
| Utils.ValidateDescriptors | runtime/scoring/utils.py:143-170 | fails exactly when there are `max_rows` rows or more, more than 512 dimensions, a NaN, or an invalid id; every failure is a `DataValidationError`; the first failing check, in the order rows, dimensions, NaN, ids, names the failure; an invalid-id failure carries exactly the invalid ids |
| Utils.LoadDataset | runtime/scoring/utils.py:194-202 | accepts the data unchanged exactly when features, video ids and timestamps have equal lengths, and otherwise raises a `DataValidationError` |
| Utils.NewDescriptorSubmission | runtime/scoring/utils.py:97-117 | succeeds exactly when both files load and both pass validation; every failure is a `DataValidationError` |
| Metric.Score | runtime/scoring/metric.py:28-65 | a non-finite or NaN score is rejected with a `DataValidationError` before anything else; with finite scores and string `reference_id` columns, the only error is `ZeroDivisionError`, raised exactly when no ground-truth row has a reference id |
| Metric.SortDesc | runtime/scoring/metric.py:45 | the result is ordered by score, largest first, and is a permutation of the input |
| Metric.RowsFor | runtime/scoring/metric.py:47-51 | a prediction gives one merged row per matching ground-truth row, labelled 1, or a single row labelled 0 when none matches; every row has the prediction's score |
| Metric.MatchCountPositive | runtime/scoring/metric.py:47-51 | a prediction is labelled 1 exactly when its (query id, reference id) pair occurs in the ground truth |
| Metric.UniqueMatchCount | runtime/scoring/metric.py:47-51 | with duplicate-free ground truth, a prediction matches at most one ground-truth row |
| Metric.LeftMerge | runtime/scoring/metric.py:47-51 | every prediction keeps at least one row; with duplicate-free ground truth the merged rows are the predictions one for one and in order, each labelled by whether its pair is in the ground truth |
| Metric.Merged | runtime/scoring/metric.py:45-51 | at least one row per prediction; with duplicate-free ground truth exactly one, with scores in descending order |
| Metric.Dedup | runtime/scoring/metric.py:55 | keeps exactly the values of a descending sequence, each once, strictly descending |
| Metric.Thresholds | runtime/scoring/metric.py:55 | the thresholds are the distinct scores of the merged rows, strictly descending |
| Metric.CountsMonotone | runtime/scoring/metric.py:18-24 | raising the threshold never adds predicted or true positives, and the true positives are among the predicted ones |
| Metric.PrecisionBounds | runtime/scoring/metric.py:18-24 | precision lies in [0, 1] |
| Metric.CurveShape | runtime/scoring/metric.py:18-24 | over falling thresholds recall never decreases and stays between 0 and the positives among the rows divided by the recall denominator; precision lies in [0, 1] |
| Metric.CurveSumBounds | runtime/scoring/metric.py:18-24 | `sum_k (R_k - R_{k-1}) P_k` lies between 0 and the total increase in recall |
| Metric.AveragePrecision | runtime/scoring/metric.py:55 | the average precision of the merged rows lies in [0, 1] |
| Metric.Unadjusted | runtime/scoring/metric.py:54-58 | the unadjusted average precision lies in [0, 1], and is 0.0 when no row is labelled 1 |
| Metric.Adjust | runtime/scoring/metric.py:65 | the adjustment keeps a non-negative value non-negative, and lowers or keeps a positive value exactly when `predicted_n_pos <= actual_n_pos` |
| Metric.CurveNoPositives | runtime/scoring/metric.py:54-58 | with no row labelled 1, recall is 0 at every threshold |
| Metric.CurveSumNoRecall | runtime/scoring/metric.py:54-58 | a curve with no recall sums to 0 |
| Metric.CurveSumScale | runtime/scoring/metric.py:65 | scaling every recall by `c` scales the sum by `c` |
| Metric.CurveRescale | runtime/scoring/metric.py:60-65 | recall against `n` positives times `n / b` is recall against `b` positives |
| Metric.CurveSumRescale | runtime/scoring/metric.py:60-65 | the sum against `n` positives, scaled by `n / b`, is the sum against `b` positives |
| Metric.SubsetGroundTruth | runtime/scoring/metric.py:90-93 | keeps exactly the ground-truth rows whose query id is in the subset |
| Metric.SubsetIndexRedundant | runtime/scoring/metric.py:90-93 | intersecting with the ground truth's own query ids changes nothing: the filter keeps the same rows, in the same order, as testing the subset alone |
| MetricProperties.RescaleIsRecallAgainst | runtime/scoring/metric.py:60-65 | the average precision rescaled by `predicted_n_pos / actual_n_pos` is the curve sum with recall against all ground-truth positives |
| MetricProperties.UnadjustedRescaled | runtime/scoring/metric.py:54-65 | the same holds for the unadjusted value, including when no row is labelled 1 and both sides are 0 |
| MetricProperties.ScoreIsFullRecall | runtime/scoring/metric.py:54-65 | the returned score is `sum_k (R_k - R_{k-1}) P_k` with recall measured against every ground-truth positive |
| MetricProperties.FullRecallBounds | runtime/scoring/metric.py:60-65 | that curve sum lies between 0 and `predicted_n_pos / actual_n_pos` |
| MetricProperties.ScoreBounds | runtime/scoring/metric.py:28-65 | with finite scores and some ground-truth positive, the score lies between 0 and `predicted_n_pos / actual_n_pos` |
| MetricProperties.NoMatchScoreZero | runtime/scoring/metric.py:54-65 | when no prediction matches, the score is 0.0 |
| MetricProperties.CurveSumTelescopes | runtime/scoring/metric.py:55 | with precision 1 at every point, `sum_k (R_k - R_{k-1}) P_k` is the last recall minus the starting one |
| MetricProperties.AllPositiveAveragePrecision | runtime/scoring/metric.py:54-58 | when every merged row is labelled 1, the average precision is exactly 1 |
| MetricProperties.PerfectScore | runtime/scoring/metric.py:39-65 | a submission that lists exactly the duplicate-free ground-truth pairs, each with a reference id, scores 1.0 whatever its (finite) scores |
| MetricProperties.BlankReferenceScore | runtime/scoring/metric.py:47-65 | a submission of `(Q2, blank, 1.0)` and `(Q1, R1, 0.9)` against ground truth `(Q1, R1)` and `(Q2, blank)` scores 2.0 |
| MetricOrder.MergedPerm | runtime/scoring/metric.py:45-51 | reordering the predictions only reorders the merged rows |
| MetricOrder.ThresholdsPerm | runtime/scoring/metric.py:55 | the thresholds depend only on the multiset of merged rows |
| MetricOrder.CountsPerm | runtime/scoring/metric.py:55-60 | the predicted and true positive counts at any threshold, and the total positives, depend only on the multiset of rows |
| MetricOrder.UnadjustedPerm | runtime/scoring/metric.py:54-60 | the unadjusted average precision and `predicted_n_pos` depend only on the multiset of rows |
| MetricOrder.AllFinitePerm | runtime/scoring/metric.py:39-43 | reordering keeps all scores finite |
| MetricOrder.RowsForTruthPerm | runtime/scoring/metric.py:47-51 | a prediction's merged rows do not depend on the order of the ground truth |
| MetricOrder.LeftMergeTruthPerm | runtime/scoring/metric.py:47-51 | reordering the ground truth leaves the merged rows unchanged |
| MetricOrder.ScoreIndependentOfTruthOrder | runtime/scoring/metric.py:47-65 | shuffling the ground truth's rows changes neither the score nor whether it is an error |
| MetricOrder.ScoreIndependentOfOrder | runtime/scoring/metric.py:39-65 | shuffling the submission's rows changes neither the score nor whether it is an error |

## Left out

- The faiss index and the range search (generate_rankings.py:43-53) are a
  foreign library. Their output is an input to the model: any well-formed
  `(lims, dis, ids)` with `lims[0] = 0`, non-decreasing `lims` and
  `lims[nq] = len(dis) = len(ids)`.
- `augment_xb` and `augment_xq` (generate_rankings.py:87-99) are
  floating-point squares and square roots. They are not modelled. With no
  reference rows, `norms.max()` (generate_rankings.py:89) raises
  `ValueError` before any search. So the program never reaches the
  `KeyError` that `EvaluateSimilarity` gives when `referenceRows` is 0.
- `average_precision_score` comes from scikit-learn, which is not part of
  this model. `AveragePrecision` implements its documented formula over the
  distinct score thresholds instead.
- Metric.Precision: divides by `max(1, count)`. At the thresholds used,
  the count is never 0, so this only fixes a value the code never reaches.
- `sort_values` uses an unstable sort, so the order of tied scores is not
  fixed. `SortDesc` picks one order, and `ScoreIndependentOfOrder` shows
  that the score does not depend on it.
- `groupby(...).max()` also sorts its output by key. `GroupMax` is a map,
  so it has no order.
- File and command-line plumbing is not modelled: `np.load`, `np.savez`,
  `pd.read_csv`, the typer `main` functions apart from the id formatting
  and the subset filter, and `_load_metadata` (utils.py:172-181). The
  valid ids and row caps are parameters of `NewDescriptorSubmission`.
- The call at generate_rankings.py:171-173 passes a third argument that
  `score` does not accept. It is glue and is not modelled.
- The error message at utils.py:199-201 is not modelled. It reads a file
  that is already closed, so it may itself raise. Only the rejection is
  modelled, as `DataValidationError(LengthMismatch)`.
- Error message texts are not modelled. Each failure is a tag in
  `ValidationFailure`.
- `same_value_ranges` is a generator. The model returns the whole list of
  runs at once, so laziness is not captured.
- `query_iterator` (generate_rankings.py:20-34) is a generator too.
  `QueryIterator` returns every batch at once, so laziness is not captured
  here either.
- runtime/validation.py and the scripts under scripts/, submission_src/,
  submission_quickstart/ and benchmark_src/ are not part of this model.
- Utils.FormatListTruncatedShape: states the rendering only when the third
  item's text does not end in `]`. Otherwise `rstrip` removes more than one
  bracket. `FormatListTruncated` itself follows the code in every case.
- Utils.StoreFeatures: a video with no rows carries no width in the model,
  so a width clash that involves only such a video is not detected.
- A blank query id is not modelled: `Id` is a string, and only the
  reference id of a prediction or ground-truth row may be missing.
- Metric.Score: column dtypes are not modelled. `read_csv` reads a key
  column that is blank in every row as float64. The merge at
  metric.py:47-51 then refuses to join it with a string column and raises
  `ValueError` before the division at metric.py:65. The model's error
  cases hold only when both `reference_id` columns hold strings.
- Utils.ValidateDescriptors: `features` is taken to be a 2-D float array
  and `video_ids` a 1-D array. Other shapes escape the `except
  AssertionError` at utils.py:169 as other errors: a 1-D `features` raises
  `IndexError` at `.shape[1]` (utils.py:151), a non-numeric `features`
  raises `TypeError` in `np.isnan` (utils.py:156), and a 2-D `video_ids`
  raises `TypeError` in `set(...)` (utils.py:161).
- Utils.NewDescriptorSubmission: the same array shapes are assumed, so
  "every failure is a `DataValidationError`" holds only for them.
