# Content ranking pipeline and two side projects, modelled in Dafny

This project models the core of a learning-to-rank recommender for a streaming
catalogue, together with two smaller companion projects.

The ranking pipeline, in order:

- builds a ranking dataset from an interaction log, with a popularity table and
  rejection-sampled negatives that avoid each user's history;
- adds windowed user and item aggregates and request-time context features;
- adds cross features;
- splits the data chronologically or by a shuffled permutation;
- one-hot encodes the categorical fields, aligned on the training columns;
- computes the query-group sizes for the ranker;
- measures NDCG@k and MAP@k over (user, session) groups;
- at serving time, builds one feature row per candidate, encodes it with the same
  schema, scores it and sorts by score;
- validates `/rank` requests in front of the ranker.

The companion projects are:

- the set-based trust metrics of a recommender (Jaccard overlap, stability, catalogue
  coverage, genre diversity and their summary);
- the MovieLens engagement dataset: the rating/movie join, the hold-out of each user's
  last interaction, train-only aggregates, recency, time features, genre multi-hot and
  the model table.

A pandas frame is a list of column labels plus rows. Each row is a map from label to
cell, and a cell is `Int`, `Real`, `Text` or `Null` (NaN). Failures are `Result`
values carrying the exception the source would raise. The random generator, the
shuffled permutation, the trained model's scorer and the logarithmic discount are
parameters. Each module follows one source file: `NegativeSampling`, `Splits`,
`Evaluate`, `TrainLtr`, `Encoding`, `ContextFeatures`, `WindowAggregates`, `Rank`,
`Records`, `Api`, `TrustMetrics`, `EngagementDataset` and `EngagementFeatures`.
`Frames`, `Seqs`, `Sets`, `Sorting`, `PyOps` and `Wrappers` hold the pandas and Python
semantics they share.

In the popularity table the model follows the code. Line 8 of
`negative_sampling.py` builds a copy of the grades clipped at 0. Line 9 then groups on
the column named `label`, so it sums the raw labels and the clipped copy is never used.
Labels in the log are never negative, so on the data the pipeline builds the two
readings agree.

The training run also follows the code. It passes the ranker the group sizes that
`_build_group_sizes` computes. Those are correct only when each query's rows are
consecutive; Findings shows an input where they are not. `TrainLtr.RunLengths` is the
corrected sizing. `TrainLtr.AlignedSizesAreRuns` proves that the two agree whenever
every query's rows are consecutive and complete.

## Model

| member | source | states |
|---|---|---|
| Interactions.History | content-ranking-system/src/ranking/data/negative_sampling.py:73 | a user's history holds exactly the items that user has an event for, in any session and with any label |
| NegativeSampling.BuildItemPopularity | content-ranking-system/src/ranking/data/negative_sampling.py:6-11 | the weights are defined exactly when the label total is non-zero; then there is one entry per item that has events, every such item has one, the heaviest comes first, and each weight is the item's raw label mass over the total |
| NegativeSampling.PopularitySumsToOne | content-ranking-system/src/ranking/data/negative_sampling.py:9-10 | the weights of a defined popularity table sum to 1 |
| NegativeSampling.PopularityWeightsAreProbabilities | content-ranking-system/src/ranking/data/negative_sampling.py:8-10 | with non-negative labels every weight lies in [0, 1] |
| NegativeSampling.RejectionSample | content-ranking-system/src/ranking/data/negative_sampling.py:26-32 | the loop succeeds exactly when the draw stream holds enough acceptable picks; it then returns exactly `n` items from the pool, none in the user's history, and consumes a prefix of the stream |
| NegativeSampling.RejectionSampleFirstAcceptances | content-ranking-system/src/ranking/data/negative_sampling.py:28-31 | the negatives returned are the first acceptable picks of the stream, in draw order |
| NegativeSampling.RejectionSampleStopsAtNth | content-ranking-system/src/ranking/data/negative_sampling.py:28-31 | the loop stops at the draw that completes the n-th acceptance, and no shorter stretch of the stream would have been enough |
| NegativeSampling.RejectionSampleStep | content-ranking-system/src/ranking/data/negative_sampling.py:29-31 | one turn of the loop consumes one draw and keeps its pick unless the pick is in the history |
| NegativeSampling.SampleNegatives | content-ranking-system/src/ranking/data/negative_sampling.py:14-47 | `n <= 0` gives no negatives and consumes no draws; an unknown strategy, a missing popularity table and invalid probabilities each raise their own error; a success gives `n` items of the strategy's pool, none in the history |
| NegativeSampling.Positives | content-ranking-system/src/ranking/data/negative_sampling.py:70 | the positives are exactly the events with a label above 0 |
| NegativeSampling.NegativeRows | content-ranking-system/src/ranking/data/negative_sampling.py:96-106 | each negative row copies the positive's user, session, timestamp and device, with the sampled item, label 0, no watch time and the negative flag set |
| NegativeSampling.ExpandPositives | content-ranking-system/src/ranking/data/negative_sampling.py:75-106 | the i-th block of rows is the i-th positive's own row followed by its negatives, which are drawn from the pool and avoid that user's history; an unknown strategy or a missing table fails |
| NegativeSampling.RankingSamples | content-ranking-system/src/ranking/data/negative_sampling.py:64-106 | the samples hold one block per positive, in input order; each block is the positive's row followed by the configured number of negatives for its user, drawn from the pool and none in the user's history; an unknown strategy fails once a negative is wanted |
| NegativeSampling.RankingConfig | content-ranking-system/src/ranking/data/negative_sampling.py:66-67 | the sampler gets the caller's catalogue, count and strategy, and a popularity table built from the events exactly when the strategy is popularity |
| NegativeSampling.SamplesFrame | content-ranking-system/src/ranking/data/negative_sampling.py:108 | the frame has one row per sample; a frame built from no rows has no columns at all |
| NegativeSampling.MakeRankingDataset | content-ranking-system/src/ranking/data/negative_sampling.py:50-112 | a log with no positive fails at the first merge; otherwise there are at least as many rows as samples |
| NegativeSampling.RankingDatasetKeepsSamples | content-ranking-system/src/ranking/data/negative_sampling.py:108-111 | when user and item ids are unique, the joins keep exactly one row per sample, holding every cell of that sample |
| NegativeSampling.MergesKeepCells | content-ranking-system/src/ranking/data/negative_sampling.py:110-111 | two left joins on tables with unique ids keep every row, in order, with all its cells |
| Frames.LeftMerge | content-ranking-system/src/ranking/data/negative_sampling.py:110 | a missing key column raises; every left row survives in order and keeps its cells; with unique table ids no row is duplicated, a matched row gains its entry's attributes, and an unmatched row gains NaN in every attribute column |
| Frames.UniqueIdMatches | content-ranking-system/src/ranking/data/negative_sampling.py:110 | a table with distinct ids matches a key cell at most once |
| Frames.MergeOne | content-ranking-system/src/ranking/data/negative_sampling.py:110 | a left row gives one merged row per matching entry, each carrying that entry's attributes, or one row with NaN in every attribute column when nothing matches; the left row's own cells win |
| Frames.MergeRowsUnique | content-ranking-system/src/ranking/data/negative_sampling.py:110-111 | with distinct ids each left row gives exactly one merged row, at its own position |
| Splits.CutSize | content-ranking-system/src/ranking/data/splits.py:11-12 | `int(n * frac)` of a non-negative fraction lies between 0 and `n * frac` |
| Splits.CutPartitions | content-ranking-system/src/ranking/data/splits.py:14-16 | with non-negative cut sizes the three parts, concatenated, give back the sorted rows |
| Splits.TimeSplit | content-ranking-system/src/ranking/data/splits.py:5-17 | the split fails exactly when the fractions do not sum to 1 within 1e-6; every part holds only input rows; with non-negative fractions the parts together are a rearrangement of the rows in time order |
| Splits.TimeSplitIsChronological | content-ranking-system/src/ranking/data/splits.py:9-16 | no training row is later than a validation row, and no validation row is later than a test row |
| Splits.TimeSplitTrainSize | content-ranking-system/src/ranking/data/splits.py:11-14 | with a training fraction in [0, 1] the training part holds exactly `int(n * train_frac)` rows |
| Splits.TimeSplitValSize | content-ranking-system/src/ranking/data/splits.py:11-15 | with non-negative training and validation fractions adding up to at most 1, the validation part holds exactly `int(n * val_frac)` rows |
| Splits.NegativeFractionDuplicatesRows | content-ranking-system/src/ranking/data/splits.py:6-16 | the guard accepts (-0.5, 0.5, 1.0), and on two rows the parts then hold three rows, one of them twice |
| Splits.TimeSplitChecked | content-ranking-system/src/ranking/data/splits.py:6-7 | with negative fractions refused as well, every accepted call partitions the rows in time order |
| Splits.RandomSplitPositions | content-ranking-system/src/ranking/data/splits.py:20-34 | the split fails exactly when the fractions do not sum to 1; only shuffled positions are taken; with non-negative fractions the three parts read in order are the shuffled positions; the training and validation parts hold `int(n * frac)` positions |
| Splits.RandomSplit | content-ranking-system/src/ranking/data/splits.py:20-35 | the split fails exactly when the fractions do not sum to 1; every row of the parts is a log row; with non-negative fractions the parts read in order are the rows in shuffled order, a rearrangement of the log; the training and validation parts hold `int(n * frac)` rows |
| Splits.RandomSplitPartitions | content-ranking-system/src/ranking/data/splits.py:24-34 | with non-negative fractions every row position lands in exactly one part |
| Splits.PermutedRowsSameMultiset | content-ranking-system/src/ranking/data/splits.py:25-34 | the rows read at a permutation of their positions are a rearrangement of the rows |
| PyOps.Slice | content-ranking-system/src/ranking/data/splits.py:15 | a slice with negative or out-of-range bounds is the clamped sub-sequence, empty when the bounds cross |
| PyOps.ThreeWayCut | content-ranking-system/src/ranking/data/splits.py:14-16 | for cut points `0 <= a <= b`, `s[:a]`, `s[a:b]` and `s[b:]` give back `s`, each element once |
| PyOps.Trunc | content-ranking-system/src/ranking/data/splits.py:11 | `int()` of a float truncates toward zero, from above for negatives |
| Evaluate.Dcg | content-ranking-system/src/ranking/models/evaluate.py:6-12 | DCG is never negative, and is 0 for an empty slice |
| Evaluate.Ideal | content-ranking-system/src/ranking/models/evaluate.py:17 | the ideal order is a rearrangement of the grades in descending order |
| Evaluate.IdealDominates | content-ranking-system/src/ranking/models/evaluate.py:17 | descending order has the largest total gain on every prefix |
| Evaluate.DominanceBoundsDiscountedGain | content-ranking-system/src/ranking/models/evaluate.py:10-12 | under a non-decreasing discount, more gain on every prefix means at least as much discounted gain |
| Evaluate.DcgAtMostIdeal | content-ranking-system/src/ranking/models/evaluate.py:15-18 | no ordering of the grades has a larger DCG than the ideal one, at any cut-off |
| Evaluate.Ndcg | content-ranking-system/src/ranking/models/evaluate.py:15-19 | NDCG lies in [0, 1] |
| Evaluate.IdealOrderScoresOne | content-ranking-system/src/ranking/models/evaluate.py:15-19 | a list already in descending order scores 1 whenever it has gain in the cut-off |
| Evaluate.IdealOfAnyListScoresOne | content-ranking-system/src/ranking/models/evaluate.py:15-19 | the ideal arrangement of any list scores 1 unless it has no gain in the cut-off |
| Evaluate.Precisions | content-ranking-system/src/ranking/models/evaluate.py:26-31 | one precision is recorded per hit, each in (0, 1] |
| Evaluate.AveragePrecision | content-ranking-system/src/ranking/models/evaluate.py:22-32 | average precision lies in [0, 1], and is 0 when the slice sums to 0 |
| Evaluate.AveragePrecisionLoop | content-ranking-system/src/ranking/models/evaluate.py:22-32 | the loop with its running hit count computes the recursive definition's value |
| Evaluate.HitsFirstScoresOne | content-ranking-system/src/ranking/models/evaluate.py:22-32 | average precision is 1 when every hit in the cut-off comes before every miss |
| Evaluate.Binarize | content-ranking-system/src/ranking/models/evaluate.py:36 | each grade becomes 1 exactly when it reaches the threshold, and 0 otherwise |
| Evaluate.MapAtK | content-ranking-system/src/ranking/models/evaluate.py:35-37 | MAP@k lies in [0, 1] |
| Evaluate.RowsOf | content-ranking-system/src/ranking/models/evaluate.py:48 | a group holds exactly the rows with its (user, session) key |
| Evaluate.NdcgPerGroup | content-ranking-system/src/ranking/models/evaluate.py:48-51 | there is one NDCG per group, taken over that group's grades by descending score |
| Evaluate.MapPerGroup | content-ranking-system/src/ranking/models/evaluate.py:48-52 | there is one MAP per group, with threshold 1 |
| Evaluate.EvaluateRanking | content-ranking-system/src/ranking/models/evaluate.py:40-58 | the group count is the number of distinct (user, session) keys, 0 exactly for an empty frame; for a non-empty frame NDCG@k and MAP@k are the means, over the groups, of each group's score on its grades sorted by descending model score; both lie in [0, 1] and are 0 for an empty frame |
| Evaluate.EvaluationAtBounds | content-ranking-system/src/ranking/models/evaluate.py:40-58 | the mean NDCG (or MAP) is 1 exactly when every group scores 1, and 0 exactly when every group scores 0 |
| Evaluate.IdealRankingScoresOne | content-ranking-system/src/ranking/models/evaluate.py:40-58 | when the scores put every group's grades in descending order and every group has gain in the cut-off, the reported NDCG is 1 |
| Frames.PyInt | content-ranking-system/src/ranking/inference/rank.py:42 | `int()` keeps integers, truncates floats toward zero, and raises exactly on text and NaN |
| TrainLtr.KidsContent | content-ranking-system/src/ranking/models/train_ltr.py:74 | the flag is 1 exactly for the genre "Kids", and 0 otherwise |
| TrainLtr.KidsMismatch | content-ranking-system/src/ranking/models/train_ltr.py:75 | the flag is 1 exactly for a kids profile shown a non-Kids genre |
| TrainLtr.KidsFlagsExclusive | content-ranking-system/src/ranking/models/train_ltr.py:74-75 | the two flags are never both 1, and a kids profile always gets exactly one of them |
| TrainLtr.PyInts | content-ranking-system/src/ranking/models/train_ltr.py:73 | `astype(int)` succeeds exactly when every cell converts, and then converts each cell |
| TrainLtr.WithCross | content-ranking-system/src/ranking/models/train_ltr.py:73-75 | a row gains the item age and both kids flags, and every other cell is unchanged |
| TrainLtr.AddCrossFeatures | content-ranking-system/src/ranking/models/train_ltr.py:73-75 | a missing source column fails; each row's item age is the year minus its release year, its kids flags follow its own genre and profile, and other cells are kept |
| TrainLtr.CrossCellsAgree | content-ranking-system/src/ranking/models/train_ltr.py:73-75 | the column-wise computation gives each row the cross cells computed from that row's own cells |
| TrainLtr.FeatureFrame | content-ranking-system/src/ranking/models/train_ltr.py:94-100 | dropping the label, timestamp and watch time fails exactly when one is absent, and leaves every other plain column |
| TrainLtr.BuildMatrices | content-ranking-system/src/ranking/models/train_ltr.py:94-119 | validation and test carry exactly the training columns; no label, leaking or raw categorical column is a feature; row counts are kept; the group sizes count exactly the rows with a complete key, and they are the run lengths when each query's rows are consecutive |
| TrainLtr.GroupSizesAsWritten | content-ranking-system/src/ranking/models/train_ltr.py:32-35 | the source's sizes give one count per distinct complete key, in order of first appearance, wherever that key's rows are |
| TrainLtr.RunOf | content-ranking-system/src/ranking/models/train_ltr.py:33 | the leading run of equal keys is maximal: it ends at the first different key |
| TrainLtr.RunLengths | content-ranking-system/src/ranking/models/train_ltr.py:32-33 | the run lengths are positive and sum to the number of rows |
| TrainLtr.GroupSizes | content-ranking-system/src/ranking/models/train_ltr.py:32-35 | as `_build_group_sizes` computes it: one positive size per distinct complete key in order of first appearance, each counting that key's rows; the total is the number of complete-key rows; with consecutive queries the sizes are the run lengths |
| TrainLtr.AlignedSizesAreRuns | content-ranking-system/src/ranking/models/train_ltr.py:32-35 | when every key is complete and each query's rows are consecutive, the source's sizes equal the run lengths |
| TrainLtr.RunChunksHomogeneous | content-ranking-system/src/ranking/models/train_ltr.py:32-33 | cutting the rows by the run lengths gives non-empty blocks, each a single query |
| TrainLtr.RunChunksMaximal | content-ranking-system/src/ranking/models/train_ltr.py:32-33 | consecutive blocks have different keys, so no query is cut in two |
| TrainLtr.RunChunksCover | content-ranking-system/src/ranking/models/train_ltr.py:32-33 | the blocks, read in order, are exactly the rows |
| TrainLtr.GroupSizesMisalign | content-ranking-system/src/ranking/models/train_ltr.py:32-35 | for keys A, B, A the source's sizes are [2, 1], so the ranker's first query mixes A and B; the run lengths are [1, 1, 1] |
| TrainLtr.AsWrittenSizesOfSplitGroup | content-ranking-system/src/ranking/models/train_ltr.py:34 | the source's sizes for keys A, B, A are [2, 1] |
| TrainLtr.RunLengthsOfSplitGroup | content-ranking-system/src/ranking/models/train_ltr.py:32-33 | the run lengths for keys A, B, A are [1, 1, 1] |
| Encoding.Levels | content-ranking-system/src/ranking/models/train_ltr.py:28-29 | the dummy levels of a field are its distinct non-missing values, each once, in ascending order |
| Encoding.DummyColumns | content-ranking-system/src/ranking/models/train_ltr.py:29 | a field gets one indicator per level plus the missing-value indicator, all distinct |
| Encoding.AllDummies | content-ranking-system/src/ranking/models/train_ltr.py:29 | the indicators are exactly those of the categorical fields' levels and NaN, without duplicates |
| Encoding.EncodeRow | content-ranking-system/src/ranking/models/train_ltr.py:29 | an encoded row has exactly the encoded columns, each holding its encoded cell |
| Encoding.OneHot | content-ranking-system/src/ranking/models/train_ltr.py:28-29 | encoding fails exactly when a categorical column is absent; the kept plain columns are exactly the non-categorical ones; every indicator names an occurring value or NaN; every field has its NaN indicator; the result is well formed |
| Encoding.ExactlyOneIndicator | content-ranking-system/src/ranking/models/train_ltr.py:29 | with `dummy_na=True` each row sets exactly one indicator of each categorical field, the one for its own value |
| Encoding.EncodedColumnsDistinct | content-ranking-system/src/ranking/models/train_ltr.py:29 | the encoded columns have no duplicate label |
| Frames.DropColumns | content-ranking-system/src/ranking/models/train_ltr.py:98 | dropping fails exactly when a named column is absent; otherwise exactly the named columns are removed, from the labels and from every row |
| Frames.Reindex | content-ranking-system/src/ranking/models/train_ltr.py:111 | the frame takes exactly the given columns; present cells are kept, absent ones are 0 |
| Frames.ReindexIdempotent | content-ranking-system/src/ranking/models/train_ltr.py:111-112 | aligning an aligned frame again changes nothing |
| Frames.ReindexToOwnColumns | content-ranking-system/src/ranking/models/train_ltr.py:111 | aligning a well-formed frame to its own columns changes nothing |
| Encoding.EncodeAligned | content-ranking-system/src/ranking/inference/rank.py:8-11 | encoding fails exactly when a categorical column is absent; otherwise the rows carry exactly the schema's columns, each cell computed from that row alone |
| Encoding.AlignedCells | content-ranking-system/src/ranking/inference/rank.py:8-11 | each aligned cell is the indicator comparison, the kept cell, or 0 |
| Encoding.TrainServeConsistent | content-ranking-system/src/ranking/inference/rank.py:8-11 | the same row gets the same features whether encoded in the training batch or among online candidates |
| ContextFeatures.HourOf | content-ranking-system/src/ranking/features/context_features.py:11 | the hour lies in [0, 24) |
| ContextFeatures.DayOfWeek | content-ranking-system/src/ranking/features/context_features.py:12 | the weekday lies in [0, 7) |
| ContextFeatures.NextDay | content-ranking-system/src/ranking/features/context_features.py:11-12 | a day later the hour is the same and the weekday is the next one |
| ContextFeatures.NextWeek | content-ranking-system/src/ranking/features/context_features.py:12 | a week later the weekday repeats |
| ContextFeatures.EpochWeek | content-ranking-system/src/ranking/features/context_features.py:12 | 1970-01-01 is a Thursday (3) and 1970-01-05 a Monday (0), with Saturday 5 and Sunday 6 |
| ContextFeatures.Timestamps | content-ranking-system/src/ranking/features/context_features.py:9 | reading the timestamps fails without the column, and succeeds on a well-formed frame exactly when every cell is a time |
| ContextFeatures.WithContext | content-ranking-system/src/ranking/features/context_features.py:11-16 | a row gains its hour and weekday, prime time exactly for hours 19 to 23 inclusive, and weekend exactly for Saturday and Sunday; other cells are unchanged |
| ContextFeatures.AddContextFeatures | content-ranking-system/src/ranking/features/context_features.py:4-17 | a missing timestamp column fails; each row gets the context of its own timestamp; the frame stays well formed and every other cell is kept |
| WindowAggregates.MaxTimestamp | content-ranking-system/src/ranking/features/user_features.py:13 | the maximum is attained by some event and bounds every event |
| WindowAggregates.Recent | content-ranking-system/src/ranking/features/user_features.py:13-15 | the window holds exactly the events at or after the cutoff, and is empty for an empty log |
| WindowAggregates.AggregatesOf | content-ranking-system/src/ranking/features/user_features.py:17-19 | plays never exceed clicks, and a key with no windowed event gets zeros |
| WindowAggregates.PlayRate | content-ranking-system/src/ranking/features/user_features.py:29 | the play rate lies in [0, 1), and is 0 without plays |
| WindowAggregates.LookUp | content-ranking-system/src/ranking/features/user_features.py:21-26 | a key cell that is not a text id joins nothing and gets zeros |
| WindowAggregates.WithAggregates | content-ranking-system/src/ranking/features/user_features.py:21-29 | a row gains the three sums as floats and the rate, and every other cell is unchanged |
| WindowAggregates.AddAggregates | content-ranking-system/src/ranking/features/user_features.py:3-30 | the merge fails exactly without the key column; every row is kept in order with the aggregates of its own key, and the frame stays well formed |
| WindowAggregates.AddUserAggregates | content-ranking-system/src/ranking/features/user_features.py:3-30 | each row gets its user's windowed clicks, plays, watch minutes and play rate; every other cell of the row is kept and the frame's columns stay first |
| WindowAggregates.AddItemAggregates | content-ranking-system/src/ranking/features/item_features.py:4-23 | each row gets its item's windowed clicks, plays, watch minutes and play rate; every other cell of the row is kept and the frame's columns stay first |
| WindowAggregates.StaleEventIgnored | content-ranking-system/src/ranking/features/user_features.py:13-15 | appending an event older than the cutoff leaves the window unchanged |
| WindowAggregates.AggregatesPartitionWindow | content-ranking-system/src/ranking/features/user_features.py:17-19 | summed over the distinct keys, the per-key clicks, plays and watch minutes give the window's totals |
| Records.Update | content-ranking-system/src/ranking/inference/rank.py:32-33 | the update's cells win, other cells stay, and new keys are appended after the old ones |
| Records.SetDefault | content-ranking-system/src/ranking/inference/rank.py:49 | only an absent key is set |
| Records.FromRecords | content-ranking-system/src/ranking/inference/rank.py:54 | the frame has one row per record; every record's cells are kept, and NaN fills the columns a record lacks |
| Rank.PrimeTimeOnline | content-ranking-system/src/ranking/inference/rank.py:38 | the flag is 1 exactly for hours 19 to 23 |
| Rank.WeekendOnline | content-ranking-system/src/ranking/inference/rank.py:39 | the flag is 1 exactly for weekdays 5 and 6 |
| Rank.OnlineFlagsMatchOffline | content-ranking-system/src/ranking/inference/rank.py:38-39 | the online flags equal the offline flags for the hour and weekday of any instant |
| Rank.MergedRow | content-ranking-system/src/ranking/inference/rank.py:31-40 | the context overrides the item, which overrides the user |
| Rank.WithDefaults | content-ranking-system/src/ranking/inference/rank.py:47-51 | absent placeholders become 0.0, an absent session id becomes the request's, and present cells are kept |
| Rank.ItemAge | content-ranking-system/src/ranking/inference/rank.py:42 | the age succeeds exactly when the release year converts, and is the year minus the release year |
| Rank.CompleteRow | content-ranking-system/src/ranking/inference/rank.py:42-51 | completion fails exactly when the release year or kids flag does not convert; the derived cells follow the row's own fields, are never both kids flags, and the defaults fill only absent cells |
| Rank.StandardPlaceholders | content-ranking-system/src/ranking/inference/rank.py:47-49 | the eight aggregate placeholders shadow neither the session id nor a derived or context cell |
| Rank.CandidateRow | content-ranking-system/src/ranking/inference/rank.py:29-52 | a row can be built only when the request's hour, weekday and year convert |
| Rank.CandidateRowUnfolds | content-ranking-system/src/ranking/inference/rank.py:29-52 | a built row is the completion of the merged user, item and context fields |
| Rank.CandidateRowContext | content-ranking-system/src/ranking/inference/rank.py:34-40 | the context cells are the request's device, hour and weekday (defaults "tv", 20, 2) and the flags computed from them, whatever the user or item rows hold |
| Rank.CandidateRowPrecedence | content-ranking-system/src/ranking/inference/rank.py:31-33 | item fields override user fields, and fields the online path does not write are carried over |
| Rank.CandidateRowDerived | content-ranking-system/src/ranking/inference/rank.py:42-44 | the item age comes from the request year and the item's release year (2020 when neither row has one), and the kids flags are never both 1 |
| Rank.CandidateRowPlaceholders | content-ranking-system/src/ranking/inference/rank.py:47-49 | a placeholder the item carries is kept, and one neither row carries is 0.0 |
| Rank.CandidateRows | content-ranking-system/src/ranking/inference/rank.py:29-52 | the rows succeed exactly when every candidate's row does, one per candidate in input order |
| Rank.ScoredRecords | content-ranking-system/src/ranking/inference/rank.py:59-62 | each record carries its row's user and item ids and the score of the aligned row at the same position |
| Rank.CandidateRecords | content-ranking-system/src/ranking/inference/rank.py:54-60 | succeeds exactly when every candidate row can be built and the one-hot encoding finds every categorical field (so a missing field such as `age_bucket`, or no candidates at all, fails); then there is one record per candidate, scored by the model on that candidate's aligned encoding |
| Rank.CandidateRecordIds | content-ranking-system/src/ranking/inference/rank.py:31-62 | a candidate's record carries its own item id, and the item's user id if it has one, else the user's |
| Rank.RankCandidates | content-ranking-system/src/ranking/inference/rank.py:13-63 | the output is a rearrangement of the scored records, each candidate's record exactly once, in descending score order |
| Rank.RankedIds | content-ranking-system/src/ranking/inference/rank.py:54-63 | the ranked records name exactly the item ids of the candidate rows |
| Api.ContextDict | content-ranking-system/src/ranking/api/app.py:11-15 | the dumped context holds exactly the four request fields |
| Api.ContextReadsBack | content-ranking-system/src/ranking/api/app.py:54 | the ranker reads back exactly the request's context, and always the default year |
| Api.FirstUser | content-ranking-system/src/ranking/api/app.py:39-48 | the user row is the first row with the id, and is absent exactly when no row has it |
| Api.CandidateItems | content-ranking-system/src/ranking/api/app.py:43 | the candidate rows are exactly the catalogue rows whose id is a candidate |
| Api.MissingIds | content-ranking-system/src/ranking/api/app.py:44-46 | the missing ids are exactly the unknown candidates, each once, ascending |
| Api.Validate | content-ranking-system/src/ranking/api/app.py:17-49 | no candidates gives 422; otherwise an unknown user gives 404 exactly when no row matches, then unknown items give 404 with their sorted list; a success passes the first user row, exactly the candidate rows and the context |
| Api.CandidateNames | content-ranking-system/src/ranking/api/app.py:43-45 | when every candidate is known, the candidate rows name exactly the candidates |
| Api.OneRowPerCandidate | content-ranking-system/src/ranking/api/app.py:43-49 | with distinct catalogue ids the ranker gets one row per distinct candidate, carrying that candidate's id |
| Api.HandleRank | content-ranking-system/src/ranking/api/app.py:26-61 | validation errors pass through; a success echoes the user id and context, and its ranking is exactly the ranker's output for the validated user row, candidate rows and request context, sorted by descending score |
| Api.RankedAreTheCandidates | content-ranking-system/src/ranking/api/app.py:39-61 | for valid rows, every ranked record names a requested candidate and every requested candidate has a ranked record |
| TrustMetrics.Jaccard | explainability_trust_recsys/src/trust_metrics.py:32-34 | the overlap lies in [0, 1], is 0 exactly for disjoint lists, and is 1 exactly for equal non-empty sets |
| TrustMetrics.JaccardOfSets | explainability_trust_recsys/src/trust_metrics.py:32-34 | the overlap depends on the lists only as sets, and is symmetric |
| TrustMetrics.Stability | explainability_trust_recsys/src/trust_metrics.py:36-38 | stability is 1 exactly when the perturbed list shows the same non-empty set, and 0 exactly when it shares nothing |
| TrustMetrics.Shown | explainability_trust_recsys/src/trust_metrics.py:27-29 | the shown ids are exactly the ids of any list |
| TrustMetrics.ListCoverage | explainability_trust_recsys/src/trust_metrics.py:25-30 | coverage is non-negative, 0 exactly when every list is empty, and at most 1 when every id is a catalogue index |
| TrustMetrics.CollectedGenres | explainability_trust_recsys/src/trust_metrics.py:17-20 | no genre is collected exactly when no listed movie is catalogued, and each catalogued movie adds at least one piece |
| TrustMetrics.GenreDiversity | explainability_trust_recsys/src/trust_metrics.py:15-23 | diversity lies in [0, 1], is 0 exactly when no listed movie is catalogued, and is 1 exactly when no genre repeats |
| TrustMetrics.MovieIds | explainability_trust_recsys/src/trust_metrics.py:52 | the translation succeeds exactly when every index is mapped, and maps each; otherwise it raises for an unmapped index |
| TrustMetrics.Summarize | explainability_trust_recsys/src/trust_metrics.py:40-59 | the summary fails exactly when some index is unmapped; coverage is over the popularity length; the average diversity lies in [0, 1]; no lists give zeros |
| PyOps.Split | User-Engagement-Prediction/src/make_dataset.py:19 | splitting gives at least one piece, and no piece holds the separator |
| PyOps.SplitJoin | User-Engagement-Prediction/src/make_dataset.py:19 | joining the pieces on the separator gives back the text |
| EngagementDataset.Enrich | User-Engagement-Prediction/src/make_dataset.py:12-19 | the row keeps the rating; engaged is 1 exactly for a rating of 4.0 or more; missing genres become "(no genres listed)"; the genre list re-joins to the genre text |
| EngagementDataset.JoinOne | User-Engagement-Prediction/src/make_dataset.py:12 | a rating gets one row per matching movie, or one row when nothing matches |
| EngagementDataset.JoinMovies | User-Engagement-Prediction/src/make_dataset.py:12 | every joined row carries one of the ratings, and there are at least as many rows as ratings |
| EngagementDataset.JoinKeepsRatings | User-Engagement-Prediction/src/make_dataset.py:12 | with distinct movie ids the joined rows give back the ratings, in order |
| EngagementDataset.BuildInteractions | User-Engagement-Prediction/src/make_dataset.py:11-23 | the table is a rearrangement of the joined rows, ordered by user and then time, with the derived fields set in every row |
| EngagementDataset.LastIndex | User-Engagement-Prediction/src/make_dataset.py:27 | a user's held-out position is the first of its latest rows, and is absent exactly when it has no rows |
| EngagementDataset.Users | User-Engagement-Prediction/src/make_dataset.py:27 | the group keys are exactly the users with rows, strictly ascending |
| EngagementDataset.TestIndices | User-Engagement-Prediction/src/make_dataset.py:27-28 | there is one held-out position per user, in user order |
| EngagementDataset.TrainIndices | User-Engagement-Prediction/src/make_dataset.py:29 | the remaining positions are exactly the non-held-out ones, ascending |
| EngagementDataset.HoldoutPartition | User-Engagement-Prediction/src/make_dataset.py:27-29 | the held-out and remaining positions partition the table's positions, none listed twice |
| EngagementDataset.SplitLastInteraction | User-Engagement-Prediction/src/make_dataset.py:25-30 | test has one row per user and train has the remaining rows, each taken from its position |
| EngagementDataset.HoldoutKeepsRows | User-Engagement-Prediction/src/make_dataset.py:27-29 | train and test together have as many rows as the table |
| EngagementDataset.TestIsLatest | User-Engagement-Prediction/src/make_dataset.py:26-28 | a user's test row belongs to that user, and no row of that user is later |
| EngagementDataset.TrainNotLater | User-Engagement-Prediction/src/make_dataset.py:26-29 | no training row of a user is later than that user's test row |
| EngagementFeatures.VocabularyDistinct | User-Engagement-Prediction/src/features.py:4-8 | the genre vocabulary has 20 distinct entries |
| EngagementFeatures.GenreColumnsDistinct | User-Engagement-Prediction/src/features.py:13-14 | distinct genres give distinct `genre__` columns |
| EngagementFeatures.GenreFlags | User-Engagement-Prediction/src/features.py:13-14 | each flag is 1 exactly when the row lists the genre, and 0 exactly when it does not |
| EngagementFeatures.GenreFlagsCount | User-Engagement-Prediction/src/features.py:13-14 | the flags set number the distinct vocabulary genres the row lists |
| EngagementFeatures.Stats | User-Engagement-Prediction/src/features.py:19-22 | count, rating mean times count equals the rating total, and the engaged rate is the share of engaged rows, in [0, 1] |
| EngagementFeatures.LastTs | User-Engagement-Prediction/src/features.py:23 | the last time is attained by some row and bounds every row |
| EngagementFeatures.Movies | User-Engagement-Prediction/src/features.py:26 | the movie keys are exactly the movies with rows, strictly ascending |
| EngagementFeatures.UserAggregate | User-Engagement-Prediction/src/features.py:19-24 | a user's aggregate counts that user's rows, at least one, and its last time is the user's latest |
| EngagementFeatures.MovieAggregate | User-Engagement-Prediction/src/features.py:26-30 | a movie's aggregate counts that movie's rows |
| EngagementFeatures.FitAggregates | User-Engagement-Prediction/src/features.py:17-32 | there is one aggregate per user and per movie of the training rows, in key order, each computed from that key's training rows only |
| EngagementFeatures.FindUser | User-Engagement-Prediction/src/features.py:36 | the lookup finds nothing exactly when no aggregate has the id, and otherwise finds the one with it |
| EngagementFeatures.FindMovie | User-Engagement-Prediction/src/features.py:37 | the lookup finds nothing exactly when no aggregate has the id, and otherwise finds the one with it |
| EngagementFeatures.ApplyRow | User-Engagement-Prediction/src/features.py:36-55 | the aggregates are present exactly when the key was fitted; the recency is present exactly with the user aggregate and is in days; hour and weekday are those of the row's time |
| EngagementFeatures.ApplyAggregates | User-Engagement-Prediction/src/features.py:34-57 | every row is kept in order with its own features |
| EngagementFeatures.RecencyNotNegative | User-Engagement-Prediction/src/features.py:39-43 | a row no earlier than its user's training rows has a non-negative recency, present exactly when the user has training rows |
| EngagementFeatures.HeldOutRecency | User-Engagement-Prediction/src/features.py:39-43 | every held-out row, featured with aggregates fitted on the training part, has a non-negative recency |
| EngagementFeatures.ModelColumns | User-Engagement-Prediction/src/features.py:62-68 | the model columns are "engaged", the nine numeric columns and the twenty genre columns, in that order |
| EngagementFeatures.ModelColumnsDistinct | User-Engagement-Prediction/src/features.py:62-68 | the 30 model columns are distinct |
| EngagementFeatures.HeadCells | User-Engagement-Prediction/src/features.py:62-67 | the first ten cells are the label and the aggregate, recency and time features, missing where the value is absent |
| EngagementFeatures.ModelRow | User-Engagement-Prediction/src/features.py:59-69 | a model row has 30 cells; each genre cell is 1.0 exactly when the row lists that genre, and 0.0 otherwise |
| EngagementFeatures.MakeModelTable | User-Engagement-Prediction/src/features.py:59-69 | the table has the model columns and one row of matching width per input row |

## Left out

- The random generator is a stream of draws. A draw `d` picks element `d % |pool|` of the pool, so numpy's uniform and popularity-weighted choice are not modelled. A stream that runs out stands for a loop that has not yet finished, since the source loops until it finds enough negatives.
- NegativeSampling.SampleNegatives: does not state that popularity sampling favours heavier items, because the weighted choice is not modelled.
- The shuffle of `random_split` is a parameter: any permutation of the positions.
- Evaluate.EvaluateRanking: the discount `log2(i + 2)` is a parameter. It is any discount that starts at 1 or more and never decreases, which `log2` satisfies. Floating-point rounding is not modelled; reals are exact.
- pandas' `sort_values` is not a stable sort by default. The model sorts stably, so the order of ties may differ.
- The trained LightGBM model is a per-row scorer given as a parameter. Training, early stopping, `best_iteration`, the metrics report and model saving are left out, as are the YAML configuration and file I/O.
- `datetime.now().year` in the training run is a parameter. Timestamps are integer epoch seconds rather than datetimes.
- The order of dummy levels across cells of different kinds (text against numbers) is a fixed kind order. pandas would fail or order them differently for mixed-type columns.
- Dummy indicators are the integers 0 and 1, where pandas gives booleans. Merged aggregate sums are reals, as after `fillna(0.0)`.
- Merge suffixes (`_x`/`_y`) on clashing column names are not modelled: the left row's cell is kept.
- `int()` of a numeric string raises in the model. Python would parse it.
- The file-existence check of the endpoint (app.py lines 33-34), the health endpoint, and the FastAPI and pydantic framework are left out. `Api.Status` maps errors to HTTP status codes and carries no contract.
- `item_popularity` of the trust metrics is left out, because it sums a sparse matrix. `novelty_score` is a function parameter of `TrustMetrics.Summarize`. Its `-log2` mean and its index errors are not modelled.
- TrustMetrics.Summarize: does not state the novelty average's bounds, because novelty is abstract.
- EngagementFeatures.ApplyAggregates: the median fill of missing aggregates (features.py lines 46-51) is not modelled. A missing value stays `Missing`.
- `movies_df.loc[mid, "genres"]` with a duplicated movie index would return several rows. The catalogue is a map, so each id has one genre text.
- The group-by means of the engagement project are never taken over an empty group, so pandas' NaN for an empty mean does not arise.
- Downloading data, the other scripts of the side projects, and the data generator are outside the modelled core.

## Findings

| source | as written | input that shows it | evidently intended | confidence | as-written member | corrected member |
|---|---|---|---|---|---|---|
| content-ranking-system/src/ranking/models/train_ltr.py:32-35 | `groupby([...], sort=False).size()` counts each (user, session) key's rows wherever they lie, in order of first appearance | rows keyed A, B, A give sizes [2, 1]; the ranker reads the first two rows, which belong to A and B, as one query | one size per maximal run of consecutive rows with the same key, as the comment "must align with row order" requires | not executed | TrainLtr.GroupSizesMisalign | TrainLtr.RunLengths |
| content-ranking-system/src/ranking/data/splits.py:6-7 | the guard only checks that the fractions sum to 1 | two rows with fractions (-0.5, 0.5, 1.0): the training part is the first row and the test part holds both rows | each fraction also lies in [0, 1], so the three parts partition the rows | not executed | Splits.NegativeFractionDuplicatesRows | Splits.TimeSplitChecked |
