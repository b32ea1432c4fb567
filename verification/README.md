# Training and evaluation automata, verified

A model in Dafny of the `automata` package's bookkeeping: the parts that turn played games
into datasets, metrics and promotion decisions, and that must give one answer however the
work was sharded, interrupted or ordered.

| area | modules |
|---|---|
| Bounded-memory metrics against the two-pass batch metrics | `GameEqual`, `ValueMetrics`, `PolicyMeasure`, `PolicyMetrics`, `PolicyReport`, `PolicyRanking` |
| Merging shards of a joint dataset | `RowOrder`, `JointDataset`, `BootstrapMerge` |
| Crash-resumable self-play and its reconciliation | `SelfPlay`, `Reconcile`, `SelfPlayPipeline` |
| The resumable disk index | `IndexBuild`, `IndexScan`, `IndexRanges`, `IndexBuilder` |
| Stream validation, line reading, source identity | `NativeStream`, `Lines`, `Provenance` |
| The sequential arena | `ArenaStats`, `Sequential`, `ArenaStage` |
| Boundaries of a played game | `StableBoundaries` |
| Search: loadouts, statistics, sampling, boundary ranking, bot driver | `Loadout`, `SearchStats`, `Continuation`, `BoundaryRanking`, `Driver` |

Objects that the program updates in place are classes whose methods are proved against
functions or predicates of what they were fed; value-like records are datatypes. A `raise`
is a `Failure` result. Where the program checks something that its own earlier steps
guarantee, the check is kept and the rejecting branch is proved unreachable.

Four results are negative, each with the exact condition. A self-play
game that is censored and later completed puts its receipt out of seed order, and the
reconciler rejects it (`SelfPlayPipeline.CensoredThenCompleted`); it accepts if and only if no
run completed a game after censoring an earlier one (`SelfPlayPipeline.WorkersReconcile`). If
publishing an index is undone after the staged directory was moved, the next build tensorizes
every game again (`IndexBuilder.RolledBackBuildRepeats`); recorded games are tensorized again
if and only if that happened and a worker ran afterwards (`IndexBuilder.RepeatsIff`). And the
documentation of `inspect_next_owner` promises that no owner means no decision; this fails
exactly for upgrade requests addressed to a team in which both a human and an answering bot
owe an upgrade (`Driver.OwnerMissesTeamUpgrade`, `Driver.InspectionsAgree`). Last, a stage
killed just after the first game of a pair that follows a look drops and replays that game, so
with one game per restart it never gets further, while two are enough
(`ArenaStage.StageRunner.RunRepeatedly`).

Verify with `dafny verify dfyconfig.toml`.

## Model

| member | source | states |
|---|---|---|
| `GameEqual.MeanOfMeans` | src/automata/training/metrics.py:367-376 | weighting every row by one over games over rows of its game is averaging the per-game means, whatever order the games are visited in |
| `GameEqual.WeightedMeanReordered` | src/automata/training/metrics.py:367-376 | the game-equal mean is the same for any two row orders |
| `GameEqual.CountsAddUp` | src/automata/training/metrics.py:369-376 | per-game row counts add up to the number of rows |
| `GameEqual.NothingIndicated` | src/automata/training/metrics.py:266-270 | a calibration bin whose weight is zero has no residual, so skipping it loses nothing |
| `GameEqual.MeanOfProportions` | src/automata/training/metrics.py:323-332 | a game-equal mean of values in [0, 1] stays in [0, 1] |
| `GameEqual.FewerGamesThanRows` | src/automata/training/metrics.py:334-340 | rows come from at most as many games as there are rows, and from at least one if there are any |
| `GameEqual.ConstantMean` | src/automata/training/metrics.py:367-376 | rows of one value have that value as game-equal mean, however many games they come from |
| `GameEqual.PositiveMean` | src/automata/training/metrics.py:367-376 | the game-equal mean of values that are never negative is positive exactly when some value is |
| `ValueMetrics.BinErrorIsResidual` | src/automata/training/metrics.py:259-270 | a bin's weight times the gap of its weighted means is the absolute weighted residual, for every bin, empty ones included |
| `ValueMetrics.AggregateValueReordered` | src/automata/training/metrics.py:224-280 | all value metrics are unchanged by reordering the rows |
| `ValueMetrics.BinInRange` | src/automata/training/metrics.py:260-265 | a valid row falls in one of the calibration bins |
| `ValueMetrics.ValueAggregate.constructor` | src/automata/training/metrics.py:484-502 | an accumulator starts with no rows |
| `ValueMetrics.ValueAggregate.Add` | src/automata/training/metrics.py:504-519 | one row updates the per-game sums and per-bin residuals so that they describe all rows added |
| `ValueMetrics.GameMeansAreExact` | src/automata/training/metrics.py:535-549 | the streamed per-game means of every field are the batch per-game means |
| `ValueMetrics.ValueAggregate.Compute` | src/automata/training/metrics.py:521-558 | the one-pass result equals the two-pass batch metrics of all rows added, calibration error included |
| `ValueMetrics.AccuracyMeans` | src/automata/training/metrics.py:250-253 | rows that all call their winner have accuracy 1, and the accuracy is positive exactly when some row does |
| `ValueMetrics.BrierMeans` | src/automata/training/metrics.py:246-249 | the Brier score is never negative and 0 exactly when every prediction is its target |
| `ValueMetrics.LogLossMeans` | src/automata/training/metrics.py:239-245 | rows of one prediction and target have as log loss the negated logarithm of the probability of what happened, for a draw the mean of both, with probabilities kept inside (0, 1) |
| `ValueMetrics.AlikeMeans` | src/automata/training/metrics.py:224-280 | rows of one prediction and target: the calibration error is how far the two are apart, the Brier score its square, and they are saturated exactly from the threshold on |
| `ValueMetrics.BinMeans` | src/automata/training/metrics.py:260-265 | bin b holds the probabilities from b to b + 1 parts of the bins, the last one its upper end too |
| `PolicyMeasure.JudgePairs` | src/automata/training/metrics.py:296-308 | the nested loops list exactly the judged candidate pairs, ties in the target skipped |
| `PolicyMeasure.ComparisonsAreInformative` | src/automata/training/metrics.py:296-310 | no pair is judged exactly when all targets are equal, and every judgement lies in [0, 1] |
| `PolicyMeasure.PairwiseAccuracyIsProportion` | src/automata/training/metrics.py:296-309 | pairwise accuracy exists exactly when two targets differ, needs two candidates and is a proportion |
| `PolicyMeasure.MeasurePolicy` | src/automata/training/metrics.py:283-315 | measures cross entropy, top-1, recall, pairwise accuracy, entropy and overturn of one decision; a pairwise accuracy comes with differing targets, several candidates and a value in [0, 1] |
| `PolicyMeasure.PairwiseAccuracyMeans` | src/automata/training/metrics.py:295-307 | ordering every separated pair as the targets do gives pairwise accuracy 1, ordering all of them the other way 0, and equal predictions 1/2 |
| `PolicyMeasure.SoftmaxMeans` | src/automata/training/metrics.py:379-383 | the softmax is a distribution that orders the candidates as the logits do and divides equal logits equally |
| `PolicyMeasure.SoftmaxProportion` | src/automata/training/metrics.py:379-383 | the shares stand to each other as the exponentials of the logits below the greatest one |
| `PolicyMeasure.RankMeans` | src/automata/training/metrics.py:292-293 | candidates rank by falling probability, equal ones by index |
| `PolicyMeasure.RankingMeans` | src/automata/training/metrics.py:283-315 | logits in the target's order have full top-1 and pairwise accuracy, logits in the opposite order none |
| `PolicyMeasure.PairwiseAccuracyCounts` | src/automata/training/metrics.py:295-307 | pairwise accuracy is the number of separated pairs ordered alike plus half of those tied, over all separated pairs |
| `PolicyMeasure.Top1OfDecision` | src/automata/training/metrics.py:290-291 | top-1 accuracy is the share of the candidates with the greatest logit that are among the target's best |
| `PolicyMeasure.TopCount` | src/automata/training/metrics.py:292-293 | the first k candidates are k, or all of them |
| `PolicyMeasure.RecallOfDecision` | src/automata/training/metrics.py:289-293 | the recall is the share of the best candidates among the first k by probability |
| `PolicyMeasure.OverturnMeans` | src/automata/training/metrics.py:309-311 | a decision is overturned exactly when no best candidate of the priors is a best one of the targets |
| `PolicyMeasure.CrossEntropyMeans` | src/automata/training/metrics.py:285-288 | for a target with one candidate the cross entropy is the negated logarithm of its probability |
| `PolicyMeasure.EntropyMeans` | src/automata/training/metrics.py:308-308 | the entropy is never negative and, of several candidates, positive |
| `PolicyMeasure.EqualLogits` | src/automata/training/metrics.py:283-308 | equal logits give every candidate an equal share: the entropy is the negated logarithm of the share, the cross entropy that in proportion to the target, the pairwise accuracy 1/2 |
| `PolicyMeasure.QVarianceMeans` | src/automata/training/metrics.py:312-314 | the reported variance is the number that, once for each candidate, makes up the sum of theirs |
| `PolicyMetrics.GameMetrics.Add` | src/automata/training/metrics.py:423-439 | adding a decision advances each of the seven running means, and leaves one alone where the field is absent |
| `PolicyMetrics.GameMeansAreExact` | src/automata/training/metrics.py:457-463 | the running means of games that have a field are the batch means of those games |
| `PolicyMetrics.PairwiseCountsAreExact` | src/automata/training/metrics.py:465-472 | streamed pairwise row and game counts are the batch counts |
| `PolicyMetrics.PolicyAggregate.Add` | src/automata/training/metrics.py:443-454 | one decision updates its game's means so that the aggregate describes all rows added |
| `PolicyMetrics.PolicyAggregate.AverageIsExact` | src/automata/training/metrics.py:457-463 | averaging over the games that have a field is the batch average over the rows that have it |
| `PolicyMetrics.PolicyAggregate.CountsAreExact` | src/automata/training/metrics.py:465-472 | game and pairwise counts of the aggregate are those of the rows |
| `PolicyMetrics.PolicyAggregate.Compute` | src/automata/training/metrics.py:456-480 | the accumulator equals the batch policy metrics of all rows added |
| `PolicyMetrics.AlikeMeans` | src/automata/training/metrics.py:318-364 | rows that were all measured alike average to that measurement, field by field |
| `PolicyMetrics.CountsMean` | src/automata/training/metrics.py:318-364 | the counts are those of all rows, of rows with several candidates, of informative rows, and of the games of all and of the informative rows |
| `PolicyReport.PolicyAccumulator.OpenGroup` | src/automata/training/metrics.py:600-618 | the first row of a bucket opens a separate aggregate and every bucket then holds exactly its rows |
| `PolicyReport.PolicyAccumulator.ExtendGroup` | src/automata/training/metrics.py:600-618 | a later row of a bucket reaches that bucket's aggregate and no other |
| `PolicyReport.PolicyAccumulator.AddToGroup` | src/automata/training/metrics.py:600-618 | a row is routed to its bucket of one dimension, or to none when it has no label there |
| `PolicyReport.PolicyAccumulator.Add` | src/automata/training/metrics.py:600-618 | after a row the overall aggregate and every bucket hold exactly the rows that belong to them |
| `PolicyReport.PolicyAccumulator.Compute` | src/automata/training/metrics.py:620-637 | the accumulated report, fixed and observed buckets alike, is the batch report |
| `PolicyReport.ReportedMeans` | src/automata/training/metrics.py:620-637 | a bucket is reported exactly when it is one of the fixed ones or some row falls in it |
| `PolicyReport.FixedBuckets` | src/automata/training/metrics.py:16-18 | the fixed buckets: no request or a known request type, every role, both skip flags |
| `PolicyReport.BucketMeans` | src/automata/training/metrics.py:600-637 | a bucket is the aggregate of exactly the rows that fall in it, in their order |
| `PolicyReport.RoleRoundTrip` | src/automata/policy_ranking.py:136-139 | a role is read back from the name it is reported under |
| `PolicyReport.OverallMeans` | src/automata/training/metrics.py:600-637 | the overall metrics are the aggregate of all rows |
| `PolicyRanking.ConstructionDecidesValidity` | src/automata/policy_ranking.py:27-47 | the construction checks accept a bucket exactly when its counts and accuracy satisfy the bucket invariants |
| `PolicyRanking.AggregateIsRankable` | src/automata/policy_ranking.py:150-171 | every aggregate of measured rows yields a valid ranking bucket |
| `PolicyRanking.RoleIsRankable` | src/automata/policy_ranking.py:174-198 | every role's bucket in the report is present and yields valid evidence |
| `PolicyRanking.OnlyRolesReported` | src/automata/policy_ranking.py:174-198 | the report has a bucket for every semantic role and for nothing else |
| `PolicyRanking.SnapshotIsBuilt` | src/automata/policy_ranking.py:174-198 | from any stream of valid rows the snapshot is built and all its buckets are valid |
| `PolicyRanking.SnapshotRepeats` | src/automata/policy_ranking.py:150-198 | the snapshot's evidence has the informative decisions, choices, informative games and accuracy of the report, overall and for each role from its own bucket |
| `RowOrder.KeyOrder` | src/automata/scripts/run_parallel.py:137-144 | rows are totally ordered by their key |
| `RowOrder.KeyTransitive` | src/automata/scripts/run_parallel.py:137-144 | the row order is transitive and respects equal keys |
| `RowOrder.IncreasingIsCanonical` | src/automata/scripts/run_parallel.py:154-227 | a strictly increasing sequence is determined by its set of rows |
| `RowOrder.StringLessAtDifference` | src/automata/scripts/run_parallel.py:137-144 | strings are compared at the first place where they differ |
| `RowOrder.IncreasingIffInPlace` | src/automata/scripts/run_parallel.py:137-144 | rows increase exactly when their world seeds ascend, games of one seed ascend by name, and rows of one game by decision index |
| `JointDataset.ConsistentSnoc` | src/automata/training/dataset.py:584-613 | one more row keeps a dataset consistent exactly when it fits the rows before it |
| `JointDataset.ConsistentMeans` | src/automata/training/dataset.py:584-613 | a dataset is consistent exactly when later rows agree with earlier ones on provenance, winner and seed, indexes of a game increase, and none is skipped |
| `JointDataset.ValidateDataset` | src/automata/training/dataset.py:569-615 | the streaming reader with its dictionaries accepts exactly the datasets satisfying the whole-dataset predicate |
| `JointDataset.GamesStartAtZero` | src/automata/training/dataset.py:608-611 | a dataset holding a game's row k holds all its earlier rows, of the same identity |
| `BootstrapMerge.PartitionRange` | src/automata/scripts/run_parallel.py:72-87 | the shards are consecutive, non-empty, of sizes differing by at most one with the larger first, and cover the range exactly |
| `BootstrapMerge.PopLeast` | src/automata/scripts/run_parallel.py:154-181 | the least unread head is found whenever some shard is not exhausted |
| `BootstrapMerge.CheckOrder` | src/automata/scripts/run_parallel.py:137-144 | a shard is accepted exactly when its keys never go back; of a valid dataset, exactly when its seeds ascend and each game's rows come by index |
| `BootstrapMerge.StepKeepsValid` | src/automata/scripts/run_parallel.py:182-211 | an accepted row keeps the tables of seen decisions, next indexes and seeds right, and duplicates add nothing |
| `BootstrapMerge.RejectedIsNotMergeable` | src/automata/scripts/run_parallel.py:182-202 | a rejected row proves that the shards' rows are not one complete dataset |
| `BootstrapMerge.FullMergeIsMergeable` | src/automata/scripts/run_parallel.py:229-236 | when all rows were popped, the rows form the expected dataset exactly when the merged seeds are the expected ones |
| `BootstrapMerge.MergedIsValid` | src/automata/scripts/run_parallel.py:116-238 | rows of different shards agree on identity, winner and seed, so a complete merge passes the dataset validation its shards passed |
| `BootstrapMerge.MergeJointBootstrap` | src/automata/scripts/run_parallel.py:116-238 | success if and only if the shards' rows are one complete dataset backed by completed receipts; the output is then its duplicate-free row sequence, by ascending seeds and each game by its indexes, and can be read back |
| `BootstrapMerge.DatasetOrder` | src/automata/scripts/run_parallel.py:137-144 | a valid dataset is in merge order exactly when its seeds ascend and each game's rows come by index |
| `BootstrapMerge.MergeMeans` | src/automata/scripts/run_parallel.py:116-238 | every merged row has a completed receipt and an expected seed, every expected seed has rows, and a row without such a receipt fails the merge |
| `BootstrapMerge.MergeIgnoresSharding` | src/automata/scripts/run_parallel.py:116-238 | the outcome depends only on the rows, the completed receipts and the seeds, not on how rows were split, repeated or ordered among shards |
| `SelfPlay.AppendKeepsSound` | src/automata/training/generation.py:1083-1088 | a receipt appended for a published game without one keeps every receipt matched and unique |
| `SelfPlay.WriteKeepsOrder` | src/automata/training/generation.py:1083-1088 | a lost, torn or durable receipt write keeps the directory sound and its completion order on record |
| `SelfPlay.AfterPlayReceipts` | src/automata/training/generation.py:769-842 | a kept game gains its own receipt and no other; a censored one leaves no trace |
| `SelfPlay.FateMeans` | src/automata/training/generation.py:769-842 | a play is dropped exactly when it is censored, and kept exactly when it ends with rows, an agreeing winner and a durable receipt |
| `SelfPlay.AfterPlayRecords` | src/automata/training/dataset.py:390-410 | a published game's fragment has one row for every decision, in order, with its winner and identity, and its receipt says so |
| `SelfPlay.RunRecords` | src/automata/training/generation.py:732-845 | after a lifetime every newly published fragment records all decisions of the play that produced it |
| `SelfPlay.FragmentsAreRecordings` | src/automata/training/generation.py:732-845 | over any number of lifetimes every fragment records all decisions of one of the plays |
| `SelfPlay.SelfPlayWorker.constructor` | src/automata/training/generation.py:702-727 | a worker starts from an empty directory |
| `SelfPlay.SelfPlayWorker.LoadCheckpoints` | src/automata/training/generation.py:963-986 | a torn last row is dropped and the rest is accepted exactly when every row carries this worker's identity, an assigned game and no repetition |
| `SelfPlay.LoadableMeans` | src/automata/training/generation.py:963-1004 | receipts load exactly when every one is for one of the worker's games, under its own identity, and they are for as many games as there are receipts |
| `SelfPlay.SelfPlayWorker.AppendCheckpoint` | src/automata/training/generation.py:1083-1088 | the file gains the whole row, part of it or nothing |
| `SelfPlay.AdoptingKeepsLawful` | src/automata/training/generation.py:1010-1031 | looking at one game on restart, and adopting its fragment if it has no receipt, keeps the past lawful and loses nothing, whatever becomes of the write |
| `SelfPlay.SelfPlayWorker.ReconcileGame` | src/automata/training/generation.py:1010-1031 | the checks of a fragment against its receipt never reject what crashes leave; an unreceipted fragment is adopted, a receipted one left alone |
| `SelfPlay.SelfPlayWorker.ReconcileFragments` | src/automata/training/generation.py:1006-1031 | every game is looked at in order until a receipt write fails, with exactly that effect on disk |
| `SelfPlay.CompletionKeepsOrder` | src/automata/training/generation.py:769-842 | publishing a game and writing its receipt keeps the directory sound, and the receipts in order unless this run has censored an earlier game |
| `SelfPlay.TurnKeepsLawful` | src/automata/training/generation.py:745-845 | one pending game, whatever befalls it, keeps the past lawful: no published game is started and none is lost |
| `SelfPlay.RunKeepsLawful` | src/automata/training/generation.py:732-845 | a process lifetime that crashes anywhere keeps every receipt matched and unique, loses nothing and starts no published game |
| `SelfPlay.HistoryIsKept` | src/automata/training/generation.py:732-845 | over any number of lifetimes every prefix of the history is continued by the whole |
| `SelfPlay.NothingIsReplayed` | src/automata/training/generation.py:732-845 | cut the whole history of a worker anywhere: what was published before the cut is kept and never started after it, what is published after it was started after it and never again later |
| `SelfPlay.RunFinishesIff` | src/automata/training/generation.py:732-845 | a run finishes if and only if every receipt owed on restart is written and no pending game kills it |
| `SelfPlay.FinishedRunReceipts` | src/automata/training/generation.py:732-845 | a finished run leaves every game with a receipt except exactly those it censored |
| `SelfPlay.RunOvertakesIff` | src/automata/training/generation.py:774-842 | a run completes a game after censoring an earlier one exactly when it gets past the restart, censors a game without fragment and publishes a later one before dying |
| `SelfPlay.SelfPlayWorker.PlayGame` | src/automata/training/generation.py:745-844 | one game is started and ends as censored, dead, or published and receipted, with exactly that effect |
| `SelfPlay.SelfPlayWorker.Complete` | src/automata/training/generation.py:828-844 | a game that ran to its end is published first and receipted second; without rows or with a contradicted winner nothing remains |
| `SelfPlay.SelfPlayWorker.PublishAndReceipt` | src/automata/training/generation.py:769-842 | fragment first, receipt second, whatever happens to the receipt write |
| `SelfPlay.SelfPlayWorker.PlayPending` | src/automata/training/generation.py:736-845 | exactly the games without a receipt are played, in order, until one kills the process |
| `SelfPlay.SelfPlayWorker.Run` | src/automata/training/generation.py:732-845 | one process lifetime: its whole effect, exactly when it finishes, exactly when it overtakes a censored game, which games are then receipted, and that newly published fragments record their whole play |
| `SelfPlay.SelfPlayWorker.Campaign` | src/automata/training/generation.py:732-845 | any number of lifetimes have exactly the effect of one after the other, and each intermediate past is continued by the last |
| `SelfPlay.ReceiptOrder` | src/automata/training/generation.py:732-845 | whatever crashed, once all games have receipts they are in assigned order if and only if no lifetime completed a game after censoring an earlier one |
| `SelfPlay.AdoptionIsNext` | src/automata/training/generation.py:1006-1031 | in an orderly directory the only fragment without a receipt is the next game's |
| `Reconcile.SortSorts` | src/automata/training/generation.py:245-246 | sorting by seed orders the games and keeps them all |
| `Reconcile.BuildWorkerSpecs` | src/automata/training/generation.py:236-261 | assignment succeeds exactly for a positive worker count and distinct seeds, and deals the sorted games in turn |
| `Reconcile.RoundRobinByOffset` | src/automata/scripts/reconcile_self_play.py:237-244 | for a contiguous seed range, dealing by sorted position gives each worker exactly the seeds whose offset is congruent to its number |
| `Reconcile.DealtAt` | src/automata/training/generation.py:249-257 | worker w plays the games at positions w, w + workers and so on of all games by seed |
| `Reconcile.ExpectedAt` | src/automata/scripts/reconcile_self_play.py:238-244 | and is expected to hold the seeds at exactly those offsets |
| `Reconcile.ExpectedSeedAt` | src/automata/scripts/reconcile_self_play.py:238-244 | a seed stands at the place given by its offset's quotient in the file given by its remainder |
| `Reconcile.ExpectedLength` | src/automata/scripts/reconcile_self_play.py:238-244 | how many seeds each worker is expected to hold |
| `Reconcile.SeedsAppearOnce` | src/automata/scripts/reconcile_self_play.py:258-285 | complete receipt files hold every seed once, in the file its offset assigns |
| `Reconcile.CoveringHasSeed` | src/automata/scripts/reconcile_self_play.py:229-285 | complete receipt files hold every expected seed |
| `Reconcile.CheckGeneration` | src/automata/scripts/reconcile_self_play.py:258-278 | accepted exactly when no game repeats and all receipts name one generation |
| `Reconcile.GenerationMeans` | src/automata/scripts/reconcile_self_play.py:258-278 | one generation means as many games as receipts, and one config |
| `Reconcile.IndexBySeed` | src/automata/scripts/reconcile_self_play.py:258-285 | the table by seed returns every receipt |
| `Reconcile.LoadReceipts` | src/automata/scripts/reconcile_self_play.py:229-285 | succeeds exactly when the files are complete and of one generation, and lists the receipts by ascending seed |
| `Reconcile.CheckFragment` | src/automata/scripts/reconcile_self_play.py:521-620 | accepted exactly when the fragment's rows, indexes, winner, digest and count agree with the receipt |
| `Reconcile.Aggregate` | src/automata/scripts/reconcile_self_play.py:513-637 | succeeds exactly when every fragment matches its receipt; the aggregate is their concatenation, as long as the receipts say |
| `Reconcile.ReconcileSelfPlay` | src/automata/scripts/reconcile_self_play.py:464-637 | reconciliation succeeds exactly on reconcilable output; the aggregate's rows come by seed and index and every receipted decision is there |
| `Reconcile.AggregateAdds` | src/automata/scripts/reconcile_self_play.py:513-637 | the aggregate is put together receipt by receipt, and so is its row count |
| `Reconcile.AggregateMeans` | src/automata/scripts/reconcile_self_play.py:464-637 | the aggregate holds for every seed of the range its receipted rows, by seed and index, with the receipt's game and winner, all of one generation |
| `SelfPlayPipeline.FileIsValid` | src/automata/scripts/reconcile_self_play.py:175-257 | the per-file checks accept a worker's receipt file if and only if it is whole, every game is receipted and no run overtook a censored game |
| `SelfPlayPipeline.FragmentIsAccepted` | src/automata/scripts/reconcile_self_play.py:521-620 | a sound worker's fragment passes every check against its receipt |
| `SelfPlayPipeline.AcceptedIsReconcilable` | src/automata/scripts/reconcile_self_play.py:464-637 | files and fragments that pass the per-worker checks pass the global ones |
| `SelfPlayPipeline.WorkersReconcile` | src/automata/scripts/reconcile_self_play.py:464-637 | whatever crashes occurred, a contiguous seed range is reconciled if and only if every worker receipted all its games, left no torn row and never completed a game in a run that had censored an earlier one |
| `SelfPlayPipeline.CensoredThenCompleted` | src/automata/scripts/reconcile_self_play.py:237-248 | two games, the first censored in one run and completed in the next: both runs finish, every game has its receipt, and the reconciler rejects |
| `SelfPlayPipeline.DecisionsAreUnique` | src/automata/scripts/reconcile_self_play.py:600-607 | no decision repeats in an accepted aggregate, so the table of seen decisions never rejects |
| `IndexBuild.RunsPartition` | src/automata/training/indexed_dataset.py:1417-1437 | the runs of one game partition the source and joined together give it back |
| `IndexBuild.DistinctIffContiguous` | src/automata/training/indexed_dataset.py:1418-1427 | two runs name one game exactly when some game's rows do not stand together |
| `IndexBuild.Flush` | src/automata/training/indexed_dataset.py:707-720 | the buffered rows become the next chunk and only its file is written |
| `IndexBuild.Tensorize` | src/automata/training/indexed_dataset.py:681-735 | a fragment is accepted exactly when content, count and game match, and its chunks are the full slices and one shorter last slice |
| `IndexScan.Scan` | src/automata/training/indexed_dataset.py:1386-1462 | the scan succeeds exactly when the source has rows and no game reappears, and yields one fragment a game with contiguous offsets |
| `IndexRanges.ValidateStaging` | src/automata/training/indexed_dataset.py:189-224 | the loop accepts exactly the checkpoints whose games, chunk paths, offsets and counts are in place |
| `IndexRanges.StagingMeans` | src/automata/training/indexed_dataset.py:189-224 | a checkpoint is valid exactly when its games join and each stands in its place, without chunks or with exactly those its row count determines |
| `IndexRanges.ValidateManifest` | src/automata/training/indexed_dataset.py:126-160 | the loop accepts exactly the manifests with unique names, contiguous ranges and covering chunks |
| `IndexRanges.ManifestMeans` | src/automata/training/indexed_dataset.py:126-160 | a manifest is valid exactly when its games join, fragments and chunk paths differ, and every game is covered |
| `IndexRanges.CheckPaths` | src/automata/training/indexed_dataset.py:143-149 | chunk paths are accepted exactly when all are different |
| `IndexRanges.JoinedMeans` | src/automata/training/indexed_dataset.py:126-142 | the shared checks hold exactly when there are games of at least one row with different names, from offset 0 without a gap up to the row count |
| `IndexRanges.CoveringMeans` | src/automata/training/indexed_dataset.py:144-159 | a published game is covered exactly by full chunks and a last one with the rest, without a gap |
| `IndexRanges.StagedMeans` | src/automata/training/indexed_dataset.py:203-224 | a staged game is finished exactly when chunk j stands in its place, after j full chunks, with as many rows as are left |
| `IndexRanges.EveryRowHasOneChunk` | src/automata/training/indexed_dataset.py:126-160 | a manifest that passes the validator, whoever wrote it, gives every row exactly one chunk |
| `IndexRanges.CheckpointIsValid` | src/automata/training/indexed_dataset.py:189-224 | every checkpoint the build can write, whichever games are finished, passes the staging validator |
| `IndexRanges.ManifestIsValid` | src/automata/training/indexed_dataset.py:126-160 | the manifest of any indexable source passes the published validator |
| `IndexRanges.ChunkCount` | src/automata/training/indexed_dataset.py:205-211 | a finished game has its row count divided by the chunk size, rounded up, many chunks |
| `IndexRanges.ChunkHoldsItsRows` | src/automata/training/indexed_dataset.py:707-727 | every chunk holds exactly the source rows that its offset and count name |
| `IndexRanges.EveryRowIsChunked` | src/automata/training/indexed_dataset.py:681-735 | every source row, offsets 0 to N-1, lies in some chunk |
| `IndexBuilder.IndexIsDetermined` | src/automata/training/indexed_dataset.py:1551-1572 | two complete indexes of one source and chunk size are the same, file for file |
| `IndexBuilder.LeftoversAreReusable` | src/automata/training/indexed_dataset.py:1207-1246 | whatever an earlier build left for this source passes the loading checks |
| `IndexBuilder.ReusableMeans` | src/automata/training/indexed_dataset.py:1207-1246 | a staging directory is reused exactly when it is of this source and chunk size, its checkpoint is valid, and every fragment and recorded chunk is stored unchanged |
| `IndexBuilder.FinishedStep` | src/automata/training/indexed_dataset.py:1519-1536 | a worker's chunks turn the catalog of the finished games into that of one more |
| `IndexBuilder.LeftoversKeepStaged` | src/automata/training/indexed_dataset.py:1470-1474 | files of unfinished games do not disturb the finished ones |
| `IndexBuilder.Builder.constructor` | src/automata/training/indexed_dataset.py:1349-1377 | a builder starts without staging directory and published index |
| `IndexBuilder.Builder.Prepare` | src/automata/training/indexed_dataset.py:1376-1465 | a compatible staging directory is reused as it is; otherwise it is discarded and the source scanned |
| `IndexBuilder.Builder.Clear` | src/automata/training/indexed_dataset.py:1470-1474 | exactly the unfinished games' files are removed |
| `IndexBuilder.Builder.RecordSuccess` | src/automata/training/indexed_dataset.py:1519-1536 | the checkpoint gains the game; revalidation never rejects |
| `IndexBuilder.Builder.RecordFailure` | src/automata/training/indexed_dataset.py:1513-1518 | a worker's failure changes no finished game |
| `IndexBuilder.EventsPartition` | src/automata/training/indexed_dataset.py:1508-1543 | in any order of completions, failures and deaths each missing game is still open or had exactly one worker |
| `IndexBuilder.EventsMean` | src/automata/training/indexed_dataset.py:1508-1543 | a game is recorded exactly when the first event about it, looked at while the process lives, reports success |
| `IndexBuilder.PublishMeans` | src/automata/training/indexed_dataset.py:1257-1278 | which end of a publication leaves the index in place, which leaves it staged whole, and which loses it |
| `IndexBuilder.UnfinishedMeans` | src/automata/training/indexed_dataset.py:1467-1546 | an attempt that does not come to publishing fails and keeps what was recorded |
| `IndexBuilder.AllRecordedIff` | src/automata/training/indexed_dataset.py:1537-1546 | every missing game is recorded exactly when no future is open and no worker failed |
| `IndexBuilder.ReachingTensorizesTheRest` | src/automata/training/indexed_dataset.py:1467-1546 | an attempt that comes to publishing has tensorized exactly the games not recorded before, each once |
| `IndexBuilder.CleanAttemptSucceeds` | src/automata/training/indexed_dataset.py:1308-1579 | one clean attempt among any others publishes the index, whatever was left behind |
| `IndexBuilder.PublishedStays` | src/automata/training/indexed_dataset.py:1281-1305 | once the index is published further builds return it and run no worker |
| `IndexBuilder.DyingAfterStillPublishes` | src/automata/training/indexed_dataset.py:1265-1278 | a build that dies, or cannot remove the backup, after the new index is in place fails, but the next one returns that index without work |
| `IndexBuilder.RepeatsIff` | src/automata/training/indexed_dataset.py:1257-1579 | over any attempts a recorded game is tensorized again if and only if an attempt came to publishing, lost the staged index, and a worker ran in a later attempt |
| `IndexBuilder.LossRepeatsAll` | src/automata/training/indexed_dataset.py:1267-1275 | after such a loss the next attempt that comes to publishing has tensorized every game again |
| `IndexBuilder.RolledBackBuildRepeats` | src/automata/training/indexed_dataset.py:1267-1275 | a concrete loss: two games, a rolled back publication and a clean attempt tensorize both games twice |
| `IndexBuilder.Builder.Drain` | src/automata/training/indexed_dataset.py:1508-1543 | the loop runs, records and fails exactly the workers that the completion events determine |
| `IndexBuilder.Builder.TensorizeMissing` | src/automata/training/indexed_dataset.py:1468-1546 | exactly the unrecorded games are worked on, and the staged catalog is complete exactly when all of them are recorded |
| `IndexBuilder.Builder.Publish` | src/automata/training/indexed_dataset.py:1257-1278 | at every crash point of the two renames, the undoing and the backup removal: which index is published and what is left staged |
| `IndexBuilder.Builder.Build` | src/automata/training/indexed_dataset.py:1308-1579 | success always publishes the manifest determined by source and chunk size; what is left, which workers ran and whether it succeeds follow from what was left before; a failure leaves the old index, none, or the new one |
| `IndexBuilder.Builder.BuildRepeatedly` | src/automata/training/indexed_dataset.py:1308-1579 | over any attempts with one clean attempt the determined manifest comes out, and recorded games are tensorized again exactly in the condition of RepeatsIff |
| `NativeStream.GroupedSnoc` | src/automata/training/native_dataset.py:514-527 | boundary groups stay consecutive, unsplit and gapless exactly when the next index may follow |
| `NativeStream.CoherentSnoc` | src/automata/training/native_dataset.py:519-531 | within the open group signature and viewers decide coherence; a new group is free |
| `NativeStream.ConsistentSnoc` | src/automata/training/native_dataset.py:480-534 | one row keeps the whole stream consistent exactly when it fits what is remembered |
| `NativeStream.StreamMeans` | src/automata/training/native_dataset.py:466-544 | a stream is valid exactly when it has rows and each goes on from its neighbours: same game, next sample, policy rows numbered from 0, value rows of one winner in consecutive boundaries, within a boundary one signature and no viewer twice |
| `NativeStream.OneGameValidator.constructor` | src/automata/training/native_dataset.py:469-478 | the validator starts with an empty stream |
| `NativeStream.OneGameValidator.Accept` | src/automata/training/native_dataset.py:480-534 | a row is accepted exactly when the stream stays consistent |
| `NativeStream.OneGameValidator.Check` | src/automata/training/native_dataset.py:480-501 | the field comparisons decide exactly whether a row fits |
| `NativeStream.OneGameValidator.CheckValue` | src/automata/training/native_dataset.py:503-534 | the boundary, viewer and winner comparisons decide exactly whether a value row fits |
| `NativeStream.OneGameValidator.OpenBoundary` | src/automata/training/native_dataset.py:536-540 | a new boundary forgets the viewers of the last one |
| `NativeStream.OneGameValidator.Finish` | src/automata/training/native_dataset.py:542-544 | at the end only an empty stream is left to reject |
| `NativeStream.ValidateStream` | src/automata/training/native_dataset.py:466-544 | the one-pass validator decides the declarative whole-stream predicate |
| `Lines.SplitJoins` | src/automata/training/dataset.py:495-533 | splitting loses nothing and leaves no newline in a line |
| `Lines.EncodedMeans` | src/automata/training/dataset.py:277-280 | what is written is each row and a line feed, byte 10, after it |
| `Lines.LinesMean` | src/automata/training/dataset.py:512-529 | there are as many lines as line feeds, and none inside a line |
| `Lines.SplitIsUnique` | src/automata/training/dataset.py:495-533 | there is only one way to split a byte string into terminated rows and an unfinished rest |
| `Lines.SplitConcat` | src/automata/training/native_dataset.py:444-459 | splitting may stop anywhere and go on from what was left |
| `Lines.ReadWritten` | src/automata/training/dataset.py:248-289 | reading undoes writing a newline after every row |
| `Lines.Drain` | src/automata/training/dataset.py:512-515 | draining yields exactly the buffered complete lines |
| `Lines.ReadDataset` | src/automata/training/dataset.py:498-524 | the lines are those of the whole string however it was cut; rejected exactly when the last byte is no newline |
| `Lines.ReadNative` | src/automata/training/native_dataset.py:441-461 | the same, splitting each chunk at once |
| `Lines.ReadFragment` | src/automata/scripts/reconcile_self_play.py:288-334 | the same, starting from the frame header's bytes |
| `Lines.ReadLines` | src/automata/training/dataset.py:525-531 | reading line by line yields the same lines and rejections |
| `Lines.RepairKeepsRows` | src/automata/training/generation.py:968-971 | the repaired receipt file holds exactly the complete rows |
| `Lines.TornAppend` | src/automata/training/generation.py:966-971 | whatever part of an appended row reached the file, the repair restores the rows before it; a whole row stays |
| `Provenance.BigEndianValue` | src/automata/evaluation/provenance.py:101-111 | a length that fits its field is read back |
| `Provenance.BigEndianAt` | src/automata/evaluation/provenance.py:101-111 | the most significant byte of a length comes first |
| `Provenance.FrameLayout` | src/automata/evaluation/provenance.py:101-105 | a frame is four bytes of tag length, the tag, eight bytes of payload length and the payload; it fits below 2^32 and 2^64 |
| `Provenance.IdentityMeans` | src/automata/evaluation/provenance.py:189-213 | the frames are format, head and diff, then path, kind and content of every file, under their tags |
| `Provenance.ParseOne` | src/automata/evaluation/provenance.py:101-105 | one frame followed by anything parses to the frame and the rest |
| `Provenance.ParseStream` | src/automata/evaluation/provenance.py:101-111 | the parser undoes any list of frames |
| `Provenance.IdentityIsInjective` | src/automata/evaluation/provenance.py:189-213 | equal streams come from equal heads, diffs and lists of path, kind and content |
| `Provenance.Digest.constructor` | src/automata/evaluation/provenance.py:189-189 | a digest starts with nothing fed |
| `Provenance.Digest.Update` | src/automata/evaluation/provenance.py:101-105 | the digest is fed the bytes given |
| `Provenance.Digest.AddFrame` | src/automata/evaluation/provenance.py:101-105 | a frame is fed exactly when its lengths fit |
| `Provenance.Digest.StartFrame` | src/automata/evaluation/provenance.py:108-111 | the header alone is fed |
| `Provenance.Digest.HashFile` | src/automata/evaluation/provenance.py:159-168 | however the reads are cut, success exactly when the file has the reported size, and then the same bytes as one whole frame |
| `Provenance.CoversByComponents` | src/automata/evaluation/provenance.py:48-49 | an exclusion covers a path exactly when its components begin the path's |
| `Provenance.ExcludedByComponents` | src/automata/evaluation/provenance.py:48-49 | a path is excluded exactly when some exclusion's components begin its own |
| `Provenance.ComponentsMean` | src/automata/evaluation/provenance.py:48-49 | components are the pieces between slashes, byte 47 |
| `Provenance.RetainedOne` | src/automata/evaluation/provenance.py:203-210 | a file is kept unless an exclusion covers it |
| `Provenance.RetainedMeans` | src/automata/evaluation/provenance.py:203-210 | files are kept in the order they are listed |
| `Provenance.SafePathIsRelative` | src/automata/evaluation/provenance.py:52-59 | a path of named components is neither empty nor absolute, so those checks add nothing |
| `Provenance.SafePathMeans` | src/automata/evaluation/provenance.py:52-59 | a safe path has no zero byte and no component that is empty or one or two dots |
| `Provenance.AcceptableMeans` | src/automata/evaluation/provenance.py:138-168 | a file is acceptable exactly with a safe path and, unless an exclusion covers it, an unchanged size and lengths that fit |
| `Provenance.AddEntry` | src/automata/evaluation/provenance.py:138-168 | a retained file feeds its path, kind and content frames, rejected exactly if unstable or too long |
| `Provenance.SourceTreeIdentity` | src/automata/evaluation/provenance.py:189-213 | the digest is fed the frames of head, diff and the retained files; it succeeds exactly when every path is safe and every file that is not excluded is stable and short enough |
| `ArenaStats.GroupRows` | src/automata/evaluation/arena_stats.py:114-131 | rows are grouped exactly when all ended and no seed repeats a side |
| `ArenaStats.SortedKeeps` | src/automata/evaluation/arena_stats.py:138-145 | sorting distinct seeds keeps them and makes them ascend |
| `ArenaStats.PairSeedScores` | src/automata/evaluation/arena_stats.py:107-145 | success exactly when every seed has one ended game from each side; the pairs ascend by seed and hold the scores |
| `ArenaStats.LargerSeedsComeAfter` | src/automata/evaluation/arena_stats.py:138-145 | games of larger seeds leave the pairs before them unchanged |
| `ArenaStats.PairingIsUnique` | src/automata/evaluation/arena_stats.py:107-145 | the pairs do not depend on the order of the observations |
| `Sequential.PairMeans` | src/automata/evaluation/arena_stats.py:101-145 | a pair holds for either side the worth of that side's game: 1 for a win of the candidate, a half for a draw, 0 for a loss |
| `Sequential.PairedMeans` | src/automata/evaluation/arena_stats.py:107-145 | what is paired: games played to their end, no two of one seed from one side, and of every seed one from each side |
| `Sequential.ScoresAddUp` | src/automata/evaluation/arena_stats.py:148-166 | a pair scores the mean of its games, and pairs together what they score apart |
| `Sequential.DecidePairs` | src/automata/evaluation/arena_stats.py:194-226 | the earliest decisive look decides; without one the last due look is reported and the test is over exactly at the maximum |
| `Sequential.OutcomeIsDetermined` | src/automata/evaluation/arena_stats.py:178-226 | that specification has one outcome |
| `Sequential.EvaluateSequential` | src/automata/evaluation/arena_stats.py:178-226 | unpaired games and more pairs than planned are rejected, anything else is tested |
| `Sequential.DecisionStands` | src/automata/evaluation/arena_stats.py:178-226 | a decision stands when pairs of larger seeds are added up to the maximum |
| `Sequential.DecisionStandsForRows` | src/automata/evaluation/arena_stats.py:178-226 | the same for observed games |
| `Sequential.OrderDoesNotMatter` | src/automata/evaluation/arena_stats.py:178-226 | the outcome is invariant under permutation of the observations |
| `Sequential.IntervalHoldsMean` | src/automata/evaluation/arena_stats.py:148-166 | with a non-negative radius the interval holds the mean and lies in [0, 1] |
| `Sequential.DecisionMeans` | src/automata/evaluation/arena_stats.py:194-226 | promotion means that at the earliest decisive look the mean less the radius is above the required score, rejection that with the radius added it is below, and inconclusive that all planned pairs are in and no look was decisive |
| `Sequential.DecidedReport` | src/automata/evaluation/arena_stats.py:206-214 | a decisive look is reported with the mean of its pairs and the radius on either side, cut to the unit interval |
| `Sequential.UndecidedReport` | src/automata/evaluation/arena_stats.py:215-226 | without one the last due look is reported, and none before the first is due |
| `Sequential.SweepMean` | src/automata/evaluation/arena_stats.py:148-166 | a candidate that wins every game has mean 1 at every look, one that draws them all a half, one that loses them all 0 |
| `Sequential.SweepDecides` | src/automata/evaluation/arena_stats.py:194-205 | with a radius small enough the first is promoted and the last rejected at the first look |
| `ArenaStage.CompletedPrefixCount` | src/automata/evaluation/arena.py:285-301 | returns n exactly when the cached rows are n full pairs plus at most one partial pair |
| `ArenaStage.SeedPrefixIsUnique` | src/automata/evaluation/arena.py:285-301 | there is at most one such n |
| `ArenaStage.Compacted` | src/automata/evaluation/protocol.py:653-665 | compaction to the first cases keeps the played prefix up to there, whatever stale rows the file held |
| `ArenaStage.PlayedIsSeedPrefix` | src/automata/evaluation/arena.py:285-301 | what a stage leaves behind is always a seed prefix |
| `ArenaStage.PairsOfPairs` | src/automata/evaluation/arena_stats.py:107-145 | the uncensored cases of the first seeds are paired as scheduled |
| `ArenaStage.Stage.ResultIsDetermined` | src/automata/evaluation/arena.py:322-381 | a stage has one uninterrupted result |
| `ArenaStage.Stage.ContinuesAt` | src/automata/evaluation/arena.py:367-369 | a look goes on exactly when the stage does not stop there |
| `ArenaStage.ResultMeans` | src/automata/evaluation/arena.py:322-381 | the result covers the cases of the earliest look at which a game was broken off, the test was decisive, or no look is left; it is no evidence, a decision or inconclusive accordingly |
| `ArenaStage.StageRunner.constructor` | src/automata/evaluation/arena.py:349-351 | a stage may start from a file with rows of other experiments |
| `ArenaStage.StageRunner.RunProtocol` | src/automata/evaluation/protocol.py:651-711 | the missing cases of a prefix are played in order and the rows returned in schedule order, or the process dies between two rows with as many played as it could |
| `ArenaStage.StageRunner.RunLook` | src/automata/evaluation/arena.py:352-369 | one look ends with the stage's result, goes on, or is killed, the last exactly when its missing cases exceed the budget |
| `ArenaStage.StageRunner.Run` | src/automata/evaluation/arena.py:322-381 | a stage resumed from any own leftovers is never rejected and returns the uninterrupted result exactly when the budget covers the cases missing up to its stopping boundary, and the one case a restart may drop |
| `ArenaStage.StageRunner.RunRepeatedly` | src/automata/evaluation/arena.py:322-381 | killed any number of times, the stage returns the uninterrupted result once one run is long enough or restarts that each play two cases are many enough; restarts that play one case each at a look's boundary never get further |
| `StableBoundaries.ReachedIffFollows` | src/automata/runtime/value_boundary.py:124-166 | from a boundary exactly those boundaries are reached that may follow it |
| `StableBoundaries.UnchangedIsNotReached` | src/automata/runtime/value_boundary.py:124-166 | an unchanged state is never reported, whatever the anchor state |
| `StableBoundaries.FollowsDiffers` | src/automata/runtime/value_boundary.py:140-156 | consecutive boundaries differ |
| `StableBoundaries.PlanningAscends` | src/automata/runtime/value_boundary.py:140-156 | when the clock never goes back a planning boundary is later than every boundary before it |
| `StableBoundaries.ActorReadyMeans` | src/automata/runtime/value_boundary.py:86-112 | an actor is ready exactly when the top step is its own untouched respawn or card resolution |
| `StableBoundaries.PlanningReadyMeans` | src/automata/runtime/value_boundary.py:114-122 | planning is ready exactly when nothing is left to run and no planned hero has committed a card or still holds one |
| `StableBoundaries.ReachedMeans` | src/automata/runtime/value_boundary.py:124-166 | from any anchor a boundary is reached exactly when the clock went on, an actor is ready whom the anchor was not resolving, or planning opens after a resolution nobody owned |
| `StableBoundaries.ObservedMeans` | src/automata/harness/value_boundaries.py:56-64 | what one observed state adds to the log, in those terms |
| `StableBoundaries.OwnersAreRecorded` | src/automata/harness/value_boundaries.py:53-54 | every decision owner of the game is recorded, in order, and only they are |
| `StableBoundaries.ReportsMeans` | src/automata/harness/value_boundaries.py:56-64 | each detected boundary, and each reported one, stands in the order of the log |
| `StableBoundaries.OnlyDetectedIsReported` | src/automata/harness/value_boundaries.py:56-64 | only detected boundaries with viewers are reported |
| `StableBoundaries.StableBoundaryTracker.constructor` | src/automata/harness/value_boundaries.py:48-51 | the tracker starts from the given state with no viewer |
| `StableBoundaries.StableBoundaryTracker.RecordViewer` | src/automata/harness/value_boundaries.py:53-54 | a viewer is remembered until the next boundary |
| `StableBoundaries.ObservedIffFollows` | src/automata/harness/value_boundaries.py:56-64 | once a boundary was found, a state is logged exactly when it shows a boundary that may follow the last one |
| `StableBoundaries.WholeGame` | src/automata/harness/value_boundaries.py:45-69 | over a whole game consecutive boundaries differ, every viewer is handed over at the first boundary after it was recorded, and with a forward clock planning boundaries have strictly increasing (round, turn) |
| `StableBoundaries.StableBoundaryTracker.Observe` | src/automata/harness/value_boundaries.py:56-64 | a boundary beyond the anchor is logged with exactly the viewers recorded since the last one, and reported if there are any |
| `StableBoundaries.TrackGame` | src/automata/harness/value_boundaries.py:45-69 | the tracker has seen exactly the owners and states of the game, and its observer was told of the boundaries that had viewers |
| `Loadout.Hero.ApplyHypothesis` | src/automata/runtime/determinize.py:120-179 | the in-place loop leaves exactly the closed form: special cards, then each ordinary card where its fate puts it |
| `Loadout.Hero.Place` | src/automata/runtime/determinize.py:158-179 | placing one card changes its attributes and its zone and nothing else |
| `Loadout.EachCardInOneZone` | src/automata/runtime/determinize.py:158-179 | every ordinary card lies once in exactly the zone its state names and in neither turn slot |
| `Loadout.SpecialsAreKept` | src/automata/runtime/determinize.py:146-156 | special cards keep attributes, order and played positions, and no position is added or removed |
| `Loadout.LowerTiersRetire` | src/automata/runtime/determinize.py:176-179 | a card neither active nor an item is retired exactly when its color's active card has a higher tier |
| `Loadout.HandsDoNotInterfere` | src/automata/runtime/determinize.py:120-179 | heroes that differ only in their ordinary hands and card states end identical |
| `Loadout.OrdinaryMeans` | src/automata/runtime/determinize.py:122-124 | ordinary are the deck's cards of one of the base colors and numbered tiers |
| `Loadout.CardsAreDealt` | src/automata/runtime/determinize.py:158-175 | an item is an item; an active card is resolved if it was played, else discarded if it was, else once in the hand |
| `Loadout.CardsAreOutgrown` | src/automata/runtime/determinize.py:176-179 | a card that is neither is retired exactly when its color's active card has a higher tier, and in the deck otherwise |
| `Loadout.DealtInDeckOrder` | src/automata/runtime/determinize.py:158-179 | ordinary cards enter hand and discard in deck order |
| `SearchStats.MomentsGiveVariance` | src/automata/search/node.py:53-57 | the raw-moment formula is the population variance, so it is never negative |
| `SearchStats.WelfordStep` | src/automata/search/statistics.py:14-18 | one step of the recurrence keeps count times mean the sum and the second moment the scatter |
| `SearchStats.WelfordIsExact` | src/automata/search/statistics.py:14-22 | folding any stream gives its exact mean and population variance |
| `SearchStats.Node.constructor` | src/automata/search/node.py:41-47 | a node starts without visits |
| `SearchStats.Node.Update` | src/automata/search/node.py:59-62 | one reward updates the three totals |
| `SearchStats.Node.ReportsMoments` | src/automata/search/node.py:49-57 | the node reports the mean and the population variance, and its clamp never acts |
| `SearchStats.Record` | src/automata/search/statistics.py:9-22 | a node and a running statistic fed the same rewards agree |
| `SearchStats.RewardVarianceIsBounded` | src/automata/search/node.py:44-57 | for rewards in [0, 1] the variance is at most q(1 - q), hence at most a quarter |
| `SearchStats.NoSpread` | src/automata/search/statistics.py:14-22 | rewards have no variance exactly when all equal their mean |
| `SearchStats.ScatterAddsUp` | src/automata/search/statistics.py:14-22 | squared distances add up, from single rewards |
| `Continuation.Sample` | src/automata/search/continuation.py:107-119 | the entry chosen is the one whose interval of the cumulative weights holds the draw; the fallback never acts |
| `Continuation.SelectionIsUnique` | src/automata/search/continuation.py:114-118 | no draw selects two entries |
| `Continuation.EveryWeightIsReachable` | src/automata/search/continuation.py:110-118 | every positive weight owns an interval of its own length below the total |
| `Continuation.ShareIsChance` | src/automata/search/continuation.py:107-118 | an entry is chosen for an interval of random numbers as long as its share of the positive weights |
| `Continuation.FirstArgmax` | src/automata/search/continuation.py:161-177 | the first index of a greatest score |
| `BoundaryRanking.MeanPairedScore` | src/automata/evaluation/search_boundaries.py:299-318 | the mean averages exactly the seeds played from both sides and lies in [0, 1] for scores in [0, 1] |
| `BoundaryRanking.PairScoreMeans` | src/automata/evaluation/search_boundaries.py:303-313 | a seed counts exactly when it was played from both sides, with the mean of the two last scores |
| `BoundaryRanking.SeparatedIsUnique` | src/automata/evaluation/search_boundaries.py:530-538 | at most one boundary can be separated from all others |
| `BoundaryRanking.SeparatedIsFirst` | src/automata/evaluation/search_boundaries.py:530-538 | a separated boundary has the top mean, so looking only there misses none |
| `BoundaryRanking.Choose` | src/automata/evaluation/search_boundaries.py:528-538 | selected exactly when eligible and separated from every other eligible boundary |
| `BoundaryRanking.RankBoundaries` | src/automata/evaluation/search_boundaries.py:462-539 | ranking fails only without pairs; the entries are all boundaries by falling mean, and one is selected exactly when separated |
| `BoundaryRanking.SelectionMeans` | src/automata/evaluation/search_boundaries.py:462-539 | a boundary is selected exactly when it passes the gates and its mean less its radius is above that of every other passing one plus its radius and the margin; cutting bounds to the unit interval makes no difference |
| `BoundaryRanking.InOrderMeans` | src/automata/evaluation/search_boundaries.py:511-514 | entries come by falling mean, equal means in declared order |
| `Driver.ResolveBotOwner` | src/automata/runtime/driver.py:201-218 | the first eligible bot, or nobody while a human must be waited for |
| `Driver.PlanningOwner` | src/automata/runtime/driver.py:465-493 | the first bot that owes planning work |
| `Driver.InspectPlanning` | src/automata/runtime/driver.py:521-584 | the same bot's choice, or its rejection exactly when the engine would reject it |
| `Driver.InputOwner` | src/automata/runtime/driver.py:496-518 | the first bot among the heroes that may answer, deferring to humans on team requests |
| `Driver.InspectInputRequest` | src/automata/runtime/driver.py:587-674 | the owner's answer; for upgrades a human teammate does not hold the bots up |
| `Driver.InspectNextOwner` | src/automata/runtime/driver.py:336-376 | which bot owns the next decision, by phase and pending request |
| `Driver.InspectNextDecision` | src/automata/runtime/driver.py:281-333 | what the next decision is, by phase and pending request |
| `Driver.PlanningDecisionMeans` | src/automata/runtime/driver.py:521-584 | a planning decision is the choice of the first bot that may plan, of a card it holds, a finish of an open window, or a pass with an empty hand |
| `Driver.InputDecisionMeans` | src/automata/runtime/driver.py:587-674 | an input decision is the answer of the first bot that may respond, and one the request admits |
| `Driver.IllegalMeans` | src/automata/runtime/driver.py:521-674 | a rejection names the bot whose choice or answer the engine would not take |
| `Driver.NoDecisionMeans` | src/automata/runtime/driver.py:281-333 | without a decision nobody may plan or respond, a human is awaited, or an upgrade was withheld |
| `Driver.EligibleMeans` | src/automata/runtime/driver.py:141-179 | a request addresses an existing hero, a team by color or name, or the listed players |
| `Driver.HeroesAddUp` | src/automata/runtime/driver.py:141-179 | the heroes of all teams, or of those of a color or name, come team after team |
| `Driver.OwingMeans` | src/automata/runtime/driver.py:496-518 | of the heroes, those whose last entry leaves an upgrade open |
| `Driver.InspectionsAgree` | src/automata/runtime/driver.py:362-364 | the cheap query agrees with the expensive one if and only if the request is not a team-addressed upgrade owed by a human and a bot that answers |
| `Driver.OwnerMissesTeamUpgrade` | src/automata/runtime/driver.py:502-518 | such a request: no owner is reported, yet a decision is made |

## Left out

- Floating point is modelled by exact reals; log, log1p and exp are parameters, and the Hoeffding radius is a parameter of which only its sign is used.
- SHA-256 and the canonical identities built on it are free constructors, so equal digests mean equal content; zstd frames, JSON text and torch payloads are not modelled.
- Locks, fsync, timeouts, subprocesses, signals and progress bars are not part of this model; files are sequences of rows that are replaced atomically or appended to.
- Per-game records inside the metric accumulators and card objects inside a hero are values in a table, so aliasing between them is not modelled.
- The bucketed value-metrics accumulator (src/automata/training/metrics.py:640-668) is left out: it repeats, for fewer dimensions, what is proved for the policy buckets.
- The heap of shard heads is modelled by selecting a least unread head, and shards are checked as a whole before the merge rather than while rows are popped.
- BootstrapMerge.MergeJointBootstrap: missing shard files and the atomic write of the merged file are not modelled.
- Reconcile.BuildWorkerSpecs: does not model the seed registry's ownership check.
- Reconcile.ReconcileSelfPlay: provenance and publication of the aggregate are not modelled; generation and source identities are bundled into one config.
- IndexBuilder.Builder.Build: the source is one fixed value during a build, so the checks for a source that changes meanwhile are not modelled; a published directory whose removal was cut short counts as no index.
- IndexScan.Scan: the record iterator also rejects rows that are not a valid joint dataset (JointDataset.ValidateDataset); only the scan's own check that games stand together is modelled here.
- Lines.ReadDataset: rejection of trailing or truncated compressed frames is not modelled, only of an unfinished last line.
- Lines.ReadNative: rejection of trailing or truncated compressed frames is not modelled, only of an unfinished last line.
- Lines.ReadFragment: the frame header's, checksum's and frame end's rejections are not modelled, only that of an unfinished last line.
- Provenance.SourceTreeIdentity: takes the untracked files in the order in which they are hashed; sorting them and running git are not modelled.
- ArenaStage.StageRunner.Run: models stages with a sequential plan and a deterministic runner whose observations match their cases; kills fall between whole rows.
- The evaluation summary (src/automata/evaluation/protocol.py:762-800) and the benchmark loop of the search boundaries only count or append and are left out.
- Loadout.Hero.ApplyHypothesis: the sampling of hypotheses and the commitment of cards are engine calls and not modelled.
- Node selection and widening (src/automata/search/node.py:64-145) rest on square roots, logarithms and random draws and are left out.
- Continuation.Sample: scoring by the policy and the softmax of logits are not modelled; the weights are given.
- BoundaryRanking.RankBoundaries: the latency percentile and the reliability rate are given with the evidence; mean scores are taken to lie in [0, 1], which BoundaryRanking.MeanPairedScore proves.
- Driver.InspectNextDecision: a policy's answer is a value of the agent, and option payloads are strings.
