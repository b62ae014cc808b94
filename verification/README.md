# EvalForge: a verified model

EvalForge runs an application version over a suite of evaluation cases, scores every answer with a
set of evaluators, and compares two such runs through a regression gate. This project models its
logic in Dafny and proves what its verdicts rest on.

**The worker protocol.** A run is dispatched as one queue task per item plus a completion callback.
Deliveries of a task may repeat, overlap, be retried or be killed. A delivery claims its item by a
guarded update with a 240-second lease, clears stale evidence on a retry, commits trace, results and
status together, and recounts the run's progress.
- `RunTables` holds the tables and each transaction as a function on them. `RunStore.Store` is the
  database object whose methods perform those transactions statement by statement, and
  `UninterruptedDelivery` shows that the task body is a run of the step system.
- `WorkerProtocol` is the step system: one step per committed transaction, plus clock, delivery,
  raise and kill steps. `Enabled` is what the program text allows. `Assumed` adds the facts that the
  protocol rests on but does not enforce:
  - the hard time limit (180 s) stops an execution before its lease (240 s) ends;
  - the broker runs a task id again only after its previous execution has ended;
  - a failure before the claim writes nothing, since the failure handler does not check ownership;
  - ids are never drawn twice;
  - a chord is published whole or not at all.
- `WorkerEvidence` proves what holds with nothing assumed, and exactly which steps can overwrite a
  terminal status. `WorkerSafety` and `WorkerTheorems` prove the safety theorems under the
  assumptions. `OneTaskId` uses that the dispatcher publishes each item under one task id: then
  absorption and exact evidence need neither the time limit nor a promise about failures before the
  claim, only that the broker never runs a task id twice at once and that a chord is published whole
  or not at all (a run is rejected only before it is published, and only published items are
  delivered). `WorkerCounterexamples` breaks just the first promise and loses both. It also shows what
  the time limit guards against, a second producer publishing an item under another id, which the
  program does not have.
  `SequentialRefinement` proves that every interleaving leaves what the sequential executor
  leaves. `WorkerTermination` bounds the work of every item, and `WorkerProgress` how far a run's
  counters may trail its items.

**The regression gate.** `Statistics` has averages, interpolated percentiles and the bootstrap with an
arbitrary generator; `Rounding` the six-digit rounding; `Gates` rule validation and verdicts;
`Comparison` the metric report and what bounds its deltas. `GateSoundness` knows what the columns can
hold (scores and costs in six decimal places, whole milliseconds, a pass value of 0 or 1) and proves the
gate sound for every tolerance, with exact conditions for every other bound.

**Readings that must agree.** `RunReadings` says what a query without an order may return.
`MetricSamples` has the comparison's and the dashboard's collectors and proves that they agree;
`Dashboard` has the tag breakdown and the failure list and proves that they count the same failures;
`PassesAndFailures` proves that no item is passed for the pass rate and failed for the failure list.

**Smaller cores.** `Calibration` (tied ranks, Pearson, Spearman), `Login` (lockout over time),
`Organizations` (ownership), `EvaluatorText` (tokens and F1), `Retrieval` (ranked retrieval),
`EvaluatorEngine` (configuration validation), `LexicalAgreement` (similarity under a configuration),
`CaseSelection`, `Redaction`.

`Options`, `Strings`, `Sequences`, `Sorting` and `CaseOrder` are shared helpers.

## Results about the code worth knowing

- `_clear_stale_data` is documented as deleting rows of a failed attempt. A failed attempt commits
  none, so under the assumptions the deletion never changes anything (`CommitsAreOwned`). If the
  broker hands a retry out twice at once, it deletes a committed trace (`ClearingCanDeleteEvidence`).
- The claim lets a task id back in at any time. If the broker redelivers a task while its first
  execution lives, an errored item becomes completed (`TerminalIsNotAbsorbing`).
- For a case, the dashboard and the comparison read different similarities exactly when the token
  overlap row errored while the semantic similarity row scored, as with a threshold that is no number
  (`AcceptedSimilarityAgreesExactly`). Otherwise both evaluators compute the same score.
- Rounding the deltas to six digits before comparing them costs the gate nothing. Stored values come
  in steps of a millionth or more, so at every tolerance a metric passes when no case is worse than it
  and fails when every case is (`ToleranceDecides`).
- Validation strips an evaluator's name and lookup does not, so an accepted name is found exactly when
  it has no spaces around it (`AcceptedNameFoundExactly`); names of results are distinct all the same
  (`AcceptedRowsDistinct`).

## Model

| member | source | states |
|---|---|---|
| RunStore.Store.constructor | backend/app/models/entities.py:245-300 | a new database is empty |
| RunStore.Store.ClaimRunItem | backend/app/workers/tasks.py:338-374 | the update matches exactly a queued item, or a running one that has the same task, no lease or an expired lease; it then sets the seven columns, the lease for 240 seconds, and nothing else |
| RunStore.Store.ClearStaleData | backend/app/workers/tasks.py:393-403 | exactly the item's trace and results go |
| RunStore.Store.Complete | backend/app/workers/tasks.py:151-195 | item, trace and results are committed together, or nothing is when a uniqueness constraint fails; it fails iff the item has a trace or two rows would share a name |
| RunStore.Store.Fail | backend/app/workers/tasks.py:243-250 | the final failure's columns, the message cut at 1000 characters |
| RunStore.Store.RefreshRunProgress | backend/app/workers/tasks.py:377-390 | the run's row then holds the true numbers of completed and of failed items |
| RunStore.Store.CheckRunCompletion | backend/app/workers/tasks.py:263-327 | finalises iff the run has items and all are terminal |
| RunStore.Store.FinishAttempt | backend/app/workers/tasks.py:139-259 | a claimed attempt ends completed iff the adapter answered and the inserts commit; a passing fault below the second retry changes nothing and schedules a retry; otherwise the item errors; completed or errored, the counters are exact |
| RunStore.Store.RunEvalCase | backend/app/workers/tasks.py:66-259 | a whole undisturbed delivery: what each returned status says about the item it leaves, its attempt number, and exact counters after a completion or a failure |
| UninterruptedDelivery.DeliveryFollowsProtocol | backend/app/workers/tasks.py:93-259 | an undisturbed delivery is a run of protocol steps ending in the tables the task body leaves |
| RunStore.Store.QueueItems | backend/app/services/run_dispatcher.py:104-127 | one queued item per case, in order, under fresh ids |
| RunStore.Store.RejectItems | backend/app/services/run_dispatcher.py:140-143 | the loop over the new items marks exactly those errored |
| RunStore.Store.DispatchRun | backend/app/services/run_dispatcher.py:37-154 | an invalid selection changes nothing; otherwise the run and its items exist, rejected as a whole when publishing raises |
| RunStore.DispatchedAsSelected | backend/app/services/run_dispatcher.py:80-146 | the run is in progress with nothing counted and the k-th new item waits, untried, for the k-th selected case; a rejected run has all its items errored; nothing else changes |
| RunStore.Store.ExecuteCase | backend/app/services/run_executor.py:89-146 | one turn of the executor's loop writes one terminal item, with evidence iff the adapter answers |
| RunStore.Store.ExecuteCases | backend/app/services/run_executor.py:86-146 | the loop leaves every case done and counts answers and failures |
| RunStore.Store.ExecuteRun | backend/app/services/run_executor.py:36-154 | the sequential run: an invalid selection changes nothing, otherwise the tables hold the finished run |
| CaseSelection.SelectionIsExact | backend/app/services/run_executor.py:157-186 | a selection is accepted iff it has no duplicates and only cases of the suite; the run then has exactly those cases, each once |
| Redaction.RedactForgetsExactlyTheSecrets | backend/app/services/run_executor.py:196-208 | two configurations redact alike iff they differ only under sensitive keys |
| Redaction.RedactExactly | backend/app/services/run_executor.py:196-208 | the result holds no secret and differs from its source in secrets only, and a document without secrets stays as it is |
| Redaction.SensitiveExactly | backend/app/services/run_executor.py:25-33 | a key is sensitive iff one of seven words stands in it, letter case aside |
| WorkerEvidence.EvidenceStaysAtomic | backend/app/workers/tasks.py:131-195 | with nothing assumed, every step keeps evidence all-or-nothing |
| WorkerEvidence.EvidenceAtomicThroughout | backend/app/models/entities.py:272-289 | in every state of every run an item has no evidence, or one trace plus rows of distinct names, all from one execution |
| WorkerEvidence.TerminalChangesExactly | backend/app/workers/tasks.py:131-156 | with nothing assumed, a step changes a terminal item's row, trace or results iff it is a completing write, a retry's clearing with evidence present, or a rejection; and exactly when the status changes too |
| WorkerSafety.Step | backend/app/workers/tasks.py:66-327 | every assumed step keeps the invariant and lets the tables only evolve |
| WorkerSafety.Reachable | backend/app/workers/tasks.py:66-327 | the invariant holds in every state of every assumed run |
| WorkerSafety.ClaimExcludes | backend/app/workers/tasks.py:347-362 | a claim matches only when no live execution owns the item |
| WorkerSafety.NothingStale | backend/app/workers/tasks.py:393-403 | clearing an item that is not completed changes nothing |
| WorkerSafety.FailKeepsTables | backend/app/workers/tasks.py:243-250 | the final failure of an unfinished item keeps the tables agreeing and every terminal record |
| WorkerSafety.RefreshKeepsTables | backend/app/workers/tasks.py:377-390 | recounting keeps counters and items agreeing and no record changes |
| WorkerSafety.CountsPartition | backend/app/workers/tasks.py:281-302 | completed and failed items never exceed the items, and equal them iff all are terminal |
| WorkerTheorems.LeaseExcludes | backend/app/workers/tasks.py:338-374 | every working execution holds an unexpired lease, and no two share an item |
| WorkerTheorems.CommitsAreOwned | backend/app/workers/tasks.py:149-251 | completing and failing commits are made by the owner before its lease ends, and clearing stale data changes nothing |
| WorkerTheorems.ClaimIsExact | backend/app/workers/tasks.py:338-374 | with nothing assumed, which items a claiming step takes and the row it leaves, and that it otherwise writes nothing |
| WorkerTheorems.RaiseIsExact | backend/app/workers/tasks.py:216-259 | with nothing assumed, a passing fault below the second retry requeues the same task for the next attempt and writes nothing; any other fails an unfinished item, its message cut at 1000 characters |
| WorkerTheorems.TransientExactly | backend/app/workers/tasks.py:406-417 | an error is retried iff one of six phrases stands somewhere in its message, letter case aside |
| WorkerTheorems.TerminalIsAbsorbing | backend/app/workers/tasks.py:100-116 | a terminal item's row, trace and results are the same in every later state |
| WorkerTheorems.EvidenceIffCompleted | backend/app/workers/tasks.py:131-195 | evidence exists exactly for completed items, one row per evaluator, one writer |
| WorkerTheorems.StepCountsUp | backend/app/workers/tasks.py:281-316 | no step lowers a counter or changes a final run |
| WorkerTheorems.CountsUpThroughout | backend/app/workers/tasks.py:281-327 | counters never decrease over a run and a final run row never changes |
| WorkerTheorems.ProgressIsHonest | backend/app/workers/tasks.py:377-390 | counters never exceed the true counts, sum to at most the case count, and equal the true counts for ever once the run is final |
| WorkerProgress.RecountIsExact | backend/app/workers/tasks.py:377-390 | in every run of the system a recount leaves exactly the numbers of completed and of failed items |
| WorkerProgress.CountersLagOnlyUncounted | backend/app/workers/tasks.py:195-251 | in every reachable state the counters fall short of the true counts by at most the commits since the last recount of the run |
| WorkerTheorems.CallbackIsExact | backend/app/workers/tasks.py:281-327 | the callback finalises iff all items are terminal, as completed iff none failed, and repeating it at any later time changes neither status nor counters |
| WorkerTheorems.CallbackIsIdempotent | backend/app/workers/tasks.py:301-325 | over a run of the system, a callback at any later moment leaves the status and counters the finalising callback left |
| OneTaskId.OwnStep | backend/app/services/run_dispatcher.py:119-132 | with one task id per item, every step keeps the tables and freezes terminal records, whatever the clock, kills and raises do |
| OneTaskId.OneTaskIdSuffices | backend/app/workers/tasks.py:347-362 | over such runs terminal is absorbing, evidence is exact and no two executions work on one item, without the time limit |
| OneTaskId.OrderlyRunsOwnTheirTasks | backend/app/services/run_dispatcher.py:119-134 | a broker that hands every message out once gives such runs |
| WorkerCounterexamples.TerminalIsNotAbsorbing | backend/app/workers/tasks.py:352-359 | one redelivery of the published task while its first execution lives, and nothing else unassumed: two executions work on the item and an errored item becomes completed |
| WorkerCounterexamples.ClearingCanDeleteEvidence | backend/app/workers/tasks.py:131-137 | a retry handed out twice at once, and nothing else unassumed: a completed item loses its trace |
| WorkerCounterexamples.SecondProducerOverwrites | backend/app/workers/celery_app.py:38 | were there a second producer, overrunning the time limit alone would let an errored item become completed |
| SequentialRefinement.FaithfulStep | backend/app/workers/tasks.py:139-250 | every assumed step with determined outcomes keeps terminal items showing the expected outcome |
| SequentialRefinement.FinishedRunsAgree | backend/app/services/run_executor.py:86-151 | two finished runs of one version and configuration over the same cases agree in all outcomes, counters and status |
| SequentialRefinement.RefinesExecuteRun | backend/app/services/run_executor.py:86-151 | every interleaving that finishes a run leaves what the sequential executor leaves for the same cases |
| SequentialRefinement.SequentialFinishes | backend/app/services/run_executor.py:86-154 | the sequential executor finishes with a run over exactly its cases |
| SequentialRefinement.ExecutedAsSelected | backend/app/services/run_executor.py:72-151 | every field the sequential executor writes for the k-th case and for the run, from the adapter's answer to the case's question |
| WorkerTermination.OrderlyStep | backend/app/workers/tasks.py:216-259 | every orderly step lowers its item's measure and raises no other; a delivery uses up one of three |
| WorkerTermination.WorkIsBounded | backend/app/workers/tasks.py:226-234 | at most three deliveries and eighteen steps per item in any orderly run, also when the recount raises after the completing commit |
| WorkerTermination.NeverStuck | backend/app/workers/tasks.py:93-259 | an unfinished published item always has an orderly step, which lowers its measure |
| WorkerTermination.QuietIsTerminal | backend/app/workers/tasks.py:216-259 | an item with no queued and no live task is terminal |
| WorkerTermination.EndsTerminal | backend/app/workers/tasks.py:216-259 | used-up deliveries or steps mean a terminal item |
| WorkerTermination.CallbackFinalises | backend/app/workers/tasks.py:253-327 | once no task of a run is left, its callback finalises it |
| Statistics.SortBelow | backend/app/services/statistics.py:15 | pointwise domination carries over to every order statistic |
| Statistics.SortShift | backend/app/services/statistics.py:15 | adding a constant to a sample adds it to every order statistic |
| Statistics.AverageIsLocation | backend/app/services/statistics.py:8-9 | the mean respects pointwise order, moves with its sample and fixes constants |
| Statistics.PercentileIsLocation | backend/app/services/statistics.py:12-22 | so does every percentile with p in [0, 1] |
| Statistics.PercentilePermutation | backend/app/services/statistics.py:12-22 | a percentile does not depend on the order of the values |
| Statistics.PercentileBelow | backend/app/services/statistics.py:12-22 | a percentile is monotone in pointwise domination |
| Statistics.PercentileMonotone | backend/app/services/statistics.py:12-22 | a percentile is monotone in p over [0, 1] |
| Statistics.PercentileExactly | backend/app/services/statistics.py:12-22 | a percentile interpolates in proportion between the values of the two ranks around p(n - 1), ranks told by counting smaller and not larger values |
| Statistics.AverageExactly | backend/app/services/statistics.py:8-9 | means combine in proportion to their counts, one value is its own mean, and no values have mean 0 |
| Statistics.BootstrapCi | backend/app/services/statistics.py:25-45 | the ends stand at the ranks 2.5 and 97.5 percent up the resampled estimates, told by counting; of 1000 at most 24 lie below, at most 25 above and at least 951 inside; fewer than three samples give (0, 0) |
| Statistics.BootstrapDeltaCi | backend/app/services/statistics.py:48-71 | the same for differences of estimates when both runs are resampled with the same indices; an empty side gives (0, 0) |
| Statistics.CentralThousand | backend/app/services/statistics.py:42-45 | of 1000 estimates how many lie below, above and inside an interval with ends at those ranks, and how many reach its ends |
| Statistics.RankIsUnique | backend/app/services/statistics.py:41-45 | only one value stands at a rank, so those counts determine the interval |
| Statistics.IntervalOrdered | backend/app/services/statistics.py:41-45 | both interval indices are in range and lower never exceeds upper, for every generator |
| Statistics.ConfidenceWithinSample | backend/app/services/statistics.py:36-45 | a single-sample interval of a mean or percentile stays within any bounds on its sample |
| Statistics.DeltaIntervalWithin | backend/app/services/statistics.py:59-71 | a delta interval stays within any bounds on the per-case differences |
| Rounding.RoundMonotone | backend/app/services/comparison.py:203-213 | rounding to six digits is monotone |
| Rounding.RoundNear | backend/app/services/comparison.py:203-213 | it moves a value by at most half a millionth |
| Rounding.RoundTiesToEven | backend/app/services/comparison.py:203-213 | a value half-way between two multiples goes to the even one |
| Rounding.RoundFixesGrid | backend/app/services/comparison.py:203-213 | it fixes exactly the multiples of one millionth |
| Gates.ValidateGateRules | backend/app/services/comparison.py:243-263 | accepts exactly faultless non-empty rule sets, unchanged and in order; otherwise reports the first fault |
| Gates.RevalidationAccepts | backend/app/services/comparison.py:270 | validated rules validate again, to themselves |
| Gates.ApplyGates | backend/app/services/comparison.py:266-306 | fails iff the rules do not validate; otherwise verdict and reasons are those of the validated rules |
| Gates.VerdictIsMaximum | backend/app/services/comparison.py:301-304 | the verdict is exactly the most severe metric verdict |
| Gates.ReasonsAreExact | backend/app/services/comparison.py:292-300 | the reasons are exactly the metrics that did not pass |
| Gates.OrderIndependent | backend/app/services/comparison.py:274-304 | the order of the rules changes neither the verdict nor which reasons appear |
| Gates.TolerancesOnlyForgive | backend/app/services/comparison.py:286-290 | raising tolerances never worsens the verdict |
| Comparison.BuildMetricReport | backend/app/services/comparison.py:181-217 | one entry for each of the four metrics, each the report of its own samples |
| Comparison.BuildEntry | backend/app/services/comparison.py:193-216 | one metric's points, intervals, deltas and counts, rounded |
| Comparison.PointsExactly | backend/app/services/comparison.py:185-216 | points are the rounded 95th percentile for latency and the rounded mean otherwise, with their rounded difference and the sample counts |
| Comparison.IntervalsExactly | backend/app/services/comparison.py:200-213 | each interval is the central interval of its resampled estimates, rounded; without a pair the delta interval is (0, 0) |
| Comparison.PairingKeepsAll | backend/app/services/comparison.py:226-240 | with the same cases on both sides pairing loses no sample and misaligns none |
| Comparison.PairsExactly | backend/app/services/comparison.py:226-240 | the pairs are exactly the shared cases, each once, with both runs' own values |
| Comparison.ReportedDeltasWithin | backend/app/services/comparison.py:192-212 | point and interval of the delta lie between the rounded least and greatest per-case difference, for mean and p95 and every generator |
| Comparison.ReportedIntervalWithin | backend/app/services/comparison.py:226-240 | whatever cases the sides do not share, the reported interval of the delta lies between the rounded least and greatest difference on the shared ones, for every generator |
| Comparison.MildChangesNeverFail | backend/app/services/comparison.py:286-288 | a shared case or more, none worse than a bound that rounds within tolerance: the metric does not fail, whichever cases only one side measured |
| Comparison.UnpairedNeverFails | backend/app/services/comparison.py:198-213 | without a shared case the delta interval is (0, 0) and the metric does not fail |
| Comparison.GateMatchesSignificance | backend/app/services/statistics.py:95-123 | on the same deltas the gate fails iff the regression is significant, and a possible regression warns |
| Comparison.ReportRoundsDeltas | backend/app/services/comparison.py:209-211 | for the same cases the report holds exactly the significance test's deltas, rounded |
| Comparison.RoundingOnlyForgives | backend/app/services/comparison.py:286-288 | with a tolerance on the grid the stored verdict never fails without a significant regression, and misses one by at most half a millionth |
| Comparison.ReportedSidesWithin | backend/app/services/comparison.py:193-216 | each side's point and interval lie between the rounded bounds of that side's own samples, and the counts are theirs |
| Comparison.ComputeVerdict | backend/app/services/comparison.py:88-112 | stored rules are validated first, the defaults judge otherwise, and verdict and reasons are those of the report's deltas |
| Comparison.DefaultRulesSound | backend/app/services/comparison.py:23-28 | the default rules validate and their tolerances lie on the rounding grid |
| Comparison.UnmeasuredPasses | backend/app/services/comparison.py:193-213 | a metric without samples on either side has zero deltas and passes |
| GateSoundness.LeastStepIsLeast | backend/app/models/entities.py:261-262 | the least step is at least the bound, can be stored, and no two stored values differ by less while differing by the bound or more |
| GateSoundness.StepBelow | backend/app/models/entities.py:297 | below every bound there is a greatest step, which no smaller difference of stored values exceeds |
| GateSoundness.ToleranceDecides | backend/app/services/comparison.py:282-290 | for every tolerance and stored samples: no shared case worse than it means no fail, and a pass on the same cases; every shared case worse means a fail |
| GateSoundness.PassIsForcedExactly | backend/app/services/comparison.py:282-290 | "no case worse than m" guarantees a pass on the same cases, and equally no fail on partly shared ones, iff the least step of the metric's column not below m is within tolerance |
| GateSoundness.FailIsForcedExactly | backend/app/services/comparison.py:286-288 | "every shared case at least this much worse" guarantees a fail iff the greatest step not above that bound is beyond tolerance, or no two stored values differ that much |
| GateSoundness.ToleratedRunsPass | backend/app/services/comparison.py:109-112 | when every judged metric is unmeasured or measured on the same cases and no case is worse than tolerated, the whole gate passes without reasons, for every tolerance and generator |
| GateSoundness.ToleratedRunsNeverFail | backend/app/services/comparison.py:69-112 | partial runs, whose metrics were measured on different cases: with no shared case worse than tolerated the whole gate does not fail |
| GateSoundness.OneBadMetricFails | backend/app/services/comparison.py:301-302 | when every shared case of one judged metric is worse than tolerated, by however little, the whole gate fails, whatever the others did |
| MetricSamples.CollectedSamplesAreStorable | backend/app/services/comparison.py:137-178 | the samples collected from rows that fit their columns are samples the gate's guarantees apply to |
| LexicalAgreement.LexicalScoreFits | backend/app/models/entities.py:297 | every lexical score, stored in six decimal places, fits the column assumed for it |
| LexicalAgreement.PassesExactly | backend/app/evaluators/basic.py:81-101 | a lexical evaluator passes iff twice the shared tokens reach the threshold times all tokens; without an expected answer it skips |
| MetricSamples.CollectRunMetricSamples | backend/app/services/comparison.py:137-178 | per metric the map of each item's value; a metric without samples has no entry |
| MetricSamples.AddSimilarity | backend/app/services/comparison.py:165-176 | the last accepted lexical row of an item wins |
| MetricSamples.LastAcceptedWins | backend/app/services/comparison.py:165-176 | by its fields: the last lexical row with a score, neither errored nor skipped, is the sample, and without one there is none |
| MetricSamples.SamplesAreRecorded | backend/app/services/comparison.py:137-178 | the comparison holds for each item its pass value and its recorded latency, cost and similarity, each absent iff not recorded |
| MetricSamples.CollectRunDisplaySamples | backend/app/services/dashboard_aggregation.py:228-262 | the four lists gathered item by item |
| MetricSamples.FirstOverlapShown | backend/app/services/dashboard_aggregation.py:545-553 | the dashboard shows the first overlap row's score, and the first semantic row's only when there is no overlap row |
| PassesAndFailures.PassesExactly | backend/app/services/comparison.py:147-159 | a case passes iff some evaluator passed, none failed and none is marked skipped and errored; the failing rows are those of the failure list |
| PassesAndFailures.PassRateCounts | backend/app/services/dashboard_aggregation.py:239-254 | the pass rate times the items is the number of items that pass |
| PassesAndFailures.FailedNeverPasses | backend/app/services/dashboard_aggregation.py:279-289 | in every reachable state an item the failure list knows has pass value 0 |
| PassesAndFailures.PassRateLeavesFailures | backend/app/services/dashboard_aggregation.py:239-339 | passed items and failed items never add up to more than the items of the run, and the trace cases are among the failed |
| MetricSamples.SampleMapGathers | backend/app/services/comparison.py:220-222 | read in case order, the sorted map values are the values gathered one by one |
| MetricSamples.OrderedByCase | backend/app/models/entities.py:248 | ordering by case is strict because a run holds a case once |
| MetricSamples.SimilarityAgreesExactly | backend/app/services/dashboard_aggregation.py:255-257 | both similarity rules agree in every reading order iff the shown score is accepted and no other is |
| MetricSamples.OneLexicalEvaluatorIsClear | backend/app/services/dashboard_aggregation.py:545-553 | rows of at most one lexical evaluator, with no score where errored or skipped, meet that condition, whatever the scores |
| LexicalAgreement.LexicalRowsClear | backend/app/evaluators/basic.py:55-101 | with the shared lexical score, rows meet that condition iff it is not so that overlap raised while semantic scored |
| LexicalAgreement.AcceptedSimilarityAgreesExactly | backend/app/services/dashboard_aggregation.py:255-257 | under any accepted configuration both readings of a case agree in every order iff the overlap row did not error while the semantic row scored, which is decided by the two thresholds |
| LexicalAgreement.OverlapErrsWhileSemanticScores | backend/app/evaluators/basic.py:94-101 | an overlap threshold that is no number: the dashboard shows nothing and the comparison judges the semantic score |
| LexicalAgreement.AcceptedRunClearExactly | backend/app/services/comparison.py:165-176 | over a run under one accepted configuration, all items agree iff no evaluated item is of that kind |
| MetricSamples.DashboardAgreesWithComparison | backend/app/services/dashboard_aggregation.py:228-262 | pass rate, p95 latency and mean cost agree before rounding whatever order rows are read in, and so does similarity under that condition |
| MetricSamples.ReachableTablesQualify | backend/app/models/entities.py:283-289 | every state the worker protocol reaches meets what the agreement asks of the tables |
| MetricSamples.PassSamplesPaired | backend/app/services/comparison.py:75-86 | runs with equal cases have fully paired pass samples |
| MetricSamples.NoCaseRegressedPasses | backend/app/services/comparison.py:109-112 | from tables to verdict: if no passing case fails now, pass rate passes for any tolerance and generator |
| MetricSamples.EveryCaseRegressedFails | backend/app/services/comparison.py:109-112 | if every case passed and now fails, pass rate fails for any tolerance below 1 |
| RunReadings.ReadingsAgree | backend/app/services/dashboard_aggregation.py:238-239 | two readings of the same tables gather the same values up to order |
| Dashboard.BuildTraceCases | backend/app/services/dashboard_aggregation.py:265-339 | one row per failed item whose case exists, ordered by shown id |
| Dashboard.TraceExactly | backend/app/services/dashboard_aggregation.py:279-339 | an item with a case is listed iff a row failed or its execution did, under the case's first tag and the evaluator of its first failing row, or "execution" |
| Dashboard.RunTagStats | backend/app/services/dashboard_aggregation.py:367-391 | both maps are tallies of the first tags of counted and of failed items |
| Dashboard.TallyCounts | backend/app/services/dashboard_aggregation.py:384-390 | a tally holds exactly the number of occurrences of every tag |
| Dashboard.FailuresWithin | backend/app/services/dashboard_aggregation.py:380-390 | failures never exceed the items counted, per tag |
| Dashboard.BuildTagBreakdown | backend/app/services/dashboard_aggregation.py:342-364 | tags ascend without repetition; counts of both runs add up to the items with a case and failures to the failed ones; pass rates lie in [0, 1] |
| Dashboard.PassRateExactly | backend/app/services/dashboard_aggregation.py:394-397 | a tag's pass rate is the proportion of its items that did not fail, rounded, and 0 without items |
| Dashboard.FailuresAreTraceCases | backend/app/services/dashboard_aggregation.py:279-391 | under every tag the breakdown counts as many failures as there are trace cases of the separate pass with that tag |
| Calibration.Rank | backend/app/services/calibration.py:30-42 | the nested loops give every index count-of-smaller plus half of count-of-equal plus one |
| Calibration.RanksKeepOrder | backend/app/services/calibration.py:30-42 | ranks order indices exactly as values do, so exactly ties share a rank |
| Calibration.RanksSum | backend/app/services/calibration.py:38 | ranks sum to n(n + 1)/2, ties or not |
| Calibration.RanksInvariant | backend/app/services/calibration.py:31 | any strictly increasing transform keeps the ranks |
| Calibration.RanksReversed | backend/app/services/calibration.py:30-42 | any strictly decreasing transform turns rank r into n + 1 - r |
| Calibration.CauchySchwarz | backend/app/services/calibration.py:14-16 | the squared numerator is at most the product of the two sums of squares |
| Calibration.PearsonBounded | backend/app/services/calibration.py:6-19 | the correlation lies between -1 and 1, rounded too |
| Calibration.AffineInvariant | backend/app/services/calibration.py:11 | correlation ignores a positive scale and an offset of its second list |
| Calibration.CorrelationExactly | backend/app/services/calibration.py:10-19 | the correlation times the roots of both sums of squared deviations is the sum of the products of deviations |
| Calibration.MirrorNegates | backend/app/services/calibration.py:11-19 | mirroring the second list negates the correlation |
| Calibration.Spearman | backend/app/services/calibration.py:22-27 | the rounded correlation of the two rank lists, 0 for unequal or short lists |
| Calibration.SpearmanIsRankCorrelation | backend/app/services/calibration.py:22-27 | Spearman is the plain correlation of the ranks although one list passes through the gold-label normaliser |
| Calibration.MonotoneLabelsCorrelate | backend/app/services/calibration.py:22-27 | labels growing strictly with the scores give 1 iff two scores differ, else 0 |
| Calibration.FallingLabelsCorrelate | backend/app/services/calibration.py:22-27 | labels falling strictly as the scores grow give -1 iff two scores differ, else 0 |
| Login.User.constructor | backend/app/models/entities.py:34-37 | an account starts without failures and without a lock |
| Login.User.Login | backend/app/api/auth.py:101-149 | counter, lock and outcome after one request |
| Login.AccountExactly | backend/app/api/auth.py:112-124 | after any run the account follows from the outcomes alone: the counter runs from 1 to 5 over a streak of wrong passwords and starts again, and a lock is on record iff a multiple of five were processed since the last acceptance, for 900 seconds from the last of them |
| Login.OutcomeExactly | backend/app/api/auth.py:108-149 | every outcome of a run on a new account from the outcomes before it |
| Login.FifthWrongLocks | backend/app/api/auth.py:117-124 | up to four wrong passwords never lock and a right one is then accepted at any time; the fifth locks for 900 seconds from its own time |
| Login.AlwaysConsistent | backend/app/api/auth.py:112-124 | the counter stays within 0 and 5 and is 5 exactly while a lock is recorded, over any run |
| Login.FiveGuessesPerWindow | backend/app/api/auth.py:112-124 | any half-open 15-minute window without an accepted password processes at most five wrong ones, whatever came before |
| Login.LockHoldsUntilExpiry | backend/app/api/auth.py:112-116 | a lock refuses even the right password, exactly until it expires |
| Organizations.Directory.constructor | backend/app/models/entities.py:64-80 | the tables hold what they were given |
| Organizations.Directory.AddMember | backend/app/api/organizations.py:113-153 | who may add whom, and the membership written; a refusal writes nothing |
| Organizations.Directory.UpdateMember | backend/app/api/organizations.py:157-173 | who may change which role; a refusal writes nothing |
| Organizations.Directory.RemoveMember | backend/app/api/organizations.py:177-188 | who may remove whom; a refusal writes nothing |
| Organizations.GrantedExactly | backend/app/api/organizations.py:108-222 | a request is granted iff an admin makes it, an owner where owners are concerned, it names somebody it can act on, and it does not take the last owner |
| Organizations.ServedExactly | backend/app/api/organizations.py:113-188 | a granted request writes or removes its target's membership and no other, and adds a user only for a new email; a refused one changes nothing |
| Organizations.OwnerRemains | backend/app/api/organizations.py:211-222 | no request takes an organization's last owner |
| Organizations.OwnedForever | backend/app/api/organizations.py:108-222 | over any serial run of requests an owned organization stays owned |
| Organizations.NoEscalation | backend/app/core/tenancy.py:26-33 | a request changes only its own organization and gives or takes no role above its principal's level |
| Organizations.LastOwnerMayNotLeave | backend/app/api/organizations.py:211-222 | an owner may not leave or step down iff nobody else owns the organization |
| EvaluatorText.FindAllJoined | backend/app/evaluators/text.py:3-11 | joining tokens with spaces and scanning again gives the same tokens |
| EvaluatorText.TokensAreTheRuns | backend/app/evaluators/text.py:3-11 | scanning loses, adds and reorders no token character and makes one token of each maximal run |
| EvaluatorText.NormalizeKeepsTokens | backend/app/evaluators/text.py:6-11 | tokens of the normal form are the tokens of the text |
| EvaluatorText.NormalizeIdempotent | backend/app/evaluators/text.py:6-7 | normalising twice is normalising once |
| EvaluatorText.NormalFormsDecide | backend/app/evaluators/text.py:6-11 | normal forms are equal iff token lists are |
| EvaluatorText.F1IsDice | backend/app/evaluators/text.py:14-28 | F1 is 2·shared/(left + right) over distinct tokens |
| EvaluatorText.F1Symmetric | backend/app/evaluators/text.py:14-28 | F1 is symmetric |
| EvaluatorText.F1Range | backend/app/evaluators/text.py:14-28 | F1 lies in [0, 1] and is 1 iff both sides have the same, at least one, tokens |
| EvaluatorText.EqualNormalFormsScoreOne | backend/app/evaluators/text.py:6-28 | equal normal forms with some token score 1 |
| Retrieval.Retrieve | backend/app/adapters/demo_rag.py:63-84 | the loop, the sort and the slice, negative limits included |
| Retrieval.TopChunks | backend/app/adapters/demo_rag.py:83-84 | the result is the best chunks by score then id, everything returned precedes everything left out, and larger limits extend smaller ones |
| Retrieval.SubjectFirst | backend/app/adapters/demo_rag.py:71-73 | a document whose subject is asked about scores in [1, 2], any other in [0, 1]; otherwise more shared tokens never score less |
| Retrieval.ScoreExactly | backend/app/adapters/demo_rag.py:71-73 | the score is the share of question tokens in the text, plus one when the subject is asked about, rounded; 0 for an empty question |
| Retrieval.CorpusOrderIrrelevant | backend/app/adapters/demo_rag.py:83 | with distinct ids the ranking does not depend on the corpus order |
| Retrieval.NothingFoundExactly | backend/app/adapters/demo_rag.py:101-102 | there is nothing to answer from iff no document scores |
| Retrieval.AnswerExactly | backend/app/adapters/demo_rag.py:92-103 | the answer is that of a best document, or its text, and the fallback iff no document scores; two failure modes ignore what was retrieved |
| Retrieval.AnswerIgnoresLimitAndOrder | backend/app/adapters/demo_rag.py:92-103 | the answer is the same for every positive limit and corpus order |
| EvaluatorEngine.ValidateEvaluatorConfig | backend/app/evaluators/engine.py:72-97 | accepts exactly non-empty lists of distinct, known, available names; otherwise reports the first fault |
| EvaluatorEngine.AcceptedExactly | backend/app/evaluators/engine.py:72-97 | accepted lists are the non-empty ones of registered, available evaluators, none twice, spaces around names aside |
| EvaluatorEngine.StripExactly | backend/app/evaluators/engine.py:82 | stripping removes spaces from both ends, all of them and nothing else |
| EvaluatorEngine.EvaluateCase | backend/app/evaluators/engine.py:100-136 | one row per entry in order, whatever the evaluators do |
| EvaluatorEngine.AcceptedRowsDistinct | backend/app/evaluators/engine.py:78-136 | an accepted configuration yields rows of distinct names |
| EvaluatorEngine.AcceptedConfigsAreValidated | backend/app/evaluators/engine.py:72-136 | accepted configurations meet the worker protocol's hypothesis on evaluators |
| EvaluatorEngine.AcceptedNameFoundExactly | backend/app/evaluators/engine.py:82-121 | an accepted name is found iff it has no spaces around it; otherwise its row errs whatever its evaluator would return |
| EvaluatorEngine.AcceptedNameNotFound | backend/app/evaluators/engine.py:82-111 | a witness: an accepted list whose one evaluator is never found |

## Left out

- WorkerTheorems.LeaseExcludes: holds under the assumptions listed above; the program enforces none of them, and there is one clock for all workers and the database.
- OneTaskId.OneTaskIdSuffices: the broker's promise not to run a task id twice at once is not the program's to keep; without it the result fails, as shown.
- WorkerTermination.WorkIsBounded: assumes that no execution is killed. After a hard kill nothing reaps a stale lease, so liveness does not hold there.
- WorkerTermination.CallbackFinalises: needs a run with items. An empty list of case ids is accepted and dispatches no callback, so such a run stays in progress. It says what the callback does when it runs: a recount that raises inside the failure handler (tasks.py:251) leaves the task raising, and then the chord never invokes its callback.
- SequentialRefinement.RefinesExecuteRun: assumes a loadable adapter, accepted evaluator configurations and one determined outcome per case, and leaves out attempt counts, timestamps and the cutting of error texts.
- Login.FiveGuessesPerWindow: requests of one account are serial, as its row lock makes them; changes to the account outside of login are not modelled.
- Organizations.OwnedForever: requests are serial. Two concurrent requests may both count an owner before either removes one.
- Organizations.Directory.AddMember: names, password hashing and the shape of addresses are left out; creating an organization is not modelled.
- EvaluatorText.NormalizeKeepsTokens: case folding covers ASCII only.
- Statistics.PercentileMonotone: percentiles are asked for p in [0, 1] only, which is all the program uses.
- Statistics.BootstrapCi: at least one resample, as the program always asks for; zero resamples raise.
- Calibration.PearsonBounded: the square root is any function with the defining property on non-negative reals, and sums are exact.
- LexicalAgreement.AcceptedSimilarityAgreesExactly: a threshold is a real number or unreadable, and scores are compared as computed; storing them in six decimal places treats both readings alike.
- MetricSamples.CollectRunMetricSamples: takes the rows the queries return; sessions and queries themselves are not modelled.
- Comparison.ComputeVerdict: the lookups before it, that both runs exist, are finished and share suite, configuration and application, and the stored report after it are left out.
- MetricSamples.CollectedSamplesAreStorable: that stored values fit their columns is a hypothesis, since the tables of the model hold real numbers; the database rounds or refuses values that do not fit.
- GateSoundness.ToleratedRunsPass: a metric measured on different cases may pass or warn when no shared case is worse than tolerated, since its point compares different samples; only a fail is ruled out then.
- Gates.ValidateGateRules: what `float` makes of a stored tolerance is a parameter; numbers that overflow it and directions that cannot be hashed are left out.
- Transactions are atomic steps; isolation levels weaker than that, and snapshots inside one statement, are not modelled.
- Floating point and the Mersenne Twister: arithmetic is exact and draws are arbitrary in-range indices. The point estimate need not lie inside its interval, so nothing is said about that.
- Adapters, evaluators, password checks and the availability of optional packages are arbitrary functions or parameters. A trace keeps one opaque text for the steps and chunks of an answer.
- Ids are numbers: the program compares UUID strings, and only their equality and one fixed order matter.
- The `writer` of a trace or result row is a provenance column of the model alone.
- A raise in the middle of the sequential executor after its counter went up: an accepted configuration does not raise there.
- `confusion_matrix`, `per_tag_analysis`, prompt formatting, cost estimates, pagination and message texts: easy or formatting.
- Routing, schemas, Redis, health checks, telemetry, the frontend and deployment: plumbing.
- Flakiness, the CI gate report, the cost simulator and the adapter cache: easy or query-bound claims.
