# sqlery, modelled and verified

sqlery is a job queue whose correctness lives in SQL tables that many workers share. This project
models its hardest parts in Dafny and proves what they promise, for all inputs, all runs and all
interleavings.

- **The job lifecycle** (`Lifecycle`, `LifecycleRuns`, `LifecycleOutcomes`): live rows, execution attempts, insert-only
  history and the ready / blocked index. Each backend transaction is one step written as its SQL
  statements, with rollback when a row count is wrong; recovery may abandon any attempt at any
  time, and the ready and blocked tables may be rewritten arbitrarily between steps.
- **Claiming** (`ClaimRace`, `ClaimRaceRuns`, `ClaimRaceWitnesses`, `ClaimScan`, `KeysetPaging`, `ReadyIndex`): claimers interleaving
  statement by statement under tag and row locks, the candidate scan, keyset paging over the ready
  table, and the session hook that keeps the index in step.
- **Dependencies and workflows** (`Dependencies`, `Canvas`, `Workflow`): the verdict over retry
  chains, the graph built by `chain` / `group` / `chord`, and runs in which workers, retries and
  sweeps interleave.
- **Migrations** (`HistoryMigration`, `RunningState`): the batched, resumable move of terminal rows
  and its reverse, and the switch to the attempt-derived running state.
- **Partitions of the live table** (`PartitionReclaim`, `PartitionCover`,
  `PartitionNames`): check / lock / re-check /
  drop against concurrent writers, and the interval-covering loop.
- **The cron engine** (`Calendar`, `CronFields`, `CronText`, `CronSearch`, `CronMeaning`): the field parser, the
  nested search over the Gregorian calendar, and the text format.
- **The async worker** (`AsyncWorker`, `AsyncWorkerRuns`, `AsyncWorkerWitnesses`,
  `AsyncWorkerDriver`): run, execute and drain as steps between
  awaits, with the shutdown arriving anywhere.

Tables are maps, sets and sequences; times are integers; tokens, worker slots, clocks and the
answers of other systems are parameters. Backends are modelled after the standalone SQLAlchemy one.

## Where the code does less than it says

Each of these is kept as the code has it, shown by a lemma, and accompanied by the condition under
which the promise does hold.

- **Claims without the gate.** `claim_job_by_id` and the async backend's `aclaim_job` check neither
  dependencies nor tags. A later step of a chain can start before an earlier one
  (`UngatedClaimJumps`, `SecondStepCanStartFirst`), and every tag limit can be exceeded
  (`DirectClaimExceedsLimits`). The order of a chain and the limits of a tag hold in every run whose
  ungated claims name no job concerned (`ChainRunsInOrder`, `ReachableWithinConcurrency`).
- **Jobs that are shutting down** still execute, with their attempt open, but are not counted as
  running: for every concurrency limit one job more can execute (`ShutDownExceedsConcurrency`); the
  excess is at most the number of jobs shutting down (`ReachableWithinConcurrency`).
- **Starts that are not counted.** A start drops out of a rate count once its job is archived, abandoned
  or shut down, and only then (`DroppedOnlyBy`); for every rate each of the three lets in one start more
  (`DroppedStartExceedsRate`), and runs without them keep the rate (`CalmRunsKeepTheRate`).
- **One job too many.** A shutdown between the head of the async worker's loop and its capacity check
  lets in one job beyond `concurrency`, for every concurrency (`LateShutdownLetsInOneMore`); all other
  runs keep it (`TimelyRunsKeepConcurrency`).
- **Completions that never come.** A job body that ends in `CancelledError` by itself never gets a completion
  call (`CancelledBodyIsForgotten`, `SelfCancelledNeverReported`). In the drain such a body, or a fencing
  error at the call for a job whose row could not be read, ends the whole drain, and every other job in
  flight is left without its call too (`CancelledDrainStrandsOthers`, `FencedDrainStrandsOthers`). Which jobs
  have had their call is stated exactly (`CompletedExactlyUnlessLeft`), and all other runs give every job
  its call (`ExactlyOneCompletion`).
- `ensure_live_partitions` promises no gap, but with day-wide partitions around a left-over shorter
  one the generated name is used twice and `CREATE TABLE IF NOT EXISTS` silently skips the second
  (`LeftoverHourLeavesGap`); the exact condition on the existing partitions is
  `NoGapExactlyWhenNamesFresh`.
- An edit of `created_at` is not mirrored in the ready index (`CreationEditGoesUnseen`, `Tables.Flush`).
- An empty group inside a chain drops the link to the steps before it
  (`LinkedExactlyWithoutEmptyGroup`).
- The migration's `LIKE 'retry_pending%'` also holds back rows whose reason is not the marker, since
  `_` matches any character (`LikeVersusMarker`).
- `denormalize_running_sql` gives back a running row unchanged only where the row agreed with its
  attempt (`DenormalizeRestores`).
- The refusal to reclaim inside somebody else's snapshot transaction is needed
  (`NestedSnapshotLosesRow`).

## Model

| member | source | states |
|---|---|---|
| Lifecycle.EveryStepIsGood | src/sqlery/core/attempts.py:3-20 | every transaction keeps: one open attempt per job, an open attempt only on a live row, live and history disjoint; it reopens no attempt, changes no history row, loses and invents no job, and a refused one changes neither live rows, attempts nor history |
| LifecycleOutcomes.ClaimOutcome | src/sqlery/fastapi_sqlery/backend.py:449-504 | a claim is accepted if and only if its entry exists and the job is live, queued, idle and of the version the claimer read; it then appends exactly the attempt with the job, token, worker and time of the claim, open, deletes its entries and leaves the job row alone |
| LifecycleOutcomes.RefusedClaimOutcome | src/sqlery/fastapi_sqlery/backend.py:632-639 | a claim that is turned away changes no job, attempt or history row, and drops its entry exactly when the job is not queued or is running |
| LifecycleOutcomes.CompletionOutcome | src/sqlery/fastapi_sqlery/backend.py:2007-2071 | a completion is accepted if and only if the job is live, its attempt open with that token, and the version as given; success leaves a history row with status success finished now, a failure that owes no retry one with status failed, one that owes a retry marks the live row; the attempt is closed with the outcome; otherwise nothing changes |
| LifecycleOutcomes.CompletionClosesItsAttempt | src/sqlery/fastapi_sqlery/backend.py:507-521 | a completion presenting an attempt of its own job closes that attempt and touches no other |
| LifecycleOutcomes.UnfencedOutcome | src/sqlery/fastapi_sqlery/backend.py:2007-2071 | a completion without a handle is accepted if and only if the job is live and of the given version; open attempts are closed as abandoned unless it succeeded |
| LifecycleOutcomes.ClaimedJobCanBeCompleted | src/sqlery/core/attempts.py:3-13 | after an accepted claim, in every run and while its attempt is open, the completion presenting its attempt and token is accepted |
| LifecycleOutcomes.SuccessIsShownForever | src/sqlery/core/history.py:3-13 | after an accepted success the view shows the job once, as succeeded at that time, in every later state |
| LifecycleOutcomes.FinishMoves | src/sqlery/fastapi_sqlery/history_sql.py:57-133 | the move into history happens exactly when the fences hold, never meets a taken key, and writes the given status, the next version, the finish time, and the start and worker of the latest attempt |
| LifecycleOutcomes.SettleOutcome | src/sqlery/fastapi_sqlery/backend.py:698-716 | a waiting job that fails, a failed job that settles, a stray and an ancestor take effect exactly when their conditions hold, with the status, finish time and retry marker each calls for |
| LifecycleOutcomes.ZombieOutcome | src/sqlery/fastapi_sqlery/backend.py:2417-2463 | a zombie is failed if and only if the job is running; it moves to history as failed with nothing owed and its attempt is abandoned |
| LifecycleOutcomes.AbandonOutcome | src/sqlery/fastapi_sqlery/backend.py:2969-2989 | abandoning closes the open attempts of a job and nothing else; releasing does so exactly for a running job and gives its entry back |
| LifecycleOutcomes.ViewContents | src/sqlery/core/history.py:158-199 | a running job is shown with the start and worker of its open attempt, every other job as stored |
| Lifecycle.FinishKeeps | src/sqlery/core/history.py:144-155 | the INSERT .. SELECT and DELETE pair moves exactly the fenced row, once, and never overwrites a history row |
| LifecycleRuns.RunKeepsInvariant | src/sqlery/core/attempts.py:66-95 | over any sequence of enqueues, claims, completions, abandons, sweeps and arbitrary rewrites of the index: the invariant holds, closed attempts stay closed, history rows never change or vanish |
| LifecycleRuns.ReachableStatesAreSafe | src/sqlery/core/ready_sql.py:144-151 | every state reachable from empty tables satisfies the invariant, whatever stale or duplicate ready entries exist |
| LifecycleRuns.ClaimIsExclusive | src/sqlery/core/attempts.py:74-96 | while an attempt is open no claim of the job succeeds, by any of three claim paths; a successful claim leaves the job row alone and adds its only open attempt |
| LifecycleRuns.CompletionNeedsOpenAttempt | src/sqlery/core/attempts.py:183-194 | a completion is accepted only with the token of an attempt that is still open, and closes it; otherwise every table is unchanged |
| LifecycleRuns.AttemptCompletesAtMostOnce | src/sqlery/core/attempts.py:183-194 | over any run at most one completion of an attempt is accepted |
| LifecycleRuns.LateCompletionIsRejected | src/sqlery/fastapi_sqlery/backend.py:546-550 | after an abandon, however much later, a completion presenting that attempt is rejected and changes nothing |
| LifecycleRuns.EntersHistoryAtMostOnce | src/sqlery/core/history.py:3-13 | over any run a job enters history at most once |
| LifecycleRuns.JobsAreConserved | src/sqlery/core/history.py:3-13 | the jobs known after any run are those known before plus those enqueued, each in exactly one of live and history |
| LifecycleRuns.ViewDuplicatesIff | src/sqlery/core/history.py:170-199 | the LEFT JOIN view shows one row per job if and only if no queued row has two open attempts |
| LifecycleRuns.ViewShowsEachJobOnce | src/sqlery/core/history.py:170-199 | in every state of the invariant the view shows every known job exactly once, with the status `derived_status` gives |
| RunningState.NormalizedAttempts | src/sqlery/core/history.py:374-390 | after the migration open attempts exist exactly for the rows that were running, one each |
| RunningState.NormalizedContents | src/sqlery/core/history.py:374-390 | only running rows change, and only their status; a new attempt carries the worker of its row and its start, or else its creation |
| RunningState.NormalizePreservesStatus | src/sqlery/core/history.py:374-390 | the plain and the derived view agree before the migration, and the derived view shows the same status for every job after it |
| RunningState.NormalizeIsIdempotent | src/sqlery/core/history.py:374-390 | running the migration again changes nothing |
| RunningState.DenormalizeRestores | src/sqlery/core/history.py:393-409 | the reverse marks exactly the original running rows; a row comes back unchanged if and only if it agreed with its attempt |
| ClaimRace.StepKeeps | src/sqlery/fastapi_sqlery/backend.py:770-809 | every statement of every claimer, interleaved with completions, sweeps and unchecked claims, keeps the limits of a tag and the facts the pending checks rest on, except the unchecked claim of a job that carries the tag |
| ClaimRaceRuns.ReachableWithinConcurrency | src/sqlery/fastapi_sqlery/backend.py:792-797 | in every run without an unchecked claim of the tag, the jobs of the tag with an open attempt exceed its limit by at most those shutting down, for jobs with any number of limited tags |
| ClaimRaceWitnesses.ShutDownExceedsConcurrency | src/sqlery/fastapi_sqlery/async_backend.py:578-596 | for every limit of at least one, a run of checked claims in which one job more executes |
| ClaimRaceWitnesses.DirectClaimExceedsLimits | src/sqlery/fastapi_sqlery/async_backend.py:203-247 | for every number of jobs the limits admit, one unchecked claim goes beyond it in executing jobs and in starts of a window |
| ClaimRace.CountCoversStarts | src/sqlery/fastapi_sqlery/backend.py:2577-2596 | the count the rate check reads covers every start since the given time that was not dropped from it |
| ClaimRaceRuns.ReachableWithinRate | src/sqlery/fastapi_sqlery/backend.py:798-808 | in every run without an unchecked claim of the tag, a window of the configured length holds at most the count beyond the starts dropped from it |
| ClaimRaceRuns.DroppedOnlyBy | src/sqlery/fastapi_sqlery/backend.py:2577-2596 | a start drops out of the count only when its own job is archived, abandoned or shut down |
| ClaimRaceRuns.CalmRunsKeepTheRate | src/sqlery/core/claiming.py:88-132 | in every run without an unchecked claim of the tag that archives, abandons and shuts down no started job of it, no window ever holds more than the count |
| ClaimRaceWitnesses.DroppedStartExceedsRate | src/sqlery/fastapi_sqlery/backend.py:798-808 | for every rate and each of the three ways a start drops out, a run of checked claims with one start more in a window |
| ClaimScan.CheckTagConcurrency | src/sqlery/core/claiming.py:59-85 | true exactly when every tag of the job is below its concurrency limit |
| ClaimScan.CheckTagRates | src/sqlery/core/claiming.py:88-132 | true exactly when every tag with a readable rate has starts left in its window |
| ClaimScan.PassesMeans | src/sqlery/core/claiming.py:316-351 | a candidate passes if and only if its limited tags can be locked, every limit has room for one more, its dependencies are met and the claim is not lost |
| ClaimScan.ClaimFromCandidates | src/sqlery/core/claiming.py:312-376 | claims the first candidate that passes every check, blocks exactly the waiting ones met before it, and touches the worker only on a claim |
| ClaimScan.ClaimNext | src/sqlery/core/claiming.py:285-309 | the scan terminates and claims the first passing job of the whole queue, for every page size of at least one |
| ClaimScan.WinnerIsFirst | src/sqlery/core/claiming.py:285-309 | the claimed job passes and nothing before it does; none is claimed exactly when none passes |
| KeysetPaging.PageIsFirst | src/sqlery/core/ready_sql.py:182-212 | an eligible entry left out of a page does not come before its end, and a page is empty only when nothing is eligible |
| KeysetPaging.Walk | src/sqlery/core/ready_sql.py:182-212 | following the cursor with any page limit visits the keys of exactly the entries of the queues that are due, by priority from high to low, then by age, then by id, and stops |
| KeysetPaging.ScanAdvances | src/sqlery/core/ready_sql.py:185-190 | with the table changing between pages, every later key is strictly after the cursor |
| KeysetPaging.PresentThroughoutIsVisited | src/sqlery/core/ready_sql.py:185-190 | an entry present at every statement of a finished scan is visited, despite concurrent inserts and deletes |
| ReadyIndex.Tables.WriteReady | src/sqlery/core/ready_sql.py:75-98 | existing entries are left alone, and unless the caller vouches for the jobs no running job gains an entry |
| ReadyIndex.InsertAllEffect | src/sqlery/core/ready_sql.py:121-126 | a bulk insert adds exactly the missing entries of its jobs in one slot and overwrites none |
| ReadyIndex.UpdateMirrors | src/sqlery/core/ready_sql.py:172-179 | the update makes every entry of a job mirror its row if and only if the creation time did not change or there was no entry |
| ReadyIndex.EnsureSyncs | src/sqlery/core/ready_sql.py:244-256 | a job that had no entry ends with the entry it needs, in whichever slot, or with none if it is running |
| ReadyIndex.Tables.SyncDirty | src/sqlery/core/ready_sql.py:277-299 | after a status change, an edit or neither, the entries of the job agree with its new row unless its creation time was edited behind an entry; no other job's entries change |
| ReadyIndex.FlushedJob | src/sqlery/core/ready_sql.py:259-300 | what each stage of a flush leaves for one job: new, edited, deleted or untouched |
| ReadyIndex.Tables.Flush | src/sqlery/core/ready_sql.py:259-300 | for any mix of new, dirty and deleted jobs and any slots the index is in step after the flush if and only if no creation time was edited behind a ready entry |
| ReadyIndex.CreationEditGoesUnseen | src/sqlery/core/ready_sql.py:31-31 | from any tables in step, a flush that changes the creation time of any queued job with an entry leaves the index out of step |
| Dependencies.DependencyIds | src/sqlery/core/ready.py:186-196 | the integer entries, each once, in the order of their first appearance |
| Dependencies.JudgeDependencies | src/sqlery/core/ready.py:199-245 | the verdict is failed if and only if some dependency is missing or its retry chain ends in a failure that owes no retry, met if and only if every chain ends in success, and pending otherwise; the listed ids are exactly those that doom a dependency |
| Dependencies.EndIsUnique | src/sqlery/core/ready.py:225-231 | the chain end is the one job reached along newest retries through failed or archived jobs, within the hops followed |
| Dependencies.DoomedIff | src/sqlery/core/ready.py:242-244 | the list of failed dependencies is non-empty exactly when some dependency is doomed |
| Dependencies.VerdictIgnoresOrder | src/sqlery/core/ready.py:199-245 | the verdict depends neither on order nor on duplicates |
| Canvas.ChainIsAssociative | src/sqlery/core/canvas.py:170-179 | grouping with the pipe operator does not change the steps of a chain |
| Canvas.FlattenConcat | src/sqlery/core/canvas.py:170-176 | chaining lists of pieces chains their steps, and a nested chain is as good as its pieces |
| Canvas.PiecesInOrder | src/sqlery/core/canvas.py:170-176 | signatures and groups become the steps, one each, in order |
| Canvas.EnqueueStep | src/sqlery/core/canvas.py:87-94 | one job per signature with the given dependencies; an immutable signature is passed nothing |
| Canvas.ApplyChain | src/sqlery/core/canvas.py:181-197 | every job of a step depends on exactly the jobs of the step before and is told to expect its result or list; the ids are handed out in order, each once |
| Canvas.BuiltMeans | src/sqlery/core/canvas.py:181-197 | job by job: dependencies on all jobs of the step before, in order, and one result, a list or nothing passed |
| Canvas.ApplyChord | src/sqlery/core/canvas.py:210-214 | a chord is the graph of the chain of its header and body, exactly when the header is not empty or the body takes no results |
| Canvas.LinkedExactlyWithoutEmptyGroup | src/sqlery/core/canvas.py:181-197 | every job of a later step depends, directly or not, on every job of an earlier one if and only if no group between them is empty |
| Workflow.StepKeeps | src/sqlery/core/claiming.py:340-351 | every transaction, ungated claims included, keeps: a cleared job, and a started one that no ungated claim names, has all dependencies achieved; a success has a completed attempt in its retry chain; a retry carries the dependencies of its parent |
| Workflow.MetIsAchieved | src/sqlery/core/ready.py:199-245 | a verdict of met means that in the retry chain of every dependency some attempt ran to success |
| Workflow.OutcomeDecidesDependents | src/sqlery/core/ready.py:232-244 | the dependent of a running job may run once that completes, fails once it fails for good, and waits while its retry is owed or has not ended |
| Workflow.FinallyFailedFailsDependents | src/sqlery/core/ready.py:215-218 | once a dependency is finally failed and owes no retry, the verdict of every job that depends on it is failed, at every later moment of a run that does not retry it |
| Workflow.StartedMeansAchieved | src/sqlery/core/canvas.py:6-8 | in every run from empty tables a job that no ungated claim of the run names has started only if every dependency was achieved |
| Workflow.ChainRunsInOrder | src/sqlery/core/canvas.py:1-12 | over every run whose ungated claims name no job of the steps concerned and no retry of one, a job of a later step or any retry of it has started only if every job of an earlier step was achieved |
| Workflow.UngatedClaimJumps | src/sqlery/fastapi_sqlery/backend.py:882-918 | in every state one ungated claim starts a waiting job of any step, with earlier steps not achieved |
| Workflow.SecondStepCanStartFirst | src/sqlery/fastapi_sqlery/async_backend.py:203-247 | from empty tables, the second job of a chain starts although nobody claimed the first |
| Workflow.FailedStepStopsChain | src/sqlery/core/canvas.py:6-8 | once a job and all its retries have failed and none is retried again, no job of a later step and no retry of one ever starts, in every run whose ungated claims name none of them |
| HistoryMigration.LikeVersusMarker | src/sqlery/core/history.py:246-256 | the LIKE pattern holds back every row that owes a retry, and the exact family of others it also holds back |
| HistoryMigration.FirstNSize | src/sqlery/core/history.py:253-256 | ORDER BY .. LIMIT picks the smaller of the limit and the number of eligible rows |
| HistoryMigration.BatchIsOldest | src/sqlery/core/history.py:253-256 | a batch holds the oldest eligible rows, by creation and then by id |
| HistoryMigration.InterruptedMoveResumes | src/sqlery/core/history.py:550-565 | after any sequence of the migration's statements, with any batch sizes, the final tables are still the same |
| HistoryMigration.Database.MoveTerminalRows | src/sqlery/core/history.py:550-565 | terminates for every batch of at least one; every succeeded, failed or archived row whose reason does not look like an owed retry is in history, finished at its finish, else start, else creation time, every other row where it was; counts what it moved |
| HistoryMigration.Database.RestoreTerminalRows | src/sqlery/core/history.py:568-579 | terminates, brings every history row back, keeps the rows already live and empties the history |
| HistoryMigration.RestoreUndoesMove | src/sqlery/core/history.py:550-579 | restoring after moving gives back every live row up to the filled-in finish time, plus only what history held before |
| PartitionReclaim.Decide | src/sqlery/core/partitioning.py:443-476 | a drop is decided exactly for a non-default partition past its grace that is known empty and locked |
| PartitionReclaim.StepKeeps | src/sqlery/core/partitioning.py:510-561 | every statement of the maintenance session and of every writer keeps the ledger equal to the table and the evidence behind each phase true |
| PartitionReclaim.ReclaimLosesNothing | src/sqlery/core/partitioning.py:564-626 | in every interleaving, under read committed and snapshot isolation, the table holds exactly what the writers committed, each row in an attached partition |
| PartitionReclaim.OnlyDrainedPartitionsGo | src/sqlery/core/partitioning.py:443-476 | a partition disappears only at a commit of the maintenance session that holds it exclusively, when it is empty, untouched by open transactions, not the default one and past its grace |
| PartitionReclaim.DrainedPartitionGoes | src/sqlery/core/partitioning.py:529-561 | a drained partition past its grace that nobody holds is dropped by one undisturbed pass, at either isolation level, and nothing else changes |
| PartitionReclaim.WriterTransaction | src/sqlery/core/partitioning.py:567-571 | what a writer commits is in the table, what it deletes is gone, what it rolls back never was |
| PartitionReclaim.NestedSnapshotLosesRow | src/sqlery/core/partitioning.py:535-547 | without the refusal of nested snapshot transactions, a run that loses a committed row exists from every state with a drained partition |
| PartitionCover.NextRangeIsFree | src/sqlery/core/partitioning.py:678-684 | the clipped range overlaps no range the walk knows |
| PartitionCover.StepKeeps | src/sqlery/core/partitioning.py:674-709 | the cursor strictly advances, ranges stay pairwise disjoint and no existing partition is touched |
| PartitionCover.EnoughIterations | src/sqlery/core/partitioning.py:674-709 | two iterations per existing range and one per width suffice to reach the end |
| PartitionCover.LoopReachesEnd | src/sqlery/core/partitioning.py:660-676 | from the bucket of now, 10,000 iterations suffice whenever twice the existing ranges plus ahead / width plus two is no more |
| PartitionCover.CoveredExactlyWhenUnblocked | src/sqlery/core/partitioning.py:674-709 | there is no gap if and only if no CREATE was without effect |
| PartitionCover.NamesNeverCollide | src/sqlery/core/partitioning.py:673-685 | with widths and bounds of whole minutes (whole days from a day on) no generated name is ever taken |
| PartitionCover.CoverageHasNoGap | src/sqlery/core/partitioning.py:629-645 | under those conditions every moment from the bucket of now until now + ahead falls into a partition |
| PartitionCover.Catalog.EnsureLivePartitions | src/sqlery/core/partitioning.py:645-712 | existing partitions are unchanged and none overlap; new ones start in the bucket of now or later and before the end asked for, are no wider than the interval and hold no row of the DEFAULT partition; when names, bounds and room allow, every moment from now until now + lookahead, one interval and premake intervals lies in a partition, and the count is that of the partitions added |
| PartitionCover.BucketHoldsNow | src/sqlery/core/partitioning.py:664-670 | the walk starts at a whole number of days, or of intervals, and the bucket holds now |
| PartitionCover.LeftoverHourLeavesGap | src/sqlery/core/partitioning.py:673-709 | a day-wide walk around one hourly partition reports two partitions created and leaves the afternoon uncovered |
| PartitionNames.WalkIsUnblockedExactlyWhenFresh | src/sqlery/core/partitioning.py:673-709 | the walk finds every name free if and only if the partitions due in the gaps of the existing ranges have free and distinct names |
| PartitionNames.NoGapExactlyWhenNamesFresh | src/sqlery/core/partitioning.py:629-712 | the operation leaves no gap if and only if that condition on the existing partitions holds |
| Calendar.OrdinalOrder | src/sqlery/crontab.py:91-130 | calendar order and day numbers agree |
| Calendar.NextDateIsNextOrdinal | src/sqlery/crontab.py:91-130 | the day after a date has the next day number |
| Calendar.KnownDays | src/sqlery/crontab.py:108-112 | day numbers are anchored: January 4, 1970 is day 719166, a Sunday |
| Calendar.KnownMonthLengths | src/sqlery/crontab.py:108-112 | months have their known lengths and leap years the Gregorian rule |
| Calendar.MonthGridLists | src/sqlery/crontab.py:108-112 | the week grid of a month gives each of its days the weekday its day number has, and zeros elsewhere |
| Calendar.MonthGridComplete | src/sqlery/crontab.py:108-112 | every day of the month is on the grid |
| CronFields.ExpressionToList | src/sqlery/crontab.py:208-248 | whatever text is accepted, the list is strictly increasing and within the bounds of the field |
| CronFields.ParseCronString | src/sqlery/crontab.py:166-205 | an accepted expression has five such lists |
| CronFields.NextCronOccurrence | src/sqlery/crontab.py:133-163 | for any text and base: rejected exactly when it does not parse, else the least matching minute strictly after the base, or an error when there is none |
| CronText.FieldRoundTrip | src/sqlery/crontab.py:208-248 | a field written from any legal items parses to exactly the values the items denote |
| CronText.SameMeaningSameList | src/sqlery/crontab.py:208-248 | fields that denote the same values parse to the same list, however they are written |
| CronText.CronRoundTrip | src/sqlery/crontab.py:166-205 | a whole expression written from legal items parses, to the lists and asterisk flags its items denote |
| CronMeaning.TextFires | src/sqlery/crontab.py:103-127 | the text of any legal fields fires at exactly the minutes they speak of, with day numbers divisible by seven as Sundays |
| CronMeaning.MacroMeans | src/sqlery/crontab.py:20-28 | every macro parses and fires when its name says |
| CronSearch.FirstTimeOnDay | src/sqlery/crontab.py:68-89 | the least listed time of a matching day not before the start, or none |
| CronSearch.SearchMonth | src/sqlery/crontab.py:103-129 | the first match of the month, or nothing before the next one |
| CronSearch.NextFrom | src/sqlery/crontab.py:91-130 | terminates with the first match at or after the start, or with the error of year 10000 when there is none |
| CronSearch.MatchesMeansFires | src/sqlery/crontab.py:103-127 | a minute matches if and only if month, hour and minute are listed and the day rule holds with the weekday taken as the day number modulo seven |
| CronSearch.NextOccurrence | src/sqlery/crontab.py:133-163 | the least minute strictly after the base at which the schedule fires, component by component and counted in microseconds; an error exactly when there is none |
| CronSearch.Occurrences | src/sqlery/crontab.py:55-89 | feeding each occurrence back enumerates the matching minutes in order and skips none |
| CronSearch.NextOccurrenceBounded | src/sqlery/crontab.py:91-130 | found if and only if the expression is satisfiable, and then no later than eight years after the base; otherwise the error of year 10000 |
| CronSearch.EightYearsIsTight | src/sqlery/crontab.py:91-130 | February 29 across a non-leap century takes the full eight years |
| AsyncWorker.StepKeeps | src/sqlery/core/async_worker.py:410-512 | every step between two awaits keeps: a job that owes its completion has had no call and any other exactly one, and the drain handles exactly what is in flight |
| AsyncWorkerRuns.AtMostOneCompletion | src/sqlery/core/async_worker.py:241-298 | wherever the shutdown lands no job gets two completion calls, and each call presents the attempt of its claim |
| AsyncWorkerRuns.CompletedExactlyUnlessLeft | src/sqlery/core/async_worker.py:287-298 | when run is over, by return or by an exception out of the drain, a claimed job has had exactly one call if and only if it is not left in flight or is the one whose call raised |
| AsyncWorkerRuns.SelfCancelledNeverReported | src/sqlery/core/async_worker.py:459-473 | a body that ended in CancelledError on its own never gets a call, whatever happens later |
| AsyncWorkerRuns.ExactlyOneCompletion | src/sqlery/core/async_worker.py:573-660 | if no body cancels itself and no fencing error meets the drain of an unreadable row, nothing escapes the drain and every claimed job has had exactly one call |
| AsyncWorkerRuns.InFlightBound | src/sqlery/core/async_worker.py:242-286 | at most concurrency jobs in flight, one more only if the shutdown landed between the head of the loop and the capacity check |
| AsyncWorkerRuns.TimelyRunsKeepConcurrency | src/sqlery/core/async_worker.py:242-286 | in every run in which the shutdown does not land there, never more than concurrency jobs are in flight |
| AsyncWorkerWitnesses.LateShutdownLetsInOneMore | src/sqlery/core/async_worker.py:248-264 | for every concurrency, a run with one job more in flight |
| AsyncWorkerWitnesses.CancelledBodyIsForgotten | src/sqlery/core/async_worker.py:459-473 | for every concurrency, a run that returns although a claimed job never had a completion call |
| AsyncWorkerWitnesses.FencedDrainStrandsOthers | src/sqlery/core/async_worker.py:615-627 | for every concurrency, a run in which a fencing error leaves the drain and all other jobs in flight without their call |
| AsyncWorkerWitnesses.CancelledDrainStrandsOthers | src/sqlery/core/async_worker.py:612-616 | for every concurrency, a run in which a cancelled body does the same |
| AsyncWorkerDriver.Worker.AcceptClaim | src/sqlery/core/async_worker.py:280-286 | the job owes exactly one completion, has its attempt if it came with one, and takes one slot; other jobs are untouched |
| AsyncWorkerDriver.Worker.StartExecution | src/sqlery/core/async_worker.py:410-449 | a load failure is the job's one call; otherwise it is in flight and still owes, with a runner exactly if there is no shutdown; other jobs are untouched |
| AsyncWorkerDriver.Worker.FinishRace | src/sqlery/core/async_worker.py:451-473 | a body that ended gets its one call, as it ended and with the attempt of its claim; one that runs or was cancelled still owes; other jobs are untouched |
| AsyncWorkerDriver.Worker.CompletionReturned | src/sqlery/core/async_worker.py:475-512 | no second call; the job is forgotten exactly if it succeeded or was fenced; other jobs are untouched |
| AsyncWorkerDriver.Worker.FinishDeadline | src/sqlery/core/async_worker.py:605-641 | a drained body that ended gets its one call; one still running owes; the drain is left exactly when the body was cancelled |
| AsyncWorkerDriver.Worker.ReportDeadline | src/sqlery/core/async_worker.py:637-647 | a body cancelled at the deadline gets its one call, as failed |
| AsyncWorkerDriver.Worker.FinishDrain | src/sqlery/core/async_worker.py:642-660 | no second call; the drain forgets the job and is over exactly when none is left, unless an uncaught fencing error leaves it |
| AsyncWorkerDriver.Worker.Drive | src/sqlery/core/async_worker.py:241-298 | a worker driven through any events makes at most one call per job, stays within its bound in flight, and once over has called for exactly the jobs not left in flight |

## Left out

- ClaimRaceRuns.ReachableWithinRate: counts beyond the configured count the starts dropped from it, because the code does not count archived, abandoned or shut-down starts; CalmRunsKeepTheRate has the promised bound.
- ClaimRaceRuns.ReachableWithinConcurrency: allows the jobs shutting down beyond the limit and assumes no unchecked claim of the tag, because the code does not count the first and does not check the second.
- AsyncWorkerRuns.InFlightBound: bounds jobs in flight by `concurrency` + 1 when the shutdown lands before the capacity check, because the code admits one more there.
- ReadyIndex.Tables.Flush: assumes that the session's loaded rows are the rows of the table and that ids are assigned; conflicting concurrent edits of the same row are not modelled.
- PartitionReclaim.ReclaimLosesNothing: the maintenance connection itself writes no job rows, and DETACH with its parent lock and DROP are one step that may also fail.
- PartitionCover.CoverageHasNoGap: table names are modelled by the day or minute they spell, without strings, time zones or the length limit of identifiers.
- HistoryMigration.Database.MoveTerminalRows: assumes unique job ids and that a history row sharing a live id is its copy; LIKE is PostgreSQL's (SQLite also ignores case).
- Workflow.ChainRunsInOrder: assumes that no ungated claim names a job of the steps concerned, because the code applies no gate there; jobs are not deleted.
- Workflow.FailedStepStopsChain: likewise.
- Workflow.StartedMeansAchieved: likewise.
- ClaimRace.StepKeeps: the tag locks are those of PostgreSQL; on SQLite, which has one writer at a time, none are taken.
- CronFields.NextCronOccurrence: solar schedules, non-ASCII digits and time zones other than UTC are not modelled.
- Tag limits: the text of a rate setting is not parsed; a setting is a count and a window, or unreadable.
- Queue priority weights: the order of the queue is a parameter of the scan.
- The Django backend, which mirrors the standalone one, and the async backend's own SQL.
- Retention and the daily partition functions, weaker siblings of the live ones.
- The scheduler, heartbeats, leases, zombie heuristics, signals, PIDs, NOTIFY, webhooks, result encoding, command line and dashboards.
