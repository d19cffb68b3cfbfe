# Verified model of the OpenCode Telegram bridge

The bridge queues agent tasks per owner, materialises schedules, delivers
reminders, keeps managed downloads under a quota, watches its host and deploys
its own releases. This project models the parts of it that are protocols, state
machines or crash-sensitive sequences, and proves what they keep over all runs.
`dafny verify dfyconfig.toml` checks everything.

## How the model is built

| files | subject |
|---|---|
| `Wrappers`, `RowOrder`, `Moments`, `RealOrder` | options; what `ORDER BY ..., id` means; facts about the moments of a run and about products |
| `TimeText` | timestamps as the text columns hold them |
| `TaskTable`, `TaskStore`, `TaskQueue` | the SQL statements as functions, the 22 steps of the store, the store object |
| `StepOutcomes` | what each step does to the rows, column by column |
| `WaitingQueue`, `LeaseSafety`, `ExecutorSafety`, `RecordingPolicy`, `SchedulePromotion`, `ScheduleRuns` | theorems about that store |
| `FailingRuns` | runs of that store on which a property fails |
| `PromotionGate` | the pool-wide gate in front of the promotion |
| `AdaptiveWorkers`, `ResourceMonitor`, `ShadowPolicyAudit`, `RestartGuard` | rate-controlled state machines |
| `ReminderTable`, `Reminders` | reminder delivery |
| `DownloadStorage`, `DownloadOutcomes`, `DownloadService` | downloads: disks after every file-system action; what each operation leaves; the service object |
| `Formatter` | message chunking |
| `ArtifactActivation` | release switch, database backup and rollback |

Code that updates state in the bridge is a class with those fields here. Each
method is proved equal to a function of the old state, and the theorems are
about that function, one step and then every run. A transaction, a statement
under the store lock, or a stretch between two awaits is one step. `finish` and
`retry_or_dead_letter` read the row before they take the lock, so they are two
steps: a read that may return any version, and a write that may act on any
version ever read. File-system work is the sequence of disks it leaves behind,
so a crash between any two actions is a prefix of the sequence. A crash is the
death of the process; what was written before it is there after it.

A run is any sequence of steps with any clock readings, in any order: a step may
commit on a reading that it made before it waited for the lock. Where a result
needs care on the part of a caller, the lemma says so in its `requires`. The
store's other writers (`enqueue_once`, `enqueue_scheduled_job_now`,
`cancel_latest_for_owner`, `update_waiting_prompt` and the like) take one of the
22 steps, change only columns the model drops, or both. Workers, their loop,
`_execute` and `_heartbeat` add no step of their own: whatever they do is an
interleaving of queue steps.

Assumptions: SQLite runs each transaction as one step and AUTOINCREMENT ids are
never reused (`bridge/infrastructure/database/migrations.py:26-29`); a rename
replaces its target in one step; download ids are unique; clocks, randomness,
the network and callbacks are parameters that may take any value. Nothing is
lost to a power failure: a downloaded file, unlike the index, is never synced
(`bridge/services/download_service.py:383-394`, `633-645`), so one could leave an
entry for a truncated file. Seconds, scores and percentages are exact integers
or reals, not floating point.

## Where the code does less than it says

Each of these is shown on an input, and beside it stands the condition under
which the code does meet the property.

- The waiting list is documented as the exact claim order
  (`task_queue.py:1060`). It is not when a retrying row with a smaller id holds
  the head back, nor while the head itself is backing off:
  `ListAndClaimCanDisagree`, `HeadBackingOffIsPassedOver`,
  `ClaimTakesHeadExactly`.
- One worker id for all workers makes exclusion hold for rows, not for
  executors: `OneRowTwoExecutors`. Six kinds of action open the way to a second
  executor, and without them there is none: `ActionExposesExactly`,
  `NoRowHasTwoExecutors`, `ExposureLeadsToSecondExecutor`.
- A retry that acts on an old read can erase the daily flag, and a period of
  zero escapes the clean-up: `StaleRetryLosesTheFlag`,
  `ZeroPeriodLeavesAFailedRow`, `StepBreaksPolicyExactly`,
  `RunKeepsPolicyExactly`.
- Enabling a job reads and writes in two transactions; a promotion in between
  can strand the job until somebody rewrites it: `OvertakenWriteStrands`,
  `StuckUntilRewritten`, `OverlapStrandsExactly`, `RunStaysInOrderExactly`.
- A monotonic reading of exactly 0.0 is forgotten by the promotion gate:
  `ZeroReadingIsForgotten`, `CallStartsExactly`, `EveryRunIsSound`.
- An empty response body is recorded with size zero, and an exception right
  after the index was replaced removes a file the index names; either way the
  index is refused from then on: `EmptyBodyIsRefusedLater`,
  `InterruptedCommitIsRefusedLater`, `FirstFetchClosesTheIndex`,
  `RefusedIndexIsForever`, `FetchIsSoundExactly`, `RunIsSoundExactly`.
- The index is refused above 8 MiB, but nothing limits it when it is written.
  An entry takes two to three kilobytes with a long URL, so a few thousand small
  downloads within a day close the storage, also to deletion and clean-up:
  `TinyDownloadsCloseTheIndex`, `RefusedIndexIsForever`,
  `CommitIsSoundExactly`.
- A reset of interrupted reminders while one is being delivered lets a
  cancelled reminder go out: `ResetDuringDelivery`,
  `CancelledIsQuietExactlyIfUnheld`, `CancelledIsNeverSent`. The reset runs only
  while the plugin is installed, before its scheduler exists, and a second
  installation skips it (`reminder_plugin.py:19-26`); it takes a second process
  on the same database.
- A rollback misses the link or the database in three situations:
  `RollbackCanMiss`, `RollbackIsExact`.
- Chunks of text outside the Basic Multilingual Plane can exceed the limit:
  `AstralWordOverflows`, `CutOverflowsExactly`, `ChunksFitExactly`. And the
  chunker needs a limit above ten: `SmallLimitsFail`.

## Model

| member | source | states |
|---|---|---|
| `RowOrder.OrderBy` | task_queue.py:1064-1070 | An ORDER BY with the id as last key is a listing of exactly the selected rows in which every row precedes all later ones |
| `RowOrder.ListingIsUnique` | task_queue.py:1138-1146 | There is only one such listing, so two queries with the same key always agree |
| `RowOrder.First` | task_queue.py:1355 | ORDER BY ... LIMIT 1 returns the row that precedes every other selected row |
| `TimeText.EncodingPreservesOrder` | task_queue.py:25-28 | For all UTC instants the stored texts compare, character by character, as the instants do, also when only one of them prints a fraction; every SQL time comparison rests on it |
| `TimeText.DecodeUndoesEncode` | task_queue.py:25-35 | decode_time of encode_time is the same instant, so distinct instants have distinct texts |
| `TimeText.FieldOrderIsTimeOrder` | task_queue.py:25-28 | Comparing date fields, most significant first, is comparing microseconds since year 1, leap years included; equal instants have equal fields |
| `TimeText.TailOrder` | task_queue.py:28 | A whole second, which prints no fraction, sorts before every fraction of it, and fractions sort by value |
| `TimeText.EncodingShape` | task_queue.py:25-28 | The stored text, digit by digit: century, year, month, day, hour, minute and second in two digits each |
| `TimeText.TailShape` | task_queue.py:28 | After them six digits of microseconds if there are any, and the zone |
| `TimeText.DaysOfYears` | task_queue.py:25-28 | The days before a year are those of the Gregorian calendar |
| `TimeText.EpochInMicros` | task_queue.py:25-28 | The Unix epoch is 719162 days after the first |
| `TaskQueue.TaskQueueStore.ClaimNext` | task_queue.py:1313-1373 | One transaction takes the ClaimNext step, whose every column is told by the four `StepOutcomes` lemmas on claims; the row it returns is leased to this worker |
| `TaskQueue.TaskQueueStore.MarkRunning` | task_queue.py:1375-1385 | Takes the step; succeeds exactly for a leased row of this worker |
| `TaskQueue.TaskQueueStore.Heartbeat` | task_queue.py:1387-1398 | Takes the step; succeeds exactly for a leased or running row of this worker |
| `TaskQueue.TaskQueueStore.FinishSeen` | task_queue.py:1465-1515 | finish from any row version it may have read takes the step that `FinishIsExact` tells column by column; its catch-up loop ends on the next grid point |
| `TaskQueue.TaskQueueStore.RetrySeen` | task_queue.py:1400-1439 | retry_or_dead_letter from any row version it may have read takes the step that `RetryIsExact` tells: delete, dead-letter or retry with backoff |
| `TaskQueue.TaskQueueStore.Cancel` | task_queue.py:1024-1057 | Succeeds exactly for a row of the owner that is not terminal; what it leaves behind is cancelled and recorded |
| `TaskQueue.TaskQueueStore.RecoverInterrupted` | task_queue.py:1517-1545 | Takes the recovery step; afterwards nothing is in flight and the count is the number of rows that were |
| `TaskQueue.TaskQueueStore.Enqueue` | task_queue.py:800-848 | Adds one queued row under a fresh id |
| `TaskQueue.TaskQueueStore.RenumberRows` | task_queue.py:1158-1162 | The UPDATE loop hands out the priorities n-1 down to 0 in list order |
| `TaskQueue.TaskQueueStore.MoveWaiting` | task_queue.py:1126-1164 | Takes the move step for an offset of one place |
| `TaskQueue.TaskQueueStore.PromoteOne` | task_queue.py:1238-1305 | One turn of the promotion loop; its inner catch-up loop ends on the grid of the old due time (`PromotedJobStaysOnGrid`); counts the row it adds |
| `TaskQueue.TaskQueueStore.PromoteDue` | task_queue.py:1203-1311 | The whole loop is the promotion step, which leaves jobs and rows as `PromotedJobStaysOnGrid` and `PromotedRowsAreFresh` tell; the count is the number of rows that became queued |
| `WaitingQueue.RenumberFixesOrder` | task_queue.py:1156-1162 | Whatever ties the old priorities had, renumbering makes any listing of the waiting rows the waiting list |
| `WaitingQueue.MoveSwapsNeighbours` | task_queue.py:1126-1164 | A move swaps exactly two neighbours of the owner's waiting list, or changes nothing at the ends and for unknown ids |
| `WaitingQueue.MoveTouchesOnlyPriorities` | task_queue.py:1158-1162 | A move changes no column but priority and update time, and only of the owner's waiting rows |
| `WaitingQueue.MoveBackRestoresOrder` | task_queue.py:1126-1164 | Moving a row one place and back restores the order |
| `WaitingQueue.FirstRetryIsClaimable` | task_queue.py:1343-1355 | The retrying row with the smallest id of a free owner is never blocked |
| `WaitingQueue.FreeOwnerHasClaimable` | task_queue.py:1342-1358 | An owner with waiting work, all of it due, and nothing in flight has a claimable row |
| `WaitingQueue.EmptyClaimExactly` | task_queue.py:1327-1373 | A claim comes back empty if and only if, after expired leases are requeued, the cap is reached or every waiting row of every free owner is backing off or held back by a retrying row with a smaller id |
| `WaitingQueue.ClaimIsWorkConserving` | task_queue.py:1327-1373 | Owner by owner: an empty claim below the cap means that an owner whose waiting attempts are all due has a row in flight |
| `WaitingQueue.ClaimTakesHeadExactly` | task_queue.py:1342-1358 | A claim takes the head of the list its owner then sees if and only if that head is due and no retrying row with a smaller id holds it back |
| `WaitingQueue.QueuedWorkIsServedInListOrder` | task_queue.py:1059-1073 | An owner with due queued work only is served in list order |
| `StepOutcomes.RequeueIsExact` | task_queue.py:1327-1334 | A claim first puts exactly the rows in flight whose lease ended at or before now back in the queue, lease columns empty, all else as it was |
| `StepOutcomes.ClaimPicksFirst` | task_queue.py:1342-1358 | The row a claim takes is due, waiting and its owner is free, and every other such row has a lower priority, or the same and was created later, or both the same and a larger id |
| `StepOutcomes.ClaimIsRefusedExactly` | task_queue.py:1335-1362 | A claim comes back empty if and only if as many rows are in flight as the caller allows, at least one and at most three, or there is no such row |
| `StepOutcomes.ClaimLeasesExactly` | task_queue.py:1361-1371 | The row is leased to the worker until now plus the lease of at least ten seconds, its attempt counted and its first start kept; no other row changes |
| `StepOutcomes.WaitingListOrder` | task_queue.py:1059-1073 | The owner's list holds exactly the owner's queued and retrying rows, each pair by descending priority, then creation, then id |
| `StepOutcomes.FinishIsExact` | task_queue.py:1465-1515 | A finished row is completed if and only if it succeeded, with its error, its end and empty lease columns, if it is to be recorded; scheduled for the first grid point after now if it repeats; and gone otherwise. A cancelled or missing row stays so |
| `StepOutcomes.BackoffDoubles` | task_queue.py:1425 | The base delay is two to the number of earlier attempts in seconds, for any number of attempts, up to a minute |
| `StepOutcomes.DelayIsExact` | task_queue.py:1425-1426 | The delay lies between the base and a fifth more, at most a minute; or it is what the provider asks for, if that is longer than the base |
| `StepOutcomes.RetryIsExact` | task_queue.py:1400-1439 | A failed attempt is retried after that delay unless the error is final or the attempts are used up; then it is a dead letter, or gone if it is not to be recorded; a row that is not live stays |
| `StepOutcomes.ReportsAreExact` | task_queue.py:1375-1398 | Only the worker that holds the lease starts a row or extends its lease, to now plus the lease of at least ten seconds |
| `StepOutcomes.CancelIsExact` | task_queue.py:1024-1057 | The owner's row that has not ended is cancelled if it is to be recorded and gone otherwise; any other row stays |
| `StepOutcomes.RetryFailedIsExact` | task_queue.py:1452-1463 | The owner's failed or dead row waits again at once and keeps its attempts, rank and saved progress |
| `StepOutcomes.ReprioritizingIsExact` | task_queue.py:1112-1124 | The priority moves by the step, held within a hundred either way; waiting rows of the owner only |
| `StepOutcomes.MovingIsExact` | task_queue.py:1126-1164 | The row at a place of the list changes places with the one above or below it, and nothing else in the list moves |
| `StepOutcomes.DeletingIsExact` | task_queue.py:1075-1110 | An owner deletes rows that are neither in flight nor dead letters, or all waiting ones |
| `StepOutcomes.RecoveryIsExact` | task_queue.py:1517-1545 | After a restart a leased row or one with saved progress waits again; any other running row has failed and stays only if it has a period or a job; the second statement also removes failed rows it cannot tell from those |
| `StepOutcomes.AddingIsExact` | task_queue.py:800-877 | New work gets the next id, queued, or scheduled for a time that is still to come |
| `StepOutcomes.SavingIsExact` | task_queue.py:207-215 | Progress is saved on live rows only |
| `StepOutcomes.EnablingIsExact` | task_queue.py:447-474 | Enabling sets the run a period or a second ahead if the one read was missing or past, and writes the one read back otherwise |
| `StepOutcomes.JobWritesAreExact` | task_queue.py:267-484 | Creating, retiming and deleting change one job and the columns they name |
| `FailingRuns.ListAndClaimCanDisagree` | task_queue.py:1060 | A run after which the list starts with one row while a claim takes another, because a retrying row holds the head back; against the wording of list_waiting |
| `FailingRuns.HeadBackingOffIsPassedOver` | task_queue.py:1060 | A run after which it is so because the head itself is still backing off |
| `LeaseSafety.ClaimKeepsExclusion` | task_queue.py:1313-1373 | A claim keeps one in-flight row per owner, at most three in all, each with a lease |
| `LeaseSafety.StepKeepsExclusion` | task_queue.py:1024-1545 | So does every other step of the store, at any clock reading |
| `LeaseSafety.EveryRunIsExclusive` | task_queue.py:1313-1398 | No interleaving of the 22 steps, with any clock readings, reaches a table that breaks exclusion, the cap or the lease columns |
| `LeaseSafety.OneRowTwoExecutors` | task_service_v3.py:134-171 | Exclusion is over rows: under the shared worker id two executors can both hold one row after its lease ran out, each passing mark_running |
| `ExecutorSafety.ClaimTakesOnlyExpired` | task_queue.py:1327-1367 | A claim hands out a row in flight only after its lease ran out |
| `ExecutorSafety.ActionExposesExactly` | task_service_v3.py:127-171 | While every held row has one executor and is not up for grabs, an action, on a reading no later than its commit, changes that if and only if it is one of six: a claim on a reading past the lease of a held row, a recovery or a retry of failed work that requeues one, a promotion of a held row that is due again, a retry that commits after its own backoff, or the end of a backoff that the executor outstays |
| `ExecutorSafety.NoRowHasTwoExecutors` | task_service_v3.py:127-171 | In every run with none of those actions no row ever has two executors |
| `ExecutorSafety.AvailableRowGetsSecondExecutor` | task_service_v3.py:127-171 | From any state in which a held row is up for grabs, cancelling other rows, letting time pass and one claim give it a second executor |
| `ExecutorSafety.ExposureLeadsToSecondExecutor` | task_service_v3.py:127-171 | So each of the six actions opens the way to a second executor |
| `RecordingPolicy.StepBreaksPolicyExactly` | task_queue.py:142-153 | From a table whose terminal rows are all recordable, a step leaves one that is not if and only if it is one of three named writes |
| `RecordingPolicy.SoundStepsDoNotBreak` | task_queue.py:1400-1515 | A row version that still tells the truth about recording never leads finish or retry into such a write |
| `RecordingPolicy.RunKeepsPolicyExactly` | task_queue.py:1024-1545 | Over any run at all, every state keeps the policy if and only if no step is one of those writes |
| `RecordingPolicy.EveryRunKeepsPolicy` | task_queue.py:1024-1545 | It is so in every run without zero periods and without checkpoint writes that clear the daily flag, though finish and retry act on old reads |
| `FailingRuns.StaleRetryLosesTheFlag` | task_queue.py:1400-1439 | A run in which a retry that read the row before the daily flag was saved writes the old checkpoint back, and a finish then completes a row that may leave no record |
| `FailingRuns.ZeroPeriodLeavesAFailedRow` | task_queue.py:1517-1545 | A run with a period of zero whose recovery leaves a failed row that keeps_record refuses |
| `RecordingPolicy.CancelledForGood` | task_queue.py:1465-1515 | A row once cancelled is never anything else in any later state of any run, even when reads and writes straddle the cancellation; its id is not reused |
| `SchedulePromotion.NextDueIsOnGrid` | task_queue.py:1293-1296 | The catch-up loop ends on the grid of the old due time, in (now, now + period] |
| `SchedulePromotion.NextDueIsUnique` | task_queue.py:1293-1296 | That interval holds no other point of the grid |
| `SchedulePromotion.PromotionIsExact` | task_queue.py:1203-1311 | promote_due records exactly the current occurrence of each due job, none of them recorded before, advances or retires exactly those jobs, and adds one queued row exactly for those without a live row |
| `SchedulePromotion.PromotedJobStaysOnGrid` | task_queue.py:1293-1304 | On an ordered store every due job with a period next runs a whole number of periods after its old due time, in (now, now + period], and keeps its other columns; one without is disabled; no other job changes |
| `SchedulePromotion.PromotedRowsAreFresh` | task_queue.py:1210-1286 | Old rows stay, those scheduled for now or before become queued; each new row is the one fresh queued row of a due job none of whose rows was live; afterwards every due job has a live row |
| `SchedulePromotion.NewRowsFollowDueTimes` | task_queue.py:1214-1218 | The new rows get their ids in the order in which their jobs fell due, by job id where two fell due together |
| `SchedulePromotion.PromotionIsIdempotent` | task_queue.py:1203-1311 | A second call at the same reading changes nothing |
| `SchedulePromotion.DueJobMovesExactlyIfUnrecorded` | task_queue.py:1239-1248 | A due job moves on if and only if its current occurrence is not on record |
| `ScheduleRuns.OccurrencesComeFromPromotions` | task_queue.py:1238-1286 | Between two moments of a run exactly the promotions in between put occurrences on record, each for a job it found due |
| `ScheduleRuns.RunStaysInOrderExactly` | task_queue.py:414-474 | Over any run, whatever the order of its readings, whose administrative writes act on what they read or checked before the lock, every recorded occurrence stays earlier than the next run of its job in every state if and only if no write was overtaken: no promotion between its read and its write recorded an occurrence of the job at or after the time written |
| `ScheduleRuns.PromptWriteIsNotOvertaken` | task_queue.py:414-474 | A write that commits before any step has read the time it writes is not overtaken |
| `ScheduleRuns.OverlapStrandsExactly` | task_queue.py:447-474 | With one promotion between the read and the write of enabling, the write is overtaken, and the job stuck, if and only if the promotion found the job due and the time read is written back |
| `ScheduleRuns.StuckUntilRewritten` | task_queue.py:1239-1248 | A stuck job stays as it is, and no promotion of the run records it or adds a row for it, until its row is written or deleted |
| `ScheduleRuns.OvertakenWriteStrands` | task_queue.py:447-474 | A run in which enabling is overtaken and leaves the job stuck |
| `AdaptiveWorkers.StabilizedWorkerLimit.Call` | adaptive_workers.py:105-139 | One call takes the transition that `CallIsExact` and `MemoryIsExact` tell, and returns the new limit |
| `AdaptiveWorkers.StabilizedWorkerLimit.Transition` | adaptive_workers.py:78-103 | Clamps, stores and stamps a change of the limit |
| `AdaptiveWorkers.CallIsBounded` | adaptive_workers.py:105-139 | The limit never exceeds the clamped target; a falling target is met at once; an increase is by one and a recovery period after the last change; a recovery always has a baseline |
| `AdaptiveWorkers.CallIsExact` | adaptive_workers.py:105-139 | The limit starts at the clamped target and follows a fall at once; with a target above it, it rises by one if and only if a recovery period has passed since the remembered increase, or else since the pressure |
| `AdaptiveWorkers.MemoryIsExact` | adaptive_workers.py:105-139 | What each call remembers: the pressure of a held or falling limit, the increase of a rising one, and nothing of an earlier increase after a fall |
| `AdaptiveWorkers.HeldTargetIsReached` | adaptive_workers.py:70-139 | In every run: while a target is allowed, as many samples a recovery period apart as the limit lacks bring it to the target |
| `AdaptiveWorkers.RunIsBounded` | adaptive_workers.py:70-139 | Over every run with a monotone clock all of that holds, and consecutive increases are a recovery period apart |
| `AdaptiveWorkers.WindowBound` | adaptive_workers.py:70-139 | A window of length L holds at most floor(L / recovery) + 1 increases |
| `Formatter.PrefixWithinLimit` | formatter.py:8-18 | The binary search returns the longest prefix within the limit in UTF-16 code units |
| `Formatter.ChooseCut` | formatter.py:33-52 | The comparisons against 0.5, 0.7 and 0.3 of the limit choose the specified cut |
| `Formatter.RFindIsLast` | formatter.py:35-36 | rfind is the last place where the needle occurs, or -1 if there is none |
| `Formatter.CutPrefersLateBreaks` | formatter.py:33-52 | The cut by the last breaks of the text that fits: a blank line past half the limit, else a line end past seven tenths, else a space from three tenths on, else the last space of ten units less, else ten short of the limit |
| `Formatter.StripIsExact` | formatter.py:54-55 | Stripping drops the space at both ends and nothing else |
| `Formatter.ChunksAreTrimmed` | formatter.py:54-57 | No chunk of a text that was split is empty or begins or ends with space |
| `Formatter.CutIsGood` | formatter.py:33-52 | The cut is at least one character and lies inside a prefix that fits, or is the last resort, which counts code points |
| `Formatter.CutPieceFits` | formatter.py:54-55 | Cutting and stripping keeps the visible characters in order, leaves a shorter rest and a piece within the size bound |
| `Formatter.ChunkMessage` | formatter.py:21-57 | Terminates; the chunks spell out the visible characters in order; each fits max(limit, 2 * (limit - 10)) units, and the limit itself for text within the Basic Multilingual Plane; none is empty once the text is split |
| `Formatter.CutOverflowsExactly` | formatter.py:33-54 | A cut leaves a head over the limit if and only if no break is found and that many code points take too many code units; likewise for the stripped head |
| `Formatter.ChunksFitExactly` | formatter.py:21-57 | For any text, every chunk fits the limit if and only if no remainder met on the way has to be cut so |
| `Formatter.AstralWordOverflows` | formatter.py:48-54 | A long word of characters outside the Basic Multilingual Plane does not fit at any limit above twenty: its first chunk takes 2 * (limit - 10) units |
| `Formatter.TightLimitsFit` | formatter.py:48-54 | At limits from eleven to twenty nothing overflows |
| `Formatter.SmallLimitsFail` | formatter.py:21-57 | The bound on the limit is needed: at ten the loop stands still on a long word, below ten a piece is too long |
| `PromotionGate.PromotionState.Check` | task_service_v3.py:113-115 | The check before the lock |
| `PromotionGate.PromotionState.Acquire` | task_service_v3.py:115-120 | The check under the lock, up to the call of promote_due |
| `PromotionGate.PromotionState.Finish` | task_service_v3.py:119-125 | The end of the call; only an exception, not a cancellation, clears the timestamp |
| `PromotionGate.EveryRunIsSound` | task_service_v3.py:97-125 | For any interleaving of any number of workers, calls never overlap and consecutive starts are a poll interval apart unless the earlier call failed or started at the reading 0.0 |
| `PromotionGate.CallStartsExactly` | task_service_v3.py:115-120 | Under the lock a call starts if and only if there was none before, the last one failed or started at the reading 0.0, or a poll interval has passed since it started |
| `PromotionGate.CheckWaitsExactly` | task_service_v3.py:113-115 | Before the lock a worker waits if and only if there was no call, the last one failed or started at the reading 0.0, or a poll interval has passed since it started, also while it is going on |
| `PromotionGate.DuePromotionStarts` | task_service_v3.py:113-120 | So a poll interval after the last start the next worker that finds nobody inside starts a call |
| `PromotionGate.FailureRetriesAtOnce` | task_service_v3.py:119-125 | After a failed call the next worker gets through at once |
| `PromotionGate.ZeroReadingIsForgotten` | task_service_v3.py:110-118 | Two successful calls can both start at the reading 0.0, which also means that nothing was promoted yet |
| `ResourceMonitor.StabilizeIsCautious` | resource_monitor.py:184-205 | The stabilised level is never better than the raw one, a fall is followed at once, a recovery is one level at a time |
| `ResourceMonitor.LevelByScore` | resource_monitor.py:162-205 | Where each level goes at each score, falling at 80, 60 and 35 and recovering at 85, 65 and 40, and the workers each level suggests |
| `ResourceMonitor.RecoveryIsSteady` | resource_monitor.py:184-205 | Scores of 85 and more bring any level to healthy, one level a sample |
| `ResourceMonitor.WorkersAreExact` | resource_monitor.py:220-286 | A second, third or further worker is allowed if and only if so many are configured, the load leaves room, and memory, stalls, swap, disk and size of the host bear them |
| `ResourceMonitor.PerfectScoreExactly` | resource_monitor.py:115-160 | The score is 100 exactly on a host without pressure |
| `ResourceMonitor.TallyIsExact` | resource_monitor.py:207-218 | For any deltas: how many were zero, the sum of their sizes, and a largest one |
| `ResourceMonitor.StartDecidesDirection` | resource_monitor.py:184-205 | With scores in a band five wide, the side of the start relative to the level of the lowest score fixes the only direction the level can move |
| `ResourceMonitor.NoOscillation` | resource_monitor.py:184-205 | So no such run both improves and worsens, from any starting level |
| `ResourceMonitor.SixPointsOscillate` | resource_monitor.py:184-205 | Five is the best bound: two scores six apart swing the level both ways |
| `ResourceMonitor.TallyIsConsistent` | resource_monitor.py:207-218 | Samples are agreements plus disagreements, and disagreements <= cumulative delta <= disagreements times the largest delta |
| `ResourceMonitor.ReliefNeverHurts` | resource_monitor.py:115-286 | A host no worse in any signal never gets fewer workers, a lower score or a worse raw level |
| `ResourceMonitor.HealthScore` | resource_monitor.py:115-160 | The accumulated penalty is the sum of independent penalties per signal; a critical signal caps the score at 65 |
| `ResourceMonitor.HostResourcePolicy.ProductionWorkers` | resource_monitor.py:220-286 | The branch sequence computes the minimum of the configured count and each signal's own limit; a critical signal means one worker |
| `ResourceMonitor.HostResourcePolicy.RecordShadowComparison` | resource_monitor.py:207-218 | Keeps the counters equal to the tally of all deltas |
| `ResourceMonitor.HostResourcePolicy.Decide` | resource_monitor.py:220-311 | Decides the minimum of the signal limits and the summed score, moves the shadow level by the stabilised transition and records the comparison of both limits |
| `ShadowPolicyAudit.LogIsExact` | shadow_policy_audit.py:202-236 | The divergence log is a prefix of (started changed* resolved)*, each entry starts where the last ended and changes it, and replaying it yields the signature in force |
| `ShadowPolicyAudit.LogTellsEverySignature` | shadow_policy_audit.py:202-236 | The part of the log written by any observation replays to the signature of that observation |
| `ShadowPolicyAudit.CountsAddUp` | shadow_policy_audit.py:115-150 | Agreements, aggressive and conservative samples add up to the window |
| `ShadowPolicyAudit.PassesExactly` | shadow_policy_audit.py:115-150 | The five gates on the window itself: its length, the percentage of places that agree, the mean size of the deltas, their bound, and the percentage of places where the shadow policy allows more |
| `ShadowPolicyAudit.ReadySinceMarksStretch` | shadow_policy_audit.py:152-200 | The remembered instant is the start of the current unbroken stretch of passing evaluations |
| `ShadowPolicyAudit.ReadyExactlyWhenStable` | shadow_policy_audit.py:152-200 | With a monotone clock promotion is ready if and only if every evaluation over at least the required time found the window passing all five gates |
| `ShadowPolicyAudit.AuditedShadowPolicy.Observe` | shadow_policy_audit.py:202-236 | The window gains the delta and loses its oldest when full; the signature is none exactly for a delta below the threshold; readiness is evaluated and the log holds the changes of signature |
| `ShadowPolicyAudit.AuditedShadowPolicy.Readiness` | shadow_policy_audit.py:152-200 | Reports exactly the specified readiness and keeps the log |
| `RestartGuard.PruningKeepsTrack` | watchdog_policy.py:196-199 | Pruning a sorted history drops only entries an hour old, so it stays the end of the full record |
| `RestartGuard.AllowedAttemptIsGuarded` | watchdog_policy.py:196-204 | An allowed attempt keeps every half-open hour within the cap and every gap at min(max(60, cooldown), 3600) |
| `RestartGuard.GuardDecidesExactly` | watchdog_policy.py:196-204 | Whatever was pruned, the guard allows a restart if and only if, in the whole record, no attempt of the last hour is closer than max(60, cooldown) and the hour holds fewer than max(1, cap) |
| `RestartGuard.Watchdog.RestartAllowed` | watchdog_policy.py:181-204 | Refuses unknown services and a starved host without touching the history; otherwise prunes and judges what is left |
| `RestartGuard.Watchdog.Turn` | watchdog_runner.py:286-317 | One service: it is restarted if and only if it is the one that may be, the host can bear it and the whole record allows it; the attempt is on file before the restart, a failed one counts, and the process may die at any point |
| `RestartGuard.Watchdog.Cycle` | watchdog_runner.py:277-324 | A watchdog run, however it ends, only adds attempts that the record allows, made at its reading, and keeps it guarded; if it does not die it tries what is allowed |
| `RestartGuard.Watchdog.RunAll` | watchdog_runner.py:277-324 | Any number of runs with non-decreasing readings: no attempt is lost, only theirs are added, and over the whole record every half-open hour holds at most the cap and every gap is kept, from the first new attempt on |
| `RestartGuard.HourHoldsAtMostCap` | watchdog_policy.py:196-204 | Any hour that ends in a new attempt holds at most the cap of attempts |
| `RestartGuard.ClosedHourCanHoldMore` | watchdog_policy.py:198 | The hour is half-open: an attempt exactly an hour later is not counted |
| `ReminderTable.BatchCount` | bridge/services/reminder_service.py:216-236 | A batch holds only due pending reminders and none twice |
| `ReminderTable.BatchSize` | bridge/services/reminder_service.py:216-236 | As many reminders as are due, up to the limit held between 1 and 100 |
| `ReminderTable.BatchIsFirstDue` | bridge/services/reminder_service.py:216-236 | They are pending and due, in the order in which they fell due and by id where together, and every due one left out comes later |
| `ReminderTable.RunSettlesExactly` | bridge/services/reminder_service.py:303-315 | A tick marks each row of the batch sent if its delivery succeeded, and otherwise counts the attempt, failing the third; no other row changes |
| `ReminderTable.RowWritesAreExact` | bridge/services/reminder_service.py:198-269 | What the other statements write to a row, and to no other |
| `Reminders.ReminderStore.Cancel` | bridge/services/reminder_service.py:198-207 | Succeeds exactly for a pending reminder of the owner |
| `Reminders.ReminderStore.ClaimDue` | bridge/services/reminder_service.py:216-236 | Claims exactly the batch, row by row |
| `Reminders.ReminderStore.MarkAttemptFailed` | bridge/services/reminder_service.py:248-269 | Counts the attempt of a reminder being sent; the third one fails it |
| `Reminders.ReminderStore.ResetInterrupted` | bridge/services/reminder_service.py:209-214 | Returns every reminder being sent to pending and counts them |
| `Reminders.ReminderStore.RunOnce` | bridge/services/reminder_service.py:303-315 | One tick claims a batch, settles every one of its rows by the outcome of its delivery, and returns how many were delivered |
| `Reminders.SendsAreBounded` | bridge/services/reminder_service.py:216-269 | Over every run with crashes and resets, a reminder is sent at most three times plus once per interruption, failed means three attempts and every other status fewer |
| `Reminders.FinalStaysFinal` | bridge/services/reminder_service.py:198-269 | Sent, failed and cancelled are absorbing |
| `Reminders.CancelledIsQuietExactlyIfUnheld` | bridge/services/reminder_service.py:303-315 | After any run that left a reminder cancelled, no continuation sends it again if and only if no scheduler holds it unsent |
| `Reminders.CancelledIsNeverSent` | bridge/services/reminder_service.py:198-207 | In every run whose resets happen while nothing is held, a successfully cancelled reminder is never sent afterwards |
| `Reminders.ResetDuringDelivery` | bridge/services/reminder_service.py:209-214 | A reset in the middle of a delivery makes the reminder cancellable, and it is sent all the same |
| `DownloadStorage.CommitIsSoundExactly` | bridge/services/download_service.py:620-631 | Entering a finished file keeps every disk sound, and the index readable, if and only if the file is not empty, the index file stays within 8 MiB and nothing raises right after the index was replaced |
| `DownloadStorage.FetchIsSoundExactly` | bridge/services/download_service.py:567-645 | A direct transfer leaves a sound disk at every crash point if and only if it does not record an empty body, does not make the index file too long and is not interrupted right after the index was replaced |
| `DownloadStorage.MediaIsSoundExactly` | bridge/services/download_service.py:458-540 | The same for a media transfer; empty files are refused before |
| `DownloadStorage.RetiringIsSound` | bridge/services/download_service.py:653-711 | Deletion and clean-up are sound at every crash point, whichever files refuse to go |
| `DownloadStorage.EveryDiskIsSound` | bridge/services/download_service.py:341-421 | In every run of transfers, deletions, clean-ups and crashes that do no such damage, every entry names an existing file of its size, no two share a path, the sizes stay within the quota and the index can be read |
| `DownloadStorage.RunIsSoundExactly` | bridge/services/download_service.py:341-421 | Every crash point of every operation of a run is sound if and only if no operation of the run does damage |
| `DownloadStorage.RefusedIndexIsForever` | bridge/services/download_service.py:341-381 | An index that is refused, for whatever reason, is never changed again: deletion and clean-up read it first, too |
| `DownloadStorage.EmptyBodyIsRefusedLater` | bridge/services/download_service.py:602-621 | On any sound disk a completed transfer of an empty body leaves an index that is refused |
| `DownloadStorage.InterruptedCommitIsRefusedLater` | bridge/services/download_service.py:620-626 | So does an exception right after the index was replaced |
| `DownloadStorage.FirstFetchClosesTheIndex` | bridge/services/download_service.py:567-631 | Each of the two can close a fresh store with its first transfer |
| `DownloadStorage.TinyDownloadsCloseTheIndex` | bridge/services/download_service.py:383-394 | Small downloads alone, without any fault and within the quota, make the index file too long |
| `DownloadService.DownloadStore.ReadIndex` | bridge/services/download_service.py:341-381 | Accepts exactly the indexes of at most 8 MiB whose every entry names a file of its positive size |
| `DownloadService.DownloadStore.TransferBudget` | bridge/services/download_service.py:399-421 | The least of file limit, remaining quota and free space less a headroom, or a refusal |
| `DownloadService.DownloadStore.StreamToFile` | bridge/services/download_service.py:633-645 | The part file grows chunk by chunk and is removed on failure or overrun; these are exactly the disks left behind |
| `DownloadService.DownloadStore.Fetch` | bridge/services/download_service.py:567-631 | Leaves exactly the sequence of disks of a direct transfer; the record it returns is in the index, describes its file, and was made now for the time to live |
| `DownloadService.DownloadStore.FetchMedia` | bridge/services/download_service.py:458-540 | The same for a media transfer |
| `DownloadService.DownloadStore.CleanupExpired` | bridge/services/download_service.py:674-711 | An entry goes if and only if it expires at or before now or was made before a given midnight, and the files that go are exactly those of the entries that went, the stuck ones excepted; the index is written first, and entries and bytes are counted |
| `DownloadService.RetiredAreExpired` | bridge/services/download_service.py:692-700 | The retired entries are those with expires_at <= now and, if a midnight is given, those with created_at before it, and no others |
| `DownloadService.KeptForItsTimeToLive` | bridge/services/download_service.py:692-700 | A recorded download is retired if and only if its time to live has passed or a later midnight is given |
| `DownloadOutcomes.BudgetIsLargest` | bridge/services/download_service.py:399-421 | The budget is the largest transfer within the file limit, the quota and the volume less its reserve |
| `DownloadOutcomes.ReceivedExactly` | bridge/services/download_service.py:633-645 | A body is received if and only if every piece comes and their sum is within the budget |
| `DownloadOutcomes.StreamGrows` | bridge/services/download_service.py:633-645 | Meanwhile the part file holds what has come so far, until it is removed; nothing else changes |
| `DownloadOutcomes.FetchEndsExactly` | bridge/services/download_service.py:567-631 | A direct transfer leaves the disk as it was unless the whole body came and fitted; then it leaves the file and its entry or, by its fault, the part file, nothing, or an entry without a file |
| `DownloadOutcomes.MediaEndsExactly` | bridge/services/download_service.py:458-540 | The same for a media transfer, which leaves nothing of an empty or too large file |
| `DownloadOutcomes.RetiringIsExact` | bridge/services/download_service.py:653-711 | Entries leave the index first and all at once, then their files one by one; what cannot be unlinked stays and nothing else goes |
| `DownloadService.DownloadStore.Delete` | bridge/services/download_service.py:653-666 | Retires one entry of the owner's; otherwise touches nothing |
| `ArtifactActivation.ReturnsOnTarget` | maintenance/artifact_activation.py:88-122 | If activate returns, the link is the target and a backup of the commit exists |
| `ArtifactActivation.ReturnsExactly` | maintenance/artifact_activation.py:88-122 | activate returns if and only if nothing came in its way, and then leaves the database as the last callback did |
| `ArtifactActivation.RecoveryExactly` | maintenance/artifact_activation.py:103-121 | The previous release is started again if and only if the guarded block was entered and failed and what had to be undone could be; a failure of that start is the only recovery failure |
| `ArtifactActivation.RollbackIsExact` | maintenance/artifact_activation.py:111-121 | When the recovery restart is called, the link is the previous release unless the switch raised after it had moved, and the database shows its content after quiesce, each if and only if its own condition holds |
| `ArtifactActivation.RollbackCanMiss` | maintenance/artifact_activation.py:103-115 | Three hosts on which the rollback misses: a stale backup, a preparation that writes and then fails, and an interruption between moving the link and setting the flag |
| `ArtifactActivation.EveryHostIsCovered` | maintenance/artifact_activation.py:88-122 | At every crash point of an activation the link names the old, previous or new release, the new one only once its backup exists, and no backup is lost or changed; one may be added, which shows the quiesced database |
| `ArtifactActivation.ActivationIsLastHost` | maintenance/artifact_activation.py:88-122 | A complete activation ends on its last crash point |
| `ArtifactActivation.BackupsOnlyGrow` | maintenance/artifact_activation.py:176-198 | No activation, complete or cut off, changes an existing backup, and a new one shows the quiesced database |
| `ArtifactActivation.BackupDatesFromFirst` | maintenance/artifact_activation.py:178-195 | In every run of activations, each complete or cut off after any action, and other writes, a backup shows the database of the first activation that made one for that commit |
| `ArtifactActivation.RetryGoesBackToFirstTry` | maintenance/artifact_activation.py:114-115 | So a commit tried again and rolled back takes the database back to its first try, whatever was written since |
| `ArtifactActivation.ArtifactActivator.EnsureBackup` | maintenance/artifact_activation.py:176-198 | Reads the database through its log, keeps an existing backup, and leaves one behind even when the checksum file cannot be written |
| `ArtifactActivation.ArtifactActivator.Restore` | maintenance/artifact_activation.py:200-218 | Replaces the file, then removes the log that belonged to the old one |
| `ArtifactActivation.ArtifactActivator.Switch` | maintenance/artifact_activation.py:227-232 | The link moves in one rename, or not at all |
| `ArtifactActivation.ArtifactActivator.Activate` | maintenance/artifact_activation.py:88-122 | The flags and the handler produce exactly the specified outcome and leave behind exactly the specified sequence of hosts |

## Left out

- TimeText.DecodeUndoesEncode: covers the texts `encode_time` writes, in UTC; the other ISO forms `fromisoformat` reads and the conversion of other zones are not modelled.
- WaitingQueue.QueuedWorkIsServedInListOrder: the list is the whole list; the LIMIT of `list_waiting` is not modelled.
- LeaseSafety.EveryRunIsExclusive: speaks of rows; what holds for executors is in `ExecutorSafety`.
- RecordingPolicy.EveryRunKeepsPolicy: assumes periods other than zero and checkpoint writes that keep the daily flag, both shown to be needed; `bridge/telegram/commands/manage.py:260` is the one caller that clears the flag on purpose. `RunKeepsPolicyExactly` assumes nothing.
- ScheduleRuns.RunStaysInOrderExactly: the readings of steps may commit in any order, but a write to a job compares and adds on readings no earlier than those of the steps committed before it looked.
- ExecutorSafety.NoRowHasTwoExecutors: no step reads a time later than its commit; an executor's outcome and its leaving are separate actions, and what it does in between is not modelled.
- Formatter.ChunkMessage: requires a limit above ten; lone surrogates are not modelled, since a character here is a Unicode scalar value.
- RestartGuard.Watchdog.Cycle: starts from a readable, sorted state file that is not ahead of the clock; an unreadable one loses the history, and with it the guard.
- ShadowPolicyAudit.ReadyExactlyWhenStable: within one process run; the persisted and restored state is not modelled.
- ShadowPolicyAudit.LogIsExact: the log is what is handed to the audit logger; a failing write of the logger is not modelled.
- DownloadStorage.EveryDiskIsSound: files that no entry names (a part file after a crash, a file that could not be removed) may stay behind and are not counted against the quota, as in the code.
- ArtifactActivation.RollbackIsExact: assumes that moving the link back and restoring the database do not raise themselves; the outcome of either raising is modelled but nothing is claimed about it.
- Negative repeat periods: `finish` would loop for ever on one, so periods are natural numbers.
- The steps of the store that have no method of their own in `TaskQueueStore` (schedule, checkpoints, priorities, deletion, retry of failed work, job administration) are functions only; methods for them would only repeat those functions.
- `claim_schedule_occurrence` with arbitrary keys, and `enqueue_scheduled_job_now`, which may overlap with a promoted task by design.
- Columns without influence on the modelled steps: prompts, chat ids, sequence numbers, public ids, attachments, activity, `last_run_at`.
- The tables `idempotency_records`, `schedule_runs` and the schedule catalogue, pending attachments, provider quota pauses and the queue metrics.
- Jobs are addressed by id; the lookup by owner and name is left out.
- SQLite, the connection layer and the migrations themselves.
- Verification and unpacking of a release artifact, and the systemd, git and HTTP effects behind the callbacks.
- URL validation, address pinning, file-name cleaning and path containment of downloads.
- Parsing of reminder requests, the twenty-reminder limit and the texts sent.
- `assess_health` of the watchdog, the report it writes, and host readings from `/proc`.
- Telegram handlers, plugins, rendering, settings, model catalogues, provider keys and backups.
