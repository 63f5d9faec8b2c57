# Verified models of the SVP build engine

Dafny models of the parts of SVP whose correctness does not show in any one function: the distributed task
scheduler, the recovery journal, the content-addressed cache, the frame and block formats, forced alignment and
transcript reconciliation. Each model follows its source branch by branch; each main theorem is about every
input, every run or every interleaving. `dafny verify dfyconfig.toml` checks the whole project.

## The scheduler

`SchedulerSteps` gives every event handler as a function on states; `SchedulerExecution` is the scheduler itself,
an object whose handlers update tasks, executors, leases, the ready queue, the counter-based ready set and the
sink in place, each proved to do exactly what its step function says. `Execute` is proved to make a run, and
`SchedulerTurns` says of what: turn after turn, one dispatch round, the inbox in order, one sweep.

The theorems are about all runs, from any resumed results and with grants and events in any order: the views
always agree (`SchedulerInvariant`, `SchedulerRuns`), every task commits exactly once and output does not depend
on the schedule (`SchedulerRuns`), a reported deadlock is one (`SchedulerDeadlock`), attempts are bounded
(`SchedulerAttempts`, `SchedulerLimits`), and loss events are what the retry policy says they are (`SchedulerLosses`).
Others say what the handlers mean by what happened before, with no handler in between: which events end a lease, count
a failure or blame an executor (`SchedulerHistory`), why builds fail and tasks are retried (`SchedulerFailures`), when
leases are due and who is backing off (`SchedulerClock`), who is given what (`SchedulerChoices`), and what the
statistics and incidents count (`SchedulerStatistics`).
`TaskGraphBuilding` proves of the graph's constructor what the scheduler takes for granted, and
`OrderedReduction` that reducers see the same sequence whatever the arrival order.

## The others

- `JournalState`, `JournalCommits`, `JournalOutcomes`, `JournalResumes`, `JournalVerification`, `JournalExactness`,
  `RecoveryJournals`, `JournalRuns`: a crash may come between any two effects of any operation, including a resume; rows never point at
  missing bytes, and resume ends in the one state it should. Of the hash this asks only that contents of different
  length committed in one life do not collide; `JournalCollisions` shows that every hash has lives to which it applies
  and that it cannot be dropped.
- `CachePins`, `CacheEviction`: holders, evictors and removers interleave one file-system step at a time; pinned
  blobs stay, and eviction removes the least it can.
- `Frames`, `FrameWire`: the incremental decoder with its cached header does not depend on how bytes arrive, and
  accepts exactly the bytes that are frames.
- `BlockLayout`, `BlockStreams`, `BlockDiagnosis`: the 160-byte little-endian header and the stream parser, both
  directions, and which defect is reported as what.
- `CtcAligner`: the trellis is optimal, back-tracking attains it, and spans are the tokens.
- `AsrReconciliation`, `AsrSeams`, `TokenAlignment`: longest common run in rolling rows, the seam of two chunks, and the
  longest common subsequence by table and back-trace.

## Where the code and its documentation disagree

- The aligner's header promises one span per token (packages/svp-audio/include/svp/audio/ctc_forced_aligner.hpp:41).
  With fewer frames than tokens plus repeated or blank tokens it returns none, without an error. `CtcAligner.Align`
  states both cases; the frame count decides.
- The retry policy says a build fails when a task reaches `max_attempts` failures with no attempt running
  (packages/svp-exec/include/svp/exec/retry_policy.hpp:38-42). With speculative duplicates on, a refusal or a
  quarantine that takes the last attempt requeues such a task instead. `SchedulerDuplicates.DuplicatesEscapeTheLimit`
  is a run in which that happens; `SchedulerLimits.LimitHoldsUnlessEscaped` says of every run that it stays within the
  limit if and only if no event of it is such an escape, and `StepKeepsLimitUnlessEscaping` the same of every event.
- Resume remembers the verdict on a blob by its path alone (packages/svp-exec/src/journal_resume.cpp:102-114), so of
  two rows of one blob with different lengths a wrong one can pass and a right one fail. `JournalVerification.MemoCanErr`
  shows a journal for each. `JournalExactness.ReportIsExactIff`: a resume is right if and only if the rows it checks
  agree about the files they share; `SafeRowsAgree`: rows written by commits always do.
- The size check of a bit-packed mask adds 7 in 64 bits (packages/svp-blocks/src/block_stream.cpp:209) and refuses
  the correct size of a mask within 7 samples of 2^64. `BlockStreams.RoundingCanWrap` shows one;
  `SizeCheckIsExactWithin64Bits`: the check accepts if and only if the size is exact and the rounding does not wrap.
- The frame decoder adds the end of the header and the declared bytes in 64 bits, and no check keeps limits from making
  that wrap (packages/svp-exec/src/frame_decoder.cpp:79-82). `Frames.FrameEndFits` and `FrameEndCanWrap` together: it
  cannot wrap for any codec if and only if the limits allow no header, or no payload byte, or add up within 64 bits, as
  the defaults do. Whether a given JSON header reaches the bound under other limits depends on its text; the theorems
  about the decoder are for every stream that does not.

## Model

| member | source | states |
|---|---|---|
| `SchedulerExecution.SchedulerRun.Execute` | packages/svp-exec/src/scheduler_run.cpp:65-104 | A whole build is a run of the step functions that consists of its turns, one a tick, and nothing besides. It reports success only with every task committed and no lease left, and then the sink has, for exactly the tasks that were not resumed, the whole of what a verified success of the task reported; `no_usable_executor` only where nothing ready can be run by anyone left and nobody is backing off; and it always ends without leases. |
| `SchedulerExecution.SchedulerRun.RunOnce` | packages/svp-exec/src/scheduler_run.cpp:79-101 | One turn of the loop: success if and only if not cancelled, everything complete and nothing leased; otherwise the run grows by exactly the grants of one dispatch round, the inbox in order and the sweep of ended leases, and some lease or back-off is left to wait for. |
| `SchedulerExecution.SchedulerRun.Dispatch` | packages/svp-exec/src/scheduler_dispatch.cpp:7-24 | Leaves no executor that is usable, free and not backing off with a ready task it would take; grants ready tasks executor by executor, each the first in dispatch order, and duplicates only when nothing is ready; grants nothing if no lease is outstanding afterwards. |
| `SchedulerExecution.SchedulerRun.DispatchReady` | packages/svp-exec/src/scheduler_dispatch.cpp:8-20 | Every executor in turn is filled with its first picks until it is full or would take none. |
| `SchedulerExecution.SchedulerRun.FillSlots` | packages/svp-exec/src/scheduler_dispatch.cpp:10-19 | An executor that is not backing off gets first picks of the queue until it is full or would take none of what is ready. |
| `SchedulerExecution.SchedulerRun.PickTask` | packages/svp-exec/src/scheduler_dispatch.cpp:29-41 | Of the ready tasks the executor should take (it accepts the task, and may retry it only when no other usable executor can), the first in dispatch order; None exactly when there is none. |
| `SchedulerExecution.SchedulerRun.HasOtherUsableExecutor` | packages/svp-exec/src/scheduler_dispatch.cpp:43-52 | True exactly when another executor that is not quarantined accepts the task and has not failed it. |
| `SchedulerExecution.SchedulerRun.DispatchSpeculative` | packages/svp-exec/src/scheduler_dispatch.cpp:58-83 | With nothing ready, every idle executor duplicates oldest stragglers until none is left for anyone. |
| `SchedulerExecution.SchedulerRun.DuplicateStragglers` | packages/svp-exec/src/scheduler_dispatch.cpp:64-81 | One executor duplicates stragglers, each time an oldest one, until it is full or has none left, and gives no other executor a new one. |
| `SchedulerExecution.SchedulerRun.OldestStraggler` | packages/svp-exec/src/scheduler_dispatch.cpp:65-79 | Of the leases the executor may duplicate, one granted first; None exactly when there is none. |
| `SchedulerExecution.SchedulerRun.Grant` | packages/svp-exec/src/scheduler_dispatch.cpp:85-117 | A grant dispatch may make moves the lease map, the task, the executor, the queue and the counters together, and adds one step to the run. |
| `SchedulerExecution.SchedulerRun.constructor` | packages/svp-exec/src/scheduler_run.cpp:13-30 | A new run: every task waiting, every executor fresh, lease numbers from 1, nothing queued, complete or committed. |
| `SchedulerExecution.SchedulerRun.ApplyResumed` | packages/svp-exec/src/scheduler_run.cpp:32-63 | Marks resumed results committed one by one in place, with the state or the error of the function `ResumeIsExact` is about. |
| `SchedulerExecution.SchedulerRun.MarkInitiallyReady` | packages/svp-exec/src/scheduler_run.cpp:66-78 | The tasks queued at the start are exactly the waiting ones whose dependencies are all complete. |
| `SchedulerExecution.SchedulerRun.AnyExecutorBackingOff` | packages/svp-exec/src/scheduler_run.cpp:121-132 | True exactly when an executor that is not quarantined is backing off. |
| `SchedulerExecution.SchedulerRun.Apply` | packages/svp-exec/src/scheduler_run.cpp:134-147 | Applies one inbox event, or nothing once the build has failed, and adds that step to the run. |
| `SchedulerExecution.SchedulerRun.OnHeartbeat` | packages/svp-exec/src/scheduler_run.cpp:149-153 | Renews the lease if it is still outstanding; unknown leases change nothing. |
| `SchedulerExecution.SchedulerRun.Release` | packages/svp-exec/src/scheduler_run.cpp:155-161 | Takes the lease out of the lease map, its task and its executor together. |
| `SchedulerExecution.SchedulerRun.OnFinished` | packages/svp-exec/src/scheduler_run.cpp:163-199 | The handler on the live object does exactly the step that `StepKeepsInv`, `SuccessesAgree` and the other theorems are about: invalid results quarantine, verified successes commit or are compared, failures retry or fail the build. |
| `SchedulerExecution.SchedulerRun.OnVerifiedSuccess` | packages/svp-exec/src/scheduler_run.cpp:201-230 | First verified success commits, an equal digest is a discarded duplicate, a different one is an incident that fails the build. |
| `SchedulerExecution.SchedulerRun.Commit` | packages/svp-exec/src/scheduler_run.cpp:232-254 | Unless the sink throws or holds a result of the task, puts the whole output, payloads included, and its executor into the sink and changes nothing else there; then marks the task and its newly unblocked dependents. The refusal of a second result is the commit failure of the step. |
| `SchedulerExecution.SchedulerRun.MarkReadyDependents` | packages/svp-exec/src/scheduler_run.cpp:256-265 | Completing a task moves exactly its waiting dependents with no other incomplete dependency to the queue, from the counters of the ready set; the "completed twice" refusal does not occur. |
| `SchedulerExecution.SchedulerRun.OnFailed` | packages/svp-exec/src/scheduler_run.cpp:267-283 | Releases the lease, quarantines or counts the loss, then retries the task or gives it up. |
| `SchedulerExecution.SchedulerRun.OnRejected` | packages/svp-exec/src/scheduler_run.cpp:288-302 | Releases the lease and starts the back-off; the task goes back to the queue unless it is committed or still running, with no failure counted. |
| `SchedulerExecution.SchedulerRun.ExpireLeases` | packages/svp-exec/src/scheduler_run.cpp:304-328 | The sweep ends only leases past their expiry or deadline, and unless the build failed none such is left. |
| `SchedulerExecution.SchedulerRun.EndLease` | packages/svp-exec/src/scheduler_run.cpp:317-342 | A lease past its deadline or its expiry is counted as the one or the other, then as a loss, then as a failed attempt. |
| `SchedulerExecution.SchedulerRun.AttemptFailed` | packages/svp-exec/src/scheduler_run.cpp:344-367 | Counts the failure and, with nothing of the task running, retries it or fails the build at `max_attempts`. |
| `SchedulerExecution.SchedulerRun.CountExecutorLoss` | packages/svp-exec/src/scheduler_run.cpp:374-390 | The loss of a lease granted after the last counted loss is one more event, and the last allowed one quarantines. |
| `SchedulerExecution.SchedulerRun.NoteExecutorRecovery` | packages/svp-exec/src/scheduler_run.cpp:395-400 | A verified result of a lease granted after the last counted loss clears the count. |
| `SchedulerExecution.SchedulerRun.Quarantine` | packages/svp-exec/src/scheduler_run.cpp:402-432 | The loop that abandons the executor's leases one by one, in whatever order, ends in the closed form used by the theorems. |
| `SchedulerExecution.AbandonStep` | packages/svp-exec/src/scheduler_run.cpp:422-431 | Abandoning one more lease is what the closed form of a quarantine says, so the order of the leases does not matter. |
| `SchedulerExecution.SchedulerRun.FailBuild` | packages/svp-exec/src/scheduler_run.cpp:434-442 | Only the first failure is kept. |
| `SchedulerTurns.TurnTaken` | packages/svp-exec/src/scheduler_run.cpp:79-101 | A dispatch round, the inbox and the sweep, one after the other, are one turn of a run. |
| `SchedulerInvariant.StepKeepsInv` | packages/svp-exec/src/scheduler_run.cpp:134-432 | Every grant and every event keeps the lease map, the tasks' active leases, the slot counts, the queue, the ready set and the sink in agreement, unless it fails the build. |
| `SchedulerInvariant.GrantKeeps` | packages/svp-exec/src/scheduler_dispatch.cpp:85-117 | A grant keeps at most two attempts of a task, on different executors, and no executor over its slots. |
| `SchedulerInvariant.QuarantineKeeps` | packages/svp-exec/src/scheduler_run.cpp:402-432 | Abandoning an executor's leases keeps every view in agreement and leaves the executor with none. |
| `SchedulerInvariant.CommitKeeps` | packages/svp-exec/src/scheduler_run.cpp:232-265 | A commit keeps the views in agreement, the newly unblocked tasks included, and its task was not in the sink before. |
| `SchedulerRuns.InvThroughout` | packages/svp-exec/src/scheduler_run.cpp:65-104 | All views agree at every point of every run that has not failed. |
| `SchedulerRuns.LoopHead` | packages/svp-exec/src/scheduler_run.cpp:79-101 | At every point of every run each task is in exactly one of four places: committed, leased, ready with all dependencies complete, waiting with some incomplete; leases agree, no task has more than two, and `active` counts the leases of the executor and never exceeds its slots. |
| `SchedulerRuns.RunGrows` | packages/svp-exec/src/scheduler_run.cpp:97-100 | Any event, in any order, continues a run; so the theorems about runs cover every inbox. |
| `SchedulerRuns.ExactlyOnce` | packages/svp-exec/src/scheduler_run.cpp:201-254 | In every run the sink ends with exactly the tasks completed since the start; each entered it at one step, as the whole output that step reported for an outstanding lease of the task, a success that passes every check of the gate; a resumed task never does. |
| `SchedulerRuns.CommitFailsOnlyIfSinkThrows` | packages/svp-exec/src/scheduler_run.cpp:232-245 | Unless the sink throws of its own accord, no build fails to commit: "committed twice" is unreachable. |
| `SchedulerRuns.SuccessesAgree` | packages/svp-exec/src/scheduler_run.cpp:201-230 | While a build has not failed, every verified success of a task carried the committed digest. |
| `SchedulerRuns.SuccessIsComplete` | packages/svp-exec/src/scheduler_run.cpp:84-87 | A succeeded build has every task done, each in the sink if and only if it was not resumed, and nothing in flight. |
| `SchedulerRuns.ScheduleIndependence` | packages/svp-exec/src/scheduler_run.cpp:201-254 | If outputs of a task agree wherever they are produced, two succeeded builds of one graph commit the same digests, whatever their executors, slots, policies, event orders, losses and resumed tasks. |
| `CommitSinks.InMemorySink.Commit` | packages/svp-exec/src/in_memory_result_commit_sink.cpp:6-12 | A first result of a task is stored; a second one is refused and changes nothing. |
| `SchedulerResume.ResumeIsExact` | packages/svp-exec/src/scheduler_run.cpp:32-63 | Resuming succeeds exactly when the results are verified successes of distinct tasks, and then exactly those tasks are complete, with the attempt, executor and digest of their results. |
| `SchedulerResume.RefusalMeans` | packages/svp-exec/src/scheduler_run.cpp:32-63 | A resumed result is refused as unknown, resumed twice, invalid or not a success exactly when its task is not in the graph, was resumed before, the result does not verify, or it is of a failure, in that order. |
| `SchedulerResume.UnknownTaskIsRefused` | packages/svp-exec/src/scheduler_run.cpp:36-40 | A resumed result of a task the graph does not have is refused. |
| `SchedulerResume.ApplyResumedPrefix` | packages/svp-exec/src/scheduler_run.cpp:32-63 | The first bad result decides the error, whatever follows it. |
| `SchedulerDeadlock.NoFalseDeadlock` | packages/svp-exec/src/scheduler_run.cpp:88-96 | When `no_usable_executor` is reported, some task is ready and no executor that is not quarantined accepts any ready task. |
| `SchedulerDeadlock.DeadlockIsReal` | packages/svp-exec/src/scheduler_run.cpp:88-96 | In such a state no grant is possible and no event changes anything, now or later. |
| `SchedulerDeadlock.UnblockedTaskExists` | packages/svp-exec/src/scheduler_run.cpp:88-96 | For want of a cycle, with work left some incomplete task has all its dependencies complete. |
| `SchedulerDeadlock.SomeoneWouldPick` | packages/svp-exec/src/scheduler_dispatch.cpp:29-52 | Leaving a failed task to other executors never leaves it to nobody: if anyone usable accepts it, someone would take it. |
| `SchedulerAttempts.BoundedAttempts` | packages/svp-exec/src/scheduler_run.cpp:344-367 | Without speculative duplicates, an uncommitted task of a build that has not failed has failed fewer than `max_attempts` times, and no task is started more often than that plus one for each quarantined executor and each refusal of it. |
| `SchedulerAttempts.GrantsAreBounded` | packages/svp-exec/src/scheduler_run.cpp:344-432 | Without duplicates a run has at most the sum of all `max_attempts`, plus tasks times executors, plus refusals, many grants. |
| `SchedulerLimits.StepKeepsLimitUnlessEscaping` | packages/svp-exec/src/scheduler_run.cpp:134-432 | From any state within the documented limit (a task with nothing running has failed fewer than `max_attempts` times) every event that does not fail the build keeps it if and only if the event is no escape: it neither rejects the only attempt of a task whose failures are used up, nor newly quarantines an executor that holds all other attempts of such a task. |
| `SchedulerLimits.LimitHoldsUnlessEscaped` | packages/svp-exec/src/scheduler_run.cpp:65-432 | A run is within the limit at every point if and only if none of its events escapes it. |
| `SchedulerLimits.OnlyDuplicatesEscape` | packages/svp-exec/src/scheduler_dispatch.cpp:58-83 | Without speculative duplicates no event of any run escapes the limit. |
| `SchedulerLimits.RejectionKeepsLimitUnless` | packages/svp-exec/src/scheduler_run.cpp:288-302 | A refusal keeps the limit for each task if and only if it does not take the last attempt of a task whose failures are used up. |
| `SchedulerLimits.QuarantineKeepsLimitUnless` | packages/svp-exec/src/scheduler_run.cpp:402-432 | A quarantine keeps the limit for a task that was within it if and only if it does not abandon all attempts of that task with its failures used up. |
| `SchedulerFailures.StepOnFailure` | packages/svp-exec/src/scheduler_run.cpp:163-367 | Every event fails the build exactly for one of four causes and the task it is about: a verified failure not to be retried, the last failure the policy allows with no other attempt in flight, a success that contradicts the committed one, a sink that throws; any other last failed attempt puts its task back into the queue. |
| `SchedulerFailures.RunFailsExactly` | packages/svp-exec/src/scheduler_run.cpp:134-442 | A run fails for a reason and a task if and only if one of its events is such a cause. |
| `SchedulerFailures.ExhaustedMeansFailed` | packages/svp-exec/src/scheduler_run.cpp:344-367 | A build that gives up on retries has had that task fail `max_attempts` times. |
| `SchedulerFailures.AttemptsAreCounted` | packages/svp-exec/src/scheduler_run.cpp:344-367 | At every point of every run a task's counters are the number of attempts started and of those that failed: lost, not verified, late, or reported as failed and retryable. |
| `SchedulerFailures.AvoidedIsBlamed` | packages/svp-exec/src/scheduler_run.cpp:344-432 | A task avoids exactly the executors that failed an attempt of it or were quarantined while they ran one. |
| `SchedulerHistory.StepOnLeases` | packages/svp-exec/src/scheduler_run.cpp:134-432 | A lease stays outstanding through an event unless the event ends it or its executor is newly quarantined; only a grant adds one, and only a heartbeat changes one, its expiry. |
| `SchedulerHistory.StepOnQuarantine` | packages/svp-exec/src/scheduler_run.cpp:374-412 | Only a failed attempt quarantines, and only its own executor. |
| `SchedulerClock.LeaseTimes` | packages/svp-exec/src/scheduler_run.cpp:149-153 | At every point of every run each outstanding lease is the one its grant made, numbered by the attempts before, expires its task's lease length after its grant or latest heartbeat, and has its deadline the attempt limit after its grant. |
| `SchedulerClock.EndedIfOverdue` | packages/svp-exec/src/scheduler_run.cpp:304-342 | Coming to the end of its time takes a lease away if and only if no grant or heartbeat of it came within its length before, or its grant is as old as the attempt limit. |
| `SchedulerClock.SweepIsExact` | packages/svp-exec/src/scheduler_run.cpp:304-328 | A sweep ends only leases that are overdue by that history, and leaves none unless the build fails. |
| `SchedulerClock.BackoffIs` | packages/svp-exec/src/scheduler_run.cpp:288-302 | An executor backs off the configured time after the last lease it refused, unless it returned a result since. |
| `SchedulerChoices.GrantsAreRight` | packages/svp-exec/src/scheduler_dispatch.cpp:7-117 | In every run a task is granted only while it is incomplete, unblocked and not in flight, to an executor that is not quarantined, has a slot no lease takes, is not backing off, and accepts it; one blamed for the task gets it only if nobody else is left who is not; a duplicate only of the one attempt of a task elsewhere. |
| `SchedulerChoices.DispatchPrefers` | packages/svp-exec/src/scheduler_dispatch.cpp:26-83 | Dispatch gives an executor, of all tasks it may run, the one with the longest critical path, then the least order key; it duplicates attempts, oldest first, only when no task is left unstarted. |
| `SchedulerChoices.DispatchLeavesNothing` | packages/svp-exec/src/scheduler_dispatch.cpp:7-24 | After a round no available executor may run an unstarted task, and with duplicates on and nothing unstarted none has a straggler left. |
| `SchedulerChoices.BackingOffMeans` | packages/svp-exec/src/scheduler_run.cpp:121-132 | Somebody is said to back off exactly when an executor that is not quarantined refused a lease, returned nothing since, and its time is not over. |
| `SchedulerStatistics.StatisticsCount` | packages/svp-exec/src/scheduler_run.cpp:134-442 | At every point of every run each counter of the statistics is the number of events of its kind: commits, attempts, duplicates, retries, expired leases, deadlines, invalid results, refusals, discarded duplicates. |
| `SchedulerStatistics.IncidentsAreConflicts` | packages/svp-exec/src/scheduler_run.cpp:201-230 | An incident is recorded exactly when a verified success contradicts the committed result; it names both, and the build has failed for it. |
| `SchedulerStatistics.QuarantinedAreListed` | packages/svp-exec/src/scheduler_run.cpp:402-412 | The statistics list exactly the quarantined executors, each once. |
| `SchedulerDuplicates.DuplicatesEscapeTheLimit` | packages/svp-exec/src/scheduler_run.cpp:288-302 | A run with speculative duplicates in which a task that has failed `max_attempts` times is ready for another attempt. |
| `SchedulerLosses.OutageCountsOnce` | packages/svp-exec/src/scheduler_run.cpp:374-390 | Losing any number of leases that were outstanding together, in any order, adds at most one loss event. |
| `SchedulerLosses.LossEventsAreChain` | packages/svp-exec/src/scheduler_run.cpp:374-400 | Exactly one history recounts the losses of an executor: losses each of a lease granted after the loss before, with every other lost lease outstanding at one of them, cut where a verified result of a later lease last cleared the count and nowhere after; the count of consecutive loss events is what it says. For the policy `never` nothing is counted. |
| `SchedulerLosses.NeverMeansNever` | packages/svp-exec/src/scheduler_run.cpp:374-412 | An executor whose policy is `never` is quarantined if and only if it returned an invalid result. |
| `SchedulerLosses.QuarantinedExactly` | packages/svp-exec/src/scheduler_run.cpp:374-412 | An executor is quarantined if and only if it returned an invalid result or, unless its policy is `never`, the history of its losses reached the limit at some point. |
| `SchedulerLosses.HistoryIsUnique` | packages/svp-exec/src/scheduler_run.cpp:374-400 | No two different histories recount the losses of one executor, so none is missed and none counted twice. |
| `SchedulerLosses.StepLosses` | packages/svp-exec/src/scheduler_run.cpp:163-432 | All handlers together keep the loss records as a description by leases alone says. |
| `ResultVerification.GateIsExact` | packages/svp-exec/src/result_verification.cpp:7-39 | The gate passes exactly the results whose fields all agree, for this task and attempt, with a payload of its length and digest for each output; of the rest it says what is wrong first, down to the first bad payload. |
| `ResultVerification.VerdictIsExact` | packages/svp-exec/src/scheduler_run.cpp:163-199 | An output that does not verify is invalid; one that does is a success, a failure to be retried exactly if its error says so, or a permanent failure. |
| `ResultVerification.EqualDigestsEqualPayloads` | packages/svp-exec/src/result_verification.cpp:12-39 | Two verified results of a task with one output digest have the same payload bytes, unless two different contents or artifact lists of these very results share a digest. |
| `ReadySets.ReadySet.Complete` | packages/svp-exec/src/ready_set.cpp:26-42 | The counters give exactly the dependents whose last incomplete dependency was this task, in ascending order; a second completion is refused and changes nothing. |
| `ReadySets.CountDown` | packages/svp-exec/src/ready_set.cpp:35-39 | Takes one off the count of each dependent and lists exactly those that reach zero. |
| `ReadySets.PendingZero` | packages/svp-exec/src/ready_set.cpp:7-14 | A count of zero means that every dependency is complete. |
| `ReadyQueues.ReadyQueue.Add` | packages/svp-exec/src/ready_queue.hpp:18-35 | Inserting keeps the queue in dispatch order and adds just that task. |
| `ReadyQueues.ReadyQueue.Erase` | packages/svp-exec/src/ready_queue.hpp:19-35 | Erasing keeps the order and removes just that task. |
| `ReadyQueues.OrderIsLinear` | packages/svp-exec/src/ready_queue.hpp:25-35 | Longest critical path first, then order key, is a total order of the tasks. |
| `ReadyQueues.BeforeMeans` | packages/svp-exec/src/ready_queue.hpp:25-36 | Dispatch order is: the longer critical path first; of equal ones the lane and then the ordinals decide where they first part. |
| `ReadyQueues.SameContentsSameOrder` | packages/svp-exec/src/ready_queue.hpp:14-37 | The dispatch order does not depend on when tasks became ready. |
| `OrderedReduction.ResultsInCanonicalOrder` | packages/svp-exec/src/ordered_reduction.cpp:10-48 | Refused exactly when a result is of no task, a task has two, or a task of the lane has none, with the first such fault as the error; otherwise the lane's results by order key. |
| `OrderedReduction.ArrivalOrderIsUnobservable` | packages/svp-exec/src/ordered_reduction.cpp:10-48 | A permutation of the results is refused if and only if the results are, and otherwise gives the same sequence. |
| `OrderedReduction.SameLaneSequence` | packages/svp-exec/src/ordered_reduction.cpp:10-48 | Results that agree on each task's digest give sequences that agree task by task, digest by digest. |
| `TaskGraphBuilding.Build` | packages/svp-exec/src/task_graph.cpp:85-146 | Succeeds exactly when dependency lists ascend, ids and order keys are unique, dependencies are known and there is no cycle; the graph is then valid, with those edges and longest-path priorities; every refusal names what is wrong first in the order of the checks, node by node for the identities. |
| `TaskGraphBuilding.TopologicalOrder` | packages/svp-exec/src/task_graph.cpp:111-135 | Kahn's algorithm lists tasks after their dependencies, and lists all of them if and only if there is no cycle. |
| `TaskGraphBuilding.CriticalPathIsLongest` | packages/svp-exec/src/task_graph.cpp:137-145 | A critical path is the most seconds, saturating, along any path of dependents, and some path attains it. |
| `TaskGraphBuilding.CriticalPaths` | packages/svp-exec/src/task_graph.cpp:137-145 | The pass from the back of the order gives each task its estimate plus the longest of its dependents'. |
| `TaskGraphBuilding.BuiltIsValid` | packages/svp-exec/src/task_graph.cpp:96-109 | Forward and reverse edges are exact inverses without repeats, and there is no cycle. |
| `CtcAligner.Align` | packages/svp-audio/src/ctc_forced_aligner.cpp:139-238 | A phone outside the vocabulary is refused; otherwise the spans are the runs of a best path and name every token once, in order, if and only if there are frames enough; with fewer there is no path and no span. |
| `CtcAligner.TrellisIsBest` | packages/svp-audio/src/ctc_forced_aligner.cpp:179-202 | Each trellis cell is the best score over all legal paths to its state at its frame, and is unreachable exactly when there is none. |
| `CtcAligner.BestPathIsOptimal` | packages/svp-audio/src/ctc_forced_aligner.cpp:204-219 | Whenever a complete path exists, the back-tracked path is complete and none scores higher. |
| `CtcAligner.BestPathIsLatest` | packages/svp-audio/src/ctc_forced_aligner.cpp:184-219 | Of several best paths the back-tracked one is furthest on at the last frame where it differs from another. |
| `CtcAligner.ScoresMean` | packages/svp-audio/src/ctc_forced_aligner.cpp:156-161 | Each token's state is scored as the token, every state between as the blank. |
| `CtcAligner.FillTrellis` | packages/svp-audio/src/ctc_forced_aligner.cpp:179-202 | The loops fill every cell of the trellis and of the back-pointers with its specified value. |
| `CtcAligner.Backtrack` | packages/svp-audio/src/ctc_forced_aligner.cpp:204-219 | The loop from the last frame gives exactly the specified path. |
| `CtcAligner.Spans` | packages/svp-audio/src/ctc_forced_aligner.cpp:221-237 | The spans are the maximal runs of token frames, of positive length, in order, none overlapping, and cover every token frame. |
| `CtcAligner.AsManySpansAsTokens` | packages/svp-audio/src/ctc_forced_aligner.cpp:221-237 | On a complete path span `i` is of token `i` and there are as many spans as tokens. |
| `CtcAligner.ReachableFrom` | packages/svp-audio/src/ctc_forced_aligner.cpp:184-202 | A state is reachable at a frame exactly from its earliest frame on. |
| `CtcAligner.EarliestIsTokensPlusRepeats` | packages/svp-audio/src/ctc_forced_aligner.cpp:192-194 | The earliest frame of a token is its position plus the repeated or blank tokens up to it. |
| `CtcAligner.AlignmentIsBest` | packages/svp-audio/src/ctc_forced_aligner.cpp:204-237 | The exact frame count at which spans appear, and that they belong to a best path. |
| `JournalRuns.AlwaysSafe` | packages/svp-exec/src/journal_tasks.cpp:143-192 | At every point of every life of a journal, with a crash allowed between any two effects, every artifact row names a completed blob of its digest and length and belongs to a committed task; asked of the hash is only that no two contents this life commits have one digest and different lengths. |
| `JournalRuns.CommittedWithAllRows` | packages/svp-exec/src/journal_tasks.cpp:133-193 | At every point of every life, a committed task has the output digest and a row for every artifact of some commit of it. |
| `JournalRuns.ResumeLosesNothing` | packages/svp-exec/src/journal_resume.cpp:140-176 | In such a life, unless something else touches the disk, a resume never demotes a task. |
| `JournalCollisions.SomethingCanBeCommitted` | packages/svp-exec/src/journal_tasks.cpp:133-193 | Whatever the hash, any bytes can be committed in a life that meets the hypotheses of the theorems: its task is committed, its row stored, its disk safe. |
| `JournalCollisions.CollisionsBreakSafety` | packages/svp-exec/src/journal_artifact_store.cpp:54-73 | Two contents of different length with one digest can be committed so that a row no longer names a blob of its length: the hypothesis is needed. |
| `JournalRuns.LifeDrawsFrom` | packages/svp-exec/src/journal_artifact_store.cpp:36-73 | At every point of every life, whatever is on the disk was handed to some commit of it. |
| `JournalCommits.CommitIsCrashSafe` | packages/svp-exec/src/journal_tasks.cpp:133-193 | Wherever a crash interrupts a commit the journal is safe, and the end state is all or nothing in the tables, if the files present and the artifacts committed do not collide in digest with different lengths. |
| `JournalCommits.PublishedIsValid` | packages/svp-exec/src/journal_artifact_store.cpp:54-73 | After publishing, each artifact of the commit is a valid completed blob, content shared between artifacts included. |
| `JournalOutcomes.CommitEnds` | packages/svp-exec/src/journal_tasks.cpp:133-193 | An uninterrupted commit that is accepted leaves its task committed with its output, exactly its rows added, every artifact a good file under its digest; otherwise the tables are as they were; either way files of other digests are untouched and nothing of it is left pending. |
| `RecoveryJournals.CommitMeans` | packages/svp-exec/src/journal_tasks.cpp:133-148 | A commit is accepted exactly if the task has its result, artifact ids are names that differ and are not in use, and each artifact hashes to its digest; otherwise the first thing wrong is reported. |
| `RecoveryJournals.RecoveryJournal.CommitTask` | packages/svp-exec/src/journal_tasks.cpp:133-193 | Performs exactly the effects of a commit, in order: blobs staged, published, then one transaction; each error is reported from the state before. |
| `RecoveryJournals.RecoveryJournal.Stage` | packages/svp-exec/src/journal_artifact_store.cpp:36-52 | Stages every artifact, or discards everything staged at the first that does not hash to its digest. |
| `RecoveryJournals.RecoveryJournal.PublishAll` | packages/svp-exec/src/journal_artifact_store.cpp:54-73 | Renames staged blobs into place one by one, sharing content already completed. |
| `RecoveryJournals.RecoveryJournal.RecordTask` | packages/svp-exec/src/journal_tasks.cpp:62-92 | Inserts a planned task in one transaction; malformed, existing or repeated names change nothing. |
| `RecoveryJournals.RecordMeans` | packages/svp-exec/src/journal_tasks.cpp:62-92 | A task is recorded exactly if all ids are names, it is new and no dependency is repeated; each error exactly for its fault. |
| `RecoveryJournals.RecoveryJournal.SetTaskState` | packages/svp-exec/src/journal_tasks.cpp:94-117 | Moves a task along an allowed edge, never to committed; anything else changes nothing. |
| `RecoveryJournals.SetStateMeans` | packages/svp-exec/src/task_state.cpp:23-40 | A state is set exactly if the task is known, its state is one, and the edge is among the fifteen that are not a commit; each error exactly for its fault. |
| `RecoveryJournals.RecoveryJournal.Resume` | packages/svp-exec/src/journal_resume.cpp:279-299 | Refused exactly when the sources differ, and then nothing changes; otherwise performs exactly the effects of a resume, in order, demoting the tasks and giving the report that `JournalVerification` specifies for any tables; when rows that share a file measure it alike, these are exactly the committed tasks that do not verify, each with its first failing artifact. |
| `RecoveryJournals.RecoveryJournal.VerifyCommittedTasks` | packages/svp-exec/src/journal_resume.cpp:140-176 | On any tables demotes, in the working tables, exactly the tasks of the specified report; when rows that share a file measure it alike, exactly the committed tasks without output digest or with an artifact that does not verify. |
| `RecoveryJournals.RecoveryJournal.CheckTask` | packages/svp-exec/src/journal_resume.cpp:155-169 | Gives the specified verdict for any memo; with a faithful one a task fails exactly when it has no output digest or some artifact fails its check, and the report names the first failing artifact. |
| `RecoveryJournals.RecoveryJournal.VerifySources` | packages/svp-exec/src/journal_resume.cpp:23-54 | Accepts exactly sources that match the recorded ones one for one in id, size and digest. |
| `RecoveryJournals.RecoveryJournal.DiscardPending` | packages/svp-exec/src/journal_resume.cpp:57-70 | Removes every pending file and nothing else. |
| `RecoveryJournals.RecoveryJournal.ResetIncompleteTasks` | packages/svp-exec/src/journal_resume.cpp:208-259 | Every task not committed becomes ready or planned by whether its dependencies are committed. |
| `RecoveryJournals.RecoveryJournal.DiscardUnreferencedCompleted` | packages/svp-exec/src/journal_resume.cpp:180-204 | Removes exactly the completed files that no row references. |
| `RecoveryJournals.ResumeEnds` | packages/svp-exec/src/journal_resume.cpp:279-299 | An undisturbed resume ends with nothing pending, the resumed tables and exactly the referenced files, in whatever order directories are listed. |
| `RecoveryJournals.ResumeIsCrashSafe` | packages/svp-exec/src/journal_resume.cpp:279-299 | Wherever a crash interrupts a resume the journal is safe. |
| `JournalResumes.ResumedExactly` | packages/svp-exec/src/journal_resume.cpp:122-138 | With every demotion right, committed tasks are exactly the verifying ones; the others are ready if and only if all dependencies are committed; demoted tasks keep no output and no rows, other rows stay. |
| `JournalResumes.CompletedIsReferenced` | packages/svp-exec/src/journal_resume.cpp:180-204 | After a resume every row verifies and the completed directory is exactly the referenced blobs. |
| `JournalResumes.ResumeIsIdempotent` | packages/svp-exec/src/journal_resume.cpp:279-299 | A second resume demotes nothing, changes no row and removes no file. |
| `JournalResumes.SafeKeepsEverything` | packages/svp-exec/src/journal_resume.cpp:140-176 | On a journal only its own operations touched, every committed task verifies. |
| `JournalResumes.RowMeans` | packages/svp-exec/src/journal_resume.cpp:72-115 | Each reason for demotion exactly for its fault: a row that names no completed blob, then a blob missing, no regular file, of another length, of another digest; none exactly for a good file. |
| `JournalResumes.SharedPathVerdict` | packages/svp-exec/src/journal_resume.cpp:95-115 | The remembered verdict of a path is right for a second row if and only if both rows state the file's length, or neither does, or there is no regular file. |
| `JournalResumes.MemoIsRightIffRowsAgree` | packages/svp-exec/src/journal_resume.cpp:95-115 | The memo is right for every pair of rows of the tables if and only if rows that share a file measure it alike. |
| `JournalVerification.MemoCanErr` | packages/svp-exec/src/journal_resume.cpp:102-171 | A journal disk on which resume keeps a committed task whose blob does not have the recorded length, and one on which it demotes a task whose blob is as recorded. |
| `JournalVerification.ReportIsRight` | packages/svp-exec/src/journal_resume.cpp:140-176 | The report names committed tasks in order, each with its cause; on tables whose rows measure shared files alike exactly those that do not verify, which is sufficient but not necessary. |
| `JournalExactness.ReportIsExactIff` | packages/svp-exec/src/journal_resume.cpp:95-176 | A resume demotes exactly the committed tasks that do not verify, each reported with the first of its artifacts that fails and why, if and only if, of the rows it checks, those that share a file measure it alike. |
| `JournalExactness.TasksRightIffAgree` | packages/svp-exec/src/journal_resume.cpp:95-115 | All verdicts given in the course of a resume are those of checks of their own if and only if the rows checked agree in that way. |
| `JournalVerification.TwoTasksFail` | packages/svp-exec/src/journal_resume.cpp:95-171 | Of two tasks with one artifact each the first is demoted by its own check, the second by whatever was remembered of the first. |
| `JournalResumes.RememberIsFaithful` | packages/svp-exec/src/journal_resume.cpp:95-115 | Remembering one more verdict keeps every answer right on such tables. |
| `Frames.FrameDecoder.NextFrame` | packages/svp-exec/src/frame_decoder.cpp:40-110 | With or without a cached header, the next frame, the need for more or the refusal is what parsing the buffer from its start says, for every buffer whose header puts the end of its frame within 64 bits. |
| `Frames.FrameDecoder.Feed` | packages/svp-exec/src/frame_decoder.cpp:35-38 | Appends to the buffer and keeps the cached header right; a decoder that refused its stream takes nothing. |
| `Frames.FrameDecoder.Finish` | packages/svp-exec/src/frame_decoder.cpp:112-120 | Truncated exactly when bytes are left. |
| `Frames.DecodeStream` | packages/svp-exec/src/frame_decoder.cpp:35-120 | For every way of cutting a stream into chunks, the frames and the verdict are those of the whole stream, if the ends of its frames are within 64 bits. |
| `Frames.DrainInTwo` | packages/svp-exec/src/frame_decoder.cpp:50-110 | Draining before more bytes arrive loses and changes nothing. |
| `Frames.RefusedForGood` | packages/svp-exec/src/frame_decoder.cpp:28-48 | Once refused, no later chunk changes the frames or the error. |
| `Frames.ParseStays` | packages/svp-exec/src/frame_decoder.cpp:50-110 | A verdict on a buffer survives more bytes. |
| `Frames.DecodeFrame` | packages/svp-exec/src/frame_decoder.cpp:126-139 | A single-frame buffer is decoded exactly when it is one frame and nothing more, for every buffer whose frame ends within 64 bits. |
| `FrameWire.AcceptsExactly` | packages/svp-exec/src/frame_decoder.cpp:40-110 | A frame is taken out of a buffer exactly when the buffer starts with its length, a header text that reads as its header, and its payloads, each of the length and the digest the header declares and all within the limits. |
| `FrameWire.RefusesCorrupt` | packages/svp-exec/src/frame_decoder.cpp:84-104 | A hash mismatch is reported exactly when all declared bytes are there and some payload has another digest than declared. |
| `FrameWire.RefusesHeader` | packages/svp-exec/src/frame_decoder.cpp:50-76 | Each other refusal exactly for its fault: length zero, length over the limit, a text that does not read, payloads declared that no payloads within the limits could have. |
| `FrameWire.EndsCleanly` | packages/svp-exec/src/frame_decoder.cpp:35-120 | A stream ends without an error exactly when it is frames and nothing else, and gives exactly those. |
| `Frames.EncodeFrame` | packages/svp-exec/src/frame_encoder.cpp:18-38 | The encoder produces exactly the specified bytes or the specified error. |
| `FrameWire.EncodesExactly` | packages/svp-exec/src/frame_encoder.cpp:18-38 | Encoding succeeds exactly for an object body, payloads within the limits and a header text within its own, each failure for its own reason; the bytes are the big-endian length of the text, the text, and the payloads. |
| `Frames.EncodeThenParse` | packages/svp-exec/src/frame_encoder.cpp:18-38 | Encoding then decoding gives the frame back and consumes exactly its bytes, whatever follows. |
| `Frames.StreamRoundTrips` | packages/svp-exec/src/frame_encoder.cpp:18-38 | A concatenation of encoded frames decodes to exactly those frames with nothing left over. |
| `Frames.CheckPayloadLimits` | packages/svp-exec/src/frame_header.cpp:25-46 | True exactly when every payload and their sum are within the limits; the 64-bit running total cannot wrap. |
| `Frames.FrameEndFits` | packages/svp-exec/src/frame_decoder.cpp:79-82 | Under limits that allow no header, or no payload byte, or add up with the prefix within 64 bits, the ends of all frames of every stream are within 64 bits, whatever the codec. |
| `Frames.FrameEndCanWrap` | packages/svp-exec/src/frame_decoder.cpp:79-82 | Under any other limits some round-tripping codec reads, from some buffer, a header within the limits whose frame ends beyond 64 bits. |
| `Frames.EndsFitInTwo` | packages/svp-exec/src/frame_decoder.cpp:79-110 | If the ends fit in a whole stream they fit in what has arrived of it and in what is left over together with the rest. |
| `Frames.U32RoundTrips` | packages/svp-exec/src/frame_encoder.cpp:10-14 | Four big-endian bytes give the length back. |
| `AsrReconciliation.LongestContiguousMatch` | packages/svp-audio/src/asr_chunk_reconciliation.cpp:32-58 | The rolling rows find a longest common run of non-empty tokens; of those the one that ends last in the current chunk, then the first in the prior one; or the empty match. |
| `AsrReconciliation.BestIsUnique` | packages/svp-audio/src/asr_chunk_reconciliation.cpp:45-52 | Only one match is best in that sense. |
| `AsrReconciliation.ReconcileOverlappingChunks` | packages/svp-audio/src/asr_chunk_reconciliation.cpp:76-165 | Refused exactly when the list sizes differ; otherwise each chunk is joined as specified, in order. |
| `AsrReconciliation.TranscriptIsSound` | packages/svp-audio/src/asr_chunk_reconciliation.cpp:84-164 | If each chunk's words are in order, the transcript has positive-length words that never overlap, chunk ordinals that never fall, and is a subsequence of all words in which only ends were shortened. |
| `AsrReconciliation.JoinKeepsOrder` | packages/svp-audio/src/asr_chunk_reconciliation.cpp:118-162 | Cutting at the seam and appending keeps words in order. |
| `AsrReconciliation.JoinKeepsOrdinals` | packages/svp-audio/src/asr_chunk_reconciliation.cpp:118-162 | Chunk ordinals keep rising across the seam. |
| `AsrReconciliation.JoinKeepsTrace` | packages/svp-audio/src/asr_chunk_reconciliation.cpp:152-162 | Every word after the join is a word before it or of the chunk, its end at most shortened. |
| `AsrReconciliation.GapsJoinUnchanged` | packages/svp-audio/src/asr_chunk_reconciliation.cpp:138-162 | Chunks that do not overlap in time and share no anchor are concatenated unchanged. |
| `AsrReconciliation.AddChunk` | packages/svp-audio/src/asr_chunk_reconciliation.cpp:87-162 | One pass of the loop joins its chunk as specified, adjacent predecessor or not. |
| `AsrReconciliation.MatchOverlap` | packages/svp-audio/src/asr_chunk_reconciliation.cpp:98-117 | The match is between the predecessor's words at the tail and the chunk's words that start in the overlap. |
| `AsrReconciliation.CutAt` | packages/svp-audio/src/asr_chunk_reconciliation.cpp:152-159 | Drops words from the seam on and trims the last one left to end there. |
| `AsrSeams.TranscriptIsJoined` | packages/svp-audio/src/asr_chunk_reconciliation.cpp:84-164 | Every chunk in order is joined so: after a common run of four tokens or more with the predecessor's tail it takes over right behind the run, and the transcript keeps its words up to its own copy if the two overlap in time; otherwise it takes over at its first word not before the transcript's end; kept are exactly the words that start before the seam, ended there at the latest. |
| `AsrSeams.ContinuationIsKept` | packages/svp-audio/src/asr_chunk_reconciliation.cpp:118-162 | Every word of a chunk that starts neither in the overlap nor before the transcript so far has ended is in the next transcript unchanged, with all that follow it. |
| `AsrSeams.TimedMeans` | packages/svp-audio/src/asr_chunk_reconciliation.cpp:60-72 | Exactly the words of positive length take part, in order, shifted by the start of their chunk. |
| `AsrSeams.NormalizedMeans` | packages/svp-audio/src/asr_chunk_reconciliation.cpp:16-24 | Tokens are compared by their letters and digits alone, whatever their case. |
| `TokenAlignment.LcsTokens` | packages/svp-audio/src/microphone_word_ownership.cpp:49-81 | A common subsequence of both lists, the one the back-trace specifies, and none is longer. |
| `TokenAlignment.LengthBounds` | packages/svp-audio/src/microphone_word_ownership.cpp:51-62 | No common subsequence of two prefixes is longer than their table cell. |
| `TokenAlignment.TraceIsCommon` | packages/svp-audio/src/microphone_word_ownership.cpp:64-79 | The back-trace from a cell is a common subsequence of both prefixes of exactly the cell's length. |
| `TokenAlignment.TracePrefers` | packages/svp-audio/src/microphone_word_ownership.cpp:64-79 | Of several longest common subsequences: equal last tokens are taken; else the last token of the left list is dropped wherever that costs nothing, and otherwise that of the right. |
| `CachePins.PinnedBlobsStay` | packages/svp-exec/src/cas_pin.cpp:128-150 | Over all interleavings of holders, evictors, removers and crashes, a blob that `add` reported pinned is there as long as its holder lives. |
| `CachePins.RemovalsSpareThePinned` | packages/svp-exec/src/cas_pin.cpp:66-111 | No evictor or remover is ever about to remove a digest some live holder has listed. |
| `CachePins.HoldersAreDistinct` | packages/svp-exec/src/cas_store.cpp:228-248 | No two live holders share an id. |
| `CachePins.StepKeepsInv` | packages/svp-exec/src/cas_pin.cpp:56-150 | Every single file-system step of every process, and every crash, keeps the protocol's invariant. |
| `CachePins.ConfirmedStays` | packages/svp-exec/src/cas_pin.cpp:128-150 | A pin once confirmed is not lost while its holder lives. |
| `CachePins.PinnedWasRead` | packages/svp-exec/src/cas_pin.cpp:66-111 | Eviction spares nothing else: whatever an evictor takes for pinned it read on the list of a holder whose lock it had found taken. |
| `CachePins.AddingListsAndConfirms` | packages/svp-exec/src/cas_pin.cpp:128-150 | Adding a pin lists the digest, and confirms it if and only if the blob is there when it looks. |
| `CachePins.OpeningSucceeds` | packages/svp-exec/src/cas_store.cpp:228-248 | A holder that finds its lock file free and in place is live two steps later. |
| `CachePins.DeadHolderIsReaped` | packages/svp-exec/src/cas_pin.cpp:83-98 | An evictor that probes the lock file of a holder that is gone deletes its list and its lock file, and nothing else. |
| `CacheEviction.CasStore.Evict` | packages/svp-exec/src/cas_eviction.cpp:57-91 | Deletes exactly the first unpinned blobs in order of last use that bring the total within the limit, no more than needed, or all unpinned ones, so that no blob goes that was used later than one that could go and stays; removals that fail leave their blob and count for nothing; the bytes reported as evicted and remaining are those deleted and those of the blobs still in the store, and the pinned blobs counted are those met before it stopped. |
| `CacheEviction.LeastIsUnique` | packages/svp-exec/src/cas_eviction.cpp:75-89 | Only one number of removals is the least. |
| `CacheEviction.StopIsUnique` | packages/svp-exec/src/cas_eviction.cpp:75-89 | There is only one point in the list where eviction stops. |
| `CacheEviction.ListedBytes` | packages/svp-exec/src/cas_eviction.cpp:62-70 | The total over the listed blobs is the bytes of the store. |
| `CacheEviction.AboveLimitOnlyIfKept` | packages/svp-exec/src/cas_eviction.cpp:75-90 | What is left exceeds the limit only when it is exactly the blobs that are pinned or could not be removed. |
| `CacheEviction.CasStore.RemoveUnpinned` | packages/svp-exec/src/cas_release.cpp:21-35 | Says exactly whether the blob is pinned, absent, impossible to remove or removed; only then does the store change, by exactly that blob and its bytes. |
| `BlockStreams.StreamRoundTrips` | packages/svp-blocks/src/block_stream.cpp:431-500 | A stream of written blocks parses without an issue, to the last byte, into headers equal field by field, at exactly the offsets the writer reported. |
| `BlockStreams.AcceptsExactly` | packages/svp-blocks/src/block_stream.cpp:431-500 | The parser reports no issue exactly for streams that are valid blocks end to end. |
| `BlockStreams.BlockCheckIsExact` | packages/svp-blocks/src/block_stream.cpp:219-427 | A header and payload draw no issue exactly when they are a valid block. |
| `BlockStreams.HeaderCheckIsExact` | packages/svp-blocks/src/block_stream.cpp:219-318 | A header draws no issue exactly when its fixed fields are right, its content is valid in plain arithmetic, and rounding its mask stays within 64 bits. |
| `BlockStreams.SizeCheckIsExactWithin64Bits` | packages/svp-blocks/src/block_stream.cpp:170-217 | The 64-bit size check accepts if and only if the size is exact in plain arithmetic and rounding up a bit-packed mask stays within 64 bits. |
| `BlockStreams.SizeCheckIsExact` | packages/svp-blocks/src/block_stream.cpp:170-217 | A size guard below 2^61 bytes rules the exception out. |
| `BlockStreams.RoundingCanWrap` | packages/svp-blocks/src/block_stream.cpp:202-213 | A mask of 2^64 - 1 samples whose correct size is refused. |
| `BlockStreams.ParseBlockStream` | packages/svp-blocks/src/block_stream.cpp:431-500 | The loop reports exactly the blocks and issues of the specification by offsets, in the source's order: a payload that is no frame at all, one that breaks off, one of another size. |
| `BlockDiagnosis.HeaderDiagnosis` | packages/svp-blocks/src/block_stream.cpp:219-318 | Each kind of issue of a header is reported exactly for its defect: a type that is not allowed, the wrong raster, anything else about the header, a wrong header digest. |
| `BlockDiagnosis.PayloadDiagnosis` | packages/svp-blocks/src/block_stream.cpp:327-427 | A wrong payload digest and a payload that does not expand to its declared size are each reported exactly then. |
| `BlockDiagnosis.BlocksAreChained` | packages/svp-blocks/src/block_stream.cpp:431-500 | The blocks reported follow one another from the start, each header the bytes at its offset, up to the end, a cut-off header or payload, or sizes over the guards. |
| `BlockDiagnosis.BlankedMeans` | packages/svp-blocks/src/block_writer.cpp:120-132 | A header's digest is over its bytes with zeros in its own place. |
| `BlockStreams.WriteBlock` | packages/svp-blocks/src/block_writer.cpp:154-181 | Appends one header and its compressed payload and reports where; an empty payload or frame is refused. |
| `BlockStreams.WriteAll` | packages/svp-blocks/src/block_writer.cpp:154-181 | Writing blocks one after the other gives a stream that is those blocks at the reported offsets. |
| `BlockStreams.MakeBlockHeader` | packages/svp-blocks/src/block_writer.cpp:56-88 | The bytes written in place are the encoding of the spec, sizes and digests, the header digest taken over the rest. |
| `BlockDiagnosis.WrittenOnDisk` | packages/svp-blocks/src/block_writer.cpp:56-88 | Byte by byte where a written block has the magic, its dimensions, times and frames, sizes and digests, and the compressed payload. |
| `BlockLayout.EncodedParses` | packages/svp-blocks/src/block_stream.cpp:102-125 | Reading an encoded header gives every field back, signed times included. |
| `BlockLayout.ParsedEncodes` | packages/svp-blocks/src/block_stream.cpp:102-141 | A header with the magic and zeroed reserved bytes is exactly the encoding of its fields. |
| `BlockLayout.EncodingIsUnique` | packages/svp-blocks/src/block_writer.cpp:56-88 | The fields fix every byte of a header. |
| `BlockDiagnosis.EncodesOnDisk` | packages/svp-blocks/src/block_stream.cpp:102-141 | The bytes that encode a header are exactly those with every field, little-endian, at its place. |
| `BlockLayout.WriteFields` | packages/svp-blocks/src/block_writer.cpp:62-83 | Writing field after field into one array leaves every field in place. |
| `BlockLayout.LeRoundTrips` | packages/svp-blocks/src/block_writer.cpp:17-46 | Little-endian bytes give the number back. |
| `BlockLayout.LeIsCanonical` | packages/svp-blocks/src/block_stream.cpp:22-50 | A number read from bytes is written as the same bytes. |

## Left out

- SchedulerExecution.SchedulerRun.Dispatch: one reading of the clock serves a whole round, its grants and the back-off check after it; the code reads the clock at each.
- SchedulerExecution.SchedulerRun.ExpireLeases: ended leases come in arbitrary order, where the code takes the order of lease ids as strings.
- SchedulerExecution.SchedulerRun.OldestStraggler: among equally old stragglers any may be chosen, where the code takes the first lease id as a string.
- SchedulerExecution.SchedulerRun.Execute: the waits between turns (`next_wait`) and the inbox are a list of ticks, and a build that outlives the list has no status yet.
- SchedulerExecution.SchedulerRun.Issue: lease lengths, deadlines, attempt limits and the back-off are numbers the policy resolved to; how task types override them is not modelled, nor that slot counts could change.
- RecoveryJournals.RecoveryJournal.RecordTask: task types, cache keys, timestamps, provenance, cache hits, attempts and worker sessions are not part of the tables.
- CtcAligner.TrellisIsBest: scores are exact reals and -1e30 is a cell no path reaches; rounding of 32-bit scores and the log-softmax before it are not modelled.
- CtcAligner.Spans: spans are counted in frames, not seconds.
- AsrReconciliation.Timed: times do not overflow 64 bits; confidences and the speaker fields of words play no part.
- BlockStreams.ParseBlockStream: payloads are read whole instead of in 64 KiB pieces, reads do not fail, and the decompressor always gets its memory.
- Frames.FrameDecoder.NextFrame: buffers whose header puts the end of its frame beyond 64 bits (`FrameEndCanWrap`) have no verdict in the model.
- Frames.EncodeThenParse: the JSON text of a header is a parameter with an inverse.
- CacheEviction.CasStore.Evict: stale pending files are not modelled, nor locks and pins that cannot be read.
- CachePins.StepKeepsInv: listing the pin directory is one step, retries of a lock whose file was replaced are unlimited, and stored blobs are intact.
- TaskGraphBuilding.Build: the build-session check and the other checks of a task spec are not modelled.
- ResultVerification.GateIsExact: the syntax checks of a result record are one flag.
- BLAKE3, Zstandard, SQLite transactions and the JSON library: parameters or atomic steps.
- File-system failures, fsync and torn writes: pending files are never trusted, so what they hold does not matter.
- Observers, messages, statistics text, report builders and extraction plans: nothing depends on them.
- Threads, sockets, child processes, model inference, audio signal processing and the release scripts.
- Duplicate-capture heuristics of microphone ownership beyond the longest common subsequence.
