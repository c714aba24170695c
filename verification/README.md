# Orkiva coordination protocols, modelled in Dafny

Orkiva lets coding agents talk to each other in threads. A bridge API stores messages, read cursors and thread
statuses; a supervisor worker delivers *triggers* into the agents' terminal sessions, retries them, falls back to
resuming or spawning a session, and shuts threads that make no progress; an operator CLI changes thread statuses by
hand. None of these parts takes a lock. What they guarantee comes from guarded updates, unique keys and positive
delays acting together, and that is what this project models and proves.

Every SQL statement is one atomic step on a table with its keys. A concurrent protocol is a step function folded over
an arbitrary schedule, so "for every schedule" is "for every interleaving". Code that changes state step by step is a
class whose methods are proved against specification functions; the theorems are about those functions. Dates are
integer milliseconds, composite string keys are tuples, nullable columns are options, and what the outside world
answers (an executor, a terminal, a child process, the clock) is a parameter.

## Files

- `TriggerModel`, `TriggerDecision`: jobs and configuration; backoff, retry, fallback, loop guard, reachable shapes.
- `TriggerStore`, `TriggerProcessor`, `TriggerTicks`: the in-memory store and the tick as classes; what a tick claims,
  records and counts.
- `TriggerDrain`, `TriggerPatience`, `TriggerLimiter`, `TriggerRateExact`, `TriggerGuards`: whole runs of one processor:
  the queue drains, the pruned rate limiter and loop guard against the full history, and exactly when the rate bound
  holds.
- `TriggerWorkers`, `TriggerClaims`, `TriggerWorkerRecords`, `TriggerWorkerGuards`, `TriggerWorkerDrain`: any number of
  workers in any number of processes over one database, interleaved at every `await`: ownership and logs, what a claim
  takes, what an attempt records, each process's guards, and the bound on attempts.
- `RuntimeExecutor`, `RuntimeFallback`, `CrashLoop`, `CrashLoopTight`: the two real executors, shown to meet the
  contracts the queue relies on, and their runs when calls overlap.
- `Sessions`, `Reasons`, `SlidingWindow`, `StableSort`, `Numbers`, `Wrappers`: shared notions.
- `MessageTable`, `PostMessage`, `PostGuarantees`, `PostLinear`, `PostContention`, `PostLiveness`, `PostHandler`: the
  optimistic append of `post_message` as a step machine, its guarantees, its linearization, what it takes to defeat it,
  and the handler's loop refining the machine.
- `ThreadStore`, `Paging`, `Cursors`: the in-memory thread store, pages and read cursors on the same log.
- `ThreadLifecycle`, `OperatorCli`: one thread status under three kinds of writers.
- `UnreadReconciliation`, `UnreadOverlap`, `RuntimeRegistry`: the unread poll, polls that overlap, and the heartbeat
  register.

## Findings

Where the code does not do what one would expect of it, the project keeps the code and states the exact condition.

- A rate-limited job is told to retry at `oldest + 60 s`, but the window is closed, so at exactly that time it is
  deferred again. It is admitted at its own retry time if and only if the recheck interval, not the window, set that
  time, or the time was not computed from the oldest entry (`OwnRetryTimeAdmittedIff`).
- A tick that runs late with its old time can find admissions of its window pruned by a younger tick and overrun the
  rate limit (`BackdatedTickOverrunsTheWindow`). The pruned list shows the whole window if and only if no admission in
  it was more than a minute before a later consultation (`PruningIsExact`). The rate bound holds for all calls that
  ticks at given times can make if and only if the limit is one or no tick reaches back over one that a tick in between
  has pruned (`TickTimesExact`).
- Overlapping fallback calls of one agent all pass the crash-loop check before any of them has failed. With at most k
  in flight the bound is threshold - 1 + k * resumeMaxAttempts, and some run attains it (`CrashLoopIsBounded`,
  `CrashLoopBoundIsTight`, `OverlapOverrunsTheCrashLoop`); a late call with an old time breaks it even alone
  (`LateCallOverrunsTheCrashLoop`).
- A post without an idempotency key whose commit is answered with an error reports failure and leaves its message
  behind; with a key it recovers the message (`LostAnswerIsRecoveredIffKeyed`).
- Overlapping unread polls can report a sequence twice, but lose no news (`OverlapReportsAgain`, `NewsIsTakenUp`).
- A call that passed the busy check before a busy report still delivers after it (`EarlierChecksStillDeliver`), and a
  busy report for a call with an earlier time shortens the quiet window (`EarlierReportShortensTheWindow`).
- The reconciler marks a runtime offline that has sent a fresh heartbeat since it was listed
  (`FreshHeartbeatIsMarkedOffline`).
- The absence of ABA in the claim rests on every retry delay being positive (`ZeroDelayAllowsAba`).
- `DbThreadStore.updateThreadStatus` validates against a second read and guards its update with the caller's first.
  It can therefore commit blocked-to-resolved, which is not in the transition map, and nothing else outside it
  (`DbEdgesExactly`, `DbStoreLeavesTheMap`).
- A cursor goes back exactly through overlapping acks of one agent on one thread (`CursorNeverGoesBack`,
  `OverlapGoesBack`).
- A post with fewer than three others on its thread never exhausts its three attempts; with three it can
  (`FewRivalsNeverConflict`, `FourRequestsMayConflict`).
- The in-memory thread store accepts a second message under a used idempotency key, and otherwise decides as the table
  does on every number a handler can try (`StoresDifferExactly`).

## Model

| member | source | states |
|---|---|---|
| `TriggerWorkers.NoAba` | apps/supervisor-worker/src/trigger-queue.ts:598-656 | In every run of any number of workers, a claim's compare-and-swap on status and timestamp matches if and only if the row is the very one the snapshot saw, and that row is due at the claiming time; no shared clock is assumed |
| `TriggerWorkers.OwnershipIsExclusive` | apps/supervisor-worker/src/trigger-queue.ts:598-656 | No job is ever in two workers' hands or twice in one's; a held job's row is `triggering` exactly as claimed; every `triggering` row is in somebody's hands |
| `TriggerWorkers.AttemptLogIsGapFree` | apps/supervisor-worker/src/trigger-queue.ts:658-707 | In every reachable state attempt rows are numbered 1..attempts in order, a pending record finds its job `triggering` with that number free, so the unique (trigger, attempt) index never fails a tick |
| `TriggerWorkers.AttemptsExecuteOnce` | apps/supervisor-worker/src/trigger-queue.ts:336-345 | Across all workers the executor is invoked at most once per job and attempt number |
| `TriggerWorkers.ReachedShapes` | apps/supervisor-worker/src/trigger-queue.ts:347-383 | Every row of every run has a reachable shape: `queued` was never attempted, `timeout` waits exactly its backoff within maxRetries, `deferred` waits a positive time, a finished row has no retry time |
| `TriggerWorkers.RowsProgress` | apps/supervisor-worker/src/trigger-queue.ts:598-707 | Each step keeps a row's identity, adds at most one attempt, never touches a finished row, and strictly raises the timestamp when it claims a row that was attempted before |
| `TriggerWorkers.ReachedInv` | apps/supervisor-worker/src/main.ts:133 | The joint invariant of rows, attempt log, snapshots and claims holds in every run with overlapping ticks |
| `TriggerClaims.SnapshotShowsTheOldestDue` | apps/supervisor-worker/src/trigger-queue.ts:603-612 | In every run a snapshot shows the oldest queued, timed-out or deferred jobs of its workspace whose retry time has come: at most three times the limit, all of them if no more are due |
| `TriggerClaims.SnapshotIsPossible` | apps/supervisor-worker/src/trigger-queue.ts:603-612 | After every run an idle worker can take such a snapshot of any workspace at any time |
| `TriggerClaims.HeldWithinLimit` | apps/supervisor-worker/src/trigger-queue.ts:614-618 | In every run a worker holds at most as many jobs as the limit of its last snapshot, oldest first, and is done claiming after at most one try more than there were candidates |
| `TriggerClaims.ClaimingTakesWhatIsLeft` | apps/supervisor-worker/src/trigger-queue.ts:614-655 | When a worker is done claiming it holds candidates exactly as its snapshot saw them, but `triggering` since its own time; one it left out although it had room, or took a later one, had been changed by others by its turn |
| `TriggerWorkerRecords.RecordFollowsTheAnswers` | apps/supervisor-worker/src/trigger-queue.ts:336-420 | In every run, whatever other workers do between a worker's three steps on a job, the recorded rows follow what the executor and fallback answered; the executor was called if and only if the limiter admitted the job; no other row changes |
| `TriggerWorkers.ZeroDelayAllowsAba` | apps/supervisor-worker/src/trigger-queue.ts:358-366 | With a retry delay of zero a row can come back to the status and timestamp a snapshot saw with another attempt behind it: the positive delays are what the claim rests on |
| `TriggerDrain.EveryRunIsBounded` | apps/supervisor-worker/src/trigger-queue.ts:266-314 | From N live jobs, with no new ones, every run of one processor makes at most N * loopMaxTurns attempts, though deferrals ignore maxRetries |
| `TriggerPatience.QueueDrains` | apps/supervisor-worker/src/trigger-queue.ts:316-420 | Ticks in the order of their times, of any workspaces and any spacing: if N * loopMaxTurns of those for a workspace can be picked that lie at least the longest delay apart, the first no earlier than the job's retry time, then a job of the workspace that was not stranded in `triggering` at the start is terminal at the end |
| `TriggerPatience.PollingDrains` | apps/supervisor-worker/src/main.ts:133 | A worker that polls a workspace at intervals of at most g drains it in bounded time: after N * loopMaxTurns * (longest delay + g) every job that was due at the first tick and not stranded is terminal |
| `TriggerPatience.TickAttemptsWhenRetryHasCome` | apps/supervisor-worker/src/trigger-queue.ts:492-499 | A tick at or after the retry time of a live job of its workspace that nobody holds attempts something |
| `TriggerPatience.AttemptWaitsBriefly` | apps/supervisor-worker/src/trigger-queue.ts:358-366 | Whatever the limiter, executor and guard do, a retry time is at most the longest delay away |
| `TriggerWorkerDrain.InterleavedAttemptsAreBounded` | apps/supervisor-worker/src/trigger-queue.ts:266-314 | From any reachable state, with no new jobs, however the ticks of P processes interleave, the attempts on a thread are at most its live jobs * loopMaxTurns + (P - 1) * (loopMaxTurns - 1), and none once no job is live |
| `TriggerWorkerDrain.ConclusionLowersMeasure` | apps/supervisor-worker/src/trigger-queue.ts:385-409 | Each decided attempt lowers its thread's measure, live * L minus the summed counts of all processes' guards |
| `TriggerWorkerDrain.OtherStepKeepsMeasure` | apps/supervisor-worker/src/trigger-queue.ts:598-707 | Snapshots, claims, admissions, records and attempts on other threads leave that measure alone |
| `TriggerDrain.RunLowersMeasure` | apps/supervisor-worker/src/trigger-queue.ts:289-309 | The per-thread measure live * L - min(noProgressTurns, L - 1), summed over threads, pays for every attempt of a run |
| `TriggerDrain.AttemptLowersItsThread` | apps/supervisor-worker/src/trigger-queue.ts:385-420 | Every attempt, whatever its outcome, lowers its own thread's measure and moves no other's |
| `TriggerDrain.TickLeavesNothingClaimed` | apps/supervisor-worker/src/trigger-queue.ts:336-420 | A job that is not `triggering` when a tick starts is not `triggering` when it ends |
| `TriggerGuards.ExecutorRateIsBounded` | apps/supervisor-worker/src/trigger-queue.ts:235-260 | Over every run, in whatever order the tick times come, the stored list never exceeds the limit, and as long as no admission of a key reaches back over a pruned one the executor is invoked at most rateLimitPerMinute times for it in every closed 60 s window |
| `TriggerGuards.TickTimesBoundTheRate` | apps/supervisor-worker/src/trigger-queue.ts:235-260 | In whole runs of the queue the bound follows from the condition on the tick times alone |
| `TriggerGuards.LoopGuardIsExact` | apps/supervisor-worker/src/trigger-queue.ts:266-314 | Over every run an attempt is auto-blocked if and only if its thread's last loopMaxTurns turns made no progress or its last loopMaxRepeatedFindings reported one finding |
| `TriggerGuards.LimiterIsExact` | apps/supervisor-worker/src/trigger-queue.ts:235-260 | Over every run an attempt is held back only if the executor was invoked rateLimitPerMinute times in the last minute for its workspace, thread and agent; and then always, unless one of those was pruned away |
| `TriggerWorkerGuards.ProcessRateIsBounded` | apps/supervisor-worker/src/main.ts:133 | The same bound for each process when its ticks overlap, over the invocations with their times |
| `TriggerWorkerGuards.InvocationsAreExecuted` | apps/supervisor-worker/src/trigger-queue.ts:339-345 | Those invocations are exactly the executor calls of the interleaved machine |
| `TriggerWorkerGuards.ProcessLoopGuardIsExact` | apps/supervisor-worker/src/trigger-queue.ts:266-314 | With overlapping ticks an attempt is auto-blocked if and only if the trail of turns its own process has seen of the thread reaches a limit; other processes do not count |
| `TriggerLimiter.LimiterRefinesHistory` | apps/supervisor-worker/src/trigger-queue.ts:235-260 | Each decision, at any time, is one more pruning of the list; it admits if and only if the full, never pruned history has room, whenever nothing of the last minute was lost |
| `TriggerLimiter.DeferredRetryAdmittedIff` | apps/supervisor-worker/src/trigger-queue.ts:235-260 | A rate-limited job retried with no consultation of its key in between is admitted if and only if it comes strictly after oldest + 60 s |
| `TriggerLimiter.OwnRetryTimeAdmittedIff` | apps/supervisor-worker/src/trigger-queue.ts:242-250 | At the retry time it was given it is admitted if and only if the recheck interval exceeded what was left of the window, or that time was not computed from the oldest entry |
| `TriggerLimiter.OwnRetryTimeMayBeDeferredAgain` | apps/supervisor-worker/src/trigger-queue.ts:237-250 | A concrete job that is deferred again at exactly its own retry time |
| `TriggerRateExact.TickTimesExact` | apps/supervisor-worker/src/trigger-queue.ts:235-260 | The exact condition on tick times: the rate bound holds for all calls for a key that ticks at these times can make if and only if the limit is one or no tick reaches back over one that a tick in between has pruned |
| `TriggerRateExact.AnyOrderIffLimitIsOne` | apps/supervisor-worker/src/trigger-queue.ts:235-260 | So it holds for ticks in every order of times if and only if the limit is one |
| `TriggerRateExact.ReachBackBreaksBound` | apps/supervisor-worker/src/trigger-queue.ts:238-258 | Any three ticks that reach back overrun every limit above one: limit admissions, one that prunes, one more |
| `TriggerLimiter.BackdatedTickOverrunsTheWindow` | apps/supervisor-worker/src/trigger-queue.ts:235-260 | A concrete late tick that reaches back over pruned admissions and overruns the limit |
| `TriggerDecision.BackoffDoublesUntilCapped` | apps/supervisor-worker/src/trigger-queue.ts:226-229 | The delay starts at the base, doubles per attempt, saturates at the maximum and never shrinks |
| `TriggerDecision.BackoffMonotone` | apps/supervisor-worker/src/trigger-queue.ts:226-229 | Later attempts wait at least as long, and always a positive time |
| `TriggerDecision.TimeoutDelaysGrow` | apps/supervisor-worker/src/trigger-queue.ts:358-366 | Between two timeouts of one job the later waits at least as long, up to the maximum |
| `TriggerDecision.VerdictKeepsShape` | apps/supervisor-worker/src/trigger-queue.ts:347-409 | Whatever the executor and fallback answer within their contracts and whatever the guard does, the recorded job is in a reachable shape again |
| `TriggerDecision.LoopMemoryIsTheTrail` | apps/supervisor-worker/src/trigger-queue.ts:266-295 | The guard's two counters are exactly the lengths of the trailing run without progress and of the trailing run of one finding |
| `TriggerDecision.GuardBlocksOnTheTrail` | apps/supervisor-worker/src/trigger-queue.ts:297-308 | A turn blocks if and only if one of those trails reaches its limit |
| `TriggerDecision.GuardNamesItsReason` | apps/supervisor-worker/src/trigger-queue.ts:296-309 | The reason of a block is the exact length of the trail without progress if that is too long, and otherwise of the trail of one finding, with its code |
| `TriggerStore.ClaimTakesTheOldestDue` | apps/supervisor-worker/src/trigger-queue.ts:492-499 | A claim takes min(limit, due) due jobs of the workspace, oldest first, none younger than one left behind, in store order among equals |
| `TriggerStore.ClaimedJobsAreHeld` | apps/supervisor-worker/src/trigger-queue.ts:501-523 | Each claimed job was due, and is `triggering` in the store exactly as returned |
| `TriggerStore.ClaimChangesNothingElse` | apps/supervisor-worker/src/trigger-queue.ts:501-523 | A claim returns no job twice and changes no job it does not return |
| `TriggerStore.SeededIsValid` | apps/supervisor-worker/src/trigger-queue.ts:481-485 | Seeding keeps every job under its own id, all of them when the ids differ |
| `TriggerStore.InMemoryTriggerQueueStore.ClaimDueJobs` | apps/supervisor-worker/src/trigger-queue.ts:487-524 | The claim loop, with its re-checks, computes the specified claim and new state |
| `TriggerStore.InMemoryTriggerQueueStore.RecordAttemptAndTransition` | apps/supervisor-worker/src/trigger-queue.ts:526-560 | Appends the attempt and moves the job only if it is `triggering`; otherwise changes nothing |
| `TriggerStore.RecordTouchesOneTriggering` | apps/supervisor-worker/src/trigger-queue.ts:526-562 | A record changes exactly the row and the attempts of its job if that is `triggering`, and nothing otherwise |
| `TriggerStore.InMemoryTriggerQueueStore.MarkThreadBlocked` | apps/supervisor-worker/src/trigger-queue.ts:578-592 | Blocks a thread once and reports whether it was the first time |
| `TriggerStore.DeadLettersAreTheNewestFailed` | apps/supervisor-worker/src/trigger-queue.ts:562-572 | The list is exactly min(limit, failed) failed jobs of the workspace, most recently updated first, none left out that was updated later than one shown, in store order among equals |
| `TriggerStore.InMemoryTriggerQueueStore.ListDeadLetterJobs` | apps/supervisor-worker/src/trigger-queue.ts:562-572 | Returns at most limit failed jobs of the workspace in descending order of update, and all of them if there are fewer |
| `TriggerProcessor.TriggerQueueProcessor.ApplyRateLimit` | apps/supervisor-worker/src/trigger-queue.ts:235-260 | Updates the pruned list and decides as the limiter's specification does |
| `TriggerProcessor.TriggerQueueProcessor.UpdateLoopState` | apps/supervisor-worker/src/trigger-queue.ts:266-314 | Updates the guard's memory and decides as the guard's specification does |
| `TriggerProcessor.TriggerQueueProcessor.ProcessJob` | apps/supervisor-worker/src/trigger-queue.ts:336-420 | One claimed job goes through limiter, executor, decision, fallback, guard and record with the specified effect on store and memory |
| `TriggerProcessor.AttemptFollowsTheAnswers` | apps/supervisor-worker/src/trigger-queue.ts:347-383 | A delivery is recorded as one whatever the fallback would say, a deferral and a timeout with retries left wait for the answered time or the backoff, a limited job is deferred, a blocked one fails; in every other case, and only there, result, status and code are the fallback's |
| `TriggerTicks.TickFollowsTheAnswers` | apps/supervisor-worker/src/trigger-queue.ts:336-420 | The same for every job of a whole tick, on its own row and attempt row |
| `TriggerProcessor.TriggerQueueProcessor.ProcessDueJobs` | apps/supervisor-worker/src/trigger-queue.ts:316-462 | A whole tick has the specified effect on store, memory and counters |
| `TriggerTicks.EachClaimRecordedOnce` | apps/supervisor-worker/src/trigger-queue.ts:411-420 | Each claimed job gets exactly one attempt row, numbered one past its attempts, and lands in its verdict's status |
| `TriggerTicks.OthersUntouched` | apps/supervisor-worker/src/trigger-queue.ts:336-420 | Processing changes neither the row nor the attempt log of any other job |
| `TriggerTicks.TickConserves` | apps/supervisor-worker/src/trigger-queue.ts:422-441 | delivered + retried + failed counts every claimed job once; resumed and spawned are among the delivered; the failed and the dead letters are exactly the jobs that failed with no retry due, and the retried are all jobs still due and the retries the guard turned into dead letters |
| `TriggerTicks.TickBlocksThreads` | apps/supervisor-worker/src/trigger-queue.ts:389-397 | A tick blocks exactly the threads whose attempts the guard stopped, each once and for good, and `autoBlocked` counts them |
| `TriggerTicks.TickRetriesAreDue` | apps/supervisor-worker/src/trigger-queue.ts:347-350 | What counts as a retry: a rate-limited job, a retryable deferral, or another retryable answer within maxRetries |
| `RuntimeExecutor.ManagedRuntimeTriggerJobExecutor.Execute` | apps/supervisor-worker/src/runtime-trigger-executor.ts:56-221 | The executor's branches, its busy memory and whether the terminal is contacted, as one specification function |
| `RuntimeExecutor.ExecutionTells` | apps/supervisor-worker/src/runtime-trigger-executor.ts:56-222 | Delivered if and only if the terminal was contacted and took it; contacted if and only if a managed runtime with the job's session is not offline and no quiet window holds an unforced call back; a retryable timeout, a deferral, a final timeout and a failure each if and only if its own cause was there; and what it remembers |
| `RuntimeExecutor.ExecutorMeetsContract` | apps/supervisor-worker/src/runtime-trigger-executor.ts:68-220 | Whatever registry and terminal answer, deferrals are retryable with a positive delay and failures are never retryable |
| `RuntimeExecutor.BusyDeferralsAreBounded` | apps/supervisor-worker/src/runtime-trigger-executor.ts:126-203 | An operator-busy deferral happens only before maxDeferMs of age, so its retry time stays below createdAt + maxDeferMs + recheckMs |
| `RuntimeExecutor.QuietWindowIsKept` | apps/supervisor-worker/src/runtime-trigger-executor.ts:121-176 | With calls that overlap between check and answer, an unforced call whose check follows a busy report at t contacts the runtime only from t + quietWindowMs on, unless a delivery succeeded in between or a busy report for an earlier time replaced it |
| `RuntimeExecutor.ExecutionIsTwoSteps` | apps/supervisor-worker/src/runtime-trigger-executor.ts:121-221 | An uninterrupted call is exactly its check and its answer |
| `RuntimeExecutor.EarlierChecksStillDeliver` | apps/supervisor-worker/src/runtime-trigger-executor.ts:157-176 | The restriction to later checks is needed: a call already checked delivers after the report |
| `RuntimeExecutor.EarlierReportShortensTheWindow` | apps/supervisor-worker/src/runtime-trigger-executor.ts:174-176 | Nor can the other exception be dropped: a busy report for a call with an earlier time replaces a later one, and the next unforced call comes before that one's window has passed |
| `RuntimeFallback.CodexFallbackExecutor.Execute` | apps/supervisor-worker/src/runtime-fallback.ts:119-178 | Issues at most resumeMaxAttempts resumes and then one spawn exactly when none succeeded, ends in a status that is not due, and updates the failure list as specified |
| `RuntimeFallback.CodexFallbackExecutor.CanAttemptResume` | apps/supervisor-worker/src/runtime-fallback.ts:35-84 | Resuming is allowed if and only if the session is current and the pruned failures are below the threshold |
| `RuntimeFallback.CodexFallbackExecutor.TryResume` | apps/supervisor-worker/src/runtime-fallback.ts:134-154 | The resume loop stops at the first success, and records one failure for each command that failed |
| `RuntimeFallback.ResumesIff` | apps/supervisor-worker/src/runtime-fallback.ts:35-84 | An agent is resumed if and only if the runtime has the very session of the job, its heartbeat is recent enough, and fewer than the threshold of the agent's own failures fall in the window |
| `RuntimeFallback.CallRecordsItsFailures` | apps/supervisor-worker/src/runtime-fallback.ts:86-90 | A call leaves other agents' failures alone, prunes its own agent's if it looked at them, and adds one for each failed resume |
| `RuntimeFallback.FailedResumesExact` | apps/supervisor-worker/src/runtime-fallback.ts:134-154 | The failed resumes are those before the first that exits with zero, up to resumeMaxAttempts |
| `CrashLoop.CrashLoopIsBounded` | apps/supervisor-worker/src/runtime-fallback.ts:119-155 | With calls that overlap wherever one awaits a command, at most k resuming calls of an agent in flight and no admitting check reaching back over a pruned failure, the agent's recorded failures in any closed window are at most threshold - 1 + k * resumeMaxAttempts |
| `CrashLoop.BeginTimesSuffice` | apps/supervisor-worker/src/runtime-fallback.ts:67-77 | The condition on the times at which the calls begin alone; nondecreasing times meet it |
| `CrashLoop.CrashLoopSkipsResume` | apps/supervisor-worker/src/runtime-fallback.ts:67-77 | In such runs the decision on the pruned list is the decision on the full history whenever nothing of the window was lost |
| `CrashLoop.ExecutionIsSteps` | apps/supervisor-worker/src/runtime-fallback.ts:119-157 | A call that nothing interrupts does in its steps exactly what the executor's method does |
| `CrashLoopTight.CrashLoopBoundIsTight` | apps/supervisor-worker/src/runtime-fallback.ts:129-155 | In every configuration and for every k some run that meets the conditions records exactly that many |
| `CrashLoopTight.OverlapOverrunsTheCrashLoop` | apps/supervisor-worker/src/runtime-fallback.ts:125-153 | Two overlapping calls record more than any calls one at a time |
| `CrashLoopTight.LateCallOverrunsTheCrashLoop` | apps/supervisor-worker/src/runtime-fallback.ts:69-71 | In every configuration a late call with an old time, behind one that has pruned, overruns the bound with one call at a time |
| `SlidingWindow.PruningIsExact` | apps/supervisor-worker/src/trigger-queue.ts:238-246 | A list that some accesses prune agrees with the full history from a cut on if and only if nothing recorded at or past the cut was more than the width before a later access that prunes |
| `SlidingWindow.GuardBoundsWindow` | apps/supervisor-worker/src/trigger-queue.ts:237-258 | A guard that records at most a batch below a threshold of its pruned list bounds every closed window of the full history by threshold - 1 + batch, as long as no recording reaches back over a pruned event |
| `SlidingWindow.OrderedTimesDoNotReachBack` | apps/supervisor-worker/src/trigger-queue.ts:237-239 | Times that never decrease do not reach back |
| `SlidingWindow.RecentTwice` | apps/supervisor-worker/src/trigger-queue.ts:238-246 | Pruning early loses nothing that a later window would count |
| `PostMessage.RunInv` | apps/bridge-api/src/app.ts:953-1016 | The joint invariant of table, unique keys, every request's position and its arrival holds under every schedule |
| `PostMessage.InsertIsNext` | packages/db/src/schema.ts:103 | A number read earlier that the unique (thread, seq) key admits is exactly one past the log |
| `PostGuarantees.StepRefinesAtomicAppend` | apps/bridge-api/src/app.ts:922-1007 | The step that ends a request with a message or an idempotency conflict is an atomic idempotent append on the log at that moment, and so is a commit whose answer is lost; every other step leaves all logs alone |
| `PostGuarantees.LogsAreGapFree` | apps/bridge-api/src/app.ts:953-975 | Under every schedule a thread's messages carry exactly 1..n |
| `PostGuarantees.OneMessagePerKey` | packages/db/src/schema.ts:104-108 | At most one message per (thread, sender, key) |
| `PostGuarantees.ExactlyOncePerKey` | apps/bridge-api/src/app.ts:922-951 | All successes under one key name the same message and carry its payload; an idempotency conflict only with another payload |
| `PostGuarantees.ConflictMeansOtherPayload` | apps/bridge-api/src/app.ts:936-947 | An idempotency conflict is answered only if the table holds the key with another payload |
| `PostGuarantees.AtomicPostIsIdempotent` | apps/bridge-api/src/app.ts:922-951 | Appending again under a used key changes nothing and names the first message, or refuses another payload |
| `PostGuarantees.LostAnswerIsRecoveredIffKeyed` | apps/bridge-api/src/app.ts:976-1010 | A request whose insert was committed but answered with an error replies with that very message if it has a key; without one it gives up and the message stays |
| `PostGuarantees.KeylessPostsAreDistinct` | apps/bridge-api/src/app.ts:957-975 | Without a key every successful request has a message of its own |
| `PostGuarantees.RepliesPointBackwards` | apps/bridge-api/src/app.ts:904-920 | A reply always answers a message committed earlier in the same thread |
| `PostGuarantees.RefusedIffNoParent` | apps/bridge-api/src/app.ts:904-920 | A request is refused for the message it answers if and only if at its first step no row of its own thread has that id |
| `PostGuarantees.MessagesAreTheirRequests` | apps/bridge-api/src/app.ts:957-975 | Every message has the thread, sender, session, payload and key of its request, and the clock of one of that request's own steps |
| `PostGuarantees.NumbersStaySafe` | apps/bridge-api/src/app.ts:953-956 | No sequence number exceeds 2^53 - 1, and a request gives up for that only if its thread's log is that long |
| `PostLinear.RunIsAtomicAppends` | apps/bridge-api/src/app.ts:922-1007 | Linearizability, lost answers included: after any schedule a thread's log is that of atomic appends performed in the order of the requests' effective steps; each request has at most one, one that ended with a message or an idempotency conflict exactly one, and its reply is the append's |
| `PostContention.FailureIsCharged` | apps/bridge-api/src/app.ts:953-1011 | Between the read and the refused insert of one attempt, another request of the thread committed exactly the number the attempt had read as next |
| `PostContention.AttemptsAreChargedApart` | apps/bridge-api/src/app.ts:953-1011 | Different attempts of a request are charged to different commits |
| `PostContention.GivingUpTakesThreeCommits` | apps/bridge-api/src/app.ts:953-1016 | A request that ends in CONFLICT overlapped three commits to its thread by three distinct other requests on it |
| `PostContention.FewRivalsNeverConflict` | apps/bridge-api/src/app.ts:211-211 | With fewer than three other requests on its thread, no request ends in CONFLICT |
| `PostContention.ThreeRequestsNeverConflict` | apps/bridge-api/src/app.ts:953-1016 | With at most three requests in all, none ends in CONFLICT |
| `PostLiveness.FourRequestsMayConflict` | apps/bridge-api/src/app.ts:953-1016 | The bound is tight: any keyless request with three others on its thread ends in CONFLICT under some schedule |
| `PostLiveness.UncontendedPostIsAtomic` | apps/bridge-api/src/app.ts:887-1016 | Left alone any request finishes in at most four statements with exactly one atomic append or replay, or reports a missing parent or a full log without touching the log |
| `PostHandler.Handler.Post` | apps/bridge-api/src/app.ts:904-1017 | The handler's loop, with arbitrary steps of other requests before each of its statements, is a run of the step machine; a success names a row with its payload, a conflict has a contradicting row |
| `PostHandler.Handler.Insert` | apps/bridge-api/src/app.ts:957-975 | One insert attempt, after any steps of the others, appends one row or moves to the catch path |
| `PostHandler.Handler.FindConcurrent` | apps/bridge-api/src/app.ts:976-1010 | The catch path replays a concurrent message, retries while attempts remain, or gives up |
| `MessageTable.LatestIsLength` | apps/bridge-api/src/thread-store.ts:550-557 | In a gap-free table the latest sequence is the length of the thread's log |
| `MessageTable.SeqInUse` | packages/db/src/schema.ts:103 | In a gap-free table the numbers in use on a thread are exactly 1..length |
| `MessageTable.FindByKeyExact` | apps/bridge-api/src/thread-store.ts:621-652 | The idempotency lookup finds a message with the key if and only if there is one |
| `Paging.FormsAgree` | apps/bridge-api/src/thread-store.ts:559-595 | The limit-plus-one form returns the page of the filter-and-slice form, in whatever order the rows are stored |
| `Paging.PageIsTheNextStretch` | apps/bridge-api/src/thread-store.ts:293-309 | A page is exactly the next stretch of the log; hasMore if and only if something is left |
| `Paging.PagingIsComplete` | apps/bridge-api/src/app.ts:1035-1055 | Following next_seq through any concurrent posts yields exactly since+1..nextSeq, once each and in order, and everything once hasMore is false |
| `Paging.LogsOnlyGrow` | apps/bridge-api/src/app.ts:953-975 | What a run has committed at one moment is a prefix of what it has later |
| `Paging.CallsAreCeiling` | apps/bridge-api/src/thread-store.ts:293-309 | On an unchanging log reading to the end takes max(1, ceil(remaining / limit)) calls |
| `Cursors.CursorsStayInTheLog` | apps/bridge-api/src/app.ts:1074-1102 | In every interleaving of posts and acks a cursor is 0 or the number of a message of its thread |
| `Cursors.AcknowledgeMovesForward` | packages/domain/src/cursor.ts:46-76 | An acknowledgement below the cursor is refused, one at it changes nothing, any other moves it there at the current time |
| `Cursors.UncontendedAckIsExact` | apps/bridge-api/src/app.ts:1074-1107 | An acknowledgement that nothing interrupts is refused past the latest message or below the cursor, and otherwise puts that cursor, and no other, exactly where it says |
| `Cursors.CursorNeverGoesBack` | packages/domain/src/cursor.ts:46-76 | If one agent's acks on a thread run one at a time its cursor never decreases, whatever else interleaves |
| `Cursors.OverlapGoesBack` | apps/bridge-api/src/thread-store.ts:674-696 | Two overlapping acks with different numbers can always be finished so that the cursor goes back |
| `Cursors.FreshAcksCanOverlap` | apps/bridge-api/src/app.ts:1074-1102 | Any two admissible acks of one agent that have not started can be brought to overlap |
| `Cursors.AcksDoNotPost` | apps/bridge-api/src/app.ts:1059-1108 | The messages of a run with acks are those of its posts alone |
| `ThreadStore.InMemoryThreadStore.CreateThread` | apps/bridge-api/src/thread-store.ts:169-194 | Creates an active thread with an empty log, or refuses it and changes nothing |
| `ThreadStore.InMemoryThreadStore.UpdateThreadStatus` | apps/bridge-api/src/thread-store.ts:200-222 | The guarded transition as one step: absent, lost race, forbidden, or committed, touching no other thread |
| `ThreadStore.InMemoryThreadStore.CreateMessage` | apps/bridge-api/src/thread-store.ts:238-286 | Accepts exactly a well-formed message numbered one past the log, appends it, keeps every list gap-free, touches no other log |
| `ThreadStore.InMemoryThreadStore.GetLatestMessageSeq` | apps/bridge-api/src/thread-store.ts:288-291 | Returns the length of the thread's log |
| `ThreadStore.InMemoryThreadStore.ReadMessages` | apps/bridge-api/src/thread-store.ts:293-309 | Returns the next stretch of the log |
| `ThreadStore.InMemoryThreadStore.GetMessageByIdempotency` | apps/bridge-api/src/thread-store.ts:318-332 | Finds what the database lookup finds |
| `ThreadStore.InMemoryThreadStore.AckRead` | apps/bridge-api/src/app.ts:1074-1107 | Accepts exactly positions between the cursor and the end of the log, moves only that cursor, and otherwise changes nothing |
| `ThreadStore.StoresDifferExactly` | apps/bridge-api/src/thread-store.ts:238-286 | On a fresh well-formed message the in-memory store alone accepts if and only if the number is the next one, the key is used and the log not full; the table alone accepts if and only if the key is free and the number lies past the next one, or is the next one on a full log |
| `ThreadStore.TableAccepts` | packages/db/src/schema.ts:103-108 | The unique keys accept a fresh message if and only if its number is past the log and its key is free |
| `ThreadStore.GuardedUpdateIsAtomicStep` | apps/bridge-api/src/thread-store.ts:200-222 | The store's update commits, loses and refuses exactly as the lifecycle machine's atomic step |
| `ThreadLifecycle.HistoryIsAWalk` | packages/domain/src/thread.ts:39-44 | For any interleaving of operator, auto-block and bridge writers through the atomic store, the status history is a walk in the transition map from active to the current status, and blocked-to-closed always carried an override reason |
| `ThreadLifecycle.ClosedIsAbsorbing` | packages/domain/src/thread.ts:43-43 | Through either store a closed thread stays closed |
| `ThreadLifecycle.ResolvedIsNotReopened` | packages/domain/src/thread.ts:42-42 | Through either store a resolved thread can only be closed |
| `ThreadLifecycle.UncontendedWriterCommits` | packages/domain/src/thread.ts:39-44 | A writer that nobody interrupts commits exactly the six transitions of the domain, with an override reason for blocked-to-closed, and says why it refuses any other |
| `ThreadLifecycle.DbEdgesExactly` | apps/bridge-api/src/thread-store.ts:443-479 | Through the database store a committed edge is in the map if and only if it is not blocked-to-resolved; only the bridge commits that one; the override rule still holds |
| `ThreadLifecycle.DbStoreLeavesTheMap` | apps/bridge-api/src/thread-store.ts:451-463 | A run in which blocked-to-resolved is committed |
| `OperatorCli.OperatorCliService.TransitionThreadStatus` | apps/operator-cli/src/service.ts:246-337 | Does what the machine's two operator steps do on the status read and the status found, changes nothing else, and appends one audit event exactly on success, describing a committed edge or no change |
| `OperatorCli.OperatorCliService.GuardedUpdate` | apps/operator-cli/src/service.ts:157-182 | Updates one thread if and only if it still has the expected status |
| `UnreadReconciliation.UnreadReconciliationService.Reconcile` | apps/supervisor-worker/src/unread-reconciliation.ts:118-202 | The poll loop reports and remembers as specified, and dormantUnread = candidates + deduplicated <= unread <= scanned |
| `UnreadReconciliation.CandidatesAreTheNews` | apps/supervisor-worker/src/unread-reconciliation.ts:131-189 | Over any polls one after the other and any snapshots the candidates are exactly the dormant unread sightings whose latest sequence exceeds every earlier one of the same participant |
| `UnreadReconciliation.ReportsExactlyNews` | apps/supervisor-worker/src/unread-reconciliation.ts:143-157 | One sighting is reported if and only if it is such news |
| `UnreadReconciliation.ReportedSequencesIncrease` | apps/supervisor-worker/src/unread-reconciliation.ts:143-157 | Over such polls the sequences reported for one participant strictly increase |
| `UnreadReconciliation.PollsAreOneRun` | apps/supervisor-worker/src/unread-reconciliation.ts:234-260 | Where one poll ends and the next begins does not matter |
| `UnreadReconciliation.ListingIsExact` | apps/supervisor-worker/src/unread-reconciliation.ts:216-231 | A poll looks at exactly the snapshots of its workspace whose thread is open, or at closed ones too when told to |
| `UnreadReconciliation.CountsAreExact` | apps/supervisor-worker/src/unread-reconciliation.ts:131-141 | The two counts are the number of unread participants and of those that are dormant |
| `UnreadOverlap.NewsIsTakenUp` | apps/supervisor-worker/src/unread-reconciliation.ts:143-157 | However polls overlap, a dormant unread sighting whose sequence exceeds every one reported for its participant is taken up by the poll that looks at it |
| `UnreadOverlap.ReportedOnce` | apps/supervisor-worker/src/unread-reconciliation.ts:143-160 | If no two polls are ever about to report one participant at once, its reported sequences strictly increase |
| `UnreadOverlap.OverlapReportsAgain` | apps/supervisor-worker/src/unread-reconciliation.ts:153-160 | Wherever two polls are, they can finish so that a sequence is reported that is no news any more |
| `UnreadOverlap.TwoLooksOverlap` | apps/supervisor-worker/src/unread-reconciliation.ts:143-157 | Any news that two idle polls look at brings them there |
| `UnreadOverlap.LookAndMarkIsSee` | apps/supervisor-worker/src/unread-reconciliation.ts:143-160 | A look and a mark that nothing separates are the step of polls in sequence |
| `RuntimeRegistry.LastTimestampWins` | packages/domain/src/session.ts:79-118 | For any arrival order interleaved with marks, a runtime is on record if and only if a heartbeat arrived, with session, runtime, mode and time of the first heartbeat carrying the largest timestamp |
| `RuntimeRegistry.OrderDoesNotMatter` | apps/supervisor-worker/src/runtime-registry.ts:96-102 | With distinct timestamps, reordering or repeating heartbeats and moving marks gives the same values |
| `RuntimeRegistry.HeartbeatCountsIfNewer` | packages/domain/src/session.ts:79-118 | After any events a heartbeat newer than every earlier one of its agent and workspace replaces the whole record, status and resumable too; any other changes nothing |
| `RuntimeRegistry.OtherScopesAreRefused` | packages/domain/src/session.ts:87-100 | A heartbeat is refused by a record if and only if it is of another agent or workspace |
| `RuntimeRegistry.MarkChangesOneStatus` | apps/supervisor-worker/src/runtime-registry.ts:114-135 | A mark changes one record's status, resumable if given, and no heartbeat |
| `RuntimeRegistry.ReconcileMarksTheStale` | apps/supervisor-worker/src/runtime-registry.ts:316-348 | A pass marks offline exactly the runtimes of its workspace that are not offline and whose heartbeat is older than the limit |
| `RuntimeRegistry.CountsTheMarks` | apps/supervisor-worker/src/runtime-registry.ts:321-339 | The count of a pass is the number of marks it makes |
| `RuntimeRegistry.InMemoryRuntimeRegistryStore.UpsertFromHeartbeat` | apps/supervisor-worker/src/runtime-registry.ts:96-102 | Applies one heartbeat to its own record only, and never returns an older one |
| `RuntimeRegistry.InMemoryRuntimeRegistryStore.MarkRuntimeStatus` | apps/supervisor-worker/src/runtime-registry.ts:114-135 | Marks one existing record and leaves its heartbeat alone |
| `RuntimeRegistry.InMemoryRuntimeRegistryStore.ListWorkspaceRuntimes` | apps/supervisor-worker/src/runtime-registry.ts:108-112 | Lists each record of the workspace once and no other |
| `RuntimeRegistry.InMemoryRuntimeRegistryStore.ReconcileWorkspaceRuntimes` | apps/supervisor-worker/src/runtime-registry.ts:316-348 | With any heartbeats arriving between the listing and each mark, the pass marks each record that was listed stale, once, adds nothing else to the store's history, and counts both |
| `RuntimeRegistry.QuietPassReconciles` | apps/supervisor-worker/src/runtime-registry.ts:316-348 | A pass that nothing interrupts marks every stale runtime of the workspace offline and touches no other |
| `RuntimeRegistry.FreshHeartbeatIsMarkedOffline` | apps/supervisor-worker/src/runtime-registry.ts:322-337 | A heartbeat that arrives between the listing and the mark is kept, but its runtime still ends offline |

## Left out

- A thread that does not exist: the bridge answers NOT_FOUND before each protocol starts; the concurrent models begin with an existing thread.
- HTTP routing, authentication, role checks, payload schemas, audit of the bridge, metrics, configuration parsing: plumbing or one-branch facts.
- SQL text: each statement is one atomic step on a table with its unique keys; serialization failures (40001), which the bridge would retry like duplicates, do not occur in the model, so the contention bound counts duplicates only.
- tmux and child processes: the terminal's and the commands' answers are arbitrary parameters.
- Executors and fallbacks that throw, and workers that die: they would leave claimed jobs `triggering`; the model assumes they return.
- The supervisor's database statement that blocks a thread: it is a step of ThreadLifecycle, not of TriggerWorkers.
- Trigger details payloads, counters' names in responses, prompts and the terminal envelope (`pty-adapter.ts`): not read back by any protocol.
- String trimming and separator-joined keys: ids are taken as already normalised and keys are tuples.
- Number width: integers are unbounded, except the sequence overflow check, which uses 2^53 - 1; `2 ** k` is exact.
- Message metadata is a map from strings to strings; only its equality matters.
- The database's unread snapshot queries, thread summaries and the latest-resumable-session lookup: no state to protect.
- First heartbeats racing in the database store: the register is the in-memory one, where an upsert is one step.
- Stale hours of zero or less: configuration admits only positive values, and the source throws on others.
- RuntimeRegistry.OrderDoesNotMatter: says nothing about status and resumable, which marks also write.
- TriggerPatience.QueueDrains: is stated for one processor whose ticks do not overlap; for overlapping ticks the bound on attempts is proved, not how soon they are made.
