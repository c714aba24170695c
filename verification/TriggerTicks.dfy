/** One tick of the queue: what it records, and how it counts. */
module TriggerTicks {
  import opened Wrappers
  import opened TriggerModel
  import opened TriggerDecision
  import opened TriggerStore
  import opened TriggerProcessor

  function Recorded(job: Job, v: Verdict, now: int): Job {
    job.(status := v.nextStatus, attempts := job.attempts + 1, nextRetryAt := v.nextRetryAt, updatedAt := now)
  }

  /** The jobs are held: distinct, and `triggering` in the store exactly as handed out. */
  ghost predicate Held(store: StoreState, jobs: seq<Job>) {
    && DistinctIds(jobs)
    && forall job :: job in jobs ==>
         job.triggerId in store.jobs && store.jobs[job.triggerId] == job && job.status.Triggering?
  }

  lemma ClaimedAreHeld(store: StoreState, workspaceId: string, limit: nat, now: int)
    requires ValidStore(store)
    ensures Held(ClaimState(store, workspaceId, limit, now), ClaimResult(store, workspaceId, limit, now))
    ensures ValidStore(ClaimState(store, workspaceId, limit, now))
  {
    ClaimChangesNothingElse(store, workspaceId, limit, now);
    var claimed := ClaimResult(store, workspaceId, limit, now);
    forall job | job in claimed
      ensures job.triggerId in ClaimState(store, workspaceId, limit, now).jobs
      ensures ClaimState(store, workspaceId, limit, now).jobs[job.triggerId] == job && job.status.Triggering?
    {
      var i :| 0 <= i < |claimed| && claimed[i] == job;
      ClaimedJobsAreHeld(store, workspaceId, limit, now, i);
    }
  }

  /** One attempt touches only its own job. */
  lemma AttemptTouchesOnlyItsJob(cfg: Config, sys: Sys, job: Job, now: int, reply: Reply, id: string)
    requires job.triggerId != id
    ensures
      var after := AttemptOne(cfg, sys, job, now, reply).sys.store;
      && (id in after.jobs <==> id in sys.store.jobs)
      && (id in after.jobs ==> after.jobs[id] == sys.store.jobs[id])
      && AttemptsOf(after, id) == AttemptsOf(sys.store, id)
  {
  }

  /** Jobs outside the first `n` are as before. */
  lemma {:induction false} OthersUntouched(cfg: Config, sys: Sys, jobs: seq<Job>, now: int, script: seq<Reply>, n: nat,
                                           id: string)
    requires ValidStore(sys.store) && n <= |jobs| && n <= |script|
    requires forall i :: 0 <= i < n ==> jobs[i].triggerId != id
    ensures
      var after := ProcessFirst(cfg, sys, jobs, now, script, n).sys.store;
      && (id in after.jobs <==> id in sys.store.jobs)
      && (id in after.jobs ==> after.jobs[id] == sys.store.jobs[id])
      && AttemptsOf(after, id) == AttemptsOf(sys.store, id)
  {
    hide AttemptOne, Tally, AttemptsOf, ValidStore;
    if n > 0 {
      OthersUntouched(cfg, sys, jobs, now, script, n - 1, id);
      AttemptTouchesOnlyItsJob(cfg, ProcessFirst(cfg, sys, jobs, now, script, n - 1).sys, jobs[n - 1], now,
                               script[n - 1], id);
    }
  }

  /** Every held job gets exactly one attempt row, numbered one past its attempts, and lands in the status
      its verdict names. */
  lemma {:induction false} EachClaimRecordedOnce(cfg: Config, sys: Sys, jobs: seq<Job>, now: int, script: seq<Reply>,
                                                 n: nat, i: nat)
    requires ValidStore(sys.store) && Held(sys.store, jobs) && n <= |script|
    requires i < n <= |jobs|
    ensures
      var p := ProcessFirst(cfg, sys, jobs, now, script, n);
      var id := jobs[i].triggerId;
      && |p.verdicts| == n && |p.traces| == n
      && id in p.sys.store.jobs
      && p.sys.store.jobs[id] == Recorded(jobs[i], p.verdicts[i], now)
      && AttemptsOf(p.sys.store, id) == AttemptsOf(sys.store, id)
           + [Attempt(jobs[i].attempts + 1, p.verdicts[i].outcome.result, p.verdicts[i].outcome.errorCode, now)]
  {
    hide AttemptOne, Tally, ValidStore, AttemptsOf, Recorded;
    ProcessLengths(cfg, sys, jobs, now, script, n - 1);
    var before := ProcessFirst(cfg, sys, jobs, now, script, n - 1).sys;
    assert jobs[i] in jobs;
    if i < n - 1 {
      EachClaimRecordedOnce(cfg, sys, jobs, now, script, n - 1, i);
      AttemptTouchesOnlyItsJob(cfg, before, jobs[n - 1], now, script[n - 1], jobs[i].triggerId);
    } else {
      OthersUntouched(cfg, sys, jobs, now, script, n - 1, jobs[i].triggerId);
      AttemptRecordsHeldJob(cfg, before, jobs[i], now, script[i]);
    }
  }

  /** Every job of a tick is recorded as what the executor and the fallback answered for it, and what the two guards
      said, asks for. */
  lemma {:induction false} TickFollowsTheAnswers(cfg: Config, sys: Sys, jobs: seq<Job>, now: int, script: seq<Reply>,
                                                 n: nat, i: nat)
    requires ValidStore(sys.store) && Held(sys.store, jobs) && n <= |script| && i < n <= |jobs|
    ensures
      var p := ProcessFirst(cfg, sys, jobs, now, script, n);
      |p.traces| == n && RecordedAs(cfg, sys.store, p.sys.store, jobs[i], now, script[i], p.traces[i])
  {
    hide AttemptOne, Tally, ValidStore, AttemptsOf, Follows;
    ProcessLengths(cfg, sys, jobs, now, script, n - 1);
    var before := ProcessFirst(cfg, sys, jobs, now, script, n - 1).sys;
    assert jobs[i] in jobs;
    if i < n - 1 {
      TickFollowsTheAnswers(cfg, sys, jobs, now, script, n - 1, i);
      AttemptTouchesOnlyItsJob(cfg, before, jobs[n - 1], now, script[n - 1], jobs[i].triggerId);
    } else {
      OthersUntouched(cfg, sys, jobs, now, script, n - 1, jobs[i].triggerId);
      AttemptFollowsTheAnswers(cfg, before, jobs[i], now, script[i]);
    }
  }

  /** An attempt on a held job always finds it `triggering`. */
  lemma AttemptRecordsHeldJob(cfg: Config, sys: Sys, job: Job, now: int, reply: Reply)
    requires job.triggerId in sys.store.jobs && sys.store.jobs[job.triggerId] == job && job.status.Triggering?
    ensures
      var done := AttemptOne(cfg, sys, job, now, reply);
      var id := job.triggerId;
      && id in done.sys.store.jobs
      && done.sys.store.jobs[id] == Recorded(job, done.verdict, now)
      && AttemptsOf(done.sys.store, id) == AttemptsOf(sys.store, id)
           + [Attempt(job.attempts + 1, done.verdict.outcome.result, done.verdict.outcome.errorCode, now)]
  {
  }

  lemma {:induction false} ProcessLengths(cfg: Config, sys: Sys, jobs: seq<Job>, now: int, script: seq<Reply>, n: nat)
    requires n <= |jobs| && n <= |script|
    ensures |ProcessFirst(cfg, sys, jobs, now, script, n).verdicts| == n
    ensures |ProcessFirst(cfg, sys, jobs, now, script, n).traces| == n
  {
    hide AttemptOne, Tally;
    if n > 0 {
      ProcessLengths(cfg, sys, jobs, now, script, n - 1);
    }
  }

  // ----- threads that the guard blocks

  /** Blocks stay as they are; new ones are of threads whose attempts the guard stopped, since the tick's time. */
  ghost predicate BlocksAre(before: map<string, BlockRecord>, after: map<string, BlockRecord>, jobs: seq<Job>,
                            traces: seq<Trace>, n: nat, now: int)
    requires n <= |jobs| && n <= |traces|
  {
    && (forall id :: id in before ==> id in after && after[id] == before[id])
    && (forall id :: id in after && id !in before ==>
         after[id].blockedAt == now && exists i :: 0 <= i < n && jobs[i].threadId == id && traces[i].blocked)
    && (forall i :: 0 <= i < n && traces[i].blocked ==> jobs[i].threadId in after)
  }

  lemma AttemptBlocks(cfg: Config, sys: Sys, job: Job, now: int, reply: Reply)
    ensures
      var done, before := AttemptOne(cfg, sys, job, now, reply), sys.store.blocked;
      var after := done.sys.store.blocked;
      if done.trace.blocked && job.threadId !in before then
        job.threadId in after && after == before[job.threadId := after[job.threadId]]
          && after[job.threadId].blockedAt == now
      else after == before
  {
    hide Admit, Decide, TakeTurn;
  }

  /** A tick blocks exactly the threads whose attempts the guard stopped, each once and for good, and `autoBlocked`
      counts them. */
  lemma {:induction false} TickBlocksThreads(cfg: Config, sys: Sys, jobs: seq<Job>, now: int, script: seq<Reply>,
                                             n: nat)
    requires n <= |jobs| && n <= |script|
    ensures
      var p := ProcessFirst(cfg, sys, jobs, now, script, n);
      && |p.traces| == n && BlocksAre(sys.store.blocked, p.sys.store.blocked, jobs, p.traces, n, now)
      && |p.sys.store.blocked| == |sys.store.blocked| + p.counts.autoBlocked
  {
    hide AttemptOne, Tally, BlocksAre;
    ProcessLengths(cfg, sys, jobs, now, script, n);
    if n == 0 {
      NothingBlocked(sys.store.blocked, jobs, now);
    } else {
      ProcessLengths(cfg, sys, jobs, now, script, n - 1);
      TickBlocksThreads(cfg, sys, jobs, now, script, n - 1);
      var before := ProcessFirst(cfg, sys, jobs, now, script, n - 1);
      var done := AttemptOne(cfg, before.sys, jobs[n - 1], now, script[n - 1]);
      AttemptBlocks(cfg, before.sys, jobs[n - 1], now, script[n - 1]);
      TallyCounts(before.counts, done.verdict);
      OneMoreBlock(sys.store.blocked, before.sys.store.blocked, done.sys.store.blocked, jobs, before.traces, done.trace,
                   n, now);
    }
  }

  lemma NothingBlocked(blocked: map<string, BlockRecord>, jobs: seq<Job>, now: int)
    ensures BlocksAre(blocked, blocked, jobs, [], 0, now)
  {
  }

  lemma OneMoreBlock(start: map<string, BlockRecord>, before: map<string, BlockRecord>,
                     after: map<string, BlockRecord>, jobs: seq<Job>, traces: seq<Trace>, trace: Trace, n: nat,
                     now: int)
    requires 0 < n <= |jobs| && |traces| == n - 1 && BlocksAre(start, before, jobs, traces, n - 1, now)
    requires
      var id := jobs[n - 1].threadId;
      if trace.blocked && id !in before then
        id in after && after == before[id := after[id]] && after[id].blockedAt == now
      else after == before
    ensures BlocksAre(start, after, jobs, traces + [trace], n, now)
    ensures |after| == |before| + if trace.blocked && jobs[n - 1].threadId !in before then 1 else 0
  {
    var id, all := jobs[n - 1].threadId, traces + [trace];
    assert all[n - 1] == trace;
    if trace.blocked && id !in before {
      assert after.Keys == before.Keys + {id};
      assert |after.Keys| == |after| && |before.Keys| == |before|;
    }
    forall other | other in after && other !in start
      ensures exists i :: 0 <= i < n && jobs[i].threadId == other && all[i].blocked
    {
      if other in before {
        var i :| 0 <= i < n - 1 && jobs[i].threadId == other && traces[i].blocked;
        assert all[i] == traces[i];
      }
    }
  }

  lemma TallyCounts(c: Counts, v: Verdict)
    ensures Tally(c, v, true).autoBlocked == c.autoBlocked + 1 && Tally(c, v, false).autoBlocked == c.autoBlocked
  {
  }

  // ----- counters

  /** How many verdicts end in a status. */
  function CountStatus(vs: seq<Verdict>, status: Status): nat {
    if vs == [] then 0
    else CountStatus(vs[..|vs| - 1], status) + (if vs[|vs| - 1].nextStatus == status then 1 else 0)
  }

  /** How many failed although no retry was due. */
  function CountFailures(vs: seq<Verdict>): nat {
    if vs == [] then 0
    else CountFailures(vs[..|vs| - 1])
           + (if vs[|vs| - 1].nextStatus.Failed? && !vs[|vs| - 1].shouldRetry then 1 else 0)
  }

  /** Each verdict is counted exactly once, and the counters say where the jobs went: `delivered` counts the jobs that
      reached a success status, `failed` and `deadLettered` those that failed when no retry was due, and `retried` the
      rest: all that are still due, and the retries that the guard turned into dead letters. */
  predicate Conserved(c: Counts, vs: seq<Verdict>) {
    && c.delivered + c.retried + c.failed == |vs|
    && c.fallbackResumed == CountStatus(vs, FallbackResume)
    && c.fallbackSpawned == CountStatus(vs, FallbackSpawn)
    && c.delivered == CountStatus(vs, Delivered) + c.fallbackResumed + c.fallbackSpawned
    && c.deadLettered == c.failed == CountFailures(vs) <= CountStatus(vs, Failed)
    && c.failed + c.retried == CountStatus(vs, Failed) + CountStatus(vs, Deferred) + CountStatus(vs, Timeout)
    && c.autoBlocked <= CountStatus(vs, Failed)
  }

  /** A retry was due for a job of a tick exactly if it was rate-limited, or its executor answered with a retryable
      outcome that is a deferral or comes within `maxRetries`. */
  lemma {:induction false} TickRetriesAreDue(cfg: Config, sys: Sys, jobs: seq<Job>, now: int, script: seq<Reply>,
                                             n: nat, i: nat)
    requires i < n <= |jobs| && n <= |script|
    ensures
      var p, o := ProcessFirst(cfg, sys, jobs, now, script, n), script[i].outcome;
      && |p.verdicts| == |p.traces| == n
      && (p.verdicts[i].shouldRetry <==>
          || !p.traces[i].invoked
          || (o.retryable && (o.result == AttemptDeferred || jobs[i].attempts + 1 <= jobs[i].maxRetries)))
  {
    hide AttemptOne, Tally;
    ProcessLengths(cfg, sys, jobs, now, script, n - 1);
    if i < n - 1 {
      TickRetriesAreDue(cfg, sys, jobs, now, script, n - 1, i);
    } else {
      RetryIsDue(cfg, ProcessFirst(cfg, sys, jobs, now, script, n - 1).sys, jobs[n - 1], now, script[n - 1]);
    }
  }

  lemma RetryIsDue(cfg: Config, sys: Sys, job: Job, now: int, reply: Reply)
    ensures
      var done, o := AttemptOne(cfg, sys, job, now, reply), reply.outcome;
      done.verdict.shouldRetry <==>
        || !done.trace.invoked
        || (o.retryable && (o.result == AttemptDeferred || job.attempts + 1 <= job.maxRetries))
  {
    hide BlockState, RecordState, TakeTurn;
  }

  /** The counters of a whole tick are conserved. */
  lemma {:induction false} TickConserves(cfg: Config, sys: Sys, jobs: seq<Job>, now: int, script: seq<Reply>, n: nat)
    requires n <= |jobs| && n <= |script|
    requires forall i :: 0 <= i < n ==> GoodReply(script[i])
    ensures Conserved(ProcessFirst(cfg, sys, jobs, now, script, n).counts,
                      ProcessFirst(cfg, sys, jobs, now, script, n).verdicts)
  {
    hide *;
    if n == 0 {
      ProcessNone(cfg, sys, jobs, now, script);
    } else {
      TickConserves(cfg, sys, jobs, now, script, n - 1);
      var before := ProcessFirst(cfg, sys, jobs, now, script, n - 1);
      assert GoodReply(script[n - 1]);
      AttemptConserves(cfg, before, jobs[n - 1], now, script[n - 1]);
      ProcessStep(cfg, sys, jobs, now, script, n);
    }
  }

  lemma ProcessNone(cfg: Config, sys: Sys, jobs: seq<Job>, now: int, script: seq<Reply>)
    ensures Conserved(ProcessFirst(cfg, sys, jobs, now, script, 0).counts,
                      ProcessFirst(cfg, sys, jobs, now, script, 0).verdicts)
  {
    assert forall s :: CountStatus([], s) == 0;
  }

  lemma AttemptConserves(cfg: Config, p: Progressed, job: Job, now: int, reply: Reply)
    requires GoodReply(reply) && Conserved(p.counts, p.verdicts)
    ensures Conserved(Extend(cfg, p, job, now, reply).counts, Extend(cfg, p, job, now, reply).verdicts)
  {
    hide AttemptOne, Tally, Conserved, CountStatus, CountFailures, VerdictClass;
    var done := AttemptOne(cfg, p.sys, job, now, reply);
    VerdictClasses(cfg, p.sys, job, now, reply);
    var newlyBlocked := done.trace.blocked && job.threadId !in p.sys.store.blocked;
    TallyConserves(p.counts, p.verdicts, done.verdict, done.trace.blocked, newlyBlocked);
  }

  lemma TallyConserves(c: Counts, vs: seq<Verdict>, v: Verdict, blocked: bool, newlyBlocked: bool)
    requires Conserved(c, vs) && VerdictClass(v, blocked) && (newlyBlocked ==> blocked)
    ensures Conserved(Tally(c, v, newlyBlocked), vs + [v])
  {
    assert (vs + [v])[..|vs|] == vs;
    assert forall s :: CountStatus(vs + [v], s) == CountStatus(vs, s) + (if v.nextStatus == s then 1 else 0);
  }

  predicate VerdictClass(v: Verdict, blocked: bool) {
    && (v.outcome.result.AttemptDelivered? ==> v.nextStatus.Delivered?)
    && (v.outcome.result.ResumeSucceeded? <==> v.nextStatus.FallbackResume?)
    && (v.outcome.result.Spawned? <==> v.nextStatus.FallbackSpawn?)
    && (!IsProgress(v.outcome.result) ==>
         if blocked then v.nextStatus.Failed? && !v.outcome.result.ResumeFailed?
         else if v.shouldRetry then (v.nextStatus.Deferred? || v.nextStatus.Timeout?) && !v.outcome.result.ResumeFailed?
         else v.nextStatus.Failed?)
    && (blocked ==> !IsProgress(v.outcome.result))
  }

  /** The verdicts that executors and fallbacks within their contracts can lead to. */
  lemma VerdictClasses(cfg: Config, sys: Sys, job: Job, now: int, reply: Reply)
    requires GoodReply(reply)
    ensures
      var done := AttemptOne(cfg, sys, job, now, reply);
      VerdictClass(done.verdict, done.trace.blocked)
  {
  }
}
