/** The queue processor: one tick claims due jobs and takes each through the rate limiter, the executor,
    the retry decision, the fallback, the loop guard and the record. */
module TriggerProcessor {
  import opened Wrappers
  import opened Numbers
  import opened SlidingWindow
  import opened TriggerModel
  import opened TriggerDecision
  import opened TriggerStore

  datatype RateKey = RateKey(workspaceId: string, threadId: string, agentId: string)

  function KeyOf(job: Job): RateKey {
    RateKey(job.workspaceId, job.threadId, job.agentId)
  }

  /** The processor's memory between ticks. */
  datatype Memory = Memory(rates: map<RateKey, seq<int>>, loops: map<string, LoopState>)

  const FRESH_MEMORY := Memory(map[], map[])

  function EventsOf(m: Memory, key: RateKey): seq<int> {
    if key in m.rates then m.rates[key] else []
  }

  function LoopOf(m: Memory, threadId: string): Option<LoopState> {
    if threadId in m.loops then Some(m.loops[threadId]) else None
  }

  // ----- rate limiter

  datatype RateStep = RateStep(events: seq<int>, limited: Option<Outcome>)

  function RateLimit(cfg: Config, events: seq<int>, now: int): RateStep {
    var recent := Recent(events, now - RATE_WINDOW_MS);
    if |recent| >= cfg.rateLimitPerMinute then
      var retryAfter := if recent == [] then cfg.deferRecheckMs else recent[0] + RATE_WINDOW_MS - now;
      RateStep(recent, Some(Outcome(AttemptDeferred, true, Some(Max(retryAfter, cfg.deferRecheckMs)),
                                    Some("TRIGGER_RATE_LIMITED"))))
    else
      RateStep(recent + [now], None)
  }

  function Admit(cfg: Config, m: Memory, job: Job, now: int): (Memory, Option<Outcome>) {
    var step := RateLimit(cfg, EventsOf(m, KeyOf(job)), now);
    (m.(rates := m.rates[KeyOf(job) := step.events]), step.limited)
  }

  function TakeTurn(cfg: Config, m: Memory, threadId: string, turn: Turn): (Memory, Option<BlockReason>) {
    var step := UpdateLoop(cfg, LoopOf(m, threadId), turn);
    (m.(loops := match step.next
                 case None => m.loops - {threadId}
                 case Some(state) => m.loops[threadId := state]),
     step.block)
  }

  // ----- one attempt

  /** What the outside world answers for one claimed job: the executor, and the fallback if it is asked. */
  datatype Reply = Reply(outcome: Outcome, fallback: FallbackOutcome)

  ghost predicate GoodReply(r: Reply) {
    ExecutorContract(r.outcome) && FallbackContract(r.fallback)
  }

  datatype Sys = Sys(memory: Memory, store: StoreState)

  /** What one attempt did, for statements about whole runs. */
  datatype Trace = Trace(key: RateKey, at: int, invoked: bool, turn: Turn, blocked: bool)

  datatype Attempted = Attempted(sys: Sys, verdict: Verdict, trace: Trace)

  function AttemptOne(cfg: Config, sys: Sys, job: Job, now: int, reply: Reply): Attempted {
    var (m1, limited) := Admit(cfg, sys.memory, job, now);
    var decided := Decide(cfg, job, now, limited.GetOr(reply.outcome), reply.fallback);
    var turn := TurnOf(decided.outcome);
    var (m2, block) := TakeTurn(cfg, m1, job.threadId, turn);
    var store1 := if block.Some? then BlockState(sys.store, job.threadId, BlockRecord(now, block.value)) else sys.store;
    var v := if block.Some? then AutoBlocked(decided) else decided;
    var attempt := Attempt(job.attempts + 1, v.outcome.result, v.outcome.errorCode, now);
    Attempted(
      Sys(m2, RecordState(store1, job.triggerId, attempt, v.nextStatus, v.nextRetryAt)),
      v,
      Trace(KeyOf(job), now, limited.None?, turn, block.Some?))
  }

  /** What is recorded for one attempt on a claimed job, in terms of what the executor and the fallback answered.
      `invoked` says that the limiter let the executor be asked, `blocked` that the loop guard stepped in, and `turn`
      is what the guard saw. A delivery is recorded as one, whatever the fallback would say; a deferral and a timeout
      with retries left wait for the time their answer or the backoff names; in every other case, and only there, the
      record is the fallback's. */
  ghost predicate Follows(cfg: Config, job: Job, now: int, reply: Reply, trace: Trace, row: Job, attempt: Attempt) {
    var o, n := reply.outcome, job.attempts + 1;
    var delivered := trace.invoked && o.result.AttemptDelivered?;
    var again := trace.invoked && !delivered && o.retryable && (o.result.AttemptDeferred? || n <= job.maxRetries);
    var result :=
      if !trace.invoked then AttemptDeferred else if delivered || again then o.result else reply.fallback.result;
    var code :=
      if !trace.invoked then Some("TRIGGER_RATE_LIMITED")
      else if delivered || again then o.errorCode else reply.fallback.errorCode;
    var progress := result in {AttemptDelivered, ResumeSucceeded, Spawned};
    && trace.key == RateKey(job.workspaceId, job.threadId, job.agentId) && trace.at == now
    && trace.turn == (if progress then Progress
                      else Finding(if code.Some? then code.value else "UNKNOWN_TRIGGER_ERROR"))
    && row == job.(attempts := n, status := row.status, nextRetryAt := row.nextRetryAt, updatedAt := now)
    && attempt.attemptNo == n && attempt.createdAt == now
    && (if trace.blocked then
          && !progress && attempt.result == AttemptFailed && attempt.errorCode == Some("THREAD_AUTO_BLOCKED")
          && row.status == Failed && row.nextRetryAt == None
        else
          && attempt.result == result && attempt.errorCode == code
          && row.status == (if delivered then Delivered
                            else if !trace.invoked || (again && o.result.AttemptDeferred?) then Deferred
                            else if again && o.result.AttemptTimeout? then Timeout
                            else if again then Failed
                            else reply.fallback.nextStatus)
          && (!trace.invoked ==> row.nextRetryAt.Some? && row.nextRetryAt.value >= now + cfg.deferRecheckMs)
          && (again ==>
               row.nextRetryAt == Some(now + if !o.result.AttemptDeferred? then Backoff(cfg, n)
                                             else if o.retryAfterMs.Some? then o.retryAfterMs.value
                                             else cfg.deferRecheckMs))
          && (trace.invoked && !again ==> row.nextRetryAt.None?))
  }

  predicate Claims(store: StoreState, job: Job) {
    job.triggerId in store.jobs && store.jobs[job.triggerId] == job && job.status.Triggering?
  }

  /** The limiter's own deferral. */
  predicate IsLimit(cfg: Config, o: Outcome) {
    && o.result.AttemptDeferred? && o.retryable && o.errorCode == Some("TRIGGER_RATE_LIMITED")
    && o.retryAfterMs.Some? && o.retryAfterMs.value >= cfg.deferRecheckMs
  }

  /** What is decided for one attempt follows the answers. */
  lemma VerdictFollows(cfg: Config, job: Job, now: int, reply: Reply, limited: Option<Outcome>, v: Verdict,
                       trace: Trace)
    requires limited.Some? ==> IsLimit(cfg, limited.value)
    requires v == Decide(cfg, job, now, limited.GetOr(reply.outcome), reply.fallback)
    requires trace == Trace(KeyOf(job), now, limited.None?, TurnOf(v.outcome), trace.blocked)
    requires trace.blocked ==> trace.turn.Finding?
    ensures
      var final := if trace.blocked then AutoBlocked(v) else v;
      Follows(cfg, job, now, reply, trace,
              job.(attempts := job.attempts + 1, status := final.nextStatus, nextRetryAt := final.nextRetryAt,
                   updatedAt := now),
              Attempt(job.attempts + 1, final.outcome.result, final.outcome.errorCode, now))
  {
  }

  /** From `before` to `after` the job gained one attempt row, and both it and the job's row follow the answers. */
  ghost predicate RecordedAs(cfg: Config, before: StoreState, after: StoreState, job: Job, now: int, reply: Reply,
                             trace: Trace) {
    && job.triggerId in after.jobs
    && exists attempt ::
         && AttemptsOf(after, job.triggerId) == AttemptsOf(before, job.triggerId) + [attempt]
         && Follows(cfg, job, now, reply, trace, after.jobs[job.triggerId], attempt)
  }

  /** Every attempt on a claimed job is recorded as the answers say. */
  lemma AttemptFollowsTheAnswers(cfg: Config, sys: Sys, job: Job, now: int, reply: Reply)
    requires Claims(sys.store, job)
    ensures
      var done := AttemptOne(cfg, sys, job, now, reply);
      RecordedAs(cfg, sys.store, done.sys.store, job, now, reply, done.trace)
  {
    var done := AttemptOne(cfg, sys, job, now, reply);
    var attempt := Attempt(job.attempts + 1, done.verdict.outcome.result, done.verdict.outcome.errorCode, now);
    assert AttemptsOf(done.sys.store, job.triggerId) == AttemptsOf(sys.store, job.triggerId) + [attempt];
    var limited := Admit(cfg, sys.memory, job, now).1;
    hide Follows, Decide, RecordState;
    VerdictFollows(cfg, job, now, reply, limited,
                   Decide(cfg, job, now, limited.GetOr(reply.outcome), reply.fallback), done.trace);
    assert Follows(cfg, job, now, reply, done.trace, done.sys.store.jobs[job.triggerId], attempt);
  }

  // ----- counters

  datatype Counts = Counts(
    delivered: nat, retried: nat, deadLettered: nat, failed: nat, fallbackResumed: nat, fallbackSpawned: nat,
    autoBlocked: nat)

  const ZERO := Counts(0, 0, 0, 0, 0, 0, 0)

  function Tally(c: Counts, v: Verdict, newlyBlocked: bool): Counts {
    var c' := if newlyBlocked then c.(autoBlocked := c.autoBlocked + 1) else c;
    if IsProgress(v.outcome.result) then
      c'.(delivered := c.delivered + 1,
          fallbackResumed := c.fallbackResumed + (if v.outcome.result.ResumeSucceeded? then 1 else 0),
          fallbackSpawned := c.fallbackSpawned + (if v.outcome.result.Spawned? then 1 else 0))
    else if v.shouldRetry && !v.outcome.result.ResumeFailed? then
      c'.(retried := c.retried + 1)
    else
      c'.(failed := c.failed + 1, deadLettered := c.deadLettered + (if v.nextStatus.Failed? then 1 else 0))
  }

  // ----- a tick

  datatype Progressed = Progressed(sys: Sys, counts: Counts, traces: seq<Trace>, verdicts: seq<Verdict>)

  /** One more attempt. */
  function Extend(cfg: Config, p: Progressed, job: Job, now: int, reply: Reply): Progressed {
    var done := AttemptOne(cfg, p.sys, job, now, reply);
    var newlyBlocked := done.trace.blocked && job.threadId !in p.sys.store.blocked;
    Progressed(done.sys, Tally(p.counts, done.verdict, newlyBlocked), p.traces + [done.trace],
               p.verdicts + [done.verdict])
  }

  /** The first `n` claimed jobs processed in order. */
  function ProcessFirst(cfg: Config, sys: Sys, jobs: seq<Job>, now: int, script: seq<Reply>, n: nat): Progressed
    requires n <= |jobs| && n <= |script|
  {
    if n == 0 then Progressed(sys, ZERO, [], [])
    else Extend(cfg, ProcessFirst(cfg, sys, jobs, now, script, n - 1), jobs[n - 1], now, script[n - 1])
  }

  lemma ProcessStep(cfg: Config, sys: Sys, jobs: seq<Job>, now: int, script: seq<Reply>, n: nat)
    requires 0 < n <= |jobs| && n <= |script|
    ensures ProcessFirst(cfg, sys, jobs, now, script, n)
         == Extend(cfg, ProcessFirst(cfg, sys, jobs, now, script, n - 1), jobs[n - 1], now, script[n - 1])
  {
  }

  datatype Tick = Tick(workspaceId: string, limit: nat, now: int, script: seq<Reply>)

  ghost predicate GoodTick(tick: Tick) {
    tick.limit <= |tick.script| && forall r :: r in tick.script ==> GoodReply(r)
  }

  lemma GoodTickFits(tick: Tick)
    requires GoodTick(tick)
    ensures tick.limit <= |tick.script|
  {
  }

  lemma ClaimFitsScript(store: StoreState, tick: Tick)
    requires forall id :: id in store.order ==> id in store.jobs
    requires tick.limit <= |tick.script|
    ensures |ClaimResult(store, tick.workspaceId, tick.limit, tick.now)| <= |tick.script|
  {
    var c := Candidates(store, tick.workspaceId, tick.limit, tick.now);
    ClaimedCopiesAt(c, tick.now, |c|);
  }

  ghost function RunTick(cfg: Config, sys: Sys, tick: Tick): Progressed
    requires ValidStore(sys.store) && tick.limit <= |tick.script|
  {
    ClaimFitsScript(sys.store, tick);
    var claimed := ClaimResult(sys.store, tick.workspaceId, tick.limit, tick.now);
    ProcessFirst(cfg, sys.(store := ClaimState(sys.store, tick.workspaceId, tick.limit, tick.now)), claimed, tick.now,
                 tick.script, |claimed|)
  }

  datatype TickResult = TickResult(claimedJobs: nat, counts: Counts, deadLetterJobIds: seq<string>)

  function Ids(jobs: seq<Job>): seq<string> {
    if jobs == [] then [] else [jobs[0].triggerId] + Ids(jobs[1..])
  }

  lemma AttemptKeepsValidStore(cfg: Config, sys: Sys, job: Job, now: int, reply: Reply)
    requires ValidStore(sys.store)
    ensures ValidStore(AttemptOne(cfg, sys, job, now, reply).sys.store)
    ensures AttemptOne(cfg, sys, job, now, reply).sys.store.order == sys.store.order
  {
  }

  lemma {:induction false} ProcessKeepsValidStore(cfg: Config, sys: Sys, jobs: seq<Job>, now: int, script: seq<Reply>,
                                                  n: nat)
    requires ValidStore(sys.store) && n <= |jobs| && n <= |script|
    ensures ValidStore(ProcessFirst(cfg, sys, jobs, now, script, n).sys.store)
    ensures ProcessFirst(cfg, sys, jobs, now, script, n).sys.store.order == sys.store.order
  {
    hide AttemptOne, Tally, ValidStore;
    if n > 0 {
      ProcessKeepsValidStore(cfg, sys, jobs, now, script, n - 1);
      AttemptKeepsValidStore(cfg, ProcessFirst(cfg, sys, jobs, now, script, n - 1).sys, jobs[n - 1], now,
                             script[n - 1]);
    }
  }

  class TriggerQueueProcessor {
    const cfg: Config
    const store: InMemoryTriggerQueueStore
    var rateLimitEvents: map<RateKey, seq<int>>
    var threadLoopState: map<string, LoopState>

    ghost predicate Valid()
      reads this, store
    {
      store.Valid()
    }

    ghost function State(): Sys
      reads this, store
    {
      Sys(Memory(rateLimitEvents, threadLoopState), store.State())
    }

    constructor (store: InMemoryTriggerQueueStore, cfg: Config)
      requires store.Valid()
      ensures this.store == store && this.cfg == cfg && Valid()
      ensures State() == Sys(FRESH_MEMORY, store.State())
    {
      this.store, this.cfg := store, cfg;
      rateLimitEvents, threadLoopState := map[], map[];
    }

    method ApplyRateLimit(job: Job, now: int) returns (limited: Option<Outcome>)
      modifies this`rateLimitEvents
      ensures (Memory(rateLimitEvents, threadLoopState), limited)
        == old(Admit(cfg, Memory(rateLimitEvents, threadLoopState), job, now))
    {
      var key := KeyOf(job);
      var windowStart := now - RATE_WINDOW_MS;
      var existing := if key in rateLimitEvents then rateLimitEvents[key] else [];
      var recent := Recent(existing, windowStart);
      if |recent| >= cfg.rateLimitPerMinute {
        var retryAfterMs := if recent == [] then cfg.deferRecheckMs else recent[0] + RATE_WINDOW_MS - now;
        rateLimitEvents := rateLimitEvents[key := recent];
        return Some(Outcome(AttemptDeferred, true, Some(Max(retryAfterMs, cfg.deferRecheckMs)),
                            Some("TRIGGER_RATE_LIMITED")));
      }
      rateLimitEvents := rateLimitEvents[key := recent + [now]];
      return None;
    }

    method UpdateLoopState(threadId: string, outcome: Outcome) returns (block: Option<BlockReason>)
      modifies this`threadLoopState
      ensures (Memory(rateLimitEvents, threadLoopState), block)
           == old(TakeTurn(cfg, Memory(rateLimitEvents, threadLoopState), threadId, TurnOf(outcome)))
    {
      if IsProgress(outcome.result) {
        threadLoopState := threadLoopState - {threadId};
        return None;
      }
      var previous := if threadId in threadLoopState then threadLoopState[threadId] else LoopState(0, None, 0);
      var turns := previous.noProgressTurns + 1;
      var errorCode := outcome.errorCode.GetOr("UNKNOWN_TRIGGER_ERROR");
      var cycles := if previous.repeatedErrorCode == Some(errorCode) then previous.repeatedFindingCycles + 1 else 1;
      threadLoopState := threadLoopState[threadId := LoopState(turns, Some(errorCode), cycles)];
      if turns >= cfg.loopMaxTurns {
        return Some(NoProgressTurns(turns));
      }
      if cycles >= cfg.loopMaxRepeatedFindings {
        return Some(RepeatedFindings(cycles, errorCode));
      }
      return None;
    }

    /** The retry decision and, when it is final, the answer of the fallback. */
    method Resolve(job: Job, processedAt: int, outcome: Outcome, fallback: FallbackOutcome) returns (verdict: Verdict)
      ensures verdict == Decide(cfg, job, processedAt, outcome, fallback)
    {
      var attemptNo := job.attempts + 1;
      var shouldRetry :=
        if outcome.result.AttemptDeferred? then outcome.retryable
        else outcome.retryable && attemptNo <= job.maxRetries;
      var finalOutcome := outcome;
      var nextStatus :=
        if outcome.result.AttemptDelivered? then Delivered
        else if shouldRetry then RetryStatus(outcome.result)
        else Failed;
      var nextRetryAt :=
        if outcome.result.AttemptDelivered? || !shouldRetry then None
        else Some(processedAt + (if outcome.result.AttemptDeferred? then outcome.retryAfterMs.GetOr(cfg.deferRecheckMs)
                                 else Backoff(cfg, attemptNo)));
      if !shouldRetry && !outcome.result.AttemptDelivered? {
        finalOutcome := Outcome(fallback.result, false, None, fallback.errorCode);
        nextStatus := fallback.nextStatus;
        nextRetryAt := None;
      }
      verdict := Verdict(finalOutcome, nextStatus, nextRetryAt, shouldRetry);
    }

    /** The loop guard: a blocked thread turns the verdict into a dead letter. */
    method Guard(job: Job, processedAt: int, decided: Verdict)
      returns (verdict: Verdict, blocked: bool, newlyBlocked: bool)
      requires Valid()
      modifies this`threadLoopState, store`blockedThreads
      ensures Valid()
      ensures
        var (m, block) := TakeTurn(cfg, old(State().memory), job.threadId, TurnOf(decided.outcome));
        && State().memory == m
        && blocked == block.Some?
        && verdict == (if blocked then AutoBlocked(decided) else decided)
        && newlyBlocked == (blocked && job.threadId !in old(store.blockedThreads))
        && State().store
           == if blocked then BlockState(old(State().store), job.threadId, BlockRecord(processedAt, block.value))
              else old(State().store)
    {
      verdict, blocked, newlyBlocked := decided, false, false;
      var block := UpdateLoopState(job.threadId, decided.outcome);
      if block.Some? {
        blocked := true;
        newlyBlocked := store.MarkThreadBlocked(job.threadId, processedAt, block.value);
        verdict := Verdict(Outcome(AttemptFailed, false, None, Some("THREAD_AUTO_BLOCKED")), Failed, None,
                           decided.shouldRetry);
      }
    }

    /** The body of the tick's loop for one claimed job. */
    method ProcessJob(job: Job, processedAt: int, reply: Reply) returns (verdict: Verdict, newlyBlocked: bool)
      requires Valid()
      modifies this, store
      ensures Valid()
      ensures State() == AttemptOne(cfg, old(State()), job, processedAt, reply).sys
      ensures verdict == AttemptOne(cfg, old(State()), job, processedAt, reply).verdict
      ensures newlyBlocked <==>
        AttemptOne(cfg, old(State()), job, processedAt, reply).trace.blocked
          && job.threadId !in old(store.blockedThreads)
      ensures old(Claims(store.State(), job)) ==>
        RecordedAs(cfg, old(store.State()), store.State(), job, processedAt, reply,
                   AttemptOne(cfg, old(State()), job, processedAt, reply).trace)
    {
      ghost var sys := State();
      hide Claims, RecordedAs;
      hide Decide, RateLimit, UpdateLoop, ValidStore, IsProgress;
      var limited := ApplyRateLimit(job, processedAt);
      var outcome := limited.GetOr(reply.outcome);
      var decided := Resolve(job, processedAt, outcome, reply.fallback);
      var blocked;
      verdict, blocked, newlyBlocked := Guard(job, processedAt, decided);
      var _ := store.RecordAttemptAndTransition(
        job.triggerId, job.attempts + 1, verdict.outcome.result, verdict.outcome.errorCode,
        verdict.nextStatus, verdict.nextRetryAt, processedAt);
      if Claims(sys.store, job) {
        AttemptFollowsTheAnswers(cfg, sys, job, processedAt, reply);
      }
    }

    method ProcessDueJobs(workspaceId: string, limit: nat, processedAt: int, script: seq<Reply>)
      returns (result: TickResult)
      requires Valid() && limit <= |script|
      modifies this, store
      ensures Valid()
      ensures State() == RunTick(cfg, old(State()), Tick(workspaceId, limit, processedAt, script)).sys
      ensures result.counts == RunTick(cfg, old(State()), Tick(workspaceId, limit, processedAt, script)).counts
      ensures result.claimedJobs == old(|ClaimResult(store.State(), workspaceId, limit, processedAt)|)
      ensures result.deadLetterJobIds == Ids(DeadLetters(store.State(), workspaceId, 20))
    {
      ghost var start := State();
      ClaimFitsScript(start.store, Tick(workspaceId, limit, processedAt, script));
      var claimedJobs := store.ClaimDueJobs(workspaceId, limit, processedAt);
      ghost var claimedSys := State();
      var counts := ZERO;
      for k := 0 to |claimedJobs|
        invariant Valid()
        invariant State() == ProcessFirst(cfg, claimedSys, claimedJobs, processedAt, script, k).sys
        invariant counts == ProcessFirst(cfg, claimedSys, claimedJobs, processedAt, script, k).counts
      {
        var verdict, newlyBlocked := ProcessJob(claimedJobs[k], processedAt, script[k]);
        counts := Tally(counts, verdict, newlyBlocked);
      }
      var deadLetter := store.ListDeadLetterJobs(workspaceId, 20);
      result := TickResult(|claimedJobs|, counts, Ids(deadLetter));
    }
  }
}
