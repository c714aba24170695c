/** The queue drains: conditions on the ticks alone under which every job that was not already stranded ends in a
    terminal status. */
module TriggerPatience {
  import opened Wrappers
  import opened Numbers
  import opened SlidingWindow
  import opened TriggerModel
  import opened TriggerDecision
  import opened TriggerStore
  import opened TriggerProcessor
  import opened TriggerTicks
  import opened TriggerDrain

  /** No delay that the settings or the executor's answers lead to is longer than `delay`. */
  ghost predicate DelaysWithin(cfg: Config, tick: Tick, delay: int) {
    && cfg.backoffMaxMs <= delay && cfg.deferRecheckMs <= delay && RATE_WINDOW_MS <= delay
    && forall r :: r in tick.script && r.outcome.retryAfterMs.Some? ==> r.outcome.retryAfterMs.value <= delay
  }

  /** Everything the limiter remembers lies in the past. */
  ghost predicate RatesPast(m: Memory, now: int) {
    forall key, t :: t in EventsOf(m, key) ==> t <= now
  }

  predicate RetryBy(job: Job, time: int) {
    LiveStatus(job.status) && job.nextRetryAt.Some? ==> job.nextRetryAt.value <= time
  }

  // ----- one attempt

  lemma AdmitKeepsPast(cfg: Config, m: Memory, job: Job, now: int)
    requires RatesPast(m, now)
    ensures RatesPast(Admit(cfg, m, job, now).0, now)
    ensures
      var limited := Admit(cfg, m, job, now).1;
      limited.Some? ==>
        && limited.value.retryAfterMs.Some? && limited.value.retryable && limited.value.result.AttemptDeferred?
        && limited.value.retryAfterMs.value <= Max(RATE_WINDOW_MS, cfg.deferRecheckMs)
  {
    RecentMembers(EventsOf(m, KeyOf(job)), now - RATE_WINDOW_MS);
    var recent := Recent(EventsOf(m, KeyOf(job)), now - RATE_WINDOW_MS);
    if recent != [] {
      var oldest := recent[0];
      assert oldest in recent;
      assert oldest in EventsOf(m, KeyOf(job));
    }
    var m' := Admit(cfg, m, job, now).0;
    forall key, t | t in EventsOf(m', key) ensures t <= now {
      if key != KeyOf(job) {
        assert t in EventsOf(m, key);
      }
    }
  }

  lemma TurnKeepsRates(cfg: Config, m: Memory, threadId: string, turn: Turn, now: int)
    requires RatesPast(m, now)
    ensures RatesPast(TakeTurn(cfg, m, threadId, turn).0, now)
  {
    var m' := TakeTurn(cfg, m, threadId, turn).0;
    forall key, t | t in EventsOf(m', key) ensures t <= now {
      assert t in EventsOf(m, key);
    }
  }

  lemma AttemptWaitsBriefly(cfg: Config, sys: Sys, job: Job, now: int, reply: Reply, delay: int)
    requires ValidConfig(cfg) && GoodReply(reply) && RatesPast(sys.memory, now)
    requires cfg.backoffMaxMs <= delay && cfg.deferRecheckMs <= delay && RATE_WINDOW_MS <= delay
    requires reply.outcome.retryAfterMs.Some? ==> reply.outcome.retryAfterMs.value <= delay
    ensures
      var done := AttemptOne(cfg, sys, job, now, reply);
      && RatesPast(done.sys.memory, now)
      && (done.verdict.nextRetryAt.Some? ==> done.verdict.nextRetryAt.value <= now + delay)
  {
    AdmitKeepsPast(cfg, sys.memory, job, now);
    hide RatesPast, RateLimit, UpdateLoop, Admit;
    var (m1, limited) := Admit(cfg, sys.memory, job, now);
    var decided := Decide(cfg, job, now, limited.GetOr(reply.outcome), reply.fallback);
    TurnKeepsRates(cfg, m1, job.threadId, TurnOf(decided.outcome), now);
  }

  // ----- one tick

  lemma {:induction false} ProcessingWaitsBriefly(
    cfg: Config, sys: Sys, jobs: seq<Job>, tick: Tick, n: nat, i: nat, delay: int)
    requires ValidConfig(cfg) && n <= |jobs| && n <= |tick.script| && GoodTick(tick) && DelaysWithin(cfg, tick, delay)
    requires RatesPast(sys.memory, tick.now)
    ensures
      var p := ProcessFirst(cfg, sys, jobs, tick.now, tick.script, n);
      && RatesPast(p.sys.memory, tick.now) && |p.verdicts| == n
      && (i < n && p.verdicts[i].nextRetryAt.Some? ==> p.verdicts[i].nextRetryAt.value <= tick.now + delay)
  {
    hide AttemptOne, Tally, RatesPast, GoodReply;
    if n > 0 {
      ProcessingWaitsBriefly(cfg, sys, jobs, tick, n - 1, i, delay);
      assert tick.script[n - 1] in tick.script;
      AttemptWaitsBriefly(cfg, ProcessFirst(cfg, sys, jobs, tick.now, tick.script, n - 1).sys, jobs[n - 1], tick.now,
                          tick.script[n - 1], delay);
    }
  }

  /** What a tick does to one job that nobody holds. */
  lemma TickTreats(cfg: Config, sys: Sys, tick: Tick, id: string, delay: int)
    requires ValidConfig(cfg) && ValidStore(sys.store) && GoodTick(tick) && DelaysWithin(cfg, tick, delay)
    requires RatesPast(sys.memory, tick.now) && id in sys.store.jobs && !sys.store.jobs[id].status.Triggering?
    ensures
      var after := RunTick(cfg, sys, tick).sys;
      && RatesPast(after.memory, tick.now) && id in after.store.jobs && !after.store.jobs[id].status.Triggering?
      && after.store.jobs[id].workspaceId == sys.store.jobs[id].workspaceId
      && (LiveStatus(after.store.jobs[id].status) ==> LiveStatus(sys.store.jobs[id].status))
      && (after.store.jobs[id] == sys.store.jobs[id] || RetryBy(after.store.jobs[id], tick.now + delay))
  {
    TickLeavesNothingClaimed(cfg, sys, tick, id);
    hide AttemptOne, Tally, ProcessFirst, ClaimState, ClaimResult, ValidStore, GoodTick, DelaysWithin, RatesPast;
    var claimed := ClaimResult(sys.store, tick.workspaceId, tick.limit, tick.now);
    var held := sys.(store := ClaimState(sys.store, tick.workspaceId, tick.limit, tick.now));
    ClaimedAreHeld(sys.store, tick.workspaceId, tick.limit, tick.now);
    ClaimChangesNothingElse(sys.store, tick.workspaceId, tick.limit, tick.now);
    GoodTickFits(tick);
    ClaimFitsScript(sys.store, tick);
    ProcessingWaitsBriefly(cfg, held, claimed, tick, |claimed|, 0, delay);
    if i :| 0 <= i < |claimed| && claimed[i].triggerId == id {
      EachClaimRecordedOnce(cfg, held, claimed, tick.now, tick.script, |claimed|, i);
      ClaimedJobsAreHeld(sys.store, tick.workspaceId, tick.limit, tick.now, i);
      ProcessingWaitsBriefly(cfg, held, claimed, tick, |claimed|, i, delay);
    } else {
      OthersUntouched(cfg, held, claimed, tick.now, tick.script, |claimed|, id);
    }
  }

  /** A tick at or after a live job's retry time attempts something. */
  lemma TickAttemptsWhenRetryHasCome(store: StoreState, tick: Tick, id: string)
    requires ValidStore(store) && tick.limit > 0 && id in store.jobs && store.jobs[id].workspaceId == tick.workspaceId
    requires !store.jobs[id].status.Triggering? && RetryBy(store.jobs[id], tick.now)
    ensures LiveStatus(store.jobs[id].status) ==>
      |ClaimResult(store, tick.workspaceId, tick.limit, tick.now)| >= 1
  {
    if LiveStatus(store.jobs[id].status) {
      DueTickAttempts(store, tick);
    }
  }

  // ----- runs in which enough ticks are far enough apart

  /** Ticks in the order of their times, of any workspaces and at any distances. */
  ghost predicate Regular(cfg: Config, ticks: seq<Tick>, delay: int) {
    && (forall i :: 0 <= i < |ticks| ==> GoodTick(ticks[i]) && DelaysWithin(cfg, ticks[i], delay))
    && (forall i, j :: 0 <= i <= j < |ticks| ==> ticks[i].now <= ticks[j].now)
  }

  /** Some of the ticks for one workspace, each at least the longest delay after the one picked before. */
  ghost predicate Picked(ticks: seq<Tick>, picks: seq<nat>, workspaceId: string, delay: int) {
    && picks != []
    && (forall k :: 0 <= k < |picks| ==>
         picks[k] < |ticks| && ticks[picks[k]].workspaceId == workspaceId && ticks[picks[k]].limit > 0)
    && (forall k :: 0 < k < |picks| ==>
         picks[k - 1] < picks[k] && ticks[picks[k - 1]].now + delay <= ticks[picks[k]].now)
  }

  lemma RegularAt(cfg: Config, ticks: seq<Tick>, delay: int, i: nat)
    requires Regular(cfg, ticks, delay) && i < |ticks|
    ensures GoodTick(ticks[i]) && DelaysWithin(cfg, ticks[i], delay) && delay >= RATE_WINDOW_MS
    ensures i > 0 ==> ticks[i - 1].now <= ticks[i].now
  {
  }

  /** `k` picks are among the first `n` ticks. */
  ghost predicate PicksBefore(picks: seq<nat>, n: nat, k: nat) {
    && k <= |picks| && (k > 0 ==> picks[k - 1] < n) && (k < |picks| ==> n <= picks[k])
  }

  /** The time of the next pick. */
  function Due(ticks: seq<Tick>, picks: seq<nat>, delay: int, k: nat): int
    requires picks != [] && k <= |picks| && forall i :: 0 <= i < |picks| ==> picks[i] < |ticks|
  {
    if k < |picks| then ticks[picks[k]].now else ticks[picks[|picks| - 1]].now + delay
  }

  /** The latest retry time that the start or the first `n` ticks can have left. */
  function Reach(ticks: seq<Tick>, first: int, delay: int, n: nat): int
    requires n <= |ticks|
  {
    if n == 0 then first else Max(first, ticks[n - 1].now + delay)
  }

  /** Where one job stands: in nobody's hands, due by `reach`; and if it is live, there has been an attempt for each
      of the first `k` picks, and either one more or the job is due by the next pick. */
  ghost predicate Waits(s: Sys, workspaceId: string, id: string, attempts: nat, k: nat, due: int, reach: int) {
    && ValidStore(s.store) && id in s.store.jobs
    && var job := s.store.jobs[id];
       && !job.status.Triggering? && job.workspaceId == workspaceId && RetryBy(job, reach)
       && (LiveStatus(job.status) ==> attempts >= k && (attempts >= k + 1 || RetryBy(job, due)))
  }

  /** A tick that is not a pick. */
  lemma TickBetweenPicks(cfg: Config, s: Sys, tick: Tick, delay: int, workspaceId: string, id: string, attempts: nat,
                         k: nat, due: int, reach: int)
    requires ValidConfig(cfg) && GoodTick(tick) && DelaysWithin(cfg, tick, delay) && RatesPast(s.memory, tick.now)
    requires Waits(s, workspaceId, id, attempts, k, due, reach)
    ensures
      var claimed := |ClaimResult(s.store, tick.workspaceId, tick.limit, tick.now)|;
      Waits(RunTick(cfg, s, tick).sys, workspaceId, id, attempts + claimed, k, due, Max(reach, tick.now + delay))
    ensures RatesPast(RunTick(cfg, s, tick).sys.memory, tick.now)
  {
    GoodTickFits(tick);
    hide RunTick, ClaimResult, GoodTick, DelaysWithin, RatesPast, ValidStore, LiveStatus, ValidConfig;
    TickKeepsValidStore(cfg, s, tick);
    TickTreats(cfg, s, tick, id, delay);
    if ClaimResult(s.store, tick.workspaceId, tick.limit, tick.now) == [] {
    }
  }

  /** A pick: it makes up for itself, and the job is due by the pick after it. */
  lemma TickAtPick(cfg: Config, s: Sys, tick: Tick, delay: int, id: string, attempts: nat, k: nat, reach: int,
                   next: int)
    requires ValidConfig(cfg) && GoodTick(tick) && DelaysWithin(cfg, tick, delay) && RatesPast(s.memory, tick.now)
    requires tick.limit > 0 && Waits(s, tick.workspaceId, id, attempts, k, tick.now, reach)
    requires reach <= next && tick.now + delay <= next
    ensures
      var claimed := |ClaimResult(s.store, tick.workspaceId, tick.limit, tick.now)|;
      Waits(RunTick(cfg, s, tick).sys, tick.workspaceId, id, attempts + claimed, k + 1, next,
            Max(reach, tick.now + delay))
    ensures RatesPast(RunTick(cfg, s, tick).sys.memory, tick.now)
  {
    TickBetweenPicks(cfg, s, tick, delay, tick.workspaceId, id, attempts, k, tick.now, reach);
    hide RunTick, ClaimResult, GoodTick, DelaysWithin, RatesPast, LiveStatus, ValidConfig;
    TickTreats(cfg, s, tick, id, delay);
    if RetryBy(s.store.jobs[id], tick.now) {
      TickAttemptsWhenRetryHasCome(s.store, tick, id);
    }
  }

  /** How picks, due times and reaches move from one tick to the next. */
  lemma PicksMove(cfg: Config, ticks: seq<Tick>, picks: seq<nat>, workspaceId: string, delay: int, n: nat, k: nat)
    requires Regular(cfg, ticks, delay) && Picked(ticks, picks, workspaceId, delay)
    requires 0 < n <= |ticks| && PicksBefore(picks, n, k)
    ensures
      var first := ticks[picks[0]].now;
      if k > 0 && picks[k - 1] == n - 1 then
        && PicksBefore(picks, n - 1, k - 1)
        && ticks[n - 1].workspaceId == workspaceId && ticks[n - 1].limit > 0
        && Due(ticks, picks, delay, k - 1) == ticks[n - 1].now
        && Reach(ticks, first, delay, n - 1) <= Due(ticks, picks, delay, k)
        && ticks[n - 1].now + delay <= Due(ticks, picks, delay, k)
      else PicksBefore(picks, n - 1, k)
    ensures Reach(ticks, ticks[picks[0]].now, delay, n)
         == Max(Reach(ticks, ticks[picks[0]].now, delay, n - 1), ticks[n - 1].now + delay)
  {
    hide GoodTick, DelaysWithin;
    RegularAt(cfg, ticks, delay, n - 1);
    assert n > 1 ==> ticks[n - 2].now <= ticks[n - 1].now;
    if k > 0 && picks[k - 1] == n - 1 {
      FirstIsLeast(ticks, picks, workspaceId, delay, k - 1);
      assert ticks[picks[0]].now <= ticks[picks[k - 1]].now;
      assert k < |picks| ==> ticks[picks[k - 1]].now + delay <= ticks[picks[k]].now;
    }
  }

  lemma {:induction false} FirstIsLeast(ticks: seq<Tick>, picks: seq<nat>, workspaceId: string, delay: int, k: nat)
    requires Picked(ticks, picks, workspaceId, delay) && k < |picks|
    ensures picks[0] <= picks[k]
  {
    if k > 0 {
      FirstIsLeast(ticks, picks, workspaceId, delay, k - 1);
    }
  }

  /** The rates and one job after the first `n` ticks of a run, `k` of them picks. */
  ghost predicate OnTime(cfg: Config, sys: Sys, ticks: seq<Tick>, picks: seq<nat>, delay: int, workspaceId: string,
                         id: string, n: nat, k: nat)
    requires ValidStore(sys.store) && GoodRun(ticks) && n <= |ticks| && k <= |picks|
    requires ticks != [] && picks != [] && forall i :: 0 <= i < |picks| ==> picks[i] < |ticks|
  {
    var s := After(cfg, sys, ticks, n);
    && RatesPast(s.memory, if n == 0 then ticks[0].now else ticks[n - 1].now)
    && Waits(s, workspaceId, id, Attempts(cfg, sys, ticks, n), k, Due(ticks, picks, delay, k),
             Reach(ticks, ticks[picks[0]].now, delay, n))
  }

  lemma PickedAreTicks(ticks: seq<Tick>, picks: seq<nat>, workspaceId: string, delay: int)
    requires Picked(ticks, picks, workspaceId, delay)
    ensures ticks != [] && picks != [] && forall i :: 0 <= i < |picks| ==> picks[i] < |ticks|
  {
    assert picks[0] < |ticks|;
  }

  lemma {:induction false} RunIsOnTime(cfg: Config, sys: Sys, ticks: seq<Tick>, picks: seq<nat>, delay: int,
                                       workspaceId: string, id: string, n: nat, k: nat)
    requires ValidConfig(cfg) && ValidStore(sys.store) && Regular(cfg, ticks, delay) && GoodRun(ticks)
    requires Picked(ticks, picks, workspaceId, delay)
    requires ticks != [] && picks != [] && forall i :: 0 <= i < |picks| ==> picks[i] < |ticks|
    requires RatesPast(sys.memory, ticks[0].now)
    requires id in sys.store.jobs && sys.store.jobs[id].workspaceId == workspaceId
    requires !sys.store.jobs[id].status.Triggering? && RetryBy(sys.store.jobs[id], ticks[picks[0]].now)
    requires n <= |ticks| && PicksBefore(picks, n, k) && k <= |picks|
    ensures OnTime(cfg, sys, ticks, picks, delay, workspaceId, id, n, k)
  {
    hide *;
    if n == 0 {
      StartIsOnTime(cfg, sys, ticks, picks, delay, workspaceId, id, k);
    } else {
      PicksMove(cfg, ticks, picks, workspaceId, delay, n, k);
      if k > 0 && picks[k - 1] == n - 1 {
        RunIsOnTime(cfg, sys, ticks, picks, delay, workspaceId, id, n - 1, k - 1);
        PickIsOnTime(cfg, sys, ticks, picks, delay, workspaceId, id, n, k);
      } else {
        RunIsOnTime(cfg, sys, ticks, picks, delay, workspaceId, id, n - 1, k);
        BetweenIsOnTime(cfg, sys, ticks, picks, delay, workspaceId, id, n, k);
      }
    }
  }

  lemma StartIsOnTime(cfg: Config, sys: Sys, ticks: seq<Tick>, picks: seq<nat>, delay: int, workspaceId: string,
                      id: string,
                      k: nat)
    requires ValidStore(sys.store) && GoodRun(ticks) && PicksBefore(picks, 0, k) && k <= |picks|
    requires ticks != [] && picks != [] && forall i :: 0 <= i < |picks| ==> picks[i] < |ticks|
    requires RatesPast(sys.memory, ticks[0].now)
    requires id in sys.store.jobs && sys.store.jobs[id].workspaceId == workspaceId
    requires !sys.store.jobs[id].status.Triggering? && RetryBy(sys.store.jobs[id], ticks[picks[0]].now)
    ensures OnTime(cfg, sys, ticks, picks, delay, workspaceId, id, 0, k)
  {
    hide GoodRun, ValidStore, RatesPast, RetryBy;
  }

  /** The time of the tick before, and the rates at it. */
  lemma OneMoreTick(cfg: Config, sys: Sys, ticks: seq<Tick>, delay: int, n: nat)
    requires ValidStore(sys.store) && Regular(cfg, ticks, delay) && GoodRun(ticks) && 0 < n <= |ticks|
    requires RatesPast(After(cfg, sys, ticks, n - 1).memory, if n - 1 == 0 then ticks[0].now else ticks[n - 2].now)
    ensures
      var before, t := After(cfg, sys, ticks, n - 1), ticks[n - 1];
      && GoodTick(t) && DelaysWithin(cfg, t, delay) && RatesPast(before.memory, t.now)
      && After(cfg, sys, ticks, n) == RunTick(cfg, before, t).sys
      && Attempts(cfg, sys, ticks, n)
         == Attempts(cfg, sys, ticks, n - 1) + |ClaimResult(before.store, t.workspaceId, t.limit, t.now)|
  {
    hide Regular, After, Attempts, RunTick, RatesPast, GoodRun, ValidStore, DelaysWithin, GoodTick, ClaimResult;
    RegularAt(cfg, ticks, delay, n - 1);
    RunStep(cfg, sys, ticks, n);
    LaterIsPast(After(cfg, sys, ticks, n - 1).memory, if n - 1 == 0 then ticks[0].now else ticks[n - 2].now,
                ticks[n - 1].now);
  }

  lemma PickIsOnTime(cfg: Config, sys: Sys, ticks: seq<Tick>, picks: seq<nat>, delay: int, workspaceId: string,
                     id: string,
                     n: nat, k: nat)
    requires ValidConfig(cfg) && ValidStore(sys.store) && Regular(cfg, ticks, delay) && GoodRun(ticks)
    requires ticks != [] && picks != [] && forall i :: 0 <= i < |picks| ==> picks[i] < |ticks|
    requires 0 < n <= |ticks| && 0 < k <= |picks|
    requires OnTime(cfg, sys, ticks, picks, delay, workspaceId, id, n - 1, k - 1)
    requires ticks[n - 1].workspaceId == workspaceId && ticks[n - 1].limit > 0
    requires Due(ticks, picks, delay, k - 1) == ticks[n - 1].now
    requires Reach(ticks, ticks[picks[0]].now, delay, n - 1) <= Due(ticks, picks, delay, k)
    requires ticks[n - 1].now + delay <= Due(ticks, picks, delay, k)
    requires Reach(ticks, ticks[picks[0]].now, delay, n)
          == Max(Reach(ticks, ticks[picks[0]].now, delay, n - 1), ticks[n - 1].now + delay)
    ensures OnTime(cfg, sys, ticks, picks, delay, workspaceId, id, n, k)
  {
    hide Regular, After, Attempts, RunTick, RatesPast, GoodRun, ValidStore, DelaysWithin, GoodTick, ClaimResult, Due,
      Reach, Waits, ValidConfig;
    OneMoreTick(cfg, sys, ticks, delay, n);
    TickAtPick(cfg, After(cfg, sys, ticks, n - 1), ticks[n - 1], delay, id, Attempts(cfg, sys, ticks, n - 1), k - 1,
               Reach(ticks, ticks[picks[0]].now, delay, n - 1), Due(ticks, picks, delay, k));
  }

  lemma BetweenIsOnTime(cfg: Config, sys: Sys, ticks: seq<Tick>, picks: seq<nat>, delay: int, workspaceId: string,
                        id: string, n: nat, k: nat)
    requires ValidConfig(cfg) && ValidStore(sys.store) && Regular(cfg, ticks, delay) && GoodRun(ticks)
    requires ticks != [] && picks != [] && forall i :: 0 <= i < |picks| ==> picks[i] < |ticks|
    requires 0 < n <= |ticks| && k <= |picks|
    requires OnTime(cfg, sys, ticks, picks, delay, workspaceId, id, n - 1, k)
    requires Reach(ticks, ticks[picks[0]].now, delay, n)
          == Max(Reach(ticks, ticks[picks[0]].now, delay, n - 1), ticks[n - 1].now + delay)
    ensures OnTime(cfg, sys, ticks, picks, delay, workspaceId, id, n, k)
  {
    hide Regular, After, Attempts, RunTick, RatesPast, GoodRun, ValidStore, DelaysWithin, GoodTick, ClaimResult, Due,
      Reach, Waits, ValidConfig;
    OneMoreTick(cfg, sys, ticks, delay, n);
    TickBetweenPicks(cfg, After(cfg, sys, ticks, n - 1), ticks[n - 1], delay, workspaceId, id,
                     Attempts(cfg, sys, ticks, n - 1), k, Due(ticks, picks, delay, k),
                     Reach(ticks, ticks[picks[0]].now, delay, n - 1));
  }

  lemma LaterIsPast(m: Memory, now: int, later: int)
    requires RatesPast(m, now) && now <= later
    ensures RatesPast(m, later)
  {
    forall key, t | t in EventsOf(m, key) ensures t <= later {
      assert t <= now;
    }
  }

  lemma FinishedIsTerminal(status: Status)
    ensures LiveStatus(status) || status in {Delivered, Failed, FallbackResume, FallbackSpawn}
  {
  }

  /** The queue drains, whatever the spacing of the ticks and whatever workspaces they serve: if N * loopMaxTurns of
      the ticks for a workspace can be picked that are each at least the longest delay after the one picked before,
      the first of them at or after the job's retry time, then the job, unless it was stranded in `triggering` at
      the start, is in a terminal status at the end. N counts the live jobs of the whole store. */
  lemma QueueDrains(cfg: Config, sys: Sys, ticks: seq<Tick>, picks: seq<nat>, workspaceId: string, delay: int,
                    id: string)
    requires ValidConfig(cfg) && ValidStore(sys.store) && Regular(cfg, ticks, delay)
    requires Picked(ticks, picks, workspaceId, delay)
      && |picks| >= Live(sys.store, |sys.store.order|) * cfg.loopMaxTurns
    requires ticks != [] && RatesPast(sys.memory, ticks[0].now)
    requires id in sys.store.jobs && sys.store.jobs[id].workspaceId == workspaceId
    requires !sys.store.jobs[id].status.Triggering? && picks[0] < |ticks|
    requires RetryBy(sys.store.jobs[id], ticks[picks[0]].now)
    ensures GoodRun(ticks)
    ensures id in After(cfg, sys, ticks, |ticks|).store.jobs
    ensures After(cfg, sys, ticks, |ticks|).store.jobs[id].status in {Delivered, Failed, FallbackResume, FallbackSpawn}
  {
    PickedAreTicks(ticks, picks, workspaceId, delay);
    assert PicksBefore(picks, |ticks|, |picks|);
    RunIsOnTime(cfg, sys, ticks, picks, delay, workspaceId, id, |ticks|, |picks|);
    hide After, Attempts, Measure, Regular, Picked, RatesPast, LiveStatus, Threads, Live, Due, Reach, RetryBy;
    var threads := Threads(sys.store, |sys.store.order|);
    CoveringThreads(sys.store);
    RunLowersMeasure(cfg, sys, ticks, |ticks|, threads);
    LiveMeasure(cfg, sys, threads);
    var end := After(cfg, sys, ticks, |ticks|);
    LiveMeasure(cfg, end, threads);
    assert id in end.store.order;
    FinishedIsTerminal(end.store.jobs[id].status);
    if LiveStatus(end.store.jobs[id].status) {
      LiveJobIsCounted(end.store, id, |end.store.order|);
    }
  }

  // ----- a worker that polls

  /** Ticks of one workspace, each at most `gap` after the one before. */
  ghost predicate Polls(ticks: seq<Tick>, workspaceId: string, gap: int) {
    && (forall i :: 0 <= i < |ticks| ==> ticks[i].workspaceId == workspaceId && ticks[i].limit > 0)
    && (forall i :: 0 < i < |ticks| ==> ticks[i].now <= ticks[i - 1].now + gap)
  }

  /** The first tick from `from` on that comes at `time` or later, given that one does. */
  lemma {:induction false} FirstTickFrom(ticks: seq<Tick>, workspaceId: string, gap: int, from: nat, time: int)
    returns (i: nat)
    requires Polls(ticks, workspaceId, gap) && from < |ticks|
    requires ticks[from].now < time <= ticks[|ticks| - 1].now
    ensures from < i < |ticks| && time <= ticks[i].now <= time + gap
    decreases |ticks| - from
  {
    if ticks[from + 1].now >= time {
      i := from + 1;
    } else {
      i := FirstTickFrom(ticks, workspaceId, gap, from + 1, time);
    }
  }

  /** By when the m-th pick comes. */
  function Deadline(start: int, span: int, m: nat): int {
    if m <= 1 then start else Deadline(start, span, m - 1) + span
  }

  lemma {:induction false} DeadlineIs(start: int, span: int, m: nat)
    requires m > 0
    ensures Deadline(start, span, m) == start + (m - 1) * span
  {
    if m > 1 {
      DeadlineIs(start, span, m - 1);
      assert (m - 1) * span == (m - 2) * span + span;
    }
  }

  lemma {:induction false} PickFromPolls(ticks: seq<Tick>, workspaceId: string, delay: int, gap: int, m: nat)
    returns (picks: seq<nat>)
    requires Polls(ticks, workspaceId, gap) && ticks != [] && m > 0 && delay > 0 && gap >= 0
    requires ticks[|ticks| - 1].now >= Deadline(ticks[0].now, delay + gap, m)
    ensures |picks| == m && Picked(ticks, picks, workspaceId, delay) && picks[0] == 0 && picks[m - 1] < |ticks|
    ensures ticks[picks[m - 1]].now <= Deadline(ticks[0].now, delay + gap, m)
  {
    if m == 1 {
      picks := [0];
    } else {
      var before := PickFromPolls(ticks, workspaceId, delay, gap, m - 1);
      var last := before[m - 2];
      var next := FirstTickFrom(ticks, workspaceId, gap, last, ticks[last].now + delay);
      picks := before + [next];
      hide Deadline;
      OneMorePick(ticks, before, workspaceId, delay, gap, next);
    }
  }

  lemma OneMorePick(ticks: seq<Tick>, picks: seq<nat>, workspaceId: string, delay: int, gap: int, next: nat)
    requires Polls(ticks, workspaceId, gap) && Picked(ticks, picks, workspaceId, delay) && next < |ticks|
    requires picks[|picks| - 1] < next && ticks[picks[|picks| - 1]].now + delay <= ticks[next].now
    ensures Picked(ticks, picks + [next], workspaceId, delay)
  {
  }

  /** A worker that polls a workspace at intervals of at most `gap` drains it in bounded time: once it has polled for
      N * loopMaxTurns * (longest delay + gap), every job of the workspace that was due at the first tick or before
      is in a terminal status, unless it was stranded at the start. */
  lemma PollingDrains(cfg: Config, sys: Sys, ticks: seq<Tick>, workspaceId: string, delay: int, gap: int, id: string)
    requires ValidConfig(cfg) && ValidStore(sys.store) && Regular(cfg, ticks, delay)
    requires Polls(ticks, workspaceId, gap) && ticks != [] && gap >= 0 && RatesPast(sys.memory, ticks[0].now)
    requires
      var n := Live(sys.store, |sys.store.order|) * cfg.loopMaxTurns;
      ticks[|ticks| - 1].now >= ticks[0].now + n * (delay + gap)
    requires id in sys.store.jobs && sys.store.jobs[id].workspaceId == workspaceId
    requires !sys.store.jobs[id].status.Triggering? && RetryBy(sys.store.jobs[id], ticks[0].now)
    ensures GoodRun(ticks)
    ensures id in After(cfg, sys, ticks, |ticks|).store.jobs
    ensures After(cfg, sys, ticks, |ticks|).store.jobs[id].status in {Delivered, Failed, FallbackResume, FallbackSpawn}
  {
    hide Deadline, After, Regular, Polls, RatesPast, RetryBy, LiveStatus, Live;
    RegularAt(cfg, ticks, delay, 0);
    var n := Live(sys.store, |sys.store.order|) * cfg.loopMaxTurns;
    DeadlineIs(ticks[0].now, delay + gap, n + 1);
    var picks := PickFromPolls(ticks, workspaceId, delay, gap, n + 1);
    QueueDrains(cfg, sys, ticks, picks, workspaceId, delay, id);
  }
}
