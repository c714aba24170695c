/** Runs of one processor: the queue drains. Deferrals, rate-limit deferrals among them, are not bounded by
    `maxRetries`; what bounds a run is the loop guard alone. */
module TriggerDrain {
  import opened Wrappers
  import opened Numbers
  import opened TriggerModel
  import opened TriggerDecision
  import opened TriggerStore
  import opened TriggerProcessor
  import opened TriggerTicks

  // ----- runs

  ghost predicate GoodRun(ticks: seq<Tick>) {
    forall i :: 0 <= i < |ticks| ==> GoodTick(ticks[i])
  }

  /** The system after the first `n` ticks. */
  ghost function After(cfg: Config, sys: Sys, ticks: seq<Tick>, n: nat): (r: Sys)
    requires ValidStore(sys.store) && GoodRun(ticks) && n <= |ticks|
    ensures ValidStore(r.store) && r.store.order == sys.store.order
  {
    if n == 0 then sys
    else
      var before := After(cfg, sys, ticks, n - 1);
      TickKeepsValidStore(cfg, before, ticks[n - 1]);
      RunTick(cfg, before, ticks[n - 1]).sys
  }

  lemma TickKeepsValidStore(cfg: Config, sys: Sys, tick: Tick)
    requires ValidStore(sys.store) && tick.limit <= |tick.script|
    ensures ValidStore(RunTick(cfg, sys, tick).sys.store)
    ensures RunTick(cfg, sys, tick).sys.store.order == sys.store.order
  {
    ClaimFitsScript(sys.store, tick);
    ClaimChangesNothingElse(sys.store, tick.workspaceId, tick.limit, tick.now);
    var claimed := ClaimResult(sys.store, tick.workspaceId, tick.limit, tick.now);
    ProcessKeepsValidStore(cfg, sys.(store := ClaimState(sys.store, tick.workspaceId, tick.limit, tick.now)),
                           claimed, tick.now, tick.script, |claimed|);
  }

  /** Attempts made by the first `n` ticks. */
  ghost function Attempts(cfg: Config, sys: Sys, ticks: seq<Tick>, n: nat): nat
    requires ValidStore(sys.store) && GoodRun(ticks) && n <= |ticks|
  {
    if n == 0 then 0
    else
      var t := ticks[n - 1];
      Attempts(cfg, sys, ticks, n - 1)
        + |ClaimResult(After(cfg, sys, ticks, n - 1).store, t.workspaceId, t.limit, t.now)|
  }

  // ----- the measure

  /** Live jobs of a thread among the first `n`. */
  ghost function LiveIn(store: StoreState, threadId: string, n: nat): nat
    requires ValidStore(store) && n <= |store.order|
  {
    if n == 0 then 0
    else
      var job := store.jobs[store.order[n - 1]];
      LiveIn(store, threadId, n - 1) + (if job.threadId == threadId && LiveStatus(job.status) then 1 else 0)
  }

  ghost function Live(store: StoreState, n: nat): nat
    requires ValidStore(store) && n <= |store.order|
  {
    if n == 0 then 0
    else Live(store, n - 1) + (if LiveStatus(store.jobs[store.order[n - 1]].status) then 1 else 0)
  }

  function Turns(m: Memory, threadId: string): nat {
    if threadId in m.loops then m.loops[threadId].noProgressTurns else 0
  }

  /** `live * L - min(noProgressTurns, L - 1)`, and nothing once no job of the thread is live. */
  ghost function ThreadMeasure(cfg: Config, sys: Sys, threadId: string): (m: int)
    requires ValidStore(sys.store) && ValidConfig(cfg)
    ensures 0 <= m <= LiveIn(sys.store, threadId, |sys.store.order|) * cfg.loopMaxTurns
    ensures m == 0 <==> LiveIn(sys.store, threadId, |sys.store.order|) == 0
  {
    var live := LiveIn(sys.store, threadId, |sys.store.order|);
    assert live > 0 ==> live * cfg.loopMaxTurns >= cfg.loopMaxTurns;
    if live == 0 then 0 else live * cfg.loopMaxTurns - Min(Turns(sys.memory, threadId), cfg.loopMaxTurns - 1)
  }

  /** The threads of the store, each once. */
  ghost function Threads(store: StoreState, n: nat): seq<string>
    requires ValidStore(store) && n <= |store.order|
  {
    if n == 0 then []
    else
      var before := Threads(store, n - 1);
      var threadId := store.jobs[store.order[n - 1]].threadId;
      if threadId in before then before else before + [threadId]
  }

  ghost function Measure(cfg: Config, sys: Sys, threads: seq<string>): nat
    requires ValidStore(sys.store) && ValidConfig(cfg)
  {
    if threads == [] then 0
    else Measure(cfg, sys, threads[..|threads| - 1]) + ThreadMeasure(cfg, sys, threads[|threads| - 1])
  }

  predicate Distinct(threads: seq<string>) {
    forall i, j :: 0 <= i < j < |threads| ==> threads[i] != threads[j]
  }

  lemma {:induction false} ThreadsExact(store: StoreState, n: nat)
    requires ValidStore(store) && n <= |store.order|
    ensures Distinct(Threads(store, n))
    ensures forall i :: 0 <= i < n ==> store.jobs[store.order[i]].threadId in Threads(store, n)
  {
    if n > 0 {
      ThreadsExact(store, n - 1);
      hide Threads;
    }
  }

  // ----- one attempt lowers the measure

  /** Two stores that differ in one job's status, not in any thread id. */
  ghost predicate Changed(a: StoreState, b: StoreState, id: string) {
    && ValidStore(a) && ValidStore(b) && a.order == b.order && id in a.jobs
    && a.jobs[id].threadId == b.jobs[id].threadId
    && forall other :: other in a.jobs && other != id ==> b.jobs[other] == a.jobs[other]
  }

  function LiveBit(job: Job): nat {
    if LiveStatus(job.status) then 1 else 0
  }

  /** The n-th job, before and after. */
  lemma ChangedAt(a: StoreState, b: StoreState, id: string, n: nat)
    requires Changed(a, b, id) && n < |a.order|
    ensures
      var x := a.order[n];
      && x in a.jobs && x in b.jobs && (x != id ==> b.jobs[x] == a.jobs[x])
      && (id in a.order[..n + 1] <==> id in a.order[..n] || id == x) && (id == x ==> id !in a.order[..n])
  {
    assert a.order[..n + 1] == a.order[..n] + [a.order[n]];
  }

  lemma ChangedFacts(a: StoreState, b: StoreState, id: string)
    requires Changed(a, b, id)
    ensures ValidStore(a) && ValidStore(b) && a.order == b.order && id in a.jobs && id in b.jobs
    ensures a.jobs[id].threadId == b.jobs[id].threadId
  {
  }

  lemma LiveInNone(s: StoreState, threadId: string)
    requires ValidStore(s)
    ensures LiveIn(s, threadId, 0) == 0
  {
  }

  lemma LiveInStep(s: StoreState, threadId: string, n: nat)
    requires ValidStore(s) && n < |s.order|
    ensures s.order[n] in s.jobs
    ensures
      var job := s.jobs[s.order[n]];
      LiveIn(s, threadId, n + 1) == LiveIn(s, threadId, n) + (if job.threadId == threadId then LiveBit(job) else 0)
  {
  }

  lemma {:induction false} LiveInChange(a: StoreState, b: StoreState, id: string, threadId: string, n: nat)
    requires Changed(a, b, id) && n <= |a.order|
    ensures LiveIn(b, threadId, n) == LiveIn(a, threadId, n)
      + (if id in a.order[..n] && a.jobs[id].threadId == threadId then LiveBit(b.jobs[id]) - LiveBit(a.jobs[id]) else 0)
  {
    hide *;
    ChangedFacts(a, b, id);
    if n == 0 {
      LiveInNone(a, threadId);
      LiveInNone(b, threadId);
    } else {
      LiveInChange(a, b, id, threadId, n - 1);
      ChangedAt(a, b, id, n - 1);
      LiveInStep(a, threadId, n - 1);
      LiveInStep(b, threadId, n - 1);
    }
  }

  lemma {:induction false} LiveJobCounts(s: StoreState, id: string, n: nat)
    requires ValidStore(s) && n <= |s.order| && id in s.order[..n] && LiveStatus(s.jobs[id].status)
    ensures LiveIn(s, s.jobs[id].threadId, n) >= 1
  {
    assert s.order[..n] == s.order[..n - 1] + [s.order[n - 1]];
    if s.order[n - 1] != id {
      LiveJobCounts(s, id, n - 1);
    }
  }

  /** What an attempt does to the guard's memory and to the job's liveness. */
  lemma AttemptCases(cfg: Config, sys: Sys, job: Job, now: int, reply: Reply)
    requires ValidConfig(cfg) && FallbackContract(reply.fallback)
    ensures
      var done := AttemptOne(cfg, sys, job, now, reply);
      var before, after := Turns(sys.memory, job.threadId), Turns(done.sys.memory, job.threadId);
      && (LiveStatus(done.verdict.nextStatus) ==> after == before + 1 < cfg.loopMaxTurns)
      && (after == 0 || after == before + 1)
      && forall other :: other != job.threadId ==> Turns(done.sys.memory, other) == Turns(sys.memory, other)
  {
  }

  lemma AttemptChangesOneJob(cfg: Config, sys: Sys, job: Job, now: int, reply: Reply)
    requires ValidStore(sys.store)
    requires job.triggerId in sys.store.jobs && sys.store.jobs[job.triggerId] == job && job.status.Triggering?
    ensures
      var done := AttemptOne(cfg, sys, job, now, reply);
      && Changed(sys.store, done.sys.store, job.triggerId)
      && done.sys.store.jobs[job.triggerId].status == done.verdict.nextStatus
  {
    hide AttemptOne;
    AttemptKeepsValidStore(cfg, sys, job, now, reply);
    AttemptRecordsHeldJob(cfg, sys, job, now, reply);
    forall other | other in sys.store.jobs && other != job.triggerId
      ensures other in AttemptOne(cfg, sys, job, now, reply).sys.store.jobs
      ensures AttemptOne(cfg, sys, job, now, reply).sys.store.jobs[other] == sys.store.jobs[other]
    {
      AttemptTouchesOnlyItsJob(cfg, sys, job, now, reply, other);
    }
  }

  /** How many jobs of each thread are live after an attempt. */
  lemma {:induction false} AttemptLiveness(cfg: Config, sys: Sys, job: Job, now: int, reply: Reply, threadId: string)
    requires ValidConfig(cfg) && ValidStore(sys.store) && FallbackContract(reply.fallback)
    requires job.triggerId in sys.store.jobs && sys.store.jobs[job.triggerId] == job && job.status.Triggering?
    ensures
      var done := AttemptOne(cfg, sys, job, now, reply);
      var n := |sys.store.order|;
      && ValidStore(done.sys.store) && |done.sys.store.order| == n
      && LiveIn(done.sys.store, threadId, n) == LiveIn(sys.store, threadId, n)
         - (if threadId == job.threadId && !LiveStatus(done.verdict.nextStatus) then 1 else 0)
      && LiveIn(sys.store, job.threadId, n) >= 1
  {
    hide AttemptOne, LiveIn;
    AttemptKeepsValidStore(cfg, sys, job, now, reply);
    AttemptChangesOneJob(cfg, sys, job, now, reply);
    var n := |sys.store.order|;
    assert sys.store.order[..n] == sys.store.order;
    LiveInChange(sys.store, AttemptOne(cfg, sys, job, now, reply).sys.store, job.triggerId, threadId, n);
    LiveJobCounts(sys.store, job.triggerId, n);
    hide ValidStore, Changed;
  }

  lemma ThreadMeasureIs(cfg: Config, sys: Sys, threadId: string)
    requires ValidStore(sys.store) && ValidConfig(cfg)
    ensures
      var live := LiveIn(sys.store, threadId, |sys.store.order|);
      && ThreadMeasure(cfg, sys, threadId)
         == (if live == 0 then 0 else live * cfg.loopMaxTurns - Min(Turns(sys.memory, threadId), cfg.loopMaxTurns - 1))
      && 0 <= Turns(sys.memory, threadId) && cfg.loopMaxTurns >= 1
  {
  }

  /** The measure of the attempted job's thread falls; no other thread's measure moves. */
  lemma AttemptLowersItsThread(cfg: Config, sys: Sys, job: Job, now: int, reply: Reply, threadId: string)
    requires ValidConfig(cfg) && ValidStore(sys.store) && FallbackContract(reply.fallback)
    requires job.triggerId in sys.store.jobs && sys.store.jobs[job.triggerId] == job && job.status.Triggering?
    ensures ValidStore(AttemptOne(cfg, sys, job, now, reply).sys.store)
    ensures
      var after := ThreadMeasure(cfg, AttemptOne(cfg, sys, job, now, reply).sys, threadId);
      if threadId == job.threadId then after < ThreadMeasure(cfg, sys, threadId)
        else after == ThreadMeasure(cfg, sys, threadId)
  {
    hide AttemptOne, LiveIn, ValidStore, ThreadMeasure, Turns, LiveStatus, FallbackContract, ValidConfig;
    AttemptCases(cfg, sys, job, now, reply);
    AttemptLiveness(cfg, sys, job, now, reply, threadId);
    var done := AttemptOne(cfg, sys, job, now, reply);
    var n := |sys.store.order|;
    ThreadMeasureIs(cfg, sys, threadId);
    ThreadMeasureIs(cfg, done.sys, threadId);
  }

  lemma {:induction false} MeasureFalls(cfg: Config, before: Sys, after: Sys, threads: seq<string>, threadId: string)
    requires ValidConfig(cfg) && ValidStore(before.store) && ValidStore(after.store) && Distinct(threads)
    requires forall other :: other != threadId ==> ThreadMeasure(cfg, after, other) == ThreadMeasure(cfg, before, other)
    requires ThreadMeasure(cfg, after, threadId) < ThreadMeasure(cfg, before, threadId)
    ensures Measure(cfg, after, threads) <= Measure(cfg, before, threads)
    ensures threadId in threads ==> Measure(cfg, after, threads) < Measure(cfg, before, threads)
  {
    if threads != [] {
      hide ThreadMeasure;
      MeasureFalls(cfg, before, after, threads[..|threads| - 1], threadId);
    }
  }

  // ----- a tick lowers the measure once per claimed job

  ghost predicate Covers(threads: seq<string>, store: StoreState) {
    forall id :: id in store.jobs ==> store.jobs[id].threadId in threads
  }

  lemma ExtendRunsAttempt(cfg: Config, p: Progressed, job: Job, now: int, reply: Reply)
    ensures Extend(cfg, p, job, now, reply).sys == AttemptOne(cfg, p.sys, job, now, reply).sys
  {
  }

  /** One attempt on a held job lowers the measure of all threads together. */
  lemma AttemptLowersMeasure(cfg: Config, sys: Sys, job: Job, now: int, reply: Reply, threads: seq<string>)
    requires ValidConfig(cfg) && ValidStore(sys.store) && FallbackContract(reply.fallback)
    requires job.triggerId in sys.store.jobs && sys.store.jobs[job.triggerId] == job && job.status.Triggering?
    requires Distinct(threads) && Covers(threads, sys.store)
    ensures
      var after := AttemptOne(cfg, sys, job, now, reply).sys;
      && ValidStore(after.store) && Covers(threads, after.store)
      && Measure(cfg, after, threads) < Measure(cfg, sys, threads)
  {
    hide AttemptOne, ThreadMeasure, Measure, Distinct, LiveStatus, FallbackContract, ValidConfig, ValidStore;
    AttemptChangesOneJob(cfg, sys, job, now, reply);
    AttemptLowersItsThread(cfg, sys, job, now, reply, job.threadId);
    var after := AttemptOne(cfg, sys, job, now, reply).sys;
    forall other ensures other != job.threadId ==> ThreadMeasure(cfg, after, other) == ThreadMeasure(cfg, sys, other) {
      AttemptLowersItsThread(cfg, sys, job, now, reply, other);
    }
    ChangedKeepsCovers(sys.store, after.store, job.triggerId, threads);
    MeasureFalls(cfg, sys, after, threads, job.threadId);
  }

  lemma ChangedKeepsCovers(a: StoreState, b: StoreState, id: string, threads: seq<string>)
    requires Changed(a, b, id) && Covers(threads, a)
    ensures Covers(threads, b)
  {
  }

  /** A held job is still held when its turn comes. */
  lemma {:induction false} StillHeld(cfg: Config, sys: Sys, jobs: seq<Job>, now: int, script: seq<Reply>, n: nat)
    requires ValidStore(sys.store) && Held(sys.store, jobs) && n < |jobs| && n <= |script|
    ensures
      var before, job := ProcessFirst(cfg, sys, jobs, now, script, n).sys, jobs[n];
      && job.triggerId in before.store.jobs && before.store.jobs[job.triggerId] == job && job.status.Triggering?
  {
    hide ProcessFirst, ValidStore;
    assert jobs[n] in jobs;
    OthersUntouched(cfg, sys, jobs, now, script, n, jobs[n].triggerId);
  }

  lemma {:induction false} ProcessingLowersMeasure(
    cfg: Config, sys: Sys, jobs: seq<Job>, now: int, script: seq<Reply>, n: nat, threads: seq<string>)
    requires ValidConfig(cfg) && ValidStore(sys.store) && Held(sys.store, jobs)
    requires n <= |jobs| && n <= |script| && forall i :: 0 <= i < n ==> GoodReply(script[i])
    requires Distinct(threads) && Covers(threads, sys.store)
    ensures
      var after := ProcessFirst(cfg, sys, jobs, now, script, n).sys;
      && ValidStore(after.store) && Covers(threads, after.store)
      && Measure(cfg, after, threads) + n <= Measure(cfg, sys, threads)
  {
    hide AttemptOne, Tally, ThreadMeasure, Measure, Extend, Distinct, Held, Covers, ValidStore, ValidConfig;
    if n > 0 {
      ProcessingLowersMeasure(cfg, sys, jobs, now, script, n - 1, threads);
      StillHeld(cfg, sys, jobs, now, script, n - 1);
      assert GoodReply(script[n - 1]);
      var before := ProcessFirst(cfg, sys, jobs, now, script, n - 1);
      ExtendRunsAttempt(cfg, before, jobs[n - 1], now, script[n - 1]);
      AttemptLowersMeasure(cfg, before.sys, jobs[n - 1], now, script[n - 1], threads);
    }
  }

  ghost predicate SameLiveness(a: StoreState, b: StoreState) {
    && a.order == b.order
    && forall id :: id in a.jobs ==>
         && id in b.jobs && b.jobs[id].threadId == a.jobs[id].threadId
         && (LiveStatus(b.jobs[id].status) <==> LiveStatus(a.jobs[id].status))
  }

  lemma {:induction false} SameLivenessSameCount(a: StoreState, b: StoreState, threadId: string, n: nat)
    requires ValidStore(a) && ValidStore(b) && SameLiveness(a, b) && n <= |a.order|
    ensures LiveIn(a, threadId, n) == LiveIn(b, threadId, n)
  {
    if n > 0 {
      SameLivenessSameCount(a, b, threadId, n - 1);
    }
  }

  lemma {:induction false} SameLivenessSameMeasure(cfg: Config, a: Sys, b: Sys, threads: seq<string>)
    requires ValidConfig(cfg) && ValidStore(a.store) && ValidStore(b.store)
    requires SameLiveness(a.store, b.store) && a.memory == b.memory
    ensures Measure(cfg, a, threads) == Measure(cfg, b, threads)
  {
    if threads != [] {
      SameLivenessSameMeasure(cfg, a, b, threads[..|threads| - 1]);
      SameLivenessSameCount(a.store, b.store, threads[|threads| - 1], |a.store.order|);
    }
  }

  lemma ClaimKeepsLiveness(store: StoreState, workspaceId: string, limit: nat, now: int)
    requires ValidStore(store)
    ensures ValidStore(ClaimState(store, workspaceId, limit, now))
    ensures SameLiveness(store, ClaimState(store, workspaceId, limit, now))
  {
    ClaimChangesNothingElse(store, workspaceId, limit, now);
    var claimed := ClaimResult(store, workspaceId, limit, now);
    var after := ClaimState(store, workspaceId, limit, now);
    forall id | id in store.jobs
      ensures after.jobs[id].threadId == store.jobs[id].threadId
      ensures LiveStatus(after.jobs[id].status) <==> LiveStatus(store.jobs[id].status)
    {
      if i :| 0 <= i < |claimed| && claimed[i].triggerId == id {
        ClaimedJobsAreHeld(store, workspaceId, limit, now, i);
      }
    }
  }

  lemma {:induction false} TickLowersMeasure(cfg: Config, sys: Sys, tick: Tick, threads: seq<string>)
    requires ValidConfig(cfg) && ValidStore(sys.store) && GoodTick(tick)
    requires Distinct(threads) && Covers(threads, sys.store)
    ensures ValidStore(RunTick(cfg, sys, tick).sys.store) && Covers(threads, RunTick(cfg, sys, tick).sys.store)
    ensures Measure(cfg, RunTick(cfg, sys, tick).sys, threads)
      + |ClaimResult(sys.store, tick.workspaceId, tick.limit, tick.now)|
         <= Measure(cfg, sys, threads)
  {
    hide ProcessFirst, ClaimResult, ClaimState, Measure;
    var claimed := ClaimResult(sys.store, tick.workspaceId, tick.limit, tick.now);
    var held := sys.(store := ClaimState(sys.store, tick.workspaceId, tick.limit, tick.now));
    ClaimedAreHeld(sys.store, tick.workspaceId, tick.limit, tick.now);
    ClaimKeepsLiveness(sys.store, tick.workspaceId, tick.limit, tick.now);
    ClaimChangesNothingElse(sys.store, tick.workspaceId, tick.limit, tick.now);
    ClaimFitsScript(sys.store, tick);
    SameLivenessSameMeasure(cfg, sys, held, threads);
    forall i | 0 <= i < |claimed| ensures GoodReply(tick.script[i]) {
      assert tick.script[i] in tick.script;
    }
    ProcessingLowersMeasure(cfg, held, claimed, tick.now, tick.script, |claimed|, threads);
  }

  // ----- whole runs

  lemma {:induction false} RunLowersMeasure(cfg: Config, sys: Sys, ticks: seq<Tick>, n: nat, threads: seq<string>)
    requires ValidConfig(cfg) && ValidStore(sys.store) && GoodRun(ticks) && n <= |ticks|
    requires Distinct(threads) && Covers(threads, sys.store)
    ensures Covers(threads, After(cfg, sys, ticks, n).store)
    ensures Measure(cfg, After(cfg, sys, ticks, n), threads)
      + Attempts(cfg, sys, ticks, n) <= Measure(cfg, sys, threads)
  {
    hide *;
    if n == 0 {
      RunStart(cfg, sys, ticks);
    } else {
      RunLowersMeasure(cfg, sys, ticks, n - 1, threads);
      RunStep(cfg, sys, ticks, n);
      TickLowersMeasure(cfg, After(cfg, sys, ticks, n - 1), ticks[n - 1], threads);
    }
  }

  lemma RunStart(cfg: Config, sys: Sys, ticks: seq<Tick>)
    requires ValidStore(sys.store) && GoodRun(ticks)
    ensures After(cfg, sys, ticks, 0) == sys && Attempts(cfg, sys, ticks, 0) == 0
  {
  }

  lemma RunStep(cfg: Config, sys: Sys, ticks: seq<Tick>, n: nat)
    requires ValidStore(sys.store) && GoodRun(ticks) && 0 < n <= |ticks|
    ensures
      var before, t := After(cfg, sys, ticks, n - 1), ticks[n - 1];
      && GoodTick(t)
      && After(cfg, sys, ticks, n) == RunTick(cfg, before, t).sys
      && Attempts(cfg, sys, ticks, n)
        == Attempts(cfg, sys, ticks, n - 1) + |ClaimResult(before.store, t.workspaceId, t.limit, t.now)|
  {
  }

  lemma MulDistributes(a: int, b: int, c: int)
    ensures (a + b) * c == a * c + b * c
  {
  }

  lemma {:induction false} MeasureBound(cfg: Config, sys: Sys, threads: seq<string>)
    requires ValidConfig(cfg) && ValidStore(sys.store)
    ensures Measure(cfg, sys, threads) <= SumLive(sys.store, threads, |sys.store.order|) * cfg.loopMaxTurns
    ensures Measure(cfg, sys, threads) == 0 <==> SumLive(sys.store, threads, |sys.store.order|) == 0
  {
    if threads != [] {
      hide ThreadMeasure, ValidStore, LiveIn;
      MeasureBound(cfg, sys, threads[..|threads| - 1]);
      MulDistributes(SumLive(sys.store, threads[..|threads| - 1], |sys.store.order|),
                     LiveIn(sys.store, threads[|threads| - 1], |sys.store.order|), cfg.loopMaxTurns);
    }
  }

  /** Threads partition the live jobs. */
  lemma {:induction false} ThreadsPartitionLiveJobs(store: StoreState, threads: seq<string>, n: nat)
    requires ValidStore(store) && Distinct(threads) && Covers(threads, store) && n <= |store.order|
    ensures SumLive(store, threads, n) == Live(store, n)
  {
    if n > 0 {
      ThreadsPartitionLiveJobs(store, threads, n - 1);
      SumLiveStep(store, threads, n);
    } else {
      SumLiveEmpty(store, threads);
    }
  }

  ghost function SumLive(store: StoreState, threads: seq<string>, n: nat): nat
    requires ValidStore(store) && n <= |store.order|
  {
    if threads == [] then 0
    else SumLive(store, threads[..|threads| - 1], n) + LiveIn(store, threads[|threads| - 1], n)
  }

  lemma {:induction false} SumLiveEmpty(store: StoreState, threads: seq<string>)
    requires ValidStore(store)
    ensures SumLive(store, threads, 0) == 0
  {
    if threads != [] {
      SumLiveEmpty(store, threads[..|threads| - 1]);
    }
  }

  lemma {:induction false} SumLiveStep(store: StoreState, threads: seq<string>, n: nat)
    requires ValidStore(store) && Distinct(threads) && 0 < n <= |store.order|
    ensures
      var job := store.jobs[store.order[n - 1]];
      SumLive(store, threads, n)
        == SumLive(store, threads, n - 1) + (if job.threadId in threads then LiveBit(job) else 0)
  {
    if threads != [] {
      var init := threads[..|threads| - 1];
      SumLiveStep(store, init, n);
      assert threads == init + [threads[|threads| - 1]];
    }
  }

  /** From N live jobs every run makes at most N * loopMaxTurns attempts, however the executors behave within
      their contracts and however often they defer. */
  lemma EveryRunIsBounded(cfg: Config, sys: Sys, ticks: seq<Tick>)
    requires ValidConfig(cfg) && ValidStore(sys.store) && GoodRun(ticks)
    ensures Attempts(cfg, sys, ticks, |ticks|) <= Live(sys.store, |sys.store.order|) * cfg.loopMaxTurns
  {
    var n := |sys.store.order|;
    var threads := Threads(sys.store, n);
    CoveringThreads(sys.store);
    RunLowersMeasure(cfg, sys, ticks, |ticks|, threads);
    MeasureBound(cfg, sys, threads);
    ThreadsPartitionLiveJobs(sys.store, threads, n);
  }

  lemma CoveringThreads(store: StoreState)
    requires ValidStore(store)
    ensures Distinct(Threads(store, |store.order|)) && Covers(Threads(store, |store.order|), store)
  {
    ThreadsExact(store, |store.order|);
    forall id | id in store.jobs ensures store.jobs[id].threadId in Threads(store, |store.order|) {
      var i :| 0 <= i < |store.order| && store.order[i] == id;
    }
  }

  ghost predicate SomethingDue(store: StoreState, tick: Tick) {
    tick.limit > 0 && exists id :: id in store.jobs && IsDue(store.jobs[id], tick.workspaceId, tick.now)
  }

  lemma DueTickAttempts(store: StoreState, tick: Tick)
    requires ValidStore(store) && SomethingDue(store, tick)
    ensures |ClaimResult(store, tick.workspaceId, tick.limit, tick.now)| >= 1
  {
    var id :| id in store.jobs && IsDue(store.jobs[id], tick.workspaceId, tick.now);
    var due := DueJobs(store, tick.workspaceId, tick.now, |store.order|);
    DueJobsExact(store, tick.workspaceId, tick.now, |store.order|);
    assert store.order[..|store.order|] == store.order;
    assert store.jobs[id] in due;
    ClaimTakesTheOldestDue(store, tick.workspaceId, tick.limit, tick.now, store.jobs[id], store.jobs[id], 0);
    ClaimChangesNothingElse(store, tick.workspaceId, tick.limit, tick.now);
  }

  lemma LiveMeasure(cfg: Config, sys: Sys, threads: seq<string>)
    requires ValidConfig(cfg) && ValidStore(sys.store) && Distinct(threads) && Covers(threads, sys.store)
    ensures Measure(cfg, sys, threads) <= Live(sys.store, |sys.store.order|) * cfg.loopMaxTurns
    ensures Measure(cfg, sys, threads) == 0 <==> Live(sys.store, |sys.store.order|) == 0
  {
    MeasureBound(cfg, sys, threads);
    ThreadsPartitionLiveJobs(sys.store, threads, |sys.store.order|);
  }

  lemma {:induction false} LiveJobIsCounted(s: StoreState, id: string, n: nat)
    requires ValidStore(s) && n <= |s.order| && id in s.order[..n] && LiveStatus(s.jobs[id].status)
    ensures Live(s, n) >= 1
  {
    assert s.order[..n] == s.order[..n - 1] + [s.order[n - 1]];
    if s.order[n - 1] != id {
      LiveJobIsCounted(s, id, n - 1);
    }
  }

  /** A tick leaves no job claimed that was not claimed before it, so a job that is still live waits only for its
      own retry time. */
  lemma TickLeavesNothingClaimed(cfg: Config, sys: Sys, tick: Tick, id: string)
    requires ValidConfig(cfg) && ValidStore(sys.store) && GoodTick(tick)
    requires id in sys.store.jobs && !sys.store.jobs[id].status.Triggering?
    ensures id in RunTick(cfg, sys, tick).sys.store.jobs
      && !RunTick(cfg, sys, tick).sys.store.jobs[id].status.Triggering?
  {
    hide AttemptOne, Tally, ProcessFirst, ClaimState, ClaimResult;
    var claimed := ClaimResult(sys.store, tick.workspaceId, tick.limit, tick.now);
    var held := sys.(store := ClaimState(sys.store, tick.workspaceId, tick.limit, tick.now));
    ClaimedAreHeld(sys.store, tick.workspaceId, tick.limit, tick.now);
    ClaimChangesNothingElse(sys.store, tick.workspaceId, tick.limit, tick.now);
    ClaimFitsScript(sys.store, tick);
    var p := ProcessFirst(cfg, held, claimed, tick.now, tick.script, |claimed|);
    if i :| 0 <= i < |claimed| && claimed[i].triggerId == id {
      EachClaimRecordedOnce(cfg, held, claimed, tick.now, tick.script, |claimed|, i);
      VerdictsAreFinal(cfg, held, claimed, tick.now, tick.script, |claimed|, i);
    } else {
      OthersUntouched(cfg, held, claimed, tick.now, tick.script, |claimed|, id);
    }
  }

  lemma {:induction false} VerdictsAreFinal(cfg: Config, sys: Sys, jobs: seq<Job>, now: int, script: seq<Reply>,
                                            n: nat, i: nat)
    requires i < n <= |jobs| && n <= |script| && forall r :: r in script ==> GoodReply(r)
    ensures |ProcessFirst(cfg, sys, jobs, now, script, n).verdicts| == n
    ensures !ProcessFirst(cfg, sys, jobs, now, script, n).verdicts[i].nextStatus.Triggering?
  {
    hide AttemptOne, Tally;
    ProcessLengths(cfg, sys, jobs, now, script, n - 1);
    if i < n - 1 {
      VerdictsAreFinal(cfg, sys, jobs, now, script, n - 1, i);
    } else {
      assert script[i] in script;
      VerdictClasses(cfg, ProcessFirst(cfg, sys, jobs, now, script, i).sys, jobs[i], now, script[i]);
    }
  }
}
