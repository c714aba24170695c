/** Runs of one processor: its two guards against their full histories. The loop guard blocks exactly when a
    thread's history says so, and the pruned rate limiter bounds the executor in every window it has not lost. */
module TriggerGuards {
  import opened Wrappers
  import opened SlidingWindow
  import opened TriggerModel
  import opened TriggerDecision
  import opened TriggerStore
  import opened TriggerProcessor
  import opened TriggerTicks
  import opened TriggerDrain
  import opened TriggerLimiter

  /** The turns of one thread, in order. */
  function TurnsOf(h: seq<Trace>, threadId: string): seq<Turn> {
    if h == [] then []
    else TurnsOf(h[..|h| - 1], threadId) + (if h[|h| - 1].key.threadId == threadId then [h[|h| - 1].turn] else [])
  }

  /** When the executor was invoked for one key. */
  function Invoked(h: seq<Trace>, key: RateKey): seq<int> {
    if h == [] then []
    else Invoked(h[..|h| - 1], key) + (if h[|h| - 1].key == key && h[|h| - 1].invoked then [h[|h| - 1].at] else [])
  }

  /** What one attempt does to the processor's memory. */
  lemma AttemptUpdatesMemory(cfg: Config, sys: Sys, job: Job, now: int, reply: Reply)
    ensures
      var done := AttemptOne(cfg, sys, job, now, reply);
      var rate := RateLimit(cfg, EventsOf(sys.memory, KeyOf(job)), now);
      var loop := UpdateLoop(cfg, LoopOf(sys.memory, job.threadId), done.trace.turn);
      && done.trace.key == KeyOf(job) && done.trace.at == now
      && done.trace.invoked == rate.limited.None? && done.trace.blocked == loop.block.Some?
      && EventsOf(done.sys.memory, KeyOf(job)) == rate.events
      && LoopOf(done.sys.memory, job.threadId) == loop.next
      && (forall key :: key != KeyOf(job) ==> EventsOf(done.sys.memory, key) == EventsOf(sys.memory, key))
      && (forall threadId :: threadId != job.threadId ==>
          LoopOf(done.sys.memory, threadId) == LoopOf(sys.memory, threadId))
  {
    hide Decide, RateLimit, RecordState, BlockState;
  }

  // ----- loop guard

  ghost predicate RemembersTurns(cfg: Config, m: Memory, h: seq<Trace>) {
    forall threadId :: LoopOf(m, threadId) == LoopMemory(cfg, TurnsOf(h, threadId))
  }

  /** The guard blocked this turn exactly when the thread's trail of turns, this one included, asks for it. */
  predicate BlockedByTrail(cfg: Config, h: seq<Trace>, t: Trace) {
    t.blocked <==>
      || LastWithoutProgress(TurnsOf(h, t.key.threadId) + [t.turn], cfg.loopMaxTurns)
      || LastIdentical(TurnsOf(h, t.key.threadId) + [t.turn], cfg.loopMaxRepeatedFindings)
  }

  lemma AttemptRemembersTurn(cfg: Config, sys: Sys, job: Job, now: int, reply: Reply, h: seq<Trace>)
    requires ValidConfig(cfg) && RemembersTurns(cfg, sys.memory, h)
    ensures
      var done := AttemptOne(cfg, sys, job, now, reply);
      && done.trace.key == KeyOf(job)
      && RemembersTurns(cfg, done.sys.memory, h + [done.trace])
      && BlockedByTrail(cfg, h, done.trace)
  {
    hide LastWithoutProgress, LastIdentical, AttemptOne, RateLimit, UpdateLoop;
    AttemptUpdatesMemory(cfg, sys, job, now, reply);
    var done := AttemptOne(cfg, sys, job, now, reply);
    var t := done.trace;
    var turns := TurnsOf(h, job.threadId);
    GuardBlocksOnTheTrail(cfg, turns, t.turn);
    assert (turns + [t.turn])[..|turns|] == turns;
    forall threadId ensures LoopOf(done.sys.memory, threadId) == LoopMemory(cfg, TurnsOf(h + [t], threadId)) {
      if threadId != job.threadId {
        assert TurnsOf(h + [t], threadId) == TurnsOf(h, threadId) + [] == TurnsOf(h, threadId);
      } else {
        assert TurnsOf(h + [t], threadId) == turns + [t.turn];
        assert LoopMemory(cfg, turns + [t.turn]) == UpdateLoop(cfg, LoopMemory(cfg, turns), t.turn).next;
      }
    }
  }

  // ----- rate limiter

  /** The limiter's consultations for one key, in the order in which they happened. */
  function MarksOf(h: seq<Trace>, key: RateKey): seq<Mark> {
    if h == [] then []
    else
      var t := h[|h| - 1];
      MarksOf(h[..|h| - 1], key) + (if t.key == key then [Mark(t.at, if t.invoked then 1 else 0, true)] else [])
  }

  /** What the consultations recorded is when the executor was invoked. */
  lemma {:induction false} InvokedIsHistory(h: seq<Trace>, key: RateKey)
    ensures Invoked(h, key) == History(MarksOf(h, key))
  {
    if h != [] {
      var init, t := h[..|h| - 1], h[|h| - 1];
      InvokedIsHistory(init, key);
      var marks := MarksOf(init, key);
      if t.key == key {
        var m := Mark(t.at, if t.invoked then 1 else 0, true);
        assert (marks + [m])[..|marks|] == marks;
        assert AppendTimes(History(marks), t.at, 1) == AppendTimes(History(marks), t.at, 0) + [t.at];
      } else {
        assert MarksOf(h, key) == marks;
        assert Invoked(h, key) == Invoked(init, key);
      }
    }
  }

  ghost predicate RatesTracked(cfg: Config, m: Memory, h: seq<Trace>) {
    forall key :: RateTracked(cfg, EventsOf(m, key), MarksOf(h, key))
  }

  /** The limiter held this attempt back only if the executor had been invoked `rateLimitPerMinute` times for its key
      since a minute before, and did whenever it had and nothing of that minute was pruned away. */
  ghost predicate LimitedByHistory(cfg: Config, h: seq<Trace>, t: Trace) {
    var full := |Recent(Invoked(h, t.key), t.at - RATE_WINDOW_MS)| >= cfg.rateLimitPerMinute;
    && (!t.invoked ==> full)
    && (NothingLost(MarksOf(h, t.key), RATE_WINDOW_MS, t.at - RATE_WINDOW_MS) && full ==> !t.invoked)
  }

  lemma AttemptIsLimitedByHistory(cfg: Config, sys: Sys, job: Job, now: int, reply: Reply, h: seq<Trace>)
    requires ValidConfig(cfg) && RatesTracked(cfg, sys.memory, h)
    ensures LimitedByHistory(cfg, h, AttemptOne(cfg, sys, job, now, reply).trace)
  {
    hide RateTracked, RateLimit, AttemptOne, UpdateLoop, NothingLost, Invoked, MarksOf;
    AttemptUpdatesMemory(cfg, sys, job, now, reply);
    assert RateTracked(cfg, EventsOf(sys.memory, KeyOf(job)), MarksOf(h, KeyOf(job)));
    LimiterRefinesHistory(cfg, EventsOf(sys.memory, KeyOf(job)), MarksOf(h, KeyOf(job)), now);
    InvokedIsHistory(h, KeyOf(job));
  }

  lemma AttemptKeepsRates(cfg: Config, sys: Sys, job: Job, now: int, reply: Reply, h: seq<Trace>)
    requires ValidConfig(cfg) && RatesTracked(cfg, sys.memory, h)
    ensures RatesTracked(cfg, AttemptOne(cfg, sys, job, now, reply).sys.memory,
                         h + [AttemptOne(cfg, sys, job, now, reply).trace])
  {
    hide RateTracked, RateLimit, AttemptOne, UpdateLoop;
    AttemptUpdatesMemory(cfg, sys, job, now, reply);
    var done := AttemptOne(cfg, sys, job, now, reply);
    var t := done.trace;
    forall key ensures RateTracked(cfg, EventsOf(done.sys.memory, key), MarksOf(h + [t], key)) {
      assert RateTracked(cfg, EventsOf(sys.memory, key), MarksOf(h, key));
      if key != KeyOf(job) {
        assert MarksOf(h + [t], key) == MarksOf(h, key) + [] == MarksOf(h, key);
      } else {
        LimiterRefinesHistory(cfg, EventsOf(sys.memory, key), MarksOf(h, key), now);
        assert MarksOf(h + [t], key)
            == MarksOf(h, key) + [MarkOf(RateLimit(cfg, EventsOf(sys.memory, key), now), now)];
      }
    }
  }

  // ----- whole ticks and runs

  /** Everything both guards know, after the history `h`. */
  ghost predicate GuardsKnown(cfg: Config, m: Memory, h: seq<Trace>) {
    && RemembersTurns(cfg, m, h) && RatesTracked(cfg, m, h)
    && forall i :: 0 <= i < |h| ==> BlockedByTrail(cfg, h[..i], h[i]) && LimitedByHistory(cfg, h[..i], h[i])
  }

  lemma AttemptKeepsGuards(cfg: Config, p: Progressed, job: Job, now: int, reply: Reply, h: seq<Trace>)
    requires ValidConfig(cfg) && GuardsKnown(cfg, p.sys.memory, h + p.traces)
    ensures GuardsKnown(cfg, Extend(cfg, p, job, now, reply).sys.memory, h + Extend(cfg, p, job, now, reply).traces)
  {
    hide AttemptOne, Tally, RemembersTurns, RatesTracked, BlockedByTrail, LimitedByHistory;
    var done := AttemptOne(cfg, p.sys, job, now, reply);
    var h' := h + p.traces;
    AttemptRemembersTurn(cfg, p.sys, job, now, reply, h');
    AttemptKeepsRates(cfg, p.sys, job, now, reply, h');
    AttemptIsLimitedByHistory(cfg, p.sys, job, now, reply, h');
    var h'' := h' + [done.trace];
    assert h + Extend(cfg, p, job, now, reply).traces == h'';
    forall i | 0 <= i < |h''|
      ensures BlockedByTrail(cfg, h''[..i], h''[i]) && LimitedByHistory(cfg, h''[..i], h''[i])
    {
      assert h''[..i] == if i < |h'| then h'[..i] else h';
    }
  }

  lemma {:induction false} ProcessingKeepsGuards(
    cfg: Config, sys: Sys, jobs: seq<Job>, now: int, script: seq<Reply>, n: nat, h: seq<Trace>)
    requires ValidConfig(cfg) && n <= |jobs| && n <= |script| && GuardsKnown(cfg, sys.memory, h)
    ensures
      var p := ProcessFirst(cfg, sys, jobs, now, script, n);
      GuardsKnown(cfg, p.sys.memory, h + p.traces)
  {
    hide Extend, GuardsKnown;
    if n == 0 {
      assert h + [] == h;
    } else {
      ProcessingKeepsGuards(cfg, sys, jobs, now, script, n - 1, h);
      AttemptKeepsGuards(cfg, ProcessFirst(cfg, sys, jobs, now, script, n - 1), jobs[n - 1], now, script[n - 1], h);
    }
  }

  /** All attempts of the first `n` ticks, in order. */
  ghost function Traces(cfg: Config, sys: Sys, ticks: seq<Tick>, n: nat): seq<Trace>
    requires ValidStore(sys.store) && GoodRun(ticks) && n <= |ticks|
  {
    if n == 0 then []
    else Traces(cfg, sys, ticks, n - 1) + RunTick(cfg, After(cfg, sys, ticks, n - 1), ticks[n - 1]).traces
  }

  lemma TickKeepsGuards(cfg: Config, sys: Sys, tick: Tick, h: seq<Trace>)
    requires ValidConfig(cfg) && ValidStore(sys.store) && GoodTick(tick)
    requires GuardsKnown(cfg, sys.memory, h)
    ensures GuardsKnown(cfg, RunTick(cfg, sys, tick).sys.memory, h + RunTick(cfg, sys, tick).traces)
  {
    hide ProcessFirst, ClaimState, ClaimResult, GuardsKnown;
    ClaimFitsScript(sys.store, tick);
    var claimed := ClaimResult(sys.store, tick.workspaceId, tick.limit, tick.now);
    ProcessingKeepsGuards(cfg, sys.(store := ClaimState(sys.store, tick.workspaceId, tick.limit, tick.now)),
                          claimed, tick.now, tick.script, |claimed|, h);
  }

  lemma {:induction false} RunKeepsGuards(cfg: Config, sys: Sys, ticks: seq<Tick>, n: nat)
    requires ValidConfig(cfg) && ValidStore(sys.store) && GoodRun(ticks) && n <= |ticks|
    requires sys.memory == FRESH_MEMORY
    ensures GuardsKnown(cfg, After(cfg, sys, ticks, n).memory, Traces(cfg, sys, ticks, n))
  {
    hide *;
    if n == 0 {
      FreshMemoryKnowsNothing(cfg);
      GuardRunStart(cfg, sys, ticks);
    } else {
      RunKeepsGuards(cfg, sys, ticks, n - 1);
      RunStep(cfg, sys, ticks, n);
      GuardRunStep(cfg, sys, ticks, n);
      TickKeepsGuards(cfg, After(cfg, sys, ticks, n - 1), ticks[n - 1], Traces(cfg, sys, ticks, n - 1));
    }
  }

  lemma GuardRunStart(cfg: Config, sys: Sys, ticks: seq<Tick>)
    requires ValidStore(sys.store) && GoodRun(ticks)
    ensures After(cfg, sys, ticks, 0) == sys && Traces(cfg, sys, ticks, 0) == []
  {
  }

  lemma GuardRunStep(cfg: Config, sys: Sys, ticks: seq<Tick>, n: nat)
    requires ValidStore(sys.store) && GoodRun(ticks) && 0 < n <= |ticks|
    ensures GoodTick(ticks[n - 1])
    ensures Traces(cfg, sys, ticks, n)
         == Traces(cfg, sys, ticks, n - 1) + RunTick(cfg, After(cfg, sys, ticks, n - 1), ticks[n - 1]).traces
  {
    hide RunTick, After;
  }

  lemma FreshMemoryKnowsNothing(cfg: Config)
    requires ValidConfig(cfg)
    ensures GuardsKnown(cfg, FRESH_MEMORY, [])
  {
  }

  /** Over every run the limiter's list never holds more than `rateLimitPerMinute` entries, and as long as no
      admission of a key reaches back over a pruned one, the executor is invoked for it at most
      `rateLimitPerMinute` times in every closed 60 s window, although the limiter forgets what it prunes. */
  lemma ExecutorRateIsBounded(cfg: Config, sys: Sys, ticks: seq<Tick>, key: RateKey, lo: int)
    requires ValidConfig(cfg) && ValidStore(sys.store) && GoodRun(ticks) && sys.memory == FRESH_MEMORY
    ensures
      var h := Traces(cfg, sys, ticks, |ticks|);
      && |EventsOf(After(cfg, sys, ticks, |ticks|).memory, key)| <= cfg.rateLimitPerMinute
      && (NoReachBack(MarksOf(h, key), RATE_WINDOW_MS) ==>
           CountIn(Invoked(h, key), lo, lo + RATE_WINDOW_MS) <= cfg.rateLimitPerMinute)
  {
    RunKeepsGuards(cfg, sys, ticks, |ticks|);
    hide Traces, After, NoReachBack;
    var h := Traces(cfg, sys, ticks, |ticks|);
    var events := EventsOf(After(cfg, sys, ticks, |ticks|).memory, key);
    assert RateTracked(cfg, events, MarksOf(h, key));
    InvokedIsHistory(h, key);
    if NoReachBack(MarksOf(h, key), RATE_WINDOW_MS) {
      TrackedRateIsBounded(cfg, events, MarksOf(h, key), lo);
    }
  }

  // ----- the condition, in terms of the tick times alone

  function TimesOf(ticks: seq<Tick>): (times: seq<int>)
    ensures |times| == |ticks| && forall i :: 0 <= i < |ticks| ==> times[i] == ticks[i].now
  {
    seq(|ticks|, i requires 0 <= i < |ticks| => ticks[i].now)
  }

  /** The consultations are made by the first `n` ticks, `from[i]` making consultation i. */
  ghost predicate FromTicks(marks: seq<Mark>, from: seq<nat>, ticks: seq<Tick>, n: nat) {
    && n <= |ticks| && FromTimes(marks, from, TimesOf(ticks))
    && forall i :: 0 <= i < |from| ==> from[i] < n
  }

  lemma {:induction false} MarksAppend(h: seq<Trace>, t: seq<Trace>, key: RateKey)
    ensures MarksOf(h + t, key) == MarksOf(h, key) + MarksOf(t, key)
  {
    if t == [] {
      assert h + t == h;
    } else {
      MarksAppend(h, t[..|t| - 1], key);
      assert (h + t)[..|h + t| - 1] == h + t[..|t| - 1];
    }
  }

  predicate AllAt(h: seq<Trace>, now: int) {
    forall i :: 0 <= i < |h| ==> h[i].at == now
  }

  lemma {:induction false} MarksAt(h: seq<Trace>, key: RateKey, now: int)
    requires AllAt(h, now)
    ensures forall i :: 0 <= i < |MarksOf(h, key)| ==> MarksOf(h, key)[i].at == now
  {
    if h != [] {
      MarksAt(h[..|h| - 1], key, now);
    }
  }

  lemma {:induction false} TracesAt(cfg: Config, sys: Sys, jobs: seq<Job>, now: int, script: seq<Reply>, n: nat)
    requires n <= |jobs| && n <= |script|
    ensures AllAt(ProcessFirst(cfg, sys, jobs, now, script, n).traces, now)
  {
    hide AttemptOne, Tally;
    if n > 0 {
      TracesAt(cfg, sys, jobs, now, script, n - 1);
      AttemptUpdatesMemory(cfg, ProcessFirst(cfg, sys, jobs, now, script, n - 1).sys, jobs[n - 1], now, script[n - 1]);
    }
  }

  lemma TickTracesAt(cfg: Config, sys: Sys, tick: Tick)
    requires ValidStore(sys.store) && tick.limit <= |tick.script|
    ensures AllAt(RunTick(cfg, sys, tick).traces, tick.now)
  {
    hide ProcessFirst, ClaimState, ClaimResult, AllAt;
    ClaimFitsScript(sys.store, tick);
    var claimed := ClaimResult(sys.store, tick.workspaceId, tick.limit, tick.now);
    TracesAt(cfg, sys.(store := ClaimState(sys.store, tick.workspaceId, tick.limit, tick.now)), claimed, tick.now,
             tick.script, |claimed|);
  }

  lemma {:induction false} MarksFromTicks(cfg: Config, sys: Sys, ticks: seq<Tick>, n: nat, key: RateKey)
    returns (from: seq<nat>)
    requires ValidStore(sys.store) && GoodRun(ticks) && n <= |ticks|
    ensures FromTicks(MarksOf(Traces(cfg, sys, ticks, n), key), from, ticks, n)
  {
    hide *;
    if n == 0 {
      GuardRunStart(cfg, sys, ticks);
      NoMarks(key, ticks);
      from := [];
    } else {
      var before := MarksFromTicks(cfg, sys, ticks, n - 1, key);
      GuardRunStep(cfg, sys, ticks, n);
      RunStep(cfg, sys, ticks, n);
      var t := RunTick(cfg, After(cfg, sys, ticks, n - 1), ticks[n - 1]).traces;
      MarksAppend(Traces(cfg, sys, ticks, n - 1), t, key);
      GoodTickFits(ticks[n - 1]);
      TickTracesAt(cfg, After(cfg, sys, ticks, n - 1), ticks[n - 1]);
      MarksAt(t, key, ticks[n - 1].now);
      from := MoreFromTicks(MarksOf(Traces(cfg, sys, ticks, n - 1), key), before, MarksOf(t, key), ticks, n);
    }
  }

  lemma NoMarks(key: RateKey, ticks: seq<Tick>)
    ensures FromTicks(MarksOf([], key), [], ticks, 0)
  {
  }

  lemma MoreFromTicks(marks: seq<Mark>, from: seq<nat>, more: seq<Mark>, ticks: seq<Tick>, n: nat)
    returns (all: seq<nat>)
    requires 0 < n <= |ticks| && FromTicks(marks, from, ticks, n - 1)
    requires forall i :: 0 <= i < |more| ==> more[i].at == ticks[n - 1].now
    ensures FromTicks(marks + more, all, ticks, n)
  {
    all := from + seq(|more|, _ => n - 1);
  }

  /** The condition can be checked on the tick times before the run, and holds when they never decrease. */
  lemma TickTimesBoundTheRate(cfg: Config, sys: Sys, ticks: seq<Tick>, key: RateKey, lo: int)
    requires ValidConfig(cfg) && ValidStore(sys.store) && GoodRun(ticks) && sys.memory == FRESH_MEMORY
    requires NoTimeReachesBack(TimesOf(ticks), RATE_WINDOW_MS)
    ensures CountIn(Invoked(Traces(cfg, sys, ticks, |ticks|), key), lo, lo + RATE_WINDOW_MS) <= cfg.rateLimitPerMinute
  {
    hide Traces, CountIn, MarksOf, NoTimeReachesBack, NoReachBack, FromTimes;
    ExecutorRateIsBounded(cfg, sys, ticks, key, lo);
    var from := MarksFromTicks(cfg, sys, ticks, |ticks|, key);
    FromTimesReachNotBack(MarksOf(Traces(cfg, sys, ticks, |ticks|), key), from, TimesOf(ticks), RATE_WINDOW_MS);
  }

  /** Over every run the loop guard blocks an attempt exactly when the last `loopMaxTurns` turns of its thread
      made no progress or the last `loopMaxRepeatedFindings` reported one finding. */
  lemma LoopGuardIsExact(cfg: Config, sys: Sys, ticks: seq<Tick>, i: nat)
    requires ValidConfig(cfg) && ValidStore(sys.store) && GoodRun(ticks) && sys.memory == FRESH_MEMORY
    ensures
      var h := Traces(cfg, sys, ticks, |ticks|);
      i < |h| ==> BlockedByTrail(cfg, h[..i], h[i])
  {
    hide RunTick, GoodRun, ValidStore, BlockedByTrail;
    RunKeepsGuards(cfg, sys, ticks, |ticks|);
  }

  /** Over every run an attempt is held back only if the executor was invoked `rateLimitPerMinute` times for its
      workspace, thread and agent in the last minute; the converse holds as long as none of those invocations has been
      pruned away. */
  lemma LimiterIsExact(cfg: Config, sys: Sys, ticks: seq<Tick>, i: nat)
    requires ValidConfig(cfg) && ValidStore(sys.store) && GoodRun(ticks) && sys.memory == FRESH_MEMORY
    ensures
      var h := Traces(cfg, sys, ticks, |ticks|);
      i < |h| ==>
        var key, from := h[i].key, h[i].at - RATE_WINDOW_MS;
        var full := |Recent(Invoked(h[..i], key), from)| >= cfg.rateLimitPerMinute;
        && (!h[i].invoked ==> full)
        && (NothingLost(MarksOf(h[..i], key), RATE_WINDOW_MS, from) ==> (h[i].invoked <==> !full))
  {
    hide RunTick, GoodRun, ValidStore, NothingLost;
    RunKeepsGuards(cfg, sys, ticks, |ticks|);
    assert i < |Traces(cfg, sys, ticks, |ticks|)| ==>
      LimitedByHistory(cfg, Traces(cfg, sys, ticks, |ticks|)[..i], Traces(cfg, sys, ticks, |ticks|)[i]);
  }
}
