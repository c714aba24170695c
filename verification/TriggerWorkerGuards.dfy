/** The two guards when ticks overlap. Each process keeps its own memory, which its ticks share and consult in the
    order of their steps, each with the time at which its tick started. */
module TriggerWorkerGuards {
  import opened Wrappers
  import opened SlidingWindow
  import opened TriggerModel
  import opened TriggerDecision
  import opened TriggerProcessor
  import opened TriggerLimiter
  import opened TriggerWorkers

  // ----- what one event does to the memories

  predicate Consults(s: World, e: Event, p: nat, key: RateKey) {
    && e.AdmitNext? && PhaseOf(s, e.w).Working? && PhaseOf(s, e.w).todo != []
    && ProcessOf(s, e.w) == p && KeyOf(PhaseOf(s, e.w).todo[0]) == key
  }

  lemma RatesAfterStep(cfg: Config, s: World, e: Event, p: nat, key: RateKey)
    requires Enabled(s, e)
    ensures
      EventsOf(MemoryOf(Step(cfg, s, e), p), key)
      == if Consults(s, e, p, key) then RateLimit(cfg, EventsOf(MemoryOf(s, p), key), PhaseOf(s, e.w).now).events
         else EventsOf(MemoryOf(s, p), key)
  {
    hide RateLimit, UpdateLoop, Decide, CandidateQuery;
  }

  predicate Concludes(s: World, e: Event, p: nat, threadId: string) {
    && e.Conclude? && PhaseOf(s, e.w).Executing?
    && ProcessOf(s, e.w) == p && PhaseOf(s, e.w).job.threadId == threadId
  }

  /** What a worker decides on the answer it gets, before the guard. */
  function Decided(cfg: Config, s: World, e: Event): Verdict
    requires e.Conclude? && PhaseOf(s, e.w).Executing?
  {
    var ph := PhaseOf(s, e.w);
    Decide(cfg, ph.job, ph.now, ph.limited.GetOr(e.reply.outcome), e.reply.fallback)
  }

  lemma LoopsAfterStep(cfg: Config, s: World, e: Event, p: nat, threadId: string)
    requires Enabled(s, e)
    ensures
      LoopOf(MemoryOf(Step(cfg, s, e), p), threadId)
      == if Concludes(s, e, p, threadId)
         then UpdateLoop(cfg, LoopOf(MemoryOf(s, p), threadId), TurnOf(Decided(cfg, s, e).outcome)).next
         else LoopOf(MemoryOf(s, p), threadId)
  {
    hide RateLimit, UpdateLoop, Decide, CandidateQuery;
  }

  // ----- the limiter of one process

  /** An invocation of the executor. */
  datatype Invocation = Invocation(process: nat, key: RateKey, at: int, triggerId: string, attemptNo: nat)

  function InvocationAt(cfg: Config, s: World, e: Event): seq<Invocation> {
    if e.AdmitNext? && PhaseOf(s, e.w).Working? && PhaseOf(s, e.w).todo != [] then
      var ph := PhaseOf(s, e.w);
      var job := ph.todo[0];
      if RateLimit(cfg, EventsOf(MemoryOf(s, ProcessOf(s, e.w)), KeyOf(job)), ph.now).limited.None?
      then [Invocation(ProcessOf(s, e.w), KeyOf(job), ph.now, job.triggerId, job.attempts + 1)]
      else []
    else []
  }

  /** Every invocation of a run, in order. */
  ghost function Invocations(cfg: Config, events: seq<Event>): seq<Invocation>
    requires Possible(cfg, events)
  {
    if events == [] then []
    else
      var before, e := events[..|events| - 1], events[|events| - 1];
      Invocations(cfg, before) + InvocationAt(cfg, Reached(cfg, before), e)
  }

  function CheckAt(cfg: Config, s: World, e: Event, p: nat, key: RateKey): seq<Mark> {
    if Consults(s, e, p, key) then
      [MarkOf(RateLimit(cfg, EventsOf(MemoryOf(s, p), key), PhaseOf(s, e.w).now), PhaseOf(s, e.w).now)]
    else []
  }

  /** The limiter's consultations for one process and key, in order. */
  ghost function Checks(cfg: Config, events: seq<Event>, p: nat, key: RateKey): seq<Mark>
    requires Possible(cfg, events)
  {
    if events == [] then []
    else
      var before, e := events[..|events| - 1], events[|events| - 1];
      Checks(cfg, before, p, key) + CheckAt(cfg, Reached(cfg, before), e, p, key)
  }

  /** When one process invoked the executor for one key. */
  function TimesFor(invocations: seq<Invocation>, p: nat, key: RateKey): seq<int> {
    if invocations == [] then []
    else
      var last := invocations[|invocations| - 1];
      TimesFor(invocations[..|invocations| - 1], p, key)
      + if last.process == p && last.key == key then [last.at] else []
  }

  lemma TimesSnoc(invocations: seq<Invocation>, i: Invocation, p: nat, key: RateKey)
    ensures TimesFor(invocations + [i], p, key)
         == TimesFor(invocations, p, key) + if i.process == p && i.key == key then [i.at] else []
  {
    assert (invocations + [i])[..|invocations|] == invocations;
  }

  /** A process's list for a key is what pruning leaves of its consultations, and the invocations are what they
      recorded. */
  ghost predicate RateKnown(cfg: Config, s: World, p: nat, key: RateKey, marks: seq<Mark>,
                            invocations: seq<Invocation>) {
    && RateTracked(cfg, EventsOf(MemoryOf(s, p), key), marks)
    && TimesFor(invocations, p, key) == History(marks)
  }

  lemma RunSplits(cfg: Config, events: seq<Event>)
    requires Possible(cfg, events) && events != []
    ensures
      var before, e := events[..|events| - 1], events[|events| - 1];
      && Possible(cfg, before) && Enabled(Reached(cfg, before), e)
      && Reached(cfg, events) == Step(cfg, Reached(cfg, before), e)
  {
  }

  lemma StepKnowsRates(cfg: Config, s: World, e: Event, p: nat, key: RateKey, marks: seq<Mark>,
                       invocations: seq<Invocation>)
    requires ValidConfig(cfg) && Enabled(s, e) && RateKnown(cfg, s, p, key, marks, invocations)
    ensures RateKnown(cfg, Step(cfg, s, e), p, key, marks + CheckAt(cfg, s, e, p, key),
                      invocations + InvocationAt(cfg, s, e))
  {
    hide Enabled, Step, RateTracked, RateLimit, History, MarkOf;
    RatesAfterStep(cfg, s, e, p, key);
    if Consults(s, e, p, key) {
      ConsultingStep(cfg, s, e, p, key, marks, invocations);
    } else {
      assert marks + [] == marks && invocations + [] == invocations;
      if InvocationAt(cfg, s, e) != [] {
        TimesSnoc(invocations, InvocationAt(cfg, s, e)[0], p, key);
      }
    }
  }

  lemma {:induction false} ConsultingStep(cfg: Config, s: World, e: Event, p: nat, key: RateKey, marks: seq<Mark>,
                       invocations: seq<Invocation>)
    requires ValidConfig(cfg) && Consults(s, e, p, key) && RateKnown(cfg, s, p, key, marks, invocations)
    ensures
      var step := RateLimit(cfg, EventsOf(MemoryOf(s, p), key), PhaseOf(s, e.w).now);
      && RateTracked(cfg, step.events, marks + CheckAt(cfg, s, e, p, key))
      && TimesFor(invocations + InvocationAt(cfg, s, e), p, key) == History(marks + CheckAt(cfg, s, e, p, key))
  {
    hide RateTracked, RateLimit, History, TimesFor;
    var list := EventsOf(MemoryOf(s, p), key);
    LimiterRefinesHistory(cfg, list, marks, PhaseOf(s, e.w).now);
    RecordedOnce(marks, MarkOf(RateLimit(cfg, list, PhaseOf(s, e.w).now), PhaseOf(s, e.w).now));
    assert invocations + [] == invocations;
    if InvocationAt(cfg, s, e) != [] {
      TimesSnoc(invocations, InvocationAt(cfg, s, e)[0], p, key);
    }
  }

  lemma {:induction false} RunKnowsRates(cfg: Config, events: seq<Event>, p: nat, key: RateKey)
    requires ValidConfig(cfg) && Possible(cfg, events)
    ensures RateKnown(cfg, Reached(cfg, events), p, key, Checks(cfg, events, p, key), Invocations(cfg, events))
  {
    if events != [] {
      RunSplits(cfg, events);
      hide Reached, Possible, Enabled, Step, RateKnown, CheckAt, InvocationAt;
      var before, e := events[..|events| - 1], events[|events| - 1];
      RunKnowsRates(cfg, before, p, key);
      StepKnowsRates(cfg, Reached(cfg, before), e, p, key, Checks(cfg, before, p, key), Invocations(cfg, before));
    }
  }

  lemma RecordedOnce(marks: seq<Mark>, m: Mark)
    requires m.added <= 1
    ensures History(marks + [m]) == History(marks) + if m.added == 1 then [m.at] else []
  {
    StoredSnoc(marks, m, RATE_WINDOW_MS);
    assert AppendTimes(History(marks), m.at, 1) == AppendTimes(History(marks), m.at, 0) + [m.at];
  }

  /** In every run of overlapping ticks, each process invokes the executor at most `rateLimitPerMinute` times for one
      workspace, thread and agent in every closed 60 s window, as long as no admission reaches back over one that
      a younger tick has pruned; its list never holds more than `rateLimitPerMinute` entries. */
  lemma ProcessRateIsBounded(cfg: Config, events: seq<Event>, p: nat, key: RateKey, lo: int)
    requires ValidConfig(cfg) && Possible(cfg, events)
    ensures |EventsOf(MemoryOf(Reached(cfg, events), p), key)| <= cfg.rateLimitPerMinute
    ensures NoReachBack(Checks(cfg, events, p, key), RATE_WINDOW_MS) ==>
      CountIn(TimesFor(Invocations(cfg, events), p, key), lo, lo + RATE_WINDOW_MS) <= cfg.rateLimitPerMinute
  {
    RunKnowsRates(cfg, events, p, key);
    hide Reached, Possible, Checks, Invocations, TimesFor, NoReachBack, CountIn;
    if NoReachBack(Checks(cfg, events, p, key), RATE_WINDOW_MS) {
      TrackedRateIsBounded(cfg, EventsOf(MemoryOf(Reached(cfg, events), p), key), Checks(cfg, events, p, key), lo);
    }
  }

  /** The invocations are the machine's own record of executor calls, with their process, key and time. */
  lemma {:induction false} InvocationsAreExecuted(cfg: Config, events: seq<Event>)
    requires Possible(cfg, events)
    ensures |Invocations(cfg, events)| == |Reached(cfg, events).executed|
    ensures forall k :: 0 <= k < |Invocations(cfg, events)| ==>
      Reached(cfg, events).executed[k] == (Invocations(cfg, events)[k].triggerId, Invocations(cfg, events)[k].attemptNo)
  {
    if events != [] {
      RunSplits(cfg, events);
      InvocationsAreExecuted(cfg, events[..|events| - 1]);
      hide Reached, Possible;
    }
  }

  // ----- the loop guard of one process

  /** The turns of one thread that one process has seen, in order. */
  ghost function TurnsSeen(cfg: Config, events: seq<Event>, p: nat, threadId: string): seq<Turn>
    requires Possible(cfg, events)
  {
    if events == [] then []
    else
      var before, e := events[..|events| - 1], events[|events| - 1];
      var s := Reached(cfg, before);
      TurnsSeen(cfg, before, p, threadId)
      + if Concludes(s, e, p, threadId) then [TurnOf(Decided(cfg, s, e).outcome)] else []
  }

  lemma {:induction false} RunKnowsTurns(cfg: Config, events: seq<Event>, p: nat, threadId: string)
    requires Possible(cfg, events)
    ensures LoopOf(MemoryOf(Reached(cfg, events), p), threadId) == LoopMemory(cfg, TurnsSeen(cfg, events, p, threadId))
  {
    if events != [] {
      RunSplits(cfg, events);
      RunKnowsTurns(cfg, events[..|events| - 1], p, threadId);
      hide Reached, Possible, UpdateLoop;
      var before, e := events[..|events| - 1], events[|events| - 1];
      var s, turns := Reached(cfg, before), TurnsSeen(cfg, before, p, threadId);
      LoopsAfterStep(cfg, s, e, p, threadId);
      if Concludes(s, e, p, threadId) {
        var turn := TurnOf(Decided(cfg, s, e).outcome);
        assert (turns + [turn])[..|turns|] == turns;
      } else {
        assert turns + [] == turns;
      }
    }
  }

  /** In every run of overlapping ticks an attempt is auto-blocked exactly when the last `loopMaxTurns` turns of its
      thread that its own process has seen made no progress, or the last `loopMaxRepeatedFindings` reported one
      finding; what other processes have seen of the thread does not count. */
  lemma {:induction false} ProcessLoopGuardIsExact(cfg: Config, events: seq<Event>, e: Event)
    requires ValidConfig(cfg) && Possible(cfg, events) && e.Conclude? && Enabled(Reached(cfg, events), e)
    ensures
      var s := Reached(cfg, events);
      var ph, v := PhaseOf(s, e.w), Decided(cfg, s, e);
      var turns := TurnsSeen(cfg, events, ProcessOf(s, e.w), ph.job.threadId) + [TurnOf(v.outcome)];
      var blocks := LastWithoutProgress(turns, cfg.loopMaxTurns) || LastIdentical(turns, cfg.loopMaxRepeatedFindings);
      PhaseOf(Step(cfg, s, e), e.w) == Concluded(ph.now, ph.job, if blocks then AutoBlocked(v) else v, ph.todo)
  {
    var s := Reached(cfg, events);
    var p, threadId := ProcessOf(s, e.w), PhaseOf(s, e.w).job.threadId;
    RunKnowsTurns(cfg, events, p, threadId);
    GuardBlocksOnTheTrail(cfg, TurnsSeen(cfg, events, p, threadId), TurnOf(Decided(cfg, s, e).outcome));
    hide Reached, Possible, LoopMemory, LastWithoutProgress, LastIdentical, UpdateLoop, Decide, TurnsSeen, AutoBlocked;
  }
}
