/** Runs of the fallback executor of one process. A call awaits each of its commands, and calls of overlapping ticks
    run in between: one agent can have several resuming calls in flight, each of which looked at the crash-loop
    window before the others recorded what they were to record. */
module CrashLoop {
  import opened Wrappers
  import opened SlidingWindow
  import opened TriggerModel
  import opened Sessions
  import opened RuntimeFallback

  /** A call that has begun: `left` is how many resumes it may still issue, the one awaited among them. */
  datatype CallState = Resuming(key: AgentKey, now: int, left: nat) | Spawning | Ended

  /** Calls are numbered in the order in which they begin. */
  datatype World = World(failures: Failures, calls: seq<CallState>)

  const EMPTY := World(map[], [])

  /** The check of a new call, or the exit code of the command that a call awaits. */
  datatype Event = Begin(job: Job, now: int, runtime: Option<Session>) | Exit(call: nat, code: int)

  function CallOf(e: Event): Call
    requires e.Begin?
  {
    Call(e.job, e.now, e.runtime, [])
  }

  function Step(g: FallbackConfig, s: World, e: Event): World {
    match e
    case Begin(job, now, _) =>
      var state := if CanResume(g, s.failures, CallOf(e)) then Resuming(KeyOfAgent(job), now, g.resumeMaxAttempts)
        else Spawning;
      World(Pruned(g, s.failures, CallOf(e)), s.calls + [state])
    case Exit(call, code) =>
      if call >= |s.calls| then s
      else
        match s.calls[call]
        case Resuming(key, now, left) =>
          if code == 0 then s.(calls := s.calls[call := Ended])
          else World(AddFailures(s.failures, key, now, 1),
                     s.calls[call := if left <= 1 then Spawning else Resuming(key, now, left - 1)])
        case Spawning => s.(calls := s.calls[call := Ended])
        case Ended => s
  }

  function Run(g: FallbackConfig, events: seq<Event>): World {
    if events == [] then EMPTY else Step(g, Run(g, events[..|events| - 1]), events[|events| - 1])
  }

  // ----- an uninterrupted call

  /** The exit codes a call gets, one after the other. */
  function Feed(g: FallbackConfig, s: World, call: nat, exits: seq<int>): World
    decreases |exits|
  {
    if exits == [] then s else Feed(g, Step(g, s, Exit(call, exits[0])), call, exits[1..])
  }

  lemma {:induction false} AppendTimesAdds(h: seq<int>, now: int, n: nat)
    ensures AppendTimes(AppendTimes(h, now, 1), now, n) == AppendTimes(h, now, n + 1)
  {
    if n == 0 {
    } else {
      AppendTimesAdds(h, now, n - 1);
    }
  }

  lemma AddFailuresAdds(f: Failures, key: AgentKey, now: int, n: nat)
    ensures AddFailures(AddFailures(f, key, now, 1), key, now, n) == AddFailures(f, key, now, n + 1)
  {
    AppendTimesAdds(FailuresOf(f, key), now, n);
    hide AppendTimes;
  }

  lemma {:induction false} FeedEnded(g: FallbackConfig, s: World, call: nat, exits: seq<int>)
    requires call < |s.calls| && (s.calls[call].Ended? || (s.calls[call].Spawning? && exits != []))
    ensures Feed(g, s, call, exits) == s.(calls := s.calls[call := Ended])
    decreases |exits|
  {
    if exits != [] {
      FeedEnded(g, Step(g, s, Exit(call, exits[0])), call, exits[1..]);
    } else {
      assert s.calls[call := Ended] == s.calls;
    }
  }

  lemma {:induction false} FeedResuming(g: FallbackConfig, s: World, call: nat, exits: seq<int>)
    requires call < |s.calls| && s.calls[call].Resuming? && 1 <= s.calls[call].left < |exits|
    ensures
      var c := s.calls[call];
      Feed(g, s, call, exits)
      == World(AddFailures(s.failures, c.key, c.now, FailedResumes(exits, c.left)), s.calls[call := Ended])
    decreases |exits|
  {
    var c, t := s.calls[call], Step(g, s, Exit(call, exits[0]));
    if exits[0] == 0 || c.left == 1 {
      FeedEnded(g, t, call, exits[1..]);
    } else {
      FeedResuming(g, t, call, exits[1..]);
      AddFailuresAdds(s.failures, c.key, c.now, FailedResumes(exits[1..], c.left - 1));
    }
    hide AddFailures;
  }

  /** A call that nothing interrupts does in these steps what the executor's method does. */
  lemma ExecutionIsSteps(g: FallbackConfig, s: World, c: Call)
    requires ValidFallbackConfig(g) && |c.exits| > g.resumeMaxAttempts
    ensures Feed(g, Step(g, s, Begin(c.job, c.now, c.runtime)), |s.calls|, c.exits)
         == World(FailuresAfter(g, s.failures, c), s.calls + [Ended])
  {
    hide SessionResumable, RecentFailures, AddFailures;
    var t := Step(g, s, Begin(c.job, c.now, c.runtime));
    SameCheck(g, s.failures, c);
    if CanResume(g, s.failures, c) {
      FeedResuming(g, t, |s.calls|, c.exits);
    } else {
      FeedEnded(g, t, |s.calls|, c.exits);
      NoFailures(Pruned(g, s.failures, c), KeyOfAgent(c.job), c.now);
    }
    assert t.calls[|s.calls| := Ended] == s.calls + [Ended];
  }

  lemma NoFailures(f: Failures, key: AgentKey, now: int)
    ensures AddFailures(f, key, now, 0) == f
  {
  }

  /** The check does not look at the exit codes. */
  lemma SameCheck(g: FallbackConfig, f: Failures, c: Call)
    ensures CanResume(g, f, c) <==> CanResume(g, f, Call(c.job, c.now, c.runtime, []))
    ensures Pruned(g, f, c) == Pruned(g, f, Call(c.job, c.now, c.runtime, []))
  {
  }

  // ----- the list of one agent and its full history

  /** The event records a resume failure of the agent. */
  predicate Fails(s: World, e: Event, key: AgentKey) {
    && e.Exit? && e.code != 0 && e.call < |s.calls|
    && s.calls[e.call].Resuming? && s.calls[e.call].key == key
  }

  /** The event looks at the agent's window and prunes it. */
  predicate Checks(g: FallbackConfig, e: Event, key: AgentKey) {
    e.Begin? && KeyOfAgent(e.job) == key && SessionResumable(g, CallOf(e))
  }

  function MarkAt(g: FallbackConfig, s: World, e: Event, key: AgentKey): seq<Mark> {
    if Fails(s, e, key) then [Mark(s.calls[e.call].now, 1, false)]
    else if Checks(g, e, key) then [Mark(e.now, 0, true)]
    else []
  }

  /** The accesses to one agent's list, in order. */
  function MarksOf(g: FallbackConfig, events: seq<Event>, key: AgentKey): seq<Mark> {
    if events == [] then []
    else
      var before, e := events[..|events| - 1], events[|events| - 1];
      MarksOf(g, before, key) + MarkAt(g, Run(g, before), e, key)
  }

  /** Every resume failure ever recorded for an agent, never pruned. */
  function Recorded(g: FallbackConfig, events: seq<Event>, key: AgentKey): seq<int> {
    if events == [] then []
    else
      var before, e := events[..|events| - 1], events[|events| - 1];
      var s := Run(g, before);
      Recorded(g, before, key) + if Fails(s, e, key) then [s.calls[e.call].now] else []
  }

  ghost predicate Tracked(g: FallbackConfig, failures: Failures, recorded: seq<int>, marks: seq<Mark>, key: AgentKey) {
    FailuresOf(failures, key) == Stored(marks, g.crashLoopWindowMs) && recorded == History(marks)
  }

  lemma StepTracks(g: FallbackConfig, s: World, e: Event, key: AgentKey, recorded: seq<int>, marks: seq<Mark>)
    requires Tracked(g, s.failures, recorded, marks, key)
    ensures Tracked(g, Step(g, s, e).failures, recorded + if Fails(s, e, key) then [s.calls[e.call].now] else [],
                    marks + MarkAt(g, s, e, key), key)
  {
    hide Stored, History, SessionResumable;
    if MarkAt(g, s, e, key) == [] {
      assert marks + [] == marks && recorded + [] == recorded;
    } else {
      var m := MarkAt(g, s, e, key)[0];
      assert MarkAt(g, s, e, key) == [m];
      StoredSnoc(marks, m, g.crashLoopWindowMs);
      assert AppendTimes(recorded, m.at, 1) == AppendTimes(recorded, m.at, 0) + [m.at];
      assert recorded + [] == recorded;
    }
  }

  lemma {:induction false} RunTracks(g: FallbackConfig, events: seq<Event>, key: AgentKey)
    ensures Tracked(g, Run(g, events).failures, Recorded(g, events, key), MarksOf(g, events, key), key)
  {
    if events != [] {
      hide Tracked, Step, MarkAt, Fails;
      RunTracks(g, events[..|events| - 1], key);
      StepTracks(g, Run(g, events[..|events| - 1]), events[|events| - 1], key, Recorded(g, events[..|events| - 1], key),
                 MarksOf(g, events[..|events| - 1], key));
    }
  }

  /** While an agent is in a crash loop no call resumes it. What the pruned list decides is what the full history
      would, as long as nothing of the window has been lost. */
  lemma {:induction false} CrashLoopSkipsResume(g: FallbackConfig, events: seq<Event>, c: Call)
    requires NothingLost(MarksOf(g, events, KeyOfAgent(c.job)), g.crashLoopWindowMs, c.now - g.crashLoopWindowMs)
    ensures CanResume(g, Run(g, events).failures, c) <==>
      && SessionResumable(g, c)
      && |Recent(Recorded(g, events, KeyOfAgent(c.job)), c.now - g.crashLoopWindowMs)| < g.crashLoopThreshold
  {
    RunTracks(g, events, KeyOfAgent(c.job));
    hide Recorded, MarksOf, Run, Stored, History, Recent, NothingLost, SessionResumable;
    PruningIsExact(MarksOf(g, events, KeyOfAgent(c.job)), g.crashLoopWindowMs, c.now - g.crashLoopWindowMs);
  }

  // ----- the bound

  /** How many resuming calls of the agent are in flight. */
  function InFlight(calls: seq<CallState>, key: AgentKey): nat {
    if calls == [] then 0
    else
      var c := calls[|calls| - 1];
      InFlight(calls[..|calls| - 1], key) + if c.Resuming? && c.key == key then 1 else 0
  }

  ghost predicate AtMostInFlight(g: FallbackConfig, events: seq<Event>, key: AgentKey, k: nat) {
    forall n :: 0 <= n <= |events| ==> InFlight(Run(g, events[..n]).calls, key) <= k
  }

  /** What the calls in flight with times in the window can still record. */
  function Budget(calls: seq<CallState>, key: AgentKey, lo: int, hi: int): nat {
    if calls == [] then 0
    else Budget(calls[..|calls| - 1], key, lo, hi) + BudgetOf(calls[|calls| - 1], key, lo, hi)
  }

  function BudgetOf(c: CallState, key: AgentKey, lo: int, hi: int): nat {
    if c.Resuming? && c.key == key && lo <= c.now <= hi then c.left else 0
  }

  ghost predicate LeftOk(g: FallbackConfig, calls: seq<CallState>) {
    forall i :: 0 <= i < |calls| && calls[i].Resuming? ==> 1 <= calls[i].left <= g.resumeMaxAttempts
  }

  lemma {:induction false} BudgetBound(g: FallbackConfig, calls: seq<CallState>, key: AgentKey, lo: int, hi: int)
    requires LeftOk(g, calls)
    ensures Budget(calls, key, lo, hi) <= InFlight(calls, key) * g.resumeMaxAttempts
  {
    if calls != [] {
      BudgetBound(g, calls[..|calls| - 1], key, lo, hi);
      var before := InFlight(calls[..|calls| - 1], key);
      assert (before + 1) * g.resumeMaxAttempts == before * g.resumeMaxAttempts + g.resumeMaxAttempts;
    }
  }

  lemma {:induction false} BudgetUpdate(calls: seq<CallState>, i: nat, c: CallState, key: AgentKey, lo: int, hi: int)
    requires i < |calls|
    ensures Budget(calls[i := c], key, lo, hi)
         == Budget(calls, key, lo, hi) - BudgetOf(calls[i], key, lo, hi) + BudgetOf(c, key, lo, hi)
    ensures Budget(calls, key, lo, hi) >= BudgetOf(calls[i], key, lo, hi)
  {
    var n := |calls| - 1;
    if i < n {
      BudgetUpdate(calls[..n], i, c, key, lo, hi);
      assert calls[i := c][..n] == calls[..n][i := c];
    } else {
      assert calls[i := c][..n] == calls[..n];
    }
  }

  lemma BudgetSnoc(calls: seq<CallState>, c: CallState, key: AgentKey, lo: int, hi: int)
    ensures Budget(calls + [c], key, lo, hi) == Budget(calls, key, lo, hi) + BudgetOf(c, key, lo, hi)
  {
    assert (calls + [c])[..|calls|] == calls;
  }

  lemma {:induction false} RunLeftOk(g: FallbackConfig, events: seq<Event>)
    requires ValidFallbackConfig(g)
    ensures LeftOk(g, Run(g, events).calls)
  {
    if events != [] {
      RunLeftOk(g, events[..|events| - 1]);
      hide CanResume, Pruned, AddFailures;
    }
  }

  /** The event is a check that lets a call of the agent resume. */
  predicate Admits(g: FallbackConfig, s: World, e: Event, key: AgentKey) {
    e.Begin? && KeyOfAgent(e.job) == key && CanResume(g, s.failures, CallOf(e))
  }

  /** No check that lets a call resume reaches back over a pruned failure: what was pruned before it is never within
      the window of its time. */
  ghost predicate NoCheckReachesBack(g: FallbackConfig, events: seq<Event>, key: AgentKey) {
    forall n :: 0 <= n < |events| && Admits(g, Run(g, events[..n]), events[n], key) ==>
      SeesItsWindow(MarksOf(g, events[..n], key), g.crashLoopWindowMs, events[n].now)
  }

  ghost predicate SeesItsWindow(marks: seq<Mark>, width: int, now: int) {
    forall i, j :: 0 <= i < j < |marks| && Prunes(marks, width, i, j) ==>
      !(now - width <= marks[i].at <= now + width)
  }

  /** At such a check fewer failures than the threshold lie in any window that holds its time. */
  lemma AdmittedBelowThreshold(g: FallbackConfig, events: seq<Event>, e: Event, key: AgentKey, lo: int)
    requires Admits(g, Run(g, events), e, key) && lo <= e.now <= lo + g.crashLoopWindowMs
    requires SeesItsWindow(MarksOf(g, events, key), g.crashLoopWindowMs, e.now)
    ensures CountIn(Recorded(g, events, key), lo, lo + g.crashLoopWindowMs) < g.crashLoopThreshold
  {
    RunTracks(g, events, key);
    hide Run, Recorded, MarksOf, Stored, History, CountIn, Recent, Prunes;
    var marks, width := MarksOf(g, events, key), g.crashLoopWindowMs;
    UnprunedWindowIsStored(marks, width, lo, lo + width);
    CountIsRecent(Stored(marks, width), e.now - width, lo, lo + width);
  }

  /** What a step does to the count of a window and to what can still be added to it. */
  lemma StepKeepsPotential(g: FallbackConfig, s: World, e: Event, key: AgentKey, lo: int, hi: int, recorded: seq<int>)
    requires LeftOk(g, s.calls)
    ensures
      var more := recorded + if Fails(s, e, key) then [s.calls[e.call].now] else [];
      var before := CountIn(recorded, lo, hi) + Budget(s.calls, key, lo, hi);
      var after := CountIn(more, lo, hi) + Budget(Step(g, s, e).calls, key, lo, hi);
      after <= before + if Admits(g, s, e, key) && lo <= e.now <= hi then g.resumeMaxAttempts else 0
    ensures e.Begin? ==> !Fails(s, e, key)
  {
    hide CanResume, Pruned, AddFailures, CountIn, Budget;
    assert recorded + [] == recorded;
    if e.Begin? {
      BudgetSnoc(s.calls, Step(g, s, e).calls[|s.calls|], key, lo, hi);
    } else if e.call < |s.calls| {
      BudgetUpdate(s.calls, e.call, Step(g, s, e).calls[e.call], key, lo, hi);
      if Fails(s, e, key) {
        CountSnoc(recorded, s.calls[e.call].now, lo, hi);
      }
    }
  }

  lemma PrefixKeepsConditions(g: FallbackConfig, events: seq<Event>, key: AgentKey, k: nat)
    requires events != [] && AtMostInFlight(g, events, key, k) && NoCheckReachesBack(g, events, key)
    ensures
      var before := events[..|events| - 1];
      && AtMostInFlight(g, before, key, k) && NoCheckReachesBack(g, before, key)
      && InFlight(Run(g, events).calls, key) <= k
      && (Admits(g, Run(g, before), events[|events| - 1], key) ==>
           SeesItsWindow(MarksOf(g, before, key), g.crashLoopWindowMs, events[|events| - 1].now))
  {
    hide Run, InFlight, MarksOf, SeesItsWindow, CanResume;
    var before := events[..|events| - 1];
    forall n | 0 <= n <= |before| ensures InFlight(Run(g, before[..n]).calls, key) <= k {
      assert before[..n] == events[..n];
    }
    forall n | 0 <= n < |before| && Admits(g, Run(g, before[..n]), before[n], key)
      ensures SeesItsWindow(MarksOf(g, before[..n], key), g.crashLoopWindowMs, before[n].now)
    {
      assert before[..n] == events[..n] && before[n] == events[n];
    }
    assert events[..|events|] == events;
  }

  function Bound(g: FallbackConfig, k: nat): int {
    g.crashLoopThreshold - 1 + k * g.resumeMaxAttempts
  }

  /** The count of a window, with what can still be added to it, stays within the bound. */
  lemma {:induction false} PotentialIsBounded(g: FallbackConfig, events: seq<Event>, key: AgentKey, k: nat, lo: int)
    requires ValidFallbackConfig(g) && AtMostInFlight(g, events, key, k) && NoCheckReachesBack(g, events, key)
    ensures
      var hi := lo + g.crashLoopWindowMs;
      CountIn(Recorded(g, events, key), lo, hi) + Budget(Run(g, events).calls, key, lo, hi) <= Bound(g, k)
  {
    if events == [] {
      assert k * g.resumeMaxAttempts >= 0;
    } else {
      hide Admits, InFlight, Budget, CountIn, MarksOf, SeesItsWindow, Step, AtMostInFlight, NoCheckReachesBack, Fails;
      var before, e, hi := events[..|events| - 1], events[|events| - 1], lo + g.crashLoopWindowMs;
      PrefixKeepsConditions(g, events, key, k);
      PotentialIsBounded(g, before, key, k, lo);
      RunLeftOk(g, before);
      StepKeepsPotential(g, Run(g, before), e, key, lo, hi, Recorded(g, before, key));
      if Admits(g, Run(g, before), e, key) {
        if lo <= e.now <= hi {
          AdmittedBelowThreshold(g, before, e, key, lo);
          RunLeftOk(g, events);
          BudgetBound(g, Run(g, events).calls, key, lo, hi);
          TimesIsMonotone(InFlight(Run(g, events).calls, key), k, g.resumeMaxAttempts);
          assert Recorded(g, before, key) + [] == Recorded(g, before, key);
        }
      }
    }
  }

  lemma TimesIsMonotone(a: nat, b: nat, c: nat)
    requires a <= b
    ensures a * c <= b * c
  {
  }

  /** Crash-loop bound: over every run of overlapping calls, at most `k` of them of one agent in flight at any time,
      the resume failures recorded for the agent in any closed window of `crashLoopWindowMs` are at most
      `crashLoopThreshold - 1 + k * resumeMaxAttempts`, as long as no check that lets a call resume reaches back over
      a pruned failure. */
  lemma CrashLoopIsBounded(g: FallbackConfig, events: seq<Event>, key: AgentKey, k: nat, lo: int)
    requires ValidFallbackConfig(g) && AtMostInFlight(g, events, key, k) && NoCheckReachesBack(g, events, key)
    ensures CountIn(Recorded(g, events, key), lo, lo + g.crashLoopWindowMs)
         <= g.crashLoopThreshold - 1 + k * g.resumeMaxAttempts
  {
    PotentialIsBounded(g, events, key, k, lo);
  }

  // ----- the condition in terms of the times alone

  /** When the calls began; call i is the i-th to begin. */
  function BeginTimes(events: seq<Event>): seq<int> {
    if events == [] then []
    else
      var e := events[|events| - 1];
      BeginTimes(events[..|events| - 1]) + if e.Begin? then [e.now] else []
  }

  /** Every call's time is that of its beginning. */
  ghost predicate CallsAreTimed(calls: seq<CallState>, times: seq<int>) {
    && |calls| == |times|
    && forall i :: 0 <= i < |calls| && calls[i].Resuming? ==> calls[i].now == times[i]
  }

  lemma {:induction false} RunIsTimed(g: FallbackConfig, events: seq<Event>)
    ensures CallsAreTimed(Run(g, events).calls, BeginTimes(events))
  {
    if events != [] {
      RunIsTimed(g, events[..|events| - 1]);
      hide CanResume, Pruned, AddFailures;
      assert BeginTimes(events[..|events| - 1]) + [] == BeginTimes(events[..|events| - 1]);
    }
  }

  /** `from[i]` is the call that access i is by; a pruning one began after every call that had recorded before it. */
  ghost predicate FromCalls(marks: seq<Mark>, from: seq<nat>, times: seq<int>) {
    && |from| == |marks|
    && (forall i :: 0 <= i < |from| ==> from[i] < |times| && marks[i].at == times[from[i]])
    && (forall i, j :: 0 <= i < j < |from| && marks[j].prunes ==> from[i] < from[j])
  }

  lemma {:induction false} MarksFromCalls(g: FallbackConfig, events: seq<Event>, key: AgentKey)
    returns (from: seq<nat>)
    ensures FromCalls(MarksOf(g, events, key), from, BeginTimes(events))
  {
    from := [];
    if events != [] {
      var init, e := events[..|events| - 1], events[|events| - 1];
      var before := MarksFromCalls(g, init, key);
      RunIsTimed(g, init);
      hide Run, CallsAreTimed, FromCalls;
      from := OneMoreFromCall(g, Run(g, init), e, key, MarksOf(g, init, key), before, BeginTimes(init));
    }
  }

  lemma OneMoreFromCall(g: FallbackConfig, s: World, e: Event, key: AgentKey, marks: seq<Mark>, before: seq<nat>,
                        times: seq<int>) returns (from: seq<nat>)
    requires FromCalls(marks, before, times) && CallsAreTimed(s.calls, times)
    ensures FromCalls(marks + MarkAt(g, s, e, key), from, times + if e.Begin? then [e.now] else [])
  {
    from := before;
    if Fails(s, e, key) {
      from := from + [e.call];
    } else if Checks(g, e, key) {
      from := from + [|times|];
    }
  }

  /** The condition can be checked on the times of the calls before the run. */
  lemma BeginTimesSuffice(g: FallbackConfig, events: seq<Event>, key: AgentKey)
    requires ValidFallbackConfig(g) && NoTimeReachesBack(BeginTimes(events), g.crashLoopWindowMs)
    ensures NoCheckReachesBack(g, events, key)
  {
    hide Run, MarksOf, Prunes;
    forall n | 0 <= n < |events| && Admits(g, Run(g, events[..n]), events[n], key)
      ensures SeesItsWindow(MarksOf(g, events[..n], key), g.crashLoopWindowMs, events[n].now)
    {
      var from := MarksFromCalls(g, events[..n], key);
      BeginTimesPrefix(events, n);
      SeesByTimes(MarksOf(g, events[..n], key), from, BeginTimes(events[..n]), BeginTimes(events), g.crashLoopWindowMs);
    }
  }

  lemma {:induction false} BeginTimesPrefix(events: seq<Event>, n: nat)
    requires n < |events| && events[n].Begin?
    ensures
      var before, all := BeginTimes(events[..n]), BeginTimes(events);
      |before| < |all| && before == all[..|before|] && all[|before|] == events[n].now
  {
    if n == |events| - 1 {
    } else {
      var init := events[..|events| - 1];
      BeginTimesPrefix(init, n);
      assert init[..n] == events[..n];
    }
  }

  lemma SeesByTimes(marks: seq<Mark>, from: seq<nat>, before: seq<int>, all: seq<int>, width: int)
    requires FromCalls(marks, from, before) && NoTimeReachesBack(all, width)
    requires |before| < |all| && before == all[..|before|]
    ensures SeesItsWindow(marks, width, all[|before|])
  {
    forall i, j | 0 <= i < j < |marks| && Prunes(marks, width, i, j)
      ensures !(all[|before|] - width <= marks[i].at <= all[|before|] + width)
    {
      assert from[i] < from[j] < |before|;
      assert marks[i].at == all[from[i]] && marks[j].at == all[from[j]];
      assert !ReachesBack(all, width, from[i], from[j], |before|);
    }
  }
}
