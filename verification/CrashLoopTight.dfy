/** The crash-loop bound is tight for every number of calls in flight, and a call that reaches back breaks it, in every
    configuration. */
module CrashLoopTight {
  import opened Wrappers
  import opened SlidingWindow
  import opened TriggerModel
  import opened Sessions
  import opened RuntimeFallback
  import opened CrashLoop

  // ----- a run of calls of one agent, step by step

  lemma RunSnoc(g: FallbackConfig, events: seq<Event>, e: Event, key: AgentKey)
    ensures
      var s := Run(g, events);
      && Run(g, events + [e]) == Step(g, s, e)
      && Recorded(g, events + [e], key) == Recorded(g, events, key) + if Fails(s, e, key) then [s.calls[e.call].now]
        else []
  {
    assert (events + [e])[..|events|] == events;
    hide Step, Fails;
  }

  function Bit(c: CallState, key: AgentKey): nat {
    if c.Resuming? && c.key == key then 1 else 0
  }

  lemma InFlightSnoc(calls: seq<CallState>, c: CallState, key: AgentKey)
    ensures InFlight(calls + [c], key) == InFlight(calls, key) + Bit(c, key)
  {
    assert (calls + [c])[..|calls|] == calls;
  }

  lemma {:induction false} InFlightUpdate(calls: seq<CallState>, i: nat, c: CallState, key: AgentKey)
    requires i < |calls|
    ensures InFlight(calls[i := c], key) == InFlight(calls, key) - Bit(calls[i], key) + Bit(c, key)
  {
    var n := |calls| - 1;
    if i < n {
      InFlightUpdate(calls[..n], i, c, key);
      assert calls[i := c][..n] == calls[..n][i := c];
    } else {
      assert calls[i := c][..n] == calls[..n];
    }
  }

  /** Where a run stands: what is stored and recorded for the agent, how many of its calls are in flight now, and how
      many at most so far. */
  ghost predicate Stands(g: FallbackConfig, events: seq<Event>, key: AgentKey, stored: seq<int>, recorded: seq<int>,
                         v: nat,
                         k: nat) {
    && FailuresOf(Run(g, events).failures, key) == stored && Recorded(g, events, key) == recorded
    && InFlight(Run(g, events).calls, key) == v && AtMostInFlight(g, events, key, k)
  }

  lemma AtMostSnoc(g: FallbackConfig, events: seq<Event>, e: Event, key: AgentKey, k: nat)
    requires AtMostInFlight(g, events, key, k) && InFlight(Run(g, events + [e]).calls, key) <= k
    ensures AtMostInFlight(g, events + [e], key, k)
  {
    hide Run, InFlight;
    var all := events + [e];
    forall n | 0 <= n <= |all| ensures InFlight(Run(g, all[..n]).calls, key) <= k {
      assert n <= |events| ==> all[..n] == events[..n];
      assert n == |all| ==> all[..n] == all;
    }
  }

  /** The agent's session can be resumed at the two times that the runs below use. */
  ghost predicate Resumable(g: FallbackConfig, job: Job, runtime: Option<Session>, now: int) {
    SessionResumable(g, Call(job, now, runtime, []))
  }

  lemma {:induction false} BeginStep(g: FallbackConfig, events: seq<Event>, job: Job, runtime: Option<Session>,
                                     now: int, stored: seq<int>,
                  recorded: seq<int>, v: nat, k: nat)
    requires Stands(g, events, KeyOfAgent(job), stored, recorded, v, k) && v < k && Resumable(g, job, runtime, now)
    requires |Recent(stored, now - g.crashLoopWindowMs)| < g.crashLoopThreshold
    ensures
      var all := events + [Begin(job, now, runtime)];
      && Stands(g, all, KeyOfAgent(job), Recent(stored, now - g.crashLoopWindowMs), recorded, v + 1, k)
      && Run(g, all).calls == Run(g, events).calls + [Resuming(KeyOfAgent(job), now, g.resumeMaxAttempts)]
  {
    hide Run, Recorded, InFlight, AtMostInFlight, SessionResumable, Recent;
    var e, key := Begin(job, now, runtime), KeyOfAgent(job);
    RunSnoc(g, events, e, key);
    InFlightSnoc(Run(g, events).calls, Resuming(key, now, g.resumeMaxAttempts), key);
    AtMostSnoc(g, events, e, key, k);
    assert recorded + [] == recorded;
  }

  lemma {:induction false} FailStep(g: FallbackConfig, events: seq<Event>, i: nat, key: AgentKey, stored: seq<int>,
                                    recorded: seq<int>,
                 v: nat,
                 k: nat)
    requires Stands(g, events, key, stored, recorded, v, k) && i < |Run(g, events).calls|
    requires Run(g, events).calls[i].Resuming? && Run(g, events).calls[i].key == key && v <= k
    ensures
      var c, all := Run(g, events).calls[i], events + [Exit(i, 1)];
      && v > 0
      && Stands(g, all, key, stored + [c.now], recorded + [c.now], if c.left <= 1 then v - 1 else v, k)
      && Run(g, all).calls
         == Run(g, events).calls[i := if c.left <= 1 then Spawning else Resuming(key, c.now, c.left - 1)]
  {
    hide Run, Recorded, InFlight, AtMostInFlight;
    var e, c := Exit(i, 1), Run(g, events).calls[i];
    RunSnoc(g, events, e, key);
    InFlightUpdate(Run(g, events).calls, i, if c.left <= 1 then Spawning else Resuming(key, c.now, c.left - 1), key);
    InFlightUpdate(Run(g, events).calls, i, Ended, key);
    AtMostSnoc(g, events, e, key, k);
    assert AppendTimes(stored, c.now, 1) == AppendTimes(stored, c.now, 0) + [c.now];
  }

  lemma {:induction false} EndStep(g: FallbackConfig, events: seq<Event>, i: nat, key: AgentKey, stored: seq<int>,
                                   recorded: seq<int>,
                v: nat,
                k: nat)
    requires Stands(g, events, key, stored, recorded, v, k) && i < |Run(g, events).calls| && v <= k
    ensures
      var c, all := Run(g, events).calls[i], events + [Exit(i, 0)];
      && v >= Bit(c, key)
      && Stands(g, all, key, stored, recorded, v - Bit(c, key), k)
      && Run(g, all).calls == Run(g, events).calls[i := Ended]
  {
    hide Run, Recorded, InFlight, AtMostInFlight;
    var e, calls := Exit(i, 0), Run(g, events).calls;
    RunSnoc(g, events, e, key);
    InFlightUpdate(calls, i, Ended, key);
    AtMostSnoc(g, events, e, key, k);
    assert calls[i].Ended? ==> calls[i := Ended] == calls;
    assert recorded + [] == recorded;
  }

  // ----- pieces of runs, all at time 0

  lemma CopiesInWindow(g: FallbackConfig, n: nat)
    requires ValidFallbackConfig(g)
    ensures Recent(Copies(0, n), -g.crashLoopWindowMs) == Copies(0, n) && |Copies(0, n)| == n
  {
    CopiesAre(0, n);
    RecentKeepsAll(Copies(0, n), -g.crashLoopWindowMs);
  }

  ghost predicate AllAtZero(events: seq<Event>) {
    forall i :: 0 <= i < |events| && events[i].Begin? ==> events[i].now == 0
  }

  /** Calls one after the other, each with one failed resume. */
  lemma {:induction false} WarmUp(g: FallbackConfig, job: Job, runtime: Option<Session>, m: nat, k: nat)
    returns (events: seq<Event>)
    requires ValidFallbackConfig(g) && Resumable(g, job, runtime, 0) && m < g.crashLoopThreshold && k > 0
    ensures Stands(g, events, KeyOfAgent(job), Copies(0, m), Copies(0, m), 0, k) && AllAtZero(events)
  {
    hide Run, Stands, Resumable;
    if m == 0 {
      events := [];
      NothingStands(g, KeyOfAgent(job), k);
    } else {
      var before := WarmUp(g, job, runtime, m - 1, k);
      var zeros, key, i := Copies(0, m - 1), KeyOfAgent(job), |Run(g, before).calls|;
      CopiesInWindow(g, m - 1);
      BeginStep(g, before, job, runtime, 0, zeros, zeros, 0, k);
      var begun := before + [Begin(job, 0, runtime)];
      FailStep(g, begun, i, key, zeros, zeros, 1, k);
      var failed := begun + [Exit(i, 1)];
      EndStep(g, failed, i, key, Copies(0, m), Copies(0, m), if g.resumeMaxAttempts <= 1 then 0 else 1, k);
      events := failed + [Exit(i, 0)];
    }
  }

  lemma NothingStands(g: FallbackConfig, key: AgentKey, k: nat)
    ensures Stands(g, [], key, Copies(0, 0), Copies(0, 0), 0, k)
  {
  }

  /** The calls from `base` on: the first `done` have used up their resumes, the others have not begun to. */
  ghost predicate Lined(g: FallbackConfig, calls: seq<CallState>, key: AgentKey, base: nat, done: nat, j: nat) {
    && |calls| == base + j && done <= j
    && forall i :: base + done <= i < base + j ==> calls[i] == Resuming(key, 0, g.resumeMaxAttempts)
  }

  /** `j` calls that all begin before any of them has failed. */
  lemma {:induction false} OpenCalls(g: FallbackConfig, events: seq<Event>, job: Job, runtime: Option<Session>, n: nat,
                                     j: nat,
                                     k: nat) returns (all: seq<Event>)
    requires ValidFallbackConfig(g) && Resumable(g, job, runtime, 0) && n < g.crashLoopThreshold && j <= k
    requires Stands(g, events, KeyOfAgent(job), Copies(0, n), Copies(0, n), 0, k) && AllAtZero(events)
    ensures Stands(g, all, KeyOfAgent(job), Copies(0, n), Copies(0, n), j, k) && AllAtZero(all)
    ensures Lined(g, Run(g, all).calls, KeyOfAgent(job), |Run(g, events).calls|, 0, j)
  {
    hide Run, Stands, Resumable;
    if j == 0 {
      all := events;
    } else {
      var before := OpenCalls(g, events, job, runtime, n, j - 1, k);
      CopiesInWindow(g, n);
      BeginStep(g, before, job, runtime, 0, Copies(0, n), Copies(0, n), j - 1, k);
      all := before + [Begin(job, 0, runtime)];
    }
  }

  /** One call uses up its resumes, `r` of them so far. */
  lemma {:induction false} BurnOne(g: FallbackConfig, events: seq<Event>, key: AgentKey, base: nat, done: nat, j: nat,
                                   stored: nat, recorded: nat, v: nat, k: nat, r: nat) returns (all: seq<Event>)
    requires ValidFallbackConfig(g) && Lined(g, Run(g, events).calls, key, base, done, j) && done < j
    requires Stands(g, events, key, Copies(0, stored), Copies(0, recorded), v, k) && 0 < v <= k
    requires r <= g.resumeMaxAttempts
    ensures AllAtZero(events) ==> AllAtZero(all)
    ensures Stands(g, all, key, Copies(0, stored + r), Copies(0, recorded + r), if r == g.resumeMaxAttempts then v - 1
            else v, k)
    ensures |Run(g, all).calls| == base + j
    ensures Run(g, all).calls[base + done]
         == if r == g.resumeMaxAttempts then Spawning else Resuming(key, 0, g.resumeMaxAttempts - r)
    ensures forall i :: base + done < i < base + j ==> Run(g, all).calls[i] == Resuming(key, 0, g.resumeMaxAttempts)
  {
    hide Run, Stands;
    if r == 0 {
      all := events;
    } else {
      var before := BurnOne(g, events, key, base, done, j, stored, recorded, v, k, r - 1);
      FailStep(g, before, base + done, key, Copies(0, stored + r - 1), Copies(0, recorded + r - 1), v, k);
      all := before + [Exit(base + done, 1)];
    }
  }

  /** The resumes of `done` calls. */
  function Resumes(g: FallbackConfig, done: nat): nat {
    done * g.resumeMaxAttempts
  }

  lemma OneMoreCall(g: FallbackConfig, done: nat)
    ensures Resumes(g, 0) == 0 && Resumes(g, 1) == g.resumeMaxAttempts
    ensures done > 0 ==> Resumes(g, done) == Resumes(g, done - 1) + g.resumeMaxAttempts
  {
  }

  /** All of them do. */
  lemma {:induction false} BurnAll(g: FallbackConfig, events: seq<Event>, key: AgentKey, base: nat, j: nat, n: nat,
                                   done: nat,
                                   k: nat) returns (all: seq<Event>)
    requires ValidFallbackConfig(g) && Lined(g, Run(g, events).calls, key, base, 0, j) && done <= j <= k
    requires Stands(g, events, key, Copies(0, n), Copies(0, n), j, k) && AllAtZero(events)
    ensures AllAtZero(all) && Lined(g, Run(g, all).calls, key, base, done, j)
    ensures
      var zeros := Copies(0, n + Resumes(g, done));
      Stands(g, all, key, zeros, zeros, j - done, k)
  {
    hide Run, Stands, Resumes;
    OneMoreCall(g, done);
    if done == 0 {
      all := events;
    } else {
      var before := BurnAll(g, events, key, base, j, n, done - 1, k);
      var added := Resumes(g, done - 1);
      all := BurnOne(g, before, key, base, done - 1, j, n + added, n + added, j - (done - 1), k, g.resumeMaxAttempts);
    }
  }

  lemma {:induction false} CopiesCount(n: nat, width: nat)
    ensures CountIn(Copies(0, n), 0, width) == n
  {
    if n > 0 {
      CopiesCount(n - 1, width);
      CountSnoc(Copies(0, n - 1), 0, 0, width);
    }
  }

  lemma {:induction false} BeginsAtZero(events: seq<Event>)
    requires AllAtZero(events)
    ensures forall i :: 0 <= i < |BeginTimes(events)| ==> BeginTimes(events)[i] == 0
  {
    if events != [] {
      BeginsAtZero(events[..|events| - 1]);
    }
  }

  // ----- tightness

  /** The bound is tight: for every number of calls in flight some run that meets the conditions records exactly
      `crashLoopThreshold - 1 + k * resumeMaxAttempts` failures in one window. */
  lemma CrashLoopBoundIsTight(g: FallbackConfig, job: Job, runtime: Option<Session>, k: nat)
    requires ValidFallbackConfig(g) && Resumable(g, job, runtime, 0) && k > 0
    ensures exists events ::
      && AtMostInFlight(g, events, KeyOfAgent(job), k) && NoCheckReachesBack(g, events, KeyOfAgent(job))
      && CountIn(Recorded(g, events, KeyOfAgent(job)), 0, g.crashLoopWindowMs)
         == g.crashLoopThreshold - 1 + k * g.resumeMaxAttempts
  {
    var events := TightRun(g, job, runtime, k);
    hide Run, Resumable, NoCheckReachesBack, Recorded, CountIn, InFlight;
  }

  lemma TightRun(g: FallbackConfig, job: Job, runtime: Option<Session>, k: nat) returns (events: seq<Event>)
    requires ValidFallbackConfig(g) && Resumable(g, job, runtime, 0) && k > 0
    ensures AtMostInFlight(g, events, KeyOfAgent(job), k) && NoCheckReachesBack(g, events, KeyOfAgent(job))
    ensures CountIn(Recorded(g, events, KeyOfAgent(job)), 0, g.crashLoopWindowMs)
         == g.crashLoopThreshold - 1 + k * g.resumeMaxAttempts
  {
    hide Run, Resumable, NoCheckReachesBack, Recorded, CountIn, InFlight, AtMostInFlight, AllAtZero, Lined, Copies;
    var n, key := g.crashLoopThreshold - 1, KeyOfAgent(job);
    var warm := WarmUp(g, job, runtime, n, k);
    var open := OpenCalls(g, warm, job, runtime, n, k, k);
    events := BurnAll(g, open, key, |Run(g, warm).calls|, k, n, k, k);
    BeginsAtZero(events);
    BeginTimesSuffice(g, events, key);
    CopiesCount(n + Resumes(g, k), g.crashLoopWindowMs);
  }

  /** So two overlapping calls of one agent already record more than one call at a time ever could. */
  lemma OverlapOverrunsTheCrashLoop(g: FallbackConfig, job: Job, runtime: Option<Session>)
    requires ValidFallbackConfig(g) && Resumable(g, job, runtime, 0)
    ensures exists events ::
      && AtMostInFlight(g, events, KeyOfAgent(job), 2) && NoCheckReachesBack(g, events, KeyOfAgent(job))
      && CountIn(Recorded(g, events, KeyOfAgent(job)), 0, g.crashLoopWindowMs)
         > g.crashLoopThreshold - 1 + g.resumeMaxAttempts
  {
    var events := TightRun(g, job, runtime, 2);
    hide Run, Resumable, NoCheckReachesBack, Recorded, CountIn, InFlight;
  }

  // ----- a call that reaches back

  /** Nor can the condition on the times be dropped: in every configuration a late call with an old time, behind one
      that has pruned, makes one call at a time record more than the bound. */
  lemma LateCallOverrunsTheCrashLoop(g: FallbackConfig, job: Job, runtime: Option<Session>)
    requires ValidFallbackConfig(g) && Resumable(g, job, runtime, 0)
    requires Resumable(g, job, runtime, g.crashLoopWindowMs + 1)
    ensures exists events ::
      && AtMostInFlight(g, events, KeyOfAgent(job), 1)
      && CountIn(Recorded(g, events, KeyOfAgent(job)), 0, g.crashLoopWindowMs)
         > g.crashLoopThreshold - 1 + g.resumeMaxAttempts
  {
    var events := LateRun(g, job, runtime);
    hide Run, Resumable, Recorded, CountIn, InFlight;
  }

  lemma LateRun(g: FallbackConfig, job: Job, runtime: Option<Session>) returns (events: seq<Event>)
    requires ValidFallbackConfig(g) && Resumable(g, job, runtime, 0)
    requires Resumable(g, job, runtime, g.crashLoopWindowMs + 1)
    ensures AtMostInFlight(g, events, KeyOfAgent(job), 1)
    ensures CountIn(Recorded(g, events, KeyOfAgent(job)), 0, g.crashLoopWindowMs)
         > g.crashLoopThreshold - 1 + g.resumeMaxAttempts
  {
    hide Run, Resumable, Recorded, CountIn, InFlight, AtMostInFlight, AllAtZero, Copies;
    var n, key := g.crashLoopThreshold - 1, KeyOfAgent(job);
    var warm := WarmUp(g, job, runtime, n, 1);
    var open := OpenCalls(g, warm, job, runtime, n, 1, 1);
    OneMoreCall(g, 1);
    var full := BurnAll(g, open, key, |Run(g, warm).calls|, 1, n, 1, 1);
    var m := n + g.resumeMaxAttempts;
    var pruned := PruneAll(g, full, job, runtime, m);
    events := BurnAgain(g, pruned, job, runtime, m);
    CopiesCount(m + g.resumeMaxAttempts, g.crashLoopWindowMs);
  }

  /** A later call that succeeds at once leaves an empty list. */
  lemma PruneAll(g: FallbackConfig, events: seq<Event>, job: Job, runtime: Option<Session>, m: nat)
    returns (all: seq<Event>)
    requires ValidFallbackConfig(g) && Resumable(g, job, runtime, g.crashLoopWindowMs + 1)
    requires Stands(g, events, KeyOfAgent(job), Copies(0, m), Copies(0, m), 0, 1)
    ensures Stands(g, all, KeyOfAgent(job), [], Copies(0, m), 0, 1)
  {
    hide Run, Resumable, Stands;
    CopiesAre(0, m);
    RecentNone(Copies(0, m), 1);
    BeginStep(g, events, job, runtime, g.crashLoopWindowMs + 1, Copies(0, m), Copies(0, m), 0, 1);
    var begun := events + [Begin(job, g.crashLoopWindowMs + 1, runtime)];
    var i := |Run(g, events).calls|;
    EndStep(g, begun, i, KeyOfAgent(job), [], Copies(0, m), 1, 1);
    all := begun + [Exit(i, 0)];
  }

  /** The late call uses up its resumes. */
  lemma BurnAgain(g: FallbackConfig, events: seq<Event>, job: Job, runtime: Option<Session>, m: nat)
    returns (all: seq<Event>)
    requires ValidFallbackConfig(g) && Resumable(g, job, runtime, 0)
    requires Stands(g, events, KeyOfAgent(job), [], Copies(0, m), 0, 1)
    ensures Stands(g, all, KeyOfAgent(job), Copies(0, g.resumeMaxAttempts), Copies(0, m + g.resumeMaxAttempts), 0, 1)
  {
    hide Run, Resumable, Stands;
    assert Recent([], -g.crashLoopWindowMs) == [];
    BeginStep(g, events, job, runtime, 0, [], Copies(0, m), 0, 1);
    var begun, i := events + [Begin(job, 0, runtime)], |Run(g, events).calls|;
    assert Copies(0, 0) == [];
    all := BurnOne(g, begun, KeyOfAgent(job), i, 0, 1, 0, m, 1, 1, g.resumeMaxAttempts);
  }
}
