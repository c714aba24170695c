/** The bound on attempts survives any interleaving of ticks: with no new jobs, the attempts on a thread are at most
    its live jobs times `loopMaxTurns`, and each further process, whose loop guard knows nothing of the others',
    adds at most `loopMaxTurns - 1`. */
module TriggerWorkerDrain {
  import opened Wrappers
  import opened Numbers
  import opened TriggerModel
  import opened TriggerDecision
  import opened TriggerProcessor
  import opened TriggerWorkers
  import opened TriggerWorkerGuards

  // ----- the measure

  /** A worker has decided on the job's attempt, and for good. */
  ghost predicate Finishing(s: World, id: string) {
    exists w :: Finishes(s, w, id)
  }

  predicate Finishes(s: World, w: nat, id: string) {
    var ph := PhaseOf(s, w);
    ph.Concluded? && ph.job.triggerId == id && !LiveStatus(ph.verdict.nextStatus)
  }

  /** The jobs of a thread that another attempt may still be made on. */
  ghost function LiveSet(s: World, threadId: string): set<string> {
    set id | id in s.rows && s.rows[id].threadId == threadId && LiveStatus(s.rows[id].status) && !Finishing(s, id)
  }

  function TurnsIn(loop: Option<LoopState>): nat {
    match loop
    case None => 0
    case Some(state) => state.noProgressTurns
  }

  /** What the loop guard of one process has on a thread, up to one below its limit. */
  function Credit(cfg: Config, s: World, threadId: string, p: nat): int {
    Min(TurnsIn(LoopOf(MemoryOf(s, p), threadId)), cfg.loopMaxTurns - 1)
  }

  function Credits(cfg: Config, s: World, threadId: string, processes: nat): int {
    if processes == 0 then 0
    else Credits(cfg, s, threadId, processes - 1) + Credit(cfg, s, threadId, processes - 1)
  }

  /** What the guards of the other processes can cost a thread. */
  function Slack(cfg: Config, processes: nat): int {
    (processes - 1) * (cfg.loopMaxTurns - 1)
  }

  function MeasureOf(cfg: Config, live: nat, credits: int, processes: nat): int {
    if live == 0 then 0 else live * cfg.loopMaxTurns - credits + Slack(cfg, processes)
  }

  ghost function Measure(cfg: Config, s: World, threadId: string, processes: nat): int {
    MeasureOf(cfg, |LiveSet(s, threadId)|, Credits(cfg, s, threadId, processes), processes)
  }

  lemma {:induction false} CreditsBound(cfg: Config, s: World, threadId: string, processes: nat)
    requires ValidConfig(cfg)
    ensures 0 <= Credits(cfg, s, threadId, processes) <= processes * (cfg.loopMaxTurns - 1)
  {
    if processes > 0 {
      CreditsBound(cfg, s, threadId, processes - 1);
      assert processes * (cfg.loopMaxTurns - 1) == (processes - 1) * (cfg.loopMaxTurns - 1) + (cfg.loopMaxTurns - 1);
    }
  }

  lemma MeasureBound(cfg: Config, live: nat, credits: int, processes: nat)
    requires ValidConfig(cfg) && processes > 0 && 0 <= credits <= processes * (cfg.loopMaxTurns - 1)
    ensures 0 <= MeasureOf(cfg, live, credits, processes)
    ensures MeasureOf(cfg, live, credits, processes)
         <= if live == 0 then 0 else live * cfg.loopMaxTurns + Slack(cfg, processes)
    ensures live > 0 ==> MeasureOf(cfg, live, credits, processes) >= 1
  {
    assert processes * (cfg.loopMaxTurns - 1) == Slack(cfg, processes) + (cfg.loopMaxTurns - 1);
    assert live > 0 ==> live * cfg.loopMaxTurns == (live - 1) * cfg.loopMaxTurns + cfg.loopMaxTurns;
    assert live > 0 ==> (live - 1) * cfg.loopMaxTurns >= 0;
  }

  /** An attempt lowers the measure: either the job stays live and one credit is added, or a live job is gone and at
      most one process's credits with it. */
  lemma MeasureFalls(cfg: Config, live: nat, live': nat, credits: int, credits': int, processes: nat)
    requires ValidConfig(cfg) && processes > 0 && live > 0 && 0 <= credits <= processes * (cfg.loopMaxTurns - 1)
    requires
      || (live' == live && credits' == credits + 1)
      || (live' == live - 1 && credits' >= credits - (cfg.loopMaxTurns - 1))
    ensures MeasureOf(cfg, live', credits', processes) < MeasureOf(cfg, live, credits, processes)
  {
    MeasureBound(cfg, live, credits, processes);
    assert live * cfg.loopMaxTurns == (live - 1) * cfg.loopMaxTurns + cfg.loopMaxTurns;
  }

  // ----- credits across one step

  lemma {:induction false} CreditsSame(cfg: Config, s: World, t: World, threadId: string, processes: nat)
    requires forall p: nat :: p < processes ==> Credit(cfg, t, threadId, p) == Credit(cfg, s, threadId, p)
    ensures Credits(cfg, t, threadId, processes) == Credits(cfg, s, threadId, processes)
  {
    if processes > 0 {
      CreditsSame(cfg, s, t, threadId, processes - 1);
    }
  }

  lemma {:induction false} CreditsChange(cfg: Config, s: World, t: World, threadId: string, processes: nat, q: nat)
    requires q < processes
    requires forall p: nat :: p < processes && p != q ==> Credit(cfg, t, threadId, p) == Credit(cfg, s, threadId, p)
    ensures Credits(cfg, t, threadId, processes) - Credits(cfg, s, threadId, processes)
         == Credit(cfg, t, threadId, q) - Credit(cfg, s, threadId, q)
  {
    if q == processes - 1 {
      CreditsSame(cfg, s, t, threadId, processes - 1);
    } else {
      CreditsChange(cfg, s, t, threadId, processes - 1, q);
    }
  }

  // ----- live jobs across one step

  /** Every step but a conclusion leaves each job as live as it was. */
  ghost predicate SameLiveness(s: World, t: World) {
    && t.rows.Keys == s.rows.Keys
    && forall id :: id in s.rows ==>
         && t.rows[id].threadId == s.rows[id].threadId
         && (LiveStatus(t.rows[id].status) && !Finishing(t, id) <==> LiveStatus(s.rows[id].status) && !Finishing(s, id))
  }

  lemma SameLiveSet(s: World, t: World, threadId: string)
    requires SameLiveness(s, t)
    ensures LiveSet(t, threadId) == LiveSet(s, threadId)
  {
  }

  /** No worker's decision is made or recorded. */
  ghost predicate SameConclusions(s: World, t: World) {
    forall v, id :: Finishes(t, v, id) <==> Finishes(s, v, id)
  }

  lemma QuietStepKeepsConclusions(cfg: Config, s: World, e: Event)
    requires Enabled(s, e) && !e.Create? && !e.Conclude? && !e.Record?
    ensures SameConclusions(s, Step(cfg, s, e))
  {
    hide Step, Enabled, PhaseOf, LiveStatus;
    var t := Step(cfg, s, e);
    forall v, id ensures Finishes(t, v, id) <==> Finishes(s, v, id) {
      QuietStepWorker(cfg, s, e, v);
    }
  }

  lemma QuietStepWorker(cfg: Config, s: World, e: Event, v: nat)
    requires Enabled(s, e) && !e.Create? && !e.Conclude? && !e.Record?
    ensures v != e.w ==> PhaseOf(Step(cfg, s, e), v) == PhaseOf(s, v)
    ensures v == e.w ==> !PhaseOf(Step(cfg, s, e), v).Concluded? && !PhaseOf(s, v).Concluded?
  {
    hide ClaimStep, AdmitStep, ConcludeStep, RecordStep, CandidateQuery;
    if e.TryClaim? {
      ClaimPhases(s, e.w, v);
    } else if e.AdmitNext? {
      AdmitFacts(cfg, s, e.w);
    }
  }

  lemma ClaimPhases(s: World, w: nat, v: nat)
    requires PhaseOf(s, w).Claiming?
    ensures v != w ==> PhaseOf(ClaimStep(s, w), v) == PhaseOf(s, v)
    ensures !PhaseOf(ClaimStep(s, w), w).Concluded?
  {
    hide ClaimMatches, Claimed;
  }

  ghost predicate SameRows(s: World, t: World) {
    && t.rows.Keys == s.rows.Keys
    && forall id :: id in s.rows ==>
         t.rows[id].threadId == s.rows[id].threadId
           && (LiveStatus(t.rows[id].status) <==> LiveStatus(s.rows[id].status))
  }

  lemma ClaimKeepsRowsLive(cfg: Config, s: World, w: nat)
    requires Inv(cfg, s) && PhaseOf(s, w).Claiming?
    ensures SameRows(s, ClaimStep(s, w))
  {
    hide Inv;
    if PhaseOf(s, w).candidates != [] {
      MatchMeansUnchanged(cfg, s, w);
    }
  }

  lemma QuietStepKeepsRows(cfg: Config, s: World, e: Event)
    requires Inv(cfg, s) && Enabled(s, e) && !e.Create? && !e.Conclude? && !e.Record?
    ensures SameRows(s, Step(cfg, s, e))
  {
    if e.TryClaim? {
      hide Inv, ClaimStep, SameRows;
      ClaimKeepsRowsLive(cfg, s, e.w);
    } else {
      hide Inv, RateLimit, CandidateQuery, LiveStatus, ClaimStep;
      assert Step(cfg, s, e).rows == s.rows;
    }
  }

  lemma QuietStepKeepsLiveness(cfg: Config, s: World, e: Event)
    requires Inv(cfg, s) && Enabled(s, e) && !e.Create? && !e.Conclude? && !e.Record?
    ensures SameLiveness(s, Step(cfg, s, e))
  {
    QuietStepKeepsConclusions(cfg, s, e);
    QuietStepKeepsRows(cfg, s, e);
    hide Inv, Enabled, Step, SameConclusions, Finishing, LiveStatus;
    var t := Step(cfg, s, e);
    forall id ensures Finishing(t, id) <==> Finishing(s, id) {
    }
  }

  /** While a worker holds a job no other has decided on it. */
  lemma OnlyHolderFinishes(s: World, w: nat, v: nat, id: string)
    requires Exclusive(s) && Held(PhaseOf(s, w)) != [] && Held(PhaseOf(s, w))[0].triggerId == id && Finishes(s, v, id)
    ensures v == w
  {
    assert Held(PhaseOf(s, v))[0].triggerId == id;
    OneHolder(s, v, w);
  }

  lemma RecordKeepsLiveness(cfg: Config, s: World, w: nat)
    requires Inv(cfg, s) && PhaseOf(s, w).Concluded?
    ensures SameLiveness(s, RecordStep(s, w))
  {
    RecordHappens(cfg, s, w);
    WorkingJobRow(cfg, s, w);
    var t, ph := RecordStep(s, w), PhaseOf(s, w);
    assert ph.job.triggerId in s.rows && s.rows[ph.job.triggerId].status.Triggering?;
    ExclusiveOf(cfg, s);
    hide Inv, RecordStep, Shape, Exclusive;
    forall id | id in s.rows
      ensures t.rows[id].threadId == s.rows[id].threadId
      ensures LiveStatus(t.rows[id].status) && !Finishing(t, id) <==> LiveStatus(s.rows[id].status) && !Finishing(s, id)
    {
      if id == ph.job.triggerId {
        RecordedJobLiveness(s, t, w);
      } else {
        OtherJobLiveness(s, t, w, id);
      }
    }
  }

  lemma RecordedJobLiveness(s: World, t: World, w: nat)
    requires Exclusive(s) && RecordedBy(s, t, w)
    ensures
      var ph := PhaseOf(s, w);
      && !Finishing(t, ph.job.triggerId)
      && (Finishing(s, ph.job.triggerId) <==> !LiveStatus(ph.verdict.nextStatus))
  {
    hide Exclusive, LiveStatus;
    var id := PhaseOf(s, w).job.triggerId;
    if v :| Finishes(t, v, id) {
      if v != w {
        assert Finishes(s, v, id);
        OnlyHolderFinishes(s, w, v, id);
      }
    }
    if v :| Finishes(s, v, id) {
      OnlyHolderFinishes(s, w, v, id);
    }
    if !LiveStatus(PhaseOf(s, w).verdict.nextStatus) {
      assert Finishes(s, w, id);
    }
  }

  lemma OtherJobLiveness(s: World, t: World, w: nat, id: string)
    requires RecordedBy(s, t, w) && id != PhaseOf(s, w).job.triggerId
    ensures Finishing(t, id) <==> Finishing(s, id)
  {
    hide LiveStatus;
    if v :| Finishes(t, v, id) {
      assert Finishes(s, v, id);
    }
    if v :| Finishes(s, v, id) {
      assert Finishes(t, v, id);
    }
  }

  // ----- a conclusion

  /** A retried job has added to its process's count, below the limit; any other has reset it or added to it. */
  lemma ConclusionCases(cfg: Config, s: World, e: Event)
    requires Inv(cfg, s) && e.Conclude? && Enabled(s, e)
    ensures
      var t, ph := Step(cfg, s, e), PhaseOf(s, e.w);
      var p := ProcessOf(s, e.w);
      var before := TurnsIn(LoopOf(MemoryOf(s, p), ph.job.threadId));
      var after := TurnsIn(LoopOf(MemoryOf(t, p), ph.job.threadId));
      && PhaseOf(t, e.w).Concluded? && PhaseOf(t, e.w).job == ph.job
      && (if LiveStatus(PhaseOf(t, e.w).verdict.nextStatus) then after == before + 1 < cfg.loopMaxTurns
          else after == 0 || after == before + 1)
  {
    assert PendingOk(cfg, PhaseOf(s, e.w));
    LoopsAfterStep(cfg, s, e, ProcessOf(s, e.w), PhaseOf(s, e.w).job.threadId);
    hide Inv, RateLimit, Shape;
  }

  lemma ConclusionFacts(cfg: Config, s: World, e: Event)
    requires e.Conclude? && Enabled(s, e)
    ensures Step(cfg, s, e).rows == s.rows
    ensures forall v :: v != e.w ==> PhaseOf(Step(cfg, s, e), v) == PhaseOf(s, v)
  {
    hide Decide, UpdateLoop, RateLimit;
  }

  /** A conclusion takes at most its own job out of the live ones, exactly if the verdict is final. */
  lemma ConclusionLiveSet(cfg: Config, s: World, e: Event, threadId: string)
    requires Inv(cfg, s) && e.Conclude? && Enabled(s, e)
    ensures
      var t, job := Step(cfg, s, e), PhaseOf(s, e.w).job;
      && (threadId == job.threadId ==> job.triggerId in LiveSet(s, threadId))
      && LiveSet(t, threadId)
         == if LiveStatus(PhaseOf(t, e.w).verdict.nextStatus) then LiveSet(s, threadId)
            else LiveSet(s, threadId) - {job.triggerId}
  {
    ConclusionCases(cfg, s, e);
    ConclusionFacts(cfg, s, e);
    WorkingJobRow(cfg, s, e.w);
    ExclusiveOf(cfg, s);
    var t, job := Step(cfg, s, e), PhaseOf(s, e.w).job;
    var executing := PhaseOf(s, e.w).Executing?;
    assert executing;
    hide Inv, Step, Enabled, Exclusive, TurnsIn, LoopOf, MemoryOf, ProcessOf;
    assert LiveStatus(Triggering);
    assert LiveStatus(s.rows[job.triggerId].status);
    hide LiveStatus;
    NotYetFinishing(s, e.w);
    forall id ensures Finishing(t, id) <==>
        Finishing(s, id) || (id == job.triggerId && !LiveStatus(PhaseOf(t, e.w).verdict.nextStatus))
    {
      FinishingAfter(s, t, e.w, id);
    }
  }

  lemma NotYetFinishing(s: World, w: nat)
    requires Exclusive(s) && PhaseOf(s, w).Executing?
    ensures !Finishing(s, PhaseOf(s, w).job.triggerId)
  {
    hide Exclusive, LiveStatus;
    if v :| Finishes(s, v, PhaseOf(s, w).job.triggerId) {
      OnlyHolderFinishes(s, w, v, PhaseOf(s, w).job.triggerId);
    }
  }

  lemma FinishingAfter(s: World, t: World, w: nat, id: string)
    requires PhaseOf(s, w).Executing? && PhaseOf(t, w).Concluded? && PhaseOf(t, w).job == PhaseOf(s, w).job
    requires forall v :: v != w ==> PhaseOf(t, v) == PhaseOf(s, v)
    ensures Finishing(t, id) <==>
      Finishing(s, id) || (id == PhaseOf(s, w).job.triggerId && !LiveStatus(PhaseOf(t, w).verdict.nextStatus))
  {
    hide LiveStatus;
    if v :| Finishes(s, v, id) {
      assert Finishes(t, v, id);
    }
    if v :| Finishes(t, v, id) {
      assert v != w ==> Finishes(s, v, id);
    }
    if id == PhaseOf(s, w).job.triggerId && !LiveStatus(PhaseOf(t, w).verdict.nextStatus) {
      assert Finishes(t, w, id);
    }
  }

  // ----- one step and the measure

  /** Every tick that is under way belongs to one of the processes. */
  ghost predicate ProcessesWithin(s: World, processes: nat) {
    forall w :: !PhaseOf(s, w).Idle? ==> ProcessOf(s, w) < processes
  }

  predicate Counts(s: World, e: Event, threadId: string) {
    e.Conclude? && PhaseOf(s, e.w).Executing? && PhaseOf(s, e.w).job.threadId == threadId
  }

  lemma ConclusionLowersMeasure(cfg: Config, s: World, e: Event, threadId: string, processes: nat)
    requires Inv(cfg, s) && Enabled(s, e) && Counts(s, e, threadId) && ProcessesWithin(s, processes)
    ensures Measure(cfg, Step(cfg, s, e), threadId, processes) < Measure(cfg, s, threadId, processes)
  {
    var t, q := Step(cfg, s, e), ProcessOf(s, e.w);
    ConclusionCases(cfg, s, e);
    ConclusionLiveSet(cfg, s, e, threadId);
    InvIsConfigured(cfg, s);
    assert q < processes;
    forall p: nat ensures p != q ==> Credit(cfg, t, threadId, p) == Credit(cfg, s, threadId, p) {
      LoopsAfterStep(cfg, s, e, p, threadId);
    }
    hide Inv, Step, Enabled, LiveSet, LiveStatus, ProcessesWithin, LoopOf, MemoryOf, ProcessOf;
    CreditsChange(cfg, s, t, threadId, processes, q);
    CreditsBound(cfg, s, threadId, processes);
    MeasureFalls(cfg, |LiveSet(s, threadId)|, |LiveSet(t, threadId)|, Credits(cfg, s, threadId, processes),
                 Credits(cfg, t, threadId, processes), processes);
  }

  lemma InvIsConfigured(cfg: Config, s: World)
    requires Inv(cfg, s)
    ensures ValidConfig(cfg)
  {
  }

  lemma StepKeepsLiveness(cfg: Config, s: World, e: Event)
    requires Inv(cfg, s) && Enabled(s, e) && !e.Create? && !e.Conclude?
    ensures SameLiveness(s, Step(cfg, s, e))
  {
    if e.Record? {
      RecordKeepsLiveness(cfg, s, e.w);
      hide Inv, SameLiveness, RecordStep;
    } else {
      QuietStepKeepsLiveness(cfg, s, e);
    }
  }

  lemma OtherStepKeepsMeasure(cfg: Config, s: World, e: Event, threadId: string, processes: nat)
    requires Inv(cfg, s) && Enabled(s, e) && !e.Create? && !Counts(s, e, threadId)
    ensures Measure(cfg, Step(cfg, s, e), threadId, processes) == Measure(cfg, s, threadId, processes)
  {
    var t := Step(cfg, s, e);
    hide Inv, Enabled, Step, LiveStatus;
    forall p: nat ensures Credit(cfg, t, threadId, p) == Credit(cfg, s, threadId, p) {
      LoopsAfterStep(cfg, s, e, p, threadId);
    }
    CreditsSame(cfg, s, t, threadId, processes);
    if e.Conclude? {
      ConclusionLiveSet(cfg, s, e, threadId);
      OtherThreadsJob(cfg, s, e, threadId);
    } else {
      StepKeepsLiveness(cfg, s, e);
      SameLiveSet(s, t, threadId);
    }
  }

  lemma OtherThreadsJob(cfg: Config, s: World, e: Event, threadId: string)
    requires Inv(cfg, s) && e.Conclude? && PhaseOf(s, e.w).Executing? && PhaseOf(s, e.w).job.threadId != threadId
    ensures PhaseOf(s, e.w).job.triggerId !in LiveSet(s, threadId)
  {
    WorkingJobRow(cfg, s, e.w);
    hide Inv;
  }

  // ----- runs

  /** The attempts decided on a thread's jobs from event n on. */
  ghost function Attempts(cfg: Config, events: seq<Event>, n: nat, threadId: string): nat
    requires Possible(cfg, events) && n <= |events|
    decreases |events|
  {
    if |events| == n then 0
    else
      var before, e := events[..|events| - 1], events[|events| - 1];
      Attempts(cfg, before, n, threadId) + if Counts(Reached(cfg, before), e, threadId) then 1 else 0
  }

  ghost predicate OnProcesses(events: seq<Event>, processes: nat) {
    forall i :: 0 <= i < |events| && events[i].Snapshot? ==> events[i].process < processes
  }

  lemma {:induction false} RunOnProcesses(cfg: Config, events: seq<Event>, processes: nat)
    requires Possible(cfg, events) && OnProcesses(events, processes)
    ensures ProcessesWithin(Reached(cfg, events), processes)
  {
    if events != [] {
      RunSplits(cfg, events);
      var before, e := events[..|events| - 1], events[|events| - 1];
      assert forall i :: 0 <= i < |before| ==> before[i] == events[i];
      RunOnProcesses(cfg, before, processes);
      hide Reached, Possible, RateLimit, Decide, UpdateLoop, CandidateQuery;
      StepOnProcesses(cfg, Reached(cfg, before), e, processes);
    }
  }

  /** A step leaves other workers alone, and its own worker in its process unless it starts a tick. */
  lemma StepWorker(cfg: Config, s: World, e: Event, w: nat)
    requires Enabled(s, e)
    ensures e.Create? || w != e.w ==>
      PhaseOf(Step(cfg, s, e), w) == PhaseOf(s, w) && ProcessOf(Step(cfg, s, e), w) == ProcessOf(s, w)
    ensures !e.Create? && w == e.w ==>
      if e.Snapshot? then ProcessOf(Step(cfg, s, e), w) == e.process
      else !PhaseOf(s, w).Idle? && ProcessOf(Step(cfg, s, e), w) == ProcessOf(s, w)
  {
    hide Admit, TakeTurn, Decide, CandidateQuery, RecordedRow, ClaimMatches, LogOf;
  }

  lemma StepOnProcesses(cfg: Config, s: World, e: Event, processes: nat)
    requires ProcessesWithin(s, processes) && Enabled(s, e) && (e.Snapshot? ==> e.process < processes)
    ensures ProcessesWithin(Step(cfg, s, e), processes)
  {
    hide Step, Enabled, PhaseOf, ProcessOf;
    var t := Step(cfg, s, e);
    forall w | !PhaseOf(t, w).Idle? ensures ProcessOf(t, w) < processes {
      StepWorker(cfg, s, e, w);
    }
  }

  lemma {:induction false} RunLowersMeasure(cfg: Config, events: seq<Event>, n: nat, threadId: string, processes: nat)
    requires ValidConfig(cfg) && Possible(cfg, events) && n <= |events| && processes > 0
      && OnProcesses(events, processes)
    requires forall i :: n <= i < |events| ==> !events[i].Create?
    ensures Possible(cfg, events[..n])
    ensures Measure(cfg, Reached(cfg, events), threadId, processes) + Attempts(cfg, events, n, threadId)
         <= Measure(cfg, Reached(cfg, events[..n]), threadId, processes)
    decreases |events|
  {
    if |events| == n {
      assert events[..n] == events;
    } else {
      var before, e := events[..|events| - 1], events[|events| - 1];
      RunSplits(cfg, events);
      ReachedInv(cfg, before);
      assert forall i :: 0 <= i < |before| ==> before[i] == events[i];
      RunLowersMeasure(cfg, before, n, threadId, processes);
      assert before[..n] == events[..n];
      RunOnProcesses(cfg, before, processes);
      hide Reached, Possible, Inv, Step, Enabled, Measure, ProcessesWithin;
      if Counts(Reached(cfg, before), e, threadId) {
        ConclusionLowersMeasure(cfg, Reached(cfg, before), e, threadId, processes);
      } else {
        OtherStepKeepsMeasure(cfg, Reached(cfg, before), e, threadId, processes);
      }
    }
  }

  /** From any reachable state on, with no new jobs, in whatever way the ticks of `processes` processes interleave,
      the attempts on one thread are at most its live jobs times `loopMaxTurns` and `loopMaxTurns - 1` for each
      process beyond the first; none at all once no job of the thread is live. */
  lemma {:induction false} InterleavedAttemptsAreBounded(cfg: Config, events: seq<Event>, n: nat, threadId: string,
                                                         processes: nat)
    requires ValidConfig(cfg) && Possible(cfg, events) && n <= |events| && processes > 0
      && OnProcesses(events, processes)
    requires forall i :: n <= i < |events| ==> !events[i].Create?
    ensures Possible(cfg, events[..n])
    ensures
      var live := |LiveSet(Reached(cfg, events[..n]), threadId)|;
      Attempts(cfg, events, n, threadId)
      <= if live == 0 then 0 else live * cfg.loopMaxTurns + (processes - 1) * (cfg.loopMaxTurns - 1)
  {
    RunLowersMeasure(cfg, events, n, threadId, processes);
    hide Reached, Possible, LiveSet, Attempts;
    var s, t := Reached(cfg, events[..n]), Reached(cfg, events);
    CreditsBound(cfg, s, threadId, processes);
    CreditsBound(cfg, t, threadId, processes);
    MeasureBound(cfg, |LiveSet(s, threadId)|, Credits(cfg, s, threadId, processes), processes);
    MeasureBound(cfg, |LiveSet(t, threadId)|, Credits(cfg, t, threadId, processes), processes);
  }
}
