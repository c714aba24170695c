/** What overlapping workers record: however the steps of one attempt are interleaved with everything else, its rows
    say what the executor, the fallback and the two guards of its process said. */
module TriggerWorkerRecords {
  import opened Wrappers
  import opened TriggerModel
  import opened TriggerDecision
  import opened TriggerProcessor
  import opened TriggerWorkers
  import opened TriggerWorkerGuards
  import opened TriggerClaims

  // ----- the others' steps

  ghost predicate NoneConcerns(events: seq<Event>, w: nat) {
    forall i :: 0 <= i < |events| ==> !Concerns(events[i], w)
  }

  lemma {:induction false} StartIsPossible(cfg: Config, events: seq<Event>, more: seq<Event>)
    requires Possible(cfg, events + more)
    ensures Possible(cfg, events)
  {
    if more == [] {
      assert events + more == events;
    } else {
      RunSplits(cfg, events + more);
      assert (events + more)[..|events + more| - 1] == events + more[..|more| - 1];
      StartIsPossible(cfg, events, more[..|more| - 1]);
    }
  }

  lemma OthersLeaveProcess(cfg: Config, s: World, e: Event, w: nat)
    requires Enabled(s, e) && !Concerns(e, w)
    ensures ProcessOf(Step(cfg, s, e), w) == ProcessOf(s, w)
  {
    hide Admit, Decide, TakeTurn, CandidateQuery, ClaimMatches;
  }

  /** While the others run a worker stays where it is. */
  lemma {:induction false} OthersKeepWorker(cfg: Config, events: seq<Event>, more: seq<Event>, w: nat)
    requires Possible(cfg, events) && Possible(cfg, events + more) && NoneConcerns(more, w)
    ensures PhaseOf(Reached(cfg, events + more), w) == PhaseOf(Reached(cfg, events), w)
    ensures ProcessOf(Reached(cfg, events + more), w) == ProcessOf(Reached(cfg, events), w)
  {
    if more == [] {
      assert events + more == events;
    } else {
      var init, e := more[..|more| - 1], more[|more| - 1];
      RunSplits(cfg, events + more);
      assert (events + more)[..|events + more| - 1] == events + init;
      hide Reached, Possible, Step, Enabled;
      OthersKeepWorker(cfg, events, init, w);
      OthersLeavePhase(cfg, Reached(cfg, events + init), e, w);
      OthersLeaveProcess(cfg, Reached(cfg, events + init), e, w);
    }
  }

  // ----- the three steps of an attempt

  /** The limiter's step: the executor is asked, and the call is on record, exactly when there is no deferral. */
  lemma AdmitAsks(cfg: Config, s: World, w: nat)
    requires Enabled(s, AdmitNext(w))
    ensures
      var p, t := PhaseOf(s, w), Step(cfg, s, AdmitNext(w));
      var q := PhaseOf(t, w);
      && q.Executing? && q.job == Held(p)[0] && q.now == NowOf(p)
      && (q.limited.Some? ==> IsLimit(cfg, q.limited.value))
      && t.executed == s.executed + if q.limited.None? then [(q.job.triggerId, q.job.attempts + 1)] else []
  {
  }

  /** The decision, with what the guard of the worker's process has seen. */
  ghost predicate Guarded(cfg: Config, events: seq<Event>, process: nat, threadId: string, trace: Trace)
    requires Possible(cfg, events)
  {
    var turns := TurnsSeen(cfg, events, process, threadId) + [trace.turn];
    trace.blocked <==>
      LastWithoutProgress(turns, cfg.loopMaxTurns) || LastIdentical(turns, cfg.loopMaxRepeatedFindings)
  }

  lemma {:induction false} ConcludeDecides(cfg: Config, events: seq<Event>, w: nat, reply: Reply) returns (trace: Trace)
    requires ValidConfig(cfg) && Possible(cfg, events) && Enabled(Reached(cfg, events), Conclude(w, reply))
    requires
      var p := PhaseOf(Reached(cfg, events), w);
      p.limited.Some? ==> IsLimit(cfg, p.limited.value)
    ensures
      var s, e := Reached(cfg, events), Conclude(w, reply);
      var p, q := PhaseOf(s, w), PhaseOf(Step(cfg, s, e), w);
      && q.Concluded? && q.job == p.job && q.now == p.now && trace.invoked == p.limited.None?
      && Guarded(cfg, events, ProcessOf(s, w), p.job.threadId, trace)
      && Follows(cfg, q.job, q.now, reply, trace, RecordedRow(q.job, q.verdict).(updatedAt := q.now),
                 Attempt(q.job.attempts + 1, q.verdict.outcome.result, q.verdict.outcome.errorCode, q.now))
  {
    var s, e := Reached(cfg, events), Conclude(w, reply);
    var p := PhaseOf(s, w);
    var v := Decided(cfg, s, e);
    ProcessLoopGuardIsExact(cfg, events, e);
    var turns := TurnsSeen(cfg, events, ProcessOf(s, w), p.job.threadId) + [TurnOf(v.outcome)];
    var blocks := LastWithoutProgress(turns, cfg.loopMaxTurns) || LastIdentical(turns, cfg.loopMaxRepeatedFindings);
    trace := Trace(KeyOf(p.job), p.now, p.limited.None?, TurnOf(v.outcome), blocks);
    BlockedTurnIsFinding(cfg, turns);
    hide Follows, Decide, TurnOf, Step, Reached, Possible, LastWithoutProgress, LastIdentical, TurnsSeen, Enabled;
    VerdictFollows(cfg, p.job, p.now, reply, p.limited, v, trace);
  }

  lemma BlockedTurnIsFinding(cfg: Config, turns: seq<Turn>)
    requires ValidConfig(cfg) && turns != []
    ensures LastWithoutProgress(turns, cfg.loopMaxTurns) || LastIdentical(turns, cfg.loopMaxRepeatedFindings) ==>
      turns[|turns| - 1].Finding?
  {
  }

  /** The worker once it has been admitted, while the others run. */
  lemma AskedWorker(cfg: Config, events: seq<Event>, w: nat, xs: seq<Event>)
    requires NoneConcerns(xs, w) && Possible(cfg, events + [AdmitNext(w)] + xs)
    ensures
      && Possible(cfg, events) && Possible(cfg, events + [AdmitNext(w)])
      && var s, a := Reached(cfg, events), Reached(cfg, events + [AdmitNext(w)]);
         var p, q := PhaseOf(s, w), PhaseOf(Reached(cfg, events + [AdmitNext(w)] + xs), w);
         && Held(p) != [] && q.Executing? && q.job == Held(p)[0] && q.now == NowOf(p)
         && (q.limited.Some? ==> IsLimit(cfg, q.limited.value))
         && a.executed == s.executed + (if q.limited.None? then [(q.job.triggerId, q.job.attempts + 1)] else [])
         && ProcessOf(Reached(cfg, events + [AdmitNext(w)] + xs), w) == ProcessOf(s, w)
  {
    hide *;
    StartIsPossible(cfg, events + [AdmitNext(w)], xs);
    StartIsPossible(cfg, events, [AdmitNext(w)]);
    ViewsExtend(cfg, events, AdmitNext(w), w);
    OthersKeepWorker(cfg, events + [AdmitNext(w)], xs, w);
    AdmitAsks(cfg, Reached(cfg, events), w);
    AdmitKeepsProcess(cfg, Reached(cfg, events), w);
  }

  /** The worker once it has decided, while the others run. */
  lemma DecidedWorker(cfg: Config, asked: seq<Event>, w: nat, reply: Reply, ys: seq<Event>) returns (trace: Trace)
    requires ValidConfig(cfg) && NoneConcerns(ys, w) && Possible(cfg, asked)
    requires Possible(cfg, asked + [Conclude(w, reply)] + ys)
    requires
      var p := PhaseOf(Reached(cfg, asked), w);
      p.Executing? && (p.limited.Some? ==> IsLimit(cfg, p.limited.value))
    ensures
      var s := Reached(cfg, asked);
      var p, q := PhaseOf(s, w), PhaseOf(Reached(cfg, asked + [Conclude(w, reply)] + ys), w);
      && q.Concluded? && q.job == p.job && q.now == p.now && trace.invoked == p.limited.None?
      && Guarded(cfg, asked, ProcessOf(s, w), p.job.threadId, trace)
      && Follows(cfg, q.job, q.now, reply, trace, RecordedRow(q.job, q.verdict).(updatedAt := q.now),
                 Attempt(q.job.attempts + 1, q.verdict.outcome.result, q.verdict.outcome.errorCode, q.now))
  {
    hide *;
    StartIsPossible(cfg, asked + [Conclude(w, reply)], ys);
    ViewsExtend(cfg, asked, Conclude(w, reply), w);
    OthersKeepWorker(cfg, asked + [Conclude(w, reply)], ys, w);
    trace := ConcludeDecides(cfg, asked, w, reply);
  }

  /** In every run the row and the attempt row that a worker records for a job follow what the executor and the
      fallback answered for it, whatever the other workers do between its three steps. The executor was asked, and the
      call recorded, exactly when the limiter admitted the job. No other row changes. */
  lemma {:induction false} RecordFollowsTheAnswers(cfg: Config, events: seq<Event>, w: nat, xs: seq<Event>,
                                                   reply: Reply, ys: seq<Event>)
    returns (trace: Trace)
    requires ValidConfig(cfg) && NoneConcerns(xs, w) && NoneConcerns(ys, w)
    requires Possible(cfg, events + [AdmitNext(w)] + xs + [Conclude(w, reply)] + ys + [Record(w)])
    ensures
      var asked := events + [AdmitNext(w)] + xs;
      var decided := asked + [Conclude(w, reply)] + ys;
      && Possible(cfg, events) && Possible(cfg, events + [AdmitNext(w)]) && Possible(cfg, asked)
      && Possible(cfg, decided) && Held(PhaseOf(Reached(cfg, events), w)) != []
      && var s, a := Reached(cfg, events), Reached(cfg, events + [AdmitNext(w)]);
         var b, c := Reached(cfg, decided), Reached(cfg, decided + [Record(w)]);
         var job := Held(PhaseOf(s, w))[0];
         var id := job.triggerId;
         && a.executed == s.executed + (if trace.invoked then [(id, job.attempts + 1)] else [])
         && Guarded(cfg, asked, ProcessOf(s, w), job.threadId, trace)
         && id in b.rows && b.rows[id] == job && id in c.rows && c.rows == b.rows[id := c.rows[id]]
         && exists attempt ::
              && LogOf(c, id) == LogOf(b, id) + [attempt]
              && Follows(cfg, job, NowOf(PhaseOf(s, w)), reply, trace, c.rows[id], attempt)
  {
    hide *;
    var asked := events + [AdmitNext(w)] + xs;
    var decided := asked + [Conclude(w, reply)] + ys;
    StartIsPossible(cfg, decided, [Record(w)]);
    StartIsPossible(cfg, asked + [Conclude(w, reply)], ys);
    StartIsPossible(cfg, asked, [Conclude(w, reply)]);
    ViewsExtend(cfg, decided, Record(w), w);
    AskedWorker(cfg, events, w, xs);
    trace := DecidedWorker(cfg, asked, w, reply, ys);
    ReachedInv(cfg, decided);
    RecordWrites(cfg, Reached(cfg, decided), w);
  }

  lemma AdmitKeepsProcess(cfg: Config, s: World, w: nat)
    requires Enabled(s, AdmitNext(w))
    ensures ProcessOf(Step(cfg, s, AdmitNext(w)), w) == ProcessOf(s, w) && Held(PhaseOf(s, w)) != []
  {
    hide Admit;
  }

  /** The record writes what was concluded. */
  lemma RecordWrites(cfg: Config, s: World, w: nat)
    requires Inv(cfg, s) && Enabled(s, Record(w))
    ensures
      var p, t := PhaseOf(s, w), Step(cfg, s, Record(w));
      && p.Concluded?
      && var id := p.job.triggerId;
         && id in s.rows && s.rows[id] == p.job && id in t.rows && t.rows == s.rows[id := t.rows[id]]
         && t.rows[id] == RecordedRow(p.job, p.verdict).(updatedAt := p.now)
         && LogOf(t, id) == LogOf(s, id)
              + [Attempt(p.job.attempts + 1, p.verdict.outcome.result, p.verdict.outcome.errorCode, p.now)]
  {
    RecordHappens(cfg, s, w);
    WorkingJobRow(cfg, s, w);
    hide Inv, RecordStep;
  }
}
