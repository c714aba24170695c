/** Every run of concurrent `post_message` requests, as the atomic appends it is equivalent to. */
module PostLinear {
  import opened Wrappers
  import opened MessageTable
  import opened PostMessage
  import PostGuarantees

  /** Where a request takes effect: the id and the clock of its step. */
  datatype Point = Point(request: nat, id: MessageId, now: int)

  predicate Appended(pc: Pc) {
    pc.Done? && (pc.reply.Posted? || pc.reply.IdempotencyConflict?)
  }

  /** The request got an error instead of an answer to an insert. */
  predicate Unaware(pc: Pc) {
    (pc.Recheck? && pc.fault) || pc == Done(Internal)
  }

  predicate HasCommitted(s: World, r: nat) {
    exists i :: 0 <= i < |s.rows| && s.rows[i].id.request == r
  }

  /** A request of the thread takes effect in the step that commits its message, or, if it commits none, in the step
      that ends it with another's message or an idempotency conflict. */
  function PointAt(reqs: Requests, s: World, e: Event, threadId: string): seq<Point> {
    if e.request !in reqs || reqs[e.request].threadId != threadId then []
    else
      var t := Step(reqs, s, e);
      var before, after := PcOf(s, e.request), PcOf(t, e.request);
      if t.rows != s.rows || (!before.Done? && Appended(after) && !HasCommitted(s, e.request))
      then [Point(e.request, MessageId(e.request, if before.TryInsert? then before.attempt else 0), e.now)]
      else []
  }

  /** The points of a run, in the order of its steps. */
  function Points(reqs: Requests, schedule: seq<Event>, threadId: string): seq<Point> {
    if schedule == [] then []
    else
      var before, e := schedule[..|schedule| - 1], schedule[|schedule| - 1];
      Points(reqs, before, threadId) + PointAt(reqs, Run(reqs, before), e, threadId)
  }

  datatype Outcome = Outcome(log: seq<Message>, replies: seq<Reply>)

  /** The atomic appends of the points, one after the other, from an empty log. */
  function Replay(reqs: Requests, points: seq<Point>): Outcome
    requires forall p :: p in points ==> p.request in reqs
  {
    if points == [] then Outcome([], [])
    else
      var p := points[|points| - 1];
      var before := Replay(reqs, points[..|points| - 1]);
      var (log, reply) := AtomicPost(before.log, reqs[p.request], p.id, p.now);
      Outcome(log, before.replies + [reply])
  }

  lemma ReplaySnoc(reqs: Requests, points: seq<Point>, p: Point)
    requires (forall q :: q in points ==> q.request in reqs) && p.request in reqs
    ensures
      var before := Replay(reqs, points);
      var (log, reply) := AtomicPost(before.log, reqs[p.request], p.id, p.now);
      Replay(reqs, points + [p]) == Outcome(log, before.replies + [reply])
  {
    assert (points + [p])[..|points|] == points;
  }

  // ----- what the points account for

  /** The request has answered what its atomic append answers, or it has committed its message, which is what the
      append answers, and does not know. */
  ghost predicate Answers(s: World, r: nat, reply: Reply) {
    || PcOf(s, r) == Done(reply)
    || (Unaware(PcOf(s, r)) && exists i :: OwnRow(s, r, i, reply))
  }

  predicate OwnRow(s: World, r: nat, i: int, reply: Reply) {
    && 0 <= i < |s.rows| && s.rows[i].id.request == r
    && reply == Posted(s.rows[i].id, s.rows[i].seqNo, s.rows[i].createdAt)
  }

  ghost predicate TakesEffect(points: seq<Point>, r: nat) {
    exists k :: 0 <= k < |points| && points[k].request == r
  }

  /** The points account for the thread: its log, the replies given, and which requests have taken effect. */
  ghost predicate Accounts(reqs: Requests, s: World, points: seq<Point>, threadId: string) {
    && (forall p :: p in points ==> p.request in reqs)
    && ThreadLog(s.rows, threadId) == Replay(reqs, points).log
    && |Replay(reqs, points).replies| == |points|
    && (forall k :: 0 <= k < |points| ==>
         reqs[points[k].request].threadId == threadId && Answers(s, points[k].request, Replay(reqs, points).replies[k]))
    && (forall k, l :: 0 <= k < l < |points| ==> points[k].request != points[l].request)
    && (forall r :: r in reqs && reqs[r].threadId == threadId && (Appended(PcOf(s, r)) || HasCommitted(s, r)) ==>
         TakesEffect(points, r))
  }

  // ----- steps

  /** A request that has been accounted for still is after any step. */
  lemma AnswerStays(reqs: Requests, s: World, e: Event, r: nat, reply: Reply)
    requires Inv(reqs, s) && r in reqs && Answers(s, r, reply)
    ensures Answers(Step(reqs, s, e), r, reply)
  {
    StepFacts(reqs, s, e);
    hide Step, Inv;
    if PcOf(s, r) == Done(reply) {
    } else {
      var i :| OwnRow(s, r, i, reply);
      assert OwnRow(Step(reqs, s, e), r, i, reply);
      if e.request == r && PcOf(s, r).Recheck? {
        PostGuarantees.RecheckAnswers(reqs, s, e, i);
      }
    }
  }

  /** A request that has been accounted for takes effect no more. */
  lemma NoSecondPoint(reqs: Requests, s: World, e: Event, threadId: string, reply: Reply)
    requires Inv(reqs, s) && e.request in reqs && Answers(s, e.request, reply)
    ensures PointAt(reqs, s, e, threadId) == []
  {
    PostGuarantees.StepRefines(reqs, s, e, threadId);
    StepFacts(reqs, s, e);
    hide Inv, Step;
    if PcOf(s, e.request) != Done(reply) {
      var i :| OwnRow(s, e.request, i, reply);
      assert HasCommitted(s, e.request);
    }
  }

  lemma CommittedStays(reqs: Requests, s: World, e: Event, r: nat)
    ensures HasCommitted(s, r) ==> HasCommitted(Step(reqs, s, e), r)
    ensures HasCommitted(Step(reqs, s, e), r) ==>
      HasCommitted(s, r) || (e.request == r && Step(reqs, s, e).rows != s.rows)
  {
    StepAppends(reqs, s, e);
    NewRowIsOwn(reqs, s, e);
    var t := Step(reqs, s, e);
    hide Step;
    if HasCommitted(s, r) {
      var i :| 0 <= i < |s.rows| && s.rows[i].id.request == r;
      assert t.rows[i].id.request == r;
    }
    if HasCommitted(t, r) {
      var i :| 0 <= i < |t.rows| && t.rows[i].id.request == r;
      if i < |s.rows| {
        assert s.rows[i].id.request == r;
      }
    }
  }

  lemma NewRowIsOwn(reqs: Requests, s: World, e: Event)
    ensures
      var t := Step(reqs, s, e);
      t.rows != s.rows ==> |t.rows| == |s.rows| + 1 && t.rows[|s.rows|].id.request == e.request
  {
    hide Conflicts, Lookup, LatestSeq, ParentExists;
  }

  /** A step that is no point changes nothing of what is accounted for. */
  lemma OtherStepKeeps(reqs: Requests, s: World, e: Event, points: seq<Point>, threadId: string)
    requires Inv(reqs, s) && Accounts(reqs, s, points, threadId) && PointAt(reqs, s, e, threadId) == []
    ensures Accounts(reqs, Step(reqs, s, e), points, threadId)
  {
    var t := Step(reqs, s, e);
    QuietLog(reqs, s, e, threadId);
    StepFacts(reqs, s, e);
    hide Inv, Step, Replay, ThreadLog, Answers, HasCommitted, PointAt, TakesEffect;
    forall k | 0 <= k < |points| ensures Answers(t, points[k].request, Replay(reqs, points).replies[k]) {
      assert points[k] in points;
      AnswerStays(reqs, s, e, points[k].request, Replay(reqs, points).replies[k]);
    }
    forall r | r in reqs && reqs[r].threadId == threadId && (Appended(PcOf(t, r)) || HasCommitted(t, r))
      ensures TakesEffect(points, r)
    {
      CommittedStays(reqs, s, e, r);
      QuietStepOf(reqs, s, e, threadId, r);
    }
  }

  lemma {:induction false} QuietLog(reqs: Requests, s: World, e: Event, threadId: string)
    requires Inv(reqs, s) && PointAt(reqs, s, e, threadId) == []
    ensures ThreadLog(Step(reqs, s, e).rows, threadId) == ThreadLog(s.rows, threadId)
  {
    if e.request in reqs {
      PostGuarantees.StepRefines(reqs, s, e, threadId);
    }
    hide Inv, Next, ThreadLog;
  }

  /** After such a step a request has taken effect only if it had before. */
  lemma QuietStepOf(reqs: Requests, s: World, e: Event, threadId: string, r: nat)
    requires PointAt(reqs, s, e, threadId) == [] && r in reqs && reqs[r].threadId == threadId
    ensures
      var t := Step(reqs, s, e);
      && (e.request == r ==> t.rows == s.rows)
      && (Appended(PcOf(t, r)) ==> Appended(PcOf(s, r)) || HasCommitted(s, r))
  {
    StepFacts(reqs, s, e);
    hide Step, HasCommitted;
  }

  /** A step that is a point is the atomic append it stands for. */
  lemma PointStands(reqs: Requests, s: World, e: Event, threadId: string)
    requires Inv(reqs, s) && PointAt(reqs, s, e, threadId) != []
    ensures e.request in reqs && reqs[e.request].threadId == threadId
    ensures
      var t, p := Step(reqs, s, e), PointAt(reqs, s, e, threadId)[0];
      var (log, reply) := AtomicPost(ThreadLog(s.rows, threadId), reqs[e.request], p.id, p.now);
      && PointAt(reqs, s, e, threadId) == [p] && p.request == e.request
      && ThreadLog(t.rows, threadId) == log && Answers(t, e.request, reply)
  {
    PostGuarantees.StepRefines(reqs, s, e, threadId);
    var t := Step(reqs, s, e);
    if t.rows != s.rows && !Appended(PcOf(t, e.request)) {
      NewRowIsOwn(reqs, s, e);
      LostRow(reqs, s, e);
    }
    hide Inv, Step, ThreadLog, AtomicPost;
  }

  /** The row a lost answer leaves behind is the one the atomic append answers with. */
  lemma LostRow(reqs: Requests, s: World, e: Event)
    requires Inv(reqs, s) && e.request in reqs && Step(reqs, s, e).rows != s.rows
    ensures
      var t, req := Step(reqs, s, e), reqs[e.request];
      var reply := AtomicPost(ThreadLog(s.rows, req.threadId), req,
                                             MessageId(e.request, PcOf(s, e.request).attempt), e.now).1;
      && PcOf(s, e.request).TryInsert?
      && OwnRow(t, e.request, |s.rows|, reply)
  {
    var r, req := e.request, reqs[e.request];
    assert PcOk(req, r, s);
    PostGuarantees.StepRefines(reqs, s, e, req.threadId);
    StepFacts(reqs, s, e);
    hide GapFree, RowsOk, ThreadLog, Conflicts, LatestSeq, ParentExists;
    var pc := PcOf(s, r);
    assert pc.TryInsert?;
    var m := NewMessage(req, MessageId(r, pc.attempt), pc.next, e.now);
    InsertIsNext(s.rows, m);
    PostGuarantees.LookupInLog(s.rows, req);
  }

  /** The points so far stay accounted for, and the new one is of another request. */
  lemma EarlierPointsStay(reqs: Requests, s: World, e: Event, points: seq<Point>, threadId: string, k: nat)
    requires Inv(reqs, s) && Accounts(reqs, s, points, threadId) && PointAt(reqs, s, e, threadId) != []
    requires e.request in reqs && k < |points|
    ensures k < |Replay(reqs, points).replies|
    ensures Answers(Step(reqs, s, e), points[k].request, Replay(reqs, points).replies[k])
    ensures points[k].request != e.request && reqs[points[k].request].threadId == threadId
  {
    hide Inv, Step, Replay, ThreadLog, Answers, HasCommitted, PointAt, TakesEffect;
    assert points[k] in points;
    AnswerStays(reqs, s, e, points[k].request, Replay(reqs, points).replies[k]);
    if points[k].request == e.request {
      NoSecondPoint(reqs, s, e, threadId, Replay(reqs, points).replies[k]);
    }
  }

  lemma EarlierEffectsStay(reqs: Requests, s: World, e: Event, points: seq<Point>, threadId: string, p: Point, r: nat)
    requires Accounts(reqs, s, points, threadId) && p.request == e.request
    requires r in reqs && reqs[r].threadId == threadId
    requires Appended(PcOf(Step(reqs, s, e), r)) || HasCommitted(Step(reqs, s, e), r)
    ensures TakesEffect(points + [p], r)
  {
    StepFacts(reqs, s, e);
    hide Step, Replay, ThreadLog, Answers, HasCommitted, TakesEffect;
    CommittedStays(reqs, s, e, r);
    EffectSnoc(points, p, r);
  }

  lemma {:induction false} PointIsAppend(reqs: Requests, s: World, e: Event, points: seq<Point>, threadId: string)
    requires Inv(reqs, s) && Accounts(reqs, s, points, threadId) && PointAt(reqs, s, e, threadId) != []
    ensures Accounts(reqs, Step(reqs, s, e), points + PointAt(reqs, s, e, threadId), threadId)
  {
    hide Inv, Step, Replay, ThreadLog, Answers, HasCommitted, PointAt, TakesEffect, AtomicPost, Appended;
    PointStands(reqs, s, e, threadId);
    var t, p := Step(reqs, s, e), PointAt(reqs, s, e, threadId)[0];
    ReplaySnoc(reqs, points, p);
    forall k | 0 <= k < |points|
      ensures Answers(t, points[k].request, Replay(reqs, points).replies[k]) && points[k].request != p.request
    {
      EarlierPointsStay(reqs, s, e, points, threadId, k);
    }
    forall r | r in reqs && reqs[r].threadId == threadId && (Appended(PcOf(t, r)) || HasCommitted(t, r))
      ensures TakesEffect(points + [p], r)
    {
      EarlierEffectsStay(reqs, s, e, points, threadId, p, r);
    }
  }

  lemma EffectSnoc(points: seq<Point>, p: Point, r: nat)
    ensures TakesEffect(points, r) || p.request == r ==> TakesEffect(points + [p], r)
  {
    var all := points + [p];
    if p.request == r {
      assert all[|points|].request == r;
    } else if TakesEffect(points, r) {
      var k :| 0 <= k < |points| && points[k].request == r;
      assert all[k].request == r;
    }
  }

  lemma EmptyAccounts(reqs: Requests, threadId: string)
    ensures Accounts(reqs, EMPTY, [], threadId)
  {
  }

  /** Linearizability: after any schedule, lost answers included, a thread's log is that of the atomic appends at the
      points of its requests, in the order of their steps. Each request has at most one point; one that ended with a
      message or an idempotency conflict has one, and its reply is the atomic append's; so has one that committed its
      message and was told of an error only. */
  lemma {:induction false} RunIsAtomicAppends(reqs: Requests, schedule: seq<Event>, threadId: string)
    ensures Accounts(reqs, Run(reqs, schedule), Points(reqs, schedule, threadId), threadId)
  {
    hide Accounts, PointAt, Inv, Step, Arrived;
    if schedule == [] {
      EmptyAccounts(reqs, threadId);
    } else {
      var before, e := schedule[..|schedule| - 1], schedule[|schedule| - 1];
      RunIsAtomicAppends(reqs, before, threadId);
      RunInv(reqs, before);
      var s, points := Run(reqs, before), Points(reqs, before, threadId);
      if PointAt(reqs, s, e, threadId) == [] {
        OtherStepKeeps(reqs, s, e, points, threadId);
        assert points + [] == points;
      } else {
        PointIsAppend(reqs, s, e, points, threadId);
      }
    }
  }
}
