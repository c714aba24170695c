/** What concurrent `post_message` requests guarantee under every schedule. */
module PostGuarantees {
  import opened Wrappers
  import opened MessageTable
  import opened PostMessage

  // ----- refinement of an atomic append

  /** The lookup a request makes in the table is the one the specification makes in the thread's log. */
  lemma LookupInLog(rows: seq<Message>, req: Request)
    ensures Lookup(ThreadLog(rows, req.threadId), req) == Lookup(rows, req)
  {
    if req.key.Some? {
      FindInLog(rows, req.threadId, req.sender, req.key.value);
    }
  }

  /** The step ends a request with a message or an idempotency conflict. */
  predicate TakesEffect(before: Pc, after: Pc) {
    !before.Done? && after.Done? && (after.reply.Posted? || after.reply.IdempotencyConflict?)
  }

  /** The step that ends a request with a message or an idempotency conflict IS the atomic append on the thread's
      log at that moment. A commit whose answer is lost is the atomic append as well, only that the request does not
      learn of it. Every other step leaves every log as it is. */
  lemma {:induction false} StepRefinesAtomicAppend(reqs: Requests, schedule: seq<Event>, e: Event, threadId: string)
    requires e.request in reqs
    ensures
      var s := Run(reqs, schedule);
      var t := Step(reqs, s, e);
      var req, before, after := reqs[e.request], PcOf(s, e.request), PcOf(t, e.request);
      var id := MessageId(e.request, if before.TryInsert? then before.attempt else 0);
      var log, log' := ThreadLog(s.rows, req.threadId), ThreadLog(t.rows, req.threadId);
      && (threadId != req.threadId ==> ThreadLog(t.rows, threadId) == ThreadLog(s.rows, threadId))
      && (if TakesEffect(before, after) then (log', after.reply) == AtomicPost(log, req, id, e.now)
          else if t.rows != s.rows then log' == AtomicPost(log, req, id, e.now).0
            && AtomicPost(log, req, id, e.now).1.Posted?
          else log' == log)
      && (t.rows != s.rows ==> before.TryInsert? && (TakesEffect(before, after) || (after.Recheck? && after.fault)))
  {
    RunInv(reqs, schedule);
    var s := Run(reqs, schedule);
    StepRefines(reqs, s, e, threadId);
  }

  lemma StepRefines(reqs: Requests, s: World, e: Event, threadId: string)
    requires Inv(reqs, s) && e.request in reqs
    ensures
      var t := Step(reqs, s, e);
      var req, before, after := reqs[e.request], PcOf(s, e.request), PcOf(t, e.request);
      var id := MessageId(e.request, if before.TryInsert? then before.attempt else 0);
      var log, log' := ThreadLog(s.rows, req.threadId), ThreadLog(t.rows, req.threadId);
      && (threadId != req.threadId ==> ThreadLog(t.rows, threadId) == ThreadLog(s.rows, threadId))
      && (if TakesEffect(before, after) then (log', after.reply) == AtomicPost(log, req, id, e.now)
          else if t.rows != s.rows then log' == AtomicPost(log, req, id, e.now).0
            && AtomicPost(log, req, id, e.now).1.Posted?
          else log' == log)
      && (t.rows != s.rows ==> before.TryInsert? && (TakesEffect(before, after) || (after.Recheck? && after.fault)))
  {
    hide GapFree, RowsOk, ThreadLog, Conflicts, LatestSeq;
    var r, req := e.request, reqs[e.request];
    var pc := PcOf(s, r);
    assert PcOk(req, r, s);
    LookupInLog(s.rows, req);
    if pc.TryInsert? {
      var m := NewMessage(req, MessageId(r, pc.attempt), pc.next, e.now);
      if !e.fault.Rejected? && !Conflicts(s.rows, m) {
        InsertIsNext(s.rows, m);
        ThreadLogSnoc(s.rows, m, threadId);
        ThreadLogSnoc(s.rows, m, req.threadId);
        FreeKeyIsFree(s.rows, req, m);
      }
    }
    hide Inv, PcOk;
  }

  lemma FreeKeyIsFree(rows: seq<Message>, req: Request, m: Message)
    requires m == NewMessage(req, m.id, m.seqNo, m.createdAt) && !Conflicts(rows, m)
    ensures Lookup(rows, req).None?
  {
    if req.key.Some? {
      FindByKeyExact(rows, req.threadId, req.sender, req.key.value);
      assert forall i :: 0 <= i < |rows| ==> !Collide(m, rows[i]);
    }
  }

  /** Under every schedule each thread's messages carry exactly the sequence numbers 1..n. */
  lemma {:induction false} LogsAreGapFree(reqs: Requests, schedule: seq<Event>, threadId: string, i: nat)
    requires i < |ThreadLog(Run(reqs, schedule).rows, threadId)|
    ensures ThreadLog(Run(reqs, schedule).rows, threadId)[i].seqNo == i + 1
  {
    RunInv(reqs, schedule);
  }

  // ----- exactly once per idempotency key

  /** The atomic append itself is idempotent: posting again under the same key changes nothing and names the
      first message. */
  lemma AtomicPostIsIdempotent(log: seq<Message>, first: Request, again: Request, id: MessageId, id': MessageId,
                               now: int, now': int)
    requires first.key.Some? && first.threadId == again.threadId && first.sender == again.sender
      && first.key == again.key
    requires AtomicPost(log, first, id, now).1.Posted?
    ensures
      var (log', reply) := AtomicPost(log, first, id, now);
      AtomicPost(log', again, id', now')
        == (log', if again.payload == first.payload then reply else IdempotencyConflict)
  {
    if Lookup(log, first).None? {
    }
  }

  /** At most one message exists per (thread, sender, key). */
  lemma {:induction false} OneMessagePerKey(reqs: Requests, schedule: seq<Event>, i: nat, j: nat)
    requires i < |Run(reqs, schedule).rows| && j < |Run(reqs, schedule).rows|
    requires
      var a, b := Run(reqs, schedule).rows[i], Run(reqs, schedule).rows[j];
      a.key.Some? && a.threadId == b.threadId && a.sender == b.sender && a.key == b.key
    ensures i == j
  {
    RunInv(reqs, schedule);
    hide Run, FromRequest;
  }

  predicate SameKey(a: Request, b: Request) {
    a.key.Some? && a.threadId == b.threadId && a.sender == b.sender && a.key == b.key
  }

  /** The message a successful reply names. */
  lemma RowOf(reqs: Requests, s: World, r: nat) returns (i: nat)
    requires Inv(reqs, s) && r in reqs && PcOf(s, r).Done? && PcOf(s, r).reply.Posted?
    ensures i < |s.rows| && Names(s.rows[i], reqs[r], r, PcOf(s, r).reply)
  {
    assert PcOk(reqs[r], r, s);
    i :| 0 <= i < |s.rows| && Names(s.rows[i], reqs[r], r, PcOf(s, r).reply);
  }

  /** A successful reply names a message of the request's thread, sender, payload and key; all successful
      replies under one key name the same message and asked for the same payload; and an idempotency conflict
      is answered only when the message under the key has another payload. */
  lemma {:induction false} ExactlyOncePerKey(reqs: Requests, schedule: seq<Event>, r: nat, q: nat)
    requires r in reqs && q in reqs
    requires PcOf(Run(reqs, schedule), r).Done? && PcOf(Run(reqs, schedule), r).reply.Posted?
    ensures
      var s := Run(reqs, schedule);
      var mine, other := PcOf(s, r).reply, PcOf(s, q);
      && (exists i :: 0 <= i < |s.rows| && Names(s.rows[i], reqs[r], r, mine))
      && (SameKey(reqs[r], reqs[q]) && other.Done? && other.reply.Posted? ==>
           other.reply == mine && reqs[q].payload == reqs[r].payload)
      && (SameKey(reqs[r], reqs[q]) && other.Done? && other.reply.IdempotencyConflict? ==>
           reqs[q].payload != reqs[r].payload)
  {
    RunInv(reqs, schedule);
    var s := Run(reqs, schedule);
    hide Run;
    var i := RowOf(reqs, s, r);
    if SameKey(reqs[r], reqs[q]) && PcOf(s, q).Done? {
      if PcOf(s, q).reply.Posted? {
        var j := RowOf(reqs, s, q);
        hide Inv;
      } else if PcOf(s, q).reply.IdempotencyConflict? {
        var j := ContradictingRow(reqs, s, q);
        hide Inv;
      }
    }
  }

  lemma ContradictingRow(reqs: Requests, s: World, r: nat) returns (i: nat)
    requires Inv(reqs, s) && r in reqs && PcOf(s, r) == Done(IdempotencyConflict)
    ensures i < |s.rows| && Contradicts(s.rows[i], reqs[r])
  {
    assert PcOk(reqs[r], r, s);
    i :| 0 <= i < |s.rows| && Contradicts(s.rows[i], reqs[r]);
  }

  /** An idempotency conflict is answered only when the table holds a message under the request's key with
      another payload. */
  lemma ConflictMeansOtherPayload(reqs: Requests, schedule: seq<Event>, r: nat)
    requires r in reqs && PcOf(Run(reqs, schedule), r) == Done(IdempotencyConflict)
    ensures exists m :: m in Run(reqs, schedule).rows && m.threadId == reqs[r].threadId && m.sender == reqs[r].sender
                        && reqs[r].key.Some? && m.key == reqs[r].key && m.payload != reqs[r].payload
  {
    RunInv(reqs, schedule);
    hide Run;
    var i := ContradictingRow(reqs, Run(reqs, schedule), r);
  }

  /** A lost answer is recovered with a key: a request that committed its message, got an error instead of the answer
      and looks again, replies with that very message. Without a key it gives up, and the message stays. */
  lemma {:induction false} LostAnswerIsRecoveredIffKeyed(reqs: Requests, schedule: seq<Event>, e: Event, i: nat)
    requires e.request in reqs && i < |Run(reqs, schedule).rows|
    requires Run(reqs, schedule).rows[i].id.request == e.request
    requires PcOf(Run(reqs, schedule), e.request).Recheck?
    ensures
      var s := Run(reqs, schedule);
      var t, m := Step(reqs, s, e), s.rows[i];
      && t.rows == s.rows
      && PcOf(t, e.request)
         == Done(if reqs[e.request].key.Some? then Posted(m.id, m.seqNo, m.createdAt) else Internal)
  {
    RunInv(reqs, schedule);
    hide Run, Inv, Step;
    RecheckAnswers(reqs, Run(reqs, schedule), e, i);
  }

  lemma RecheckAnswers(reqs: Requests, s: World, e: Event, i: nat)
    requires Inv(reqs, s) && e.request in reqs && i < |s.rows| && s.rows[i].id.request == e.request
    requires PcOf(s, e.request).Recheck?
    ensures
      var t, m := Step(reqs, s, e), s.rows[i];
      && t.rows == s.rows
      && PcOf(t, e.request)
         == Done(if reqs[e.request].key.Some? then Posted(m.id, m.seqNo, m.createdAt) else Internal)
  {
    RowAuthor(reqs, s, i);
    StepFacts(reqs, s, e);
    if reqs[e.request].key.Some? {
      RecheckFinds(reqs, s, e.request, i);
    } else {
    }
    hide Inv, Step, Lookup;
  }

  lemma RecheckFinds(reqs: Requests, s: World, r: nat, i: nat)
    requires Inv(reqs, s) && r in reqs && i < |s.rows| && s.rows[i].id.request == r && reqs[r].key.Some?
    ensures Lookup(s.rows, reqs[r]) == Some(s.rows[i])
  {
    OwnMessageIsFound(reqs, s, r, i);
  }

  lemma RowAuthor(reqs: Requests, s: World, a: nat)
    requires Inv(reqs, s) && a < |s.rows|
    ensures FromRequest(reqs, s, s.rows[a])
  {
  }

  /** Without a key every successful request has a message of its own. */
  lemma KeylessPostsAreDistinct(reqs: Requests, schedule: seq<Event>, r: nat, q: nat)
    requires r in reqs && q in reqs && r != q && reqs[r].key.None?
    requires PcOf(Run(reqs, schedule), r).Done? && PcOf(Run(reqs, schedule), r).reply.Posted?
    requires PcOf(Run(reqs, schedule), q).Done? && PcOf(Run(reqs, schedule), q).reply.Posted?
    ensures PcOf(Run(reqs, schedule), r).reply.id != PcOf(Run(reqs, schedule), q).reply.id
  {
    RunInv(reqs, schedule);
    var s := Run(reqs, schedule);
    assert PcOk(reqs[r], r, s) && PcOk(reqs[q], q, s);
    var i :| 0 <= i < |s.rows| && Names(s.rows[i], reqs[r], r, PcOf(s, r).reply);
    var j :| 0 <= j < |s.rows| && Names(s.rows[j], reqs[q], q, PcOf(s, q).reply);
    if i == j {
      assert FromRequest(reqs, s, s.rows[i]);
    }
  }

  /** A reply always answers a message committed before it in its own thread. */
  lemma RepliesPointBackwards(reqs: Requests, schedule: seq<Event>, i: nat, id: MessageId)
    requires i < |Run(reqs, schedule).rows| && Run(reqs, schedule).rows[i].payload.inReplyTo == Some(id)
    ensures
      var rows := Run(reqs, schedule).rows;
      exists j :: 0 <= j < i && rows[j].threadId == rows[i].threadId && rows[j].id == id
  {
    RunInv(reqs, schedule);
    var rows := Run(reqs, schedule).rows;
    hide Run, FromRequest;
    assert HasMessage(rows[..i], rows[i].threadId, id);
    var j :| 0 <= j < i && rows[..i][j].threadId == rows[i].threadId && rows[..i][j].id == id;
    assert rows[j] == rows[..i][j];
  }

  /** A request is refused for the message it answers exactly if, at its first step, no row of its own thread had that
      message's id; and no later step refuses it for that. */
  lemma {:induction false} RefusedIffNoParent(reqs: Requests, schedule: seq<Event>, e: Event)
    requires e.request in reqs && PcOf(Run(reqs, schedule), e.request) != Done(InvalidReplyTo)
    ensures
      var rows, req := Run(reqs, schedule).rows, reqs[e.request];
      PcOf(Run(reqs, schedule + [e]), e.request) == Done(InvalidReplyTo) <==>
        && PcOf(Run(reqs, schedule), e.request).Start?
        && req.payload.inReplyTo.Some?
        && forall i :: 0 <= i < |rows| ==>
             !(rows[i].threadId == req.threadId && rows[i].id == req.payload.inReplyTo.value)
  {
    RunSnoc(reqs, schedule, e);
    hide Run, Conflicts, Lookup, LatestSeq;
  }

  /** A step leaves the table alone or appends a row of its own request, stamped with its own clock. */
  lemma StepStamps(reqs: Requests, s: World, e: Event)
    ensures
      var rows := Step(reqs, s, e).rows;
      rows == s.rows
        || (|rows| == |s.rows| + 1 && rows == s.rows + [rows[|s.rows|]]
            && rows[|s.rows|].id.request == e.request && rows[|s.rows|].createdAt == e.now)
  {
    hide Conflicts, Lookup, LatestSeq, ParentExists;
  }

  lemma {:induction false} RowsAreStamped(reqs: Requests, schedule: seq<Event>, i: nat)
    requires i < |Run(reqs, schedule).rows|
    ensures
      var m := Run(reqs, schedule).rows[i];
      exists e :: e in schedule && e.request == m.id.request && e.now == m.createdAt
  {
    if schedule != [] {
      var before, e := schedule[..|schedule| - 1], schedule[|schedule| - 1];
      StepStamps(reqs, Run(reqs, before), e);
      hide Step;
      if i < |Run(reqs, before).rows| {
        RowsAreStamped(reqs, before, i);
      } else {
        assert e in schedule;
      }
    }
  }

  /** A message is what its request asked for, written with the clock of one of that request's own steps. */
  lemma MessagesAreTheirRequests(reqs: Requests, schedule: seq<Event>, i: nat)
    requires i < |Run(reqs, schedule).rows|
    ensures
      var m := Run(reqs, schedule).rows[i];
      && m.id.request in reqs
      && (var req := reqs[m.id.request];
          && m.threadId == req.threadId && m.sender == req.sender && m.session == req.session
          && m.payload == req.payload && m.key == req.key)
      && exists e :: e in schedule && e.request == m.id.request && e.now == m.createdAt
  {
    RunInv(reqs, schedule);
    RowAuthor(reqs, Run(reqs, schedule), i);
    RowsAreStamped(reqs, schedule, i);
    hide Run, Inv, Committed;
  }

  /** No number in use or about to be inserted is past the largest safe integer. */
  ghost predicate Safe(reqs: Requests, s: World) {
    && (forall i :: 0 <= i < |s.rows| ==> s.rows[i].seqNo <= 9_007_199_254_740_991)
    && (forall r :: r in reqs ==> SafePc(reqs[r], s.rows, PcOf(s, r)))
  }

  ghost predicate SafePc(req: Request, rows: seq<Message>, pc: Pc) {
    && (pc.TryInsert? ==> pc.next <= 9_007_199_254_740_991)
    && (pc == Done(SequenceOverflow) ==> |ThreadLog(rows, req.threadId)| >= 9_007_199_254_740_991)
  }

  lemma NextIsSafe(rows: seq<Message>, req: Request, r: nat, pc: Pc, e: Event)
    requires GapFree(rows) && SafePc(req, rows, pc)
    ensures
      var (after, next) := Next(rows, req, r, pc, e);
      && Appends(rows, after) && SafePc(req, after, next)
      && (after != rows ==> after[|rows|].seqNo <= 9_007_199_254_740_991)
  {
    LatestIsLength(rows, req.threadId);
    hide Conflicts, Lookup, LatestSeq, ThreadLog, GapFree, ParentExists;
    LogGrows(rows, Next(rows, req, r, pc, e).0, req.threadId);
  }

  lemma StepIsSafe(reqs: Requests, s: World, e: Event)
    requires GapFree(s.rows) && Safe(reqs, s)
    ensures Safe(reqs, Step(reqs, s, e))
  {
    hide Next, ThreadLog, GapFree;
    StepFacts(reqs, s, e);
    if e.request in reqs {
      var t := Step(reqs, s, e);
      hide Step;
      assert SafePc(reqs[e.request], s.rows, PcOf(s, e.request));
      NextIsSafe(s.rows, reqs[e.request], e.request, PcOf(s, e.request), e);
      forall r | r in reqs ensures SafePc(reqs[r], t.rows, PcOf(t, r)) {
        LogGrows(s.rows, t.rows, reqs[r].threadId);
        assert SafePc(reqs[r], s.rows, PcOf(s, r));
      }
    }
  }

  lemma {:induction false} RunIsSafe(reqs: Requests, schedule: seq<Event>)
    ensures Safe(reqs, Run(reqs, schedule))
  {
    if schedule != [] {
      hide Safe, Step;
      RunInv(reqs, schedule[..|schedule| - 1]);
      RunIsSafe(reqs, schedule[..|schedule| - 1]);
      StepIsSafe(reqs, Run(reqs, schedule[..|schedule| - 1]), schedule[|schedule| - 1]);
    }
  }

  /** A thread holds no number past the largest safe integer, and a request gives up for want of one only when its
      thread's log is that long. */
  lemma {:induction false} NumbersStaySafe(reqs: Requests, schedule: seq<Event>, i: nat, r: nat)
    ensures
      var s := Run(reqs, schedule);
      && (i < |s.rows| ==> s.rows[i].seqNo <= 9_007_199_254_740_991)
      && (r in reqs && PcOf(s, r) == Done(SequenceOverflow) ==>
           |ThreadLog(s.rows, reqs[r].threadId)| >= 9_007_199_254_740_991)
  {
    RunIsSafe(reqs, schedule);
    hide Run, ThreadLog;
    var s := Run(reqs, schedule);
    assert r in reqs ==> SafePc(reqs[r], s.rows, PcOf(s, r));
  }
}
