/** Concurrent `post_message` requests: no lock, only "read the latest sequence, insert the next one", the
    table's unique keys and a bounded retry. Every database statement is one atomic step and the requests are
    interleaved by an arbitrary schedule. */
module PostMessage {
  import opened Wrappers
  import opened MessageTable

  const MAX_ATTEMPTS := 3
  const MAX_SAFE_INTEGER := 9_007_199_254_740_991

  datatype Request = Request(threadId: string, sender: string, session: string, payload: Payload, key: Option<string>)

  datatype Reply =
    | Posted(id: MessageId, seqNo: nat, createdAt: int)
    | IdempotencyConflict
    | Conflict
    | SequenceOverflow
    | InvalidReplyTo
    | Internal

  /** Where a request is. `Recheck` is the catch path after a failed insert; `fault` tells a database error
      other than a duplicate. */
  datatype Pc =
    | Start
    | CheckKey
    | ReadSeq(attempt: nat)
    | TryInsert(attempt: nat, next: nat)
    | Recheck(attempt: nat, fault: bool)
    | Done(reply: Reply)

  /** `arrivals` records, for each request that has run, how long its thread's log was when it arrived. */
  datatype World = World(rows: seq<Message>, pcs: map<nat, Pc>, arrivals: map<nat, nat>)

  const EMPTY := World([], map[], map[])

  /** What else can happen to an insert: the database refuses it for a reason other than a duplicate, or it is
      carried out but the request gets an error instead of the answer. */
  datatype Fault = NoFault | Rejected | Unanswered

  /** One step of one request, with what happens to its insert and the clock it reads. */
  datatype Event = Event(request: nat, fault: Fault, now: int)

  type Requests = map<nat, Request>

  function PcOf(s: World, r: nat): Pc {
    if r in s.pcs then s.pcs[r] else Start
  }

  function NewMessage(req: Request, id: MessageId, seqNo: nat, now: int): Message {
    Message(id, req.threadId, seqNo, req.sender, req.session, req.payload, req.key, now)
  }

  function ReplayOf(req: Request, found: Message): Reply {
    if found.payload == req.payload then Posted(found.id, found.seqNo, found.createdAt) else IdempotencyConflict
  }

  function Lookup(rows: seq<Message>, req: Request): Option<Message> {
    if req.key.None? then None else FindByKey(rows, req.threadId, req.sender, req.key.value)
  }

  predicate ParentExists(rows: seq<Message>, req: Request) {
    req.payload.inReplyTo.Some? ==> HasMessage(rows, req.threadId, req.payload.inReplyTo.value)
  }

  function Next(rows: seq<Message>, req: Request, r: nat, pc: Pc, e: Event): (seq<Message>, Pc) {
    match pc
    case Start =>
      (rows, if ParentExists(rows, req) then CheckKey else Done(InvalidReplyTo))
    case CheckKey =>
      (rows, match Lookup(rows, req)
             case Some(found) => Done(ReplayOf(req, found))
             case None => ReadSeq(1))
    case ReadSeq(attempt) =>
      var latest := LatestSeq(rows, req.threadId);
      (rows, if latest >= MAX_SAFE_INTEGER then Done(SequenceOverflow) else TryInsert(attempt, latest + 1))
    case TryInsert(attempt, next) =>
      var m := NewMessage(req, MessageId(r, attempt), next, e.now);
      if e.fault.Rejected? then (rows, Recheck(attempt, true))
      else
        var conflicts := Conflicts(rows, m);
        (if conflicts then rows else rows + [m],
         if e.fault.Unanswered? then Recheck(attempt, true)
         else if conflicts then Recheck(attempt, false)
         else Done(Posted(m.id, m.seqNo, m.createdAt)))
    case Recheck(attempt, fault) =>
      (rows, match Lookup(rows, req)
             case Some(found) => Done(ReplayOf(req, found))
             case None =>
               if fault then Done(Internal)
               else if attempt < MAX_ATTEMPTS then ReadSeq(attempt + 1)
               else Done(Conflict))
    case Done(_) => (rows, pc)
  }

  function Step(reqs: Requests, s: World, e: Event): World {
    if e.request !in reqs then s
    else
      var req := reqs[e.request];
      var (rows, pc) := Next(s.rows, req, e.request, PcOf(s, e.request), e);
      World(rows, s.pcs[e.request := pc],
            if e.request in s.arrivals then s.arrivals else s.arrivals[e.request := |ThreadLog(s.rows, req.threadId)|])
  }

  function Run(reqs: Requests, schedule: seq<Event>): World {
    if schedule == [] then EMPTY else Step(reqs, Run(reqs, schedule[..|schedule| - 1]), schedule[|schedule| - 1])
  }

  // ----- the atomic specification

  /** An atomic, idempotent append to one thread's log. */
  function AtomicPost(log: seq<Message>, req: Request, id: MessageId, now: int): (seq<Message>, Reply) {
    match Lookup(log, req)
    case Some(found) => (log, ReplayOf(req, found))
    case None => (log + [NewMessage(req, id, |log| + 1, now)], Posted(id, |log| + 1, now))
  }

  // ----- the invariant

  /** Where a request is that has committed the message: it has answered with it, or it got an error instead of the
      answer and is about to look again, or has given up. */
  predicate Committed(pc: Pc, m: Message) {
    || pc == Done(Posted(m.id, m.seqNo, m.createdAt))
    || (pc.Recheck? && pc.fault)
    || pc == Done(Internal)
  }

  /** A row and the request it came from. */
  predicate FromRequest(reqs: Requests, s: World, m: Message) {
    && m.id.request in reqs
    && m == NewMessage(reqs[m.id.request], m.id, m.seqNo, m.createdAt)
    && Committed(PcOf(s, m.id.request), m)
  }

  /** Two messages by different requests. */
  predicate Authors(a: Message, b: Message) {
    a.id.request != b.id.request
  }

  ghost predicate RowsOk(reqs: Requests, s: World) {
    && (forall i :: 0 <= i < |s.rows| ==> FromRequest(reqs, s, s.rows[i]))
    && (forall i, j :: 0 <= i < j < |s.rows| ==> !Collide(s.rows[i], s.rows[j]) && Authors(s.rows[i], s.rows[j]))
    && (forall i :: 0 <= i < |s.rows| && s.rows[i].payload.inReplyTo.Some? ==>
         HasMessage(s.rows[..i], s.rows[i].threadId, s.rows[i].payload.inReplyTo.value))
  }

  /** The row a successful reply names. */
  predicate Names(m: Message, req: Request, r: nat, reply: Reply) {
    && reply == Posted(m.id, m.seqNo, m.createdAt)
    && m.threadId == req.threadId && m.sender == req.sender && m.payload == req.payload && m.key == req.key
    && (req.key.None? ==> m.id.request == r)
  }

  /** The row that makes an idempotency conflict one. */
  predicate Contradicts(m: Message, req: Request) {
    req.key.Some? && HasKey(m, req.threadId, req.sender, req.key.value) && m.payload != req.payload
  }

  ghost predicate PcOk(req: Request, r: nat, s: World) {
    var log := |ThreadLog(s.rows, req.threadId)|;
    var arrived := if r in s.arrivals then s.arrivals[r] else log;
    match PcOf(s, r)
    case Start => r !in s.arrivals
    case CheckKey => arrived <= log && ParentExists(s.rows, req)
    case ReadSeq(attempt) => 1 <= attempt <= MAX_ATTEMPTS && arrived + attempt - 1 <= log && ParentExists(s.rows, req)
    case TryInsert(attempt, next) =>
      1 <= attempt <= MAX_ATTEMPTS && arrived + attempt <= next <= log + 1 && ParentExists(s.rows, req)
    case Recheck(attempt, fault) =>
      && 1 <= attempt <= MAX_ATTEMPTS && arrived + attempt - 1 <= log && ParentExists(s.rows, req)
      && (fault || arrived + attempt <= log || Lookup(s.rows, req).Some?)
    case Done(reply) =>
      match reply
      case Posted(_, _, _) => exists i :: 0 <= i < |s.rows| && Names(s.rows[i], req, r, reply)
      case IdempotencyConflict => exists i :: 0 <= i < |s.rows| && Contradicts(s.rows[i], req)
      case Conflict => arrived + MAX_ATTEMPTS <= log
      case _ => true
  }

  ghost predicate Inv(reqs: Requests, s: World) {
    && GapFree(s.rows) && RowsOk(reqs, s)
    && (forall r :: r in reqs ==> PcOk(reqs[r], r, s))
    && (forall r :: r in s.arrivals ==> r in reqs && s.arrivals[r] <= |ThreadLog(s.rows, reqs[r].threadId)|)
  }

  lemma EmptyInv(reqs: Requests)
    ensures Inv(reqs, EMPTY)
  {
  }

  // ----- an insert that the unique keys let through

  /** The crux: the unique key on (thread, seq) admits `next` only if it is exactly one past the log, because
      a sequence number read earlier can only be too small. */
  lemma {:induction false} InsertIsNext(rows: seq<Message>, m: Message)
    requires GapFree(rows) && 1 <= m.seqNo <= |ThreadLog(rows, m.threadId)| + 1 && !Conflicts(rows, m)
    ensures m.seqNo == |ThreadLog(rows, m.threadId)| + 1
    ensures GapFree(rows + [m])
  {
    SeqInUse(rows, m.threadId, m.seqNo);
    assert forall i :: 0 <= i < |rows| ==> !Collide(m, rows[i]);
    forall threadId, i | 0 <= i < |ThreadLog(rows + [m], threadId)|
      ensures ThreadLog(rows + [m], threadId)[i].seqNo == i + 1
    {
      ThreadLogSnoc(rows, m, threadId);
    }
  }

  /** Why an insert failed: its sequence number was taken since it was read, or its key is in the table. */
  lemma FailedInsertHasCause(reqs: Requests, s: World, r: nat, m: Message)
    requires Inv(reqs, s) && r in reqs && PcOf(s, r).TryInsert? && Conflicts(s.rows, m)
    requires m == NewMessage(reqs[r], MessageId(r, PcOf(s, r).attempt), PcOf(s, r).next, m.createdAt)
    ensures m.seqNo <= |ThreadLog(s.rows, m.threadId)| || Lookup(s.rows, reqs[r]).Some?
  {
    var i :| 0 <= i < |s.rows| && Collide(m, s.rows[i]);
    assert FromRequest(reqs, s, s.rows[i]);
    assert m.id != s.rows[i].id;
    if s.rows[i].threadId == m.threadId && s.rows[i].seqNo == m.seqNo {
      SeqInUse(s.rows, m.threadId, m.seqNo);
    } else {
      FindByKeyExact(s.rows, m.threadId, m.sender, m.key.value);
    }
  }

  // ----- every step keeps the invariant

  /** The step either leaves the table alone or appends one row. */
  ghost predicate Appends(a: seq<Message>, b: seq<Message>) {
    b == a || (|b| == |a| + 1 && b == a + [b[|a|]])
  }

  lemma {:induction false} LogGrows(a: seq<Message>, b: seq<Message>, threadId: string)
    requires Appends(a, b)
    ensures |ThreadLog(a, threadId)| <= |ThreadLog(b, threadId)| <= |ThreadLog(a, threadId)| + |b| - |a|
    ensures ThreadLog(a, threadId) <= ThreadLog(b, threadId)
  {
    if b != a {
      ThreadLogSnoc(a, b[|a|], threadId);
    }
  }

  /** What a step does to its own request, and that it does nothing to the others. */
  lemma StepFacts(reqs: Requests, s: World, e: Event)
    ensures
      var t := Step(reqs, s, e);
      if e.request in reqs then
        && (t.rows, PcOf(t, e.request)) == Next(s.rows, reqs[e.request], e.request, PcOf(s, e.request), e)
        && forall q :: q != e.request ==> PcOf(t, q) == PcOf(s, q)
      else t == s
  {
    hide Next;
  }

  lemma RunSnoc(reqs: Requests, schedule: seq<Event>, e: Event)
    ensures Run(reqs, schedule + [e]) == Step(reqs, Run(reqs, schedule), e)
  {
    assert (schedule + [e])[..|schedule|] == schedule;
  }

  lemma StepAppends(reqs: Requests, s: World, e: Event)
    ensures Appends(s.rows, Step(reqs, s, e).rows)
    ensures forall r :: r != e.request ==> PcOf(Step(reqs, s, e), r) == PcOf(s, r)
    ensures forall r :: r in s.arrivals ==>
      r in Step(reqs, s, e).arrivals && Step(reqs, s, e).arrivals[r] == s.arrivals[r]
    ensures forall r :: r in Step(reqs, s, e).arrivals && r != e.request ==> r in s.arrivals
  {
    hide Conflicts, Lookup, LatestSeq, ParentExists;
  }

  /** What a request knows survives the steps of the others. */
  lemma OthersKeepPc(req: Request, r: nat, s: World, t: World)
    requires PcOk(req, r, s) && Appends(s.rows, t.rows) && PcOf(t, r) == PcOf(s, r)
    requires r in s.arrivals <==> r in t.arrivals
    requires r in s.arrivals ==> s.arrivals[r] == t.arrivals[r] <= |ThreadLog(s.rows, req.threadId)|
    requires r !in s.arrivals ==> PcOf(s, r).Start?
    ensures PcOk(req, r, t)
  {
    LogGrows(s.rows, t.rows, req.threadId);
    ParentStays(s.rows, t.rows, req);
    if req.key.Some? && t.rows != s.rows {
    }
    match PcOf(s, r)
    case Done(reply) =>
      match reply {
        case Posted(_, _, _) =>
          var i :| 0 <= i < |s.rows| && Names(s.rows[i], req, r, reply);
          assert t.rows[i] == s.rows[i];
        case IdempotencyConflict =>
          var i :| 0 <= i < |s.rows| && Contradicts(s.rows[i], req);
          assert t.rows[i] == s.rows[i];
        case _ =>
      }
    case _ =>
  }

  lemma ParentStays(a: seq<Message>, b: seq<Message>, req: Request)
    requires Appends(a, b)
    ensures ParentExists(a, req) ==> ParentExists(b, req)
  {
    if req.payload.inReplyTo.Some? && ParentExists(a, req) {
      var i :| 0 <= i < |a| && a[i].threadId == req.threadId && a[i].id == req.payload.inReplyTo.value;
      assert b[i] == a[i];
    }
  }

  /** A request that has run has its arrival on record. */
  ghost predicate Arrived(reqs: Requests, s: World) {
    forall r :: r in reqs && !PcOf(s, r).Start? ==> r in s.arrivals
  }

  lemma ReplayNames(rows: seq<Message>, req: Request, r: nat, found: Message)
    requires Lookup(rows, req) == Some(found)
    ensures var reply := ReplayOf(req, found);
      if reply.Posted? then exists i :: 0 <= i < |rows| && Names(rows[i], req, r, reply)
      else reply.IdempotencyConflict? && exists i :: 0 <= i < |rows| && Contradicts(rows[i], req)
  {
    FindByKeyExact(rows, req.threadId, req.sender, req.key.value);
    var i :| 0 <= i < |rows| && rows[i] == found;
    if found.payload == req.payload {
      assert Names(rows[i], req, r, ReplayOf(req, found));
    } else {
      assert Contradicts(rows[i], req);
    }
  }

  lemma OwnStepKeepsPc(reqs: Requests, s: World, e: Event)
    requires Inv(reqs, s) && Arrived(reqs, s) && e.request in reqs
    ensures PcOk(reqs[e.request], e.request, Step(reqs, s, e))
  {
    hide GapFree, RowsOk, ThreadLog, Conflicts, LatestSeq, Arrived;
    var r, req := e.request, reqs[e.request];
    var t := Step(reqs, s, e);
    StepAppends(reqs, s, e);
    LogGrows(s.rows, t.rows, req.threadId);
    ParentStays(s.rows, t.rows, req);
    assert PcOk(req, r, s);
    match PcOf(s, r)
    case Start =>
    case CheckKey =>
      if Lookup(s.rows, req).Some? { ReplayNames(s.rows, req, r, Lookup(s.rows, req).value); }
    case ReadSeq(attempt) =>
      LatestIsLength(s.rows, req.threadId);
    case TryInsert(attempt, next) =>
      var m := NewMessage(req, MessageId(r, attempt), next, e.now);
      if !e.fault.NoFault? {
      } else if Conflicts(s.rows, m) {
        FailedInsertHasCause(reqs, s, r, m);
      } else {
        assert Names(t.rows[|s.rows|], req, r, PcOf(t, r).reply);
      }
    case Recheck(attempt, fault) =>
      if Lookup(s.rows, req).Some? { ReplayNames(s.rows, req, r, Lookup(s.rows, req).value); }
    case Done(reply) =>
  }

  /** A request that got no answer and looks again finds its own message, if it has a key. */
  lemma OwnMessageIsFound(reqs: Requests, s: World, r: nat, i: nat)
    requires RowsOk(reqs, s) && r in reqs && i < |s.rows| && s.rows[i].id.request == r && reqs[r].key.Some?
    ensures Lookup(s.rows, reqs[r]) == Some(s.rows[i])
  {
    hide ThreadLog;
    var req, m := reqs[r], s.rows[i];
    assert FromRequest(reqs, s, m);
    FindByKeyExact(s.rows, req.threadId, req.sender, req.key.value);
    hide FindByKey;
    assert HasKey(m, req.threadId, req.sender, req.key.value);
    var found := Lookup(s.rows, req).value;
    var j :| 0 <= j < |s.rows| && s.rows[j] == found;
  }

  /** A request's own step leaves its message, if it has committed one, where it was. */
  lemma OwnStepKeepsAuthor(reqs: Requests, s: World, e: Event, i: nat)
    requires RowsOk(reqs, s) && e.request in reqs && i < |s.rows| && s.rows[i].id.request == e.request
    ensures FromRequest(reqs, Step(reqs, s, e), s.rows[i])
  {
    var r, req, m := e.request, reqs[e.request], s.rows[i];
    assert FromRequest(reqs, s, m);
    hide RowsOk, Conflicts, LatestSeq, ParentExists, Lookup;
    if PcOf(s, r).Recheck? {
      if req.key.Some? {
        OwnMessageIsFound(reqs, s, r, i);
      } else {
      }
    }
  }

  lemma StepKeepsAuthors(reqs: Requests, s: World, e: Event)
    requires RowsOk(reqs, s) && e.request in reqs
    ensures forall i :: 0 <= i < |s.rows| ==> FromRequest(reqs, Step(reqs, s, e), s.rows[i])
  {
    var t := Step(reqs, s, e);
    StepAppends(reqs, s, e);
    hide Step, Committed;
    forall i | 0 <= i < |s.rows| ensures FromRequest(reqs, t, s.rows[i]) {
      assert FromRequest(reqs, s, s.rows[i]);
      if s.rows[i].id.request == e.request {
        OwnStepKeepsAuthor(reqs, s, e, i);
      }
    }
  }

  lemma {:induction false} StepKeepsRows(reqs: Requests, s: World, e: Event)
    requires Inv(reqs, s) && e.request in reqs
    ensures GapFree(Step(reqs, s, e).rows) && RowsOk(reqs, Step(reqs, s, e))
  {
    var r, req := e.request, reqs[e.request];
    var t := Step(reqs, s, e);
    StepAppends(reqs, s, e);
    StepKeepsAuthors(reqs, s, e);
    assert PcOk(req, r, s);
    hide GapFree;
    if t.rows != s.rows {
      var m := NewMessage(req, MessageId(r, PcOf(s, r).attempt), PcOf(s, r).next, e.now);
      InsertIsNext(s.rows, m);
      assert t.rows == s.rows + [m];
      NewRowOk(reqs, s, t, req, m);
    }
  }

  lemma NewRowOk(reqs: Requests, s: World, t: World, req: Request, m: Message)
    requires RowsOk(reqs, s) && t.rows == s.rows + [m] && !Conflicts(s.rows, m) && m.payload == req.payload
      && m.threadId == req.threadId
    requires ParentExists(s.rows, req)
    requires forall i :: 0 <= i < |s.rows| ==> FromRequest(reqs, t, s.rows[i])
    requires forall i :: 0 <= i < |s.rows| ==> s.rows[i].id.request != m.id.request
    requires FromRequest(reqs, t, m)
    ensures RowsOk(reqs, t)
  {
    hide FromRequest, HasMessage;
    forall i, j | 0 <= i < j < |t.rows| ensures !Collide(t.rows[i], t.rows[j]) && Authors(t.rows[i], t.rows[j]) {
      if j == |s.rows| {
        assert !Collide(m, s.rows[i]);
      } else {
        assert !Collide(s.rows[i], s.rows[j]) && Authors(s.rows[i], s.rows[j]);
      }
    }
    forall i | 0 <= i < |t.rows| && t.rows[i].payload.inReplyTo.Some?
      ensures HasMessage(t.rows[..i], t.rows[i].threadId, t.rows[i].payload.inReplyTo.value)
    {
      assert t.rows[..i] == s.rows[..i];
      assert i == |s.rows| ==> s.rows[..i] == s.rows;
    }
  }

  lemma StepKeeps(reqs: Requests, s: World, e: Event)
    requires Inv(reqs, s) && Arrived(reqs, s)
    ensures Inv(reqs, Step(reqs, s, e)) && Arrived(reqs, Step(reqs, s, e))
  {
    if e.request in reqs {
      var t := Step(reqs, s, e);
      StepAppends(reqs, s, e);
      StepKeepsRows(reqs, s, e);
      OwnStepKeepsPc(reqs, s, e);
      hide GapFree, RowsOk, PcOk, Next;
      forall r | r in reqs ensures PcOk(reqs[r], r, t) {
        if r != e.request {
          OthersKeepPc(reqs[r], r, s, t);
        }
      }
      forall r | r in t.arrivals
        ensures r in reqs && t.arrivals[r] <= |ThreadLog(t.rows, reqs[r].threadId)|
      {
        LogGrows(s.rows, t.rows, reqs[r].threadId);
      }
    }
  }

  lemma {:induction false} RunInv(reqs: Requests, schedule: seq<Event>)
    ensures Inv(reqs, Run(reqs, schedule)) && Arrived(reqs, Run(reqs, schedule))
  {
    hide Step, Inv, Arrived;
    if schedule == [] {
      EmptyInv(reqs);
      EmptyArrived(reqs);
    } else {
      RunInv(reqs, schedule[..|schedule| - 1]);
      StepKeeps(reqs, Run(reqs, schedule[..|schedule| - 1]), schedule[|schedule| - 1]);
    }
  }

  lemma EmptyArrived(reqs: Requests)
    ensures Arrived(reqs, EMPTY)
  {
  }
}
