/** The `post_message` handler as the loop it is, beside other requests on the same table. */
module PostHandler {
  import opened Wrappers
  import opened MessageTable
  import opened PostMessage

  /** What happens around one database statement of the handler: the steps other requests take before it, whether
      an insert fails for a reason of its own, and the clock. */
  datatype Turn = Turn(others: seq<Event>, fault: Fault, now: int)

  class Handler {
    const reqs: Requests
    const me: nat
    /** The table, and where every other request is. */
    var rows: seq<Message>
    var pcs: map<nat, Pc>
    /** The same run in the step machine. */
    ghost var schedule: seq<Event>

    ghost predicate Valid() reads this {
      && me in reqs
      && rows == Run(reqs, schedule).rows
      && forall q :: q != me ==> PcOf(Run(reqs, schedule), q) == OtherPc(q)
    }

    function OtherPc(q: nat): Pc reads this {
      if q in pcs then pcs[q] else Start
    }

    ghost predicate At(pc: Pc) reads this {
      Valid() && PcOf(Run(reqs, schedule), me) == pc
    }

    constructor (reqs: Requests, me: nat)
      requires me in reqs
      ensures At(Start) && this.reqs == reqs && this.me == me && schedule == []
    {
      this.reqs, this.me := reqs, me;
      rows, pcs, schedule := [], map[], [];
    }

    /** Other requests take steps; this one stays where it is. */
    method Others(events: seq<Event>, ghost pc: Pc)
      requires At(pc) && forall e :: e in events ==> e.request != me
      modifies this
      ensures At(pc) && schedule == old(schedule) + events
    {
      hide Run, Next;
      for i := 0 to |events|
        invariant At(pc) && schedule == old(schedule) + events[..i]
      {
        var e := events[i];
        assert e in events;
        RunSnoc(reqs, schedule, e);
        StepFacts(reqs, Run(reqs, schedule), e);
        assert old(schedule) + events[..i + 1] == schedule + [e];
        if e.request in reqs {
          var (next, moved) := Next(rows, reqs[e.request], e.request, OtherPc(e.request), e);
          rows, pcs := next, pcs[e.request := moved];
        }
        schedule := schedule + [e];
      }
      assert events[..|events|] == events;
    }

    /** Records that the handler has taken its own next step. */
    ghost method Stepped(e: Event, was: seq<Message>, pc: Pc, next: Pc)
      requires me in reqs && e.request == me && was == Run(reqs, schedule).rows
      requires PcOf(Run(reqs, schedule), me) == pc && (rows, next) == Next(was, reqs[me], me, pc, e)
      requires forall q :: q != me ==> PcOf(Run(reqs, schedule), q) == OtherPc(q)
      modifies this`schedule
      ensures At(next) && schedule == old(schedule) + [e]
    {
      hide Run, Next;
      RunSnoc(reqs, schedule, e);
      StepFacts(reqs, Run(reqs, schedule), e);
      schedule := schedule + [e];
    }

    // ----- the handler's statements, each after the others' steps

    method CheckParent(t: Turn) returns (ok: bool)
      requires At(Start) && forall e :: e in t.others ==> e.request != me
      modifies this
      ensures At(if ok then CheckKey else Done(InvalidReplyTo)) && old(schedule) <= schedule
    {
      Others(t.others, Start);
      ok := ParentExists(rows, reqs[me]);
      hide Run, ParentExists;
      Stepped(Event(me, t.fault, t.now), rows, Start, if ok then CheckKey else Done(InvalidReplyTo));
    }

    method FindExisting(t: Turn) returns (found: Option<Message>)
      requires At(CheckKey) && forall e :: e in t.others ==> e.request != me
      modifies this
      ensures At(if found.Some? then Done(ReplayOf(reqs[me], found.value)) else ReadSeq(1)) && old(schedule) <= schedule
    {
      Others(t.others, CheckKey);
      found := Lookup(rows, reqs[me]);
      hide Run, Lookup, ReplayOf;
      Stepped(Event(me, t.fault, t.now), rows, CheckKey,
              if found.Some? then Done(ReplayOf(reqs[me], found.value)) else ReadSeq(1));
    }

    method GetLatest(attempt: nat, t: Turn) returns (latest: nat)
      requires At(ReadSeq(attempt)) && forall e :: e in t.others ==> e.request != me
      modifies this
      ensures At(if latest >= MAX_SAFE_INTEGER then Done(SequenceOverflow) else TryInsert(attempt, latest + 1))
      ensures old(schedule) <= schedule
    {
      Others(t.others, ReadSeq(attempt));
      latest := LatestSeq(rows, reqs[me].threadId);
      hide Run, LatestSeq;
      Stepped(Event(me, t.fault, t.now), rows, ReadSeq(attempt),
              if latest >= MAX_SAFE_INTEGER then Done(SequenceOverflow) else TryInsert(attempt, latest + 1));
    }

    method Insert(attempt: nat, next: nat, t: Turn) returns (created: Option<Message>)
      requires At(TryInsert(attempt, next)) && forall e :: e in t.others ==> e.request != me
      modifies this
      ensures created.Some? ==> At(Done(Posted(created.value.id, created.value.seqNo, created.value.createdAt)))
      ensures created.None? ==> At(Recheck(attempt, !t.fault.NoFault?))
      ensures old(schedule) <= schedule
    {
      Others(t.others, TryInsert(attempt, next));
      var m := NewMessage(reqs[me], MessageId(me, attempt), next, t.now);
      var refused := t.fault.Rejected? || Conflicts(rows, m);
      ghost var was := rows;
      hide Run, Conflicts, NewMessage;
      if !refused {
        rows := rows + [m];
      }
      if refused || t.fault.Unanswered? {
        created := None;
        Stepped(Event(me, t.fault, t.now), was, TryInsert(attempt, next), Recheck(attempt, !t.fault.NoFault?));
      } else {
        created := Some(m);
        Stepped(Event(me, t.fault, t.now), was, TryInsert(attempt, next), Done(Posted(m.id, m.seqNo, m.createdAt)));
      }
    }

    method FindConcurrent(attempt: nat, fault: bool, t: Turn) returns (found: Option<Message>)
      requires At(Recheck(attempt, fault)) && forall e :: e in t.others ==> e.request != me
      modifies this
      ensures found.Some? ==> At(Done(ReplayOf(reqs[me], found.value)))
      ensures found.None? ==>
        At(if fault then Done(Internal) else if attempt < MAX_ATTEMPTS then ReadSeq(attempt + 1) else Done(Conflict))
      ensures old(schedule) <= schedule
    {
      Others(t.others, Recheck(attempt, fault));
      found := Lookup(rows, reqs[me]);
      hide Run, Lookup, ReplayOf;
      Stepped(Event(me, t.fault, t.now), rows, Recheck(attempt, fault),
              if found.Some? then Done(ReplayOf(reqs[me], found.value))
              else if fault then Done(Internal)
              else if attempt < MAX_ATTEMPTS then ReadSeq(attempt + 1)
              else Done(Conflict));
    }

    /** The handler. Whatever the others do between its statements, what it does is a run of the step machine,
        and its reply is the one the machine gives: success names a row of the table that carries the request's
        thread, sender, key and payload, and an idempotency conflict has a row with the key and another payload. */
    method Post(turn: nat -> Turn) returns (reply: Reply)
      requires At(Start)
      requires forall k, e :: e in turn(k).others ==> e.request != me
      modifies this
      ensures At(Done(reply)) && old(schedule) <= schedule
      ensures reply.Posted? ==> exists i :: 0 <= i < |rows| && Names(rows[i], reqs[me], me, reply)
      ensures reply.IdempotencyConflict? ==> exists i :: 0 <= i < |rows| && Contradicts(rows[i], reqs[me])
    {
      reply := Work(turn);
      RunInv(reqs, schedule);
      assert PcOk(reqs[me], me, Run(reqs, schedule));
      hide Run, RowsOk, GapFree;
    }

    method Work(turn: nat -> Turn) returns (reply: Reply)
      requires At(Start) && me in reqs
      requires forall k, e :: e in turn(k).others ==> e.request != me
      modifies this
      ensures At(Done(reply)) && old(schedule) <= schedule
    {
      hide Run, ReplayOf, At, PcOf;
      var parent := CheckParent(turn(0));
      if !parent { return InvalidReplyTo; }
      var existing := FindExisting(turn(1));
      if existing.Some? { return ReplayOf(reqs[me], existing.value); }
      var attempt := 1;
      while true
        invariant 1 <= attempt <= MAX_ATTEMPTS
        invariant At(ReadSeq(attempt)) && old(schedule) <= schedule
        decreases MAX_ATTEMPTS - attempt
      {
        var latest := GetLatest(attempt, turn(3 * attempt - 1));
        if latest >= MAX_SAFE_INTEGER { return SequenceOverflow; }
        var created := Insert(attempt, latest + 1, turn(3 * attempt));
        if created.Some? { return Posted(created.value.id, created.value.seqNo, created.value.createdAt); }
        var fault := !turn(3 * attempt).fault.NoFault?;
        var concurrent := FindConcurrent(attempt, fault, turn(3 * attempt + 1));
        if concurrent.Some? { return ReplayOf(reqs[me], concurrent.value); }
        if fault { return Internal; }
        if attempt == MAX_ATTEMPTS { return Conflict; }
        attempt := attempt + 1;
      }
    }
  }
}
