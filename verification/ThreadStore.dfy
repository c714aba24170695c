/** The in-memory thread store: three maps updated in place, and where it agrees with the database's unique keys. */
module ThreadStore {
  import opened Wrappers
  import opened Numbers
  import opened MessageTable
  import opened Paging
  import opened Cursors
  import Lifecycle = ThreadLifecycle
  import PostMessage

  datatype ThreadType = Conversation | Workflow | Incident

  datatype Thread = Thread(
    threadId: string, workspaceId: string, title: string, kind: ThreadType, status: Lifecycle.ThreadStatus,
    participants: seq<string>, createdAt: int, updatedAt: int)

  datatype Error = InvalidArgument | InvalidThreadTransition | SequenceViolation | SequenceOverflow

  datatype Outcome<+T> = Ok(value: T) | Failed(error: Error)

  predicate Distinct(names: seq<string>) {
    forall i, j :: 0 <= i < j < |names| ==> names[i] != names[j]
  }

  /** The domain's rules for a new thread. */
  predicate ThreadOk(t: Thread) {
    && t.threadId != "" && t.workspaceId != "" && t.title != ""
    && t.participants != [] && "" !in t.participants && Distinct(t.participants)
  }

  /** The domain's rules for a message. */
  predicate MessageOk(m: Message) {
    && m.threadId != "" && m.sender != "" && m.session != "" && m.payload.body != ""
    && m.payload.schemaVersion > 0 && m.seqNo > 0 && m.key != Some("")
  }

  function TransitionThreadStatus(t: Thread, next: Lifecycle.ThreadStatus, now: int): Outcome<Thread> {
    if t.status == next then Ok(t)
    else if !Lifecycle.CanTransition(t.status, next) then Failed(InvalidThreadTransition)
    else Ok(t.(status := next, updatedAt := now))
  }

  /** The guarded status update, as a function of the stored thread. */
  function GuardedUpdate(existing: Option<Thread>, next: Lifecycle.ThreadStatus, now: int,
                         expected: Option<Lifecycle.ThreadStatus>): Outcome<Option<Thread>> {
    if existing.None? then Ok(None)
    else if expected.Some? && existing.value.status != expected.value then Ok(None)
    else
      match TransitionThreadStatus(existing.value, next, now)
      case Ok(t) => Ok(Some(t))
      case Failed(e) => Failed(e)
  }

  /** This step is the atomic one of the lifecycle machine: it commits on the same statuses, to the same status,
      and tells a lost race from a forbidden transition. */
  lemma GuardedUpdateIsAtomicStep(t: Thread, next: Lifecycle.ThreadStatus, reason: string, now: int,
                                  expected: Lifecycle.ThreadStatus)
    ensures
      var move := Lifecycle.MoveOf(Lifecycle.AtomicStore, t.status, Lifecycle.Bridge(next, reason),
                                   Lifecycle.BridgeUpdate(expected));
      var out := GuardedUpdate(Some(t), next, now, Some(expected));
      && (move.commits <==> out.Ok? && out.value.Some?)
      && (move.commits ==> out.value.value.status == next)
      && (move.pc == Lifecycle.Done(Lifecycle.Conflict) <==> out == Ok(None))
      && (move.pc == Lifecycle.Done(Lifecycle.InvalidTransition) <==> out == Failed(InvalidThreadTransition))
  {
  }

  // ----- inserts: the store's own check against the table's unique keys

  function LastSeq(log: seq<Message>): nat {
    if log == [] then 0 else log[|log| - 1].seqNo
  }

  /** What the in-memory insert decides. */
  function InsertCheck(log: seq<Message>, m: Message): Option<Error> {
    if LastSeq(log) >= PostMessage.MAX_SAFE_INTEGER then Some(SequenceOverflow)
    else if m.seqNo != LastSeq(log) + 1 then Some(SequenceViolation)
    else if !MessageOk(m) then Some(InvalidArgument)
    else None
  }

  predicate KeyUsed(rows: seq<Message>, m: Message) {
    m.key.Some? && FindByKey(rows, m.threadId, m.sender, m.key.value).Some?
  }

  /** On a fresh well-formed message the two stores decide alike, except exactly where its number is the next one
      and its key is used, which the in-memory store accepts and the table refuses, and where its number is past
      the next one, or past the overflow limit, and its key is free, which the table accepts and the in-memory
      store refuses. A handler tries only numbers that were once the next one below the limit, so for it only the
      first case is left. */
  lemma {:induction false} StoresDifferExactly(rows: seq<Message>, m: Message)
    requires GapFree(rows) && MessageOk(m) && forall i :: 0 <= i < |rows| ==> rows[i].id != m.id
    ensures
      var next := LatestSeq(rows, m.threadId) + 1;
      var inMemory, inTable := InsertCheck(ThreadLog(rows, m.threadId), m).None?, !Conflicts(rows, m);
      var full := next > PostMessage.MAX_SAFE_INTEGER;
      && (inMemory && !inTable <==> m.seqNo == next && KeyUsed(rows, m) && !full)
      && (inTable && !inMemory <==> !KeyUsed(rows, m) && (m.seqNo > next || (m.seqNo == next && full)))
  {
    hide GapFree, Conflicts, MessageOk, ThreadLog, LatestSeq;
    LastSeqIsLatest(rows, m.threadId);
    TableAccepts(rows, m);
  }

  lemma LastSeqIsLatest(rows: seq<Message>, threadId: string)
    requires GapFree(rows)
    ensures LastSeq(ThreadLog(rows, threadId)) == LatestSeq(rows, threadId)
  {
    LatestIsLength(rows, threadId);
  }

  /** The table's unique keys accept a fresh message exactly when its number is past the log and its key is free. */
  lemma {:induction false} TableAccepts(rows: seq<Message>, m: Message)
    requires GapFree(rows) && MessageOk(m) && forall i :: 0 <= i < |rows| ==> rows[i].id != m.id
    ensures !Conflicts(rows, m) <==> m.seqNo > LatestSeq(rows, m.threadId) && !KeyUsed(rows, m)
  {
    LatestIsLength(rows, m.threadId);
    SeqInUse(rows, m.threadId, m.seqNo);
    hide GapFree, ThreadLog, LatestSeq, FindByKey;
    if m.key.Some? {
      FindByKeyExact(rows, m.threadId, m.sender, m.key.value);
    }
    if KeyUsed(rows, m) {
      var i :| 0 <= i < |rows| && HasKey(rows[i], m.threadId, m.sender, m.key.value);
      assert Collide(m, rows[i]);
    }
    if i :| 0 <= i < |rows| && rows[i].threadId == m.threadId && rows[i].seqNo == m.seqNo {
      assert Collide(m, rows[i]);
    }
  }

  function Find(log: seq<Message>, sender: string, key: string): Option<Message> {
    if log == [] then None
    else
      var before := Find(log[..|log| - 1], sender, key);
      if before.Some? then before
      else if log[|log| - 1].sender == sender && log[|log| - 1].key == Some(key) then Some(log[|log| - 1])
      else None
  }

  /** On one thread's log the lookup is the table's. */
  lemma {:induction false} FindIsFindByKey(log: seq<Message>, threadId: string, sender: string, key: string)
    requires forall i :: 0 <= i < |log| ==> log[i].threadId == threadId
    ensures Find(log, sender, key) == FindByKey(log, threadId, sender, key)
  {
    if log != [] {
      FindIsFindByKey(log[..|log| - 1], threadId, sender, key);
    }
  }

  // ----- the store

  class InMemoryThreadStore {
    var threadRecords: map<string, Thread>
    var messageRecords: map<string, seq<Message>>
    var cursorRecords: map<CursorKey, Cursor>

    /** Every list holds its own thread's messages, numbered 1..n. */
    ghost predicate Valid() reads this {
      && (forall id :: id in messageRecords ==>
           && Gapless(messageRecords[id])
           && forall i :: 0 <= i < |messageRecords[id]| ==> messageRecords[id][i].threadId == id)
      && (forall id :: id in threadRecords ==> threadRecords[id].threadId == id)
      && (forall key :: key in cursorRecords ==> (cursorRecords[key].threadId, cursorRecords[key].agentId) == key)
    }

    function Log(threadId: string): seq<Message> reads this {
      if threadId in messageRecords then messageRecords[threadId] else []
    }

    function ThreadOf(threadId: string): Option<Thread> reads this {
      if threadId in threadRecords then Some(threadRecords[threadId]) else None
    }

    constructor ()
      ensures Valid() && threadRecords == map[] && messageRecords == map[] && cursorRecords == map[]
    {
      threadRecords, messageRecords, cursorRecords := map[], map[], map[];
    }

    method CreateThread(threadId: string, workspaceId: string, title: string, kind: ThreadType,
                        participants: seq<string>,
                        createdAt: int) returns (r: Outcome<Thread>)
      requires Valid()
      modifies this
      ensures Valid() && cursorRecords == old(cursorRecords)
      ensures
        var t := Thread(threadId, workspaceId, title, kind, Lifecycle.Active, participants, createdAt, createdAt);
        if ThreadOk(t) then
          && r == Ok(t)
          && threadRecords == old(threadRecords)[threadId := t] && messageRecords == old(messageRecords)[threadId := []]
        else
          && r == Failed(InvalidArgument)
          && threadRecords == old(threadRecords) && messageRecords == old(messageRecords)
      ensures r.Ok? <==>
        && threadId != "" && workspaceId != "" && title != "" && participants != []
        && (forall i :: 0 <= i < |participants| ==> participants[i] != "")
        && forall i, j :: 0 <= i < j < |participants| ==> participants[i] != participants[j]
    {
      var t := Thread(threadId, workspaceId, title, kind, Lifecycle.Active, participants, createdAt, createdAt);
      if !ThreadOk(t) { return Failed(InvalidArgument); }
      threadRecords := threadRecords[threadId := t];
      messageRecords := messageRecords[threadId := []];
      r := Ok(t);
    }

    method UpdateThreadStatus(threadId: string, next: Lifecycle.ThreadStatus, now: int,
                              expected: Option<Lifecycle.ThreadStatus>) returns (r: Outcome<Option<Thread>>)
      requires Valid()
      modifies this`threadRecords
      ensures Valid()
      ensures r == GuardedUpdate(old(ThreadOf(threadId)), next, now, expected)
      ensures
        if threadId !in old(threadRecords) then r == Ok(None)
        else
          var t := old(threadRecords)[threadId];
          if expected.Some? && expected.value != t.status then r == Ok(None)
          else if t.status == next then r == Ok(Some(t))
          else if (t.status, next) in {
                    (Lifecycle.Active, Lifecycle.Blocked), (Lifecycle.Active, Lifecycle.Resolved),
                    (Lifecycle.Active, Lifecycle.Closed), (Lifecycle.Blocked, Lifecycle.Active),
                    (Lifecycle.Blocked, Lifecycle.Closed), (Lifecycle.Resolved, Lifecycle.Closed)}
          then r == Ok(Some(t.(status := next, updatedAt := now)))
          else r == Failed(InvalidThreadTransition)
      ensures threadRecords ==
        if r.Ok? && r.value.Some? then old(threadRecords)[threadId := r.value.value] else old(threadRecords)
    {
      if threadId !in threadRecords { return Ok(None); }
      var existing := threadRecords[threadId];
      if expected.Some? && existing.status != expected.value { return Ok(None); }
      match TransitionThreadStatus(existing, next, now) {
        case Failed(e) => r := Failed(e);
        case Ok(updated) =>
          threadRecords := threadRecords[threadId := updated];
          r := Ok(Some(updated));
      }
    }

    /** Accepts exactly a well-formed message numbered one past the log, appends it, and touches no other log. */
    method CreateMessage(m: Message) returns (r: Outcome<Message>)
      requires Valid()
      modifies this`messageRecords
      ensures Valid()
      ensures r.Ok? <==>
        && m.threadId != "" && m.sender != "" && m.session != "" && m.payload.body != ""
        && m.payload.schemaVersion > 0 && m.key != Some("")
        && m.seqNo == |old(Log(m.threadId))| + 1 && m.seqNo <= 9_007_199_254_740_991
      ensures r.Ok? ==> r.value == m && messageRecords == old(messageRecords)[m.threadId := old(Log(m.threadId)) + [m]]
      ensures r.Failed? ==>
        && messageRecords == old(messageRecords)
        && r.error == if |old(Log(m.threadId))| >= 9_007_199_254_740_991 then SequenceOverflow
                      else if m.seqNo != |old(Log(m.threadId))| + 1 then SequenceViolation
                      else InvalidArgument
      ensures r.Ok? <==> InsertCheck(old(Log(m.threadId)), m).None?
      ensures r.Failed? ==> Some(r.error) == InsertCheck(old(Log(m.threadId)), m)
    {
      var log := if m.threadId in messageRecords then messageRecords[m.threadId] else [];
      var lastSeq := if log == [] then 0 else log[|log| - 1].seqNo;
      assert lastSeq == |log|;
      if lastSeq >= PostMessage.MAX_SAFE_INTEGER { return Failed(SequenceOverflow); }
      if m.seqNo != lastSeq + 1 { return Failed(SequenceViolation); }
      if !MessageOk(m) { return Failed(InvalidArgument); }
      messageRecords := messageRecords[m.threadId := log + [m]];
      r := Ok(m);
    }

    method GetLatestMessageSeq(threadId: string) returns (latest: nat)
      requires Valid()
      ensures latest == |Log(threadId)|
    {
      var log := if threadId in messageRecords then messageRecords[threadId] else [];
      latest := if log == [] then 0 else log[|log| - 1].seqNo;
    }

    /** Returns the next stretch of the log. */
    method ReadMessages(threadId: string, since: nat, limit: nat) returns (page: Page)
      requires Valid()
      ensures
        var log := Log(threadId);
        && page.messages == log[Min(since, |log|)..Min(since + limit, |log|)]
        && page.nextSeq == since + |page.messages|
        && (page.hasMore <==> |log| > since + limit)
    {
      var log := if threadId in messageRecords then messageRecords[threadId] else [];
      page := PageInMemory(log, since, limit);
      PageIsTheNextStretch(log, since, limit);
    }

    method GetMessageByIdempotency(threadId: string, sender: string, key: string) returns (r: Option<Message>)
      requires Valid()
      ensures r == FindByKey(Log(threadId), threadId, sender, key)
    {
      var log := if threadId in messageRecords then messageRecords[threadId] else [];
      r := Find(log, sender, key);
      FindIsFindByKey(log, threadId, sender, key);
    }

    method GetParticipantCursor(threadId: string, agentId: string) returns (r: Option<Cursor>)
      ensures r == if (threadId, agentId) in cursorRecords then Some(cursorRecords[(threadId, agentId)]) else None
    {
      r := if (threadId, agentId) in cursorRecords then Some(cursorRecords[(threadId, agentId)]) else None;
    }

    /** Unconditional: the last writer wins, whatever it read. */
    method UpsertParticipantCursor(cursor: Cursor)
      requires Valid()
      modifies this`cursorRecords
      ensures Valid() && cursorRecords == old(cursorRecords)[(cursor.threadId, cursor.agentId) := cursor]
    {
      cursorRecords := cursorRecords[(cursor.threadId, cursor.agentId) := cursor];
    }

    /** The bridge's `ack_read` on this store, uninterrupted: it accepts exactly positions between the cursor and
        the end of the log, moves the cursor there, and otherwise changes nothing. */
    method AckRead(ack: Ack, now: int) returns (reply: Cursors.Reply)
      requires Valid()
      modifies this`cursorRecords
      ensures Valid()
      ensures reply.BeyondLatest? <==> ack.lastReadSeq > |Log(ack.threadId)|
      ensures
        var before := if KeyOf(ack) in old(cursorRecords) then old(cursorRecords)[KeyOf(ack)].lastReadSeq else 0;
        && (reply.Acked? <==> before <= ack.lastReadSeq <= |Log(ack.threadId)|)
        && (reply.Acked? ==>
             && KeyOf(ack) in cursorRecords && cursorRecords[KeyOf(ack)].lastReadSeq == ack.lastReadSeq
             && cursorRecords[KeyOf(ack)].updatedAt == reply.updatedAt
             && (before < ack.lastReadSeq ==> reply.updatedAt == now)
             && (KeyOf(ack) in old(cursorRecords) && before == ack.lastReadSeq ==> cursorRecords == old(cursorRecords))
             && cursorRecords - {KeyOf(ack)} == old(cursorRecords) - {KeyOf(ack)})
        && (!reply.Acked? ==> cursorRecords == old(cursorRecords))
    {
      var latest := GetLatestMessageSeq(ack.threadId);
      if ack.lastReadSeq > latest { return BeyondLatest; }
      var found := GetParticipantCursor(ack.threadId, ack.agentId);
      var cursor := found.GetOr(CreateCursor(ack.threadId, ack.agentId, now));
      match AcknowledgeRead(cursor, ack.lastReadSeq, now) {
        case None => reply := CursorRegression;
        case Some(next) =>
          UpsertParticipantCursor(next);
          reply := Acked(next.updatedAt);
      }
    }
  }
}
