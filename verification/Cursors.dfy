/** Read cursors over a log that others extend: `ack_read` reads the latest sequence, reads the cursor, and
    upserts unconditionally. Its steps interleave with posts and with other acks by an arbitrary schedule. */
module Cursors {
  import opened Wrappers
  import opened MessageTable
  import PostMessage

  type CursorKey = (string, string)

  datatype Cursor = Cursor(threadId: string, agentId: string, lastReadSeq: nat, lastAckedMessageId: Option<MessageId>,
                           updatedAt: int)

  datatype Ack = Ack(threadId: string, agentId: string, lastReadSeq: nat)

  datatype Reply = Acked(updatedAt: int) | BeyondLatest | CursorRegression

  function CreateCursor(threadId: string, agentId: string, now: int): Cursor {
    Cursor(threadId, agentId, 0, None, now)
  }

  /** The domain rule; `None` is the regression error. The handler never names an acked message. */
  function AcknowledgeRead(cursor: Cursor, lastReadSeq: nat, now: int): Option<Cursor> {
    if lastReadSeq < cursor.lastReadSeq then None
    else if lastReadSeq == cursor.lastReadSeq then Some(cursor)
    else Some(cursor.(lastReadSeq := lastReadSeq, updatedAt := now))
  }

  /** An acknowledgement never moves a cursor back, leaves it alone at its own position, and otherwise moves it there
      at the current time and changes nothing else of it. */
  lemma AcknowledgeMovesForward(cursor: Cursor, lastReadSeq: nat, now: int)
    ensures AcknowledgeRead(cursor, lastReadSeq, now)
         == if lastReadSeq < cursor.lastReadSeq then None
            else if lastReadSeq == cursor.lastReadSeq then Some(cursor)
            else Some(Cursor(cursor.threadId, cursor.agentId, lastReadSeq, cursor.lastAckedMessageId, now))
  {
  }

  /** `next` is the cursor the request is about to write. */
  datatype Pc = Start | ReadCursor | Upsert(next: Cursor) | Done(reply: Reply)

  datatype World = World(posts: PostMessage.World, cursors: map<CursorKey, Cursor>, pcs: map<nat, Pc>)

  const EMPTY := World(PostMessage.EMPTY, map[], map[])

  datatype Event = Post(event: PostMessage.Event) | AckStep(request: nat, now: int)

  type Acks = map<nat, Ack>

  function PcOf(s: World, r: nat): Pc {
    if r in s.pcs then s.pcs[r] else Start
  }

  function KeyOf(ack: Ack): CursorKey {
    (ack.threadId, ack.agentId)
  }

  function Read(s: World, ack: Ack, now: int): Cursor {
    if KeyOf(ack) in s.cursors then s.cursors[KeyOf(ack)] else CreateCursor(ack.threadId, ack.agentId, now)
  }

  function NextPc(s: World, ack: Ack, pc: Pc, now: int): Pc {
    match pc
    case Start => if ack.lastReadSeq > LatestSeq(s.posts.rows, ack.threadId) then Done(BeyondLatest) else ReadCursor
    case ReadCursor =>
      (match AcknowledgeRead(Read(s, ack, now), ack.lastReadSeq, now)
       case None => Done(CursorRegression)
       case Some(next) => Upsert(next))
    case Upsert(next) => Done(Acked(next.updatedAt))
    case Done(_) => pc
  }

  function Step(reqs: PostMessage.Requests, acks: Acks, s: World, e: Event): World {
    match e
    case Post(event) => s.(posts := PostMessage.Step(reqs, s.posts, event))
    case AckStep(r, now) =>
      if r !in acks then s
      else
        var pc := PcOf(s, r);
        var cursors := if pc.Upsert? then s.cursors[(pc.next.threadId, pc.next.agentId) := pc.next] else s.cursors;
        World(s.posts, cursors, s.pcs[r := NextPc(s, acks[r], pc, now)])
  }

  function Run(reqs: PostMessage.Requests, acks: Acks, schedule: seq<Event>): World {
    if schedule == [] then EMPTY
    else Step(reqs, acks, Run(reqs, acks, schedule[..|schedule| - 1]), schedule[|schedule| - 1])
  }

  /** What an agent has read of a thread; 0 without a cursor. */
  function Position(s: World, key: CursorKey): nat {
    if key in s.cursors then s.cursors[key].lastReadSeq else 0
  }

  /** An acknowledgement that nothing interrupts is refused past the latest message or below the cursor, and otherwise
      puts the cursor exactly where it says; no other cursor and no message changes. */
  lemma UncontendedAckIsExact(reqs: PostMessage.Requests, acks: Acks, s: World, r: nat, now: int)
    requires r in acks && PcOf(s, r).Start?
    requires KeyOf(acks[r]) in s.cursors ==>
      (s.cursors[KeyOf(acks[r])].threadId, s.cursors[KeyOf(acks[r])].agentId) == KeyOf(acks[r])
    ensures
      var e, ack := AckStep(r, now), acks[r];
      var t := Step(reqs, acks, Step(reqs, acks, Step(reqs, acks, s, e), e), e);
      var key, latest := (ack.threadId, ack.agentId), LatestSeq(s.posts.rows, ack.threadId);
      var before := if key in s.cursors then s.cursors[key].lastReadSeq else 0;
      && t.posts == s.posts && PcOf(t, r).Done?
      && (PcOf(t, r).reply == BeyondLatest <==> ack.lastReadSeq > latest)
      && (PcOf(t, r).reply == CursorRegression <==> ack.lastReadSeq < before && ack.lastReadSeq <= latest)
      && (if before <= ack.lastReadSeq <= latest then
            key in t.cursors && t.cursors == s.cursors[key := t.cursors[key]]
              && t.cursors[key].lastReadSeq == ack.lastReadSeq && PcOf(t, r).reply == Acked(t.cursors[key].updatedAt)
          else t.cursors == s.cursors)
  {
    hide LatestSeq;
  }

  // ----- the cursor never passes the log

  ghost predicate PcOk(s: World, ack: Ack, pc: Pc) {
    match pc
    case ReadCursor => ack.lastReadSeq <= LatestSeq(s.posts.rows, ack.threadId)
    case Upsert(next) =>
      && next.threadId == ack.threadId && next.agentId == ack.agentId
      && next.lastReadSeq == ack.lastReadSeq <= LatestSeq(s.posts.rows, ack.threadId)
    case _ => true
  }

  ghost predicate Inv(acks: Acks, s: World) {
    && (forall key :: key in s.cursors ==>
         && s.cursors[key].threadId == key.0 && s.cursors[key].agentId == key.1
         && s.cursors[key].lastReadSeq <= LatestSeq(s.posts.rows, key.0))
    && forall r :: r in acks ==> PcOk(s, acks[r], PcOf(s, r))
  }

  lemma LatestOnlyGrows(reqs: PostMessage.Requests, p: PostMessage.World, e: PostMessage.Event, threadId: string)
    ensures LatestSeq(p.rows, threadId) <= LatestSeq(PostMessage.Step(reqs, p, e).rows, threadId)
  {
    PostMessage.StepAppends(reqs, p, e);
    var rows := PostMessage.Step(reqs, p, e).rows;
    hide PostMessage.Step;
    if rows != p.rows {
      assert rows[..|rows| - 1] == p.rows;
    }
  }

  lemma StepKeeps(reqs: PostMessage.Requests, acks: Acks, s: World, e: Event)
    requires Inv(acks, s)
    ensures Inv(acks, Step(reqs, acks, s, e))
  {
    hide PostMessage.Step, LatestSeq;
    var t := Step(reqs, acks, s, e);
    match e
    case Post(event) =>
      forall threadId ensures LatestSeq(s.posts.rows, threadId) <= LatestSeq(t.posts.rows, threadId) {
        LatestOnlyGrows(reqs, s.posts, event, threadId);
      }
      forall r | r in acks ensures PcOk(t, acks[r], PcOf(t, r)) {
        assert PcOk(s, acks[r], PcOf(s, r));
      }
    case AckStep(r, now) =>
      if r in acks {
        assert PcOk(s, acks[r], PcOf(s, r));
        forall q | q in acks ensures PcOk(t, acks[q], PcOf(t, q)) {
          assert PcOk(s, acks[q], PcOf(s, q));
        }
      }
  }

  lemma {:induction false} RunInv(reqs: PostMessage.Requests, acks: Acks, schedule: seq<Event>)
    ensures Inv(acks, Run(reqs, acks, schedule))
  {
    hide Step, Inv;
    if schedule == [] {
      EmptyInv(acks);
    } else {
      RunInv(reqs, acks, schedule[..|schedule| - 1]);
      StepKeeps(reqs, acks, Run(reqs, acks, schedule[..|schedule| - 1]), schedule[|schedule| - 1]);
    }
  }

  lemma EmptyInv(acks: Acks)
    ensures Inv(acks, EMPTY)
  {
  }

  /** The messages of a run with acks are those of a run of its posts alone. */
  function PostsOf(schedule: seq<Event>): seq<PostMessage.Event> {
    if schedule == [] then []
    else
      PostsOf(schedule[..|schedule| - 1])
      + (if schedule[|schedule| - 1].Post? then [schedule[|schedule| - 1].event] else [])
  }

  lemma {:induction false} AcksDoNotPost(reqs: PostMessage.Requests, acks: Acks, schedule: seq<Event>)
    ensures Run(reqs, acks, schedule).posts == PostMessage.Run(reqs, PostsOf(schedule))
  {
    if schedule != [] {
      hide PostMessage.Step;
      var before, e := schedule[..|schedule| - 1], schedule[|schedule| - 1];
      AcksDoNotPost(reqs, acks, before);
      if e.Post? {
        assert (PostsOf(before) + [e.event])[..|PostsOf(before)|] == PostsOf(before);
      } else {
        assert PostsOf(schedule) == PostsOf(before);
      }
    }
  }

  /** In every interleaving of posts and acks, a cursor points into its thread's log: its position is a message
      that exists, or 0. */
  lemma {:induction false} CursorsStayInTheLog(reqs: PostMessage.Requests, acks: Acks, schedule: seq<Event>,
                                               key: CursorKey)
    ensures
      var s := Run(reqs, acks, schedule);
      var log := ThreadLog(s.posts.rows, key.0);
      && Position(s, key) <= |log|
      && (Position(s, key) > 0 ==> log[Position(s, key) - 1].seqNo == Position(s, key))
  {
    RunInv(reqs, acks, schedule);
    AcksDoNotPost(reqs, acks, schedule);
    PostMessage.RunInv(reqs, PostsOf(schedule));
    hide Run, PostMessage.Run, PostMessage.RowsOk, PostMessage.PcOk, PostMessage.Arrived, PcOk;
    LatestIsLength(Run(reqs, acks, schedule).posts.rows, key.0);
  }

  // ----- when a cursor can go back

  /** Two acks of one agent on one thread are both between their read of the cursor and their write. */
  ghost predicate Overlap(acks: Acks, s: World, key: CursorKey) {
    exists a, b :: Overlapping(acks, s, key, a, b)
  }

  predicate Overlapping(acks: Acks, s: World, key: CursorKey, a: nat, b: nat) {
    && a != b && a in acks && b in acks && KeyOf(acks[a]) == key && KeyOf(acks[b]) == key
    && PcOf(s, a).Upsert? && PcOf(s, b).Upsert?
  }

  /** One at a time: at no moment of the run do two acks of this agent on this thread overlap. */
  ghost predicate OneAtATime(reqs: PostMessage.Requests, acks: Acks, schedule: seq<Event>, key: CursorKey) {
    forall i :: 0 <= i <= |schedule| ==> !Overlap(acks, Run(reqs, acks, schedule[..i]), key)
  }

  /** An ack about to write has read the cursor as it still is, or an earlier one. */
  ghost predicate WritesForward(acks: Acks, s: World, key: CursorKey) {
    forall r :: r in acks && KeyOf(acks[r]) == key && PcOf(s, r).Upsert? ==>
      Position(s, key) <= PcOf(s, r).next.lastReadSeq
  }

  lemma AloneKeepsForward(reqs: PostMessage.Requests, acks: Acks, s: World, e: Event, key: CursorKey)
    requires Inv(acks, s) && WritesForward(acks, s, key) && !Overlap(acks, s, key)
    ensures WritesForward(acks, Step(reqs, acks, s, e), key)
    ensures Position(s, key) <= Position(Step(reqs, acks, s, e), key)
  {
    hide PostMessage.Step, LatestSeq;
    var t := Step(reqs, acks, s, e);
    if e.AckStep? && e.request in acks {
      var r := e.request;
      assert PcOk(s, acks[r], PcOf(s, r));
      forall q | q in acks && KeyOf(acks[q]) == key && PcOf(t, q).Upsert?
        ensures Position(t, key) <= PcOf(t, q).next.lastReadSeq
      {
        assert !Overlapping(acks, s, key, q, r);
      }
    }
  }

  lemma {:induction false} AloneRunsForward(reqs: PostMessage.Requests, acks: Acks, schedule: seq<Event>,
                                            key: CursorKey)
    requires OneAtATime(reqs, acks, schedule, key)
    ensures WritesForward(acks, Run(reqs, acks, schedule), key)
  {
    if schedule == [] {
      assert WritesForward(acks, EMPTY, key);
    } else {
      hide Step, Overlap, WritesForward, Inv;
      var before := schedule[..|schedule| - 1];
      OneAtATimeBefore(reqs, acks, schedule, key, |schedule| - 1);
      AloneRunsForward(reqs, acks, before, key);
      RunInv(reqs, acks, before);
      assert !Overlap(acks, Run(reqs, acks, before), key);
      AloneKeepsForward(reqs, acks, Run(reqs, acks, before), schedule[|schedule| - 1], key);
    }
  }

  lemma OneAtATimeBefore(reqs: PostMessage.Requests, acks: Acks, schedule: seq<Event>, key: CursorKey, n: nat)
    requires OneAtATime(reqs, acks, schedule, key) && n <= |schedule|
    ensures OneAtATime(reqs, acks, schedule[..n], key)
  {
    hide Overlap, Run;
    forall i | 0 <= i <= n ensures !Overlap(acks, Run(reqs, acks, schedule[..n][..i]), key) {
      assert schedule[..n][..i] == schedule[..i];
    }
  }

  /** If one agent's acks on a thread run one at a time, its cursor never goes back, whatever posts and other
      agents' acks interleave. */
  lemma {:induction false} CursorNeverGoesBack(reqs: PostMessage.Requests, acks: Acks, schedule: seq<Event>,
                                               key: CursorKey, i: nat, j: nat)
    requires OneAtATime(reqs, acks, schedule, key) && i <= j <= |schedule|
    ensures Position(Run(reqs, acks, schedule[..i]), key) <= Position(Run(reqs, acks, schedule[..j]), key)
  {
    if i < j {
      CursorNeverGoesBack(reqs, acks, schedule, key, i, j - 1);
      OneAtATimeBefore(reqs, acks, schedule, key, j - 1);
      AloneRunsForward(reqs, acks, schedule[..j - 1], key);
      RunInv(reqs, acks, schedule[..j - 1]);
      assert schedule[..j][..j - 1] == schedule[..j - 1];
      hide Step, Overlap, WritesForward, Inv, Position;
      AloneKeepsForward(reqs, acks, Run(reqs, acks, schedule[..j - 1]), schedule[j - 1], key);
    }
  }

  /** The condition is exact: wherever two acks of one agent overlap with different numbers, the larger can be
      written first and the smaller after it, and the cursor goes back. */
  lemma OverlapGoesBack(reqs: PostMessage.Requests, acks: Acks, schedule: seq<Event>, key: CursorKey, a: nat, b: nat,
                        now: int)
    requires Overlapping(acks, Run(reqs, acks, schedule), key, a, b)
    requires acks[a].lastReadSeq < acks[b].lastReadSeq
    ensures
      var larger := schedule + [AckStep(b, now)];
      Position(Run(reqs, acks, larger + [AckStep(a, now)]), key) < Position(Run(reqs, acks, larger), key)
  {
    RunInv(reqs, acks, schedule);
    RunSnoc(reqs, acks, schedule, AckStep(b, now));
    RunSnoc(reqs, acks, schedule + [AckStep(b, now)], AckStep(a, now));
    hide Run, LatestSeq;
    var s := Run(reqs, acks, schedule);
    assert PcOk(s, acks[a], PcOf(s, a)) && PcOk(s, acks[b], PcOf(s, b));
  }

  /** Such overlaps happen: any two acks that have not started, and that the log and the cursor would both admit,
      can be brought there. */
  lemma {:induction false} FreshAcksCanOverlap(reqs: PostMessage.Requests, acks: Acks, schedule: seq<Event>, a: nat,
                                               b: nat, now: int)
    requires a != b && a in acks && b in acks && KeyOf(acks[a]) == KeyOf(acks[b])
    requires
      var s := Run(reqs, acks, schedule);
      forall r :: r == a || r == b ==>
        && PcOf(s, r) == Start
        && Position(s, KeyOf(acks[r])) <= acks[r].lastReadSeq <= LatestSeq(s.posts.rows, acks[r].threadId)
    ensures
      var both := schedule + [AckStep(a, now)] + [AckStep(b, now)] + [AckStep(a, now)] + [AckStep(b, now)];
      Overlapping(acks, Run(reqs, acks, both), KeyOf(acks[a]), a, b)
  {
    var ea, eb := AckStep(a, now), AckStep(b, now);
    RunSnoc(reqs, acks, schedule, ea);
    RunSnoc(reqs, acks, schedule + [ea], eb);
    RunSnoc(reqs, acks, schedule + [ea] + [eb], ea);
    RunSnoc(reqs, acks, schedule + [ea] + [eb] + [ea], eb);
    hide Run, LatestSeq;
    var s := Run(reqs, acks, schedule);
    assert PcOf(s, a) == Start && PcOf(s, b) == Start;
  }

  lemma RunSnoc(reqs: PostMessage.Requests, acks: Acks, schedule: seq<Event>, e: Event)
    ensures Run(reqs, acks, schedule + [e]) == Step(reqs, acks, Run(reqs, acks, schedule), e)
  {
    assert (schedule + [e])[..|schedule|] == schedule;
  }
}
