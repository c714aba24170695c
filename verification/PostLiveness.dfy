/** What a `post_message` request achieves when nobody interferes, and how little interference defeats it. */
module PostLiveness {
  import opened Wrappers
  import opened MessageTable
  import opened PostMessage
  import opened PostGuarantees

  function Continue(reqs: Requests, s: World, events: seq<Event>): World {
    if events == [] then s else Step(reqs, Continue(reqs, s, events[..|events| - 1]), events[|events| - 1])
  }

  lemma {:induction false} RunContinues(reqs: Requests, schedule: seq<Event>, more: seq<Event>)
    ensures Run(reqs, schedule + more) == Continue(reqs, Run(reqs, schedule), more)
  {
    hide Step;
    if more == [] {
      assert schedule + more == schedule;
    } else {
      RunContinues(reqs, schedule, more[..|more| - 1]);
      assert (schedule + more)[..|schedule + more| - 1] == schedule + more[..|more| - 1];
    }
  }

  /** Steps of one request alone, without faults. */
  function Alone(reqs: Requests, s: World, r: nat, now: int, n: nat): World {
    if n == 0 then s else Step(reqs, Alone(reqs, s, r, now, n - 1), Event(r, NoFault, now))
  }

  function Repeat(r: nat, now: int, n: nat): seq<Event> {
    if n == 0 then [] else Repeat(r, now, n - 1) + [Event(r, NoFault, now)]
  }

  lemma {:induction false} AloneContinues(reqs: Requests, s: World, r: nat, now: int, n: nat)
    ensures Alone(reqs, s, r, now, n) == Continue(reqs, s, Repeat(r, now, n))
  {
    hide Step;
    if n > 0 {
      AloneContinues(reqs, s, r, now, n - 1);
      assert Repeat(r, now, n)[..|Repeat(r, now, n)| - 1] == Repeat(r, now, n - 1);
    }
  }

  /** A request that has committed nothing cannot collide with the next free sequence number unless its key
      is taken. */
  lemma NextIsFree(reqs: Requests, s: World, r: nat, attempt: nat, now: int)
    requires Inv(reqs, s) && r in reqs && PcOf(s, r).Start? && Lookup(s.rows, reqs[r]).None?
    ensures !Conflicts(s.rows,
                       NewMessage(reqs[r], MessageId(r, attempt), |ThreadLog(s.rows, reqs[r].threadId)| + 1, now))
  {
    var req := reqs[r];
    var m := NewMessage(req, MessageId(r, attempt), |ThreadLog(s.rows, req.threadId)| + 1, now);
    SeqInUse(s.rows, m.threadId, m.seqNo);
    if req.key.Some? {
      FindByKeyExact(s.rows, req.threadId, req.sender, req.key.value);
    }
    forall i | 0 <= i < |s.rows| ensures !Collide(m, s.rows[i]) {
      assert FromRequest(reqs, s, s.rows[i]);
    }
  }

  /** Without interference and faults a request is done within four steps, on its first attempt: it has performed
      exactly one atomic append and replied with its result, unless it answers no message of its thread or the
      log is full, which it reports without touching the log. */
  lemma UncontendedPostIsAtomic(reqs: Requests, schedule: seq<Event>, r: nat, now: int)
    requires r in reqs && PcOf(Run(reqs, schedule), r).Start?
    ensures
      var s := Run(reqs, schedule);
      var t := Alone(reqs, s, r, now, 4);
      var log, req := ThreadLog(s.rows, reqs[r].threadId), reqs[r];
      && PcOf(t, r).Done?
      && (ThreadLog(t.rows, req.threadId), PcOf(t, r).reply)
         == if !ParentExists(s.rows, req) then (log, InvalidReplyTo)
            else if Lookup(log, req).None? && |log| >= MAX_SAFE_INTEGER then (log, SequenceOverflow)
            else AtomicPost(log, req, MessageId(r, 1), now)
  {
    RunInv(reqs, schedule);
    var s := Run(reqs, schedule);
    hide Run, Inv, Step, Alone, ParentExists, ThreadLog;
    AloneSteps(reqs, s, r, now);
    LookupInLog(s.rows, reqs[r]);
    ThreadLogSnoc(s.rows, NewMessage(reqs[r], MessageId(r, 1), |ThreadLog(s.rows, reqs[r].threadId)| + 1, now),
                  reqs[r].threadId);
  }

  /** What a request alone leads to from a table. */
  function AloneOutcome(rows: seq<Message>, req: Request, r: nat, now: int): (seq<Message>, Reply) {
    var n := |ThreadLog(rows, req.threadId)|;
    if !ParentExists(rows, req) then (rows, InvalidReplyTo)
    else if Lookup(rows, req).Some? then (rows, ReplayOf(req, Lookup(rows, req).value))
    else if n >= MAX_SAFE_INTEGER then (rows, SequenceOverflow)
    else (rows + [NewMessage(req, MessageId(r, 1), n + 1, now)], Posted(MessageId(r, 1), n + 1, now))
  }

  lemma AloneSteps(reqs: Requests, s: World, r: nat, now: int)
    requires Inv(reqs, s) && r in reqs && PcOf(s, r).Start?
    ensures
      var t := Alone(reqs, s, r, now, 4);
      && (forall q :: q != r ==> PcOf(t, q) == PcOf(s, q))
      && PcOf(t, r).Done?
      && (t.rows, PcOf(t, r).reply) == AloneOutcome(s.rows, reqs[r], r, now)
  {
    NextIsFreeHere(reqs, s, r, now);
    hide *;
    AloneIsNext(reqs, s, r, now, 4);
    FourSteps(s.rows, reqs[r], r, now);
  }

  /** The steps of one request, on the table alone. */
  function NextTimes(req: Request, r: nat, now: int, at: (seq<Message>, Pc), n: nat): (seq<Message>, Pc) {
    if n == 0 then at
    else
      var before := NextTimes(req, r, now, at, n - 1);
      Next(before.0, req, r, before.1, Event(r, NoFault, now))
  }

  lemma {:induction false} AloneIsNext(reqs: Requests, s: World, r: nat, now: int, n: nat)
    requires r in reqs
    ensures
      var t := Alone(reqs, s, r, now, n);
      && (t.rows, PcOf(t, r)) == NextTimes(reqs[r], r, now, (s.rows, PcOf(s, r)), n)
      && forall q :: q != r ==> PcOf(t, q) == PcOf(s, q)
  {
    hide Next, Step, PcOf;
    if n > 0 {
      AloneIsNext(reqs, s, r, now, n - 1);
      StepFacts(reqs, Alone(reqs, s, r, now, n - 1), Event(r, NoFault, now));
    }
  }

  lemma NextIsFreeHere(reqs: Requests, s: World, r: nat, now: int)
    requires Inv(reqs, s) && r in reqs && PcOf(s, r).Start?
    ensures LatestSeq(s.rows, reqs[r].threadId) == |ThreadLog(s.rows, reqs[r].threadId)|
    ensures Lookup(s.rows, reqs[r]).None? ==>
      !Conflicts(s.rows, NewMessage(reqs[r], MessageId(r, 1), |ThreadLog(s.rows, reqs[r].threadId)| + 1, now))
  {
    LatestIsLength(s.rows, reqs[r].threadId);
    if Lookup(s.rows, reqs[r]).None? {
      NextIsFree(reqs, s, r, 1, now);
    }
  }

  lemma FourSteps(rows: seq<Message>, req: Request, r: nat, now: int)
    requires LatestSeq(rows, req.threadId) == |ThreadLog(rows, req.threadId)|
    requires
      var m := NewMessage(req, MessageId(r, 1), |ThreadLog(rows, req.threadId)| + 1, now);
      Lookup(rows, req).None? ==> !Conflicts(rows, m)
    ensures
      var (after, reply) := AloneOutcome(rows, req, r, now);
      NextTimes(req, r, now, (rows, Start), 4) == (after, Done(reply))
  {
    hide Conflicts, LatestSeq, ThreadLog, Lookup, ParentExists;
    var at1 := NextTimes(req, r, now, (rows, Start), 1);
    var at2 := NextTimes(req, r, now, (rows, Start), 2);
    var at3 := NextTimes(req, r, now, (rows, Start), 3);
    assert NextTimes(req, r, now, (rows, Start), 0) == (rows, Start);
    assert at1 == Next(rows, req, r, Start, Event(r, NoFault, now));
  }

  lemma AloneStep(reqs: Requests, s: World, r: nat, now: int, n: nat)
    requires n > 0
    ensures Alone(reqs, s, r, now, 0) == s
    ensures Alone(reqs, s, r, now, n) == Step(reqs, Alone(reqs, s, r, now, n - 1), Event(r, NoFault, now))
  {
  }

  // ----- four requests may conflict

  /** Requests without keys and reply links on one thread. */
  ghost predicate Plain(reqs: Requests, threadId: string) {
    forall r :: r in reqs ==> reqs[r].threadId == threadId && reqs[r].key.None? && reqs[r].payload.inReplyTo.None?
  }

  lemma VictimIsStuck(reqs: Requests, threadId: string, s: World, v: nat, attempt: nat, next: nat, now: int)
    requires Inv(reqs, s) && Plain(reqs, threadId) && v in reqs
    requires PcOf(s, v) == TryInsert(attempt, next) && next <= |ThreadLog(s.rows, threadId)|
    ensures 1 <= attempt <= MAX_ATTEMPTS && reqs[v].threadId == threadId && Lookup(s.rows, reqs[v]).None?
    ensures LatestSeq(s.rows, threadId) == |ThreadLog(s.rows, threadId)|
    ensures Conflicts(s.rows, NewMessage(reqs[v], MessageId(v, attempt), next, now))
  {
    assert PcOk(reqs[v], v, s) && GapFree(s.rows);
    hide Inv, RowsOk, GapFree, Conflicts, ThreadLog;
    InsertIsTaken(reqs[v], s.rows, v, attempt, next, now);
    LatestIsLength(s.rows, threadId);
  }

  /** The victim is about to insert; its number is taken, so three steps later it is about to insert again, or
      gives up. */
  lemma VictimTriesAgain(reqs: Requests, threadId: string, s: World, v: nat, attempt: nat, next: nat, now: int)
    requires Inv(reqs, s) && Plain(reqs, threadId) && v in reqs
    requires PcOf(s, v) == TryInsert(attempt, next) && next <= |ThreadLog(s.rows, threadId)| < MAX_SAFE_INTEGER
    ensures
      var t := Alone(reqs, s, v, now, 3);
      && t.rows == s.rows && (forall q :: q != v ==> PcOf(t, q) == PcOf(s, q))
      && (attempt < MAX_ATTEMPTS ==> PcOf(t, v) == TryInsert(attempt + 1, |ThreadLog(s.rows, threadId)| + 1))
      && (attempt == MAX_ATTEMPTS ==> PcOf(t, v) == Done(Conflict))
  {
    hide *;
    VictimIsStuck(reqs, threadId, s, v, attempt, next, now);
    NextRetry(s.rows, reqs[v], v, attempt, next, now);
    if attempt < MAX_ATTEMPTS {
      ThreeQuietSteps(reqs, s, v, now, Recheck(attempt, false), ReadSeq(attempt + 1),
                      TryInsert(attempt + 1, |ThreadLog(s.rows, threadId)| + 1));
    } else {
      ThreeQuietSteps(reqs, s, v, now, Recheck(attempt, false), Done(Conflict), Done(Conflict));
    }
  }

  /** Three steps of one request that leave the table alone. */
  lemma {:induction false} ThreeQuietSteps(reqs: Requests, s: World, v: nat, now: int, p1: Pc, p2: Pc, p3: Pc)
    requires v in reqs
    requires Next(s.rows, reqs[v], v, PcOf(s, v), Event(v, NoFault, now)) == (s.rows, p1)
    requires Next(s.rows, reqs[v], v, p1, Event(v, NoFault, now)) == (s.rows, p2)
    requires Next(s.rows, reqs[v], v, p2, Event(v, NoFault, now)) == (s.rows, p3)
    ensures
      var t := Alone(reqs, s, v, now, 3);
      t.rows == s.rows && PcOf(t, v) == p3 && forall q :: q != v ==> PcOf(t, q) == PcOf(s, q)
  {
    hide *;
    var e := Event(v, NoFault, now);
    var s1, s2 := Alone(reqs, s, v, now, 1), Alone(reqs, s, v, now, 2);
    AloneStep(reqs, s, v, now, 1);
    AloneStep(reqs, s, v, now, 2);
    AloneStep(reqs, s, v, now, 3);
    StepFacts(reqs, s, e);
    StepFacts(reqs, s1, e);
    StepFacts(reqs, s2, e);
  }

  /** The steps of a keyless request whose number is taken. */
  lemma NextRetry(rows: seq<Message>, req: Request, v: nat, attempt: nat, next: nat, now: int)
    requires Lookup(rows, req).None?
      && LatestSeq(rows, req.threadId) == |ThreadLog(rows, req.threadId)| < MAX_SAFE_INTEGER
    requires Conflicts(rows, NewMessage(req, MessageId(v, attempt), next, now))
    ensures
      var e := Event(v, NoFault, now);
      && Next(rows, req, v, TryInsert(attempt, next), e) == (rows, Recheck(attempt, false))
      && Next(rows, req, v, Recheck(attempt, false), e)
         == (rows, if attempt < MAX_ATTEMPTS then ReadSeq(attempt + 1) else Done(Conflict))
      && Next(rows, req, v, ReadSeq(attempt + 1), e)
        == (rows, TryInsert(attempt + 1, |ThreadLog(rows, req.threadId)| + 1))
      && Next(rows, req, v, Done(Conflict), e) == (rows, Done(Conflict))
  {
    hide Conflicts, LatestSeq, ThreadLog, Lookup;
  }

  lemma InsertIsTaken(req: Request, rows: seq<Message>, v: nat, attempt: nat, next: nat, now: int)
    requires GapFree(rows) && 1 <= next <= |ThreadLog(rows, req.threadId)|
    ensures Conflicts(rows, NewMessage(req, MessageId(v, attempt), next, now))
  {
    SeqInUse(rows, req.threadId, next);
    var i :| 0 <= i < |rows| && rows[i].threadId == req.threadId && rows[i].seqNo == next;
    assert Collide(NewMessage(req, MessageId(v, attempt), next, now), rows[i]);
  }

  /** The situation before round `k`: the victim is about to insert `k`, which is still free, and the others
      have not started. */
  ghost predicate Ready(reqs: Requests, threadId: string, s: World, v: nat, k: nat, others: set<nat>) {
    && PcOf(s, v) == TryInsert(k, k) && |ThreadLog(s.rows, threadId)| == k - 1
    && v !in others && others <= reqs.Keys && forall q :: q in others ==> PcOf(s, q).Start?
  }

  /** In each round another request commits alone and the victim runs into it. */
  lemma OneRound(reqs: Requests, threadId: string, schedule: seq<Event>, v: nat, k: nat, q: nat, others: set<nat>)
    returns (longer: seq<Event>)
    requires Plain(reqs, threadId) && 1 <= k <= MAX_ATTEMPTS && v in reqs && q in others
    requires Ready(reqs, threadId, Run(reqs, schedule), v, k, others)
    ensures k < MAX_ATTEMPTS ==> Ready(reqs, threadId, Run(reqs, longer), v, k + 1, others - {q})
    ensures k == MAX_ATTEMPTS ==> PcOf(Run(reqs, longer), v) == Done(Conflict)
  {
    hide *;
    var s := Run(reqs, schedule);
    var afterCommit := schedule + Repeat(q, 0, 4);
    longer := afterCommit + Repeat(v, 0, 3);
    var t := Run(reqs, afterCommit);
    RunInv(reqs, schedule);
    RunInv(reqs, afterCommit);
    RunContinues(reqs, schedule, Repeat(q, 0, 4));
    RunContinues(reqs, afterCommit, Repeat(v, 0, 3));
    AloneContinues(reqs, s, q, 0, 4);
    AloneContinues(reqs, t, v, 0, 3);
    CommitRound(reqs, threadId, s, v, k, q, others);
    RetryRound(reqs, threadId, t, v, k, others - {q});
  }

  /** A request of the waiting ones commits alone. */
  lemma CommitRound(reqs: Requests, threadId: string, s: World, v: nat, k: nat, q: nat, others: set<nat>)
    requires Inv(reqs, s) && Plain(reqs, threadId) && 1 <= k <= MAX_ATTEMPTS && v in reqs && q in others
    requires Ready(reqs, threadId, s, v, k, others)
    ensures Blocked(reqs, threadId, Alone(reqs, s, q, 0, 4), v, k, others - {q})
  {
    hide Inv, Alone, GapFree;
    AloneSteps(reqs, s, q, 0);
    ThreadLogSnoc(s.rows, NewMessage(reqs[q], MessageId(q, 1), k, 0), threadId);
  }

  /** The victim's number `k` has just been taken. */
  ghost predicate Blocked(reqs: Requests, threadId: string, s: World, v: nat, k: nat, others: set<nat>) {
    && PcOf(s, v) == TryInsert(k, k) && |ThreadLog(s.rows, threadId)| == k
    && v !in others && others <= reqs.Keys && forall q :: q in others ==> PcOf(s, q).Start?
  }

  lemma {:induction false} RetryRound(reqs: Requests, threadId: string, s: World, v: nat, k: nat, others: set<nat>)
    requires Inv(reqs, s) && Plain(reqs, threadId) && 1 <= k <= MAX_ATTEMPTS && v in reqs
    requires Blocked(reqs, threadId, s, v, k, others)
    ensures k < MAX_ATTEMPTS ==> Ready(reqs, threadId, Alone(reqs, s, v, 0, 3), v, k + 1, others)
    ensures k == MAX_ATTEMPTS ==> PcOf(Alone(reqs, s, v, 0, 3), v) == Done(Conflict)
  {
    hide Inv, Alone, Plain, ThreadLog;
    VictimTriesAgain(reqs, threadId, s, v, k, k, 0);
  }

  lemma {:induction false} VictimArrives(reqs: Requests, threadId: string, v: nat, others: set<nat>)
    requires Plain(reqs, threadId) && v in reqs && v !in others && others <= reqs.Keys
    ensures Ready(reqs, threadId, Run(reqs, [] + Repeat(v, 0, 3)), v, 1, others)
  {
    RunContinues(reqs, [], Repeat(v, 0, 3));
    AloneContinues(reqs, EMPTY, v, 0, 3);
    assert Run(reqs, []) == EMPTY;
    hide Run, Continue, Repeat, Alone, Step;
    FirstThreeSteps(reqs, threadId, v);
  }

  lemma {:induction false} FirstThreeSteps(reqs: Requests, threadId: string, v: nat)
    requires Plain(reqs, threadId) && v in reqs
    ensures Alone(reqs, EMPTY, v, 0, 3).rows == []
    ensures PcOf(Alone(reqs, EMPTY, v, 0, 3), v) == TryInsert(1, 1)
    ensures forall q :: q != v ==> PcOf(Alone(reqs, EMPTY, v, 0, 3), q).Start?
  {
    var e := Event(v, NoFault, 0);
    var req := reqs[v];
    assert ParentExists([], req) && Lookup([], req).None?;
    assert LatestSeq([], req.threadId) == |ThreadLog([], req.threadId)| == 0;
    hide *;
    ThreeQuietSteps(reqs, EMPTY, v, 0, CheckKey, ReadSeq(1), TryInsert(1, 1));
  }

  lemma ThreeRounds(reqs: Requests, threadId: string, v: nat, a: nat, b: nat, c: nat) returns (schedule: seq<Event>)
    requires Plain(reqs, threadId) && v in reqs && a in reqs && b in reqs && c in reqs
    requires v !in {a, b, c} && a !in {b, c} && b != c
    ensures PcOf(Run(reqs, schedule), v) == Done(Conflict)
  {
    hide Run, Ready, Plain, Repeat;
    assert {a, b, c} - {a} == {b, c} && {b, c} - {b} == {c};
    VictimArrives(reqs, threadId, v, {a, b, c});
    schedule := OneRound(reqs, threadId, [] + Repeat(v, 0, 3), v, 1, a, {a, b, c});
    schedule := OneRound(reqs, threadId, schedule, v, 2, b, {b, c});
    schedule := OneRound(reqs, threadId, schedule, v, 3, c, {c});
  }

  /** The bound of three is tight: as soon as a keyless request shares its thread with three others, some
      schedule makes it end in CONFLICT. */
  lemma {:induction false} FourRequestsMayConflict(reqs: Requests, threadId: string, v: nat, a: nat, b: nat, c: nat)
    requires Plain(reqs, threadId) && {v, a, b, c} <= reqs.Keys
    requires v != a && v != b && v != c && a != b && a != c && b != c
    ensures exists schedule :: PcOf(Run(reqs, schedule), v) == Done(Conflict)
  {
    hide *;
    var schedule := ThreeRounds(reqs, threadId, v, a, b, c);
  }
}
