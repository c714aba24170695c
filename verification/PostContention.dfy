/** What it takes to defeat a `post_message` request: every failed attempt is charged to a commit of its own. */
module PostContention {
  import opened Wrappers
  import opened MessageTable
  import opened PostMessage
  import PostGuarantees

  // ----- who wrote a log

  /** A message of a thread's log was committed by a request on that thread that tries no other insert. */
  lemma {:induction false} LogAuthor(reqs: Requests, s: World, threadId: string, i: nat)
    requires Inv(reqs, s) && i < |ThreadLog(s.rows, threadId)|
    ensures
      var m := ThreadLog(s.rows, threadId)[i];
      && m.seqNo == i + 1 && m.id.request in reqs && reqs[m.id.request].threadId == threadId
      && Committed(PcOf(s, m.id.request), m)
  {
    hide RowsOk, PcOk;
    var log := ThreadLog(s.rows, threadId);
    ThreadLogMembers(s.rows, threadId, log[i]);
    var a :| 0 <= a < |s.rows| && s.rows[a] == log[i];
    PostGuarantees.RowAuthor(reqs, s, a);
    assert log[i].seqNo == i + 1;
  }

  /** No two messages of a log were committed by the same request. */
  lemma AuthorsDiffer(reqs: Requests, s: World, threadId: string, i: nat, j: nat)
    requires Inv(reqs, s) && i < j < |ThreadLog(s.rows, threadId)|
    ensures ThreadLog(s.rows, threadId)[i].id.request != ThreadLog(s.rows, threadId)[j].id.request
  {
    hide PcOk, FromRequest, Collide;
    var log := ThreadLog(s.rows, threadId);
    ThreadLogMembers(s.rows, threadId, log[i]);
    ThreadLogMembers(s.rows, threadId, log[j]);
    var a :| 0 <= a < |s.rows| && s.rows[a] == log[i];
    var b :| 0 <= b < |s.rows| && s.rows[b] == log[j];
    assert log[i].seqNo == i + 1 && log[j].seqNo == j + 1;
    assert a < b ==> Authors(s.rows[a], s.rows[b]);
    assert b < a ==> Authors(s.rows[b], s.rows[a]);
  }

  // ----- the contention bound

  lemma ConflictMeansThreeCommits(reqs: Requests, s: World, r: nat)
    requires Inv(reqs, s) && Arrived(reqs, s) && r in reqs && PcOf(s, r) == Done(Conflict)
    ensures r in s.arrivals && s.arrivals[r] + MAX_ATTEMPTS <= |ThreadLog(s.rows, reqs[r].threadId)|
  {
    assert PcOk(reqs[r], r, s);
    hide RowsOk, GapFree, ThreadLog;
  }

  /** Contention bound: a request that gives up with CONFLICT saw at least three commits to its thread between
      its arrival and its end, by three distinct requests on the thread other than itself. */
  lemma {:induction false} GivingUpTakesThreeCommits(reqs: Requests, schedule: seq<Event>, r: nat, k: nat, l: nat)
    requires r in reqs && PcOf(Run(reqs, schedule), r) == Done(Conflict)
    ensures
      var s := Run(reqs, schedule);
      var log := ThreadLog(s.rows, reqs[r].threadId);
      && r in s.arrivals && s.arrivals[r] + MAX_ATTEMPTS <= |log|
      && (k < l < MAX_ATTEMPTS ==>
           var a, b := log[s.arrivals[r] + k].id.request, log[s.arrivals[r] + l].id.request;
           && a in reqs && b in reqs && a != b && a != r && b != r
           && reqs[a].threadId == reqs[r].threadId && reqs[b].threadId == reqs[r].threadId)
  {
    hide Run, Inv, Arrived, ThreadLog;
    RunInv(reqs, schedule);
    var s := Run(reqs, schedule);
    ConflictMeansThreeCommits(reqs, s, r);
    if k < l < MAX_ATTEMPTS {
      LogAuthor(reqs, s, reqs[r].threadId, s.arrivals[r] + k);
      LogAuthor(reqs, s, reqs[r].threadId, s.arrivals[r] + l);
      AuthorsDiffer(reqs, s, reqs[r].threadId, s.arrivals[r] + k, s.arrivals[r] + l);
    }
  }

  /** The other requests on a request's thread. */
  function Rivals(reqs: Requests, r: nat): set<nat>
    requires r in reqs
  {
    set q | q in reqs && q != r && reqs[q].threadId == reqs[r].threadId
  }

  /** With fewer than three other requests on its thread, no request ends in CONFLICT, however many there are on
      other threads. */
  lemma {:induction false} FewRivalsNeverConflict(reqs: Requests, schedule: seq<Event>, r: nat)
    requires r in reqs && |Rivals(reqs, r)| < MAX_ATTEMPTS
    ensures PcOf(Run(reqs, schedule), r) != Done(Conflict)
  {
    hide Run, ThreadLog;
    if PcOf(Run(reqs, schedule), r) == Done(Conflict) {
      var s := Run(reqs, schedule);
      GivingUpTakesThreeCommits(reqs, schedule, r, 0, 1);
      GivingUpTakesThreeCommits(reqs, schedule, r, 0, 2);
      GivingUpTakesThreeCommits(reqs, schedule, r, 1, 2);
      var log, a := ThreadLog(s.rows, reqs[r].threadId), s.arrivals[r];
      ThreeMembers(Rivals(reqs, r), log[a].id.request, log[a + 1].id.request, log[a + 2].id.request);
    }
  }

  lemma ThreeMembers(s: set<nat>, a: nat, b: nat, c: nat)
    requires {a, b, c} <= s && a != b && a != c && b != c
    ensures |s| >= 3
  {
    assert s == {a, b, c} + (s - {a, b, c});
    assert |{a, b, c}| == 3;
  }

  /** In particular three requests in all never conflict. */
  lemma {:induction false} ThreeRequestsNeverConflict(reqs: Requests, schedule: seq<Event>, r: nat)
    requires |reqs| <= MAX_ATTEMPTS && r in reqs
    ensures PcOf(Run(reqs, schedule), r) != Done(Conflict)
  {
    var rivals := Rivals(reqs, r);
    assert |reqs| == |reqs.Keys|;
    assert reqs.Keys == reqs.Keys - {r} + {r};
    SubsetIsSmaller(rivals, reqs.Keys - {r});
    FewRivalsNeverConflict(reqs, schedule, r);
  }

  lemma {:induction false} SubsetIsSmaller(a: set<nat>, b: set<nat>)
    requires a <= b
    ensures |a| <= |b|
  {
    if x :| x in a {
      SubsetIsSmaller(a - {x}, b - {x});
    }
  }

  // ----- one commit per failed attempt

  /** Attempt `attempt` of request r, in one run: it reads the latest sequence in step i and its insert is refused
      in step j, not by a fault and not because its key is taken. */
  ghost predicate FailsBetween(reqs: Requests, schedule: seq<Event>, r: nat, attempt: nat, i: nat, j: nat) {
    && r in reqs && i < |schedule| && j < |schedule| && schedule[i].request == r && schedule[j].request == r
    && PcOf(Run(reqs, schedule[..i]), r) == ReadSeq(attempt)
    && PcOf(Run(reqs, schedule[..j]), r).TryInsert? && PcOf(Run(reqs, schedule[..j]), r).attempt == attempt
    && PcOf(Run(reqs, schedule[..j + 1]), r) == Recheck(attempt, false)
    && Lookup(Run(reqs, schedule[..j]).rows, reqs[r]).None?
  }

  /** The position in the thread's log of the commit a failed attempt is charged to. */
  function Charged(reqs: Requests, schedule: seq<Event>, r: nat, i: nat): nat
    requires r in reqs && i < |schedule|
  {
    |ThreadLog(Run(reqs, schedule[..i]).rows, reqs[r].threadId)|
  }

  /** Every step a request takes brings it forward. */
  function Rank(pc: Pc): nat {
    match pc
    case Start => 0
    case CheckKey => 1
    case ReadSeq(attempt) => 3 * attempt
    case TryInsert(attempt, _) => 3 * attempt + 1
    case Recheck(attempt, _) => 3 * attempt + 2
    case Done(_) => 3 * MAX_ATTEMPTS + 3
  }

  /** What a request's own step does to its position. */
  lemma OwnStepMoves(rows: seq<Message>, req: Request, r: nat, pc: Pc, e: Event)
    requires pc.Done? || Rank(pc) < 3 * MAX_ATTEMPTS + 3
    ensures
      var after := Next(rows, req, r, pc, e).1;
      && (if pc.Done? then after == pc else Rank(pc) < Rank(after))
      && (after.TryInsert? ==> pc.ReadSeq? && after.next == LatestSeq(rows, req.threadId) + 1)
  {
    hide Conflicts, Lookup, LatestSeq, ParentExists;
  }

  lemma RankIsBounded(reqs: Requests, s: World, r: nat)
    requires Inv(reqs, s) && r in reqs
    ensures PcOf(s, r).Done? || Rank(PcOf(s, r)) < 3 * MAX_ATTEMPTS + 3
    ensures LatestSeq(s.rows, reqs[r].threadId) == |ThreadLog(s.rows, reqs[r].threadId)|
  {
    assert PcOk(reqs[r], r, s);
    hide RowsOk, GapFree, ThreadLog;
    LatestIsLength(s.rows, reqs[r].threadId);
  }

  /** What one step does to a request's position. */
  lemma StepMoves(reqs: Requests, s: World, e: Event, r: nat)
    requires Inv(reqs, s) && r in reqs
    ensures
      var t := Step(reqs, s, e);
      && Rank(PcOf(s, r)) <= Rank(PcOf(t, r))
      && (PcOf(t, r) == PcOf(s, r) || (e.request == r && Rank(PcOf(s, r)) < Rank(PcOf(t, r))))
      && (e.request == r && !PcOf(s, r).Done? ==> Rank(PcOf(s, r)) < Rank(PcOf(t, r)))
      && (PcOf(t, r).TryInsert? && PcOf(t, r) != PcOf(s, r) ==>
           PcOf(s, r).ReadSeq? && PcOf(t, r).next == |ThreadLog(s.rows, reqs[r].threadId)| + 1)
  {
    hide Inv, Step, PcOf, Rank, Next;
    StepFacts(reqs, s, e);
    RankIsBounded(reqs, s, r);
    OwnStepMoves(s.rows, reqs[r], r, PcOf(s, r), e);
  }

  lemma RunStep(reqs: Requests, schedule: seq<Event>, n: nat)
    requires n < |schedule|
    ensures Run(reqs, schedule[..n + 1]) == Step(reqs, Run(reqs, schedule[..n]), schedule[n])
  {
    assert schedule[..n + 1][..n] == schedule[..n];
  }

  lemma {:induction false} RankGrows(reqs: Requests, schedule: seq<Event>, r: nat, i: nat, j: nat)
    requires r in reqs && i <= j <= |schedule|
    ensures Rank(PcOf(Run(reqs, schedule[..i]), r)) <= Rank(PcOf(Run(reqs, schedule[..j]), r))
  {
    hide *;
    if i < j {
      RankGrows(reqs, schedule, r, i, j - 1);
      RunInv(reqs, schedule[..j - 1]);
      RunStep(reqs, schedule, j - 1);
      StepMoves(reqs, Run(reqs, schedule[..j - 1]), schedule[j - 1], r);
    }
  }

  /** The number an attempt tries is the one it read, until it tries it. */
  lemma {:induction false} TriesWhatItRead(reqs: Requests, schedule: seq<Event>, r: nat, attempt: nat, i: nat, j: nat)
    requires r in reqs && i < j < |schedule| && schedule[i].request == r
    requires PcOf(Run(reqs, schedule[..i]), r) == ReadSeq(attempt)
    requires PcOf(Run(reqs, schedule[..j]), r).TryInsert? && PcOf(Run(reqs, schedule[..j]), r).attempt == attempt
    ensures PcOf(Run(reqs, schedule[..j]), r).next == Charged(reqs, schedule, r, i) + 1
  {
    hide Run, Inv, Step, Arrived, ThreadLog, PcOf;
    RunInv(reqs, schedule[..j - 1]);
    RunStep(reqs, schedule, j - 1);
    StepMoves(reqs, Run(reqs, schedule[..j - 1]), schedule[j - 1], r);
    if i < j - 1 {
      RunInv(reqs, schedule[..i]);
      RunStep(reqs, schedule, i);
      StepMoves(reqs, Run(reqs, schedule[..i]), schedule[i], r);
      RankGrows(reqs, schedule, r, i + 1, j - 1);
      TriesWhatItRead(reqs, schedule, r, attempt, i, j - 1);
    }
  }

  /** Each failed attempt is charged to a commit by another request of the thread, between its read and its
      insert: the log it read does not hold it, the log it ran into does. */
  lemma {:induction false} FailureIsCharged(reqs: Requests, schedule: seq<Event>, r: nat, attempt: nat, i: nat, j: nat)
    requires FailsBetween(reqs, schedule, r, attempt, i, j)
    ensures i < j
    ensures
      var charged := Charged(reqs, schedule, r, i);
      var log := ThreadLog(Run(reqs, schedule[..j]).rows, reqs[r].threadId);
      && charged < |log|
      && log[charged].id.request in Rivals(reqs, r)
  {
    hide Run, Inv, Step, Arrived, ThreadLog, Lookup, Charged;
    assert Charged(reqs, schedule, r, i) >= 0;
    if j <= i {
      RankGrows(reqs, schedule, r, j, i);
    }
    assert i < j;
    TriesWhatItRead(reqs, schedule, r, attempt, i, j);
    RunInv(reqs, schedule[..j]);
    RunStep(reqs, schedule, j);
    var s := Run(reqs, schedule[..j]);
    RefusedInsert(reqs, s, schedule[j], r);
    LogAuthor(reqs, s, reqs[r].threadId, PcOf(s, r).next - 1);
  }

  lemma RefusedInsert(reqs: Requests, s: World, e: Event, r: nat)
    requires Inv(reqs, s) && r in reqs && e.request == r && PcOf(s, r).TryInsert?
    requires PcOf(Step(reqs, s, e), r) == Recheck(PcOf(s, r).attempt, false) && Lookup(s.rows, reqs[r]).None?
    ensures 1 <= PcOf(s, r).next <= |ThreadLog(s.rows, reqs[r].threadId)|
  {
    assert PcOk(reqs[r], r, s);
    hide RowsOk, GapFree, Lookup, ThreadLog, Conflicts;
    var m := NewMessage(reqs[r], MessageId(r, PcOf(s, r).attempt), PcOf(s, r).next, e.now);
    FailedInsertHasCause(reqs, s, r, m);
  }

  /** Different attempts are charged to different commits: the later attempt reads only after the earlier one has
      failed, when the log already holds what that one is charged to. */
  lemma AttemptsAreChargedApart(reqs: Requests, schedule: seq<Event>, r: nat, a: nat, i: nat, j: nat, a': nat, i': nat,
                                j': nat)
    requires FailsBetween(reqs, schedule, r, a, i, j) && FailsBetween(reqs, schedule, r, a', i', j') && a < a'
    ensures j < i' && Charged(reqs, schedule, r, i) < Charged(reqs, schedule, r, i')
  {
    FailureIsCharged(reqs, schedule, r, a, i, j);
    hide Run, ThreadLog, Lookup;
    if i' <= j {
      RankGrows(reqs, schedule, r, i', j);
    }
    assert j < i';
    LogGrowsTo(reqs, schedule, reqs[r].threadId, j, i');
  }

  lemma {:induction false} LogGrowsTo(reqs: Requests, schedule: seq<Event>, threadId: string, i: nat, j: nat)
    requires i <= j <= |schedule|
    ensures |ThreadLog(Run(reqs, schedule[..i]).rows, threadId)| <= |ThreadLog(Run(reqs, schedule[..j]).rows, threadId)|
  {
    hide *;
    if i < j {
      LogGrowsTo(reqs, schedule, threadId, i, j - 1);
      RunStep(reqs, schedule, j - 1);
      var s := Run(reqs, schedule[..j - 1]);
      StepAppends(reqs, s, schedule[j - 1]);
      LogGrows(s.rows, Step(reqs, s, schedule[j - 1]).rows, threadId);
    }
  }
}
