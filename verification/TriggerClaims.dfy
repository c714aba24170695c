/** What one worker's claiming takes, over every run: never more than its limit, the oldest candidates first, each as
    its snapshot saw it, and it leaves a candidate out only because the row had changed by its turn. */
module TriggerClaims {
  import opened Wrappers
  import opened StableSort
  import opened TriggerModel
  import opened TriggerDecision
  import opened TriggerProcessor
  import opened TriggerWorkers
  import opened TriggerWorkerGuards

  /** A snapshot, and the rows at that moment. */
  datatype Look = Look(snapshot: Event, rows: map<string, Job>)

  /** The worker's last snapshot. */
  ghost function LastLook(cfg: Config, events: seq<Event>, w: nat): Option<Look>
    requires Possible(cfg, events)
  {
    if events == [] then None
    else
      var before, e := events[..|events| - 1], events[|events| - 1];
      if e.Snapshot? && e.w == w then Some(Look(e, Reached(cfg, before).rows)) else LastLook(cfg, before, w)
  }

  /** How many claims the worker has tried since then. */
  function Tries(events: seq<Event>, w: nat): nat {
    if events == [] then 0
    else
      var before, e := events[..|events| - 1], events[|events| - 1];
      if e.Snapshot? && e.w == w then 0 else Tries(before, w) + if e == TryClaim(w) then 1 else 0
  }

  /** The k-th candidate's row is not what the snapshot saw. */
  ghost predicate HasChanged(look: Look, rows: map<string, Job>, k: nat) {
    && look.snapshot.Snapshot? && k < |look.snapshot.picked|
    && var id := look.snapshot.picked[k];
       !(id in look.rows && id in rows && rows[id] == look.rows[id])
  }

  /** The candidates whose rows had changed at their turn: the k-th candidate's turn is the k-th try. */
  ghost function Outdated(cfg: Config, events: seq<Event>, w: nat): set<string>
    requires Possible(cfg, events)
  {
    if events == [] then {}
    else
      var before, e := events[..|events| - 1], events[|events| - 1];
      var look, k := LastLook(cfg, before, w), Tries(before, w);
      if e.Snapshot? && e.w == w then {}
      else if e == TryClaim(w) && look.Some? && HasChanged(look.value, Reached(cfg, before).rows, k)
      then Outdated(cfg, before, w) + {look.value.snapshot.picked[k]}
      else Outdated(cfg, before, w)
  }

  /** A candidate as the worker holds it. */
  ghost predicate IsTaken(look: Look, k: nat, job: Job) {
    && look.snapshot.Snapshot? && k < |look.snapshot.picked| && look.snapshot.picked[k] in look.rows
    && job == look.rows[look.snapshot.picked[k]].(status := Triggering, updatedAt := look.snapshot.now)
  }

  ghost predicate Holds(look: Look, jobs: seq<Job>, k: nat) {
    exists j :: 0 <= j < |jobs| && IsTaken(look, k, jobs[j])
  }

  ghost predicate IsCandidate(look: Look, tries: nat, job: Job) {
    exists k :: 0 <= k < tries && IsTaken(look, k, job)
  }

  predicate OldestFirst(jobs: seq<Job>) {
    forall i, j :: 0 <= i < j < |jobs| ==> jobs[i].createdAt <= jobs[j].createdAt
  }

  /** A snapshot shows rows under their ids, oldest first. */
  ghost predicate GoodLook(look: Look) {
    && look.snapshot.Snapshot?
    && (forall k :: 0 <= k < |look.snapshot.picked| ==>
         look.snapshot.picked[k] in look.rows
           && look.rows[look.snapshot.picked[k]].triggerId == look.snapshot.picked[k])
    && (forall i, j :: 0 <= i < j < |look.snapshot.picked| ==>
         && look.snapshot.picked[i] != look.snapshot.picked[j]
         && look.rows[look.snapshot.picked[i]].createdAt <= look.rows[look.snapshot.picked[j]].createdAt)
  }

  /** The first `tries` candidates have had their turn: each is held or was outdated. */
  ghost predicate Tried(look: Look, tries: nat, outdated: set<string>, claimed: seq<Job>)
    requires look.snapshot.Snapshot?
  {
    && tries <= |look.snapshot.picked|
    && (forall k :: 0 <= k < tries && look.snapshot.picked[k] !in outdated ==> Holds(look, claimed, k))
    && (forall j :: 0 <= j < |claimed| ==> IsCandidate(look, tries, claimed[j]))
  }

  /** The rest are still to come, as the snapshot saw them. */
  ghost predicate Waiting(look: Look, tries: nat, candidates: seq<Job>)
    requires GoodLook(look)
  {
    && |candidates| + tries == |look.snapshot.picked|
    && forall i :: 0 <= i < |candidates| ==> candidates[i] == look.rows[look.snapshot.picked[tries + i]]
  }

  ghost predicate Accounts(look: Look, tries: nat, outdated: set<string>, p: Phase) {
    && GoodLook(look)
    && |Held(p)| <= look.snapshot.limit && OldestFirst(Held(p))
    && (Held(p) == [] ==> p.Idle? || p.Claiming?)
    && (p.Claiming? ==>
         && p.now == look.snapshot.now && p.limit == look.snapshot.limit
         && Tried(look, tries, outdated, p.claimed) && Waiting(look, tries, p.candidates))
  }

  ghost predicate Accounted(cfg: Config, events: seq<Event>, w: nat)
    requires Possible(cfg, events)
  {
    match LastLook(cfg, events, w)
    case None => PhaseOf(Reached(cfg, events), w).Idle?
    case Some(look) => Accounts(look, Tries(events, w), Outdated(cfg, events, w), PhaseOf(Reached(cfg, events), w))
  }

  // ----- one event

  predicate Concerns(e: Event, w: nat) {
    !e.Create? && e.w == w
  }

  lemma OthersLeavePhase(cfg: Config, s: World, e: Event, w: nat)
    requires Enabled(s, e) && !Concerns(e, w)
    ensures PhaseOf(Step(cfg, s, e), w) == PhaseOf(s, w)
  {
    hide ClaimStep, AdmitStep, ConcludeStep, RecordStep, CandidateQuery, Rows;
    match e
    case Create(_) =>
    case Snapshot(_, _, _, _, _, _) =>
    case TryClaim(v) => ClaimLeavesOthers(s, v, w);
    case AdmitNext(v) => AdmitLeavesOthers(cfg, s, v, w);
    case Conclude(v, reply) => ConcludeLeavesOthers(cfg, s, v, reply, w);
    case Record(v) => RecordLeavesOthers(s, v, w);
  }

  lemma ClaimLeavesOthers(s: World, v: nat, w: nat)
    requires PhaseOf(s, v).Claiming? && v != w
    ensures PhaseOf(ClaimStep(s, v), w) == PhaseOf(s, w)
  {
  }

  lemma AdmitLeavesOthers(cfg: Config, s: World, v: nat, w: nat)
    requires PhaseOf(s, v).Working? && PhaseOf(s, v).todo != [] && v != w
    ensures PhaseOf(AdmitStep(cfg, s, v), w) == PhaseOf(s, w)
  {
    hide Admit;
  }

  lemma ConcludeLeavesOthers(cfg: Config, s: World, v: nat, reply: Reply, w: nat)
    requires PhaseOf(s, v).Executing? && v != w
    ensures PhaseOf(ConcludeStep(cfg, s, v, reply), w) == PhaseOf(s, w)
  {
    hide Decide, TakeTurn;
  }

  lemma RecordLeavesOthers(s: World, v: nat, w: nat)
    requires PhaseOf(s, v).Concluded? && v != w
    ensures PhaseOf(RecordStep(s, v), w) == PhaseOf(s, w)
  {
  }

  lemma LookIsGood(cfg: Config, s: World, e: Event)
    requires RowsOk(cfg, s) && e.Snapshot? && Enabled(s, e)
    ensures GoodLook(Look(e, s.rows))
  {
    hide Shape, IsDue;
    assert forall k :: 0 <= k < |e.picked| ==> e.picked[k] in e.picked;
  }

  lemma NothingTried(look: Look, p: Phase)
    requires GoodLook(look) && p.Claiming? && p.now == look.snapshot.now && p.limit == look.snapshot.limit
    requires p.claimed == [] && |p.candidates| == |look.snapshot.picked|
    requires forall i :: 0 <= i < |p.candidates| ==> p.candidates[i] == look.rows[look.snapshot.picked[i]]
    ensures Accounts(look, 0, {}, p)
  {
  }

  lemma {:induction false} SnapshotIsGood(cfg: Config, s: World, e: Event)
    requires Inv(cfg, s) && e.Snapshot? && Enabled(s, e)
    ensures Accounts(Look(e, s.rows), 0, {}, PhaseOf(Step(cfg, s, e), e.w))
  {
    LookIsGood(cfg, s, e);
    hide Inv, GoodLook, Rows, Accounts;
    assert forall id :: id in e.picked ==> id in s.rows;
    hide CandidateQuery;
    RowsLength(s.rows, e.picked);
    forall i | 0 <= i < |e.picked| ensures Rows(s.rows, e.picked)[i] == s.rows[e.picked[i]] {
      RowsAt(s.rows, e.picked, i);
    }
    NothingTried(Look(e, s.rows), PhaseOf(Step(cfg, s, e), e.w));
  }

  lemma {:induction false} TakesNext(look: Look, tries: nat, outdated: set<string>, p: Phase, row: Job)
    requires Accounts(look, tries, outdated, p) && p.Claiming? && tries < |look.snapshot.picked|
    requires |p.claimed| < p.limit && IsTaken(look, tries, row)
    ensures Accounts(look, tries + 1, outdated,
                     p.(candidates := p.candidates[1..], claimed := p.claimed + [row]))
  {
    var after := p.claimed + [row];
    forall k | 0 <= k < tries + 1 && look.snapshot.picked[k] !in outdated ensures Holds(look, after, k) {
      if k < tries {
        var j :| 0 <= j < |p.claimed| && IsTaken(look, k, p.claimed[j]);
        assert IsTaken(look, k, after[j]);
      } else {
        assert IsTaken(look, k, after[|p.claimed|]);
      }
    }
    forall j | 0 <= j < |after| ensures IsCandidate(look, tries + 1, after[j]) {
      if j < |p.claimed| {
        assert IsCandidate(look, tries, p.claimed[j]);
      } else {
        assert IsTaken(look, tries, after[j]);
      }
    }
    forall j | 0 <= j < |p.claimed| ensures p.claimed[j].createdAt <= row.createdAt {
      assert IsCandidate(look, tries, p.claimed[j]);
    }
  }

  lemma {:induction false} LosesNext(look: Look, tries: nat, outdated: set<string>, p: Phase)
    requires Accounts(look, tries, outdated, p) && p.Claiming? && tries < |look.snapshot.picked|
    ensures Accounts(look, tries + 1, outdated + {look.snapshot.picked[tries]}, p.(candidates := p.candidates[1..]))
  {
    forall j | 0 <= j < |p.claimed| ensures IsCandidate(look, tries + 1, p.claimed[j]) {
      assert IsCandidate(look, tries, p.claimed[j]);
    }
  }

  /** One try, on a worker that is accounted for. */
  lemma TryAccounts(cfg: Config, s: World, w: nat, look: Look, tries: nat, outdated: set<string>)
    requires Inv(cfg, s) && PhaseOf(s, w).Claiming? && Accounts(look, tries, outdated, PhaseOf(s, w))
    ensures
      var missed := if HasChanged(look, s.rows, tries) then {look.snapshot.picked[tries]} else {};
      Accounts(look, tries + 1, outdated + missed, PhaseOf(ClaimStep(s, w), w))
  {
    var p := PhaseOf(s, w);
    if |p.claimed| < p.limit && p.candidates != [] {
      MatchMeansUnchanged(cfg, s, w);
      hide Inv;
      var c := p.candidates[0];
      assert c == look.rows[look.snapshot.picked[tries]];
      assert HasChanged(look, s.rows, tries) <==> !ClaimMatches(s.rows, c);
      if ClaimMatches(s.rows, c) {
        TakesNext(look, tries, outdated, p, Claimed(c, p.now));
        assert outdated + {} == outdated;
      } else {
        LosesNext(look, tries, outdated, p);
      }
    }
  }

  /** What a worker holds, and whether that is nothing, after a step that is neither a snapshot nor a try. */
  ghost predicate Shrinks(p: Phase, q: Phase) {
    && !q.Claiming? && (Held(q) == [] ==> q.Idle?)
    && (Held(q) == Held(p) || (Held(p) != [] && Held(q) == Held(p)[1..]))
  }

  lemma DecidingShrinks(cfg: Config, s: World, e: Event)
    requires Enabled(s, e) && (e.AdmitNext? || e.Conclude?)
    ensures Shrinks(PhaseOf(s, e.w), PhaseOf(Step(cfg, s, e), e.w))
  {
    hide Admit, Decide, TakeTurn;
  }

  lemma RecordShrinks(cfg: Config, s: World, w: nat)
    requires Inv(cfg, s) && Enabled(s, Record(w))
    ensures Shrinks(PhaseOf(s, w), PhaseOf(Step(cfg, s, Record(w)), w))
  {
    RecordHappens(cfg, s, w);
    hide Inv, RecordStep;
  }

  /** Any other step of the worker leaves it holding what it held, or all but the first of it. */
  lemma OwnStepShrinks(cfg: Config, s: World, e: Event, w: nat)
    requires Inv(cfg, s) && Enabled(s, e) && Concerns(e, w) && !e.Snapshot? && !e.TryClaim?
    ensures Shrinks(PhaseOf(s, w), PhaseOf(Step(cfg, s, e), w))
  {
    hide Inv, Enabled, Step, Shrinks, PhaseOf;
    if e.Record? {
      RecordShrinks(cfg, s, w);
    } else {
      DecidingShrinks(cfg, s, e);
    }
  }

  /** How the four views of a run extend by one event. */
  lemma ViewsExtend(cfg: Config, events: seq<Event>, e: Event, w: nat)
    requires Possible(cfg, events) && Possible(cfg, events + [e])
    ensures
      var all, s, look := events + [e], Reached(cfg, events), LastLook(cfg, events, w);
      var snapshot := e.Snapshot? && e.w == w;
      var missed := e == TryClaim(w) && look.Some? && HasChanged(look.value, s.rows, Tries(events, w));
      && Enabled(s, e) && Reached(cfg, all) == Step(cfg, s, e)
      && LastLook(cfg, all, w) == (if snapshot then Some(Look(e, s.rows)) else look)
      && Tries(all, w) == (if snapshot then 0 else Tries(events, w) + if e == TryClaim(w) then 1 else 0)
      && Outdated(cfg, all, w) == (if snapshot then {}
                                   else if missed
                                   then Outdated(cfg, events, w) + {look.value.snapshot.picked[Tries(events, w)]}
                                   else Outdated(cfg, events, w))
  {
    var all := events + [e];
    assert all[..|all| - 1] == events;
    RunSplits(cfg, all);
    hide Reached, Possible, Step, Enabled, HasChanged;
  }

  lemma {:induction false} StepAccounts(cfg: Config, events: seq<Event>, e: Event, w: nat)
    requires ValidConfig(cfg) && Possible(cfg, events) && Possible(cfg, events + [e])
    requires Accounted(cfg, events, w)
    ensures Accounted(cfg, events + [e], w)
  {
    ViewsExtend(cfg, events, e, w);
    ReachedInv(cfg, events);
    hide *;
    var s := Reached(cfg, events);
    if !Concerns(e, w) {
      OthersLeavePhase(cfg, s, e, w);
      NotConcerned(e, w);
      AccountedIs(cfg, events, w);
      AccountedIs(cfg, events + [e], w);
    } else if e.Snapshot? {
      ConcernsWorker(e, w);
      SnapshotIsGood(cfg, s, e);
      AccountedIs(cfg, events + [e], w);
    } else {
      ConcernsWorker(e, w);
      AccountedIs(cfg, events, w);
      AccountedIs(cfg, events + [e], w);
      OwnStepAccounts(cfg, s, e, w, LastLook(cfg, events, w), Tries(events, w), Outdated(cfg, events, w));
    }
  }

  lemma NotConcerned(e: Event, w: nat)
    requires !Concerns(e, w)
    ensures !(e.Snapshot? && e.w == w) && e != TryClaim(w)
  {
  }

  lemma ConcernsWorker(e: Event, w: nat)
    requires Concerns(e, w)
    ensures !e.Create? && e.w == w
  {
  }

  lemma AccountedIs(cfg: Config, events: seq<Event>, w: nat)
    requires Possible(cfg, events)
    ensures
      var look, p := LastLook(cfg, events, w), PhaseOf(Reached(cfg, events), w);
      Accounted(cfg, events, w) <==>
        if look.None? then p.Idle? else Accounts(look.value, Tries(events, w), Outdated(cfg, events, w), p)
  {
    hide Reached, Possible, Accounts, LastLook, Tries, Outdated;
  }

  /** A step of a worker that has looked: a try, or one of the steps after claiming. */
  lemma OwnStepAccounts(cfg: Config, s: World, e: Event, w: nat, look: Option<Look>, tries: nat, outdated: set<string>)
    requires Inv(cfg, s) && Enabled(s, e) && Concerns(e, w) && !e.Snapshot?
    requires if look.None? then PhaseOf(s, w).Idle? else Accounts(look.value, tries, outdated, PhaseOf(s, w))
    ensures look.Some?
    ensures
      var missed := e == TryClaim(w) && HasChanged(look.value, s.rows, tries);
      Accounts(look.value, tries + (if e == TryClaim(w) then 1 else 0),
               if missed then outdated + {look.value.snapshot.picked[tries]} else outdated,
               PhaseOf(Step(cfg, s, e), w))
  {
    hide *;
    WorkerIsLooking(cfg, s, e, w);
    ConcernsWorker(e, w);
    if e.TryClaim? {
      TryIsStep(cfg, s, w);
      TryAccounts(cfg, s, w, look.value, tries, outdated);
      assert outdated + {} == outdated;
    } else {
      OwnStepShrinks(cfg, s, e, w);
      ShrinkAccounts(look.value, tries, outdated, PhaseOf(s, w), PhaseOf(Step(cfg, s, e), w));
    }
  }

  lemma WorkerIsLooking(cfg: Config, s: World, e: Event, w: nat)
    requires Enabled(s, e) && Concerns(e, w) && !e.Snapshot?
    ensures !PhaseOf(s, w).Idle? && (e.TryClaim? ==> PhaseOf(s, w).Claiming?)
  {
  }

  lemma TryIsStep(cfg: Config, s: World, w: nat)
    requires PhaseOf(s, w).Claiming?
    ensures Enabled(s, TryClaim(w)) && Step(cfg, s, TryClaim(w)) == ClaimStep(s, w)
  {
  }

  lemma {:induction false} ShrinkAccounts(look: Look, tries: nat, outdated: set<string>, p: Phase, q: Phase)
    requires Accounts(look, tries, outdated, p) && Shrinks(p, q)
    ensures Accounts(look, tries, outdated, q)
  {
    hide Held;
  }

  lemma {:induction false} RunAccounts(cfg: Config, events: seq<Event>, w: nat)
    requires ValidConfig(cfg) && Possible(cfg, events)
    ensures Accounted(cfg, events, w)
  {
    if events != [] {
      RunSplits(cfg, events);
      RunAccounts(cfg, events[..|events| - 1], w);
      assert events == events[..|events| - 1] + [events[|events| - 1]];
      hide Reached, Possible, Accounted;
      StepAccounts(cfg, events[..|events| - 1], events[|events| - 1], w);
    }
  }

  // ----- what claiming takes

  /** A snapshot of any run shows the oldest jobs of its workspace that are queued, timed out or deferred and whose
      retry time, if they have one, has come: at most three times the limit, and all if that many or fewer are due. */
  lemma SnapshotShowsTheOldestDue(cfg: Config, events: seq<Event>, e: Event, id: string, other: string)
    requires Possible(cfg, events) && e.Snapshot? && Possible(cfg, events + [e])
    ensures
      var rows := Reached(cfg, events).rows;
      var due := id in rows && rows[id].workspaceId == e.workspaceId && rows[id].status in {Queued, Timeout, Deferred}
        && (rows[id].nextRetryAt.Some? ==> rows[id].nextRetryAt.value <= e.now);
      && |e.picked| <= 3 * e.limit
      && (id in e.picked ==> due)
      && (due && id !in e.picked ==>
           && |e.picked| == 3 * e.limit
           && (other in e.picked ==> other in rows && rows[other].createdAt <= rows[id].createdAt))
  {
    assert (events + [e])[..|events|] == events;
    RunSplits(cfg, events + [e]);
    hide Reached, Possible;
  }

  /** The ids in some order, each once. */
  lemma {:induction false} Enumerated(ids: set<string>) returns (order: seq<string>)
    ensures (forall id :: id in order <==> id in ids) && forall i, j :: 0 <= i < j < |order| ==> order[i] != order[j]
    decreases |ids|
  {
    if ids == {} {
      order := [];
    } else {
      var id :| id in ids;
      var rest := Enumerated(ids - {id});
      order := rest + [id];
    }
  }

  function CreationTime(rows: map<string, Job>): string -> int {
    (id: string) => if id in rows then rows[id].createdAt else 0
  }

  /** The query always has an answer: an idle worker can take a snapshot of any workspace at any time. */
  lemma SnapshotIsPossible(cfg: Config, events: seq<Event>, w: nat, process: nat, workspaceId: string, limit: nat,
                           now: int) returns (picked: seq<string>)
    requires Possible(cfg, events) && PhaseOf(Reached(cfg, events), w).Idle?
    ensures Possible(cfg, events + [Snapshot(w, process, workspaceId, limit, now, picked)])
  {
    var rows := Reached(cfg, events).rows;
    var due := Enumerated(set id | id in rows && IsDue(rows[id], workspaceId, now));
    var key := CreationTime(rows);
    picked := Take(SortBy(key, due), 3 * limit);
    OldestAreCandidates(rows, workspaceId, limit, now, due, picked);
    var e := Snapshot(w, process, workspaceId, limit, now, picked);
    assert (events + [e])[..|events|] == events;
    hide CandidateQuery, Step;
  }

  /** `first` are those of `xs` that come first by the key, `limit` of them or all. */
  ghost predicate AreFirst(key: string -> int, xs: seq<string>, limit: nat, first: seq<string>) {
    && |first| <= limit && (forall x :: x in first ==> x in xs)
    && (forall i, j :: 0 <= i < j < |first| ==> first[i] != first[j])
    && (forall i, j :: 0 <= i <= j < |first| ==> key(first[i]) <= key(first[j]))
    && (forall x :: x in xs && x !in first ==> |first| == limit)
    && (forall x, y :: x in first && y in xs && y !in first ==> key(x) <= key(y))
  }

  lemma OldestAreCandidates(rows: map<string, Job>, workspaceId: string, limit: nat, now: int, due: seq<string>,
                            picked: seq<string>)
    requires forall id :: id in due <==> id in rows && IsDue(rows[id], workspaceId, now)
    requires forall i, j :: 0 <= i < j < |due| ==> due[i] != due[j]
    requires picked == Take(SortBy(CreationTime(rows), due), 3 * limit)
    ensures CandidateQuery(rows, workspaceId, limit, now, picked)
  {
    hide IsDue, AreFirst, CandidateQuery, SortBy, Take;
    SortedAreFirst(CreationTime(rows), due, 3 * limit);
    FirstDueAnswer(CreationTime(rows), rows, workspaceId, limit, now, due, picked);
  }

  lemma FirstDueAnswer(key: string -> int, rows: map<string, Job>, workspaceId: string, limit: nat, now: int,
                       due: seq<string>, picked: seq<string>)
    requires forall id :: id in due <==> id in rows && IsDue(rows[id], workspaceId, now)
    requires forall id :: id in due ==> key(id) == rows[id].createdAt
    requires AreFirst(key, due, 3 * limit, picked)
    ensures CandidateQuery(rows, workspaceId, limit, now, picked)
  {
    hide IsDue;
    forall i, j | 0 <= i <= j < |picked| ensures rows[picked[i]].createdAt <= rows[picked[j]].createdAt {
      assert key(picked[i]) <= key(picked[j]);
    }
    forall id | id in rows && id !in picked && IsDue(rows[id], workspaceId, now)
      ensures |picked| == 3 * limit && forall other :: other in picked ==> rows[other].createdAt <= rows[id].createdAt
    {
      assert id in due;
    }
  }

  lemma SortedAreFirst(key: string -> int, xs: seq<string>, limit: nat)
    requires forall i, j :: 0 <= i < j < |xs| ==> xs[i] != xs[j]
    ensures AreFirst(key, xs, limit, Take(SortBy(key, xs), limit))
  {
    FirstAreMembers(key, xs, limit);
    FirstAreOrdered(key, xs, limit);
    hide SortBy, Take, SortedBy;
    forall x, y | x in Take(SortBy(key, xs), limit) && y in xs && y !in Take(SortBy(key, xs), limit)
      ensures key(x) <= key(y)
    {
      FirstAreLeast(key, xs, limit, x, y, 0);
    }
  }

  lemma FirstAreMembers(key: string -> int, xs: seq<string>, limit: nat)
    requires forall i, j :: 0 <= i < j < |xs| ==> xs[i] != xs[j]
    ensures
      var first := Take(SortBy(key, xs), limit);
      && |first| <= limit && (forall x :: x in first ==> x in xs)
      && (forall i, j :: 0 <= i < j < |first| ==> first[i] != first[j])
      && (forall x :: x in xs && x !in first ==> |first| == limit)
  {
    SortByKeepsMembers(key, xs);
    SortByKeepsDistinct(key, xs);
    hide SortBy;
  }

  lemma FirstAreOrdered(key: string -> int, xs: seq<string>, limit: nat)
    ensures
      var first := Take(SortBy(key, xs), limit);
      forall i, j :: 0 <= i <= j < |first| ==> key(first[i]) <= key(first[j])
  {
    SortByOrders(key, xs);
    hide SortBy;
  }

  /** In every run a worker holds at most as many jobs as the limit of its last snapshot says, oldest first; it is done
      claiming after at most one try more than there were candidates; and with nothing in hand it is free again. */
  lemma HeldWithinLimit(cfg: Config, events: seq<Event>, w: nat)
    requires ValidConfig(cfg) && Possible(cfg, events)
    ensures
      var p, look := PhaseOf(Reached(cfg, events), w), LastLook(cfg, events, w);
      && (look.None? ==> p.Idle?) && (Held(p) == [] ==> p.Idle? || p.Claiming?)
      && (look.Some? ==>
           && look.value.snapshot.Snapshot? && |Held(p)| <= look.value.snapshot.limit
           && (p.Claiming? ==> Tries(events, w) <= |look.value.snapshot.picked|))
      && (forall i, j :: 0 <= i < j < |Held(p)| ==> Held(p)[i].createdAt <= Held(p)[j].createdAt)
  {
    RunAccounts(cfg, events, w);
    hide Reached, Possible, Outdated;
  }

  /** The l-th id comes after the k-th and is held. */
  predicate HoldsLater(picked: seq<string>, held: seq<Job>, k: nat, l: nat) {
    k < l < |picked| && exists j :: 0 <= j < |held| && held[j].triggerId == picked[l]
  }

  /** When a worker is done claiming, every job it holds is a candidate of its snapshot, as the snapshot saw it but
      `triggering` since the worker's time; and a candidate that it does not hold, although it has room left or holds
      a later candidate, had been changed by others when its turn came. */
  lemma ClaimingTakesWhatIsLeft(cfg: Config, events: seq<Event>, w: nat, k: nat, l: nat)
    requires ValidConfig(cfg) && Possible(cfg, events) && Possible(cfg, events + [TryClaim(w)])
    requires !PhaseOf(Reached(cfg, events + [TryClaim(w)]), w).Claiming?
    ensures LastLook(cfg, events, w).Some? && LastLook(cfg, events, w).value.snapshot.Snapshot?
    ensures
      var look := LastLook(cfg, events, w).value;
      var picked, limit := look.snapshot.picked, look.snapshot.limit;
      var held := Held(PhaseOf(Reached(cfg, events + [TryClaim(w)]), w));
      && (forall j :: 0 <= j < |held| ==> exists i ::
           && 0 <= i < |picked| && picked[i] in look.rows
           && held[j] == look.rows[picked[i]].(status := Triggering, updatedAt := look.snapshot.now))
      && (k < |picked| && (forall job :: job in held ==> job.triggerId != picked[k])
          && (|held| < limit || HoldsLater(picked, held, k, l))
          ==> picked[k] in Outdated(cfg, events, w))
  {
    ViewsExtend(cfg, events, TryClaim(w), w);
    RunAccounts(cfg, events, w);
    AccountedIs(cfg, events, w);
    var s := Reached(cfg, events);
    WorkerIsLooking(cfg, s, TryClaim(w), w);
    TryIsStep(cfg, s, w);
    hide Reached, Possible, Step, Enabled, LastLook, Outdated, Tries, ClaimStep, Accounts, Accounted, HasChanged;
    var look, tries, outdated := LastLook(cfg, events, w).value, Tries(events, w), Outdated(cfg, events, w);
    DoneClaiming(s, w, look, tries, outdated);
    var held, picked := Held(PhaseOf(Reached(cfg, events + [TryClaim(w)]), w)), look.snapshot.picked;
    hide Held, GoodLook, Tried, PhaseOf, HoldsLater;
    forall j | 0 <= j < |held|
      ensures exists i ::
        && 0 <= i < |picked| && picked[i] in look.rows
        && held[j] == look.rows[picked[i]].(status := Triggering, updatedAt := look.snapshot.now)
    {
      HeldAreCandidates(look, tries, outdated, held, j);
    }
    if k < |picked| && (forall job :: job in held ==> job.triggerId != picked[k])
        && (|held| < look.snapshot.limit || HoldsLater(picked, held, k, l))
    {
      LeftOut(look, tries, outdated, held, k, l);
    }
  }

  /** At the end of claiming either the limit is reached or every candidate has had its turn. */
  lemma DoneClaiming(s: World, w: nat, look: Look, tries: nat, outdated: set<string>)
    requires PhaseOf(s, w).Claiming? && Accounts(look, tries, outdated, PhaseOf(s, w))
    requires !PhaseOf(ClaimStep(s, w), w).Claiming?
    ensures
      var held := Held(PhaseOf(ClaimStep(s, w), w));
      GoodLook(look) && Tried(look, tries, outdated, held)
        && (|held| < look.snapshot.limit ==> tries == |look.snapshot.picked|)
  {
    hide GoodLook, Tried, OldestFirst;
  }

  lemma HeldAreCandidates(look: Look, tries: nat, outdated: set<string>, held: seq<Job>, j: nat)
    requires GoodLook(look) && Tried(look, tries, outdated, held) && j < |held|
    ensures
      var picked := look.snapshot.picked;
      exists i ::
        && 0 <= i < |picked| && picked[i] in look.rows
        && held[j] == look.rows[picked[i]].(status := Triggering, updatedAt := look.snapshot.now)
  {
    assert IsCandidate(look, tries, held[j]);
  }

  /** A candidate that is not held has had its turn if all have, or if a later one is held. */
  lemma LeftOut(look: Look, tries: nat, outdated: set<string>, held: seq<Job>, k: nat, l: nat)
    requires GoodLook(look) && Tried(look, tries, outdated, held) && k < |look.snapshot.picked|
    requires forall job :: job in held ==> job.triggerId != look.snapshot.picked[k]
    requires tries == |look.snapshot.picked| || HoldsLater(look.snapshot.picked, held, k, l)
    ensures look.snapshot.picked[k] in outdated
  {
    var picked := look.snapshot.picked;
    if tries < |picked| {
      var j :| 0 <= j < |held| && held[j].triggerId == picked[l];
      assert IsCandidate(look, tries, held[j]);
    }
    assert picked[k] in outdated || Holds(look, held, k);
  }
}
