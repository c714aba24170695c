/** The status of one thread under three kinds of independent writers: the bridge handler, the operator CLI
    and the supervisor's auto-block. Every database statement is one atomic step; schedules are arbitrary. */
module ThreadLifecycle {
  import opened Wrappers
  import opened Reasons

  datatype ThreadStatus = Active | Blocked | Resolved | Closed

  function Successors(s: ThreadStatus): set<ThreadStatus> {
    match s
    case Active => {Blocked, Resolved, Closed}
    case Blocked => {Active, Closed}
    case Resolved => {Closed}
    case Closed => {}
  }

  predicate CanTransition(from: ThreadStatus, to: ThreadStatus) {
    from == to || to in Successors(from)
  }

  /** Everything a thread can still become. */
  function Reachable(s: ThreadStatus): set<ThreadStatus> {
    match s
    case Active => {Active, Blocked, Resolved, Closed}
    case Blocked => {Active, Blocked, Resolved, Closed}
    case Resolved => {Resolved, Closed}
    case Closed => {Closed}
  }

  /** The bridge can sit on two stores: one that checks and updates in one step, and the database one, which
      validates against a second read and guards its update with the first. */
  datatype Store = AtomicStore | DbStore

  datatype Writer =
    | Bridge(next: ThreadStatus, reason: string)
    | Operator(next: ThreadStatus, reason: string)
    | AutoBlock

  datatype Reply = Updated | Unchanged | Conflict | InvalidTransition | OverrideRequired | NotActive

  /** `existing` is the status the writer read first. */
  datatype Pc =
    | Start
    | BridgeUpdate(existing: ThreadStatus)
    | BridgeWrite(existing: ThreadStatus)
    | OperatorUpdate(existing: ThreadStatus)
    | Done(reply: Reply)

  /** One committed update. */
  datatype Edge = Edge(from: ThreadStatus, to: ThreadStatus, writer: nat)

  datatype World = World(status: ThreadStatus, pcs: map<nat, Pc>, history: seq<Edge>)

  const CREATED := World(Active, map[], [])

  type Writers = map<nat, Writer>

  function PcOf(s: World, w: nat): Pc {
    if w in s.pcs then s.pcs[w] else Start
  }

  predicate Disputed(existing: ThreadStatus, next: ThreadStatus) {
    existing.Blocked? && next.Closed?
  }

  function NextOf(w: Writer): ThreadStatus {
    if w.AutoBlock? then Blocked else w.next
  }

  predicate HasOverride(w: Writer) {
    !w.AutoBlock? && HasOverridePrefix(w.reason)
  }

  /** The outcome of one step: whether it commits the writer's status, and where the writer goes. */
  datatype Move = Move(commits: bool, pc: Pc)

  function MoveOf(store: Store, status: ThreadStatus, w: Writer, pc: Pc): Move {
    match pc
    case Start =>
      (match w
       case Bridge(next, reason) =>
         if Disputed(status, next) && !HasOverridePrefix(reason) then Move(false, Done(OverrideRequired))
         else Move(false, BridgeUpdate(status))
       case Operator(next, reason) =>
         if status == next then Move(false, Done(Unchanged))
         else if !CanTransition(status, next) then Move(false, Done(InvalidTransition))
         else if Disputed(status, next) && !HasOverridePrefix(reason) then Move(false, Done(OverrideRequired))
         else Move(false, OperatorUpdate(status))
       case AutoBlock =>
         if status.Active? then Move(true, Done(Updated)) else Move(false, Done(NotActive)))
    case BridgeUpdate(existing) =>
      if store.AtomicStore? then
        if status != existing then Move(false, Done(Conflict))
        else if !CanTransition(status, NextOf(w)) then Move(false, Done(InvalidTransition))
        else Move(true, Done(Updated))
      else
        if !CanTransition(status, NextOf(w)) then Move(false, Done(InvalidTransition))
        else Move(false, BridgeWrite(existing))
    case BridgeWrite(existing) => if status == existing then Move(true, Done(Updated)) else Move(false, Done(Conflict))
    case OperatorUpdate(existing) =>
      if status == existing then Move(true, Done(Updated)) else Move(false, Done(Conflict))
    case Done(_) => Move(false, pc)
  }

  function Step(store: Store, writers: Writers, s: World, w: nat): World {
    if w !in writers then s
    else
      var move := MoveOf(store, s.status, writers[w], PcOf(s, w));
      var pcs := s.pcs[w := move.pc];
      if move.commits then World(NextOf(writers[w]), pcs, s.history + [Edge(s.status, NextOf(writers[w]), w)])
      else s.(pcs := pcs)
  }

  function Run(store: Store, writers: Writers, schedule: seq<nat>): World {
    if schedule == [] then CREATED
    else Step(store, writers, Run(store, writers, schedule[..|schedule| - 1]), schedule[|schedule| - 1])
  }

  // ----- the invariant

  /** The edges the database store can commit: the transition map and one more. */
  predicate Possible(store: Store, from: ThreadStatus, to: ThreadStatus) {
    CanTransition(from, to) || (store.DbStore? && from.Blocked? && to.Resolved?)
  }

  /** The history leads from creation to the current status. */
  ghost predicate IsWalk(s: World) {
    && (s.history == [] ==> s.status.Active?)
    && (s.history != [] ==> s.history[0].from.Active? && s.history[|s.history| - 1].to == s.status)
    && forall i :: 0 < i < |s.history| ==> s.history[i].from == s.history[i - 1].to
  }

  ghost predicate EdgesOk(store: Store, writers: Writers, s: World) {
    forall i :: 0 <= i < |s.history| ==>
      var e := s.history[i];
      && e.writer in writers && e.to == NextOf(writers[e.writer])
      && Possible(store, e.from, e.to) && (writers[e.writer].AutoBlock? ==> e.from.Active?)
      && (Disputed(e.from, e.to) ==> HasOverride(writers[e.writer]))
  }

  /** What a writer knows about its first read. */
  predicate PcOk(store: Store, status: ThreadStatus, w: Writer, pc: Pc) {
    match pc
    case BridgeUpdate(existing) =>
      w.Bridge? && status in Reachable(existing) && (Disputed(existing, w.next) ==> HasOverridePrefix(w.reason))
    case BridgeWrite(existing) =>
      && store.DbStore? && w.Bridge? && status in Reachable(existing)
      && (Disputed(existing, w.next) ==> HasOverridePrefix(w.reason))
      && exists read :: read in Reachable(existing) && CanTransition(read, w.next)
    case OperatorUpdate(existing) =>
      w.Operator? && CanTransition(existing, w.next) && (Disputed(existing, w.next) ==> HasOverridePrefix(w.reason))
    case _ => true
  }

  ghost predicate Inv(store: Store, writers: Writers, s: World) {
    && IsWalk(s) && EdgesOk(store, writers, s)
    && forall w :: w in writers ==> PcOk(store, s.status, writers[w], PcOf(s, w))
  }

  lemma StepKeeps(store: Store, writers: Writers, s: World, w: nat)
    requires Inv(store, writers, s)
    ensures Inv(store, writers, Step(store, writers, s, w))
  {
    if w in writers {
      hide Inv;
      StepKeepsHistory(store, writers, s, w);
      StepKeepsPcs(store, writers, s, w);
      InvIntro(store, writers, Step(store, writers, s, w));
    }
  }

  lemma InvIntro(store: Store, writers: Writers, s: World)
    requires IsWalk(s) && EdgesOk(store, writers, s)
    requires forall w :: w in writers ==> PcOk(store, s.status, writers[w], PcOf(s, w))
    ensures Inv(store, writers, s)
  {
  }

  lemma StepKeepsHistory(store: Store, writers: Writers, s: World, w: nat)
    requires Inv(store, writers, s) && w in writers
    ensures IsWalk(Step(store, writers, s, w)) && EdgesOk(store, writers, Step(store, writers, s, w))
  {
    hide HasOverridePrefix;
    assert PcOk(store, s.status, writers[w], PcOf(s, w));
  }

  lemma StepKeepsPcs(store: Store, writers: Writers, s: World, w: nat)
    requires Inv(store, writers, s) && w in writers
    ensures forall v :: v in writers ==>
      PcOk(store, Step(store, writers, s, w).status, writers[v], PcOf(Step(store, writers, s, w), v))
  {
    hide IsWalk, EdgesOk, HasOverridePrefix;
    var t := Step(store, writers, s, w);
    assert PcOk(store, s.status, writers[w], PcOf(s, w));
    forall v | v in writers ensures PcOk(store, t.status, writers[v], PcOf(t, v)) {
      assert PcOk(store, s.status, writers[v], PcOf(s, v));
    }
  }

  lemma {:induction false} RunInv(store: Store, writers: Writers, schedule: seq<nat>)
    ensures Inv(store, writers, Run(store, writers, schedule))
  {
    if schedule != [] {
      hide Step, Inv;
      RunInv(store, writers, schedule[..|schedule| - 1]);
      StepKeeps(store, writers, Run(store, writers, schedule[..|schedule| - 1]), schedule[|schedule| - 1]);
    }
  }

  // ----- guarantees

  /** Through the atomic store the status history of every run is a walk from `active` to the current status along
      the six transitions of the domain, apart from updates that change nothing; each edge leads to the status its
      writer asked for, the supervisor's from `active` to `blocked`, and every blocked-to-closed edge carried an
      override reason. */
  lemma {:induction false} HistoryIsAWalk(writers: Writers, schedule: seq<nat>, i: nat)
    requires i < |Run(AtomicStore, writers, schedule).history|
    ensures
      var s := Run(AtomicStore, writers, schedule);
      var e := s.history[i];
      && (i == 0 ==> e.from == Active)
      && (i + 1 < |s.history| ==> s.history[i + 1].from == e.to)
      && (i + 1 == |s.history| ==> s.status == e.to)
      && (e.from == e.to || (e.from, e.to) in {(Active, Blocked), (Active, Resolved), (Active, Closed),
                                                (Blocked, Active), (Blocked, Closed), (Resolved, Closed)})
      && e.writer in writers
      && (writers[e.writer].AutoBlock? ==> (e.from, e.to) == (Active, Blocked))
      && (!writers[e.writer].AutoBlock? ==> e.to == writers[e.writer].next)
      && ((e.from, e.to) == (Blocked, Closed) ==>
           || "human_override:" <= writers[e.writer].reason || "coordinator_override:" <= writers[e.writer].reason)
  {
    RunInv(AtomicStore, writers, schedule);
  }

  /** Once closed, a thread stays closed, through either store. */
  lemma ClosedIsAbsorbing(store: Store, writers: Writers, schedule: seq<nat>, w: nat)
    requires Run(store, writers, schedule).status.Closed?
    ensures Run(store, writers, schedule + [w]).status.Closed?
  {
    RunInv(store, writers, schedule + [w]);
    RunInv(store, writers, schedule);
    assert (schedule + [w])[..|schedule|] == schedule;
    var s, t := Run(store, writers, schedule), Run(store, writers, schedule + [w]);
    assert t == Step(store, writers, s, w);
    hide Run, MoveOf;
    if |t.history| > |s.history| {
      var e := t.history[|s.history|];
      assert Possible(store, e.from, e.to);
    }
  }

  /** Once resolved, a thread can only be closed, through either store. */
  lemma {:induction false} ResolvedIsNotReopened(store: Store, writers: Writers, schedule: seq<nat>, more: seq<nat>)
    requires Run(store, writers, schedule).status.Resolved?
    ensures
      var status := Run(store, writers, schedule + more).status;
      status.Resolved? || status.Closed?
  {
    if more == [] {
      assert schedule + more == schedule;
    } else {
      var before, w := more[..|more| - 1], more[|more| - 1];
      ResolvedIsNotReopened(store, writers, schedule, before);
      assert schedule + more == (schedule + before) + [w];
      RunSnoc(store, writers, schedule + before, w);
      RunInv(store, writers, schedule + before);
      var s := Run(store, writers, schedule + before);
      hide Run, HasOverridePrefix;
      if w in writers {
        assert PcOk(store, s.status, writers[w], PcOf(s, w));
      }
    }
  }

  /** What a writer that nobody interrupts answers on a status: it commits exactly the six transitions of the domain,
      with an override reason for blocked-to-closed, and says why it refuses any other. */
  predicate Answers(writer: Writer, from: ThreadStatus, reply: Reply) {
    if writer.AutoBlock? then reply == if from == Active then Updated else NotActive
    else
      var listed := (from, writer.next) in {(Active, Blocked), (Active, Resolved), (Active, Closed),
                                            (Blocked, Active), (Blocked, Closed), (Resolved, Closed)};
      var excused := "human_override:" <= writer.reason || "coordinator_override:" <= writer.reason;
      && (reply == Unchanged <==> writer.Operator? && from == writer.next)
      && (reply == InvalidTransition <==> from != writer.next && !listed)
      && (reply == OverrideRequired <==> (from, writer.next) == (Blocked, Closed) && !excused)
      && (reply == Updated <==>
          || (writer.Bridge? && from == writer.next)
          || (listed && ((from, writer.next) != (Blocked, Closed) || excused)))
  }

  /** Left alone any writer finishes, through either store, in three steps: with the reply above, and with the status
      it asks for exactly if that reply is a success. */
  lemma UncontendedWriterCommits(store: Store, writers: Writers, s: World, w: nat)
    requires w in writers && PcOf(s, w).Start?
    ensures
      var t := Step(store, writers, Step(store, writers, Step(store, writers, s, w), w), w);
      var to := if writers[w].AutoBlock? then Blocked else writers[w].next;
      && PcOf(t, w).Done? && Answers(writers[w], s.status, PcOf(t, w).reply)
      && t.status == (if PcOf(t, w).reply.Updated? then to else s.status)
      && t.history == s.history + if PcOf(t, w).reply.Updated? then [Edge(s.status, to, w)] else []
  {
    var writer := writers[w];
    var read := MoveOf(store, s.status, writer, Start);
    var checked := if read.commits then read else MoveOf(store, s.status, writer, read.pc);
    var written := if checked.commits then checked else MoveOf(store, s.status, writer, checked.pc);
    MovesAnswer(store, s.status, writer);
    hide MoveOf, Answers;
    var r := Step(store, writers, s, w);
    var q := Step(store, writers, r, w);
    assert PcOf(r, w) == read.pc && (!read.commits ==> r.status == s.status && r.history == s.history);
    DoneStays(store, writers, r, w);
    DoneStays(store, writers, q, w);
  }

  lemma DoneStays(store: Store, writers: Writers, s: World, w: nat)
    requires w in writers
    ensures
      var t := Step(store, writers, s, w);
      PcOf(s, w).Done? ==> t.status == s.status && t.history == s.history && PcOf(t, w) == PcOf(s, w)
  {
  }

  /** The moves of a writer on one status. */
  lemma MovesAnswer(store: Store, status: ThreadStatus, writer: Writer)
    ensures
      var read := MoveOf(store, status, writer, Start);
      var checked := if read.commits then read else MoveOf(store, status, writer, read.pc);
      var written := if checked.commits then checked else MoveOf(store, status, writer, checked.pc);
      && (read.commits ==> read.pc.Done?) && (checked.commits ==> checked.pc.Done?)
      && written.pc.Done? && Answers(writer, status, written.pc.reply)
      && (written.commits <==> written.pc.reply.Updated?)
  {
  }

  /** Through the database store the override rule still holds for every committed edge, but an edge is in the
      transition map exactly when it is not blocked-to-resolved, which the caller can tell from the status it
      read and the status it asks for. */
  lemma {:induction false} DbEdgesExactly(writers: Writers, schedule: seq<nat>, i: nat)
    requires i < |Run(DbStore, writers, schedule).history|
    ensures
      var e := Run(DbStore, writers, schedule).history[i];
      && (e.from == e.to || (e.from, e.to) in {(Active, Blocked), (Active, Resolved), (Active, Closed),
                                                (Blocked, Active), (Blocked, Closed), (Resolved, Closed)}
          <==> (e.from, e.to) != (Blocked, Resolved))
      && e.writer in writers
      && ((e.from, e.to) == (Blocked, Resolved) ==> writers[e.writer].Bridge?)
      && (writers[e.writer].AutoBlock? ==> (e.from, e.to) == (Active, Blocked))
      && (!writers[e.writer].AutoBlock? ==> e.to == writers[e.writer].next)
      && ((e.from, e.to) == (Blocked, Closed) ==>
           || "human_override:" <= writers[e.writer].reason || "coordinator_override:" <= writers[e.writer].reason)
  {
    RunInv(DbStore, writers, schedule);
    RunBridgeEdges(writers, schedule);
  }

  /** Only the bridge can leave the transition map: the operator validates what it guards its update with. */
  ghost predicate OddEdgesAreBridges(writers: Writers, s: World) {
    forall i :: 0 <= i < |s.history| && !CanTransition(s.history[i].from, s.history[i].to) ==>
      s.history[i].writer in writers && writers[s.history[i].writer].Bridge?
  }

  lemma {:induction false} RunBridgeEdges(writers: Writers, schedule: seq<nat>)
    ensures OddEdgesAreBridges(writers, Run(DbStore, writers, schedule))
  {
    if schedule != [] {
      var before, w := schedule[..|schedule| - 1], schedule[|schedule| - 1];
      RunBridgeEdges(writers, before);
      RunInv(DbStore, writers, before);
      var s := Run(DbStore, writers, before);
      if w in writers {
        assert PcOk(DbStore, s.status, writers[w], PcOf(s, w));
      }
    }
  }

  lemma RunSnoc(store: Store, writers: Writers, schedule: seq<nat>, w: nat)
    ensures Run(store, writers, schedule + [w]) == Step(store, writers, Run(store, writers, schedule), w)
  {
    assert (schedule + [w])[..|schedule|] == schedule;
  }

  const RACE: Writers :=
    map[0 := AutoBlock, 1 := Bridge(Resolved, "done"), 2 := Operator(Active, "retry"), 3 := AutoBlock]

  /** The bridge has read `blocked`, and an operator has unblocked the thread since. */
  lemma RaceStarts()
    ensures
      var s := Run(DbStore, RACE, [0] + [1] + [2] + [2]);
      s.status.Active? && PcOf(s, 1) == BridgeUpdate(Blocked) && PcOf(s, 3).Start?
  {
    RunSnoc(DbStore, RACE, [], 0);
    assert [] + [0] == [0];
    RunSnoc(DbStore, RACE, [0], 1);
    RunSnoc(DbStore, RACE, [0] + [1], 2);
    RunSnoc(DbStore, RACE, [0] + [1] + [2], 2);
    assert Run(DbStore, RACE, []) == CREATED;
    hide Run;
  }

  /** It does happen: a bridge request reads `blocked`, validates `resolved` while an operator has the thread
      unblocked, and commits after it has been blocked again. */
  lemma DbStoreLeavesTheMap()
    ensures exists writers, schedule ::
      Edge(Blocked, Resolved, 1) in Run(DbStore, writers, schedule).history
  {
    hide Run;
    var start := [0] + [1] + [2] + [2];
    RaceStarts();
    RunSnoc(DbStore, RACE, start, 1);
    RunSnoc(DbStore, RACE, start + [1], 3);
    RunSnoc(DbStore, RACE, start + [1] + [3], 1);
    var s := Run(DbStore, RACE, start + [1] + [3]);
    assert s.status.Blocked? && PcOf(s, 1) == BridgeWrite(Blocked);
    var t := Run(DbStore, RACE, start + [1] + [3] + [1]);
    assert t.history == s.history + [Edge(Blocked, Resolved, 1)];
    assert t.history[|s.history|] in t.history;
  }
}
