/** Any number of supervisor workers over one database. Every SQL statement is one atomic step, and a tick
    is interleaved with every other tick wherever the source awaits: after the candidate read, after each
    claim, around the executor and around the record. Ticks of one process share that process's memory. */
module TriggerWorkers {
  import opened Wrappers
  import opened TriggerModel
  import opened TriggerDecision
  import opened TriggerProcessor

  datatype Phase =
    | Idle
    | Claiming(now: int, limit: nat, candidates: seq<Job>, claimed: seq<Job>)
    | Working(now: int, todo: seq<Job>)
    | Executing(now: int, job: Job, limited: Option<Outcome>, todo: seq<Job>)
    | Concluded(now: int, job: Job, verdict: Verdict, todo: seq<Job>)
    | Crashed(todo: seq<Job>)

  /** `executed` is the history of executor invocations, as (trigger, attempt number). */
  datatype World = World(
    rows: map<string, Job>, attempts: map<string, seq<Attempt>>, phases: map<nat, Phase>, processes: map<nat, nat>,
    memories: map<nat, Memory>, executed: seq<(string, nat)>)

  const EMPTY := World(map[], map[], map[], map[], map[], [])

  datatype Event =
    | Create(newJob: Job)
    | Snapshot(w: nat, process: nat, workspaceId: string, limit: nat, now: int, picked: seq<string>)
    | TryClaim(w: nat)
    | AdmitNext(w: nat)
    | Conclude(w: nat, reply: Reply)
    | Record(w: nat)

  function PhaseOf(s: World, w: nat): Phase {
    if w in s.phases then s.phases[w] else Idle
  }

  function ProcessOf(s: World, w: nat): nat {
    if w in s.processes then s.processes[w] else 0
  }

  function MemoryOf(s: World, p: nat): Memory {
    if p in s.memories then s.memories[p] else FRESH_MEMORY
  }

  function LogOf(s: World, id: string): seq<Attempt> {
    if id in s.attempts then s.attempts[id] else []
  }

  /** The jobs a worker has claimed and not yet recorded. */
  function Held(p: Phase): seq<Job> {
    match p
    case Idle => []
    case Claiming(_, _, _, claimed) => claimed
    case Working(_, todo) => todo
    case Executing(_, job, _, todo) => [job] + todo
    case Concluded(_, job, _, todo) => [job] + todo
    case Crashed(todo) => todo
  }

  /** What `trigger_participant` inserts. */
  predicate NewJob(job: Job) {
    && (job.status.Queued? || job.status.FallbackResume? || job.status.FallbackSpawn?)
    && job.attempts == 0 && job.nextRetryAt.None? && job.updatedAt == job.createdAt
  }

  /** The candidate query: due rows of the workspace in creation order, at most three times the limit. */
  ghost predicate CandidateQuery(rows: map<string, Job>, workspaceId: string, limit: nat, now: int,
                                 picked: seq<string>) {
    && |picked| <= 3 * limit
    && (forall i, j :: 0 <= i < j < |picked| ==> picked[i] != picked[j])
    && (forall id :: id in picked ==> id in rows && IsDue(rows[id], workspaceId, now))
    && (forall i, j :: 0 <= i <= j < |picked| ==> rows[picked[i]].createdAt <= rows[picked[j]].createdAt)
    && (forall id :: id in rows && id !in picked && IsDue(rows[id], workspaceId, now) ==>
         |picked| == 3 * limit && forall other :: other in picked ==> rows[other].createdAt <= rows[id].createdAt)
  }

  /** The `where` clause of the claim. */
  predicate ClaimMatches(rows: map<string, Job>, candidate: Job) {
    && candidate.triggerId in rows
    && rows[candidate.triggerId].status == candidate.status
    && rows[candidate.triggerId].updatedAt == candidate.updatedAt
  }

  ghost predicate Enabled(s: World, e: Event) {
    match e
    case Create(job) => NewJob(job)
    case Snapshot(w, _, workspaceId, limit, now, picked) =>
      PhaseOf(s, w).Idle? && CandidateQuery(s.rows, workspaceId, limit, now, picked)
    case TryClaim(w) => PhaseOf(s, w).Claiming?
    case AdmitNext(w) => PhaseOf(s, w).Working? && PhaseOf(s, w).todo != []
    case Conclude(w, reply) => PhaseOf(s, w).Executing? && GoodReply(reply)
    case Record(w) => PhaseOf(s, w).Concluded?
  }

  function Rows(rows: map<string, Job>, picked: seq<string>): seq<Job>
    requires forall id :: id in picked ==> id in rows
  {
    if picked == [] then [] else Rows(rows, picked[..|picked| - 1]) + [rows[picked[|picked| - 1]]]
  }

  function WorkLeft(now: int, todo: seq<Job>): Phase {
    if todo == [] then Idle else Working(now, todo)
  }

  function ClaimStep(s: World, w: nat): World
    requires PhaseOf(s, w).Claiming?
  {
    var p := PhaseOf(s, w);
    if |p.claimed| >= p.limit || p.candidates == [] then
      s.(phases := s.phases[w := WorkLeft(p.now, p.claimed)])
    else
      var c := p.candidates[0];
      if ClaimMatches(s.rows, c) then
        var row := Claimed(s.rows[c.triggerId], p.now);
        s.(rows := s.rows[c.triggerId := row],
           phases := s.phases[w := p.(candidates := p.candidates[1..], claimed := p.claimed + [row])])
      else
        s.(phases := s.phases[w := p.(candidates := p.candidates[1..])])
  }

  function AdmitStep(cfg: Config, s: World, w: nat): World
    requires PhaseOf(s, w).Working? && PhaseOf(s, w).todo != []
  {
    var p := PhaseOf(s, w);
    var job := p.todo[0];
    var (memory, limited) := Admit(cfg, MemoryOf(s, ProcessOf(s, w)), job, p.now);
    s.(memories := s.memories[ProcessOf(s, w) := memory],
       phases := s.phases[w := Executing(p.now, job, limited, p.todo[1..])],
       executed := if limited.None? then s.executed + [(job.triggerId, job.attempts + 1)] else s.executed)
  }

  function ConcludeStep(cfg: Config, s: World, w: nat, reply: Reply): World
    requires PhaseOf(s, w).Executing?
  {
    var p := PhaseOf(s, w);
    var decided := Decide(cfg, p.job, p.now, p.limited.GetOr(reply.outcome), reply.fallback);
    var (memory, block) := TakeTurn(cfg, MemoryOf(s, ProcessOf(s, w)), p.job.threadId, TurnOf(decided.outcome));
    s.(memories := s.memories[ProcessOf(s, w) := memory],
       phases := s.phases[w := Concluded(p.now, p.job, if block.Some? then AutoBlocked(decided) else decided, p.todo)])
  }

  /** The record transaction. The insert fails on a duplicate attempt number, which ends the tick; the update
      applies only to a row that is still `triggering`. */
  function RecordStep(s: World, w: nat): World
    requires PhaseOf(s, w).Concluded?
  {
    var p := PhaseOf(s, w);
    var id, v := p.job.triggerId, p.verdict;
    var attempt := Attempt(p.job.attempts + 1, v.outcome.result, v.outcome.errorCode, p.now);
    if exists i :: 0 <= i < |LogOf(s, id)| && LogOf(s, id)[i].attemptNo == attempt.attemptNo then
      s.(phases := s.phases[w := Crashed(Held(p))])
    else
      var rows := if id in s.rows && s.rows[id].status.Triggering?
                  then s.rows[id := s.rows[id].(attempts := attempt.attemptNo, status := v.nextStatus,
                                                nextRetryAt := v.nextRetryAt, updatedAt := p.now)]
                  else s.rows;
      s.(attempts := s.attempts[id := LogOf(s, id) + [attempt]], rows := rows,
         phases := s.phases[w := WorkLeft(p.now, p.todo)])
  }

  function Step(cfg: Config, s: World, e: Event): World
    requires Enabled(s, e)
  {
    match e
    case Create(job) => if job.triggerId in s.rows then s else s.(rows := s.rows[job.triggerId := job])
    case Snapshot(w, process, workspaceId, limit, now, picked) =>
      s.(phases := s.phases[w := Claiming(now, limit, Rows(s.rows, picked), [])],
         processes := s.processes[w := process])
    case TryClaim(w) => ClaimStep(s, w)
    case AdmitNext(w) => AdmitStep(cfg, s, w)
    case Conclude(w, reply) => ConcludeStep(cfg, s, w, reply)
    case Record(w) => RecordStep(s, w)
  }

  // ----- the invariant

  /** What can have happened to a row since a snapshot saw it as `seen`: nothing, or it can never again match
      the snapshot's status and timestamp. No clock is shared: only the row's own retry time is used. */
  predicate Since(seen: Job, row: Job) {
    || row == seen
    || (if seen.status.Queued? then !row.status.Queued? else row.attempts >= 1 && row.updatedAt > seen.updatedAt)
  }

  ghost predicate RowsOk(cfg: Config, s: World) {
    forall id :: id in s.rows ==> s.rows[id].triggerId == id && Shape(cfg, s.rows[id])
  }

  /** Attempt rows are numbered 1..attempts in order. */
  ghost predicate LogOk(s: World) {
    && (forall id :: id in s.attempts ==> id in s.rows)
    && forall id :: id in s.rows ==>
         |LogOf(s, id)| == s.rows[id].attempts &&
         forall i :: 0 <= i < |LogOf(s, id)| ==> LogOf(s, id)[i].attemptNo == i + 1
  }

  function NowOf(p: Phase): int {
    match p
    case Claiming(now, _, _, _) => now
    case Working(now, _) => now
    case Executing(now, _, _, _) => now
    case Concluded(now, _, _, _) => now
    case _ => 0
  }

  /** A held job's row is exactly as it was claimed. */
  ghost predicate HoldsRows(rows: map<string, Job>, p: Phase) {
    forall i :: 0 <= i < |Held(p)| ==>
      var job := Held(p)[i];
      job.triggerId in rows && rows[job.triggerId] == job && job.status.Triggering? && job.updatedAt == NowOf(p)
  }

  ghost predicate Exclusive(s: World) {
    forall w, v, i, j | 0 <= i < |Held(PhaseOf(s, w))| && 0 <= j < |Held(PhaseOf(s, v))| ::
      Held(PhaseOf(s, w))[i].triggerId == Held(PhaseOf(s, v))[j].triggerId ==> w == v && i == j
  }

  ghost predicate HeldBy(s: World, w: nat, id: string) {
    exists i :: 0 <= i < |Held(PhaseOf(s, w))| && Held(PhaseOf(s, w))[i].triggerId == id
  }

  /** Nothing is stranded: a `triggering` row is in some worker's hands. */
  ghost predicate Covered(s: World) {
    forall id :: id in s.rows && s.rows[id].status.Triggering? ==> exists w :: HeldBy(s, w, id)
  }

  ghost predicate CandidatesOk(cfg: Config, rows: map<string, Job>, p: Phase) {
    p.Claiming? ==> forall i :: 0 <= i < |p.candidates| ==>
      var c := p.candidates[i];
      && Shape(cfg, c) && DueStatus(c.status) && (c.nextRetryAt.None? || c.nextRetryAt.value <= p.now)
      && c.triggerId in rows && Since(c, rows[c.triggerId])
  }

  function RecordedRow(job: Job, v: Verdict): Job {
    job.(attempts := job.attempts + 1, status := v.nextStatus, nextRetryAt := v.nextRetryAt)
  }

  ghost predicate PendingOk(cfg: Config, p: Phase) {
    && !p.Crashed?
    && (p.Executing? && p.limited.Some? ==> ExecutorContract(p.limited.value))
    && (p.Concluded? ==>
         var row := RecordedRow(p.job, p.verdict);
         Shape(cfg, row) && !row.status.Queued? && !row.status.Triggering?)
  }

  ghost predicate Active(p: Phase, id: string) {
    (p.Executing? || p.Concluded?) && p.job.triggerId == id
  }

  /** The executor ran at most once per attempt number, and never for a number beyond the one in progress. */
  ghost predicate ExecutedOnce(s: World) {
    && (forall i, j :: 0 <= i < j < |s.executed| ==> s.executed[i] != s.executed[j])
    && forall i :: 0 <= i < |s.executed| ==>
         var (id, n) := s.executed[i];
         id in s.rows && (n <= s.rows[id].attempts
                             || (n == s.rows[id].attempts + 1 && exists w :: Active(PhaseOf(s, w), id)))
  }

  ghost predicate WorkersOk(cfg: Config, s: World) {
    forall w :: HoldsRows(s.rows, PhaseOf(s, w)) && CandidatesOk(cfg, s.rows, PhaseOf(s, w))
      && PendingOk(cfg, PhaseOf(s, w))
  }

  ghost predicate Inv(cfg: Config, s: World) {
    && ValidConfig(cfg)
    && RowsOk(cfg, s) && LogOk(s) && WorkersOk(cfg, s) && Exclusive(s) && Covered(s) && ExecutedOnce(s)
  }

  lemma EmptyInv(cfg: Config)
    requires ValidConfig(cfg)
    ensures Inv(cfg, EMPTY)
  {
  }

  // ----- steps that leave the rows alone

  /** Everything but `w`'s phase is untouched, and `w` holds what it held. */
  ghost predicate OnlyPhase(s: World, t: World, w: nat) {
    && t.rows == s.rows && t.attempts == s.attempts
    && (forall v :: v != w ==> PhaseOf(t, v) == PhaseOf(s, v))
    && Held(PhaseOf(t, w)) == Held(PhaseOf(s, w))
    && (Held(PhaseOf(t, w)) != [] ==> NowOf(PhaseOf(t, w)) == NowOf(PhaseOf(s, w)))
  }

  lemma OnlyPhaseKeepsWorkers(cfg: Config, s: World, t: World, w: nat)
    requires WorkersOk(cfg, s) && OnlyPhase(s, t, w)
    requires CandidatesOk(cfg, t.rows, PhaseOf(t, w)) && PendingOk(cfg, PhaseOf(t, w))
    ensures WorkersOk(cfg, t)
  {
    hide CandidatesOk, PendingOk, Held, NowOf, PhaseOf;
    forall v ensures HoldsRows(t.rows, PhaseOf(t, v)) && CandidatesOk(cfg, t.rows, PhaseOf(t, v))
      && PendingOk(cfg, PhaseOf(t, v)) {
      assert HoldsRows(s.rows, PhaseOf(s, v)) && CandidatesOk(cfg, s.rows, PhaseOf(s, v))
        && PendingOk(cfg, PhaseOf(s, v));
    }
  }

  lemma OnlyPhaseKeepsHolders(s: World, t: World, w: nat)
    requires OnlyPhase(s, t, w)
    ensures Exclusive(s) ==> Exclusive(t)
    ensures Covered(s) ==> Covered(t)
  {
    hide NowOf, PhaseOf;
    assert forall v :: Held(PhaseOf(t, v)) == Held(PhaseOf(s, v));
    hide Held;
    if Covered(s) {
      forall id | id in t.rows && t.rows[id].status.Triggering? ensures exists v :: HeldBy(t, v, id) {
        var v :| HeldBy(s, v, id);
        assert HeldBy(t, v, id);
      }
    }
  }

  lemma OnlyPhaseKeeps(cfg: Config, s: World, t: World, w: nat)
    requires Inv(cfg, s) && OnlyPhase(s, t, w)
    requires CandidatesOk(cfg, t.rows, PhaseOf(t, w)) && PendingOk(cfg, PhaseOf(t, w))
    ensures RowsOk(cfg, t) && LogOk(t) && WorkersOk(cfg, t) && Exclusive(t) && Covered(t)
  {
    hide CandidatesOk, PendingOk, Held, NowOf, PhaseOf, WorkersOk, Exclusive, Covered, ExecutedOnce, Shape;
    OnlyPhaseKeepsWorkers(cfg, s, t, w);
    OnlyPhaseKeepsHolders(s, t, w);
  }

  lemma {:induction false} RowsAt(rows: map<string, Job>, picked: seq<string>, i: nat)
    requires i < |picked| && forall id :: id in picked ==> id in rows
    ensures |Rows(rows, picked)| == |picked| && Rows(rows, picked)[i] == rows[picked[i]]
  {
    var init := picked[..|picked| - 1];
    if i < |init| {
      RowsAt(rows, init, i);
    } else if init != [] {
      RowsAt(rows, init, 0);
    }
  }

  lemma PickedAreOk(cfg: Config, s: World, e: Event, i: nat)
    requires RowsOk(cfg, s) && e.Snapshot? && Enabled(s, e) && i < |e.picked|
    requires forall id :: id in e.picked ==> id in s.rows && IsDue(s.rows[id], e.workspaceId, e.now)
    ensures |Rows(s.rows, e.picked)| == |e.picked|
    ensures
      var c := Rows(s.rows, e.picked)[i];
      && Shape(cfg, c) && DueStatus(c.status) && (c.nextRetryAt.None? || c.nextRetryAt.value <= e.now)
      && c.triggerId in s.rows && Since(c, s.rows[c.triggerId])
  {
    hide Shape, Enabled;
    assert e.picked[i] in e.picked;
    RowsAt(s.rows, e.picked, i);
  }

  lemma {:induction false} RowsLength(rows: map<string, Job>, picked: seq<string>)
    requires forall id :: id in picked ==> id in rows
    ensures |Rows(rows, picked)| == |picked|
  {
    if picked != [] {
      RowsLength(rows, picked[..|picked| - 1]);
    }
  }

  lemma SnapshotCandidates(cfg: Config, s: World, e: Event)
    requires Inv(cfg, s) && e.Snapshot? && Enabled(s, e)
    ensures
      var t := Step(cfg, s, e);
      && CandidatesOk(cfg, t.rows, PhaseOf(t, e.w)) && PendingOk(cfg, PhaseOf(t, e.w)) && OnlyPhase(s, t, e.w)
      && t.executed == s.executed && !PhaseOf(s, e.w).Executing? && !PhaseOf(s, e.w).Concluded?
  {
    assert RowsOk(cfg, s);
    hide Shape, Since, Inv, Step, Enabled, RowsOk, Rows;
    RowsLength(s.rows, e.picked);
    var p := PhaseOf(Step(cfg, s, e), e.w);
    forall i | 0 <= i < |p.candidates|
      ensures
        var c := p.candidates[i];
        && Shape(cfg, c) && DueStatus(c.status) && (c.nextRetryAt.None? || c.nextRetryAt.value <= e.now)
        && c.triggerId in s.rows && Since(c, s.rows[c.triggerId])
    {
      PickedAreOk(cfg, s, e, i);
    }
  }

  lemma SnapshotKeeps(cfg: Config, s: World, e: Event)
    requires Inv(cfg, s) && e.Snapshot? && Enabled(s, e)
    ensures Inv(cfg, Step(cfg, s, e))
  {
    SnapshotCandidates(cfg, s, e);
    hide Step, Enabled, RowsOk, LogOk, WorkersOk, Exclusive, Covered, ExecutedOnce, CandidatesOk, PendingOk;
    var t := Step(cfg, s, e);
    OnlyPhaseKeeps(cfg, s, t, e.w);
    ActiveElsewhere(s, t, e.w);
  }

  /** Invocations stay accounted for when a step of an inactive worker leaves it inactive. */
  lemma ActiveElsewhere(s: World, t: World, w: nat)
    requires ExecutedOnce(s) && t.executed == s.executed
    requires forall id :: id in s.rows ==> id in t.rows && t.rows[id].attempts == s.rows[id].attempts
    requires forall v :: v != w ==> PhaseOf(t, v) == PhaseOf(s, v)
    requires forall id :: Active(PhaseOf(s, w), id) ==> Active(PhaseOf(t, w), id)
    ensures ExecutedOnce(t)
  {
    forall i | 0 <= i < |t.executed|
      ensures var (id, n) := t.executed[i];
        id in t.rows && (n <= t.rows[id].attempts
                            || (n == t.rows[id].attempts + 1 && exists v :: Active(PhaseOf(t, v), id)))
    {
      var (id, n) := s.executed[i];
      if n > s.rows[id].attempts {
        var v :| Active(PhaseOf(s, v), id);
        assert Active(PhaseOf(t, v), id);
      }
    }
  }

  // ----- the claim

  /** The compare-and-swap matches exactly when the row is still the one the snapshot saw: there is no ABA. */
  lemma MatchMeansUnchanged(cfg: Config, s: World, w: nat)
    requires Inv(cfg, s) && PhaseOf(s, w).Claiming? && PhaseOf(s, w).candidates != []
    ensures
      var p := PhaseOf(s, w);
      var c := p.candidates[0];
      && c.triggerId in s.rows
      && (ClaimMatches(s.rows, c) <==> s.rows[c.triggerId] == c)
      && DueStatus(c.status) && (c.nextRetryAt.None? || c.nextRetryAt.value <= p.now)
  {
    assert CandidatesOk(cfg, s.rows, PhaseOf(s, w));
  }

  lemma ClaimLeavesSnapshots(cfg: Config, seen: Job, row: Job, now: int)
    requires ValidConfig(cfg) && Shape(cfg, seen) && DueStatus(seen.status)
    requires Shape(cfg, row) && DueStatus(row.status) && (row.nextRetryAt.None? || row.nextRetryAt.value <= now)
    requires Since(seen, row)
    ensures Since(seen, Claimed(row, now)) && Shape(cfg, Claimed(row, now))
  {
    BackoffMonotone(cfg, row.attempts, row.attempts);
  }

  /** The state right after a successful claim of row `c` by `w`. */
  ghost predicate ClaimedBy(s: World, t: World, w: nat, c: Job) {
    var p := PhaseOf(s, w);
    && p.Claiming? && p.candidates != [] && p.candidates[0] == c
    && c.triggerId in s.rows && s.rows[c.triggerId] == c
    && t.rows == s.rows[c.triggerId := Claimed(c, p.now)] && t.attempts == s.attempts && t.executed == s.executed
    && PhaseOf(t, w) == p.(candidates := p.candidates[1..], claimed := p.claimed + [Claimed(c, p.now)])
    && forall v :: v != w ==> PhaseOf(t, v) == PhaseOf(s, v)
  }

  lemma ClaimKeepsCandidates(cfg: Config, s: World, t: World, w: nat, c: Job, v: nat)
    requires Inv(cfg, s) && ClaimedBy(s, t, w, c)
    ensures CandidatesOk(cfg, t.rows, PhaseOf(t, v))
  {
    hide Shape, Since;
    MatchMeansUnchanged(cfg, s, w);
    assert CandidatesOk(cfg, s.rows, PhaseOf(s, v));
    assert CandidatesOk(cfg, s.rows, PhaseOf(s, w));
    var p := PhaseOf(t, v);
    if p.Claiming? {
      forall i | 0 <= i < |p.candidates|
        ensures var seen := p.candidates[i];
          && Shape(cfg, seen) && DueStatus(seen.status) && (seen.nextRetryAt.None? || seen.nextRetryAt.value <= p.now)
          && seen.triggerId in t.rows && Since(seen, t.rows[seen.triggerId])
      {
        var seen := p.candidates[i];
        assert seen == PhaseOf(s, v).candidates[if v == w then i + 1 else i];
        if seen.triggerId == c.triggerId {
          ClaimLeavesSnapshots(cfg, seen, c, PhaseOf(s, w).now);
        }
      }
    }
  }

  lemma ClaimKeepsHeld(cfg: Config, s: World, t: World, w: nat, c: Job, v: nat)
    requires Inv(cfg, s) && ClaimedBy(s, t, w, c)
    ensures HoldsRows(t.rows, PhaseOf(t, v)) && PendingOk(cfg, PhaseOf(t, v))
  {
    hide Shape, Since, CandidatesOk;
    MatchMeansUnchanged(cfg, s, w);
    assert HoldsRows(s.rows, PhaseOf(s, v)) && PendingOk(cfg, PhaseOf(s, v));
    var before, held := Held(PhaseOf(s, v)), Held(PhaseOf(t, v));
    assert held == before + (if v == w then [Claimed(c, PhaseOf(s, w).now)] else []);
    forall i | 0 <= i < |held|
      ensures held[i].triggerId in t.rows && t.rows[held[i].triggerId] == held[i]
      ensures held[i].status.Triggering? && held[i].updatedAt == NowOf(PhaseOf(t, v))
    {
      if i < |before| {
        assert held[i] == before[i];
        assert s.rows[before[i].triggerId] == before[i];
      }
    }
  }

  lemma HeldAfterClaim(s: World, t: World, w: nat, c: Job, v: nat)
    requires ClaimedBy(s, t, w, c)
    ensures Held(PhaseOf(t, v)) == Held(PhaseOf(s, v)) + (if v == w then [Claimed(c, PhaseOf(s, w).now)] else [])
  {
  }

  /** A due row is in nobody's hands. */
  lemma DueRowIsFree(cfg: Config, s: World, id: string, v: nat, i: nat)
    requires Inv(cfg, s) && id in s.rows && DueStatus(s.rows[id].status)
    requires i < |Held(PhaseOf(s, v))|
    ensures Held(PhaseOf(s, v))[i].triggerId != id
  {
    hide Shape, Since, CandidatesOk, PendingOk, Exclusive, Covered, ExecutedOnce;
    assert HoldsRows(s.rows, PhaseOf(s, v));
    var job := Held(PhaseOf(s, v))[i];
    assert s.rows[job.triggerId] == job;
  }

  lemma ClaimKeepsExclusive(cfg: Config, s: World, t: World, w: nat, c: Job)
    requires Inv(cfg, s) && ClaimedBy(s, t, w, c)
    ensures Exclusive(t)
  {
    MatchMeansUnchanged(cfg, s, w);
    hide *;
    forall v, u, i, j | 0 <= i < |Held(PhaseOf(t, v))| && 0 <= j < |Held(PhaseOf(t, u))|
        && Held(PhaseOf(t, v))[i].triggerId == Held(PhaseOf(t, u))[j].triggerId
      ensures v == u && i == j
    {
      ClaimKeepsPairExclusive(cfg, s, t, w, c, v, u, i, j);
    }
    ExclusiveIntro(t);
  }

  lemma ExclusiveIntro(s: World)
    requires forall w, v, i, j | 0 <= i < |Held(PhaseOf(s, w))| && 0 <= j < |Held(PhaseOf(s, v))| ::
      Held(PhaseOf(s, w))[i].triggerId == Held(PhaseOf(s, v))[j].triggerId ==> w == v && i == j
    ensures Exclusive(s)
  {
  }

  lemma ClaimKeepsPairExclusive(cfg: Config, s: World, t: World, w: nat, c: Job, v: nat, u: nat, i: nat, j: nat)
    requires Inv(cfg, s) && ClaimedBy(s, t, w, c) && DueStatus(c.status)
    requires i < |Held(PhaseOf(t, v))| && j < |Held(PhaseOf(t, u))|
    requires Held(PhaseOf(t, v))[i].triggerId == Held(PhaseOf(t, u))[j].triggerId
    ensures v == u && i == j
  {
    hide *;
    ClaimFacts(cfg, s, t, w, c);
    HeldAfterClaim(s, t, w, c, v);
    HeldAfterClaim(s, t, w, c, u);
    if i < |Held(PhaseOf(s, v))| {
      DueRowIsFree(cfg, s, c.triggerId, v, i);
    }
    if j < |Held(PhaseOf(s, u))| {
      DueRowIsFree(cfg, s, c.triggerId, u, j);
    }
    if i < |Held(PhaseOf(s, v))| && j < |Held(PhaseOf(s, u))| {
      ExclusivePair(s, v, u, i, j);
    }
    ClaimedId(c, PhaseOf(s, w).now);
  }

  lemma ClaimedId(job: Job, now: int)
    ensures Claimed(job, now).triggerId == job.triggerId
  {
  }

  lemma ClaimFacts(cfg: Config, s: World, t: World, w: nat, c: Job)
    requires Inv(cfg, s) && ClaimedBy(s, t, w, c)
    ensures c.triggerId in s.rows && s.rows[c.triggerId] == c && Exclusive(s) && PhaseOf(s, w).Claiming?
  {
  }

  lemma ExclusivePair(s: World, v: nat, u: nat, i: nat, j: nat)
    requires Exclusive(s) && i < |Held(PhaseOf(s, v))| && j < |Held(PhaseOf(s, u))|
    requires Held(PhaseOf(s, v))[i].triggerId == Held(PhaseOf(s, u))[j].triggerId
    ensures v == u && i == j
  {
  }

  lemma ClaimKeepsCovered(cfg: Config, s: World, t: World, w: nat, c: Job)
    requires Inv(cfg, s) && ClaimedBy(s, t, w, c)
    ensures Covered(t)
  {
    hide Shape, Since, CandidatesOk, PendingOk, Exclusive, WorkersOk, ExecutedOnce;
    forall id | id in t.rows && t.rows[id].status.Triggering? ensures exists v :: HeldBy(t, v, id) {
      if id == c.triggerId {
        HeldAfterClaim(s, t, w, c, w);
        var held := Held(PhaseOf(t, w));
        assert held[|held| - 1].triggerId == id;
        assert HeldBy(t, w, id);
      } else {
        var v :| HeldBy(s, v, id);
        HeldAfterClaim(s, t, w, c, v);
        var i :| 0 <= i < |Held(PhaseOf(s, v))| && Held(PhaseOf(s, v))[i].triggerId == id;
        assert Held(PhaseOf(t, v))[i].triggerId == id;
        assert HeldBy(t, v, id);
      }
    }
  }

  lemma ClaimKeepsRows(cfg: Config, s: World, t: World, w: nat, c: Job)
    requires Inv(cfg, s) && ClaimedBy(s, t, w, c)
    ensures RowsOk(cfg, t) && LogOk(t)
  {
    MatchMeansUnchanged(cfg, s, w);
    ClaimLeavesSnapshots(cfg, c, c, PhaseOf(s, w).now);
    hide Shape, Since, WorkersOk, Exclusive, Covered, ExecutedOnce;
  }

  lemma ClaimKeepsTables(cfg: Config, s: World, t: World, w: nat, c: Job)
    requires Inv(cfg, s) && ClaimedBy(s, t, w, c)
    ensures RowsOk(cfg, t) && LogOk(t) && ExecutedOnce(t)
  {
    ClaimKeepsRows(cfg, s, t, w, c);
    hide Shape, Since, RowsOk, LogOk, WorkersOk, Exclusive, Covered;
    ActiveElsewhere(s, t, w);
  }

  lemma ClaimKeeps(cfg: Config, s: World, w: nat)
    requires Inv(cfg, s) && PhaseOf(s, w).Claiming?
    ensures Inv(cfg, ClaimStep(s, w))
  {
    hide Shape, Since, ExecutedOnce, Exclusive, Covered, RowsOk, LogOk;
    var p := PhaseOf(s, w);
    var t := ClaimStep(s, w);
    assert CandidatesOk(cfg, s.rows, p) && PendingOk(cfg, p);
    if |p.claimed| < p.limit && p.candidates != [] && ClaimMatches(s.rows, p.candidates[0]) {
      MatchMeansUnchanged(cfg, s, w);
      var c := p.candidates[0];
      assert ClaimedBy(s, t, w, c);
      ClaimKeepsTables(cfg, s, t, w, c);
      ClaimKeepsExclusive(cfg, s, t, w, c);
      ClaimKeepsCovered(cfg, s, t, w, c);
      forall v ensures HoldsRows(t.rows, PhaseOf(t, v)) && CandidatesOk(cfg, t.rows, PhaseOf(t, v))
        && PendingOk(cfg, PhaseOf(t, v)) {
        ClaimKeepsHeld(cfg, s, t, w, c, v);
        ClaimKeepsCandidates(cfg, s, t, w, c, v);
      }
    } else {
      OnlyPhaseKeeps(cfg, s, t, w);
      ActiveElsewhere(s, t, w);
    }
  }

  // ----- executor and decision

  /** The limiter's own deferral meets the executor contract. */
  lemma LimiterMeetsContract(cfg: Config, events: seq<int>, now: int)
    requires ValidConfig(cfg)
    ensures RateLimit(cfg, events, now).limited.Some? ==> ExecutorContract(RateLimit(cfg, events, now).limited.value)
  {
  }

  lemma AdmitKeeps(cfg: Config, s: World, w: nat)
    requires Inv(cfg, s) && PhaseOf(s, w).Working? && PhaseOf(s, w).todo != []
    ensures Inv(cfg, AdmitStep(cfg, s, w))
  {
    hide Shape, Since, RateLimit, Exclusive, Covered, RowsOk, LogOk;
    var p := PhaseOf(s, w);
    var t := AdmitStep(cfg, s, w);
    var job := p.todo[0];
    LimiterMeetsContract(cfg, EventsOf(MemoryOf(s, ProcessOf(s, w)), KeyOf(job)), p.now);
    assert p.todo == [job] + p.todo[1..];
    OnlyPhaseKeeps(cfg, s, t, w);
    AdmitExecutesOnce(cfg, s, w);
  }

  lemma AdmitFacts(cfg: Config, s: World, w: nat)
    requires PhaseOf(s, w).Working? && PhaseOf(s, w).todo != []
    ensures
      var t := AdmitStep(cfg, s, w);
      var job := PhaseOf(s, w).todo[0];
      && t.rows == s.rows
      && PhaseOf(t, w).Executing? && PhaseOf(t, w).job == job
      && (forall v :: v != w ==> PhaseOf(t, v) == PhaseOf(s, v))
      && (t.executed == s.executed || t.executed == s.executed + [(job.triggerId, job.attempts + 1)])
  {
    hide RateLimit;
  }

  /** A job that is about to be executed was never executed under this attempt number. */
  lemma AdmitIsFresh(cfg: Config, s: World, w: nat, k: nat)
    requires Inv(cfg, s) && PhaseOf(s, w).Working? && PhaseOf(s, w).todo != [] && k < |s.executed|
    ensures
      var job := PhaseOf(s, w).todo[0];
      && job.triggerId in s.rows && s.rows[job.triggerId] == job
      && s.executed[k] != (job.triggerId, job.attempts + 1)
  {
    WorkingJobRow(cfg, s, w);
    hide Shape, Since, CandidatesOk, PendingOk, Covered, RowsOk, LogOk, Exclusive;
    var job := PhaseOf(s, w).todo[0];
    if s.executed[k] == (job.triggerId, job.attempts + 1) {
      var v :| Active(PhaseOf(s, v), job.triggerId);
      OneHolder(s, v, w);
    }
  }

  lemma OneHolder(s: World, v: nat, w: nat)
    requires Exclusive(s) && Held(PhaseOf(s, v)) != [] && Held(PhaseOf(s, w)) != []
    requires Held(PhaseOf(s, v))[0].triggerId == Held(PhaseOf(s, w))[0].triggerId
    ensures v == w
  {
  }

  lemma AdmitExecutesOnce(cfg: Config, s: World, w: nat)
    requires Inv(cfg, s) && PhaseOf(s, w).Working? && PhaseOf(s, w).todo != []
    ensures ExecutedOnce(AdmitStep(cfg, s, w))
  {
    hide Shape, Since, CandidatesOk, PendingOk, Covered, RowsOk, LogOk, Exclusive, WorkersOk, AdmitStep;
    var t := AdmitStep(cfg, s, w);
    AdmitFacts(cfg, s, w);
    var job := PhaseOf(s, w).todo[0];
    WorkingJobRow(cfg, s, w);
    forall k | 0 <= k < |s.executed| ensures s.executed[k] != (job.triggerId, job.attempts + 1) {
      AdmitIsFresh(cfg, s, w, k);
    }
    forall i | 0 <= i < |t.executed|
      ensures var (id, n) := t.executed[i];
        id in t.rows && (n <= t.rows[id].attempts
                            || (n == t.rows[id].attempts + 1 && exists v :: Active(PhaseOf(t, v), id)))
    {
      if i < |s.executed| {
        var (id, n) := s.executed[i];
        assert t.executed[i] == (id, n);
        if n > s.rows[id].attempts {
          var v :| Active(PhaseOf(s, v), id);
          assert Active(PhaseOf(t, v), id);
        }
      } else {
        assert Active(PhaseOf(t, w), job.triggerId);
      }
    }
  }

  lemma WorkingJobRow(cfg: Config, s: World, w: nat)
    requires Inv(cfg, s) && Held(PhaseOf(s, w)) != []
    ensures
      var job := Held(PhaseOf(s, w))[0];
      job.triggerId in s.rows && s.rows[job.triggerId] == job && job.status.Triggering?
        && job.updatedAt == NowOf(PhaseOf(s, w))
  {
    assert HoldsRows(s.rows, PhaseOf(s, w));
  }

  lemma ConcludeKeeps(cfg: Config, s: World, w: nat, reply: Reply)
    requires Inv(cfg, s) && PhaseOf(s, w).Executing? && GoodReply(reply)
    ensures Inv(cfg, ConcludeStep(cfg, s, w, reply))
  {
    var p := PhaseOf(s, w);
    var t := ConcludeStep(cfg, s, w, reply);
    ConcludedVerdictOk(cfg, s, w, reply);
    hide Shape, Since, RateLimit, Exclusive, Covered, RowsOk, LogOk, UpdateLoop, Decide;
    OnlyPhaseKeeps(cfg, s, t, w);
    ActiveElsewhere(s, t, w);
  }

  lemma ConcludedVerdictOk(cfg: Config, s: World, w: nat, reply: Reply)
    requires Inv(cfg, s) && PhaseOf(s, w).Executing? && GoodReply(reply)
    ensures PendingOk(cfg, PhaseOf(ConcludeStep(cfg, s, w, reply), w))
  {
    var p := PhaseOf(s, w);
    assert PendingOk(cfg, p);
    WorkingJobRow(cfg, s, w);
    var outcome := p.limited.GetOr(reply.outcome);
    VerdictKeepsShape(cfg, p.job, outcome, reply.fallback, true);
    VerdictKeepsShape(cfg, p.job, outcome, reply.fallback, false);
    hide Shape, UpdateLoop, Decide, Inv;
  }

  // ----- the record

  /** Recording a held claim always finds the job `triggering` with the attempt number it was claimed at, and
      the attempt number is new: the unique index is never violated and the update never misses. */
  lemma RecordFindsTriggering(cfg: Config, s: World, w: nat)
    requires Inv(cfg, s) && PhaseOf(s, w).Concluded?
    ensures
      var job := PhaseOf(s, w).job;
      && job.triggerId in s.rows && s.rows[job.triggerId] == job && job.status.Triggering?
      && |LogOf(s, job.triggerId)| == job.attempts
      && forall i :: 0 <= i < |LogOf(s, job.triggerId)| ==> LogOf(s, job.triggerId)[i].attemptNo != job.attempts + 1
  {
    hide Shape, Since, CandidatesOk, PendingOk, Exclusive, Covered, ExecutedOnce;
    WorkingJobRow(cfg, s, w);
  }

  ghost predicate RecordedBy(s: World, t: World, w: nat) {
    var p := PhaseOf(s, w);
    && p.Concluded?
    && var id := p.job.triggerId;
       && id in s.rows && s.rows[id] == p.job
       && t.rows == s.rows[id := RecordedRow(p.job, p.verdict)]
       && var attempt := Attempt(p.job.attempts + 1, p.verdict.outcome.result, p.verdict.outcome.errorCode, p.now);
       && t.attempts == s.attempts[id := LogOf(s, id) + [attempt]]
       && t.executed == s.executed
       && PhaseOf(t, w) == WorkLeft(p.now, p.todo)
       && forall v :: v != w ==> PhaseOf(t, v) == PhaseOf(s, v)
  }

  lemma RecordHappens(cfg: Config, s: World, w: nat)
    requires Inv(cfg, s) && PhaseOf(s, w).Concluded?
    ensures RecordedBy(s, RecordStep(s, w), w)
  {
    hide Inv, Shape;
    RecordFindsTriggering(cfg, s, w);
    WorkingJobRow(cfg, s, w);
  }

  lemma HeldAfterRecord(s: World, t: World, w: nat, v: nat)
    requires RecordedBy(s, t, w)
    ensures Held(PhaseOf(t, v)) == if v == w then Held(PhaseOf(s, w))[1..] else Held(PhaseOf(s, v))
    ensures Held(PhaseOf(t, v)) != [] ==> NowOf(PhaseOf(t, v)) == NowOf(PhaseOf(s, v))
    ensures |Held(PhaseOf(s, w))| > 0 && Held(PhaseOf(s, w))[0] == PhaseOf(s, w).job
  {
  }

  lemma RecordKeepsTables(cfg: Config, s: World, t: World, w: nat)
    requires Inv(cfg, s) && RecordedBy(s, t, w)
    ensures RowsOk(cfg, t) && LogOk(t)
  {
    hide Shape, Since, CandidatesOk, Exclusive, Covered, ExecutedOnce, HoldsRows;
    assert PendingOk(cfg, PhaseOf(s, w));
    hide WorkersOk;
    WorkingJobRow(cfg, s, w);
    assert RecordedRow(PhaseOf(s, w).job, PhaseOf(s, w).verdict).triggerId == PhaseOf(s, w).job.triggerId;
    var id0 := PhaseOf(s, w).job.triggerId;
    forall id | id in t.rows
      ensures |LogOf(t, id)| == t.rows[id].attempts
      ensures forall i :: 0 <= i < |LogOf(t, id)| ==> LogOf(t, id)[i].attemptNo == i + 1
    {
      assert id != id0 ==> LogOf(t, id) == LogOf(s, id);
    }
  }

  /** The rows after a record: the recorded job's, and the others as they were. */
  lemma RowsAfterRecord(s: World, t: World, w: nat, id: string)
    requires RecordedBy(s, t, w) && id in s.rows
    ensures id in t.rows && (id != PhaseOf(s, w).job.triggerId ==> t.rows[id] == s.rows[id])
  {
  }

  lemma RecordKeepsHeld(cfg: Config, s: World, t: World, w: nat, v: nat)
    requires Inv(cfg, s) && RecordedBy(s, t, w)
    ensures HoldsRows(t.rows, PhaseOf(t, v))
  {
    hide Inv, Held, NowOf, RecordedBy, Exclusive;
    HeldAfterRecord(s, t, w, v);
    InvHolds(cfg, s, v);
    ExclusiveOf(cfg, s);
    var held := Held(PhaseOf(t, v));
    forall i | 0 <= i < |held|
      ensures held[i].triggerId in t.rows && t.rows[held[i].triggerId] == held[i]
      ensures held[i].status.Triggering? && held[i].updatedAt == NowOf(PhaseOf(t, v))
    {
      var k := if v == w then i + 1 else i;
      assert held[i] == Held(PhaseOf(s, v))[k];
      RowsAfterRecord(s, t, w, held[i].triggerId);
    }
  }

  lemma InvHolds(cfg: Config, s: World, v: nat)
    requires Inv(cfg, s)
    ensures HoldsRows(s.rows, PhaseOf(s, v))
  {
  }

  lemma ExclusiveOf(cfg: Config, s: World)
    requires Inv(cfg, s)
    ensures Exclusive(s)
  {
  }

  lemma RecordKeepsCandidates(cfg: Config, s: World, t: World, w: nat, v: nat)
    requires Inv(cfg, s) && RecordedBy(s, t, w)
    ensures CandidatesOk(cfg, t.rows, PhaseOf(t, v)) && PendingOk(cfg, PhaseOf(t, v))
  {
    assert PendingOk(cfg, PhaseOf(s, w)) && PendingOk(cfg, PhaseOf(s, v));
    assert CandidatesOk(cfg, s.rows, PhaseOf(s, v));
    WorkingJobRow(cfg, s, w);
    hide Inv, Held, NowOf, Shape, Since;
    var p, job := PhaseOf(t, v), PhaseOf(s, w).job;
    if p.Claiming? {
      forall i | 0 <= i < |p.candidates|
        ensures p.candidates[i].triggerId in t.rows && Since(p.candidates[i], t.rows[p.candidates[i].triggerId])
      {
        if p.candidates[i].triggerId == job.triggerId {
        }
      }
    }
  }

  lemma RecordKeepsWorker(cfg: Config, s: World, t: World, w: nat, v: nat)
    requires Inv(cfg, s) && RecordedBy(s, t, w)
    ensures HoldsRows(t.rows, PhaseOf(t, v)) && CandidatesOk(cfg, t.rows, PhaseOf(t, v))
      && PendingOk(cfg, PhaseOf(t, v))
  {
    hide *;
    RecordKeepsHeld(cfg, s, t, w, v);
    RecordKeepsCandidates(cfg, s, t, w, v);
  }

  lemma RecordKeepsExclusive(s: World, t: World, w: nat)
    requires Exclusive(s) && RecordedBy(s, t, w)
    ensures Exclusive(t)
  {
    hide *;
    forall v, u, i, j | 0 <= i < |Held(PhaseOf(t, v))| && 0 <= j < |Held(PhaseOf(t, u))|
        && Held(PhaseOf(t, v))[i].triggerId == Held(PhaseOf(t, u))[j].triggerId
      ensures v == u && i == j
    {
      HeldAfterRecord(s, t, w, v);
      HeldAfterRecord(s, t, w, u);
      ExclusivePair(s, v, u, if v == w then i + 1 else i, if u == w then j + 1 else j);
    }
    ExclusiveIntro(t);
  }

  lemma RecordKeepsCovered(cfg: Config, s: World, t: World, w: nat)
    requires Inv(cfg, s) && RecordedBy(s, t, w)
    ensures Covered(t)
  {
    assert PendingOk(cfg, PhaseOf(s, w));
    WorkingJobRow(cfg, s, w);
    hide Shape, Since, CandidatesOk, ExecutedOnce, WorkersOk, RowsOk, LogOk, PendingOk, Exclusive;
    forall id | id in t.rows && t.rows[id].status.Triggering? ensures exists v :: HeldBy(t, v, id) {
      assert id != PhaseOf(s, w).job.triggerId;
      var v :| HeldBy(s, v, id);
      RecordKeepsHolder(s, t, w, v, id);
    }
  }

  lemma RecordKeepsHolder(s: World, t: World, w: nat, v: nat, id: string)
    requires RecordedBy(s, t, w) && HeldBy(s, v, id) && id != PhaseOf(s, w).job.triggerId
    ensures HeldBy(t, v, id)
  {
    HeldAfterRecord(s, t, w, v);
    hide RecordedBy;
    var i :| 0 <= i < |Held(PhaseOf(s, v))| && Held(PhaseOf(s, v))[i].triggerId == id;
    assert Held(PhaseOf(t, v))[if v == w then i - 1 else i].triggerId == id;
  }

  lemma RecordKeepsExecuted(cfg: Config, s: World, t: World, w: nat)
    requires Inv(cfg, s) && RecordedBy(s, t, w)
    ensures ExecutedOnce(t)
  {
    hide Shape, Since, CandidatesOk, WorkersOk, RowsOk, LogOk, PendingOk, Exclusive, Covered;
    forall i | 0 <= i < |t.executed|
      ensures var (id, n) := t.executed[i];
        id in t.rows && (n <= t.rows[id].attempts
                            || (n == t.rows[id].attempts + 1 && exists v :: Active(PhaseOf(t, v), id)))
    {
      var (id, n) := s.executed[i];
      if n > t.rows[id].attempts {
        var v :| Active(PhaseOf(s, v), id);
        assert v != w;
        assert Active(PhaseOf(t, v), id);
      }
    }
  }

  lemma RecordKeeps(cfg: Config, s: World, w: nat)
    requires Inv(cfg, s) && PhaseOf(s, w).Concluded?
    ensures Inv(cfg, RecordStep(s, w))
  {
    var t := RecordStep(s, w);
    RecordHappens(cfg, s, w);
    RecordKeepsTables(cfg, s, t, w);
    RecordKeepsExclusive(s, t, w);
    RecordKeepsCovered(cfg, s, t, w);
    RecordKeepsExecuted(cfg, s, t, w);
    hide RecordStep, RecordedBy, HoldsRows, CandidatesOk, PendingOk, RowsOk, LogOk, Exclusive, Covered, ExecutedOnce,
      Shape;
    forall v ensures HoldsRows(t.rows, PhaseOf(t, v)) && CandidatesOk(cfg, t.rows, PhaseOf(t, v))
      && PendingOk(cfg, PhaseOf(t, v)) {
      RecordKeepsWorker(cfg, s, t, w, v);
    }
  }

  // ----- new jobs

  ghost predicate CreatedRow(s: World, t: World, job: Job) {
    && NewJob(job) && job.triggerId !in s.rows
    && t == s.(rows := s.rows[job.triggerId := job])
  }

  lemma CreateKeepsTables(cfg: Config, s: World, t: World, job: Job)
    requires Inv(cfg, s) && CreatedRow(s, t, job)
    ensures RowsOk(cfg, t) && LogOk(t)
  {
    assert Shape(cfg, job);
    hide Shape, Since, WorkersOk, Covered, ExecutedOnce, Exclusive;
    assert LogOf(s, job.triggerId) == [];
  }

  lemma CreateKeepsExclusive(s: World, t: World, job: Job)
    requires Exclusive(s) && CreatedRow(s, t, job)
    ensures Exclusive(t)
  {
    hide Exclusive, Held;
    forall v, u, i, j | 0 <= i < |Held(PhaseOf(t, v))| && 0 <= j < |Held(PhaseOf(t, u))|
        && Held(PhaseOf(t, v))[i].triggerId == Held(PhaseOf(t, u))[j].triggerId
      ensures v == u && i == j
    {
      assert PhaseOf(t, v) == PhaseOf(s, v) && PhaseOf(t, u) == PhaseOf(s, u);
      ExclusivePair(s, v, u, i, j);
    }
    ExclusiveIntro(t);
  }

  lemma CreateKeepsWorkers(cfg: Config, s: World, t: World, job: Job, w: nat)
    requires Inv(cfg, s) && CreatedRow(s, t, job)
    ensures HoldsRows(t.rows, PhaseOf(t, w)) && CandidatesOk(cfg, t.rows, PhaseOf(t, w))
      && PendingOk(cfg, PhaseOf(t, w))
  {
    hide Shape, Since, Exclusive, Covered, ExecutedOnce, RowsOk, LogOk;
    assert HoldsRows(s.rows, PhaseOf(s, w)) && CandidatesOk(cfg, s.rows, PhaseOf(s, w))
      && PendingOk(cfg, PhaseOf(s, w));
  }

  lemma CreateKeepsCovered(cfg: Config, s: World, t: World, job: Job)
    requires Inv(cfg, s) && CreatedRow(s, t, job)
    ensures Covered(t) && ExecutedOnce(t)
  {
    hide Shape, Since, WorkersOk, Exclusive, RowsOk, LogOk;
    forall id | id in t.rows && t.rows[id].status.Triggering? ensures exists w :: HeldBy(t, w, id) {
      var w :| HeldBy(s, w, id);
      assert PhaseOf(t, w) == PhaseOf(s, w);
      assert HeldBy(t, w, id);
    }
    ActiveElsewhere(s, t, 0);
  }

  lemma CreateKeeps(cfg: Config, s: World, job: Job)
    requires Inv(cfg, s) && NewJob(job)
    ensures Inv(cfg, Step(cfg, s, Create(job)))
  {
    hide Shape, HoldsRows, CandidatesOk, PendingOk, RowsOk, LogOk, Exclusive, Covered, ExecutedOnce;
    var t := Step(cfg, s, Create(job));
    if job.triggerId !in s.rows {
      assert CreatedRow(s, t, job);
      CreateKeepsTables(cfg, s, t, job);
      CreateKeepsCovered(cfg, s, t, job);
      CreateKeepsExclusive(s, t, job);
      forall w ensures HoldsRows(t.rows, PhaseOf(t, w)) && CandidatesOk(cfg, t.rows, PhaseOf(t, w))
        && PendingOk(cfg, PhaseOf(t, w)) {
        CreateKeepsWorkers(cfg, s, t, job, w);
      }
    }
  }

  lemma StepKeeps(cfg: Config, s: World, e: Event)
    requires Inv(cfg, s) && Enabled(s, e)
    ensures Inv(cfg, Step(cfg, s, e))
  {
    hide Inv, ClaimStep, AdmitStep, ConcludeStep, RecordStep;
    match e
    case Create(job) => CreateKeeps(cfg, s, job);
    case Snapshot(_, _, _, _, _, _) => SnapshotKeeps(cfg, s, e);
    case TryClaim(w) => ClaimKeeps(cfg, s, w);
    case AdmitNext(w) => AdmitKeeps(cfg, s, w);
    case Conclude(w, reply) => ConcludeKeeps(cfg, s, w, reply);
    case Record(w) => RecordKeeps(cfg, s, w);
  }

  // ----- every reachable world

  /** The world after a run from an empty database with all workers idle, if each event was enabled. */
  ghost function Run(cfg: Config, events: seq<Event>): Option<World> {
    if events == [] then Some(EMPTY)
    else
      match Run(cfg, events[..|events| - 1])
      case None => None
      case Some(s) => if Enabled(s, events[|events| - 1]) then Some(Step(cfg, s, events[|events| - 1])) else None
  }

  ghost predicate Possible(cfg: Config, events: seq<Event>) {
    Run(cfg, events).Some?
  }

  ghost function Reached(cfg: Config, events: seq<Event>): World
    requires Possible(cfg, events)
  {
    Run(cfg, events).value
  }

  lemma {:induction false} ReachedInv(cfg: Config, events: seq<Event>)
    requires ValidConfig(cfg) && Possible(cfg, events)
    ensures Inv(cfg, Reached(cfg, events))
  {
    hide Inv, Step, Enabled;
    if events == [] {
      EmptyInv(cfg);
    } else {
      var before := events[..|events| - 1];
      ReachedInv(cfg, before);
      StepKeeps(cfg, Reached(cfg, before), events[|events| - 1]);
    }
  }

  /** No ABA: in every run, a claim's compare-and-swap succeeds exactly when its row is the one the snapshot
      saw, and that row is due at the time the worker claims it with. */
  lemma NoAba(cfg: Config, events: seq<Event>, w: nat)
    requires ValidConfig(cfg) && Possible(cfg, events)
    requires PhaseOf(Reached(cfg, events), w).Claiming? && PhaseOf(Reached(cfg, events), w).candidates != []
    ensures
      var s := Reached(cfg, events);
      var p := PhaseOf(s, w);
      var c := p.candidates[0];
      && c.triggerId in s.rows
      && (ClaimMatches(s.rows, c) <==> s.rows[c.triggerId] == c)
      && DueStatus(c.status) && (c.nextRetryAt.None? || c.nextRetryAt.value <= p.now)
  {
    ReachedInv(cfg, events);
    hide Reached, Possible, Inv;
    MatchMeansUnchanged(cfg, Reached(cfg, events), w);
  }

  /** Exclusive ownership: in every run no job is in two workers' hands, or twice in one's; a job in hand is
      `triggering` exactly as claimed, and every `triggering` job is in some worker's hands. */
  lemma OwnershipIsExclusive(cfg: Config, events: seq<Event>, w: nat, v: nat, i: nat, j: nat, id: string)
    requires ValidConfig(cfg) && Possible(cfg, events)
    requires i < |Held(PhaseOf(Reached(cfg, events), w))| && j < |Held(PhaseOf(Reached(cfg, events), v))|
    ensures
      var s := Reached(cfg, events);
      var job, other := Held(PhaseOf(s, w))[i], Held(PhaseOf(s, v))[j];
      && (job.triggerId == other.triggerId ==> w == v && i == j)
      && job.triggerId in s.rows && s.rows[job.triggerId] == job && job.status.Triggering?
      && (id in s.rows && s.rows[id].status.Triggering? ==> exists u :: HeldBy(s, u, id))
  {
    ReachedInv(cfg, events);
    hide Reached, Possible, Shape, Since, CandidatesOk, PendingOk, RowsOk, LogOk, ExecutedOnce;
    var s := Reached(cfg, events);
    assert HoldsRows(s.rows, PhaseOf(s, w));
    if Held(PhaseOf(s, w))[i].triggerId == Held(PhaseOf(s, v))[j].triggerId {
      ExclusivePair(s, w, v, i, j);
    }
  }

  /** Attempt log integrity: in every run a job's attempt rows are numbered 1..attempts in order, a record
      always finds its job `triggering`, and its attempt number is never taken, so no tick ever fails on the
      unique index. */
  lemma AttemptLogIsGapFree(cfg: Config, events: seq<Event>, id: string, w: nat, k: nat)
    requires ValidConfig(cfg) && Possible(cfg, events) && id in Reached(cfg, events).rows
    ensures
      var s := Reached(cfg, events);
      && |LogOf(s, id)| == s.rows[id].attempts
      && (k < |LogOf(s, id)| ==> LogOf(s, id)[k].attemptNo == k + 1)
      && !PhaseOf(s, w).Crashed?
      && (PhaseOf(s, w).Concluded? ==>
           var job := PhaseOf(s, w).job;
           && job.triggerId in s.rows && s.rows[job.triggerId] == job && job.status.Triggering?
           && |LogOf(s, job.triggerId)| == job.attempts)
  {
    ReachedInv(cfg, events);
    hide Reached, Possible, Shape, Since, CandidatesOk, Exclusive, Covered, ExecutedOnce;
    var s := Reached(cfg, events);
    assert PendingOk(cfg, PhaseOf(s, w));
    if PhaseOf(s, w).Concluded? {
      RecordFindsTriggering(cfg, s, w);
    }
  }

  /** In every run the executor is invoked at most once for each attempt of each job. */
  lemma AttemptsExecuteOnce(cfg: Config, events: seq<Event>, i: nat, j: nat)
    requires ValidConfig(cfg) && Possible(cfg, events) && i < j < |Reached(cfg, events).executed|
    ensures Reached(cfg, events).executed[i] != Reached(cfg, events).executed[j]
  {
    ReachedInv(cfg, events);
    hide Reached, Possible, WorkersOk, RowsOk, LogOk, Exclusive, Covered;
  }

  /** Every row of every run has a reachable shape. */
  lemma ReachedShapes(cfg: Config, events: seq<Event>, id: string)
    requires ValidConfig(cfg) && Possible(cfg, events) && id in Reached(cfg, events).rows
    ensures Reached(cfg, events).rows[id].triggerId == id && Shape(cfg, Reached(cfg, events).rows[id])
  {
    ReachedInv(cfg, events);
    hide Reached, Possible, WorkersOk, LogOk, Exclusive, Covered, ExecutedOnce, Shape;
  }

  /** The progress of one row across one event: identity never changes, the attempt count grows by at most
      one, a finished row is never touched again, and claiming a row that was attempted before strictly
      raises its timestamp, although no two workers share a clock. */
  ghost predicate RowProgress(a: Job, b: Job) {
    && b.triggerId == a.triggerId && b.threadId == a.threadId && b.workspaceId == a.workspaceId
    && b.agentId == a.agentId && b.createdAt == a.createdAt && b.maxRetries == a.maxRetries
    && a.attempts <= b.attempts <= a.attempts + 1
    && (!LiveStatus(a.status) ==> b == a)
    && (a.status.Triggering? ==> b.updatedAt == a.updatedAt)
    && (DueStatus(a.status) && b != a ==> b.status.Triggering? && b.attempts == a.attempts)
    && (DueStatus(a.status) && b != a && a.attempts > 0 ==> b.updatedAt > a.updatedAt)
  }

  lemma RowsProgress(cfg: Config, events: seq<Event>, e: Event, id: string)
    requires ValidConfig(cfg) && Possible(cfg, events) && Enabled(Reached(cfg, events), e)
    requires id in Reached(cfg, events).rows
    ensures id in Step(cfg, Reached(cfg, events), e).rows
    ensures RowProgress(Reached(cfg, events).rows[id], Step(cfg, Reached(cfg, events), e).rows[id])
  {
    ReachedInv(cfg, events);
    var s := Reached(cfg, events);
    hide Reached, Possible, ClaimStep, AdmitStep, ConcludeStep, RecordStep, Inv;
    match e
    case Create(_) =>
    case Snapshot(_, _, _, _, _, _) =>
    case TryClaim(w) => ClaimRowProgress(cfg, s, w, id);
    case AdmitNext(w) => AdmitFacts(cfg, s, w);
    case Conclude(w, reply) => ConcludeFacts(cfg, s, w, reply);
    case Record(w) => RecordRowProgress(cfg, s, w, id);
  }

  lemma ConcludeFacts(cfg: Config, s: World, w: nat, reply: Reply)
    requires PhaseOf(s, w).Executing?
    ensures ConcludeStep(cfg, s, w, reply).rows == s.rows
  {
  }

  lemma RecordRowProgress(cfg: Config, s: World, w: nat, id: string)
    requires Inv(cfg, s) && PhaseOf(s, w).Concluded? && id in s.rows
    ensures id in RecordStep(s, w).rows && RowProgress(s.rows[id], RecordStep(s, w).rows[id])
  {
    RecordHappens(cfg, s, w);
    WorkingJobRow(cfg, s, w);
    hide Inv, RecordStep;
  }

  lemma ClaimRowProgress(cfg: Config, s: World, w: nat, id: string)
    requires Inv(cfg, s) && PhaseOf(s, w).Claiming? && id in s.rows
    ensures id in ClaimStep(s, w).rows && RowProgress(s.rows[id], ClaimStep(s, w).rows[id])
  {
    assert Shape(cfg, s.rows[id]);
    if PhaseOf(s, w).candidates != [] {
      MatchMeansUnchanged(cfg, s, w);
    }
    hide Inv;
    if s.rows[id].attempts > 0 {
      BackoffMonotone(cfg, s.rows[id].attempts, s.rows[id].attempts);
    }
  }

  /** The positive delays are what rules ABA out: a retry delay of zero lets a row return to the very status
      and timestamp a snapshot saw, with another attempt behind it. */
  lemma ZeroDelayAllowsAba(seen: Job, now: int)
    requires seen.status.Deferred? && seen.updatedAt == now && seen.nextRetryAt == Some(now)
    ensures
      var outcome := Outcome(AttemptDeferred, true, Some(0), None);
      var fallback := FallbackOutcome(ResumeFailed, Failed, None);
      var claimed := Claimed(seen, now);
      var again := RecordedRow(claimed, Decide(Config(1, 1, 1, 1, 1, 1), claimed, now, outcome, fallback));
      && !ExecutorContract(outcome)
      && IsDue(seen, seen.workspaceId, now)
      && again != seen && ClaimMatches(map[seen.triggerId := again], seen)
  {
  }
}
