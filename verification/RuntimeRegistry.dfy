/** The runtime registry: heartbeats arrive in any order, interleaved with the reconciler that marks stale
    runtimes offline. */
module RuntimeRegistry {
  import opened Wrappers
  import opened Sessions

  type Key = (string, string)
  type Runtimes = map<Key, Session>

  datatype Heartbeat = Heartbeat(
    agentId: string, workspaceId: string, sessionId: string, runtime: string, mode: ManagementMode, resumable: bool,
    status: SessionStatus, heartbeatAt: int)

  function KeyOf(h: Heartbeat): Key {
    (h.agentId, h.workspaceId)
  }

  function FromHeartbeat(h: Heartbeat): Session {
    Session(h.agentId, h.workspaceId, h.sessionId, h.runtime, h.mode, h.resumable, h.status, h.heartbeatAt,
            h.heartbeatAt)
  }

  /** `None` is the scope mismatch error. */
  function ApplySessionHeartbeat(existing: Option<Session>, h: Heartbeat): Option<Session> {
    match existing
    case None => Some(FromHeartbeat(h))
    case Some(record) =>
      if record.agentId != h.agentId || record.workspaceId != h.workspaceId then None
      else if h.heartbeatAt <= record.lastHeartbeatAt then existing
      else Some(record.(sessionId := h.sessionId, runtime := h.runtime, mode := h.mode, resumable := h.resumable,
                        status := h.status, lastHeartbeatAt := h.heartbeatAt, updatedAt := h.heartbeatAt))
  }

  function Lookup(runtimes: Runtimes, key: Key): Option<Session> {
    if key in runtimes then Some(runtimes[key]) else None
  }

  /** Every record sits under its own key. */
  ghost predicate Keyed(runtimes: Runtimes) {
    forall key :: key in runtimes ==> (runtimes[key].agentId, runtimes[key].workspaceId) == key
  }

  // ----- events on the registry

  /** A heartbeat, a single mark, or one reconciler pass over a workspace. */
  datatype Event =
    | Beat(heartbeat: Heartbeat)
    | Mark(key: Key, status: SessionStatus, resumable: Option<bool>, at: int)
    | Reconcile(workspaceId: string, staleAfterHours: int, at: int)

  function Marked(record: Session, status: SessionStatus, resumable: Option<bool>, at: int): Session {
    record.(status := status, resumable := resumable.GetOr(record.resumable), updatedAt := at)
  }

  predicate GoesOffline(record: Session, workspaceId: string, staleAfterHours: int, at: int) {
    && record.workspaceId == workspaceId
    && !record.status.Offline?
    && IsSessionStale(record, staleAfterHours, at)
  }

  function Reconciled(record: Session, workspaceId: string, staleAfterHours: int, at: int): Session {
    if GoesOffline(record, workspaceId, staleAfterHours, at) then Marked(record, Offline, None, at) else record
  }

  function Apply(runtimes: Runtimes, e: Event): Runtimes {
    match e
    case Beat(h) =>
      (match ApplySessionHeartbeat(Lookup(runtimes, KeyOf(h)), h)
       case None => runtimes
       case Some(next) => runtimes[KeyOf(h) := next])
    case Mark(key, status, resumable, at) =>
      if key in runtimes then runtimes[key := Marked(runtimes[key], status, resumable, at)] else runtimes
    case Reconcile(workspaceId, hours, at) =>
      map key | key in runtimes ::
        Reconciled(runtimes[key], workspaceId, hours, at)
  }

  function ApplyAll(events: seq<Event>): Runtimes {
    if events == [] then map[] else Apply(ApplyAll(events[..|events| - 1]), events[|events| - 1])
  }

  lemma {:induction false} ApplyAllKeyed(events: seq<Event>)
    ensures Keyed(ApplyAll(events))
  {
    if events != [] {
      ApplyAllKeyed(events[..|events| - 1]);
    }
  }

  // ----- the register

  /** Event i is a heartbeat for the key. */
  predicate BeatsFor(events: seq<Event>, i: nat, key: Key)
    requires i < |events|
  {
    events[i].Beat? && KeyOf(events[i].heartbeat) == key
  }

  /** Event i is the first heartbeat for the key that carries the largest timestamp. */
  ghost predicate IsLatestBeat(events: seq<Event>, i: nat, key: Key)
    requires i < |events|
  {
    && BeatsFor(events, i, key)
    && (forall j :: 0 <= j < i && BeatsFor(events, j, key) ==>
         events[j].heartbeat.heartbeatAt < events[i].heartbeat.heartbeatAt)
    && (forall j :: i < j < |events| && BeatsFor(events, j, key) ==>
         events[j].heartbeat.heartbeatAt <= events[i].heartbeat.heartbeatAt)
  }

  /** What a heartbeat decides for good until a later one: marks do not touch these. */
  predicate Carries(record: Session, h: Heartbeat) {
    && record.agentId == h.agentId && record.workspaceId == h.workspaceId
    && record.lastHeartbeatAt == h.heartbeatAt
    && record.sessionId == h.sessionId && record.runtime == h.runtime && record.mode == h.mode
  }

  /** The register holds the latest heartbeat of each key, and only keys that had one. */
  ghost predicate HoldsLatest(events: seq<Event>, runtimes: Runtimes, key: Key) {
    if key in runtimes then
      exists i :: 0 <= i < |events| && IsLatestBeat(events, i, key) && Carries(runtimes[key], events[i].heartbeat)
    else forall i :: 0 <= i < |events| ==> !BeatsFor(events, i, key)
  }

  lemma ApplyHolds(events: seq<Event>, runtimes: Runtimes, e: Event, key: Key)
    requires Keyed(runtimes) && HoldsLatest(events, runtimes, key)
    ensures HoldsLatest(events + [e], Apply(runtimes, e), key)
  {
    var all, next := events + [e], Apply(runtimes, e);
    assert forall j :: 0 <= j < |events| ==> all[j] == events[j] && BeatsFor(all, j, key) == BeatsFor(events, j, key);
    if key in runtimes {
      var i :| 0 <= i < |events| && IsLatestBeat(events, i, key) && Carries(runtimes[key], events[i].heartbeat);
      if BeatsFor(all, |events|, key) && e.heartbeat.heartbeatAt > events[i].heartbeat.heartbeatAt {
        assert IsLatestBeat(all, |events|, key);
      } else {
        assert IsLatestBeat(all, i, key);
      }
    } else if BeatsFor(all, |events|, key) {
      assert IsLatestBeat(all, |events|, key) && Carries(next[key], all[|events|].heartbeat);
    }
  }

  /** Whatever the order of arrival, and however the reconciler interleaves, a runtime is on record exactly when
      a heartbeat for it has arrived, and its session, runtime, mode and last heartbeat are those of the first
      heartbeat that carries the largest timestamp. */
  lemma {:induction false} LastTimestampWins(events: seq<Event>, key: Key)
    ensures HoldsLatest(events, ApplyAll(events), key)
  {
    if events != [] {
      var before := events[..|events| - 1];
      LastTimestampWins(before, key);
      ApplyAllKeyed(before);
      ApplyHolds(before, ApplyAll(before), events[|events| - 1], key);
      assert events == before + [events[|events| - 1]];
    }
  }

  /** A heartbeat that is newer than every earlier one for its agent and workspace replaces the whole record, its
      status and `resumable` too, whatever marks came in between; any other changes nothing. */
  lemma HeartbeatCountsIfNewer(events: seq<Event>, h: Heartbeat)
    ensures
      var key := (h.agentId, h.workspaceId);
      var newer := forall i | 0 <= i < |events| && events[i].Beat? && events[i].heartbeat.agentId == h.agentId
                              && events[i].heartbeat.workspaceId == h.workspaceId ::
                     events[i].heartbeat.heartbeatAt < h.heartbeatAt;
      ApplyAll(events + [Beat(h)])
        == if newer
           then ApplyAll(events)[key := Session(h.agentId, h.workspaceId, h.sessionId, h.runtime, h.mode, h.resumable,
                                                h.status, h.heartbeatAt, h.heartbeatAt)]
           else ApplyAll(events)
  {
    ApplySnoc(events, Beat(h));
    ApplyAllKeyed(events);
    NewerThanTheRecord(events, h);
    BeatReplacesIfNewer(ApplyAll(events), h);
    hide *;
  }

  /** The record remembers the latest heartbeat, so a newer one is newer than the record. */
  lemma NewerThanTheRecord(events: seq<Event>, h: Heartbeat)
    ensures
      var key, before := (h.agentId, h.workspaceId), ApplyAll(events);
      (forall i | 0 <= i < |events| && events[i].Beat? && events[i].heartbeat.agentId == h.agentId
                  && events[i].heartbeat.workspaceId == h.workspaceId ::
         events[i].heartbeat.heartbeatAt < h.heartbeatAt)
      <==> key !in before || before[key].lastHeartbeatAt < h.heartbeatAt
  {
    var key, before := (h.agentId, h.workspaceId), ApplyAll(events);
    LastTimestampWins(events, key);
    hide ApplyAll;
    assert forall i :: 0 <= i < |events| ==>
      (BeatsFor(events, i, key) <==> events[i].Beat? && events[i].heartbeat.agentId == h.agentId
                                     && events[i].heartbeat.workspaceId == h.workspaceId);
    if key in before {
      var i :| 0 <= i < |events| && IsLatestBeat(events, i, key) && Carries(before[key], events[i].heartbeat);
    }
  }

  lemma BeatReplacesIfNewer(before: Runtimes, h: Heartbeat)
    requires Keyed(before)
    ensures
      var key := (h.agentId, h.workspaceId);
      Apply(before, Beat(h))
        == if key !in before || before[key].lastHeartbeatAt < h.heartbeatAt
           then before[key := Session(h.agentId, h.workspaceId, h.sessionId, h.runtime, h.mode, h.resumable, h.status,
                                      h.heartbeatAt, h.heartbeatAt)]
           else before
  {
    var key := (h.agentId, h.workspaceId);
    assert key in before ==> before[key := before[key]] == before;
  }

  /** The rule for one heartbeat on its own: a record of another agent or workspace refuses it. */
  lemma OtherScopesAreRefused(record: Session, h: Heartbeat)
    ensures ApplySessionHeartbeat(Some(record), h).None? <==>
      record.agentId != h.agentId || record.workspaceId != h.workspaceId
  {
  }

  /** A mark changes the status of one record, `resumable` if it is given, and no heartbeat. */
  lemma MarkChangesOneStatus(events: seq<Event>, agentId: string, workspaceId: string, status: SessionStatus,
                             resumable: Option<bool>, at: int)
    ensures
      var key, before := (agentId, workspaceId), ApplyAll(events);
      ApplyAll(events + [Mark(key, status, resumable, at)])
        == if key !in before then before
           else before[key := before[key].(status := status, updatedAt := at,
                                           resumable := if resumable.Some? then resumable.value
                                                        else before[key].resumable)]
  {
    ApplySnoc(events, Mark((agentId, workspaceId), status, resumable, at));
    hide ApplyAll;
  }

  /** A pass marks offline exactly the runtimes of its workspace that are not offline and whose last heartbeat is
      more than `staleAfterHours` hours old, and leaves every other record alone. */
  lemma ReconcileMarksTheStale(events: seq<Event>, workspaceId: string, staleAfterHours: int, at: int, key: Key)
    ensures
      var before, after := ApplyAll(events), ApplyAll(events + [Reconcile(workspaceId, staleAfterHours, at)]);
      && (key in after <==> key in before)
      && (key in before ==>
           var r := before[key];
           after[key] == if r.workspaceId == workspaceId && r.status != Offline
                            && at - r.lastHeartbeatAt > staleAfterHours * 60 * 60 * 1000
                         then r.(status := Offline, updatedAt := at) else r)
  {
    ApplySnoc(events, Reconcile(workspaceId, staleAfterHours, at));
    hide ApplyAll;
  }

  /** No two heartbeats for one runtime carry the same timestamp. */
  ghost predicate DistinctTimes(events: seq<Event>) {
    forall i, j :: 0 <= i < |events| && 0 <= j < |events| ==>
      (&& events[i].Beat? && events[j].Beat?
       && KeyOf(events[i].heartbeat) == KeyOf(events[j].heartbeat)
       && events[i].heartbeat.heartbeatAt == events[j].heartbeat.heartbeatAt
       ==> events[i].heartbeat == events[j].heartbeat)
  }

  ghost predicate SameHeartbeats(a: seq<Event>, b: seq<Event>) {
    forall h: Heartbeat :: Beat(h) in a <==> Beat(h) in b
  }

  /** With distinct timestamps the arrival order, repeated deliveries and the marks in between leave no trace in
      what the register says about a runtime. */
  lemma {:induction false} OrderDoesNotMatter(a: seq<Event>, b: seq<Event>, key: Key)
    requires DistinctTimes(a) && SameHeartbeats(a, b)
    ensures key in ApplyAll(a) <==> key in ApplyAll(b)
    ensures key in ApplyAll(a) && key in ApplyAll(b) ==>
      var x, y := ApplyAll(a)[key], ApplyAll(b)[key];
      && x.lastHeartbeatAt == y.lastHeartbeatAt && x.sessionId == y.sessionId
      && x.runtime == y.runtime && x.mode == y.mode
  {
    LastTimestampWins(a, key);
    LastTimestampWins(b, key);
    SameKeys(a, b, key);
    hide ApplyAll;
    if key in ApplyAll(a) && key in ApplyAll(b) {
      var i :| 0 <= i < |a| && IsLatestBeat(a, i, key) && Carries(ApplyAll(a)[key], a[i].heartbeat);
      var j :| 0 <= j < |b| && IsLatestBeat(b, j, key) && Carries(ApplyAll(b)[key], b[j].heartbeat);
      SameLatest(a, b, key, i, j);
    }
  }

  lemma SameKeys(a: seq<Event>, b: seq<Event>, key: Key)
    requires SameHeartbeats(a, b)
    ensures (exists i :: 0 <= i < |a| && BeatsFor(a, i, key)) <==> (exists i :: 0 <= i < |b| && BeatsFor(b, i, key))
  {
    if i :| 0 <= i < |a| && BeatsFor(a, i, key) {
      assert a[i] == Beat(a[i].heartbeat) && Beat(a[i].heartbeat) in b;
      var j :| 0 <= j < |b| && b[j] == a[i];
      assert BeatsFor(b, j, key);
    }
    if i :| 0 <= i < |b| && BeatsFor(b, i, key) {
      assert b[i] == Beat(b[i].heartbeat) && Beat(b[i].heartbeat) in a;
      var j :| 0 <= j < |a| && a[j] == b[i];
      assert BeatsFor(a, j, key);
    }
  }

  lemma SameLatest(a: seq<Event>, b: seq<Event>, key: Key, i: nat, j: nat)
    requires DistinctTimes(a) && SameHeartbeats(a, b)
    requires i < |a| && j < |b| && IsLatestBeat(a, i, key) && IsLatestBeat(b, j, key)
    ensures a[i].heartbeat == b[j].heartbeat
  {
    assert a[i] == Beat(a[i].heartbeat) && Beat(a[i].heartbeat) in b;
    var k :| 0 <= k < |b| && b[k] == a[i];
    assert BeatsFor(b, k, key);
    assert b[j] == Beat(b[j].heartbeat) && Beat(b[j].heartbeat) in a;
    var l :| 0 <= l < |a| && a[l] == b[j];
    assert BeatsFor(a, l, key);
  }

  // ----- the store and the service

  function RecordKey(record: Session): Key {
    (record.agentId, record.workspaceId)
  }

  /** How many of the records a reconciler pass marks. */
  function MarkedCount(records: seq<Session>, workspaceId: string, staleAfterHours: int, at: int): nat {
    if records == [] then 0
    else
      MarkedCount(records[..|records| - 1], workspaceId, staleAfterHours, at)
      + (if GoesOffline(records[|records| - 1], workspaceId, staleAfterHours, at) then 1 else 0)
  }

  /** A listing of one workspace: each of its records once. */
  ghost predicate IsListing(runtimes: Runtimes, workspaceId: string, records: seq<Session>) {
    && (forall i :: 0 <= i < |records| ==>
         && RecordKey(records[i]) in runtimes && runtimes[RecordKey(records[i])] == records[i]
         && records[i].workspaceId == workspaceId)
    && (forall i, j :: 0 <= i < j < |records| ==> RecordKey(records[i]) != RecordKey(records[j]))
    && (forall key :: key in runtimes && runtimes[key].workspaceId == workspaceId ==> runtimes[key] in records)
  }

  /** A pass that has dealt with the first n records of a listing. */
  ghost predicate PartlyReconciled(was: Runtimes, now: Runtimes, records: seq<Session>, n: nat, workspaceId: string,
                                   staleAfterHours: int, at: int)
    requires n <= |records|
  {
    && now.Keys == was.Keys
    && forall key :: key in was ==>
         now[key] == if was[key] in records[..n] then Reconciled(was[key], workspaceId, staleAfterHours, at)
                     else was[key]
  }

  lemma ReconcileOne(was: Runtimes, now: Runtimes, next: Runtimes, records: seq<Session>, n: nat, workspaceId: string,
                     staleAfterHours: int, at: int)
    requires Keyed(was) && IsListing(was, workspaceId, records) && n < |records|
    requires PartlyReconciled(was, now, records, n, workspaceId, staleAfterHours, at)
    requires RecordKey(records[n]) in now
    requires next == now[RecordKey(records[n]) := Reconciled(records[n], workspaceId, staleAfterHours, at)]
    ensures PartlyReconciled(was, next, records, n + 1, workspaceId, staleAfterHours, at)
  {
    hide Reconciled;
    assert records[..n + 1] == records[..n] + [records[n]];
    assert records[n] in records[..n + 1];
    forall key | key in was
      ensures next[key] ==
        if was[key] in records[..n + 1] then Reconciled(was[key], workspaceId, staleAfterHours, at) else was[key]
    {
      if key == RecordKey(records[n]) {
        assert was[key] == records[n];
      } else {
        assert was[key] != records[n];
      }
    }
  }

  /** Until its turn a listed record is as it was. */
  lemma NotYetReconciled(was: Runtimes, now: Runtimes, records: seq<Session>, n: nat, workspaceId: string,
                         staleAfterHours: int, at: int)
    requires IsListing(was, workspaceId, records) && n < |records|
    requires PartlyReconciled(was, now, records, n, workspaceId, staleAfterHours, at)
    ensures RecordKey(records[n]) in now && now[RecordKey(records[n])] == records[n]
  {
    assert forall i :: 0 <= i < n ==> RecordKey(records[i]) != RecordKey(records[n]);
  }

  // ----- a pass that heartbeats interrupt

  function Beats(heartbeats: seq<Heartbeat>): seq<Event> {
    if heartbeats == [] then [] else Beats(heartbeats[..|heartbeats| - 1]) + [Beat(heartbeats[|heartbeats| - 1])]
  }

  /** What a pass does to its first `n` listed records: the heartbeats that arrive before it comes to each, and the
      mark, which it decides on the record as it was listed. */
  function Pass(records: seq<Session>, arriving: nat -> seq<Heartbeat>, workspaceId: string, staleAfterHours: int,
                at: int, n: nat): seq<Event>
    requires n <= |records|
  {
    if n == 0 then []
    else
      Pass(records, arriving, workspaceId, staleAfterHours, at, n - 1) + Beats(arriving(n - 1))
      + if GoesOffline(records[n - 1], workspaceId, staleAfterHours, at)
        then [Mark(RecordKey(records[n - 1]), Offline, None, at)] else []
  }

  function Nothing(i: nat): seq<Heartbeat> {
    []
  }

  lemma ApplySnoc(events: seq<Event>, e: Event)
    ensures ApplyAll(events + [e]) == Apply(ApplyAll(events), e)
  {
    assert (events + [e])[..|events|] == events;
  }

  lemma {:induction false} PassSoFar(events: seq<Event>, records: seq<Session>, workspaceId: string,
                                     staleAfterHours: int, at: int, n: nat)
    requires IsListing(ApplyAll(events), workspaceId, records) && n <= |records|
    ensures PartlyReconciled(ApplyAll(events),
                             ApplyAll(events + Pass(records, Nothing, workspaceId, staleAfterHours, at, n)),
                             records, n, workspaceId, staleAfterHours, at)
  {
    hide *;
    ApplyAllKeyed(events);
    if n == 0 {
      PassStarts(events, records, workspaceId, staleAfterHours, at);
    } else {
      PassSoFar(events, records, workspaceId, staleAfterHours, at, n - 1);
      var now := ApplyAll(events + Pass(records, Nothing, workspaceId, staleAfterHours, at, n - 1));
      NotYetReconciled(ApplyAll(events), now, records, n - 1, workspaceId, staleAfterHours, at);
      PassStep(events, records, workspaceId, staleAfterHours, at, n);
      ReconcileOne(ApplyAll(events), now,
                   ApplyAll(events + Pass(records, Nothing, workspaceId, staleAfterHours, at, n)),
                   records, n - 1, workspaceId, staleAfterHours, at);
    }
  }

  lemma PassStarts(events: seq<Event>, records: seq<Session>, workspaceId: string, staleAfterHours: int, at: int)
    ensures PartlyReconciled(ApplyAll(events),
                             ApplyAll(events + Pass(records, Nothing, workspaceId, staleAfterHours, at, 0)),
                             records, 0, workspaceId, staleAfterHours, at)
  {
    hide ApplyAll;
    assert events + [] == events;
  }

  lemma PassStep(events: seq<Event>, records: seq<Session>, workspaceId: string, staleAfterHours: int, at: int, n: nat)
    requires 0 < n <= |records|
    requires
      var now := ApplyAll(events + Pass(records, Nothing, workspaceId, staleAfterHours, at, n - 1));
      RecordKey(records[n - 1]) in now && now[RecordKey(records[n - 1])] == records[n - 1]
    ensures
      var now := ApplyAll(events + Pass(records, Nothing, workspaceId, staleAfterHours, at, n - 1));
      ApplyAll(events + Pass(records, Nothing, workspaceId, staleAfterHours, at, n))
      == now[RecordKey(records[n - 1]) := Reconciled(records[n - 1], workspaceId, staleAfterHours, at)]
  {
    hide ApplyAll, GoesOffline;
    var before := events + Pass(records, Nothing, workspaceId, staleAfterHours, at, n - 1);
    var after := events + Pass(records, Nothing, workspaceId, staleAfterHours, at, n);
    var mark := Mark(RecordKey(records[n - 1]), Offline, None, at);
    if GoesOffline(records[n - 1], workspaceId, staleAfterHours, at) {
      assert after == before + [mark];
      ApplySnoc(before, mark);
    } else {
      assert after == before;
      assert ApplyAll(before) == ApplyAll(before)[RecordKey(records[n - 1]) := records[n - 1]];
    }
  }

  /** A pass that nothing interrupts marks every stale runtime of the workspace offline and touches no other. */
  lemma {:induction false} QuietPassReconciles(events: seq<Event>, records: seq<Session>, workspaceId: string,
                                               staleAfterHours: int,
                            at: int)
    requires IsListing(ApplyAll(events), workspaceId, records)
    ensures ApplyAll(events + Pass(records, Nothing, workspaceId, staleAfterHours, at, |records|))
         == Apply(ApplyAll(events), Reconcile(workspaceId, staleAfterHours, at))
  {
    PassSoFar(events, records, workspaceId, staleAfterHours, at, |records|);
    hide ApplyAll, Pass;
  }

  /** A pass counts the marks it makes. */
  lemma {:induction false} CountsTheMarks(records: seq<Session>, workspaceId: string, staleAfterHours: int, at: int,
                                          n: nat)
    requires n <= |records|
    ensures MarkedCount(records[..n], workspaceId, staleAfterHours, at)
         == |Pass(records, Nothing, workspaceId, staleAfterHours, at, n)|
  {
    if n > 0 {
      CountsTheMarks(records, workspaceId, staleAfterHours, at, n - 1);
      assert records[..n][..n - 1] == records[..n - 1];
      hide GoesOffline;
    }
  }

  /** A heartbeat that arrives between the listing and the mark does not save a runtime that was listed stale: it
      ends offline, though the register holds the fresh heartbeat. */
  lemma FreshHeartbeatIsMarkedOffline(events: seq<Event>, record: Session, h: Heartbeat, staleAfterHours: int, at: int)
    requires KeyOf(h) in ApplyAll(events) && ApplyAll(events)[KeyOf(h)] == record
    requires RecordKey(record) == KeyOf(h) && h.heartbeatAt > record.lastHeartbeatAt
    requires GoesOffline(record, record.workspaceId, staleAfterHours, at)
    ensures
      var arriving := (i: nat) => [h];
      var after := ApplyAll(events + Pass([record], arriving, record.workspaceId, staleAfterHours, at, 1));
      KeyOf(h) in after && after[KeyOf(h)].status.Offline? && Carries(after[KeyOf(h)], h)
  {
    var arriving := (i: nat) => [h];
    assert Beats([]) == [] && [h][..0] == [];
    assert Beats([h]) == [Beat(h)];
    assert Pass([record], arriving, record.workspaceId, staleAfterHours, at, 0) == [];
    var pass := Pass([record], arriving, record.workspaceId, staleAfterHours, at, 1);
    assert pass == [Beat(h)] + [Mark(KeyOf(h), Offline, None, at)];
    assert events + pass == (events + [Beat(h)]) + [Mark(KeyOf(h), Offline, None, at)];
    ApplySnoc(events, Beat(h));
    ApplySnoc(events + [Beat(h)], Mark(KeyOf(h), Offline, None, at));
    hide ApplyAll, Pass;
  }

  lemma {:induction false} KeysStay(events: seq<Event>, more: seq<Event>, key: Key)
    requires key in ApplyAll(events)
    ensures key in ApplyAll(events + more)
  {
    if more == [] {
      assert events + more == events;
    } else {
      KeysStay(events, more[..|more| - 1], key);
      assert events + more == (events + more[..|more| - 1]) + [more[|more| - 1]];
      ApplySnoc(events + more[..|more| - 1], more[|more| - 1]);
    }
  }

  /** The records of the workspace under the first `i` keys. */
  ghost predicate ListedSoFar(runtimes: Runtimes, workspaceId: string, order: seq<Key>, i: nat, records: seq<Session>)
    requires i <= |order|
  {
    && (forall r :: r in records ==>
         && RecordKey(r) in order[..i] && RecordKey(r) in runtimes
         && runtimes[RecordKey(r)] == r && r.workspaceId == workspaceId)
    && (forall j, k :: 0 <= j < k < |records| ==> RecordKey(records[j]) != RecordKey(records[k]))
    && (forall key :: key in order[..i] && key in runtimes && runtimes[key].workspaceId == workspaceId ==>
         runtimes[key] in records)
  }

  lemma NothingListed(runtimes: Runtimes, workspaceId: string, order: seq<Key>)
    ensures ListedSoFar(runtimes, workspaceId, order, 0, [])
  {
  }

  lemma OneListed(runtimes: Runtimes, workspaceId: string, order: seq<Key>, i: nat, records: seq<Session>)
    requires Keyed(runtimes) && i < |order| && ListedSoFar(runtimes, workspaceId, order, i, records)
    requires order[i] in runtimes && forall j :: 0 <= j < i ==> order[j] != order[i]
    ensures
      var r := runtimes[order[i]];
      ListedSoFar(runtimes, workspaceId, order, i + 1, if r.workspaceId == workspaceId then records + [r] else records)
  {
    assert order[..i + 1] == order[..i] + [order[i]];
    assert order[i] !in order[..i];
    assert forall k :: 0 <= k < |records| ==> records[k] in records;
  }

  lemma AllListed(runtimes: Runtimes, workspaceId: string, order: seq<Key>, records: seq<Session>)
    requires ListedSoFar(runtimes, workspaceId, order, |order|, records) && forall key :: key in order <==>
      key in runtimes
    ensures IsListing(runtimes, workspaceId, records)
  {
    assert order[..|order|] == order;
    assert forall k :: 0 <= k < |records| ==> records[k] in records;
  }

  class InMemoryRuntimeRegistryStore {
    var runtimes: Runtimes
    /** Everything that has happened to the store. */
    ghost var history: seq<Event>

    ghost predicate Valid() reads this { Keyed(runtimes) && runtimes == ApplyAll(history) }

    constructor ()
      ensures Valid() && history == []
    {
      runtimes, history := map[], [];
    }

    method UpsertFromHeartbeat(h: Heartbeat) returns (r: Session)
      requires Valid()
      modifies this
      ensures Valid() && history == old(history) + [Beat(h)] && runtimes == Apply(old(runtimes), Beat(h))
      ensures KeyOf(h) in runtimes && r == runtimes[KeyOf(h)] && r.lastHeartbeatAt >= h.heartbeatAt
    {
      var key := KeyOf(h);
      var next := ApplySessionHeartbeat(Lookup(runtimes, key), h);
      r := next.value;
      ApplySnoc(history, Beat(h));
      runtimes := runtimes[key := r];
      history := history + [Beat(h)];
    }

    method MarkRuntimeStatus(key: Key, status: SessionStatus, resumable: Option<bool>, at: int)
      returns (r: Option<Session>)
      requires Valid()
      modifies this
      ensures Valid() && history == old(history) + [Mark(key, status, resumable, at)]
      ensures runtimes == Apply(old(runtimes), Mark(key, status, resumable, at))
      ensures r == Lookup(runtimes, key)
    {
      ApplySnoc(history, Mark(key, status, resumable, at));
      history := history + [Mark(key, status, resumable, at)];
      if key !in runtimes { return None; }
      var updated := Marked(runtimes[key], status, resumable, at);
      runtimes := runtimes[key := updated];
      r := Some(updated);
    }

    /** The records of a workspace, in the order in which the map yields its keys. */
    method ListWorkspaceRuntimes(workspaceId: string, order: seq<Key>) returns (records: seq<Session>)
      requires Valid()
      requires forall i, j :: 0 <= i < j < |order| ==> order[i] != order[j]
      requires forall key :: key in order <==> key in runtimes
      ensures IsListing(runtimes, workspaceId, records)
    {
      hide ApplyAll, Keyed, IsListing, ListedSoFar;
      records := [];
      NothingListed(runtimes, workspaceId, order);
      for i := 0 to |order|
        invariant ListedSoFar(runtimes, workspaceId, order, i, records)
      {
        OneListed(runtimes, workspaceId, order, i, records);
        if runtimes[order[i]].workspaceId == workspaceId {
          records := records + [runtimes[order[i]]];
        }
      }
      AllListed(runtimes, workspaceId, order, records);
    }

    /** Other requests' heartbeats. */
    method Arrive(heartbeats: seq<Heartbeat>)
      requires Valid()
      modifies this
      ensures Valid() && history == old(history) + Beats(heartbeats)
    {
      for i := 0 to |heartbeats|
        invariant Valid() && history == old(history) + Beats(heartbeats[..i])
      {
        assert heartbeats[..i + 1][..i] == heartbeats[..i];
        var _ := UpsertFromHeartbeat(heartbeats[i]);
      }
      assert heartbeats[..|heartbeats|] == heartbeats;
    }

    /** The reconciler's loop, with the heartbeats `arriving(i)` between the listing and the i-th record: it marks
        each record that was stale when it was listed, once, and counts what it listed and what it marked. */
    method ReconcileWorkspaceRuntimes(workspaceId: string, staleAfterHours: int, at: int, order: seq<Key>,
                                      arriving: nat -> seq<Heartbeat>)
      returns (checked: nat, transitioned: nat, ghost listed: seq<Session>)
      requires Valid() && staleAfterHours > 0
      requires forall i, j :: 0 <= i < j < |order| ==> order[i] != order[j]
      requires forall key :: key in order <==> key in runtimes
      modifies this
      ensures Valid() && IsListing(old(runtimes), workspaceId, listed)
      ensures history == old(history) + Pass(listed, arriving, workspaceId, staleAfterHours, at, |listed|)
      ensures checked == |listed| && transitioned == MarkedCount(listed, workspaceId, staleAfterHours, at)
    {
      hide ApplyAll, Apply, Keyed, IsListing, GoesOffline, MarkedCount, Pass, Beats;
      var records := ListWorkspaceRuntimes(workspaceId, order);
      listed := records;
      transitioned := 0;
      ghost var start := history;
      CountStarts(workspaceId, staleAfterHours, at);
      PassBegins(history, records, arriving, workspaceId, staleAfterHours, at);
      for i := 0 to |records|
        invariant Valid() && history == start + Pass(records, arriving, workspaceId, staleAfterHours, at, i)
        invariant transitioned == MarkedCount(records[..i], workspaceId, staleAfterHours, at)
      {
        Arrive(arriving(i));
        ListedStays(start, records, arriving, workspaceId, staleAfterHours, at, i);
        var marked := MarkIfStale(records[i], staleAfterHours, at);
        CountStep(records, workspaceId, staleAfterHours, at, i);
        ListedIn(ApplyAll(start), workspaceId, records, i);
        PassNext(start, records, arriving, workspaceId, staleAfterHours, at, i);
        if marked {
          transitioned := transitioned + 1;
        }
      }
      assert records[..|records|] == records;
      checked := |records|;
    }

    /** The body of the loop: the decision is on the record as it was listed. */
    method MarkIfStale(runtime: Session, staleAfterHours: int, at: int) returns (marked: bool)
      requires Valid() && RecordKey(runtime) in runtimes
      modifies this
      ensures Valid() && marked == GoesOffline(runtime, runtime.workspaceId, staleAfterHours, at)
      ensures history == old(history) + if marked then [Mark(RecordKey(runtime), Offline, None, at)] else []
    {
      hide ApplyAll, Keyed;
      marked := false;
      if runtime.status.Offline? { return; }
      if !IsSessionStale(runtime, staleAfterHours, at) { return; }
      var updated := MarkRuntimeStatus((runtime.agentId, runtime.workspaceId), Offline, None, at);
      marked := updated.Some?;
    }
  }

  lemma PassBegins(start: seq<Event>, records: seq<Session>, arriving: nat -> seq<Heartbeat>, workspaceId: string,
                   staleAfterHours: int, at: int)
    ensures start + Pass(records, arriving, workspaceId, staleAfterHours, at, 0) == start
  {
  }

  lemma PassNext(start: seq<Event>, records: seq<Session>, arriving: nat -> seq<Heartbeat>, workspaceId: string,
                 staleAfterHours: int, at: int, i: nat)
    requires i < |records|
    ensures start + Pass(records, arriving, workspaceId, staleAfterHours, at, i + 1)
         == start + Pass(records, arriving, workspaceId, staleAfterHours, at, i) + Beats(arriving(i))
            + if GoesOffline(records[i], workspaceId, staleAfterHours, at)
              then [Mark(RecordKey(records[i]), Offline, None, at)] else []
  {
    hide Beats, GoesOffline;
  }

  lemma CountStarts(workspaceId: string, staleAfterHours: int, at: int)
    ensures MarkedCount([], workspaceId, staleAfterHours, at) == 0
  {
  }

  lemma CountStep(records: seq<Session>, workspaceId: string, staleAfterHours: int, at: int, i: nat)
    requires i < |records|
    ensures MarkedCount(records[..i + 1], workspaceId, staleAfterHours, at)
         == MarkedCount(records[..i], workspaceId, staleAfterHours, at)
            + if GoesOffline(records[i], workspaceId, staleAfterHours, at) then 1 else 0
  {
    assert records[..i + 1][..i] == records[..i];
  }

  lemma ListedIn(runtimes: Runtimes, workspaceId: string, records: seq<Session>, i: nat)
    requires IsListing(runtimes, workspaceId, records) && i < |records|
    ensures RecordKey(records[i]) in runtimes && records[i].workspaceId == workspaceId
  {
  }

  /** No record disappears during a pass. */
  lemma ListedStays(start: seq<Event>, records: seq<Session>, arriving: nat -> seq<Heartbeat>, workspaceId: string,
                    staleAfterHours: int, at: int, i: nat)
    requires IsListing(ApplyAll(start), workspaceId, records) && i < |records|
    ensures
      var soFar := start + Pass(records, arriving, workspaceId, staleAfterHours, at, i) + Beats(arriving(i));
      RecordKey(records[i]) in ApplyAll(soFar)
  {
    hide ApplyAll, Pass, Beats;
    ListedIn(ApplyAll(start), workspaceId, records, i);
    var pass, beats := Pass(records, arriving, workspaceId, staleAfterHours, at, i), Beats(arriving(i));
    KeysStay(start, pass + beats, RecordKey(records[i]));
    assert start + (pass + beats) == start + pass + beats;
  }
}
