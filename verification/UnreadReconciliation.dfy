/** The unread poll: which dormant participants with unread messages are reported, and which are suppressed
    because the same sequence was reported before. */
module UnreadReconciliation {
  import opened Wrappers
  import opened Sessions

  datatype SessionSnapshot = SessionSnapshot(
    sessionId: string, mode: ManagementMode, resumable: bool, status: SessionStatus, lastHeartbeatAt: int)

  datatype Snapshot = Snapshot(
    threadId: string, workspaceId: string, closed: bool, agentId: string, latestSeq: nat, lastReadSeq: nat,
    session: Option<SessionSnapshot>)

  datatype Candidate = Candidate(
    threadId: string, workspaceId: string, agentId: string, unreadCount: int, latestSeq: nat, lastReadSeq: nat,
    session: Option<SessionSnapshot>, staleSession: bool)

  datatype Stats = Stats(scanned: nat, unread: nat, dormantUnread: nat, deduplicated: nat)

  datatype Notice = Notice(latestSeq: nat, notifiedAt: int)

  type Key = (string, string)
  type Notified = map<Key, Notice>

  /** One poll: its settings, its time and every snapshot there is. */
  datatype Poll = Poll(
    workspaceId: string, includeClosed: bool, staleAfterHours: int, polledAt: int, snapshots: seq<Snapshot>)

  function Stale(session: SessionSnapshot, staleAfterHours: int, referenceTime: int): bool {
    IsSessionStale(
      Session("n/a", "n/a", session.sessionId, "n/a", session.mode, session.resumable, session.status,
              session.lastHeartbeatAt, session.lastHeartbeatAt),
      staleAfterHours, referenceTime)
  }

  predicate IsDormant(session: Option<SessionSnapshot>, staleAfterHours: int, referenceTime: int) {
    || session.None?
    || !session.value.status.Active?
    || Stale(session.value, staleAfterHours, referenceTime)
  }

  predicate IsUnread(snapshot: Snapshot) {
    snapshot.latestSeq > snapshot.lastReadSeq
  }

  function KeyOf(snapshot: Snapshot): Key {
    (snapshot.threadId, snapshot.agentId)
  }

  predicate Listed(poll: Poll, snapshot: Snapshot) {
    snapshot.workspaceId == poll.workspaceId && (poll.includeClosed || !snapshot.closed)
  }

  function Listing(poll: Poll, snapshots: seq<Snapshot>): seq<Snapshot> {
    if snapshots == [] then []
    else
      Listing(poll, snapshots[..|snapshots| - 1])
      + (if Listed(poll, snapshots[|snapshots| - 1]) then [snapshots[|snapshots| - 1]] else [])
  }

  predicate AlreadyNotified(notified: Notified, snapshot: Snapshot) {
    KeyOf(snapshot) in notified && notified[KeyOf(snapshot)].latestSeq >= snapshot.latestSeq
  }

  function ToCandidate(snapshot: Snapshot, staleAfterHours: int, polledAt: int): Candidate {
    Candidate(
      snapshot.threadId, snapshot.workspaceId, snapshot.agentId, snapshot.latestSeq - snapshot.lastReadSeq,
      snapshot.latestSeq, snapshot.lastReadSeq, snapshot.session,
      snapshot.session.Some? && Stale(snapshot.session.value, staleAfterHours, polledAt))
  }

  // ----- what the whole sequence of polls looks at

  /** One participant as one poll saw it. */
  datatype Sighting = Sighting(snapshot: Snapshot, staleAfterHours: int, polledAt: int)

  predicate NeedsNotice(o: Sighting) {
    IsUnread(o.snapshot) && IsDormant(o.snapshot.session, o.staleAfterHours, o.polledAt)
  }

  function Sightings(poll: Poll): (r: seq<Sighting>)
    ensures |r| == |Listing(poll, poll.snapshots)|
  {
    var listed := Listing(poll, poll.snapshots);
    seq(|listed|, i requires 0 <= i < |listed| => Sighting(listed[i], poll.staleAfterHours, poll.polledAt))
  }

  /** What is remembered and what has been reported after a sequence of sightings. */
  datatype State = State(notified: Notified, candidates: seq<Candidate>)

  predicate Reports(notified: Notified, o: Sighting) {
    NeedsNotice(o) && !AlreadyNotified(notified, o.snapshot)
  }

  function See(s: State, o: Sighting): State {
    if Reports(s.notified, o) then
      State(s.notified[KeyOf(o.snapshot) := Notice(o.snapshot.latestSeq, o.polledAt)],
            s.candidates + [ToCandidate(o.snapshot, o.staleAfterHours, o.polledAt)])
    else s
  }

  function SeeAll(s: State, seen: seq<Sighting>): State {
    if seen == [] then s else See(SeeAll(s, seen[..|seen| - 1]), seen[|seen| - 1])
  }

  function Count(seen: seq<Sighting>, unreadOnly: bool): nat {
    if seen == [] then 0
    else
      var o := seen[|seen| - 1];
      Count(seen[..|seen| - 1], unreadOnly)
        + (if (if unreadOnly then IsUnread(o.snapshot) else NeedsNotice(o)) then 1 else 0)
  }

  lemma {:induction false} SeeAllAppend(s: State, a: seq<Sighting>, b: seq<Sighting>)
    ensures SeeAll(s, a + b) == SeeAll(SeeAll(s, a), b)
  {
    if b == [] {
      assert a + b == a;
    } else {
      SeeAllAppend(s, a, b[..|b| - 1]);
      assert a + b == (a + b[..|b| - 1]) + [b[|b| - 1]];
    }
  }

  // ----- the service

  datatype Result = Result(workspaceId: string, polledAt: int, candidates: seq<Candidate>, stats: Stats)

  class UnreadReconciliationService {
    var notified: Notified

    constructor ()
      ensures notified == map[]
    {
      notified := map[];
    }

    /** One poll reports exactly what seeing its listed participants in order adds, and its counts satisfy
        dormantUnread = candidates + deduplicated <= unread <= scanned. */
    method Reconcile(poll: Poll) returns (r: Result)
      requires poll.staleAfterHours > 0
      modifies this
      ensures State(notified, r.candidates) == SeeAll(State(old(notified), []), Sightings(poll))
      ensures r.workspaceId == poll.workspaceId && r.polledAt == poll.polledAt
      ensures r.stats.scanned == |Sightings(poll)|
      ensures r.stats.unread == Count(Sightings(poll), true)
      ensures r.stats.dormantUnread == Count(Sightings(poll), false) == |r.candidates| + r.stats.deduplicated
      ensures r.stats.dormantUnread <= r.stats.unread <= r.stats.scanned
    {
      var snapshots := Listing(poll, poll.snapshots);
      ghost var seen := Sightings(poll);
      var candidates: seq<Candidate> := [];
      var unread: nat, dormantUnread: nat, deduplicated: nat := 0, 0, 0;
      for i := 0 to |snapshots|
        invariant State(notified, candidates) == SeeAll(State(old(notified), []), seen[..i])
        invariant unread == Count(seen[..i], true)
        invariant dormantUnread == Count(seen[..i], false) == |candidates| + deduplicated
        invariant dormantUnread <= unread <= i
      {
        assert seen[..i + 1][..i] == seen[..i];
        var snapshot := snapshots[i];
        if snapshot.latestSeq <= snapshot.lastReadSeq {
          continue;
        }
        unread := unread + 1;
        if !IsDormant(snapshot.session, poll.staleAfterHours, poll.polledAt) {
          continue;
        }
        dormantUnread := dormantUnread + 1;
        var key := KeyOf(snapshot);
        if key in notified && notified[key].latestSeq >= snapshot.latestSeq {
          deduplicated := deduplicated + 1;
          continue;
        }
        notified := notified[key := Notice(snapshot.latestSeq, poll.polledAt)];
        candidates := candidates + [ToCandidate(snapshot, poll.staleAfterHours, poll.polledAt)];
      }
      assert seen[..|snapshots|] == seen;
      r := Result(poll.workspaceId, poll.polledAt, candidates,
                  Stats(|snapshots|, unread, dormantUnread, deduplicated));
    }
  }

  // ----- any sequence of polls

  const NOTHING := State(map[], [])

  function AllSightings(polls: seq<Poll>): seq<Sighting> {
    if polls == [] then [] else AllSightings(polls[..|polls| - 1]) + Sightings(polls[|polls| - 1])
  }

  /** The candidates of a sequence of polls, each poll starting from what the one before remembers. */
  function PollAll(polls: seq<Poll>): State {
    if polls == [] then NOTHING
    else
      var before := PollAll(polls[..|polls| - 1]);
      var pass := SeeAll(State(before.notified, []), Sightings(polls[|polls| - 1]));
      State(pass.notified, before.candidates + pass.candidates)
  }

  lemma {:induction false} CandidatesAppend(s: State, earlier: seq<Candidate>, seen: seq<Sighting>)
    ensures
      var pass := SeeAll(s, seen);
      SeeAll(State(s.notified, earlier + s.candidates), seen) == State(pass.notified, earlier + pass.candidates)
  {
    if seen != [] {
      CandidatesAppend(s, earlier, seen[..|seen| - 1]);
    }
  }

  /** Where one poll ends and the next begins does not matter. */
  lemma {:induction false} PollsAreOneRun(polls: seq<Poll>)
    ensures PollAll(polls) == SeeAll(NOTHING, AllSightings(polls))
  {
    if polls != [] {
      var before := polls[..|polls| - 1];
      PollsAreOneRun(before);
      SeeAllAppend(NOTHING, AllSightings(before), Sightings(polls[|polls| - 1]));
      CandidatesAppend(State(PollAll(before).notified, []), PollAll(before).candidates, Sightings(polls[|polls| - 1]));
      assert PollAll(before).candidates + [] == PollAll(before).candidates;
    }
  }

  /** The participant has unread messages and no active session with a recent heartbeat. */
  predicate DormantUnread(o: Sighting) {
    && o.snapshot.latestSeq > o.snapshot.lastReadSeq
    && (|| o.snapshot.session.None?
        || o.snapshot.session.value.status != Active
        || o.polledAt - o.snapshot.session.value.lastHeartbeatAt > o.staleAfterHours * 60 * 60 * 1000)
  }

  predicate SameParticipant(a: Snapshot, b: Snapshot) {
    a.threadId == b.threadId && a.agentId == b.agentId
  }

  /** The sighting is news: the participant is dormant and unread, and every earlier sighting of which that was so had
      a smaller latest sequence. */
  ghost predicate IsNews(seen: seq<Sighting>, i: nat)
    requires i < |seen|
  {
    && DormantUnread(seen[i])
    && forall j :: 0 <= j < i && SameParticipant(seen[j].snapshot, seen[i].snapshot) && DormantUnread(seen[j]) ==>
         seen[j].snapshot.latestSeq < seen[i].snapshot.latestSeq
  }

  lemma NeedsNoticeIsDormantUnread(o: Sighting)
    ensures NeedsNotice(o) <==> DormantUnread(o)
  {
  }

  lemma AllNoticesAreDormantUnread(seen: seq<Sighting>)
    ensures forall j :: 0 <= j < |seen| ==> (NeedsNotice(seen[j]) <==> DormantUnread(seen[j]))
  {
    forall j | 0 <= j < |seen| ensures NeedsNotice(seen[j]) <==> DormantUnread(seen[j]) {
      NeedsNoticeIsDormantUnread(seen[j]);
    }
  }

  /** What is remembered for a participant is the largest sequence that ever needed a notice. */
  ghost predicate Remembers(notified: Notified, seen: seq<Sighting>) {
    && (forall j :: 0 <= j < |seen| && NeedsNotice(seen[j]) ==>
         && KeyOf(seen[j].snapshot) in notified
         && seen[j].snapshot.latestSeq <= notified[KeyOf(seen[j].snapshot)].latestSeq)
    && (forall key :: key in notified ==>
         exists j :: 0 <= j < |seen| && NeedsNotice(seen[j]) && KeyOf(seen[j].snapshot) == key
                     && seen[j].snapshot.latestSeq == notified[key].latestSeq)
  }

  lemma {:induction false} RemembersLargest(seen: seq<Sighting>)
    ensures Remembers(SeeAll(NOTHING, seen).notified, seen)
  {
    if seen != [] {
      var before := seen[..|seen| - 1];
      RemembersLargest(before);
      SeeRemembers(SeeAll(NOTHING, before), before, seen[|seen| - 1]);
      assert seen == before + [seen[|seen| - 1]];
    }
  }

  lemma SeeRemembers(s: State, seen: seq<Sighting>, o: Sighting)
    requires Remembers(s.notified, seen)
    ensures Remembers(See(s, o).notified, seen + [o])
  {
    hide NeedsNotice;
    var t, all := See(s, o), seen + [o];
    forall key | key in t.notified
      ensures exists j :: 0 <= j < |all| && NeedsNotice(all[j]) && KeyOf(all[j].snapshot) == key
                          && all[j].snapshot.latestSeq == t.notified[key].latestSeq
    {
      if Reports(s.notified, o) && key == KeyOf(o.snapshot) {
        assert all[|seen|] == o;
      } else {
        var j :| 0 <= j < |seen| && NeedsNotice(seen[j]) && KeyOf(seen[j].snapshot) == key
                 && seen[j].snapshot.latestSeq == s.notified[key].latestSeq;
        assert all[j] == seen[j];
      }
    }
  }

  /** A sighting is reported exactly when it is news. */
  lemma ReportsExactlyNews(seen: seq<Sighting>, i: nat)
    requires i < |seen|
    ensures Reports(SeeAll(NOTHING, seen[..i]).notified, seen[i]) <==> IsNews(seen, i)
  {
    AllNoticesAreDormantUnread(seen);
    hide NeedsNotice, DormantUnread, SeeAll;
    var notified, o := SeeAll(NOTHING, seen[..i]).notified, seen[i];
    RemembersLargest(seen[..i]);
    if NeedsNotice(o) && !Reports(notified, o) {
      var j :| 0 <= j < i && NeedsNotice(seen[..i][j]) && KeyOf(seen[..i][j].snapshot) == KeyOf(o.snapshot)
               && seen[..i][j].snapshot.latestSeq == notified[KeyOf(o.snapshot)].latestSeq;
      assert seen[j] == seen[..i][j];
    }
    if Reports(notified, o) {
      forall j | 0 <= j < i && SameParticipant(seen[j].snapshot, o.snapshot) && DormantUnread(seen[j])
        ensures seen[j].snapshot.latestSeq < o.snapshot.latestSeq
      {
        assert seen[..i][j] == seen[j];
      }
    }
  }

  /** The news of a sequence of sightings, in order: an independent description of what is reported. */
  ghost function News(seen: seq<Sighting>, n: nat): seq<Candidate>
    requires n <= |seen|
  {
    if n == 0 then []
    else
      News(seen, n - 1)
      + (if IsNews(seen, n - 1) then [Reported(seen[n - 1])] else [])
  }

  /** What is reported of a sighting: how many messages are unread, and whether the session's heartbeat is too old. */
  function Reported(o: Sighting): Candidate {
    var x := o.snapshot;
    Candidate(
      x.threadId, x.workspaceId, x.agentId, x.latestSeq - x.lastReadSeq, x.latestSeq, x.lastReadSeq, x.session,
      x.session.Some? && o.polledAt - x.session.value.lastHeartbeatAt > o.staleAfterHours * 60 * 60 * 1000)
  }

  lemma {:induction false} SeenIsNews(seen: seq<Sighting>, n: nat)
    requires n <= |seen|
    ensures SeeAll(NOTHING, seen[..n]).candidates == News(seen, n)
  {
    if n > 0 {
      SeenIsNews(seen, n - 1);
      assert seen[..n][..n - 1] == seen[..n - 1];
      ReportsExactlyNews(seen, n - 1);
      hide IsNews;
    }
  }

  /** A poll looks at exactly the snapshots of its workspace whose thread is open, or at closed ones too if it is told
      to, as often as they are there. */
  lemma {:induction false} ListingIsExact(poll: Poll, snapshots: seq<Snapshot>, x: Snapshot)
    ensures multiset(Listing(poll, snapshots))[x]
         == if x.workspaceId == poll.workspaceId && (poll.includeClosed || !x.closed) then multiset(snapshots)[x] else 0
  {
    if snapshots != [] {
      var init, last := snapshots[..|snapshots| - 1], snapshots[|snapshots| - 1];
      ListingIsExact(poll, init, x);
      assert snapshots == init + [last];
    }
  }

  /** The first `n` indices that are marked. */
  function Marked(marks: seq<bool>, n: nat): set<int>
    requires n <= |marks|
  {
    set i | 0 <= i < n && marks[i]
  }

  lemma OneMoreMark(marks: seq<bool>, n: nat)
    requires 0 < n <= |marks|
    ensures |Marked(marks, n)| == |Marked(marks, n - 1)| + if marks[n - 1] then 1 else 0
  {
    assert Marked(marks, n) == Marked(marks, n - 1) + if marks[n - 1] then {n - 1} else {};
  }

  /** Counting the sightings that a mark says are counted. */
  lemma {:induction false} CountIsMarked(seen: seq<Sighting>, unreadOnly: bool, marks: seq<bool>, n: nat)
    requires n <= |seen| == |marks|
    requires forall i :: 0 <= i < n ==>
      marks[i] == if unreadOnly then IsUnread(seen[i].snapshot) else NeedsNotice(seen[i])
    ensures Count(seen[..n], unreadOnly) == |Marked(marks, n)|
  {
    hide NeedsNotice, IsUnread, Marked;
    if n == 0 {
      assert Marked(marks, 0) == {} by { NoMarks(marks); }
    } else {
      CountIsMarked(seen, unreadOnly, marks, n - 1);
      assert seen[..n][..n - 1] == seen[..n - 1];
      OneMoreMark(marks, n);
    }
  }

  lemma NoMarks(marks: seq<bool>)
    ensures Marked(marks, 0) == {}
  {
  }

  /** The two counts of a poll: the participants with unread messages, and the dormant ones among them. */
  lemma CountsAreExact(seen: seq<Sighting>)
    ensures Count(seen, true)
         == |set i | 0 <= i < |seen| && seen[i].snapshot.latestSeq > seen[i].snapshot.lastReadSeq|
    ensures Count(seen, false) == |set i | 0 <= i < |seen| && DormantUnread(seen[i])|
  {
    assert seen[..|seen|] == seen;
    var unread := seq(|seen|, i requires 0 <= i < |seen| => IsUnread(seen[i].snapshot));
    var dormant := seq(|seen|, i requires 0 <= i < |seen| => DormantUnread(seen[i]));
    AllNoticesAreDormantUnread(seen);
    CountIsMarked(seen, true, unread, |seen|);
    CountIsMarked(seen, false, dormant, |seen|);
    hide NeedsNotice, DormantUnread, Count;
    assert Marked(unread, |seen|) == set i | 0 <= i < |seen|
      && seen[i].snapshot.latestSeq > seen[i].snapshot.lastReadSeq;
    assert Marked(dormant, |seen|) == set i | 0 <= i < |seen| && DormantUnread(seen[i]);
  }

  /** Over any sequence of polls and any snapshots, the candidates are exactly the sightings of dormant unread
      participants whose latest sequence exceeds that of every earlier one of the same participant. */
  lemma CandidatesAreTheNews(polls: seq<Poll>)
    ensures PollAll(polls).candidates == News(AllSightings(polls), |AllSightings(polls)|)
  {
    PollsAreOneRun(polls);
    var seen := AllSightings(polls);
    SeenIsNews(seen, |seen|);
    assert seen[..|seen|] == seen;
  }

  /** So the sequences reported for one participant strictly increase. */
  lemma ReportedSequencesIncrease(polls: seq<Poll>, i: nat, j: nat)
    requires i < j < |PollAll(polls).candidates|
    ensures
      var a, b := PollAll(polls).candidates[i], PollAll(polls).candidates[j];
      a.threadId == b.threadId && a.agentId == b.agentId ==> a.latestSeq < b.latestSeq
  {
    PollsAreOneRun(polls);
    Increasing(AllSightings(polls));
  }

  /** Strictly increasing per participant, and never past what is remembered. */
  ghost predicate IncreasingPerKey(s: State) {
    && (forall i, j :: 0 <= i < j < |s.candidates| && s.candidates[i].threadId == s.candidates[j].threadId
                       && s.candidates[i].agentId == s.candidates[j].agentId ==>
         s.candidates[i].latestSeq < s.candidates[j].latestSeq)
    && (forall i :: 0 <= i < |s.candidates| ==>
         var key := (s.candidates[i].threadId, s.candidates[i].agentId);
         key in s.notified && s.candidates[i].latestSeq <= s.notified[key].latestSeq)
  }

  lemma {:induction false} Increasing(seen: seq<Sighting>)
    ensures IncreasingPerKey(SeeAll(NOTHING, seen))
  {
    if seen != [] {
      hide NeedsNotice;
      Increasing(seen[..|seen| - 1]);
    }
  }
}
