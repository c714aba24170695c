/** Unread polls of one process that overlap: a poll awaits between reading what was notified for a participant and
    marking it, and other polls run in between. */
module UnreadOverlap {
  import opened Wrappers
  import opened UnreadReconciliation

  /** `pending` holds, for each poll, the sighting it has decided to report and not yet marked. */
  datatype World = World(notified: Notified, pending: map<nat, Sighting>, candidates: seq<Candidate>)

  const EMPTY := World(map[], map[], [])

  datatype Event = Look(poll: nat, o: Sighting) | Mark(poll: nat)

  function Step(s: World, e: Event): World {
    match e
    case Look(poll, o) =>
      if poll !in s.pending && Reports(s.notified, o) then s.(pending := s.pending[poll := o]) else s
    case Mark(poll) =>
      if poll !in s.pending then s
      else
        var o := s.pending[poll];
        World(s.notified[KeyOf(o.snapshot) := Notice(o.snapshot.latestSeq, o.polledAt)], s.pending - {poll},
              s.candidates + [ToCandidate(o.snapshot, o.staleAfterHours, o.polledAt)])
  }

  function Run(events: seq<Event>): World {
    if events == [] then EMPTY else Step(Run(events[..|events| - 1]), events[|events| - 1])
  }

  /** A look and a mark that nothing separates are one step of the poll in sequence. */
  lemma LookAndMarkIsSee(s: World, poll: nat, o: Sighting)
    requires poll !in s.pending
    ensures
      var t, seen := Step(Step(s, Look(poll, o)), Mark(poll)), See(State(s.notified, s.candidates), o);
      t == World(seen.notified, s.pending, seen.candidates)
  {
    hide NeedsNotice;
    assert s.pending[poll := o] - {poll} == s.pending;
  }

  function CandidateKey(c: Candidate): Key {
    (c.threadId, c.agentId)
  }

  /** What is remembered for a participant is what some candidate reported, and what is pending needs a notice. */
  ghost predicate Remembered(s: World) {
    && (forall key :: key in s.notified ==> IsReported(s, key, s.notified[key].latestSeq))
    && (forall p :: p in s.pending ==> NeedsNotice(s.pending[p]))
  }

  ghost predicate IsReported(s: World, key: Key, latestSeq: nat) {
    exists i :: 0 <= i < |s.candidates| && CandidateKey(s.candidates[i]) == key
      && s.candidates[i].latestSeq == latestSeq
  }

  lemma StaysReported(s: World, c: Candidate, t: World, key: Key, latestSeq: nat)
    requires t.candidates == s.candidates + [c] && IsReported(s, key, latestSeq)
    ensures IsReported(t, key, latestSeq)
  {
    var i :| 0 <= i < |s.candidates| && CandidateKey(s.candidates[i]) == key && s.candidates[i].latestSeq == latestSeq;
    assert t.candidates[i] == s.candidates[i];
  }

  lemma {:induction false} RunRemembers(events: seq<Event>)
    ensures Remembered(Run(events))
  {
    if events != [] {
      var s, e := Run(events[..|events| - 1]), events[|events| - 1];
      RunRemembers(events[..|events| - 1]);
      var t := Run(events);
      if e.Mark? && e.poll in s.pending {
        var o := s.pending[e.poll];
        assert CandidateKey(t.candidates[|s.candidates|]) == KeyOf(o.snapshot);
        forall key | key in t.notified ensures IsReported(t, key, t.notified[key].latestSeq) {
          if key != KeyOf(o.snapshot) {
            StaysReported(s, t.candidates[|s.candidates|], t, key, t.notified[key].latestSeq);
          }
        }
      }
    }
  }

  /** News is never lost: however polls overlap, a dormant unread sighting whose sequence exceeds every one reported
      so far for its participant is taken up by the poll that looks at it, and only sightings that need a notice
      are. */
  lemma NewsIsTakenUp(events: seq<Event>, poll: nat, o: Sighting)
    requires poll !in Run(events).pending
    ensures
      var s, t := Run(events), Step(Run(events), Look(poll, o));
      var news := forall i :: 0 <= i < |s.candidates| && CandidateKey(s.candidates[i]) == KeyOf(o.snapshot) ==>
        s.candidates[i].latestSeq < o.snapshot.latestSeq;
      && (NeedsNotice(o) && news ==> poll in t.pending && t.pending[poll] == o)
      && (poll in t.pending ==> NeedsNotice(o))
  {
    RunRemembers(events);
    hide Run, NeedsNotice;
    var s := Run(events);
    if KeyOf(o.snapshot) in s.notified {
      var key := KeyOf(o.snapshot);
      var i :| 0 <= i < |s.candidates| && CandidateKey(s.candidates[i]) == key
               && s.candidates[i].latestSeq == s.notified[key].latestSeq;
    }
  }

  // ----- when a sequence can be reported again

  /** Two polls have decided to report the same participant and neither has marked it. */
  predicate Overlapping(s: World, key: Key, p: nat, q: nat) {
    && p != q && p in s.pending && q in s.pending
    && KeyOf(s.pending[p].snapshot) == key && KeyOf(s.pending[q].snapshot) == key
  }

  ghost predicate OneAtATime(events: seq<Event>, key: Key) {
    forall n, p, q :: 0 <= n <= |events| ==> !Overlapping(Run(events[..n]), key, p, q)
  }

  /** The participant's candidates increase, up to what is remembered, and what is pending lies beyond. */
  ghost predicate Increasing(s: World, key: Key) {
    && (forall i, j :: 0 <= i < j < |s.candidates| && CandidateKey(s.candidates[i]) == key
                       && CandidateKey(s.candidates[j]) == key ==>
         s.candidates[i].latestSeq < s.candidates[j].latestSeq)
    && (forall i :: 0 <= i < |s.candidates| && CandidateKey(s.candidates[i]) == key ==>
         key in s.notified && s.candidates[i].latestSeq <= s.notified[key].latestSeq)
    && (forall p :: p in s.pending && KeyOf(s.pending[p].snapshot) == key && key in s.notified ==>
         s.notified[key].latestSeq < s.pending[p].snapshot.latestSeq)
  }

  lemma AloneKeepsIncreasing(s: World, e: Event, key: Key)
    requires Increasing(s, key) && forall p, q :: !Overlapping(s, key, p, q)
    ensures Increasing(Step(s, e), key)
  {
    hide NeedsNotice;
    var t := Step(s, e);
    if e.Mark? && e.poll in s.pending {
      forall p | p in t.pending && KeyOf(t.pending[p].snapshot) == key && key in t.notified
        ensures t.notified[key].latestSeq < t.pending[p].snapshot.latestSeq
      {
        assert !Overlapping(s, key, p, e.poll);
      }
    }
  }

  lemma {:induction false} AloneRunIncreases(events: seq<Event>, key: Key)
    requires OneAtATime(events, key)
    ensures Increasing(Run(events), key)
  {
    if events != [] {
      hide Step, Overlapping, Increasing;
      var before := events[..|events| - 1];
      forall n, p, q | 0 <= n <= |before| ensures !Overlapping(Run(before[..n]), key, p, q) {
        assert before[..n] == events[..n];
      }
      AloneRunIncreases(before, key);
      AloneKeepsIncreasing(Run(before), events[|events| - 1], key);
    } else {
      assert Increasing(EMPTY, key);
    }
  }

  /** If no two polls are ever about to report the same participant at once, its reported sequences strictly
      increase, whatever else overlaps. */
  lemma {:induction false} ReportedOnce(events: seq<Event>, key: Key, i: nat, j: nat)
    requires OneAtATime(events, key) && i < j < |Run(events).candidates|
    requires CandidateKey(Run(events).candidates[i]) == key && CandidateKey(Run(events).candidates[j]) == key
    ensures Run(events).candidates[i].latestSeq < Run(events).candidates[j].latestSeq
  {
    AloneRunIncreases(events, key);
    hide Run;
  }

  /** The condition is exact: wherever two polls overlap on a participant, they can finish so that a sequence is
      reported that is no news any more. */
  lemma OverlapReportsAgain(events: seq<Event>, key: Key, p: nat, q: nat)
    requires Overlapping(Run(events), key, p, q)
    requires Run(events).pending[p].snapshot.latestSeq >= Run(events).pending[q].snapshot.latestSeq
    ensures
      var candidates := Run(events + [Mark(p)] + [Mark(q)]).candidates;
      var n := |candidates|;
      && n >= 2 && CandidateKey(candidates[n - 2]) == CandidateKey(candidates[n - 1]) == key
      && candidates[n - 1].latestSeq <= candidates[n - 2].latestSeq
  {
    RunSnoc(events, Mark(p));
    RunSnoc(events + [Mark(p)], Mark(q));
    hide Run;
  }

  /** Such overlaps happen: any sighting that two idle polls look at while it is news. */
  lemma TwoLooksOverlap(events: seq<Event>, o: Sighting, p: nat, q: nat)
    requires p != q && p !in Run(events).pending && q !in Run(events).pending && Reports(Run(events).notified, o)
    ensures Overlapping(Run(events + [Look(p, o)] + [Look(q, o)]), KeyOf(o.snapshot), p, q)
  {
    RunSnoc(events, Look(p, o));
    RunSnoc(events + [Look(p, o)], Look(q, o));
    hide Run, Reports;
  }

  lemma RunSnoc(events: seq<Event>, e: Event)
    ensures Run(events + [e]) == Step(Run(events), e)
  {
    assert (events + [e])[..|events|] == events;
  }
}
