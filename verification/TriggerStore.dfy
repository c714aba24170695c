/** The in-memory trigger queue store: claiming due jobs, recording attempts, blocking threads. */
module TriggerStore {
  import opened Wrappers
  import opened Numbers
  import opened TriggerModel
  import opened StableSort
  import opened TriggerDecision

  datatype BlockRecord = BlockRecord(blockedAt: int, reason: BlockReason)

  /** The contents of a store. `order` is the insertion order in which a `Map` iterates its keys. */
  datatype StoreState = StoreState(
    order: seq<string>, jobs: map<string, Job>, blocked: map<string, BlockRecord>, attempts: map<string, seq<Attempt>>)

  ghost predicate ValidStore(s: StoreState) {
    && (forall i, j :: 0 <= i < j < |s.order| ==> s.order[i] != s.order[j])
    && (forall id :: id in s.order <==> id in s.jobs)
    && (forall id :: id in s.jobs ==> s.jobs[id].triggerId == id)
  }

  function CreatedAt(job: Job): int { job.createdAt }

  function NewestFirst(job: Job): int { -job.updatedAt }

  /** The due jobs among the first `n` keys, in insertion order. */
  function DueJobs(s: StoreState, workspaceId: string, now: int, n: nat): seq<Job>
    requires n <= |s.order| && forall id :: id in s.order ==> id in s.jobs
  {
    if n == 0 then []
    else
      var job := s.jobs[s.order[n - 1]];
      DueJobs(s, workspaceId, now, n - 1) + (if IsDue(job, workspaceId, now) then [job] else [])
  }

  function Candidates(s: StoreState, workspaceId: string, limit: nat, now: int): seq<Job>
    requires forall id :: id in s.order ==> id in s.jobs
  {
    Take(SortBy(CreatedAt, DueJobs(s, workspaceId, now, |s.order|)), limit)
  }

  function ClaimedCopies(candidates: seq<Job>, now: int, n: nat): seq<Job>
    requires n <= |candidates|
  {
    if n == 0 then [] else ClaimedCopies(candidates, now, n - 1) + [Claimed(candidates[n - 1], now)]
  }

  function ApplyClaims(jobs: map<string, Job>, candidates: seq<Job>, now: int, n: nat): map<string, Job>
    requires n <= |candidates|
  {
    if n == 0 then jobs
    else ApplyClaims(jobs, candidates, now, n - 1)[candidates[n - 1].triggerId := Claimed(candidates[n - 1], now)]
  }

  /** The state after a claim, and the jobs the caller now holds. */
  function ClaimState(s: StoreState, workspaceId: string, limit: nat, now: int): StoreState
    requires forall id :: id in s.order ==> id in s.jobs
  {
    var c := Candidates(s, workspaceId, limit, now);
    s.(jobs := ApplyClaims(s.jobs, c, now, |c|))
  }

  function ClaimResult(s: StoreState, workspaceId: string, limit: nat, now: int): seq<Job>
    requires forall id :: id in s.order ==> id in s.jobs
  {
    var c := Candidates(s, workspaceId, limit, now);
    ClaimedCopies(c, now, |c|)
  }

  predicate CanRecord(s: StoreState, triggerId: string) {
    triggerId in s.jobs && s.jobs[triggerId].status.Triggering?
  }

  function AttemptsOf(s: StoreState, triggerId: string): seq<Attempt> {
    if triggerId in s.attempts then s.attempts[triggerId] else []
  }

  function RecordState(s: StoreState, triggerId: string, attempt: Attempt, nextStatus: Status,
                       nextRetryAt: Option<int>): StoreState {
    if !CanRecord(s, triggerId) then s
    else s.(
      attempts := s.attempts[triggerId := AttemptsOf(s, triggerId) + [attempt]],
      jobs := s.jobs[triggerId := s.jobs[triggerId].(
        attempts := attempt.attemptNo, status := nextStatus, nextRetryAt := nextRetryAt,
          updatedAt := attempt.createdAt)])
  }

  function BlockState(s: StoreState, threadId: string, block: BlockRecord): StoreState {
    if threadId in s.blocked then s else s.(blocked := s.blocked[threadId := block])
  }

  function FailedJobs(s: StoreState, workspaceId: string, n: nat): seq<Job>
    requires n <= |s.order| && forall id :: id in s.order ==> id in s.jobs
  {
    if n == 0 then []
    else
      var job := s.jobs[s.order[n - 1]];
      FailedJobs(s, workspaceId, n - 1) + (if job.workspaceId == workspaceId && job.status.Failed? then [job] else [])
  }

  function DeadLetters(s: StoreState, workspaceId: string, limit: nat): seq<Job>
    requires forall id :: id in s.order ==> id in s.jobs
  {
    Take(SortBy(NewestFirst, FailedJobs(s, workspaceId, |s.order|)), limit)
  }

  /** A record is written only for a job that is `triggering`, and then touches no other. */
  lemma RecordTouchesOneTriggering(s: StoreState, id: string, attempt: Attempt, nextStatus: Status,
                                   nextRetryAt: Option<int>)
    ensures RecordState(s, id, attempt, nextStatus, nextRetryAt)
      == if id in s.jobs && s.jobs[id].status == Triggering then
           s.(jobs := s.jobs[id := s.jobs[id].(attempts := attempt.attemptNo, status := nextStatus,
                                               nextRetryAt := nextRetryAt, updatedAt := attempt.createdAt)],
              attempts := s.attempts[id := (if id in s.attempts then s.attempts[id] else []) + [attempt]])
         else s
  {
  }

  // ----- what a claim takes

  lemma {:induction false} DueJobsExact(s: StoreState, workspaceId: string, now: int, n: nat)
    requires ValidStore(s) && n <= |s.order|
    ensures forall job :: job in DueJobs(s, workspaceId, now, n) <==>
      job.triggerId in s.order[..n] && s.jobs[job.triggerId] == job && IsDue(job, workspaceId, now)
    ensures forall i, j :: 0 <= i < j < |DueJobs(s, workspaceId, now, n)| ==>
      DueJobs(s, workspaceId, now, n)[i] != DueJobs(s, workspaceId, now, n)[j]
  {
    if n > 0 {
      DueJobsExact(s, workspaceId, now, n - 1);
      assert s.order[..n] == s.order[..n - 1] + [s.order[n - 1]];
    }
  }

  lemma CandidatesAreDue(s: StoreState, workspaceId: string, limit: nat, now: int)
    requires ValidStore(s)
    ensures forall job :: job in Candidates(s, workspaceId, limit, now) ==>
      job.triggerId in s.jobs && s.jobs[job.triggerId] == job && IsDue(job, workspaceId, now)
    ensures forall i, j :: 0 <= i < j < |Candidates(s, workspaceId, limit, now)| ==>
      Candidates(s, workspaceId, limit, now)[i].triggerId != Candidates(s, workspaceId, limit, now)[j].triggerId
  {
    var due := DueJobs(s, workspaceId, now, |s.order|);
    DueJobsExact(s, workspaceId, now, |s.order|);
    SortByKeepsMembers(CreatedAt, due);
    SortByKeepsDistinct(CreatedAt, due);
    var c := Candidates(s, workspaceId, limit, now);
    var sorted := SortBy(CreatedAt, due);
    forall i, j | 0 <= i < j < |c| ensures c[i].triggerId != c[j].triggerId {
      assert c[i] == sorted[i] && c[j] == sorted[j];
      assert c[i] in due && c[j] in due;
    }
  }

  /** A claim takes exactly min(limit, due) due jobs of the workspace, the oldest ones first, and among jobs of
      one creation time those that come first in the store. */
  lemma {:induction false} ClaimTakesTheOldestDue(s: StoreState, workspaceId: string, limit: nat, now: int, job: Job,
                                                  other: Job, k: int)
    requires ValidStore(s)
    ensures
      var due := DueJobs(s, workspaceId, now, |s.order|);
      var c := Candidates(s, workspaceId, limit, now);
      && (job in due <==>
           && job.triggerId in s.jobs && s.jobs[job.triggerId] == job && job.workspaceId == workspaceId
           && job.status in {Queued, Timeout, Deferred}
           && (job.nextRetryAt.Some? ==> job.nextRetryAt.value <= now))
      && |c| == Min(|due|, limit)
      && (forall i, j :: 0 <= i < j < |c| ==> c[i].createdAt <= c[j].createdAt)
      && (job in c ==> job in due)
      && (job in c && other in due && other !in c ==> job.createdAt <= other.createdAt)
      && WithKey(CreatedAt, c, k) <= WithKey(CreatedAt, due, k)
  {
    hide DueJobs, SortBy, WithKey, Take;
    DueJobsExact(s, workspaceId, now, |s.order|);
    assert s.order[..|s.order|] == s.order;
    FirstAreLeast(CreatedAt, DueJobs(s, workspaceId, now, |s.order|), limit, job, other, k);
    var c := Candidates(s, workspaceId, limit, now);
    forall i, j | 0 <= i < j < |c| ensures c[i].createdAt <= c[j].createdAt {
      assert CreatedAt(c[i]) <= CreatedAt(c[j]);
    }
  }

  // ----- what the dead-letter list shows

  lemma {:induction false} FailedJobsExact(s: StoreState, workspaceId: string, n: nat)
    requires ValidStore(s) && n <= |s.order|
    ensures forall job :: job in FailedJobs(s, workspaceId, n) <==>
      job.triggerId in s.order[..n] && s.jobs[job.triggerId] == job && job.workspaceId == workspaceId
        && job.status.Failed?
    ensures forall i, j :: 0 <= i < j < |FailedJobs(s, workspaceId, n)| ==>
      FailedJobs(s, workspaceId, n)[i] != FailedJobs(s, workspaceId, n)[j]
  {
    if n > 0 {
      FailedJobsExact(s, workspaceId, n - 1);
      assert s.order[..n] == s.order[..n - 1] + [s.order[n - 1]];
    }
  }

  /** The list shows exactly min(limit, failed) failed jobs of the workspace, the most recently updated first;
      none that is left out was updated later than one that is shown; jobs updated at one time come in store
      order. */
  lemma {:induction false} DeadLettersAreTheNewestFailed(s: StoreState, workspaceId: string, limit: nat, job: Job,
                                                         other: Job, k: int)
    requires ValidStore(s)
    ensures
      var failed := FailedJobs(s, workspaceId, |s.order|);
      var letters := DeadLetters(s, workspaceId, limit);
      && (job in failed <==>
           job.triggerId in s.jobs && s.jobs[job.triggerId] == job && job.workspaceId == workspaceId
             && job.status.Failed?)
      && |letters| == Min(|failed|, limit)
      && (forall i, j :: 0 <= i < j < |letters| ==> letters[i].updatedAt >= letters[j].updatedAt)
      && (job in letters ==> job in failed)
      && (job in letters && other in failed && other !in letters ==> job.updatedAt >= other.updatedAt)
      && WithKey(NewestFirst, letters, k) <= WithKey(NewestFirst, failed, k)
  {
    hide FailedJobs, SortBy, WithKey, Take;
    FailedJobsExact(s, workspaceId, |s.order|);
    assert s.order[..|s.order|] == s.order;
    FirstAreLeast(NewestFirst, FailedJobs(s, workspaceId, |s.order|), limit, job, other, k);
    var letters := DeadLetters(s, workspaceId, limit);
    forall i, j | 0 <= i < j < |letters| ensures letters[i].updatedAt >= letters[j].updatedAt {
      assert NewestFirst(letters[i]) <= NewestFirst(letters[j]);
    }
  }

  lemma DeadLettersListed(s: StoreState, workspaceId: string, limit: nat)
    requires ValidStore(s)
    ensures
      var letters := DeadLetters(s, workspaceId, limit);
      && |letters| <= limit
      && (forall job :: job in letters ==>
           job.triggerId in s.jobs && s.jobs[job.triggerId] == job && job.workspaceId == workspaceId
             && job.status.Failed?)
      && (forall i, j :: 0 <= i < j < |letters| ==> letters[i].updatedAt >= letters[j].updatedAt)
      && (|letters| < limit ==>
          forall id :: id in s.jobs && s.jobs[id].workspaceId == workspaceId && s.jobs[id].status.Failed? ==>
           s.jobs[id] in letters)
  {
    var failed, letters := FailedJobs(s, workspaceId, |s.order|), DeadLetters(s, workspaceId, limit);
    SortByKeepsMembers(NewestFirst, failed);
    forall job ensures job in letters ==>
        job.triggerId in s.jobs && s.jobs[job.triggerId] == job && job.workspaceId == workspaceId && job.status.Failed?
      ensures forall i, j :: 0 <= i < j < |letters| ==> letters[i].updatedAt >= letters[j].updatedAt
      ensures |letters| == Min(|failed|, limit)
      ensures job in failed <==>
        job.triggerId in s.jobs && s.jobs[job.triggerId] == job && job.workspaceId == workspaceId && job.status.Failed?
    {
      DeadLettersAreTheNewestFailed(s, workspaceId, limit, job, job, 0);
    }
  }

  predicate DistinctIds(jobs: seq<Job>) {
    forall i, j :: 0 <= i < j < |jobs| ==> jobs[i].triggerId != jobs[j].triggerId
  }

  lemma {:induction false} ApplyClaimsHit(jobs: map<string, Job>, candidates: seq<Job>, now: int, n: nat, i: nat)
    requires i < n <= |candidates| && DistinctIds(candidates)
    ensures candidates[i].triggerId in ApplyClaims(jobs, candidates, now, n)
    ensures ApplyClaims(jobs, candidates, now, n)[candidates[i].triggerId] == Claimed(candidates[i], now)
  {
    if i < n - 1 {
      ApplyClaimsHit(jobs, candidates, now, n - 1, i);
    }
  }

  lemma {:induction false} ApplyClaimsMiss(jobs: map<string, Job>, candidates: seq<Job>, now: int, n: nat, id: string)
    requires n <= |candidates| && forall i :: 0 <= i < n ==> candidates[i].triggerId != id
    ensures id in ApplyClaims(jobs, candidates, now, n) <==> id in jobs
    ensures id in jobs ==> ApplyClaims(jobs, candidates, now, n)[id] == jobs[id]
  {
    if n > 0 {
      ApplyClaimsMiss(jobs, candidates, now, n - 1, id);
    }
  }

  lemma {:induction false} ApplyClaimsKeys(jobs: map<string, Job>, candidates: seq<Job>, now: int, n: nat)
    requires n <= |candidates| && forall i :: 0 <= i < n ==> candidates[i].triggerId in jobs
    ensures ApplyClaims(jobs, candidates, now, n).Keys == jobs.Keys
  {
    if n > 0 {
      ApplyClaimsKeys(jobs, candidates, now, n - 1);
    }
  }

  lemma {:induction false} ClaimedCopiesAt(candidates: seq<Job>, now: int, n: nat)
    requires n <= |candidates|
    ensures |ClaimedCopies(candidates, now, n)| == n
    ensures forall i :: 0 <= i < n ==> ClaimedCopies(candidates, now, n)[i] == Claimed(candidates[i], now)
  {
    if n > 0 {
      ClaimedCopiesAt(candidates, now, n - 1);
    }
  }

  /** A claimed job is now `triggering` in the store exactly as returned, and it was due before. */
  lemma ClaimedJobsAreHeld(s: StoreState, workspaceId: string, limit: nat, now: int, i: nat)
    requires ValidStore(s) && i < |ClaimResult(s, workspaceId, limit, now)|
    ensures
      var s' := ClaimState(s, workspaceId, limit, now);
      var job := ClaimResult(s, workspaceId, limit, now)[i];
      && job.triggerId in s.jobs && IsDue(s.jobs[job.triggerId], workspaceId, now)
      && job.triggerId in s'.jobs
      && s'.jobs[job.triggerId] == job == s.jobs[job.triggerId].(status := Triggering, updatedAt := now)
  {
    var c := Candidates(s, workspaceId, limit, now);
    CandidatesAreDue(s, workspaceId, limit, now);
    ClaimedCopiesAt(c, now, |c|);
    assert c[i] in c;
    ApplyClaimsHit(s.jobs, c, now, |c|, i);
  }

  /** A claim changes no job but those it returns, and returns no job twice. */
  lemma ClaimChangesNothingElse(s: StoreState, workspaceId: string, limit: nat, now: int)
    requires ValidStore(s)
    ensures ValidStore(ClaimState(s, workspaceId, limit, now))
    ensures DistinctIds(ClaimResult(s, workspaceId, limit, now))
    ensures |ClaimResult(s, workspaceId, limit, now)| == |Candidates(s, workspaceId, limit, now)|
    ensures ClaimState(s, workspaceId, limit, now).jobs.Keys == s.jobs.Keys
    ensures forall id ::
      (id in s.jobs && forall job :: job in ClaimResult(s, workspaceId, limit, now) ==> job.triggerId != id) ==>
        ClaimState(s, workspaceId, limit, now).jobs[id] == s.jobs[id]
  {
    var c := Candidates(s, workspaceId, limit, now);
    CandidatesAreDue(s, workspaceId, limit, now);
    ClaimedCopiesAt(c, now, |c|);
    ApplyClaimsKeys(s.jobs, c, now, |c|);
    var s' := ClaimState(s, workspaceId, limit, now);
    var claimed := ClaimResult(s, workspaceId, limit, now);
    forall id | id in s.jobs && (forall job :: job in claimed ==> job.triggerId != id)
      ensures s'.jobs[id] == s.jobs[id]
    {
      forall i | 0 <= i < |c| ensures c[i].triggerId != id {
        assert claimed[i] in claimed;
      }
      ApplyClaimsMiss(s.jobs, c, now, |c|, id);
    }
    forall id | id in s'.jobs ensures s'.jobs[id].triggerId == id {
      if i :| 0 <= i < |c| && c[i].triggerId == id {
        ApplyClaimsHit(s.jobs, c, now, |c|, i);
      } else {
        ApplyClaimsMiss(s.jobs, c, now, |c|, id);
      }
    }
  }

  lemma NothingClaimed(jobs: map<string, Job>, candidates: seq<Job>, now: int)
    ensures ApplyClaims(jobs, candidates, now, 0) == jobs && ClaimedCopies(candidates, now, 0) == []
  {
  }

  /** When a candidate's turn comes its job is as it was read, so no re-check of the loop ever fails. */
  lemma {:induction false} NextClaim(s: StoreState, c: seq<Job>, workspaceId: string, limit: nat, now: int, k: nat)
    requires ValidStore(s) && c == Candidates(s, workspaceId, limit, now) && k < |c|
    ensures
      var jobs := ApplyClaims(s.jobs, c, now, k);
      && c[k].triggerId in jobs && jobs[c[k].triggerId] == c[k]
      && ApplyClaims(s.jobs, c, now, k + 1) == jobs[c[k].triggerId := Claimed(c[k], now)]
      && ClaimedCopies(c, now, k + 1) == ClaimedCopies(c, now, k) + [Claimed(c[k], now)]
  {
    CandidatesAreDue(s, workspaceId, limit, now);
    hide Candidates, ValidStore, IsDue;
    assert c[k] in c;
    ApplyClaimsMiss(s.jobs, c, now, k, c[k].triggerId);
  }

  /** The store a list of seeds builds; a later seed with the same id replaces the earlier one in place. */
  function Seeded(seedJobs: seq<Job>, n: nat): StoreState
    requires n <= |seedJobs|
  {
    if n == 0 then StoreState([], map[], map[], map[])
    else
      var s := Seeded(seedJobs, n - 1);
      var job := seedJobs[n - 1];
      s.(order := if job.triggerId in s.jobs then s.order else s.order + [job.triggerId],
         jobs := s.jobs[job.triggerId := job])
  }

  lemma {:induction false} SeededIsValid(seedJobs: seq<Job>, n: nat)
    requires n <= |seedJobs|
    ensures ValidStore(Seeded(seedJobs, n))
    ensures forall id :: id in Seeded(seedJobs, n).jobs ==> Seeded(seedJobs, n).jobs[id] in seedJobs[..n]
    ensures DistinctIds(seedJobs[..n]) ==> forall i :: 0 <= i < n ==>
      seedJobs[i].triggerId in Seeded(seedJobs, n).jobs
        && Seeded(seedJobs, n).jobs[seedJobs[i].triggerId] == seedJobs[i]
  {
    if n > 0 {
      SeededIsValid(seedJobs, n - 1);
      assert seedJobs[..n] == seedJobs[..n - 1] + [seedJobs[n - 1]];
      if DistinctIds(seedJobs[..n]) {
        assert forall i :: 0 <= i < n ==> seedJobs[..n][i] == seedJobs[i];
        assert forall i :: 0 <= i < n - 1 ==> seedJobs[..n - 1][i] == seedJobs[i];
      }
    }
  }

  /** The store of a single-process run. */
  class InMemoryTriggerQueueStore {
    var order: seq<string>
    var jobs: map<string, Job>
    var blockedThreads: map<string, BlockRecord>
    var attemptsByTrigger: map<string, seq<Attempt>>

    ghost predicate Valid()
      reads this
    {
      ValidStore(State())
    }

    function State(): StoreState
      reads this
    {
      StoreState(order, jobs, blockedThreads, attemptsByTrigger)
    }

    constructor (seedJobs: seq<Job>)
      ensures Valid() && State() == Seeded(seedJobs, |seedJobs|)
    {
      order, jobs, blockedThreads, attemptsByTrigger := [], map[], map[], map[];
      new;
      for k := 0 to |seedJobs|
        invariant State() == Seeded(seedJobs, k)
      {
        var job := seedJobs[k];
        if job.triggerId !in jobs {
          order := order + [job.triggerId];
        }
        jobs := jobs[job.triggerId := job];
      }
      SeededIsValid(seedJobs, |seedJobs|);
    }

    method ClaimDueJobs(workspaceId: string, limit: nat, claimedAt: int) returns (claimed: seq<Job>)
      requires Valid()
      modifies this`jobs
      ensures State() == old(ClaimState(State(), workspaceId, limit, claimedAt))
      ensures claimed == old(ClaimResult(State(), workspaceId, limit, claimedAt))
      ensures Valid()
    {
      var due := Candidates(State(), workspaceId, limit, claimedAt);
      ghost var before := State();
      CandidatesAreDue(before, workspaceId, limit, claimedAt);
      claimed := [];
      NothingClaimed(before.jobs, due, claimedAt);
      hide Candidates, ValidStore, IsDue, ApplyClaims, ClaimedCopies;
      for k := 0 to |due|
        invariant State() == before.(jobs := ApplyClaims(before.jobs, due, claimedAt, k))
        invariant claimed == ClaimedCopies(due, claimedAt, k)
      {
        var candidate := due[k];
        NextClaim(before, due, workspaceId, limit, claimedAt, k);
        if candidate.triggerId !in jobs {
          continue;
        }
        var current := jobs[candidate.triggerId];
        if current.status != candidate.status {
          continue;
        }
        if current.updatedAt != candidate.updatedAt {
          continue;
        }
        var triggering := current.(status := Triggering, updatedAt := claimedAt);
        jobs := jobs[triggering.triggerId := triggering];
        claimed := claimed + [triggering];
      }
      ClaimChangesNothingElse(before, workspaceId, limit, claimedAt);
    }

    method RecordAttemptAndTransition(triggerId: string, attemptNo: nat, result: AttemptResult,
                                      errorCode: Option<string>,
                                      nextStatus: Status, nextRetryAt: Option<int>, transitionedAt: int)
      returns (updated: Option<Job>)
      requires Valid()
      modifies this`jobs, this`attemptsByTrigger
      ensures State() == old(RecordState(State(), triggerId, Attempt(attemptNo, result, errorCode, transitionedAt),
                                         nextStatus, nextRetryAt))
      ensures updated == if old(CanRecord(State(), triggerId)) then Some(jobs[triggerId]) else None
      ensures Valid()
    {
      if triggerId !in jobs || !jobs[triggerId].status.Triggering? {
        return None;
      }
      var current := jobs[triggerId];
      var attempts := if triggerId in attemptsByTrigger then attemptsByTrigger[triggerId] else [];
      attempts := attempts + [Attempt(attemptNo, result, errorCode, transitionedAt)];
      attemptsByTrigger := attemptsByTrigger[triggerId := attempts];
      var next := current.(attempts := attemptNo, status := nextStatus, nextRetryAt := nextRetryAt,
                           updatedAt := transitionedAt);
      jobs := jobs[triggerId := next];
      return Some(next);
    }

    method ListDeadLetterJobs(workspaceId: string, limit: nat) returns (letters: seq<Job>)
      requires Valid()
      ensures letters == DeadLetters(State(), workspaceId, limit)
      ensures |letters| <= limit
      ensures forall job :: job in letters ==>
        job.triggerId in jobs && jobs[job.triggerId] == job && job.workspaceId == workspaceId && job.status.Failed?
      ensures forall i, j :: 0 <= i < j < |letters| ==> letters[i].updatedAt >= letters[j].updatedAt
      ensures |letters| < limit ==>
        forall id :: id in jobs && jobs[id].workspaceId == workspaceId && jobs[id].status.Failed? ==>
        jobs[id] in letters
    {
      letters := DeadLetters(State(), workspaceId, limit);
      DeadLettersListed(State(), workspaceId, limit);
    }

    method MarkThreadBlocked(threadId: string, blockedAt: int, reason: BlockReason) returns (blocked: bool)
      requires Valid()
      modifies this`blockedThreads
      ensures State() == old(BlockState(State(), threadId, BlockRecord(blockedAt, reason)))
      ensures blocked <==> threadId !in old(blockedThreads)
      ensures Valid()
    {
      if threadId in blockedThreads {
        return false;
      }
      blockedThreads := blockedThreads[threadId := BlockRecord(blockedAt, reason)];
      return true;
    }
  }
}
