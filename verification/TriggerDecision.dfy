/** The pure decisions one attempt goes through: backoff, retry or fallback, and the thread loop guard. */
module TriggerDecision {
  import opened Wrappers
  import opened Numbers
  import opened TriggerModel

  // ----- backoff

  function Pow2(n: nat): nat {
    if n == 0 then 1 else 2 * Pow2(n - 1)
  }

  function Backoff(cfg: Config, attemptNo: int): int {
    Min(cfg.backoffBaseMs * Pow2(Max(attemptNo - 1, 0)), cfg.backoffMaxMs)
  }

  /** The delay starts at the base, doubles from one attempt to the next and saturates at the maximum;
      these equations determine it for every attempt number. */
  lemma BackoffDoublesUntilCapped(cfg: Config, n: nat)
    requires ValidConfig(cfg)
    ensures Backoff(cfg, 0) == Backoff(cfg, 1) == Min(cfg.backoffBaseMs, cfg.backoffMaxMs)
    ensures n > 0 ==> Backoff(cfg, n + 1) == Min(2 * Backoff(cfg, n), cfg.backoffMaxMs)
    ensures 0 < Backoff(cfg, n) <= Backoff(cfg, n + 1) <= cfg.backoffMaxMs
  {
    Pow2Positive(Max(n - 1, 0));
    var raw := cfg.backoffBaseMs * Pow2(Max(n - 1, 0));
    assert raw > 0;
    if n > 0 {
      assert Pow2(n) == 2 * Pow2(n - 1);
      assert cfg.backoffBaseMs * Pow2(n) == 2 * raw;
    }
  }

  lemma {:induction false} Pow2Positive(n: nat)
    ensures Pow2(n) >= 1
  {
    if n > 0 {
      Pow2Positive(n - 1);
    }
  }

  lemma {:induction false} BackoffMonotone(cfg: Config, m: nat, n: nat)
    requires ValidConfig(cfg) && m <= n
    ensures 0 < Backoff(cfg, m) <= Backoff(cfg, n)
  {
    BackoffDoublesUntilCapped(cfg, m);
    if m < n {
      BackoffMonotone(cfg, m, n - 1);
      BackoffDoublesUntilCapped(cfg, n - 1);
    }
  }

  // ----- retry, fallback, dead letter

  function RetryStatus(result: AttemptResult): Status {
    if result.AttemptDeferred? then Deferred
    else if result.AttemptTimeout? then Timeout
    else Failed
  }

  predicate ShouldRetry(job: Job, outcome: Outcome) {
    if outcome.result.AttemptDeferred? then outcome.retryable
    else outcome.retryable && job.attempts + 1 <= job.maxRetries
  }

  predicate NeedsFallback(job: Job, outcome: Outcome) {
    !ShouldRetry(job, outcome) && !outcome.result.AttemptDelivered?
  }

  /** What is going to be recorded for one attempt. */
  datatype Verdict = Verdict(outcome: Outcome, nextStatus: Status, nextRetryAt: Option<int>, shouldRetry: bool)

  function Decide(cfg: Config, job: Job, now: int, outcome: Outcome, fallback: FallbackOutcome): Verdict {
    var retry := ShouldRetry(job, outcome);
    if NeedsFallback(job, outcome) then
      Verdict(Outcome(fallback.result, false, None, fallback.errorCode), fallback.nextStatus, None, retry)
    else if outcome.result.AttemptDelivered? then
      Verdict(outcome, Delivered, None, retry)
    else
      var delay :=
        if outcome.result.AttemptDeferred? then outcome.retryAfterMs.GetOr(cfg.deferRecheckMs)
        else Backoff(cfg, job.attempts + 1);
      Verdict(outcome, RetryStatus(outcome.result), Some(now + delay), retry)
  }

  /** The guard's verdict replaces the outcome by a dead letter. */
  function AutoBlocked(v: Verdict): Verdict {
    Verdict(Outcome(AttemptFailed, false, None, Some("THREAD_AUTO_BLOCKED")), Failed, None, v.shouldRetry)
  }

  // ----- loop guard

  datatype LoopState = LoopState(noProgressTurns: nat, repeatedErrorCode: Option<string>, repeatedFindingCycles: nat)

  datatype BlockReason = NoProgressTurns(turns: nat) | RepeatedFindings(cycles: nat, code: string)

  datatype LoopStep = LoopStep(next: Option<LoopState>, block: Option<BlockReason>)

  /** One turn of a thread, as the guard sees it. */
  datatype Turn = Progress | Finding(code: string)

  function TurnOf(outcome: Outcome): Turn {
    if IsProgress(outcome.result) then Progress else Finding(outcome.errorCode.GetOr("UNKNOWN_TRIGGER_ERROR"))
  }

  function UpdateLoop(cfg: Config, previous: Option<LoopState>, turn: Turn): LoopStep {
    match turn
    case Progress => LoopStep(None, None)
    case Finding(code) =>
      var before := previous.GetOr(LoopState(0, None, 0));
      var turns := before.noProgressTurns + 1;
      var cycles := if before.repeatedErrorCode == Some(code) then before.repeatedFindingCycles + 1 else 1;
      LoopStep(
        Some(LoopState(turns, Some(code), cycles)),
        if turns >= cfg.loopMaxTurns then Some(NoProgressTurns(turns))
        else if cycles >= cfg.loopMaxRepeatedFindings then Some(RepeatedFindings(cycles, code))
        else None)
  }

  /** The guard's memory after a thread's whole history of turns. */
  function LoopMemory(cfg: Config, turns: seq<Turn>): Option<LoopState> {
    if turns == [] then None
    else UpdateLoop(cfg, LoopMemory(cfg, turns[..|turns| - 1]), turns[|turns| - 1]).next
  }

  predicate LastWithoutProgress(turns: seq<Turn>, n: int) {
    n <= |turns| && forall i :: |turns| - n <= i < |turns| && 0 <= i ==> turns[i].Finding?
  }

  predicate LastIdentical(turns: seq<Turn>, n: int) {
    && n <= |turns|
    && forall i :: |turns| - n <= i < |turns| && 0 <= i ==> turns[i].Finding? && turns[i] == turns[|turns| - 1]
  }

  /** The guard's memory is exactly the length of the trailing run without progress and the length of
      the trailing run of one finding. */
  lemma {:induction false} LoopMemoryIsTheTrail(cfg: Config, turns: seq<Turn>)
    ensures LoopMemory(cfg, turns).None? <==> turns == [] || turns[|turns| - 1].Progress?
    ensures forall s :: LoopMemory(cfg, turns) == Some(s) ==>
      && 1 <= s.repeatedFindingCycles <= s.noProgressTurns <= |turns|
      && s.repeatedErrorCode == Some(turns[|turns| - 1].code)
      && (forall n :: LastWithoutProgress(turns, n) <==> n <= s.noProgressTurns)
      && (forall n :: LastIdentical(turns, n) <==> n <= s.repeatedFindingCycles)
  {
    if turns != [] {
      var init := turns[..|turns| - 1];
      LoopMemoryIsTheTrail(cfg, init);
      var memory := LoopMemory(cfg, turns);
      if memory.Some? {
        var s := memory.value;
        var before := LoopMemory(cfg, init);
        assert forall i :: 0 <= i < |init| ==> turns[i] == init[i];
        forall n ensures LastWithoutProgress(turns, n) <==> n <= s.noProgressTurns {
          assert before.Some? ==> (LastWithoutProgress(init, n - 1) <==> n - 1 <= before.value.noProgressTurns);
          if n >= 2 && |turns| >= 2 && n <= |turns| {
            assert LastWithoutProgress(turns, n) ==> turns[|turns| - 2].Finding?;
          }
          assert LastWithoutProgress(turns, n) ==> LastWithoutProgress(init, n - 1);
          assert n >= 1 && LastWithoutProgress(init, n - 1) ==> LastWithoutProgress(turns, n);
        }
        forall n ensures LastIdentical(turns, n) <==> n <= s.repeatedFindingCycles {
          assert before.Some? ==> (LastIdentical(init, n - 1) <==> n - 1 <= before.value.repeatedFindingCycles);
          if n >= 2 && n <= |turns| {
            assert LastIdentical(turns, n) ==> turns[|turns| - 2] == turns[|turns| - 1];
            if turns[|turns| - 2] == turns[|turns| - 1] {
              assert LastIdentical(turns, n) ==> LastIdentical(init, n - 1);
              assert LastIdentical(init, n - 1) ==> LastIdentical(turns, n);
            }
          }
        }
      }
    }
  }

  /** A turn blocks its thread exactly when the last `loopMaxTurns` turns made no progress, or the last
      `loopMaxRepeatedFindings` turns reported the same finding. */
  lemma GuardBlocksOnTheTrail(cfg: Config, turns: seq<Turn>, turn: Turn)
    requires ValidConfig(cfg)
    ensures UpdateLoop(cfg, LoopMemory(cfg, turns), turn).block.Some? <==>
              || LastWithoutProgress(turns + [turn], cfg.loopMaxTurns)
              || LastIdentical(turns + [turn], cfg.loopMaxRepeatedFindings)
  {
    var all := turns + [turn];
    assert all[..|all| - 1] == turns;
    LoopMemoryIsTheTrail(cfg, all);
    assert LoopMemory(cfg, all) == UpdateLoop(cfg, LoopMemory(cfg, turns), turn).next;
    if turn.Progress? {
      assert all[|all| - 1].Progress?;
    }
  }

  /** The reason it gives: how long the trail without progress is, if that is too long, and otherwise how often the
      last finding has come in a row. */
  lemma GuardNamesItsReason(cfg: Config, turns: seq<Turn>, turn: Turn)
    requires ValidConfig(cfg) && UpdateLoop(cfg, LoopMemory(cfg, turns), turn).block.Some?
    ensures
      var all := turns + [turn];
      match UpdateLoop(cfg, LoopMemory(cfg, turns), turn).block.value
      case NoProgressTurns(n) =>
        n >= cfg.loopMaxTurns && LastWithoutProgress(all, n) && !LastWithoutProgress(all, n + 1)
      case RepeatedFindings(n, code) =>
        && !LastWithoutProgress(all, cfg.loopMaxTurns) && turn == Finding(code)
        && n >= cfg.loopMaxRepeatedFindings && LastIdentical(all, n) && !LastIdentical(all, n + 1)
  {
    var all := turns + [turn];
    assert all[..|all| - 1] == turns;
    assert LoopMemory(cfg, all) == UpdateLoop(cfg, LoopMemory(cfg, turns), turn).next;
    BlockCounts(cfg, LoopMemory(cfg, turns), turn);
    hide *;
    var memory := LoopMemory(cfg, all).value;
    TrailLengths(cfg, all, memory, cfg.loopMaxTurns);
    TrailLengths(cfg, all, memory, memory.noProgressTurns);
    TrailLengths(cfg, all, memory, memory.noProgressTurns + 1);
    TrailLengths(cfg, all, memory, memory.repeatedFindingCycles);
    TrailLengths(cfg, all, memory, memory.repeatedFindingCycles + 1);
  }

  lemma BlockCounts(cfg: Config, before: Option<LoopState>, turn: Turn)
    requires UpdateLoop(cfg, before, turn).block.Some?
    ensures
      var step := UpdateLoop(cfg, before, turn);
      && step.next.Some?
      && match step.block.value
         case NoProgressTurns(n) => n == step.next.value.noProgressTurns >= cfg.loopMaxTurns
         case RepeatedFindings(n, code) =>
           && step.next.value.noProgressTurns < cfg.loopMaxTurns && turn == Finding(code)
           && n == step.next.value.repeatedFindingCycles >= cfg.loopMaxRepeatedFindings
  {
  }

  lemma TrailLengths(cfg: Config, turns: seq<Turn>, memory: LoopState, n: int)
    requires LoopMemory(cfg, turns) == Some(memory)
    ensures LastWithoutProgress(turns, n) <==> n <= memory.noProgressTurns
    ensures LastIdentical(turns, n) <==> n <= memory.repeatedFindingCycles
  {
    LoopMemoryIsTheTrail(cfg, turns);
    hide LoopMemory, LastWithoutProgress, LastIdentical;
  }

  // ----- shapes

  /** Every job the queue can reach, as one predicate: the delays are positive, only a job that was never
      attempted is `queued`, and no finished job carries a retry time. */
  predicate Shape(cfg: Config, job: Job) {
    match job.status
    case Queued => job.attempts == 0 && job.nextRetryAt.None?
    case Timeout =>
      && 1 <= job.attempts <= job.maxRetries
      && job.nextRetryAt == Some(job.updatedAt + Backoff(cfg, job.attempts))
    case Deferred => 1 <= job.attempts && job.nextRetryAt.Some? && job.nextRetryAt.value > job.updatedAt
    case Triggering =>
      if job.attempts == 0 then job.nextRetryAt.None?
      else job.nextRetryAt.Some? && job.nextRetryAt.value <= job.updatedAt
    case _ => job.nextRetryAt.None?
  }

  /** The record of an attempt on a claimed job lands in a reachable shape again, whatever executor and
      fallback answered within their contracts and whatever the guard did. */
  lemma VerdictKeepsShape(cfg: Config, job: Job, outcome: Outcome, fallback: FallbackOutcome, blocked: bool)
    requires ValidConfig(cfg) && ExecutorContract(outcome) && FallbackContract(fallback)
    ensures
      var d := Decide(cfg, job, job.updatedAt, outcome, fallback);
      var v := if blocked then AutoBlocked(d) else d;
      var after := job.(status := v.nextStatus, attempts := job.attempts + 1, nextRetryAt := v.nextRetryAt);
      Shape(cfg, after) && !after.status.Queued? && !after.status.Triggering?
  {
    BackoffMonotone(cfg, job.attempts + 1, job.attempts + 1);
  }

  /** A retried timeout waits at least as long as the one before it. */
  lemma TimeoutDelaysGrow(cfg: Config, earlier: Job, later: Job)
    requires ValidConfig(cfg) && Shape(cfg, earlier) && Shape(cfg, later)
    requires earlier.status.Timeout? && later.status.Timeout? && earlier.attempts <= later.attempts
    ensures 0 < earlier.nextRetryAt.value - earlier.updatedAt <= later.nextRetryAt.value - later.updatedAt
    ensures later.nextRetryAt.value - later.updatedAt <= cfg.backoffMaxMs
  {
    BackoffMonotone(cfg, earlier.attempts, later.attempts);
    BackoffDoublesUntilCapped(cfg, later.attempts);
  }
}
