/** Records, statuses and configuration of the supervisor's trigger queue. Times are milliseconds. */
module TriggerModel {
  import opened Wrappers

  datatype Status =
    | Queued | Triggering | Deferred | Delivered | Timeout | Failed | FallbackResume | FallbackSpawn

  /** What one attempt ended with; the names follow the `trigger_attempt_result` enumeration. */
  datatype AttemptResult =
    | AttemptDelivered | AttemptDeferred | AttemptTimeout | AttemptFailed
    | ResumeStarted | ResumeSucceeded | ResumeFailed | Spawned

  datatype Job = Job(
    triggerId: string, threadId: string, workspaceId: string, agentId: string, sessionId: Option<string>,
    reason: string, prompt: string, status: Status, attempts: nat, maxRetries: nat,
    nextRetryAt: Option<int>, createdAt: int, updatedAt: int)

  datatype Attempt = Attempt(attemptNo: nat, result: AttemptResult, errorCode: Option<string>, createdAt: int)

  datatype Outcome = Outcome(
    result: AttemptResult, retryable: bool, retryAfterMs: Option<int>, errorCode: Option<string>)

  datatype FallbackOutcome = FallbackOutcome(result: AttemptResult, nextStatus: Status, errorCode: Option<string>)

  datatype Config = Config(
    deferRecheckMs: int, rateLimitPerMinute: int, loopMaxTurns: int, loopMaxRepeatedFindings: int,
    backoffBaseMs: int, backoffMaxMs: int)

  const RATE_WINDOW_MS := 60_000

  /** The environment schema admits only positive integers for all of these. */
  predicate ValidConfig(cfg: Config) {
    && cfg.deferRecheckMs > 0 && cfg.rateLimitPerMinute > 0
    && cfg.loopMaxTurns > 0 && cfg.loopMaxRepeatedFindings > 0
    && cfg.backoffBaseMs > 0 && cfg.backoffMaxMs > 0
  }

  predicate DueStatus(s: Status) {
    s.Queued? || s.Timeout? || s.Deferred?
  }

  /** A job that some later attempt may still touch. */
  predicate LiveStatus(s: Status) {
    DueStatus(s) || s.Triggering?
  }

  predicate IsDue(job: Job, workspaceId: string, now: int) {
    && job.workspaceId == workspaceId
    && DueStatus(job.status)
    && (job.nextRetryAt.None? || job.nextRetryAt.value <= now)
  }

  function Claimed(job: Job, claimedAt: int): Job {
    job.(status := Triggering, updatedAt := claimedAt)
  }

  predicate IsProgress(result: AttemptResult) {
    result.AttemptDelivered? || result.ResumeSucceeded? || result.Spawned?
  }

  /** What the queue may rely on from a job executor. The managed-runtime executor meets it. */
  predicate ExecutorContract(o: Outcome) {
    && (o.result.AttemptDelivered? || o.result.AttemptDeferred? || o.result.AttemptTimeout? || o.result.AttemptFailed?)
    && (o.result.AttemptDeferred? ==> o.retryable && o.retryAfterMs.Some? && o.retryAfterMs.value > 0)
    && (o.result.AttemptFailed? || o.result.AttemptDelivered? ==> !o.retryable)
  }

  /** What the queue may rely on from a fallback executor. Both fallback executors meet it. */
  predicate FallbackContract(f: FallbackOutcome) {
    || (f.result.ResumeSucceeded? && f.nextStatus.FallbackResume?)
    || (f.result.Spawned? && f.nextStatus.FallbackSpawn?)
    || (f.result.ResumeFailed? && f.nextStatus.Failed?)
  }
}
