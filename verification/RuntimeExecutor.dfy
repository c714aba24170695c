/** The managed-runtime job executor: it delivers a trigger into a live terminal session and keeps out of a
    human operator's way. */
module RuntimeExecutor {
  import opened Wrappers
  import opened TriggerModel
  import opened TriggerDecision
  import opened Sessions
  import Reasons

  datatype Safeguards = Safeguards(quietWindowMs: int, recheckMs: int, maxDeferMs: int)

  predicate ValidSafeguards(g: Safeguards) {
    g.quietWindowMs > 0 && g.recheckMs > 0 && g.maxDeferMs > 0
  }

  datatype DeliveryError =
    | PayloadEmpty | PayloadTooLarge | UnsupportedRuntime | OperatorBusy | TargetNotFound | PaneDead | SendKeysError

  datatype Delivery = Success | Refused(error: DeliveryError)

  function CodeOf(e: DeliveryError): string {
    match e
    case PayloadEmpty => "TRIGGER_PAYLOAD_EMPTY"
    case PayloadTooLarge => "TRIGGER_PAYLOAD_TOO_LARGE"
    case UnsupportedRuntime => "UNSUPPORTED_RUNTIME"
    case OperatorBusy => "OPERATOR_BUSY"
    case TargetNotFound => "TARGET_NOT_FOUND"
    case PaneDead => "PANE_DEAD"
    case SendKeysError => "SEND_KEYS_ERROR"
  }

  predicate RetryableError(e: DeliveryError) {
    e.TargetNotFound? || e.PaneDead? || e.SendKeysError? || e.OperatorBusy?
  }

  datatype RuntimeKey = RuntimeKey(workspaceId: string, agentId: string, runtime: string)

  function KeyOfRuntime(r: Session): RuntimeKey {
    RuntimeKey(r.workspaceId, r.agentId, r.runtime)
  }

  function Failure(code: string): Outcome {
    Outcome(AttemptFailed, false, None, Some(code))
  }

  function Busy(g: Safeguards, job: Job, now: int): Outcome {
    if now - job.createdAt >= g.maxDeferMs then Outcome(AttemptTimeout, false, None, Some("DEFER_TIMEOUT"))
    else Outcome(AttemptDeferred, true, Some(g.recheckMs), Some("OPERATOR_BUSY"))
  }

  /** One call: the job, the registry's answer, and what the terminal would answer if it were contacted. */
  datatype Call = Call(job: Job, now: int, runtime: Option<Session>, delivery: Delivery)

  datatype Executed = Executed(busy: map<RuntimeKey, int>, outcome: Outcome, contacted: bool)

  predicate Forced(job: Job) {
    Reasons.HasOverridePrefix(job.reason)
  }

  predicate InQuietWindow(g: Safeguards, busy: map<RuntimeKey, int>, key: RuntimeKey, now: int) {
    key in busy && now - busy[key] < g.quietWindowMs
  }

  /** What happens before the terminal is contacted. */
  datatype Gate = Refuse(outcome: Outcome) | Contact(key: RuntimeKey)

  function Check(g: Safeguards, busy: map<RuntimeKey, int>, job: Job, now: int, runtime: Option<Session>): Gate {
    match runtime
    case None => Refuse(Failure("RUNTIME_NOT_FOUND"))
    case Some(r) =>
      if job.sessionId.Some? && r.sessionId != job.sessionId.value then Refuse(Failure("RUNTIME_SESSION_MISMATCH"))
      else if r.mode.Unmanaged? then Refuse(Failure("RUNTIME_UNMANAGED"))
      else if r.status.Offline? then Refuse(Outcome(AttemptTimeout, true, None, Some("RUNTIME_OFFLINE")))
      else if !Forced(job) && InQuietWindow(g, busy, KeyOfRuntime(r), now) then Refuse(Busy(g, job, now))
      else Contact(KeyOfRuntime(r))
  }

  /** What the terminal's answer leads to. */
  function Answered(g: Safeguards, busy: map<RuntimeKey, int>, job: Job, now: int, key: RuntimeKey, delivery: Delivery)
      : (map<RuntimeKey, int>, Outcome) {
    match delivery
    case Success => (busy - {key}, Outcome(AttemptDelivered, false, None, None))
    case Refused(e) =>
      if e.OperatorBusy? then (busy[key := now], Busy(g, job, now))
      else if RetryableError(e) then (busy, Outcome(AttemptTimeout, true, None, Some(CodeOf(e))))
      else (busy, Failure(CodeOf(e)))
  }

  /** A call that nothing interrupts. */
  function Execution(g: Safeguards, busy: map<RuntimeKey, int>, c: Call): Executed {
    match Check(g, busy, c.job, c.now, c.runtime)
    case Refuse(outcome) => Executed(busy, outcome, false)
    case Contact(key) =>
      var (next, outcome) := Answered(g, busy, c.job, c.now, key, c.delivery);
      Executed(next, outcome, true)
  }

  /** What one call says and does, in terms of the registry's and the terminal's answers and of the time of the last
      busy report. `reaches` is a managed runtime with the session the job asks for; `quiet` keeps an unforced call
      away from the terminal. */
  ghost predicate Tells(g: Safeguards, busy: map<RuntimeKey, int>, c: Call, e: Executed) {
    var job, o := c.job, e.outcome;
    var reaches := c.runtime.Some? && c.runtime.value.mode.Managed?
      && (job.sessionId.None? || job.sessionId == Some(c.runtime.value.sessionId));
    var offline := reaches && c.runtime.value.status.Offline?;
    var quiet := reaches && !("human_override:" <= job.reason) && !("coordinator_override:" <= job.reason)
      && var r := c.runtime.value;
         exists key :: key in busy && key == RuntimeKey(r.workspaceId, r.agentId, r.runtime)
                       && c.now - busy[key] < g.quietWindowMs;
    var busyNow := (quiet && !offline) || (e.contacted && c.delivery == Refused(OperatorBusy));
    var dead := e.contacted && c.delivery in {Refused(TargetNotFound), Refused(PaneDead), Refused(SendKeysError)};
    var tooOld := c.now - job.createdAt >= g.maxDeferMs;
    && (e.contacted <==> reaches && !offline && !quiet)
    && (o.result.AttemptDelivered? <==> e.contacted && c.delivery.Success?)
    && (o.result.AttemptTimeout? && o.retryable <==> offline || dead)
    && (o.result.AttemptTimeout? && !o.retryable <==> busyNow && tooOld)
    && (o.result.AttemptDeferred? <==> busyNow && !tooOld)
    && (o.result.AttemptDelivered? || o.result.AttemptDeferred? || o.result.AttemptTimeout? || o.result.AttemptFailed?)
    && (o.result.AttemptDeferred? ==> o.retryable && o.retryAfterMs == Some(g.recheckMs))
    && (o.result.AttemptDelivered? || o.result.AttemptFailed? ==> !o.retryable)
    && (!o.result.AttemptDeferred? ==> o.retryAfterMs.None?)
  }

  /** Which error code it carries. */
  ghost predicate Explains(c: Call, e: Executed) {
    var o := e.outcome;
    && (o.result.AttemptDelivered? ==> o.errorCode.None?)
    && (o.result.AttemptDeferred? ==> o.errorCode == Some("OPERATOR_BUSY"))
    && (o.result.AttemptTimeout? && !o.retryable ==> o.errorCode == Some("DEFER_TIMEOUT"))
    && (!e.contacted && o.result.AttemptTimeout? && o.retryable ==> o.errorCode == Some("RUNTIME_OFFLINE"))
    && (!e.contacted && o.result.AttemptFailed? ==>
         o.errorCode == Some(if c.runtime.None? then "RUNTIME_NOT_FOUND"
                             else if c.job.sessionId.Some? && c.job.sessionId.value != c.runtime.value.sessionId
                             then "RUNTIME_SESSION_MISMATCH"
                             else "RUNTIME_UNMANAGED"))
    && (e.contacted && c.delivery.Refused? && !c.delivery.error.OperatorBusy? ==>
         o.errorCode == Some(match c.delivery.error
                             case PayloadEmpty => "TRIGGER_PAYLOAD_EMPTY"
                             case PayloadTooLarge => "TRIGGER_PAYLOAD_TOO_LARGE"
                             case UnsupportedRuntime => "UNSUPPORTED_RUNTIME"
                             case TargetNotFound => "TARGET_NOT_FOUND"
                             case PaneDead => "PANE_DEAD"
                             case SendKeysError => "SEND_KEYS_ERROR"
                             case OperatorBusy => ""))
  }

  /** What it remembers: a busy answer puts the call's own time under the runtime it contacted, a delivery clears it,
      and nothing else is touched. */
  ghost predicate Remembers(busy: map<RuntimeKey, int>, c: Call, e: Executed) {
    && (!e.contacted ==> e.busy == busy)
    && (e.contacted ==>
         && c.runtime.Some?
         && var r := c.runtime.value;
            var key := RuntimeKey(r.workspaceId, r.agentId, r.runtime);
            && (c.delivery.Success? ==> e.busy == busy - {key})
            && (c.delivery == Refused(OperatorBusy) ==> e.busy == busy[key := c.now])
            && (c.delivery.Refused? && !c.delivery.error.OperatorBusy? ==> e.busy == busy))
  }

  class ManagedRuntimeTriggerJobExecutor {
    const safeguards: Safeguards
    var lastBusyAtByRuntime: map<RuntimeKey, int>

    constructor (safeguards: Safeguards)
      ensures this.safeguards == safeguards && lastBusyAtByRuntime == map[]
    {
      this.safeguards, lastBusyAtByRuntime := safeguards, map[];
    }

    /** `runtime` is the registry's answer; `delivery` the terminal's, read only if `contacted`. */
    method Execute(job: Job, now: int, runtime: Option<Session>, delivery: Delivery)
      returns (outcome: Outcome, contacted: bool)
      modifies this`lastBusyAtByRuntime
      ensures Executed(lastBusyAtByRuntime, outcome, contacted)
           == Execution(safeguards, old(lastBusyAtByRuntime), Call(job, now, runtime, delivery))
      ensures
        var c, e := Call(job, now, runtime, delivery), Executed(lastBusyAtByRuntime, outcome, contacted);
        Tells(safeguards, old(lastBusyAtByRuntime), c, e) && Explains(c, e) && Remembers(old(lastBusyAtByRuntime), c, e)
    {
      ExecutionTells(safeguards, lastBusyAtByRuntime, Call(job, now, runtime, delivery));
      hide Tells, Explains, Remembers;
      contacted := false;
      if runtime.None? {
        return Failure("RUNTIME_NOT_FOUND"), false;
      }
      var r := runtime.value;
      if job.sessionId.Some? && r.sessionId != job.sessionId.value {
        return Failure("RUNTIME_SESSION_MISMATCH"), false;
      }
      if r.mode != Managed {
        return Failure("RUNTIME_UNMANAGED"), false;
      }
      if r.status == Offline {
        return Outcome(AttemptTimeout, true, None, Some("RUNTIME_OFFLINE")), false;
      }
      var key := KeyOfRuntime(r);
      var forceOverride := Reasons.HasOverridePrefix(job.reason);
      if !forceOverride && key in lastBusyAtByRuntime && now - lastBusyAtByRuntime[key] < safeguards.quietWindowMs {
        var deferredMs := now - job.createdAt;
        if deferredMs >= safeguards.maxDeferMs {
          return Outcome(AttemptTimeout, false, None, Some("DEFER_TIMEOUT")), false;
        }
        return Outcome(AttemptDeferred, true, Some(safeguards.recheckMs), Some("OPERATOR_BUSY")), false;
      }
      contacted := true;
      if delivery.Success? {
        lastBusyAtByRuntime := lastBusyAtByRuntime - {key};
        return Outcome(AttemptDelivered, false, None, None), true;
      }
      if delivery.error == OperatorBusy {
        var deferredMs := now - job.createdAt;
        lastBusyAtByRuntime := lastBusyAtByRuntime[key := now];
        if deferredMs >= safeguards.maxDeferMs {
          return Outcome(AttemptTimeout, false, None, Some("DEFER_TIMEOUT")), true;
        }
        return Outcome(AttemptDeferred, true, Some(safeguards.recheckMs), Some("OPERATOR_BUSY")), true;
      }
      if RetryableError(delivery.error) {
        return Outcome(AttemptTimeout, true, None, Some(CodeOf(delivery.error))), true;
      }
      return Failure(CodeOf(delivery.error)), true;
    }
  }

  /** A call is delivered exactly when the terminal was contacted and took it, contacted only if the runtime is there
      to be contacted, retried exactly when that can help, deferred or given up exactly when an operator is at work,
      and fails for good in every other case. */
  lemma ExecutionTells(g: Safeguards, busy: map<RuntimeKey, int>, c: Call)
    ensures
      var e := Execution(g, busy, c);
      Tells(g, busy, c, e) && Explains(c, e) && Remembers(busy, c, e)
  {
    AnswerTells(g, busy, c);
    AnswerExplains(g, busy, c);
    AnswerIsRemembered(g, busy, c);
    hide *;
  }

  lemma AnswerTells(g: Safeguards, busy: map<RuntimeKey, int>, c: Call)
    ensures Tells(g, busy, c, Execution(g, busy, c))
  {
  }

  lemma AnswerExplains(g: Safeguards, busy: map<RuntimeKey, int>, c: Call)
    ensures Explains(c, Execution(g, busy, c))
  {
    hide Reasons.HasOverridePrefix;
  }

  lemma AnswerIsRemembered(g: Safeguards, busy: map<RuntimeKey, int>, c: Call)
    ensures Remembers(busy, c, Execution(g, busy, c))
  {
    hide Reasons.HasOverridePrefix, CodeOf;
  }

  /** Whatever the registry and the terminal answer, the queue's contract is met. */
  lemma ExecutorMeetsContract(g: Safeguards, busy: map<RuntimeKey, int>, c: Call)
    requires ValidSafeguards(g)
    ensures ExecutorContract(Execution(g, busy, c).outcome)
  {
  }

  /** An operator-busy deferral happens only while the job is younger than `maxDeferMs`, so the retry time
      the queue gives it stays below a fixed deadline; from that age on the job times out for good. */
  lemma BusyDeferralsAreBounded(g: Safeguards, busy: map<RuntimeKey, int>, c: Call, cfg: Config,
                                fallback: FallbackOutcome)
    requires ValidSafeguards(g)
    ensures
      var outcome := Execution(g, busy, c).outcome;
      var v := Decide(cfg, c.job, c.now, outcome, fallback);
      && (outcome.result.AttemptDeferred? ==>
           && outcome.errorCode == Some("OPERATOR_BUSY") && c.now - c.job.createdAt < g.maxDeferMs
           && v.nextStatus.Deferred? && v.nextRetryAt == Some(c.now + g.recheckMs)
           && v.nextRetryAt.value < c.job.createdAt + g.maxDeferMs + g.recheckMs)
      && (outcome.errorCode == Some("DEFER_TIMEOUT") ==> c.now - c.job.createdAt >= g.maxDeferMs && v.nextRetryAt.None?)
  {
  }

  // ----- runs in which calls overlap

  /** A call awaits the terminal between its check and the answer; other calls of the process run meanwhile. */
  datatype Event =
    | Begin(call: nat, job: Job, now: int, runtime: Option<Session>)
    | Answer(call: nat, delivery: Delivery)

  datatype Contacted = Contacted(key: RuntimeKey, job: Job, now: int)

  /** `waiting` holds the calls that have contacted the terminal and not been answered. */
  datatype World = World(busy: map<RuntimeKey, int>, waiting: map<nat, Contacted>)

  function Step(g: Safeguards, s: World, e: Event): World {
    match e
    case Begin(call, job, now, runtime) =>
      (match Check(g, s.busy, job, now, runtime)
       case Refuse(_) => s
       case Contact(key) => s.(waiting := s.waiting[call := Contacted(key, job, now)]))
    case Answer(call, delivery) =>
      if call !in s.waiting then s
      else
        var c := s.waiting[call];
        World(Answered(g, s.busy, c.job, c.now, c.key, delivery).0, s.waiting - {call})
  }

  function Run(g: Safeguards, events: seq<Event>, n: nat): World
    requires n <= |events|
  {
    if n == 0 then World(map[], map[]) else Step(g, Run(g, events, n - 1), events[n - 1])
  }

  /** An uninterrupted call is its check and its answer, one right after the other. */
  lemma ExecutionIsTwoSteps(g: Safeguards, s: World, call: nat, c: Call)
    requires call !in s.waiting
    ensures
      var t := Step(g, Step(g, s, Begin(call, c.job, c.now, c.runtime)), Answer(call, c.delivery));
      var done := Execution(g, s.busy, c);
      && t == World(done.busy, s.waiting)
      && (done.contacted <==> call in Step(g, s, Begin(call, c.job, c.now, c.runtime)).waiting)
  {
    hide Answered, Check;
    if Check(g, s.busy, c.job, c.now, c.runtime).Contact? {
      assert s.waiting[call := Contacted(Check(g, s.busy, c.job, c.now, c.runtime).key, c.job, c.now)] - {call}
        == s.waiting;
    }
  }

  /** Event i is the check of a call that goes on to contact the runtime's terminal. */
  predicate Contacts(g: Safeguards, events: seq<Event>, i: nat, key: RuntimeKey)
    requires i < |events|
  {
    events[i].Begin? && Check(g, Run(g, events, i).busy, events[i].job, events[i].now, events[i].runtime)
      == Contact(key)
  }

  /** Event i is an answer from the runtime's terminal to a call that waits for one. */
  predicate Answers(g: Safeguards, events: seq<Event>, i: nat, key: RuntimeKey, delivery: Delivery)
    requires i < |events|
  {
    && events[i].Answer? && events[i].delivery == delivery
    && events[i].call in Run(g, events, i).waiting && Run(g, events, i).waiting[events[i].call].key == key
  }

  /** The time of the call that event i answers. */
  function TimeOf(g: Safeguards, events: seq<Event>, i: nat): int
    requires i < |events|
  {
    var waiting := Run(g, events, i).waiting;
    if events[i].Answer? && events[i].call in waiting then waiting[events[i].call].now else 0
  }

  predicate ReportsBusy(g: Safeguards, events: seq<Event>, i: nat, key: RuntimeKey)
    requires i < |events|
  {
    Answers(g, events, i, key, Refused(OperatorBusy))
  }

  /** Since event i reported busy, no delivery to the runtime was answered with success, and no other busy report
      was for a call with an earlier time. */
  ghost predicate StillBusy(g: Safeguards, events: seq<Event>, i: nat, n: nat, key: RuntimeKey)
    requires i < n <= |events|
  {
    && ReportsBusy(g, events, i, key)
    && forall k :: i < k < n ==>
         && !Answers(g, events, k, key, Success)
         && (ReportsBusy(g, events, k, key) ==> TimeOf(g, events, k) >= TimeOf(g, events, i))
  }

  /** A busy report stays remembered, with a time at least its own, until a delivery succeeds. */
  lemma {:induction false} BusyIsRemembered(g: Safeguards, events: seq<Event>, i: nat, n: nat, key: RuntimeKey)
    requires i < n <= |events| && StillBusy(g, events, i, n, key)
    ensures key in Run(g, events, n).busy && Run(g, events, n).busy[key] >= TimeOf(g, events, i)
  {
    if i < n - 1 {
      BusyIsRemembered(g, events, i, n - 1, key);
      assert !Answers(g, events, n - 1, key, Success);
      assert ReportsBusy(g, events, n - 1, key) ==> TimeOf(g, events, n - 1) >= TimeOf(g, events, i);
    }
  }

  /** Human-collision safety: once a delivery has reported the operator busy, no unforced call whose check comes
      after the report contacts that runtime before the report's time plus `quietWindowMs`, unless a delivery was
      answered with success in between. Calls overlap freely and need not come in the order of their times; only
      a busy report for a call with an earlier time forgets this one. */
  lemma QuietWindowIsKept(g: Safeguards, events: seq<Event>, i: nat, j: nat, key: RuntimeKey)
    requires i < j < |events| && StillBusy(g, events, i, j, key)
    requires Contacts(g, events, j, key) && !Forced(events[j].job)
    ensures events[j].now >= TimeOf(g, events, i) + g.quietWindowMs
  {
    BusyIsRemembered(g, events, i, j, key);
    hide Run;
  }

  /** A call whose check came before the report is not held back: its answer can still arrive after it. */
  lemma EarlierChecksStillDeliver(g: Safeguards, a: Job, b: Job, runtime: Session, now: int)
    requires runtime.mode.Managed? && !runtime.status.Offline? && a.sessionId.None? && b.sessionId.None?
    ensures
      var events := [Begin(0, a, now, Some(runtime)), Begin(1, b, now, Some(runtime)), Answer(0, Refused(OperatorBusy)),
                     Answer(1, Success)];
      && ReportsBusy(g, events, 2, KeyOfRuntime(runtime))
      && Answers(g, events, 3, KeyOfRuntime(runtime), Success)
  {
    var events := [Begin(0, a, now, Some(runtime)), Begin(1, b, now, Some(runtime)), Answer(0, Refused(OperatorBusy)),
                   Answer(1, Success)];
    assert Run(g, events, 0) == World(map[], map[]);
    assert Run(g, events, 1) == Step(g, Run(g, events, 0), events[0]);
    assert Run(g, events, 2) == Step(g, Run(g, events, 1), events[1]);
    assert Run(g, events, 3) == Step(g, Run(g, events, 2), events[2]);
  }

  /** A busy report for a call with an earlier time replaces a later one and shortens its window: the next unforced
      call contacts the terminal `quietWindowMs` after the earlier time. */
  lemma EarlierReportShortensTheWindow(g: Safeguards, a: Job, b: Job, c: Job, runtime: Session, early: int, late: int)
    requires ValidSafeguards(g) && early < late && runtime.mode.Managed? && !runtime.status.Offline?
    requires a.sessionId.None? && b.sessionId.None? && c.sessionId.None? && !Forced(c)
    ensures
      var events := [Begin(0, a, late, Some(runtime)), Begin(1, b, early, Some(runtime)),
                     Answer(0, Refused(OperatorBusy)),
                     Answer(1, Refused(OperatorBusy)), Begin(2, c, early + g.quietWindowMs, Some(runtime))];
      && ReportsBusy(g, events, 2, KeyOfRuntime(runtime)) && TimeOf(g, events, 2) == late
      && Contacts(g, events, 4, KeyOfRuntime(runtime)) && events[4].now < late + g.quietWindowMs
  {
    var events := [Begin(0, a, late, Some(runtime)), Begin(1, b, early, Some(runtime)),
                   Answer(0, Refused(OperatorBusy)),
                   Answer(1, Refused(OperatorBusy)), Begin(2, c, early + g.quietWindowMs, Some(runtime))];
    var key := KeyOfRuntime(runtime);
    assert Run(g, events, 0) == World(map[], map[]);
    assert Run(g, events, 1) == Step(g, Run(g, events, 0), events[0]);
    assert Run(g, events, 2) == Step(g, Run(g, events, 1), events[1]);
    assert Run(g, events, 3) == Step(g, Run(g, events, 2), events[2]);
    assert Run(g, events, 4) == Step(g, Run(g, events, 3), events[3]);
    assert Run(g, events, 4).busy == map[key := early];
  }
}
