/** The operator's status command: read, decide, guarded update, audit. */
module OperatorCli {
  import opened Wrappers
  import opened Reasons
  import opened Lifecycle = ThreadLifecycle
  import opened ThreadStore

  datatype AuditEvent = AuditEvent(
    workspaceId: string, actorAgentId: string, operation: string, threadId: string, from: ThreadStatus,
    to: ThreadStatus, reason: string, noop: bool, createdAt: int)

  datatype Answer = NotFound | WorkspaceMismatch | Answered(reply: Reply)

  class OperatorCliService {
    const workspaceId: string
    /** The repository: the `threads` and `audit_events` tables. */
    var threads: map<string, Thread>
    var audit: seq<AuditEvent>

    constructor (workspaceId: string, threads: map<string, Thread>)
      ensures this.workspaceId == workspaceId && this.threads == threads && audit == []
    {
      this.workspaceId, this.threads, audit := workspaceId, threads, [];
    }

    /** `UPDATE … WHERE thread_id = id AND status = expected`. */
    method GuardedUpdate(threadId: string, expected: ThreadStatus, next: ThreadStatus, now: int)
      returns (updated: Option<Thread>)
      modifies this`threads
      ensures updated.Some? <==> threadId in old(threads) && old(threads)[threadId].status == expected
      ensures updated.None? ==> threads == old(threads)
      ensures updated.Some? ==>
        && updated.value == old(threads)[threadId].(status := next, updatedAt := now)
        && threads == old(threads)[threadId := updated.value]
    {
      if threadId !in threads || threads[threadId].status != expected { return None; }
      var t := threads[threadId].(status := next, updatedAt := now);
      threads := threads[threadId := t];
      updated := Some(t);
    }

    /** The command, with `others` the table as other writers have left it by the time of the update. It does what
        the lifecycle machine's two operator steps do, on the status read and then on the status found; nothing
        else in the table changes. One audit event is appended exactly when the reply is a success; a `noop`
        event stands for no change, any other for an edge that was committed. */
    method TransitionThreadStatus(threadId: string, next: ThreadStatus, reason: string, actor: string,
                                  operation: string, now: int, others: map<string, Thread>) returns (a: Answer)
      modifies this
      ensures a.NotFound? <==> threadId !in old(threads)
      ensures a.WorkspaceMismatch? <==> threadId in old(threads) && old(threads)[threadId].workspaceId != workspaceId
      ensures a.Answered? ==>
        var read := old(threads)[threadId].status;
        var first := MoveOf(AtomicStore, read, Operator(next, reason), Start);
        if first.pc.Done? then a.reply == first.pc.reply && threads == old(threads)
        else if threadId !in others then a.reply == Reply.Conflict && threads == others
        else
          var second := MoveOf(AtomicStore, others[threadId].status, Operator(next, reason), first.pc);
          && second.pc == Done(a.reply)
          && threads == if second.commits then others[threadId := others[threadId].(status := next, updatedAt := now)]
                        else others
      ensures a.Answered? ==>
        var from := old(threads)[threadId].status;
        var listed := (from, next) in {(Active, Blocked), (Active, Resolved), (Active, Closed),
                                       (Blocked, Active), (Blocked, Closed), (Resolved, Closed)};
        var unexcused := (from, next) == (Blocked, Closed)
          && !("human_override:" <= reason) && !("coordinator_override:" <= reason);
        && (a.reply.Unchanged? <==> from == next)
        && (a.reply.InvalidTransition? <==> from != next && !listed)
        && (a.reply.OverrideRequired? <==> unexcused)
        && (a.reply.Updated? <==> listed && !unexcused && threadId in others && others[threadId].status == from)
        && (a.reply.Updated? ==> threads == others[threadId := others[threadId].(status := next, updatedAt := now)])
      ensures !a.Answered? ==> threads == old(threads)
      ensures audit == old(audit) || (|audit| == |old(audit)| + 1 && old(audit) <= audit)
      ensures |audit| > |old(audit)| <==> a.Answered? && (a.reply.Updated? || a.reply.Unchanged?)
      ensures |audit| > |old(audit)| ==>
        var e := audit[|old(audit)|];
        && e.threadId == threadId && e.to == next && e.reason == reason && e.actorAgentId == actor
        && e.from == old(threads)[threadId].status && (e.noop <==> e.from == e.to)
        && (!e.noop ==> threadId in others && others[threadId].status == e.from
                        && threadId in threads && threads[threadId].status == e.to)
    {
      if threadId !in threads { return NotFound; }
      var existing := threads[threadId];
      if existing.workspaceId != workspaceId { return WorkspaceMismatch; }
      if existing.status == next {
        audit := audit + [AuditEvent(existing.workspaceId, actor, operation, threadId, existing.status, next, reason,
                                     true, now)];
        return Answered(Unchanged);
      }
      if !CanTransition(existing.status, next) { return Answered(InvalidTransition); }
      if Disputed(existing.status, next) && !HasOverridePrefix(reason) { return Answered(OverrideRequired); }
      threads := others;
      var updated := GuardedUpdate(threadId, existing.status, next, now);
      if updated.None? { return Answered(Reply.Conflict); }
      audit := audit + [AuditEvent(updated.value.workspaceId, actor, operation, threadId, existing.status, next,
                                   reason, false, now)];
      a := Answered(Updated);
    }
  }
}
