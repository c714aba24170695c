/** The fallback chain for triggers the queue gave up on: resume the target session a bounded number of times,
    then spawn a new one; an agent whose resumes keep failing is not resumed for a while. */
module RuntimeFallback {
  import opened Wrappers
  import opened SlidingWindow
  import opened TriggerModel
  import opened Sessions

  datatype FallbackConfig = FallbackConfig(
    resumeMaxAttempts: nat, staleAfterHours: int, crashLoopThreshold: nat, crashLoopWindowMs: int)

  predicate ValidFallbackConfig(g: FallbackConfig) {
    g.resumeMaxAttempts > 0 && g.staleAfterHours > 0 && g.crashLoopThreshold > 0 && g.crashLoopWindowMs > 0
  }

  datatype AgentKey = AgentKey(workspaceId: string, agentId: string)

  function KeyOfAgent(job: Job): AgentKey {
    AgentKey(job.workspaceId, job.agentId)
  }

  datatype Command = Resume(sessionId: string, prompt: string) | Spawn(threadId: string, prompt: string)

  type Failures = map<AgentKey, seq<int>>

  function FailuresOf(f: Failures, key: AgentKey): seq<int> {
    if key in f then f[key] else []
  }

  /** One call: the job, the time, the registry's answer, and the exit codes commands would return in order. */
  datatype Call = Call(job: Job, now: int, runtime: Option<Session>, exits: seq<int>)

  /** The checks that come before the crash-loop window is looked at. */
  predicate SessionResumable(g: FallbackConfig, c: Call) {
    && c.job.sessionId.Some? && c.runtime.Some?
    && c.runtime.value.sessionId == c.job.sessionId.value
    && !IsSessionStale(c.runtime.value, g.staleAfterHours, c.now)
  }

  function RecentFailures(g: FallbackConfig, f: Failures, c: Call): seq<int> {
    Recent(FailuresOf(f, KeyOfAgent(c.job)), c.now - g.crashLoopWindowMs)
  }

  predicate CanResume(g: FallbackConfig, f: Failures, c: Call) {
    SessionResumable(g, c) && |RecentFailures(g, f, c)| < g.crashLoopThreshold
  }

  function Pruned(g: FallbackConfig, f: Failures, c: Call): Failures {
    if SessionResumable(g, c) then f[KeyOfAgent(c.job) := RecentFailures(g, f, c)] else f
  }

  /** Resumes that fail before one succeeds or the attempts run out. */
  function FailedResumes(exits: seq<int>, attempts: nat): nat {
    if attempts == 0 || exits == [] || exits[0] == 0 then 0 else 1 + FailedResumes(exits[1..], attempts - 1)
  }

  /** How many resumes of this call fail. */
  function ResumeFailures(g: FallbackConfig, f: Failures, c: Call): nat {
    if CanResume(g, f, c) then FailedResumes(c.exits, g.resumeMaxAttempts) else 0
  }

  function FailuresAfter(g: FallbackConfig, f: Failures, c: Call): Failures {
    AddFailures(Pruned(g, f, c), KeyOfAgent(c.job), c.now, ResumeFailures(g, f, c))
  }

  function AddFailures(f: Failures, key: AgentKey, now: int, n: nat): Failures {
    if n == 0 then f else f[key := AppendTimes(FailuresOf(f, key), now, n)]
  }

  /** An agent is resumed only into the very session its job asks for, if that session's heartbeat is recent enough and
      fewer than the threshold of its own failures fall in the window; and then always. */
  lemma ResumesIff(g: FallbackConfig, f: Failures, c: Call)
    ensures CanResume(g, f, c) <==>
      && c.job.sessionId.Some? && c.runtime.Some? && c.job.sessionId.value == c.runtime.value.sessionId
      && c.now - c.runtime.value.lastHeartbeatAt <= g.staleAfterHours * 60 * 60 * 1000
      && |Recent(FailuresOf(f, AgentKey(c.job.workspaceId, c.job.agentId)), c.now - g.crashLoopWindowMs)|
         < g.crashLoopThreshold
  {
  }

  /** The failures of other agents are left alone; the agent's own lose what is older than the window if its session
      was looked at, and gain one entry for each failed resume. */
  lemma CallRecordsItsFailures(g: FallbackConfig, f: Failures, c: Call, key: AgentKey)
    ensures
      var before, after := FailuresOf(f, key), FailuresOf(FailuresAfter(g, f, c), key);
      var looked := c.job.sessionId.Some? && c.runtime.Some? && c.job.sessionId.value == c.runtime.value.sessionId
        && c.now - c.runtime.value.lastHeartbeatAt <= g.staleAfterHours * 60 * 60 * 1000;
      if key != AgentKey(c.job.workspaceId, c.job.agentId) then after == before
      else
        var kept := if looked then Recent(before, c.now - g.crashLoopWindowMs) else before;
        var failed := if looked && |kept| < g.crashLoopThreshold then FailedResumes(c.exits, g.resumeMaxAttempts)
          else 0;
        after == AppendTimes(kept, c.now, failed)
  {
    hide Recent, FailedResumes;
  }

  /** Resumes fail up to the first that exits with zero, or until the attempts run out. */
  lemma {:induction false} FailedResumesExact(exits: seq<int>, attempts: nat)
    ensures
      var n := FailedResumes(exits, attempts);
      && n <= attempts && n <= |exits|
      && (forall i :: 0 <= i < n ==> exits[i] != 0)
      && (n < attempts && n < |exits| ==> exits[n] == 0)
  {
    if attempts > 0 && exits != [] && exits[0] != 0 {
      FailedResumesExact(exits[1..], attempts - 1);
    }
  }

  class CodexFallbackExecutor {
    const config: FallbackConfig
    var recentResumeFailuresByAgent: Failures

    constructor (config: FallbackConfig)
      ensures this.config == config && recentResumeFailuresByAgent == map[]
    {
      this.config, recentResumeFailuresByAgent := config, map[];
    }

    method CanAttemptResume(job: Job, now: int, runtime: Option<Session>) returns (canResume: bool)
      modifies this`recentResumeFailuresByAgent
      ensures canResume == CanResume(config, old(recentResumeFailuresByAgent), Call(job, now, runtime, []))
      ensures canResume <==>
        && job.sessionId.Some? && runtime.Some? && job.sessionId.value == runtime.value.sessionId
        && now - runtime.value.lastHeartbeatAt <= config.staleAfterHours * 60 * 60 * 1000
        && |Recent(FailuresOf(old(recentResumeFailuresByAgent), AgentKey(job.workspaceId, job.agentId)),
                   now - config.crashLoopWindowMs)| < config.crashLoopThreshold
      ensures recentResumeFailuresByAgent
        == Pruned(config, old(recentResumeFailuresByAgent), Call(job, now, runtime, []))
    {
      if job.sessionId.None? || runtime.None? {
        return false;
      }
      if runtime.value.sessionId != job.sessionId.value || IsSessionStale(runtime.value, config.staleAfterHours, now) {
        return false;
      }
      var key := KeyOfAgent(job);
      var failures := if key in recentResumeFailuresByAgent then recentResumeFailuresByAgent[key] else [];
      var recentFailures := Recent(failures, now - config.crashLoopWindowMs);
      recentResumeFailuresByAgent := recentResumeFailuresByAgent[key := recentFailures];
      return |recentFailures| < config.crashLoopThreshold;
    }

    method RecordResumeFailure(job: Job, now: int)
      modifies this`recentResumeFailuresByAgent
      ensures recentResumeFailuresByAgent
           == old(recentResumeFailuresByAgent)[AgentKey(job.workspaceId, job.agentId) :=
                   FailuresOf(old(recentResumeFailuresByAgent), AgentKey(job.workspaceId, job.agentId)) + [now]]
    {
      var key := KeyOfAgent(job);
      var failures := if key in recentResumeFailuresByAgent then recentResumeFailuresByAgent[key] else [];
      recentResumeFailuresByAgent := recentResumeFailuresByAgent[key := failures + [now]];
    }

    /** The counted resume loop; `exits` are the exit codes the commands return, in order. */
    method TryResume(job: Job, now: int, exits: seq<int>) returns (resumed: bool, commands: seq<Command>)
      requires job.sessionId.Some? && |exits| > config.resumeMaxAttempts
      modifies this`recentResumeFailuresByAgent
      ensures
        var f := FailedResumes(exits, config.resumeMaxAttempts);
        && f <= config.resumeMaxAttempts
        && resumed == (f < config.resumeMaxAttempts)
        && |commands| == (if resumed then f + 1 else f)
        && (forall i :: 0 <= i < |commands| ==> commands[i] == Resume(job.sessionId.value, job.prompt))
        && (forall i :: 0 <= i < f ==> exits[i] != 0)
        && (resumed ==> exits[f] == 0)
        && recentResumeFailuresByAgent == AddFailures(old(recentResumeFailuresByAgent), KeyOfAgent(job), now, f)
    {
      commands := [];
      var used := 0;
      while used < config.resumeMaxAttempts
        invariant used <= config.resumeMaxAttempts && |commands| == used
        invariant forall i :: 0 <= i < used ==> commands[i] == Resume(job.sessionId.value, job.prompt) && exits[i] != 0
        invariant FailedResumes(exits, config.resumeMaxAttempts)
          == used + FailedResumes(exits[used..], config.resumeMaxAttempts - used)
        invariant recentResumeFailuresByAgent
          == AddFailures(old(recentResumeFailuresByAgent), KeyOfAgent(job), now, used)
      {
        commands := commands + [Resume(job.sessionId.value, job.prompt)];
        if exits[used] == 0 {
          return true, commands;
        }
        RecordResumeFailure(job, now);
        assert exits[used..][1..] == exits[used + 1..];
        used := used + 1;
      }
      return false, commands;
    }

    /** The commands issued are `k` resumes of the target session, `k` at most `resumeMaxAttempts`, and then
        one spawn exactly when no resume succeeded. */
    method Execute(job: Job, now: int, runtime: Option<Session>, exits: seq<int>)
      returns (outcome: FallbackOutcome, commands: seq<Command>)
      requires |exits| > config.resumeMaxAttempts
      modifies this`recentResumeFailuresByAgent
      ensures FallbackContract(outcome)
      ensures recentResumeFailuresByAgent
        == FailuresAfter(config, old(recentResumeFailuresByAgent), Call(job, now, runtime, exits))
      ensures ChainIssued(config, job, exits, outcome, commands,
                          CanResume(config, old(recentResumeFailuresByAgent), Call(job, now, runtime, exits)))
    {
      var canResume := CanAttemptResume(job, now, runtime);
      commands := [];
      if canResume {
        var resumed;
        resumed, commands := TryResume(job, now, exits);
        if resumed {
          return FallbackOutcome(ResumeSucceeded, FallbackResume, None), commands;
        }
      }
      var spawnExit := exits[|commands|];
      commands := commands + [Spawn(job.threadId, job.prompt)];
      if spawnExit == 0 {
        return FallbackOutcome(Spawned, FallbackSpawn, None), commands;
      }
      return FallbackOutcome(ResumeFailed, Failed, Some("FALLBACK_SPAWN_FAILED")), commands;
    }
  }

  /** The shape of a fallback chain: resumes first, all but possibly the last of them failing; a spawn at the
      end exactly when none succeeded; no resume at all unless resuming was allowed. The outcome is that of the
      last command. */
  predicate ChainIssued(g: FallbackConfig, job: Job, exits: seq<int>, outcome: FallbackOutcome, commands: seq<Command>,
                        canResume: bool) {
    && 0 < |commands| <= |exits|
    && var last := |commands| - 1;
       && last <= g.resumeMaxAttempts
       && (!canResume ==> last == 0 && commands[0].Spawn?)
       && (forall i :: 0 <= i < last ==> commands[i].Resume? && exits[i] != 0)
       && (forall i :: 0 <= i <= last && commands[i].Resume? ==>
           job.sessionId == Some(commands[i].sessionId) && commands[i].prompt == job.prompt)
       && (canResume && commands[last].Spawn? ==> last == g.resumeMaxAttempts)
       && (commands[last].Resume? ==>
           exits[last] == 0 && outcome == FallbackOutcome(ResumeSucceeded, FallbackResume, None))
       && (commands[last].Spawn? ==>
            && commands[last] == Spawn(job.threadId, job.prompt)
            && outcome == if exits[last] == 0 then FallbackOutcome(Spawned, FallbackSpawn, None)
                          else FallbackOutcome(ResumeFailed, Failed, Some("FALLBACK_SPAWN_FAILED")))
  }
}
