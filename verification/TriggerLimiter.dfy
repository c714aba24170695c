/** The rate limiter on its own: what its pruned list knows about the full history of one key, and when it admits
    a job it has deferred. */
module TriggerLimiter {
  import opened Wrappers
  import opened SlidingWindow
  import opened TriggerModel
  import opened TriggerDecision
  import opened TriggerProcessor

  /** The list of one key is what pruning leaves of its consultations, and every admission had room in it. */
  ghost predicate RateTracked(cfg: Config, events: seq<int>, marks: seq<Mark>) {
    && cfg.rateLimitPerMinute > 0
    && events == Stored(marks, RATE_WINDOW_MS)
    && Guarded(marks, RATE_WINDOW_MS, cfg.rateLimitPerMinute, 1)
    && |events| <= cfg.rateLimitPerMinute
  }

  function MarkOf(step: RateStep, now: int): Mark {
    Mark(now, if step.limited.None? then 1 else 0, true)
  }

  /** One decision of the limiter, at any time, is one more consultation. A deferral is always one the full history
      would give too, and so is an admission whenever nothing of the last minute has been lost. */
  lemma {:induction false} LimiterRefinesHistory(cfg: Config, events: seq<int>, marks: seq<Mark>, now: int)
    requires ValidConfig(cfg) && RateTracked(cfg, events, marks)
    ensures
      var step := RateLimit(cfg, events, now);
      && RateTracked(cfg, step.events, marks + [MarkOf(step, now)])
      && (step.limited.Some? ==> |Recent(History(marks), now - RATE_WINDOW_MS)| >= cfg.rateLimitPerMinute)
      && (NothingLost(marks, RATE_WINDOW_MS, now - RATE_WINDOW_MS) ==>
           (step.limited.None? <==> |Recent(History(marks), now - RATE_WINDOW_MS)| < cfg.rateLimitPerMinute))
  {
    hide Stored, History, NothingLost, Guarded;
    var step := RateLimit(cfg, events, now);
    PruningIsExact(marks, RATE_WINDOW_MS, now - RATE_WINDOW_MS);
    StoredIsFewer(marks, RATE_WINDOW_MS, now - RATE_WINDOW_MS);
    RecentMembers(events, now - RATE_WINDOW_MS);
    GuardedSnoc(marks, MarkOf(step, now), RATE_WINDOW_MS, cfg.rateLimitPerMinute, 1);
    StoredSnoc(marks, MarkOf(step, now), RATE_WINDOW_MS);
    assert AppendTimes(Recent(events, now - RATE_WINDOW_MS), now, 1)
        == AppendTimes(Recent(events, now - RATE_WINDOW_MS), now, 0) + [now];
  }

  /** A list that keeps track bounds the executor in every closed window, as long as no admission reaches back
      over a pruned one. */
  lemma TrackedRateIsBounded(cfg: Config, events: seq<int>, marks: seq<Mark>, lo: int)
    requires ValidConfig(cfg) && RateTracked(cfg, events, marks) && NoReachBack(marks, RATE_WINDOW_MS)
    ensures CountIn(History(marks), lo, lo + RATE_WINDOW_MS) <= cfg.rateLimitPerMinute
  {
    GuardBoundsWindow(marks, RATE_WINDOW_MS, cfg.rateLimitPerMinute, 1, lo);
  }

  // ----- retries of a rate-limited job

  /** A job deferred by the limiter, retried at any other time with no consultation of its key in between, is
      admitted exactly when more than a minute has passed since the oldest event the limiter kept. */
  lemma DeferredRetryAdmittedIff(cfg: Config, events: seq<int>, now: int, later: int)
    requires ValidConfig(cfg) && |events| <= cfg.rateLimitPerMinute && RateLimit(cfg, events, now).limited.Some?
    ensures
      var kept := RateLimit(cfg, events, now).events;
      && |kept| == cfg.rateLimitPerMinute
      && (RateLimit(cfg, kept, later).limited.None? <==> later > Oldest(kept) + RATE_WINDOW_MS)
  {
    var kept := RateLimit(cfg, events, now).events;
    RecentMembers(events, now - RATE_WINDOW_MS);
    RecentMembers(kept, later - RATE_WINDOW_MS);
    RecentKeepsAll(kept, later - RATE_WINDOW_MS);
    OldestIsLeast(kept);
  }

  /** The window is closed, so at the retry time the limiter itself hands out the job is admitted exactly when
      the recheck interval, and not the window, decided that time, or when the entry it was computed from was
      not the oldest. */
  lemma OwnRetryTimeAdmittedIff(cfg: Config, events: seq<int>, now: int)
    requires ValidConfig(cfg) && |events| <= cfg.rateLimitPerMinute && RateLimit(cfg, events, now).limited.Some?
    ensures
      var step := RateLimit(cfg, events, now);
      && |step.events| > 0
      && step.limited.value.retryAfterMs.Some? && step.limited.value.retryAfterMs.value > 0
      && (RateLimit(cfg, step.events, now + step.limited.value.retryAfterMs.value).limited.None? <==>
          || cfg.deferRecheckMs > step.events[0] + RATE_WINDOW_MS - now
          || Oldest(step.events) < step.events[0])
  {
    var step := RateLimit(cfg, events, now);
    DeferredRetryAdmittedIff(cfg, events, now, now + step.limited.value.retryAfterMs.value);
    OldestIsLeast(step.events);
    hide Oldest;
  }

  /** With the default settings and a limit of one, a job deferred in the minute of an admission is deferred
      again at exactly the retry time it was given. */
  lemma OwnRetryTimeMayBeDeferredAgain()
    ensures
      var cfg := Config(5_000, 1, 20, 3, 2_000, 60_000);
      var first := RateLimit(cfg, [], 0);
      var second := RateLimit(cfg, first.events, 1_000);
      && ValidConfig(cfg) && first.limited.None?
      && second.limited.Some? && second.limited.value.retryAfterMs == Some(59_000)
      && RateLimit(cfg, second.events, 60_000).limited.Some?
  {
    assert Recent([0], -59_000) == [0] + Recent([], -59_000);
    assert Recent([0], 0) == [0] + Recent([], 0);
  }

  /** The condition is not idle: a late tick that runs with its earlier time finds its window pruned. */
  lemma BackdatedTickOverrunsTheWindow()
    ensures
      var cfg := Config(5_000, 2, 20, 3, 2_000, 60_000);
      var a := RateLimit(cfg, [], 0);
      var b := RateLimit(cfg, a.events, 1);
      var c := RateLimit(cfg, b.events, 60_002);
      var d := RateLimit(cfg, c.events, 2);
      && a.limited.None? && b.limited.None? && c.limited.None? && d.limited.None?
      && CountIn([0, 1, 60_002, 2], 0, 60_000) > cfg.rateLimitPerMinute
  {
    assert Recent([0], -59_999) == [0] + Recent([], -59_999);
    assert Recent([0, 1], 2) == Recent([1], 2) == Recent([], 2);
    assert Recent([60_002], -59_998) == [60_002] + Recent([], -59_998);
    assert [0, 1, 60_002, 2][..3] == [0, 1, 60_002];
    assert [0, 1, 60_002][..2] == [0, 1] && [0, 1][..1] == [0] && [0][..0] == [];
    assert CountIn([0], 0, 60_000) == 1;
    assert CountIn([0, 1], 0, 60_000) == 2;
    assert CountIn([0, 1, 60_002], 0, 60_000) == 2;
  }
}
