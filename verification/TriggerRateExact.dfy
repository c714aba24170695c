/** For which limits and which tick times the rate bound holds: the exact condition. */
module TriggerRateExact {
  import opened Wrappers
  import opened Numbers
  import opened SlidingWindow
  import opened TriggerModel
  import opened TriggerDecision
  import opened TriggerProcessor
  import opened TriggerLimiter

  // ----- a limit of one
  /** The consultations of one key at the given times, from an empty list. */
  function LimiterMarks(cfg: Config, times: seq<int>): seq<Mark> {
    if times == [] then []
    else
      var marks := LimiterMarks(cfg, times[..|times| - 1]);
      var now := times[|times| - 1];
      marks + [MarkOf(RateLimit(cfg, Stored(marks, RATE_WINDOW_MS), now), now)]
  }

  /** With a limit of one the list, once there was an admission, is the last one, and it lies more than a window
      past all before it. */
  ghost predicate OneByOne(stored: seq<int>, history: seq<int>) {
    if history == [] then stored == []
    else
      && stored == [history[|history| - 1]]
      && forall x :: x in history ==> x <= history[|history| - 1]
  }

  lemma {:induction false} NoneBelow(h: seq<int>, lo: int, hi: int)
    requires forall x :: x in h ==> x < lo
    ensures CountIn(h, lo, hi) == 0
  {
    if h != [] {
      var init := h[..|h| - 1];
      assert h[|h| - 1] in h && forall x :: x in init ==> x in h;
      NoneBelow(init, lo, hi);
    }
  }

  /** One more call. */
  lemma OneMoreCall(cfg: Config, times: seq<int>, now: int, lo: int, hi: int)
    ensures
      var before, after := LimiterMarks(cfg, times), LimiterMarks(cfg, times + [now]);
      var stored, history := Stored(before, RATE_WINDOW_MS), History(before);
      var m := MarkOf(RateLimit(cfg, stored, now), now);
      && Stored(after, RATE_WINDOW_MS) == AppendTimes(Recent(stored, now - RATE_WINDOW_MS), now, m.added)
      && History(after) == AppendTimes(history, now, m.added)
      && CountIn(History(after), lo, hi) == CountIn(history, lo, hi) + (if lo <= now <= hi then m.added else 0)
  {
    hide RateLimit, Stored, History, AppendTimes, CountIn, Recent;
    assert (times + [now])[..|times|] == times;
    var before := LimiterMarks(cfg, times);
    var m := MarkOf(RateLimit(cfg, Stored(before, RATE_WINDOW_MS), now), now);
    StoredSnoc(before, m, RATE_WINDOW_MS);
    CountOfAppendTimes(History(before), now, m.added, lo, hi);
  }

  lemma NoCalls(cfg: Config, lo: int, hi: int)
    ensures LimiterMarks(cfg, []) == [] && Stored([], RATE_WINDOW_MS) == [] && History([]) == []
    ensures CountIn([], lo, hi) == 0
  {
  }

  /** With a limit of one every window holds one admission at most. */
  ghost predicate Spaced(cfg: Config, times: seq<int>, lo: int) {
    var marks := LimiterMarks(cfg, times);
    && OneByOne(Stored(marks, RATE_WINDOW_MS), History(marks))
    && CountIn(History(marks), lo, lo + RATE_WINDOW_MS) <= 1
  }

  lemma {:induction false} LimitOneSpaces(cfg: Config, times: seq<int>, lo: int)
    requires ValidConfig(cfg) && cfg.rateLimitPerMinute == 1
    ensures Spaced(cfg, times, lo)
  {
    hide Spaced;
    if times == [] {
      NothingIsSpaced(cfg, lo);
    } else {
      var init, now := times[..|times| - 1], times[|times| - 1];
      assert times == init + [now];
      LimitOneSpaces(cfg, init, lo);
      OneMoreIsSpaced(cfg, init, now, lo);
    }
  }

  lemma NothingIsSpaced(cfg: Config, lo: int)
    ensures Spaced(cfg, [], lo)
  {
  }

  lemma OneMoreIsSpaced(cfg: Config, times: seq<int>, now: int, lo: int)
    requires ValidConfig(cfg) && cfg.rateLimitPerMinute == 1 && Spaced(cfg, times, lo)
    ensures Spaced(cfg, times + [now], lo)
  {
    hide RateLimit, Stored, History, AppendTimes, CountIn, Recent, LimiterMarks, OneByOne;
    var before := LimiterMarks(cfg, times);
    OneMoreCall(cfg, times, now, lo, lo + RATE_WINDOW_MS);
    OneMoreOfOne(cfg, Stored(before, RATE_WINDOW_MS), History(before), now);
    if MarkOf(RateLimit(cfg, Stored(before, RATE_WINDOW_MS), now), now).added == 1 && lo <= now <= lo + RATE_WINDOW_MS {
      NoneBelow(History(before), lo, lo + RATE_WINDOW_MS);
    }
  }

  /** With a limit of one an admission empties the list, and a refusal keeps it. */
  lemma OneMoreOfOne(cfg: Config, stored: seq<int>, history: seq<int>, now: int)
    requires ValidConfig(cfg) && cfg.rateLimitPerMinute == 1 && OneByOne(stored, history)
    ensures
      var m := MarkOf(RateLimit(cfg, stored, now), now);
      && OneByOne(AppendTimes(Recent(stored, now - RATE_WINDOW_MS), m.at, m.added), AppendTimes(history, m.at, m.added))
      && (m.added == 1 ==> forall x :: x in history ==> x < now - RATE_WINDOW_MS)
  {
    hide AppendTimes;
    var recent := Recent(stored, now - RATE_WINDOW_MS);
    RecentOfOne(stored, now - RATE_WINDOW_MS);
    NoneIsAppended(recent, now);
    NoneIsAppended(history, now);
    OneIsAppended(recent, now);
    OneIsAppended(history, now);
    hide Recent;
  }

  lemma RecentOfOne(stored: seq<int>, cut: int)
    requires |stored| <= 1
    ensures Recent(stored, cut) == if stored != [] && stored[0] >= cut then stored else []
  {
    RecentKeepsAll(stored, cut);
    if stored != [] && stored[0] < cut {
      RecentNone(stored, cut);
    }
  }

  lemma NoneIsAppended(h: seq<int>, now: int)
    ensures AppendTimes(h, now, 0) == h
  {
  }

  lemma OneIsAppended(h: seq<int>, now: int)
    ensures AppendTimes(h, now, 1) == h + [now]
  {
    assert AppendTimes(h, now, 1) == AppendTimes(h, now, 0) + [now];
  }

  // ----- ticks at given times

  /** Calls for one key made by ticks at the given times, `counts[i]` of them by tick i. */
  function Expand(times: seq<int>, counts: seq<nat>, n: nat): seq<int>
    requires n <= |times| && |counts| == |times|
  {
    if n == 0 then [] else Expand(times, counts, n - 1) + Copies(times[n - 1], counts[n - 1])
  }

  /** Every limiter run is tracked. */
  lemma {:induction false} LimiterTracks(cfg: Config, times: seq<int>)
    requires ValidConfig(cfg)
    ensures RateTracked(cfg, Stored(LimiterMarks(cfg, times), RATE_WINDOW_MS), LimiterMarks(cfg, times))
  {
    hide RateTracked, RateLimit, Stored, LimiterMarks, ValidConfig;
    if times == [] {
      NoCalls(cfg, 0, 0);
      NothingTracked(cfg);
    } else {
      var init, now := times[..|times| - 1], times[|times| - 1];
      LimiterTracks(cfg, init);
      var marks := LimiterMarks(cfg, init);
      LimiterRefinesHistory(cfg, Stored(marks, RATE_WINDOW_MS), marks, now);
      LastCall(cfg, times);
      TrackedIsStored(cfg, RateLimit(cfg, Stored(marks, RATE_WINDOW_MS), now).events, LimiterMarks(cfg, times));
    }
  }

  lemma LastCall(cfg: Config, times: seq<int>)
    requires times != []
    ensures
      var marks, now := LimiterMarks(cfg, times[..|times| - 1]), times[|times| - 1];
      LimiterMarks(cfg, times) == marks + [MarkOf(RateLimit(cfg, Stored(marks, RATE_WINDOW_MS), now), now)]
  {
    hide RateLimit, Stored;
  }

  lemma {:induction false} MarksAreCalls(cfg: Config, times: seq<int>)
    ensures |LimiterMarks(cfg, times)| == |times|
    ensures forall i :: 0 <= i < |times| ==> LimiterMarks(cfg, times)[i].at == times[i]
  {
    if times == [] {
      NoCalls(cfg, 0, 0);
    } else {
      MarksAreCalls(cfg, times[..|times| - 1]);
      LastCall(cfg, times);
      hide LimiterMarks, RateLimit, Stored;
    }
  }

  lemma NothingTracked(cfg: Config)
    requires ValidConfig(cfg)
    ensures RateTracked(cfg, Stored([], RATE_WINDOW_MS), [])
  {
  }

  lemma TrackedIsStored(cfg: Config, events: seq<int>, marks: seq<Mark>)
    requires RateTracked(cfg, events, marks)
    ensures RateTracked(cfg, Stored(marks, RATE_WINDOW_MS), marks)
  {
  }

  /** Which tick each call is from. */
  lemma {:induction false} CallsFromTicks(times: seq<int>, counts: seq<nat>, n: nat) returns (from: seq<nat>)
    requires n <= |times| && |counts| == |times|
    ensures |from| == |Expand(times, counts, n)|
    ensures forall i :: 0 <= i < |from| ==> from[i] < n && Expand(times, counts, n)[i] == times[from[i]]
    ensures forall i, j :: 0 <= i <= j < |from| ==> from[i] <= from[j]
  {
    if n == 0 {
      from := [];
    } else {
      var before := CallsFromTicks(times, counts, n - 1);
      CopiesAre(times[n - 1], counts[n - 1]);
      var more := Copies(times[n - 1], counts[n - 1]);
      assert forall i :: 0 <= i < |more| ==> more[i] in more;
      from := before + seq(|more|, _ => n - 1);
    }
  }

  /** If no tick reaches back, the bound holds however many calls each tick makes. */
  lemma {:induction false} NoReachBackBounds(cfg: Config, times: seq<int>, counts: seq<nat>, lo: int)
    requires ValidConfig(cfg) && |counts| == |times| && NoTimeReachesBack(times, RATE_WINDOW_MS)
    ensures WindowHolds(LimiterMarks(cfg, Expand(times, counts, |times|)), RATE_WINDOW_MS, lo, cfg.rateLimitPerMinute)
  {
    var calls := Expand(times, counts, |times|);
    var from := CallsFromTicks(times, counts, |times|);
    LimiterTracks(cfg, calls);
    MarksAreCalls(cfg, calls);
    hide LimiterMarks, Expand, NoTimeReachesBack, RateTracked, NoReachBack, CountIn, History, Stored;
    var marks := LimiterMarks(cfg, calls);
    assert FromTimes(marks, from, times);
    FromTimesReachNotBack(marks, from, times, RATE_WINDOW_MS);
    TrackedRateIsBounded(cfg, Stored(marks, RATE_WINDOW_MS), marks, lo);
  }

  // ----- a triple that reaches back overruns every limit above one

  ghost predicate AllAdmitted(cfg: Config, times: seq<int>, lo: int) {
    var marks := LimiterMarks(cfg, times);
    Stored(marks, RATE_WINDOW_MS) == times && CountIn(History(marks), lo, lo + RATE_WINDOW_MS) == |times|
  }

  lemma {:induction false} CopiesAreAdmitted(cfg: Config, t: int, n: nat, lo: int)
    requires ValidConfig(cfg) && n <= cfg.rateLimitPerMinute && lo <= t <= lo + RATE_WINDOW_MS
    ensures AllAdmitted(cfg, Copies(t, n), lo)
  {
    hide AllAdmitted;
    if n == 0 {
      NoneIsAdmitted(cfg, lo);
    } else {
      CopiesAreAdmitted(cfg, t, n - 1, lo);
      CopiesAre(t, n - 1);
      OneMoreIsAdmitted(cfg, Copies(t, n - 1), t, lo);
    }
  }

  lemma NoneIsAdmitted(cfg: Config, lo: int)
    ensures AllAdmitted(cfg, [], lo)
  {
  }

  lemma OneMoreIsAdmitted(cfg: Config, times: seq<int>, t: int, lo: int)
    requires AllAdmitted(cfg, times, lo) && |times| < cfg.rateLimitPerMinute && forall x :: x in times ==> x == t
    requires lo <= t <= lo + RATE_WINDOW_MS
    ensures AllAdmitted(cfg, times + [t], lo)
  {
    RecentKeepsAll(times, t - RATE_WINDOW_MS);
    OneIsAppended(times, t);
    hide Stored, History, AppendTimes, CountIn, Recent, LimiterMarks;
    OneMoreCall(cfg, times, t, lo, lo + RATE_WINDOW_MS);
  }

  /** A call more than a window later empties the list and is admitted. */
  lemma {:induction false} LaterCallPrunes(cfg: Config, times: seq<int>, later: int, lo: int)
    requires ValidConfig(cfg) && AllAdmitted(cfg, times, lo) && later > lo + RATE_WINDOW_MS
    requires forall x :: x in times ==> x < later - RATE_WINDOW_MS
    ensures
      var marks := LimiterMarks(cfg, times + [later]);
      Stored(marks, RATE_WINDOW_MS) == [later] && CountIn(History(marks), lo, lo + RATE_WINDOW_MS) == |times|
  {
    RecentNone(times, later - RATE_WINDOW_MS);
    OneIsAppended([], later);
    hide Stored, History, AppendTimes, CountIn, Recent, LimiterMarks;
    OneMoreCall(cfg, times, later, lo, lo + RATE_WINDOW_MS);
  }

  /** As many admissions as the limit in the first tick, a call in the second that prunes them, and an admission in
      the third that reaches back. */
  lemma TripleOverruns(cfg: Config, first: int, second: int, third: int)
    requires ValidConfig(cfg) && cfg.rateLimitPerMinute > 1 && first < second - RATE_WINDOW_MS
    requires third - RATE_WINDOW_MS <= first <= third + RATE_WINDOW_MS
    ensures
      var calls := Copies(first, cfg.rateLimitPerMinute) + [second] + [third];
      !WindowHolds(LimiterMarks(cfg, calls), RATE_WINDOW_MS, Min(first, third), cfg.rateLimitPerMinute)
  {
    hide Copies, AllAdmitted, Stored, History, CountIn, LimiterMarks, Min;
    var n := cfg.rateLimitPerMinute;
    MinIs(first, third);
    CopiesAre(first, n);
    CopiesAreAdmitted(cfg, first, n, Min(first, third));
    LaterCallPrunes(cfg, Copies(first, n), second, Min(first, third));
    LoneEventLeavesRoom(cfg, Copies(first, n) + [second], second, third, Min(first, third));
  }

  lemma MinIs(a: int, b: int)
    ensures Min(a, b) <= a && Min(a, b) <= b && (Min(a, b) == a || Min(a, b) == b)
  {
  }

  /** When only one event is left and the limit is larger, an earlier call is admitted as well. */
  lemma LoneEventLeavesRoom(cfg: Config, times: seq<int>, kept: int, now: int, lo: int)
    requires cfg.rateLimitPerMinute > 1 && now - RATE_WINDOW_MS <= kept && lo <= now <= lo + RATE_WINDOW_MS
    requires Stored(LimiterMarks(cfg, times), RATE_WINDOW_MS) == [kept]
    ensures CountIn(History(LimiterMarks(cfg, times + [now])), lo, lo + RATE_WINDOW_MS)
         == CountIn(History(LimiterMarks(cfg, times)), lo, lo + RATE_WINDOW_MS) + 1
  {
    RecentKeepsAll([kept], now - RATE_WINDOW_MS);
    hide Stored, History, AppendTimes, CountIn, Recent, LimiterMarks;
    OneMoreCall(cfg, times, now, lo, lo + RATE_WINDOW_MS);
  }

  /** The calls of the triple, as calls of the ticks. */
  function TripleCounts(size: nat, a: nat, b: nat, c: nat, n: nat): (counts: seq<nat>)
    ensures |counts| == size
  {
    seq(size, i => if i == a then n else if i == b || i == c then 1 else 0)
  }

  lemma {:induction false} TripleExpands(times: seq<int>, a: nat, b: nat, c: nat, limit: nat, n: nat)
    requires a < b < c < |times| && n <= |times|
    ensures Expand(times, TripleCounts(|times|, a, b, c, limit), n)
         == (if n > a then Copies(times[a], limit) else [])
            + (if n > b then [times[b]] else []) + (if n > c then [times[c]] else [])
  {
    if n > 0 {
      TripleExpands(times, a, b, c, limit, n - 1);
      assert Copies(times[n - 1], 0) == [] && Copies(times[n - 1], 1) == Copies(times[n - 1], 0) + [times[n - 1]];
      hide Copies;
    }
  }

  // ----- the exact condition

  /** Whatever calls for one key ticks at these times make, no closed window holds more admissions than the limit. */
  ghost predicate BoundHoldsAt(cfg: Config, times: seq<int>)
    requires ValidConfig(cfg)
  {
    forall counts: seq<nat>, lo :: |counts| == |times| ==>
      WindowHolds(LimiterMarks(cfg, Expand(times, counts, |times|)), RATE_WINDOW_MS, lo, cfg.rateLimitPerMinute)
  }

  lemma ReachBackBreaksBound(cfg: Config, times: seq<int>, a: nat, b: nat, c: nat)
    requires ValidConfig(cfg) && cfg.rateLimitPerMinute > 1
    requires a < b < c < |times| && ReachesBack(times, RATE_WINDOW_MS, a, b, c)
    ensures !BoundHoldsAt(cfg, times)
  {
    var counts := TripleCounts(|times|, a, b, c, cfg.rateLimitPerMinute);
    TripleExpands(times, a, b, c, cfg.rateLimitPerMinute, |times|);
    TripleOverruns(cfg, times[a], times[b], times[c]);
    hide WindowHolds, LimiterMarks, Expand, Copies;
    assert !WindowHolds(LimiterMarks(cfg, Expand(times, counts, |times|)), RATE_WINDOW_MS, Min(times[a], times[c]),
                        cfg.rateLimitPerMinute);
  }

  /** The exact condition on tick times: the rate bound holds for all calls that ticks at these times can make if and
      only if the limit is one or no tick reaches back over one that a tick in between has pruned. */
  lemma TickTimesExact(cfg: Config, times: seq<int>)
    requires ValidConfig(cfg)
    ensures BoundHoldsAt(cfg, times) <==> cfg.rateLimitPerMinute == 1 || NoTimeReachesBack(times, RATE_WINDOW_MS)
  {
    hide WindowHolds, LimiterMarks, Expand, ReachesBack;
    if cfg.rateLimitPerMinute == 1 || NoTimeReachesBack(times, RATE_WINDOW_MS) {
      forall counts: seq<nat>, lo | |counts| == |times|
        ensures WindowHolds(LimiterMarks(cfg, Expand(times, counts, |times|)), RATE_WINDOW_MS, lo,
                            cfg.rateLimitPerMinute)
      {
        if cfg.rateLimitPerMinute == 1 {
          LimitOneHolds(cfg, Expand(times, counts, |times|), lo);
        } else {
          NoReachBackBounds(cfg, times, counts, lo);
        }
      }
    } else {
      var a, b, c :| 0 <= a < b < c < |times| && ReachesBack(times, RATE_WINDOW_MS, a, b, c);
      ReachBackBreaksBound(cfg, times, a, b, c);
    }
  }

  lemma LimitOneHolds(cfg: Config, times: seq<int>, lo: int)
    requires ValidConfig(cfg) && cfg.rateLimitPerMinute == 1
    ensures WindowHolds(LimiterMarks(cfg, times), RATE_WINDOW_MS, lo, cfg.rateLimitPerMinute)
  {
    LimitOneSpaces(cfg, times, lo);
  }

  ghost predicate BoundHoldsInAnyOrder(cfg: Config)
    requires ValidConfig(cfg)
  {
    forall times :: BoundHoldsAt(cfg, times)
  }

  /** So it holds for ticks in every order of times if and only if the limit is one. */
  lemma AnyOrderIffLimitIsOne(cfg: Config)
    requires ValidConfig(cfg)
    ensures BoundHoldsInAnyOrder(cfg) <==> cfg.rateLimitPerMinute == 1
  {
    var times := [0, RATE_WINDOW_MS + 1, 0];
    assert ReachesBack(times, RATE_WINDOW_MS, 0, 1, 2);
    TickTimesExact(cfg, times);
    hide BoundHoldsAt;
    if cfg.rateLimitPerMinute == 1 {
      forall other ensures BoundHoldsAt(cfg, other) {
        TickTimesExact(cfg, other);
      }
    }
  }
}
