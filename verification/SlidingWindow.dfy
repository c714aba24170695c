/** Sliding time windows over event histories.

    The rate limiter of the trigger queue and the crash-loop guard of the fallback executor both keep
    a list of past event times that they prune to the current window before they count it. This module
    says exactly when such a pruned list agrees with the full, never pruned history, and bounds what a
    guarded history can hold in any window. Times need not come in order: overlapping ticks each carry the
    time at which they started. */
module SlidingWindow {

  /** The events at or after `cut`, in order: the `filter` both guards prune with. */
  function Recent(h: seq<int>, cut: int): seq<int> {
    if h == [] then []
    else if h[0] >= cut then [h[0]] + Recent(h[1..], cut)
    else Recent(h[1..], cut)
  }

  /** How many events fall in the closed window [lo, hi]. */
  function CountIn(h: seq<int>, lo: int, hi: int): nat {
    if h == [] then 0
    else CountIn(h[..|h| - 1], lo, hi) + (if lo <= h[|h| - 1] <= hi then 1 else 0)
  }

  lemma {:induction false} RecentAppend(h: seq<int>, x: int, cut: int)
    ensures Recent(h + [x], cut) == Recent(h, cut) + (if x >= cut then [x] else [])
  {
    if h == [] {
    } else {
      RecentAppend(h[1..], x, cut);
      assert (h + [x])[1..] == h[1..] + [x];
    }
  }

  /** Pruning early and then again is the same as pruning once: a pruned list loses nothing a later
      window would still count. */
  lemma {:induction false} RecentTwice(h: seq<int>, a: int, b: int)
    requires a <= b
    ensures Recent(Recent(h, a), b) == Recent(h, b)
  {
    if h == [] {
    } else {
      RecentTwice(h[1..], a, b);
      if h[0] >= a {
        assert Recent(h, a)[1..] == Recent(h[1..], a);
      }
    }
  }

  lemma {:induction false} RecentMembers(h: seq<int>, cut: int)
    ensures |Recent(h, cut)| <= |h|
    ensures forall x :: x in Recent(h, cut) <==> x in h && x >= cut
  {
    if h != [] {
      RecentMembers(h[1..], cut);
      assert h == [h[0]] + h[1..];
    }
  }

  /** Pruning first leaves no more to find. */
  lemma {:induction false} RecentOfRecent(h: seq<int>, a: int, b: int)
    ensures |Recent(Recent(h, a), b)| <= |Recent(h, b)|
  {
    if h != [] {
      RecentOfRecent(h[1..], a, b);
      assert h[0] >= a ==> Recent(h, a)[1..] == Recent(h[1..], a);
    }
  }

  /** Pruning drops nothing exactly when everything is recent. */
  lemma {:induction false} RecentKeepsAll(h: seq<int>, cut: int)
    ensures |Recent(h, cut)| == |h| <==> forall x :: x in h ==> x >= cut
    ensures |Recent(h, cut)| == |h| ==> Recent(h, cut) == h
  {
    if h != [] {
      RecentKeepsAll(h[1..], cut);
      RecentMembers(h[1..], cut);
      assert h == [h[0]] + h[1..] && h[0] in h;
      assert forall x :: x in h <==> x == h[0] || x in h[1..];
    }
  }

  lemma {:induction false} RecentNone(h: seq<int>, cut: int)
    requires forall x :: x in h ==> x < cut
    ensures Recent(h, cut) == []
  {
    if h != [] {
      assert h[0] in h && forall x :: x in h[1..] ==> x in h;
      RecentNone(h[1..], cut);
    }
  }

  /** The oldest event. */
  function Oldest(h: seq<int>): int
    requires h != []
  {
    if |h| == 1 || h[0] <= Oldest(h[1..]) then h[0] else Oldest(h[1..])
  }

  lemma {:induction false} OldestIsLeast(h: seq<int>)
    requires h != []
    ensures Oldest(h) in h && forall x :: x in h ==> Oldest(h) <= x
  {
    if |h| > 1 {
      OldestIsLeast(h[1..]);
      assert h == [h[0]] + h[1..];
    }
  }

  /** `h` followed by `n` events at the same instant. */
  function AppendTimes(h: seq<int>, now: int, n: nat): seq<int> {
    if n == 0 then h else AppendTimes(h, now, n - 1) + [now]
  }

  lemma {:induction false} AppendTimesMembers(h: seq<int>, now: int, n: nat)
    ensures forall x :: x in AppendTimes(h, now, n) <==> x in h || (n > 0 && x == now)
  {
    if n > 0 {
      AppendTimesMembers(h, now, n - 1);
    }
  }

  lemma {:induction false} RecentOfAppendTimes(h: seq<int>, now: int, n: nat, cut: int)
    ensures Recent(AppendTimes(h, now, n), cut)
         == if now >= cut then AppendTimes(Recent(h, cut), now, n) else Recent(h, cut)
  {
    if n > 0 {
      RecentOfAppendTimes(h, now, n - 1, cut);
      RecentAppend(AppendTimes(h, now, n - 1), now, cut);
    }
  }

  lemma {:induction false} AppendTimesCancels(a: seq<int>, b: seq<int>, now: int, n: nat)
    ensures AppendTimes(a, now, n) == AppendTimes(b, now, n) <==> a == b
  {
    if n > 0 {
      AppendTimesCancels(a, b, now, n - 1);
      var x, y := AppendTimes(a, now, n - 1), AppendTimes(b, now, n - 1);
      assert (x + [now])[..|x + [now]| - 1] == x && (y + [now])[..|y + [now]| - 1] == y;
    }
  }

  lemma {:induction false} CountOfAppendTimes(h: seq<int>, now: int, n: nat, lo: int, hi: int)
    ensures CountIn(AppendTimes(h, now, n), lo, hi) == CountIn(h, lo, hi) + (if lo <= now <= hi then n else 0)
  {
    if n > 0 {
      CountOfAppendTimes(h, now, n - 1, lo, hi);
    }
  }

  /** `n` events at one instant. */
  function Copies(t: int, n: nat): seq<int> {
    if n == 0 then [] else Copies(t, n - 1) + [t]
  }

  lemma {:induction false} CopiesAre(t: int, n: nat)
    ensures |Copies(t, n)| == n && forall x :: x in Copies(t, n) ==> x == t
  {
    if n > 0 {
      CopiesAre(t, n - 1);
    }
  }

  // ----- a guard that prunes as it goes

  /** One access to a guard's list: its time, how many events it recorded at that time, and whether it pruned the
      list first. Accesses come in the order in which they happen, which need not be the order of their times. */
  datatype Mark = Mark(at: int, added: nat, prunes: bool)

  function PrunedBy(stored: seq<int>, m: Mark, width: int): seq<int> {
    if m.prunes then Recent(stored, m.at - width) else stored
  }

  /** The list the guard keeps. */
  function Stored(marks: seq<Mark>, width: int): seq<int> {
    if marks == [] then []
    else
      var m := marks[|marks| - 1];
      AppendTimes(PrunedBy(Stored(marks[..|marks| - 1], width), m, width), m.at, m.added)
  }

  /** Everything ever recorded. */
  function History(marks: seq<Mark>): seq<int> {
    if marks == [] then []
    else AppendTimes(History(marks[..|marks| - 1]), marks[|marks| - 1].at, marks[|marks| - 1].added)
  }

  /** Access j prunes what access i recorded. */
  predicate Prunes(marks: seq<Mark>, width: int, i: nat, j: nat)
    requires i < j < |marks|
  {
    marks[j].prunes && marks[i].added > 0 && marks[i].at < marks[j].at - width
  }

  /** Nothing recorded at or past `cut` was more than the width before a later access that prunes. */
  ghost predicate NothingLost(marks: seq<Mark>, width: int, cut: int) {
    forall i, j :: 0 <= i < j < |marks| && Prunes(marks, width, i, j) ==> marks[i].at < cut
  }

  /** No recording reaches back over a pruned event: what an earlier access pruned is never within the width of
      the time of a later one that records. */
  ghost predicate NoReachBack(marks: seq<Mark>, width: int) {
    forall i, j, n :: 0 <= i < j < n < |marks| && Prunes(marks, width, i, j) && marks[n].added > 0 ==>
      !(marks[n].at - width <= marks[i].at <= marks[n].at + width)
  }

  lemma {:induction false} HistoryMembers(marks: seq<Mark>, x: int)
    ensures x in History(marks) <==> exists i :: 0 <= i < |marks| && marks[i].added > 0 && marks[i].at == x
  {
    if marks != [] {
      var init, m := marks[..|marks| - 1], marks[|marks| - 1];
      HistoryMembers(init, x);
      AppendTimesMembers(History(init), m.at, m.added);
      if i :| 0 <= i < |init| && init[i].added > 0 && init[i].at == x {
        assert marks[i] == init[i];
      }
      if i :| 0 <= i < |marks| && marks[i].added > 0 && marks[i].at == x {
        assert i < |init| ==> init[i] == marks[i];
      }
    }
  }

  lemma {:induction false} StoredIsRecorded(marks: seq<Mark>, width: int)
    ensures forall x :: x in Stored(marks, width) ==> x in History(marks)
  {
    if marks != [] {
      var init, m := marks[..|marks| - 1], marks[|marks| - 1];
      StoredIsRecorded(init, width);
      RecentMembers(Stored(init, width), m.at - width);
      AppendTimesMembers(PrunedBy(Stored(init, width), m, width), m.at, m.added);
      AppendTimesMembers(History(init), m.at, m.added);
    }
  }

  /** No event at or past `cut` lies before `last`. */
  ghost predicate NoneBetween(h: seq<int>, cut: int, last: int) {
    forall x :: x in h && x >= cut ==> x >= last
  }

  /** An event of the history, and whether the last access prunes it. */
  lemma LastPrunes(marks: seq<Mark>, width: int, cut: int, x: int)
    requires marks != [] && marks[|marks| - 1].prunes && NothingLost(marks, width, cut)
    requires x in History(marks[..|marks| - 1]) && x >= cut
    ensures x >= marks[|marks| - 1].at - width
  {
    var n := |marks| - 1;
    HistoryMembers(marks[..n], x);
    hide History;
    var i :| 0 <= i < n && marks[..n][i].added > 0 && marks[..n][i].at == x;
    assert !Prunes(marks, width, i, n);
  }

  /** What is stored is never more than what has been recorded, whatever window is looked at. */
  lemma {:induction false} StoredIsFewer(marks: seq<Mark>, width: int, cut: int)
    ensures |Recent(Stored(marks, width), cut)| <= |Recent(History(marks), cut)|
  {
    if marks != [] {
      var init, m := marks[..|marks| - 1], marks[|marks| - 1];
      StoredIsFewer(init, width, cut);
      RecentOfRecent(Stored(init, width), m.at - width, cut);
      RecentOfAppendTimes(PrunedBy(Stored(init, width), m, width), m.at, m.added, cut);
      RecentOfAppendTimes(History(init), m.at, m.added, cut);
      AppendTimesLength(Recent(PrunedBy(Stored(init, width), m, width), cut), m.at, m.added);
      AppendTimesLength(Recent(History(init), cut), m.at, m.added);
      hide Recent, AppendTimes;
    }
  }

  lemma {:induction false} AppendTimesLength(h: seq<int>, now: int, n: nat)
    ensures |AppendTimes(h, now, n)| == |h| + n
  {
    if n > 0 {
      AppendTimesLength(h, now, n - 1);
    }
  }

  lemma NothingLostInPrefix(marks: seq<Mark>, width: int, cut: int)
    requires marks != [] && NothingLost(marks, width, cut)
    ensures NothingLost(marks[..|marks| - 1], width, cut)
  {
    var n := |marks| - 1;
    forall i, j | 0 <= i < j < n && Prunes(marks[..n], width, i, j) ensures marks[i].at < cut {
      assert Prunes(marks, width, i, j);
    }
  }

  lemma NothingLostByLast(marks: seq<Mark>, width: int, cut: int)
    requires marks != [] && NothingLost(marks[..|marks| - 1], width, cut)
    requires
      var init, m := marks[..|marks| - 1], marks[|marks| - 1];
      m.prunes ==> NoneBetween(History(init), cut, m.at - width)
    ensures NothingLost(marks, width, cut)
  {
    var n := |marks| - 1;
    forall i, j | 0 <= i < j < |marks| && Prunes(marks, width, i, j) ensures marks[i].at < cut {
      assert marks[..n][i] == marks[i];
      if j < n {
        assert Prunes(marks[..n], width, i, j);
      } else {
        HistoryMembers(marks[..n], marks[i].at);
      }
    }
  }

  lemma NothingLostBefore(marks: seq<Mark>, width: int, cut: int)
    requires marks != []
    ensures
      var init, m := marks[..|marks| - 1], marks[|marks| - 1];
      NothingLost(marks, width, cut) <==>
        && NothingLost(init, width, cut)
        && (m.prunes ==> NoneBetween(History(init), cut, m.at - width))
  {
    hide NothingLost, History;
    var init, m := marks[..|marks| - 1], marks[|marks| - 1];
    if NothingLost(marks, width, cut) {
      NothingLostInPrefix(marks, width, cut);
      forall x | m.prunes && x in History(init) && x >= cut ensures x >= m.at - width {
        LastPrunes(marks, width, cut, x);
      }
    }
    if NothingLost(init, width, cut) && (m.prunes ==> NoneBetween(History(init), cut, m.at - width)) {
      NothingLostByLast(marks, width, cut);
    }
  }

  /** The pruned list and the full history agree from `cut` on exactly when nothing recorded there was lost. */
  lemma {:induction false} PruningIsExact(marks: seq<Mark>, width: int, cut: int)
    ensures Recent(Stored(marks, width), cut) == Recent(History(marks), cut) <==> NothingLost(marks, width, cut)
  {
    if marks != [] {
      var init, m := marks[..|marks| - 1], marks[|marks| - 1];
      var s, h, last := Stored(init, width), History(init), m.at - width;
      PruningIsExact(init, width, cut);
      PruningIsExact(init, width, last);
      NothingLostBefore(marks, width, cut);
      StoredStep(marks, width);
      hide Prunes, Stored, History, NothingLost;
      RecentOfAppendTimes(PrunedBy(s, m, width), m.at, m.added, cut);
      RecentOfAppendTimes(h, m.at, m.added, cut);
      AppendTimesCancels(Recent(PrunedBy(s, m, width), cut), Recent(h, cut), m.at, m.added);
      PruneStep(s, h, last, cut);
      NothingLostLater(init, width, cut, last);
    }
  }

  lemma StoredStep(marks: seq<Mark>, width: int)
    requires marks != []
    ensures
      var init, m := marks[..|marks| - 1], marks[|marks| - 1];
      && Stored(marks, width) == AppendTimes(PrunedBy(Stored(init, width), m, width), m.at, m.added)
      && History(marks) == AppendTimes(History(init), m.at, m.added)
  {
  }

  lemma NothingLostLater(marks: seq<Mark>, width: int, cut: int, last: int)
    ensures cut <= last ==> (NothingLost(marks, width, cut) ==> NothingLost(marks, width, last))
    ensures
      NothingLost(marks, width, last) && NoneBetween(History(marks), cut, last) ==>
        NothingLost(marks, width, cut)
  {
    if NothingLost(marks, width, last) && NoneBetween(History(marks), cut, last) {
      forall i, j | 0 <= i < j < |marks| && Prunes(marks, width, i, j) ensures marks[i].at < cut {
        HistoryMembers(marks, marks[i].at);
      }
    }
  }

  /** What one more pruning does to the agreement of a stored list with its history. */
  lemma {:induction false} PruneStep(s: seq<int>, h: seq<int>, last: int, cut: int)
    ensures last <= cut ==> Recent(Recent(s, last), cut) == Recent(s, cut)
    ensures last > cut ==>
      (Recent(Recent(s, last), cut) == Recent(h, cut) <==>
       Recent(s, last) == Recent(h, last) && NoneBetween(h, cut, last))
  {
    if last <= cut {
      RecentTwice(s, last, cut);
    } else {
      RecentMembers(s, last);
      RecentMembers(h, cut);
      RecentMembers(h, last);
      RecentKeepsAll(Recent(s, last), cut);
      RecentKeepsAll(Recent(h, cut), last);
      RecentTwice(h, cut, last);
      RecentTwice(s, last, last);
    }
  }

  // ----- what a guard bounds

  /** An access that records anything found fewer than `threshold` recent events in its list, and recorded
      at most `batch`. */
  predicate HadRoom(before: seq<Mark>, m: Mark, width: int, threshold: nat, batch: nat) {
    m.added > 0 ==> |Recent(Stored(before, width), m.at - width)| < threshold && m.added <= batch
  }

  ghost predicate Guarded(marks: seq<Mark>, width: int, threshold: nat, batch: nat) {
    forall n :: 0 <= n < |marks| ==> HadRoom(marks[..n], marks[n], width, threshold, batch)
  }

  lemma StoredSnoc(marks: seq<Mark>, m: Mark, width: int)
    ensures Stored(marks + [m], width) == AppendTimes(PrunedBy(Stored(marks, width), m, width), m.at, m.added)
    ensures History(marks + [m]) == AppendTimes(History(marks), m.at, m.added)
  {
    assert (marks + [m])[..|marks|] == marks;
  }

  /** One more access that found room keeps a guard. */
  lemma GuardedSnoc(marks: seq<Mark>, m: Mark, width: int, threshold: nat, batch: nat)
    requires Guarded(marks, width, threshold, batch) && HadRoom(marks, m, width, threshold, batch)
    ensures Guarded(marks + [m], width, threshold, batch)
  {
    hide HadRoom;
    var all := marks + [m];
    forall n | 0 <= n < |all| ensures HadRoom(all[..n], all[n], width, threshold, batch) {
      if n < |marks| {
        assert all[..n] == marks[..n] && all[n] == marks[n];
      } else {
        assert all[..n] == marks && all[n] == m;
      }
    }
  }

  lemma CountSnoc(h: seq<int>, x: int, lo: int, hi: int)
    ensures CountIn(h + [x], lo, hi) == CountIn(h, lo, hi) + (if lo <= x <= hi then 1 else 0)
  {
    assert (h + [x])[..|h|] == h;
  }

  /** Pruning leaves the count of a window alone when it drops nothing from the window. */
  lemma {:induction false} RecentCounts(h: seq<int>, cut: int, lo: int, hi: int)
    requires forall x :: x in h && lo <= x <= hi ==> x >= cut
    ensures CountIn(Recent(h, cut), lo, hi) == CountIn(h, lo, hi)
  {
    hide CountIn, Recent;
    if h == [] {
      RecentNone(h, cut);
    } else {
      var init, x := h[..|h| - 1], h[|h| - 1];
      assert h == init + [x] && x in h && forall y :: y in init ==> y in h;
      RecentCounts(init, cut, lo, hi);
      RecentCountsSnoc(init, x, cut, lo, hi);
    }
  }

  lemma RecentCountsSnoc(h: seq<int>, x: int, cut: int, lo: int, hi: int)
    requires lo <= x <= hi ==> x >= cut
    requires CountIn(Recent(h, cut), lo, hi) == CountIn(h, lo, hi)
    ensures CountIn(Recent(h + [x], cut), lo, hi) == CountIn(h + [x], lo, hi)
  {
    hide CountIn, Recent;
    RecentAppend(h, x, cut);
    CountSnoc(h, x, lo, hi);
    CountSnoc(Recent(h, cut), x, lo, hi);
    assert Recent(h, cut) + [] == Recent(h, cut);
  }

  lemma {:induction false} CountIsRecent(h: seq<int>, cut: int, lo: int, hi: int)
    requires cut <= lo
    ensures CountIn(h, lo, hi) <= |Recent(h, cut)|
  {
    if h != [] {
      var init, x := h[..|h| - 1], h[|h| - 1];
      CountIsRecent(init, cut, lo, hi);
      RecentAppend(init, x, cut);
      assert h == init + [x];
    }
  }

  /** A window from which nothing was pruned counts the same in the stored list as in the history. */
  lemma {:induction false} UnprunedWindowIsStored(marks: seq<Mark>, width: int, lo: int, hi: int)
    requires forall i, j :: 0 <= i < j < |marks| && Prunes(marks, width, i, j) ==> !(lo <= marks[i].at <= hi)
    ensures CountIn(Stored(marks, width), lo, hi) == CountIn(History(marks), lo, hi)
  {
    if marks != [] {
      hide *;
      UnprunedBefore(marks, width, lo, hi);
      UnprunedWindowIsStored(marks[..|marks| - 1], width, lo, hi);
      LastAccessCounts(marks, width, lo, hi);
    } else {
    }
  }

  lemma UnprunedBefore(marks: seq<Mark>, width: int, lo: int, hi: int)
    requires marks != []
    requires forall i, j :: 0 <= i < j < |marks| && Prunes(marks, width, i, j) ==> !(lo <= marks[i].at <= hi)
    ensures
      var init := marks[..|marks| - 1];
      forall i, j :: 0 <= i < j < |init| && Prunes(init, width, i, j) ==> !(lo <= init[i].at <= hi)
  {
    var n := |marks| - 1;
    forall i, j | 0 <= i < j < n && Prunes(marks[..n], width, i, j) ensures !(lo <= marks[i].at <= hi) {
      assert Prunes(marks, width, i, j);
    }
  }

  lemma KeptInWindow(marks: seq<Mark>, width: int, lo: int, hi: int, x: int)
    requires marks != [] && marks[|marks| - 1].prunes
    requires forall i, j :: 0 <= i < j < |marks| && Prunes(marks, width, i, j) ==> !(lo <= marks[i].at <= hi)
    requires x in Stored(marks[..|marks| - 1], width) && lo <= x <= hi
    ensures x >= marks[|marks| - 1].at - width
  {
    var n := |marks| - 1;
    StoredIsRecorded(marks[..n], width);
    HistoryMembers(marks[..n], x);
    hide Stored, History;
    var i :| 0 <= i < n && marks[..n][i].added > 0 && marks[..n][i].at == x;
    assert !Prunes(marks, width, i, n);
  }

  /** The last access drops nothing from the window. */
  lemma LastAccessCounts(marks: seq<Mark>, width: int, lo: int, hi: int)
    requires marks != []
    requires forall i, j :: 0 <= i < j < |marks| && Prunes(marks, width, i, j) ==> !(lo <= marks[i].at <= hi)
    ensures
      var init, m := marks[..|marks| - 1], marks[|marks| - 1];
      var recorded := if lo <= m.at <= hi then m.added else 0;
      && CountIn(Stored(marks, width), lo, hi) == CountIn(Stored(init, width), lo, hi) + recorded
      && CountIn(History(marks), lo, hi) == CountIn(History(init), lo, hi) + recorded
  {
    hide Stored, History, CountIn, Recent, AppendTimes, Prunes;
    var init, m := marks[..|marks| - 1], marks[|marks| - 1];
    StoredStep(marks, width);
    if m.prunes {
      forall x | x in Stored(init, width) && lo <= x <= hi ensures x >= m.at - width {
        KeptInWindow(marks, width, lo, hi, x);
      }
      RecentCounts(Stored(init, width), m.at - width, lo, hi);
    }
    CountOfAppendTimes(PrunedBy(Stored(init, width), m, width), m.at, m.added, lo, hi);
    CountOfAppendTimes(History(init), m.at, m.added, lo, hi);
  }

  lemma PrefixKeepsGuard(marks: seq<Mark>, width: int, threshold: nat, batch: nat, n: nat)
    requires n <= |marks| && Guarded(marks, width, threshold, batch) && NoReachBack(marks, width)
    ensures Guarded(marks[..n], width, threshold, batch) && NoReachBack(marks[..n], width)
  {
    hide HadRoom;
    forall k | 0 <= k < n ensures HadRoom(marks[..n][..k], marks[..n][k], width, threshold, batch) {
      assert marks[..n][..k] == marks[..k];
    }
    forall i, j, k | 0 <= i < j < k < n && Prunes(marks[..n], width, i, j) && marks[k].added > 0
      ensures !(marks[k].at - width <= marks[i].at <= marks[k].at + width)
    {
      assert Prunes(marks, width, i, j);
    }
  }

  /** Where no recording reaches back over a pruned event, the history holds at most `threshold - 1 + batch`
      events in every closed window, in whatever order the times come. */
  lemma {:induction false} GuardBoundsWindow(marks: seq<Mark>, width: int, threshold: nat, batch: nat, lo: int)
    requires threshold > 0 && Guarded(marks, width, threshold, batch) && NoReachBack(marks, width)
    ensures CountIn(History(marks), lo, lo + width) <= threshold - 1 + batch
  {
    if marks != [] {
      hide *;
      var n := |marks| - 1;
      PrefixKeepsGuard(marks, width, threshold, batch, n);
      GuardBoundsWindow(marks[..n], width, threshold, batch, lo);
      LastAccess(marks, width, threshold, batch, lo);
    } else {
      assert History(marks) == [];
    }
  }

  lemma LastAccess(marks: seq<Mark>, width: int, threshold: nat, batch: nat, lo: int)
    requires marks != [] && Guarded(marks, width, threshold, batch) && NoReachBack(marks, width)
    ensures
      var before, after := CountIn(History(marks[..|marks| - 1]), lo, lo + width),
        CountIn(History(marks), lo, lo + width);
      after == before || after <= threshold - 1 + batch
  {
    hide History, Stored, Prunes, CountIn, Recent, AppendTimes, NoReachBack, HadRoom, Guarded;
    var n, hi := |marks| - 1, lo + width;
    var init, m := marks[..n], marks[n];
    HistoryStep(marks);
    CountOfAppendTimes(History(init), m.at, m.added, lo, hi);
    if m.added > 0 && lo <= m.at <= hi {
      LastHadRoom(marks, width, threshold, batch);
      UnprunedAtLast(marks, width, lo);
      UnprunedWindowIsStored(init, width, lo, hi);
      CountIsRecent(Stored(init, width), m.at - width, lo, hi);
    }
  }

  lemma LastHadRoom(marks: seq<Mark>, width: int, threshold: nat, batch: nat)
    requires marks != [] && Guarded(marks, width, threshold, batch)
    ensures
      var init, m := marks[..|marks| - 1], marks[|marks| - 1];
      m.added > 0 ==> |Recent(Stored(init, width), m.at - width)| < threshold && m.added <= batch
  {
    hide Recent, Stored;
    assert HadRoom(marks[..|marks| - 1], marks[|marks| - 1], width, threshold, batch);
  }

  lemma HistoryStep(marks: seq<Mark>)
    requires marks != []
    ensures History(marks) == AppendTimes(History(marks[..|marks| - 1]), marks[|marks| - 1].at,
                                          marks[|marks| - 1].added)
  {
  }

  lemma UnprunedAtLast(marks: seq<Mark>, width: int, lo: int)
    requires marks != [] && NoReachBack(marks, width)
    requires marks[|marks| - 1].added > 0 && lo <= marks[|marks| - 1].at <= lo + width
    ensures
      var init := marks[..|marks| - 1];
      forall i, j :: 0 <= i < j < |init| && Prunes(init, width, i, j) ==> !(lo <= init[i].at <= lo + width)
  {
    var n := |marks| - 1;
    forall i, j | 0 <= i < j < n && Prunes(marks[..n], width, i, j) ensures !(lo <= marks[i].at <= lo + width) {
      assert Prunes(marks, width, i, j);
    }
  }

  predicate WindowHolds(marks: seq<Mark>, width: int, lo: int, bound: nat) {
    CountIn(History(marks), lo, lo + width) <= bound
  }

  // ----- the condition in terms of the times alone

  /** No time lies within the width of an earlier one that a time in between, more than the width ahead of it, has
      pruned. */
  ghost predicate NoTimeReachesBack(times: seq<int>, width: int) {
    forall a, b, c :: 0 <= a < b < c < |times| ==> !ReachesBack(times, width, a, b, c)
  }

  predicate ReachesBack(times: seq<int>, width: int, a: nat, b: nat, c: nat)
    requires a < b < c < |times|
  {
    && times[a] < times[b] - width
    && times[c] - width <= times[a] <= times[c] + width
  }

  /** `from[i]` is the position in `times` of the time of access i. */
  ghost predicate FromTimes(marks: seq<Mark>, from: seq<nat>, times: seq<int>) {
    && |from| == |marks|
    && (forall i :: 0 <= i < |from| ==> from[i] < |times| && marks[i].at == times[from[i]])
    && (forall i, j :: 0 <= i <= j < |from| ==> from[i] <= from[j])
  }

  lemma FromTimesReachNotBack(marks: seq<Mark>, from: seq<nat>, times: seq<int>, width: nat)
    requires FromTimes(marks, from, times) && NoTimeReachesBack(times, width)
    ensures NoReachBack(marks, width)
  {
    forall i, j, n | 0 <= i < j < n < |marks| && Prunes(marks, width, i, j) && marks[n].added > 0
      ensures !(marks[n].at - width <= marks[i].at <= marks[n].at + width)
    {
      assert marks[i].at == times[from[i]] && marks[j].at == times[from[j]] && marks[n].at == times[from[n]];
      assert from[i] < from[j] <= from[n];
      assert from[j] < from[n] ==> !ReachesBack(times, width, from[i], from[j], from[n]);
    }
  }

  /** Times that never decrease are a special case. */
  lemma OrderedTimesDoNotReachBack(times: seq<int>, width: nat)
    requires forall i, j :: 0 <= i <= j < |times| ==> times[i] <= times[j]
    ensures NoTimeReachesBack(times, width)
  {
  }
}
