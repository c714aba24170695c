/** Pages of a thread's log: the in-memory filter-and-slice form, the database's limit-plus-one form, and what a
    reader sees who follows `next_seq` while others keep posting. */
module Paging {
  import opened MessageTable
  import opened Numbers
  import opened StableSort
  import PostMessage

  datatype Page = Page(messages: seq<Message>, nextSeq: nat, hasMore: bool)

  /** The messages a `seq > since` filter keeps, in the given order. */
  function After(messages: seq<Message>, since: nat): seq<Message> {
    if messages == [] then []
    else
      After(messages[..|messages| - 1], since)
      + (if messages[|messages| - 1].seqNo > since then [messages[|messages| - 1]] else [])
  }

  function NextSeq(page: seq<Message>, since: nat): nat {
    if page == [] then since else page[|page| - 1].seqNo
  }

  /** Slice at the limit. */
  function Sliced(filtered: seq<Message>, since: nat, limit: nat): Page {
    var page := Take(filtered, limit);
    Page(page, NextSeq(page, since), |filtered| > limit)
  }

  /** Fetch one past the limit to learn whether there is more. */
  function Fetched(sorted: seq<Message>, since: nat, limit: nat): Page {
    var rows := Take(sorted, limit + 1);
    var hasMore := |rows| > limit;
    var page := if hasMore then rows[..limit] else rows;
    Page(page, NextSeq(page, since), hasMore)
  }

  /** The in-memory form, over the thread's own list. */
  function PageInMemory(log: seq<Message>, since: nat, limit: nat): Page {
    Sliced(After(log, since), since, limit)
  }

  function SeqOf(m: Message): int {
    m.seqNo
  }

  /** The database form: the rows come back in any order, are sorted by sequence and cut one past the limit. */
  function PageFromDb(stored: seq<Message>, threadId: string, since: nat, limit: nat): Page {
    Fetched(SortBy(SeqOf, After(ThreadLog(stored, threadId), since)), since, limit)
  }

  // ----- one page

  ghost predicate Gapless(log: seq<Message>) {
    forall i :: 0 <= i < |log| ==> log[i].seqNo == i + 1
  }

  lemma {:induction false} AfterGapless(log: seq<Message>, since: nat)
    requires Gapless(log)
    ensures After(log, since) == log[Min(since, |log|)..]
  {
    if log != [] {
      var init, n := log[..|log| - 1], |log| - 1;
      AfterGapless(init, since);
      hide After, Gapless;
      assert log[n].seqNo == n + 1 by { LastNumber(log); }
      assert since <= n ==> log[since..] == init[since..] + [log[n]];
    }
  }

  lemma LastNumber(log: seq<Message>)
    requires Gapless(log) && log != []
    ensures log[|log| - 1].seqNo == |log|
  {
  }

  /** On a gap-free log a page is exactly the next stretch of it. */
  lemma PageIsTheNextStretch(log: seq<Message>, since: nat, limit: nat)
    requires Gapless(log)
    ensures
      var page := PageInMemory(log, since, limit);
      && page.messages == log[Min(since, |log|)..Min(since + limit, |log|)]
      && page.nextSeq == since + |page.messages|
      && (page.hasMore <==> |log| > since + limit)
  {
    AfterGapless(log, since);
  }

  /** The last of two sorted lists with the same elements, when their sequence numbers differ. */
  lemma LastIsUnique(a: seq<Message>, b: seq<Message>)
    requires a != [] && b != [] && (forall m :: m in a <==> m in b)
    requires SortedBy(SeqOf, a) && SortedBy(SeqOf, b)
    requires forall i, j :: 0 <= i < j < |b| ==> b[i].seqNo != b[j].seqNo
    ensures a[|a| - 1] == b[|b| - 1]
  {
    assert a[|a| - 1] in b && b[|b| - 1] in a;
    var i :| 0 <= i < |b| && b[i] == a[|a| - 1];
    var j :| 0 <= j < |a| && a[j] == b[|b| - 1];
    assert SeqOf(b[i]) <= SeqOf(b[|b| - 1]) && SeqOf(a[j]) <= SeqOf(a[|a| - 1]);
  }

  lemma WithoutLast(a: seq<Message>)
    requires a != []
    ensures multiset(a) == multiset(a[..|a| - 1]) + multiset{a[|a| - 1]}
  {
    assert a == a[..|a| - 1] + [a[|a| - 1]];
  }

  lemma SameMembers(a: seq<Message>, b: seq<Message>)
    requires multiset(a) == multiset(b)
    ensures |a| == |b| && forall m :: m in a <==> m in b
  {
    assert |multiset(a)| == |a| && |multiset(b)| == |b|;
    forall m ensures m in a <==> m in b {
      assert m in multiset(a) <==> m in multiset(b);
    }
  }

  lemma DropSameLast(a: seq<Message>, b: seq<Message>)
    requires a != [] && b != [] && multiset(a) == multiset(b) && a[|a| - 1] == b[|b| - 1]
    ensures multiset(a[..|a| - 1]) == multiset(b[..|b| - 1])
  {
    WithoutLast(a);
    WithoutLast(b);
    assert multiset(a[..|a| - 1]) == multiset(a) - multiset{a[|a| - 1]};
  }

  /** Sorted lists with the same elements and distinct sequence numbers are the same list. */
  lemma {:induction false} AscendingIsUnique(a: seq<Message>, b: seq<Message>)
    requires multiset(a) == multiset(b)
    requires SortedBy(SeqOf, a) && SortedBy(SeqOf, b)
    requires forall i, j :: 0 <= i < j < |b| ==> b[i].seqNo != b[j].seqNo
    ensures a == b
  {
    SameMembers(a, b);
    if a != [] {
      LastIsUnique(a, b);
      DropSameLast(a, b);
      AscendingIsUnique(a[..|a| - 1], b[..|b| - 1]);
      assert a == a[..|a| - 1] + [a[|a| - 1]] && b == b[..|b| - 1] + [b[|b| - 1]];
    }
  }

  lemma {:induction false} CountInLog(a: seq<Message>, threadId: string, m: Message)
    ensures multiset(ThreadLog(a, threadId))[m] == if m.threadId == threadId then multiset(a)[m] else 0
  {
    if a != [] {
      CountInLog(a[..|a| - 1], threadId, m);
      WithoutLast(a);
    }
  }

  lemma {:induction false} CountAfter(a: seq<Message>, since: nat, m: Message)
    ensures multiset(After(a, since))[m] == if m.seqNo > since then multiset(a)[m] else 0
  {
    if a != [] {
      CountAfter(a[..|a| - 1], since, m);
      WithoutLast(a);
    }
  }

  /** What is past `since` in one thread does not depend on the order the rows are stored in. */
  lemma {:induction false} SameRowsSameAfter(a: seq<Message>, b: seq<Message>, threadId: string, since: nat)
    requires multiset(a) == multiset(b)
    ensures multiset(After(ThreadLog(a, threadId), since)) == multiset(After(ThreadLog(b, threadId), since))
  {
    hide *;
    forall m ensures multiset(After(ThreadLog(a, threadId), since))[m]
      == multiset(After(ThreadLog(b, threadId), since))[m] {
      CountInLog(a, threadId, m);
      CountInLog(b, threadId, m);
      CountAfter(ThreadLog(a, threadId), since, m);
      CountAfter(ThreadLog(b, threadId), since, m);
    }
  }

  lemma AfterIsAscending(log: seq<Message>, since: nat)
    requires Gapless(log)
    ensures SortedBy(SeqOf, After(log, since))
    ensures forall i, j :: 0 <= i < j < |After(log, since)| ==> After(log, since)[i].seqNo != After(log, since)[j].seqNo
  {
    AfterGapless(log, since);
  }

  lemma CutsAgree(messages: seq<Message>, since: nat, limit: nat)
    ensures Fetched(messages, since, limit) == Sliced(messages, since, limit)
  {
    if |messages| > limit {
      assert messages[..limit + 1][..limit] == messages[..limit];
    }
  }

  lemma GapFreeLog(rows: seq<Message>, threadId: string)
    requires GapFree(rows)
    ensures Gapless(ThreadLog(rows, threadId))
  {
  }

  /** Both forms return the same page of a gap-free table, in whatever order the database stores the rows. */
  lemma {:induction false} FormsAgree(rows: seq<Message>, stored: seq<Message>, threadId: string, since: nat,
                                      limit: nat)
    requires GapFree(rows) && multiset(stored) == multiset(rows)
    ensures PageFromDb(stored, threadId, since, limit) == PageInMemory(ThreadLog(rows, threadId), since, limit)
  {
    hide After, ThreadLog, SortBy, SortedBy, Sliced, Fetched, GapFree, Gapless;
    var ours, theirs := After(ThreadLog(rows, threadId), since), After(ThreadLog(stored, threadId), since);
    SameRowsSameAfter(stored, rows, threadId, since);
    GapFreeLog(rows, threadId);
    AfterIsAscending(ThreadLog(rows, threadId), since);
    SortByOrders(SeqOf, theirs);
    SortByKeepsElements(SeqOf, theirs);
    AscendingIsUnique(SortBy(SeqOf, theirs), ours);
    CutsAgree(ours, since, limit);
  }

  // ----- following next_seq

  datatype Reading = Reading(messages: seq<Message>, nextSeq: nat)

  /** One reader's calls: `logs[k]` is the thread's log when call k is served, and each call starts where the
      last one ended. */
  function Follow(logs: seq<seq<Message>>, since: nat, limit: nat): Reading {
    if logs == [] then Reading([], since)
    else
      var before := Follow(logs[..|logs| - 1], since, limit);
      var page := PageInMemory(logs[|logs| - 1], before.nextSeq, limit);
      Reading(before.messages + page.messages, page.nextSeq)
  }

  ghost predicate Growing(logs: seq<seq<Message>>) {
    && (forall k :: 0 <= k < |logs| ==> Gapless(logs[k]))
    && (forall j, k :: 0 <= j <= k < |logs| ==> logs[j] <= logs[k])
  }

  /** The stretch of the log between two sequence numbers. */
  function Stretch(log: seq<Message>, from: nat, to: nat): seq<Message>
    requires from <= to
  {
    log[Min(from, |log|)..Min(to, |log|)]
  }

  lemma StretchExtends(a: seq<Message>, b: seq<Message>, from: nat, to: nat, end: nat)
    requires a <= b && from <= to <= end && |Stretch(a, from, to)| == to - from
    ensures Stretch(b, from, to) == Stretch(a, from, to)
    ensures Stretch(b, from, to) + Stretch(b, to, end) == Stretch(b, from, end)
  {
  }

  lemma PageIsStretch(log: seq<Message>, since: nat, limit: nat)
    requires Gapless(log)
    ensures
      var page := PageInMemory(log, since, limit);
      && since <= page.nextSeq && page.messages == Stretch(log, since, page.nextSeq)
      && |page.messages| == page.nextSeq - since
      && (!page.hasMore ==> page.nextSeq >= |log|)
  {
    PageIsTheNextStretch(log, since, limit);
  }

  lemma {:induction false} FollowIsContiguous(logs: seq<seq<Message>>, since: nat, limit: nat)
    requires Growing(logs) && logs != []
    ensures
      var got := Follow(logs, since, limit);
      && since <= got.nextSeq && got.messages == Stretch(logs[|logs| - 1], since, got.nextSeq)
      && |got.messages| == got.nextSeq - since
  {
    hide Stretch, PageInMemory, Gapless;
    var before, log := logs[..|logs| - 1], logs[|logs| - 1];
    var was := Follow(before, since, limit);
    PageIsStretch(log, was.nextSeq, limit);
    if before != [] {
      FollowIsContiguous(before, since, limit);
      assert logs[|logs| - 2] <= log;
      StretchExtends(logs[|logs| - 2], log, since, was.nextSeq, Follow(logs, since, limit).nextSeq);
    }
  }

  /** The thread's log at chosen moments of a run of concurrent posts. */
  function LogsAt(reqs: PostMessage.Requests, schedule: seq<PostMessage.Event>, threadId: string, moments: seq<nat>)
      : (logs: seq<seq<Message>>)
    ensures |logs| == |moments|
  {
    if moments == [] then []
    else
      LogsAt(reqs, schedule, threadId, moments[..|moments| - 1])
      + [ThreadLog(PostMessage.Run(reqs, schedule[..Min(moments[|moments| - 1], |schedule|)]).rows, threadId)]
  }

  /** A log only grows: what a run has committed by one moment is a prefix of what it has later. */
  lemma {:induction false} LogsOnlyGrow(reqs: PostMessage.Requests, schedule: seq<PostMessage.Event>, i: nat, j: nat,
                                        threadId: string)
    requires i <= j <= |schedule|
    ensures
      ThreadLog(PostMessage.Run(reqs, schedule[..i]).rows, threadId)
      <= ThreadLog(PostMessage.Run(reqs, schedule[..j]).rows, threadId)
  {
    if i < j {
      LogsOnlyGrow(reqs, schedule, i, j - 1, threadId);
      assert schedule[..j][..j - 1] == schedule[..j - 1];
      var s := PostMessage.Run(reqs, schedule[..j - 1]);
      PostMessage.StepAppends(reqs, s, schedule[j - 1]);
      PostMessage.LogGrows(s.rows, PostMessage.Step(reqs, s, schedule[j - 1]).rows, threadId);
    }
  }

  lemma {:induction false} RunIsGapless(reqs: PostMessage.Requests, schedule: seq<PostMessage.Event>, threadId: string)
    ensures Gapless(ThreadLog(PostMessage.Run(reqs, schedule).rows, threadId))
  {
    PostMessage.RunInv(reqs, schedule);
  }

  lemma {:induction false} LogsAtIndex(reqs: PostMessage.Requests, schedule: seq<PostMessage.Event>, threadId: string,
                                       moments: seq<nat>, k: nat)
    requires k < |moments|
    ensures LogsAt(reqs, schedule, threadId, moments)[k]
         == ThreadLog(PostMessage.Run(reqs, schedule[..Min(moments[k], |schedule|)]).rows, threadId)
  {
    if k < |moments| - 1 {
      LogsAtIndex(reqs, schedule, threadId, moments[..|moments| - 1], k);
    }
  }

  lemma {:induction false} LogsAtGrow(reqs: PostMessage.Requests, schedule: seq<PostMessage.Event>, threadId: string,
                                      moments: seq<nat>)
    requires forall j, k :: 0 <= j <= k < |moments| ==> moments[j] <= moments[k]
    ensures Growing(LogsAt(reqs, schedule, threadId, moments))
  {
    var logs := LogsAt(reqs, schedule, threadId, moments);
    forall k | 0 <= k < |logs| ensures Gapless(logs[k]) {
      LogsAtIndex(reqs, schedule, threadId, moments, k);
      RunIsGapless(reqs, schedule[..Min(moments[k], |schedule|)], threadId);
    }
    forall j, k | 0 <= j <= k < |logs| ensures logs[j] <= logs[k] {
      LogsAtIndex(reqs, schedule, threadId, moments, j);
      LogsAtIndex(reqs, schedule, threadId, moments, k);
      LogsOnlyGrow(reqs, schedule, Min(moments[j], |schedule|), Min(moments[k], |schedule|), threadId);
    }
  }

  /** A reader who follows `next_seq` while any posts commit in between receives exactly the messages numbered
      since+1 .. nextSeq, once each and in order; when the last call says there is no more, that is all of them. */
  lemma PagingIsComplete(reqs: PostMessage.Requests, schedule: seq<PostMessage.Event>, threadId: string,
                         moments: seq<nat>, since: nat, limit: nat, i: nat)
    requires moments != [] && forall j, k :: 0 <= j <= k < |moments| ==> moments[j] <= moments[k]
    ensures
      var logs := LogsAt(reqs, schedule, threadId, moments);
      var log := logs[|logs| - 1];
      var got := Follow(logs, since, limit);
      && since <= got.nextSeq && |got.messages| == got.nextSeq - since
      && (i < |got.messages| ==> got.messages[i].seqNo == since + i + 1 && got.messages[i] in log)
      && (!PageInMemory(log, Follow(logs[..|logs| - 1], since, limit).nextSeq, limit).hasMore ==> got.nextSeq >= |log|)
  {
    var logs := LogsAt(reqs, schedule, threadId, moments);
    LogsAtGrow(reqs, schedule, threadId, moments);
    hide LogsAt;
    FollowEndsAtNext(logs, since, limit, i);
  }

  lemma {:induction false} FollowEndsAtNext(logs: seq<seq<Message>>, since: nat, limit: nat, i: nat)
    requires Growing(logs) && logs != []
    ensures
      var log := logs[|logs| - 1];
      var got := Follow(logs, since, limit);
      && since <= got.nextSeq && |got.messages| == got.nextSeq - since
      && (i < |got.messages| ==> got.messages[i].seqNo == since + i + 1 && got.messages[i] in log)
      && (!PageInMemory(log, Follow(logs[..|logs| - 1], since, limit).nextSeq, limit).hasMore ==> got.nextSeq >= |log|)
  {
    hide PageInMemory, Stretch, Growing;
    FollowIsContiguous(logs, since, limit);
    LastIsGapless(logs);
    PageIsStretch(logs[|logs| - 1], Follow(logs[..|logs| - 1], since, limit).nextSeq, limit);
    if i < |Follow(logs, since, limit).messages| {
      StretchAt(logs[|logs| - 1], since, Follow(logs, since, limit).nextSeq, i);
    }
  }

  lemma LastIsGapless(logs: seq<seq<Message>>)
    requires Growing(logs) && logs != []
    ensures Gapless(logs[|logs| - 1])
  {
  }

  lemma StretchAt(log: seq<Message>, from: nat, to: nat, i: nat)
    requires from <= to && Gapless(log) && i < |Stretch(log, from, to)|
    ensures Stretch(log, from, to)[i].seqNo == from + i + 1 && Stretch(log, from, to)[i] in log
  {
    assert Stretch(log, from, to)[i] == log[from + i];
  }

  // ----- how many calls

  /** The calls a reader makes on a log that does not change. */
  function CallsUntilDone(log: seq<Message>, since: nat, limit: nat): nat
    requires Gapless(log) && limit > 0
    decreases if |log| > since then |log| - since else 0
  {
    PageIsTheNextStretch(log, since, limit);
    var page := PageInMemory(log, since, limit);
    if page.hasMore then 1 + CallsUntilDone(log, page.nextSeq, limit) else 1
  }

  /** Reading to the end takes max(1, ceil(remaining / limit)) calls. */
  lemma {:induction false} CallsAreCeiling(log: seq<Message>, since: nat, limit: nat)
    requires Gapless(log) && limit > 0
    ensures
      var calls := CallsUntilDone(log, since, limit);
      if |log| <= since then calls == 1
      else (calls - 1) * limit < |log| - since <= calls * limit
    decreases if |log| > since then |log| - since else 0
  {
    PageIsTheNextStretch(log, since, limit);
    if |log| > since + limit {
      CallsAreCeiling(log, since + limit, limit);
    }
  }
}
