/** The `messages` table: rows in commit order, its unique keys, and the per-thread logs it stands for. */
module MessageTable {
  import opened Wrappers

  /** A fresh id: the generator is called once per insert attempt and never repeats an id. */
  datatype MessageId = MessageId(request: nat, attempt: nat)

  datatype Kind = Chat | EventKind | System

  /** What an idempotent replay must repeat. */
  datatype Payload = Payload(
    schemaVersion: nat, kind: Kind, body: string, metadata: Option<map<string, string>>, inReplyTo: Option<MessageId>)

  datatype Message = Message(
    id: MessageId, threadId: string, seqNo: nat, sender: string, session: string, payload: Payload,
    key: Option<string>, createdAt: int)

  /** The messages of one thread, in commit order. */
  function ThreadLog(rows: seq<Message>, threadId: string): seq<Message> {
    if rows == [] then []
    else
      ThreadLog(rows[..|rows| - 1], threadId)
      + (if rows[|rows| - 1].threadId == threadId then [rows[|rows| - 1]] else [])
  }

  /** `order by seq desc limit 1`. */
  function LatestSeq(rows: seq<Message>, threadId: string): nat {
    if rows == [] then 0
    else
      var before := LatestSeq(rows[..|rows| - 1], threadId);
      var last := rows[|rows| - 1];
      if last.threadId == threadId && last.seqNo > before then last.seqNo else before
  }

  predicate HasKey(m: Message, threadId: string, sender: string, key: string) {
    m.threadId == threadId && m.sender == sender && m.key == Some(key)
  }

  function FindByKey(rows: seq<Message>, threadId: string, sender: string, key: string): Option<Message> {
    if rows == [] then None
    else
      var before := FindByKey(rows[..|rows| - 1], threadId, sender, key);
      if before.Some? then before
      else if HasKey(rows[|rows| - 1], threadId, sender, key) then Some(rows[|rows| - 1])
      else None
  }

  predicate HasMessage(rows: seq<Message>, threadId: string, id: MessageId) {
    exists i :: 0 <= i < |rows| && rows[i].threadId == threadId && rows[i].id == id
  }

  /** Two rows that the primary key or one of the two unique indexes keeps apart. A missing key collides with
      nothing. */
  predicate Collide(a: Message, b: Message) {
    || a.id == b.id
    || (a.threadId == b.threadId && a.seqNo == b.seqNo)
    || (a.key.Some? && HasKey(b, a.threadId, a.sender, a.key.value))
  }

  predicate Conflicts(rows: seq<Message>, m: Message) {
    exists i :: 0 <= i < |rows| && Collide(m, rows[i])
  }

  /** Each thread's log carries exactly 1..n. */
  ghost predicate GapFree(rows: seq<Message>) {
    forall threadId, i :: 0 <= i < |ThreadLog(rows, threadId)| ==> ThreadLog(rows, threadId)[i].seqNo == i + 1
  }

  lemma ThreadLogSnoc(rows: seq<Message>, m: Message, threadId: string)
    ensures ThreadLog(rows + [m], threadId) == ThreadLog(rows, threadId) + (if m.threadId == threadId then [m] else [])
  {
    assert (rows + [m])[..|rows|] == rows;
  }

  lemma {:induction false} ThreadLogMembers(rows: seq<Message>, threadId: string, m: Message)
    ensures m in ThreadLog(rows, threadId) <==> m in rows && m.threadId == threadId
  {
    if rows != [] {
      ThreadLogMembers(rows[..|rows| - 1], threadId, m);
      assert rows == rows[..|rows| - 1] + [rows[|rows| - 1]];
    }
  }

  lemma GapFreePrefix(rows: seq<Message>, m: Message)
    requires GapFree(rows + [m])
    ensures GapFree(rows)
    ensures m.seqNo == |ThreadLog(rows, m.threadId)| + 1
  {
    forall threadId, i | 0 <= i < |ThreadLog(rows, threadId)| ensures ThreadLog(rows, threadId)[i].seqNo == i + 1 {
      ThreadLogSnoc(rows, m, threadId);
      assert ThreadLog(rows, threadId)[i] == ThreadLog(rows + [m], threadId)[i];
    }
    ThreadLogSnoc(rows, m, m.threadId);
    assert ThreadLog(rows + [m], m.threadId)[|ThreadLog(rows, m.threadId)|] == m;
  }

  /** In a gap-free table the latest sequence is the length of the thread's log. */
  lemma {:induction false} LatestIsLength(rows: seq<Message>, threadId: string)
    requires GapFree(rows)
    ensures LatestSeq(rows, threadId) == |ThreadLog(rows, threadId)|
  {
    if rows != [] {
      var init, last := rows[..|rows| - 1], rows[|rows| - 1];
      assert rows == init + [last];
      GapFreePrefix(init, last);
      LatestIsLength(init, threadId);
    }
  }

  /** In a gap-free table the sequence numbers in use are exactly 1..length. */
  lemma SeqInUse(rows: seq<Message>, threadId: string, n: nat)
    requires GapFree(rows)
    ensures (exists i :: 0 <= i < |rows| && rows[i].threadId == threadId && rows[i].seqNo == n)
        <==> 1 <= n <= |ThreadLog(rows, threadId)|
  {
    var log := ThreadLog(rows, threadId);
    if i :| 0 <= i < |rows| && rows[i].threadId == threadId && rows[i].seqNo == n {
      ThreadLogMembers(rows, threadId, rows[i]);
      var j :| 0 <= j < |log| && log[j] == rows[i];
    }
    if 1 <= n <= |log| {
      ThreadLogMembers(rows, threadId, log[n - 1]);
      var i :| 0 <= i < |rows| && rows[i] == log[n - 1];
      assert rows[i].threadId == threadId && rows[i].seqNo == n;
    }
  }

  lemma {:induction false} FindByKeyExact(rows: seq<Message>, threadId: string, sender: string, key: string)
    ensures match FindByKey(rows, threadId, sender, key)
            case Some(m) => m in rows && m.threadId == threadId && m.sender == sender && m.key == Some(key)
            case None => forall m :: m in rows ==> m.threadId != threadId || m.sender != sender || m.key != Some(key)
  {
    if rows != [] {
      var init := rows[..|rows| - 1];
      FindByKeyExact(init, threadId, sender, key);
      assert rows == init + [rows[|rows| - 1]];
    }
  }

  /** Looking a key up in the table and in the thread's log is the same. */
  lemma {:induction false} FindInLog(rows: seq<Message>, threadId: string, sender: string, key: string)
    ensures FindByKey(ThreadLog(rows, threadId), threadId, sender, key) == FindByKey(rows, threadId, sender, key)
  {
    if rows != [] {
      var init, last := rows[..|rows| - 1], rows[|rows| - 1];
      FindInLog(init, threadId, sender, key);
      if last.threadId == threadId {
        var log := ThreadLog(init, threadId);
        assert (log + [last])[..|log|] == log;
      } else {
        assert ThreadLog(rows, threadId) == ThreadLog(init, threadId);
      }
    }
  }

}
