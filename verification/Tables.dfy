/** The event and message tables and the queries on them, without caches
    (packages/gateway/src/persistence.ts, packages/core/src/db/schema.ts). */
module Tables {
  import opened Basics
  import opened CacheKeys

  /* ------------------------------- the event log ------------------------------- */

  datatype Event = Event(seqNo: int, sessionId: string, payload: string)

  /** Sequence numbers are handed out in increasing order and never reused. */
  ghost predicate SortedLog(events: seq<Event>, lastSeq: int) {
    && (forall i :: 0 <= i < |events| ==> 0 < events[i].seqNo <= lastSeq)
    && (forall i, j :: 0 <= i < j < |events| ==> events[i].seqNo < events[j].seqNo)
  }

  /** The events of a session, oldest first. */
  function EventsOf(events: seq<Event>, id: string): seq<Event> {
    if events == [] then []
    else
      var last := events[|events| - 1];
      EventsOf(events[..|events| - 1], id) + if last.sessionId == id then [last] else []
  }

  /** MAX(seq) over the events of a session, 0 when there are none. */
  function MaxSeq(events: seq<Event>, id: string): int {
    var own := EventsOf(events, id);
    if own == [] then 0 else own[|own| - 1].seqNo
  }

  lemma {:induction false} EventsOfFacts(events: seq<Event>, id: string, lastSeq: int)
    requires SortedLog(events, lastSeq)
    ensures SortedLog(EventsOf(events, id), lastSeq)
    ensures forall e :: e in EventsOf(events, id) <==> e in events && e.sessionId == id
  {
    if events != [] {
      var init, last := events[..|events| - 1], events[|events| - 1];
      EventsOfFacts(init, id, lastSeq);
      assert events == init + [last];
      forall i | 0 <= i < |EventsOf(init, id)|
        ensures EventsOf(init, id)[i].seqNo < last.seqNo
      {
        assert EventsOf(init, id)[i] in init;
      }
    }
  }

  lemma MaxSeqIsMax(events: seq<Event>, id: string, lastSeq: int)
    requires SortedLog(events, lastSeq)
    ensures forall e :: e in events && e.sessionId == id ==> e.seqNo <= MaxSeq(events, id)
    ensures MaxSeq(events, id) == 0 || exists e :: e in events && e.sessionId == id && e.seqNo == MaxSeq(events, id)
    ensures MaxSeq(events, id) >= 0
  {
    EventsOfFacts(events, id, lastSeq);
    var own := EventsOf(events, id);
    if own != [] {
      assert own[|own| - 1] in own;
      forall e | e in events && e.sessionId == id
        ensures e.seqNo <= MaxSeq(events, id)
      {
        assert e in own;
      }
    }
  }

  lemma EventsOfAppend(events: seq<Event>, e: Event, id: string)
    ensures EventsOf(events + [e], id) == EventsOf(events, id) + if e.sessionId == id then [e] else []
  {
  }

  /** Deleting a session's events leaves every other session's log alone. */
  function WithoutSession(events: seq<Event>, id: string): seq<Event> {
    if events == [] then []
    else
      var last := events[|events| - 1];
      WithoutSession(events[..|events| - 1], id) + if last.sessionId == id then [] else [last]
  }

  lemma {:induction false} WithoutSessionIsSorted(events: seq<Event>, id: string, lastSeq: int)
    requires SortedLog(events, lastSeq)
    ensures SortedLog(WithoutSession(events, id), lastSeq)
    ensures forall e :: e in WithoutSession(events, id) ==> e in events
  {
    if events != [] {
      var init, last := events[..|events| - 1], events[|events| - 1];
      WithoutSessionIsSorted(init, id, lastSeq);
      assert events == init + [last];
      var kept := WithoutSession(init, id);
      forall i | 0 <= i < |kept|
        ensures kept[i].seqNo < last.seqNo
      {
        assert kept[i] in init;
      }
    }
  }

  lemma {:induction false} WithoutSessionKeepsOthers(events: seq<Event>, id: string, other: string)
    ensures EventsOf(WithoutSession(events, id), other) == if other == id then [] else EventsOf(events, other)
  {
    if events != [] {
      var init, last := events[..|events| - 1], events[|events| - 1];
      WithoutSessionKeepsOthers(init, id, other);
      var kept := WithoutSession(init, id);
      EventsOfAppend(kept, last, other);
      assert kept + [] == kept && EventsOf(kept, other) + [] == EventsOf(kept, other);
    }
  }

  /* ------------------------------- cursor reading ------------------------------- */

  function From(events: seq<Event>, after: int): seq<Event> {
    if events == [] then []
    else if events[0].seqNo > after then events
    else From(events[1..], after)
  }

  function Take<T>(s: seq<T>, n: nat): seq<T> { if |s| <= n then s else s[..n] }

  /** `WHERE session AND seq > after ORDER BY seq LIMIT limit`. */
  function Page(events: seq<Event>, id: string, after: int, limit: nat): seq<Event> {
    Take(From(EventsOf(events, id), after), limit)
  }

  /** Where the next read starts: after the last event of the page. */
  function Advance(page: seq<Event>, cursor: int): int {
    if page == [] then cursor else page[|page| - 1].seqNo
  }

  ghost predicate Ascending(events: seq<Event>) {
    forall i, j :: 0 <= i < j < |events| ==> events[i].seqNo < events[j].seqNo
  }

  /** The cursor stands after the first `k` events of the log. */
  ghost predicate Passed(log: seq<Event>, cursor: int, k: nat) {
    && k <= |log|
    && (forall i :: 0 <= i < k ==> log[i].seqNo <= cursor)
    && (forall i :: k <= i < |log| ==> log[i].seqNo > cursor)
  }

  lemma {:induction false} FromPassed(log: seq<Event>, cursor: int, k: nat)
    requires Passed(log, cursor, k)
    ensures From(log, cursor) == log[k..]
  {
    if k > 0 {
      FromPassed(log[1..], cursor, k - 1);
    }
  }

  /** One read at a time: `logs[i]` is the session's log when the i-th read happens. */
  function PagesRead(logs: seq<seq<Event>>, limits: seq<nat>, cursor: int): seq<Event>
    requires |limits| == |logs|
  {
    if logs == [] then []
    else
      var page := Take(From(logs[0], cursor), limits[0]);
      page + PagesRead(logs[1..], limits[1..], Advance(page, cursor))
  }

  function FinalCursor(logs: seq<seq<Event>>, limits: seq<nat>, cursor: int): int
    requires |limits| == |logs|
  {
    if logs == [] then cursor
    else FinalCursor(logs[1..], limits[1..], Advance(Take(From(logs[0], cursor), limits[0]), cursor))
  }

  /** The pages of any sequence of reads, whatever the limits and however the log grows at its
      end in between, are exactly the events between the first and the last cursor, each once
      and in order. `last` is the log at the last read or any later time. */
  lemma {:induction false} ReadsCoverTheLog(logs: seq<seq<Event>>, limits: seq<nat>, cursor: int, last: seq<Event>,
      k: nat)
    requires |limits| == |logs| && Ascending(last) && Passed(last, cursor, k)
    requires forall i :: 0 <= i < |logs| ==> logs[i] <= last
    ensures var read := PagesRead(logs, limits, cursor);
      Passed(last, FinalCursor(logs, limits, cursor), k + |read|) && read == last[k..k + |read|]
    decreases |logs|
  {
    if logs == [] {
      assert last[k..k] == [];
    } else {
      var page := Take(From(logs[0], cursor), limits[0]);
      var next := Advance(page, cursor);
      var rest := PagesRead(logs[1..], limits[1..], next);
      PageIsSegment(logs[0], last, cursor, k, limits[0]);
      ReadsCoverTheLog(logs[1..], limits[1..], next, last, k + |page|);
      Glue(last, k, page, rest);
      assert PagesRead(logs, limits, cursor) == page + rest;
    }
  }

  lemma Glue<T>(s: seq<T>, k: nat, a: seq<T>, b: seq<T>)
    requires k + |a| + |b| <= |s| && a == s[k..k + |a|] && b == s[k + |a|..k + |a| + |b|]
    ensures a + b == s[k..k + |a + b|]
  {
  }

  lemma PageIsSegment(log: seq<Event>, last: seq<Event>, cursor: int, k: nat, limit: nat)
    requires Ascending(last) && log <= last && Passed(last, cursor, k)
    ensures var page := Take(From(log, cursor), limit);
      k + |page| <= |last| && page == last[k..k + |page|] && Passed(last, Advance(page, cursor), k + |page|)
  {
    var m := if k <= |log| then k else |log|;
    FromPassed(log, cursor, m);
    var page := Take(log[m..], limit);
    assert log == last[..|log|];
    if page != [] {
      assert page == last[k..k + |page|];
    }
  }

  /** A page shorter than its limit means the reader has caught up with the log it saw. */
  lemma ShortPageMeansCaughtUp(log: seq<Event>, cursor: int, limit: nat, k: nat)
    requires Ascending(log) && Passed(log, cursor, k)
    ensures var page := Take(From(log, cursor), limit);
      |page| < limit ==> Passed(log, Advance(page, cursor), |log|)
  {
    PageIsSegment(log, log, cursor, k, limit);
    FromPassed(log, cursor, k);
  }

  /** With positive limits no read stands still before the end: the reads pass everything that is
      in every log they see, unless there are fewer reads than events. */
  lemma {:induction false} ReadsReach(
    logs: seq<seq<Event>>, limits: seq<nat>, cursor: int, last: seq<Event>, k: nat, target: seq<Event>)
    requires |limits| == |logs| && Ascending(last) && Passed(last, cursor, k)
    requires forall i :: 0 <= i < |logs| ==> target <= logs[i] <= last && limits[i] > 0
    ensures var read := PagesRead(logs, limits, cursor); k + |read| >= |target| || |read| >= |logs|
    decreases |logs|
  {
    if logs != [] {
      var page := Take(From(logs[0], cursor), limits[0]);
      PageIsSegment(logs[0], last, cursor, k, limits[0]);
      PageMovesOn(logs[0], last, cursor, k, limits[0]);
      ReadsReach(logs[1..], limits[1..], Advance(page, cursor), last, k + |page|, target);
    }
  }

  lemma PageMovesOn(log: seq<Event>, last: seq<Event>, cursor: int, k: nat, limit: nat)
    requires log <= last && Passed(last, cursor, k) && limit > 0
    ensures k < |log| ==> Take(From(log, cursor), limit) != []
  {
    if k < |log| {
      assert log == last[..|log|];
      FromPassed(log, cursor, k);
    }
  }

  lemma {:induction false} CursorPosition(log: seq<Event>, cursor: int) returns (k: nat)
    requires Ascending(log)
    ensures Passed(log, cursor, k)
    ensures From(log, cursor) == log[k..]
  {
    k := 0;
    while k < |log| && log[k].seqNo <= cursor
      invariant k <= |log| && forall i :: 0 <= i < k ==> log[i].seqNo <= cursor
    {
      k := k + 1;
    }
    FromPassed(log, cursor, k);
  }

  /** With as many reads as there were unread events at the first one, all of those are read. */
  lemma ReadsAreComplete(logs: seq<seq<Event>>, limits: seq<nat>, cursor: int, last: seq<Event>)
    requires |limits| == |logs| > 0 && Ascending(last)
    requires forall i :: 0 <= i < |logs| ==> logs[0] <= logs[i] <= last && limits[i] > 0
    requires |logs| >= |From(logs[0], cursor)|
    ensures From(logs[0], cursor) <= PagesRead(logs, limits, cursor) <= From(last, cursor)
  {
    var k := CursorPosition(last, cursor);
    ReadsCoverTheLog(logs, limits, cursor, last, k);
    ReadsReach(logs, limits, cursor, last, k, logs[0]);
    FromOfPrefix(logs[0], last, cursor, k);
  }

  /** The pages that a client gets for a session, one read of the event table after the other. */
  function PagesOfSession(tables: seq<seq<Event>>, id: string, limits: seq<nat>, cursor: int): seq<Event>
    requires |limits| == |tables|
    decreases |tables|
  {
    if tables == [] then []
    else
      var page := Page(tables[0], id, cursor, limits[0]);
      page + PagesOfSession(tables[1..], id, limits[1..], Advance(page, cursor))
  }

  function LogsOf(tables: seq<seq<Event>>, id: string): (logs: seq<seq<Event>>)
    ensures |logs| == |tables| && forall i :: 0 <= i < |tables| ==> logs[i] == EventsOf(tables[i], id)
  {
    seq(|tables|, i requires 0 <= i < |tables| => EventsOf(tables[i], id))
  }

  lemma {:induction false} PagesAreReads(tables: seq<seq<Event>>, id: string, limits: seq<nat>, cursor: int)
    requires |limits| == |tables|
    ensures PagesOfSession(tables, id, limits, cursor) == PagesRead(LogsOf(tables, id), limits, cursor)
    decreases |tables|
  {
    if tables != [] {
      var page := Page(tables[0], id, cursor, limits[0]);
      PagesAreReads(tables[1..], id, limits[1..], Advance(page, cursor));
      assert LogsOf(tables, id)[1..] == LogsOf(tables[1..], id);
    }
  }

  /** Appending to the table appends to each session's log. */
  lemma {:induction false} EventsOfGrow(events: seq<Event>, more: seq<Event>, id: string)
    ensures EventsOf(events, id) <= EventsOf(events + more, id)
  {
    if more == [] {
      assert events + more == events;
    } else {
      var init, e := more[..|more| - 1], more[|more| - 1];
      EventsOfGrow(events, init, id);
      EventsOfAppend(events + init, e, id);
      assert events + more == events + init + [e];
    }
  }

  /** What may happen to the table between two reads of a session: appends, of any session's
      events, or the deletion of another session. */
  ghost predicate Follows(before: seq<Event>, after: seq<Event>, id: string) {
    before <= after || exists other :: other != id && after == WithoutSession(before, other)
  }

  ghost predicate Evolve(tables: seq<seq<Event>>, id: string) {
    forall i :: 0 <= i < |tables| - 1 ==> Follows(tables[i], tables[i + 1], id)
  }

  lemma LogGrows(before: seq<Event>, after: seq<Event>, id: string)
    requires Follows(before, after, id)
    ensures EventsOf(before, id) <= EventsOf(after, id)
  {
    if before <= after {
      EventsOfGrow(before, after[|before|..], id);
      assert after == before + after[|before|..];
    } else {
      var other :| other != id && after == WithoutSession(before, other);
      WithoutSessionKeepsOthers(before, other, id);
    }
  }

  lemma {:induction false} LogsGrow(tables: seq<seq<Event>>, id: string, i: nat, j: nat)
    requires Evolve(tables, id) && i <= j < |tables|
    ensures EventsOf(tables[i], id) <= EventsOf(tables[j], id)
    decreases j
  {
    if i < j {
      LogsGrow(tables, id, i, j - 1);
      LogGrows(tables[j - 1], tables[j], id);
    }
  }

  /** Cursor reading is complete: with positive limits, and as many reads as there were unread
      events at the first, every event of the session after the starting cursor is read, once, in
      order, before any newer one; whatever was appended in between follows in order too. */
  lemma PagesReachEveryEvent(tables: seq<seq<Event>>, id: string, limits: seq<nat>, cursor: int, lastSeq: int)
    requires |limits| == |tables| > 0 && Evolve(tables, id) && SortedLog(tables[|tables| - 1], lastSeq)
    requires forall i :: 0 <= i < |limits| ==> limits[i] > 0
    requires |tables| >= |From(EventsOf(tables[0], id), cursor)|
    ensures var read := PagesOfSession(tables, id, limits, cursor);
      From(EventsOf(tables[0], id), cursor) <= read <= From(EventsOf(tables[|tables| - 1], id), cursor)
  {
    var last := tables[|tables| - 1];
    forall i | 0 <= i < |tables|
      ensures EventsOf(tables[0], id) <= EventsOf(tables[i], id) <= EventsOf(last, id)
    {
      LogsGrow(tables, id, 0, i);
      LogsGrow(tables, id, i, |tables| - 1);
    }
    EventsOfFacts(last, id, lastSeq);
    PagesAreReads(tables, id, limits, cursor);
    ReadsAreComplete(LogsOf(tables, id), limits, cursor, EventsOf(last, id));
  }

  lemma FromOfPrefix(log: seq<Event>, last: seq<Event>, cursor: int, k: nat)
    requires log <= last && Passed(last, cursor, k)
    ensures From(log, cursor) == if k <= |log| then log[k..] else []
  {
    assert log == last[..|log|];
    FromPassed(log, cursor, if k <= |log| then k else |log|);
  }

  /** On a log that does not change, the pages are exactly what was unread. */
  lemma FixedLogIsReadCompletely(events: seq<Event>, id: string, tables: seq<seq<Event>>, limits: seq<nat>,
                                 cursor: int, lastSeq: int)
    requires |limits| == |tables| > 0 && SortedLog(events, lastSeq)
    requires forall i :: 0 <= i < |tables| ==> tables[i] == events && limits[i] > 0
    requires |tables| >= |From(EventsOf(events, id), cursor)|
    ensures PagesOfSession(tables, id, limits, cursor) == From(EventsOf(events, id), cursor)
  {
    PagesReachEveryEvent(tables, id, limits, cursor, lastSeq);
  }

  /** A page holds events of the session after the cursor, ascending, at most `limit` of them. */
  lemma PageIsSound(events: seq<Event>, id: string, after: int, limit: nat, lastSeq: int)
    requires SortedLog(events, lastSeq)
    ensures var page := Page(events, id, after, limit);
      && |page| <= limit && Ascending(page)
      && (forall e :: e in page ==> e in events && e.sessionId == id && e.seqNo > after)
  {
    var log := EventsOf(events, id);
    EventsOfFacts(events, id, lastSeq);
    var k := CursorPosition(log, after);
    var page := Page(events, id, after, limit);
    forall i | 0 <= i < |page|
      ensures page[i] == log[k + i] && page[i] in log
    {
    }
  }

  /** It skips none: an event that is not on it comes after a full page. */
  lemma PageSkipsNothing(events: seq<Event>, id: string, after: int, limit: nat, lastSeq: int, e: Event)
    requires SortedLog(events, lastSeq)
    requires e in events && e.sessionId == id && e.seqNo > after && e !in Page(events, id, after, limit)
    ensures var page := Page(events, id, after, limit); |page| == limit && forall p :: p in page ==> p.seqNo < e.seqNo
  {
    var log := EventsOf(events, id);
    EventsOfFacts(events, id, lastSeq);
    var k := CursorPosition(log, after);
    assert e in log;
    var i :| 0 <= i < |log| && log[i] == e;
  }

  /* ------------------------------- the message table ------------------------------- */

  datatype Body = Body(
    role: string, content: string, metadata: Option<string>, attachments: Option<string>,
    status: Option<string>, replyToId: Option<string>)

  /** Rows in insertion order; ids are the primary key, sequence numbers may repeat. */
  datatype Row = Row(id: string, sessionId: string, seqNo: int, body: Body)

  predicate Hit(row: Row, q: Query) {
    && row.sessionId == q.sessionId
    && (q.after.Some? ==> row.seqNo > q.after.value)
    && (q.before.Some? ==> row.seqNo < q.before.value)
  }

  function Matching(rows: seq<Row>, q: Query): seq<Row> {
    if rows == [] then []
    else if Hit(rows[0], q) then [rows[0]] + Matching(rows[1..], q)
    else Matching(rows[1..], q)
  }

  /** Inserts behind every row with the same or a smaller sequence number. */
  function InsertBySeq(row: Row, sorted: seq<Row>): seq<Row> {
    if sorted == [] || row.seqNo < sorted[0].seqNo then [row] + sorted
    else [sorted[0]] + InsertBySeq(row, sorted[1..])
  }

  function SortBySeq(rows: seq<Row>): seq<Row> {
    if rows == [] then [] else InsertBySeq(rows[|rows| - 1], SortBySeq(rows[..|rows| - 1]))
  }

  /** The page a query selects from the table itself. */
  function Select(rows: seq<Row>, q: Query): seq<Row> {
    Take(SortBySeq(Matching(rows, q)), q.limit)
  }

  ghost predicate SortedRows(rows: seq<Row>) {
    rows == [] || ((forall r :: r in rows[1..] ==> rows[0].seqNo <= r.seqNo) && SortedRows(rows[1..]))
  }

  lemma {:induction false} InsertKeepsRows(row: Row, sorted: seq<Row>)
    ensures multiset(InsertBySeq(row, sorted)) == multiset(sorted) + multiset{row}
  {
    if !(sorted == [] || row.seqNo < sorted[0].seqNo) {
      InsertKeepsRows(row, sorted[1..]);
      assert sorted == [sorted[0]] + sorted[1..];
    }
  }

  lemma {:induction false} InsertedRows(row: Row, sorted: seq<Row>, r: Row)
    requires r in InsertBySeq(row, sorted)
    ensures r == row || r in sorted
  {
    if !(sorted == [] || row.seqNo < sorted[0].seqNo) && r != sorted[0] {
      InsertedRows(row, sorted[1..], r);
    }
  }

  lemma {:induction false} InsertKeepsSorted(row: Row, sorted: seq<Row>)
    requires SortedRows(sorted)
    ensures SortedRows(InsertBySeq(row, sorted))
  {
    if sorted == [] {
    } else if row.seqNo < sorted[0].seqNo {
      assert ([row] + sorted)[1..] == sorted;
      assert forall r :: r in sorted ==> r == sorted[0] || r in sorted[1..];
    } else {
      var rest := InsertBySeq(row, sorted[1..]);
      InsertKeepsSorted(row, sorted[1..]);
      forall r | r in rest
        ensures sorted[0].seqNo <= r.seqNo
      {
        InsertedRows(row, sorted[1..], r);
      }
      assert ([sorted[0]] + rest)[1..] == rest;
    }
  }

  lemma {:induction false} SortKeepsRows(rows: seq<Row>)
    ensures multiset(SortBySeq(rows)) == multiset(rows)
  {
    if rows != [] {
      var init, last := rows[..|rows| - 1], rows[|rows| - 1];
      SortKeepsRows(init);
      InsertKeepsRows(last, SortBySeq(init));
      assert rows == init + [last];
    }
  }

  /** A page is the beginning of the matching rows in order of their sequence numbers. */
  lemma {:induction false} SortIsSorted(rows: seq<Row>)
    ensures SortedRows(SortBySeq(rows)) && multiset(SortBySeq(rows)) == multiset(rows)
  {
    SortKeepsRows(rows);
    if rows != [] {
      SortIsSorted(rows[..|rows| - 1]);
      InsertKeepsSorted(rows[|rows| - 1], SortBySeq(rows[..|rows| - 1]));
    }
  }

  lemma {:induction false} MatchingAppend(rows: seq<Row>, row: Row, q: Query)
    ensures Matching(rows + [row], q) == Matching(rows, q) + if Hit(row, q) then [row] else []
  {
    if rows == [] {
      assert rows + [row] == [row];
    } else {
      MatchingAppend(rows[1..], row, q);
      assert (rows + [row])[1..] == rows[1..] + [row];
    }
  }

  /** An edit of a row keeps its session and sequence number. */
  lemma {:induction false} MatchingUpdate(rows: seq<Row>, i: nat, body: Body, q: Query)
    requires i < |rows| && rows[i].sessionId != q.sessionId
    ensures Matching(rows[i := rows[i].(body := body)], q) == Matching(rows, q)
  {
    var rows' := rows[i := rows[i].(body := body)];
    if i == 0 {
      assert rows'[1..] == rows[1..];
    } else {
      MatchingUpdate(rows[1..], i - 1, body, q);
      assert rows'[1..] == rows[1..][i - 1 := rows[1..][i - 1].(body := body)];
    }
  }

  function WithoutMessages(rows: seq<Row>, id: string): seq<Row> {
    if rows == [] then []
    else if rows[0].sessionId == id then WithoutMessages(rows[1..], id)
    else [rows[0]] + WithoutMessages(rows[1..], id)
  }

  lemma {:induction false} MatchingWithout(rows: seq<Row>, id: string, q: Query)
    ensures forall r :: r in WithoutMessages(rows, id) <==> r in rows && r.sessionId != id
    ensures q.sessionId != id ==> Matching(WithoutMessages(rows, id), q) == Matching(rows, q)
  {
    if rows != [] {
      MatchingWithout(rows[1..], id, q);
      assert rows == [rows[0]] + rows[1..];
    }
  }

  ghost predicate PositiveSeqs(rows: seq<Row>) {
    forall r :: r in rows ==> r.seqNo >= 1
  }

  /** The requests that a cache key cannot tell apart select the same rows, except that a
      `before` cursor of 0 (which selects nothing) passes for no cursor at all. */
  lemma {:induction false} SameKeySameRows(rows: seq<Row>, p: Query, q: Query)
    requires PositiveSeqs(rows) && Key(p) == Key(q) && (p.before == Some(0) <==> q.before == Some(0))
    ensures Matching(rows, p) == Matching(rows, q)
  {
    SameKeyIff(p, q);
    if rows != [] {
      SameKeySameRows(rows[1..], p, q);
      assert rows[0] in rows;
    }
  }

  lemma {:induction false} ZeroCursorSelectsNothing(rows: seq<Row>, q: Query)
    requires PositiveSeqs(rows) && q.before == Some(0)
    ensures Matching(rows, q) == []
  {
    if rows != [] {
      assert rows[0] in rows;
      ZeroCursorSelectsNothing(rows[1..], q);
    }
  }

  lemma OneRowSelects(row: Row, q: Query)
    requires q.limit > 0
    ensures Select([row], q) == if Hit(row, q) then [row] else []
  {
    assert [row][1..] == [] && [row][..0] == [];
    assert Matching([row][1..], q) == [];
    assert SortBySeq([row]) == InsertBySeq(row, SortBySeq([]));
  }

  function SomeRow(id: string, seqNo: int): Row { Row("m", id, seqNo, Body("user", "", None, None, None, None)) }

  /** Exactly when two requests with one key are interchangeable on every table of positive
      sequence numbers: when both or neither give 0 as the `before` cursor, or ask for no rows. */
  lemma SharedKeyIsSoundIff(p: Query, q: Query)
    requires Key(p) == Key(q)
    ensures (forall rows :: PositiveSeqs(rows) ==> Select(rows, p) == Select(rows, q))
       <==> (p.before == Some(0) <==> q.before == Some(0)) || p.limit == 0
  {
    SameKeyIff(p, q);
    if (p.before == Some(0) <==> q.before == Some(0)) || p.limit == 0 {
      forall rows | PositiveSeqs(rows)
        ensures Select(rows, p) == Select(rows, q)
      {
        if p.limit > 0 {
          SameKeySameRows(rows, p, q);
        }
      }
    } else {
      var row := SomeRow(p.sessionId, if OrZero(p.after) >= 0 then OrZero(p.after) + 1 else 1);
      OneRowSelects(row, p);
      OneRowSelects(row, q);
      assert PositiveSeqs([row]) && Select([row], p) != Select([row], q);
    }
  }

  /** And on every table whatsoever: only when they are the same request. */
  lemma SharedKeyIsSoundOnAllTablesIff(p: Query, q: Query)
    requires Key(p) == Key(q)
    ensures (forall rows :: Select(rows, p) == Select(rows, q)) <==> p == q || p.limit == 0
  {
    SameKeyIff(p, q);
    if p != q && p.limit > 0 {
      if !(p.before == Some(0) <==> q.before == Some(0)) {
        SharedKeyIsSoundIff(p, q);
      } else {
        var row := SomeRow(p.sessionId, if p.before.Some? && p.before.value < 1 then p.before.value - 1 else 0);
        OneRowSelects(row, p);
        OneRowSelects(row, q);
        assert Select([row], p) != Select([row], q);
      }
    }
  }
}
