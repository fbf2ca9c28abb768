/** What a page of messages holds, and what a client gets that pages through a session
    (packages/gateway/src/persistence.ts). */
module MessagePages {
  import opened Basics
  import opened CacheKeys
  import opened Tables

  /** The row belongs to the session asked for and lies inside the cursors. */
  predicate InRange(row: Row, q: Query) {
    row.sessionId == q.sessionId
    && (q.after.Some? ==> q.after.value < row.seqNo) && (q.before.Some? ==> row.seqNo < q.before.value)
  }

  ghost predicate InOrder(page: seq<Row>) { forall i, j :: 0 <= i < j < |page| ==> page[i].seqNo <= page[j].seqNo }

  /** Rows of the table in range, none more often than there, in order; and whatever is missing
      comes after a full page. */
  ghost predicate IsPage(rows: seq<Row>, q: Query, page: seq<Row>) {
    && |page| <= q.limit && InOrder(page) && multiset(page) <= multiset(rows)
    && (forall r :: r in page ==> r in rows && InRange(r, q))
    && (forall r :: r in rows && InRange(r, q) && r !in page ==>
          |page| == q.limit && forall p :: p in page ==> p.seqNo <= r.seqNo)
  }

  lemma {:induction false} MatchingRows(rows: seq<Row>, q: Query)
    ensures multiset(Matching(rows, q)) <= multiset(rows)
    ensures forall r :: r in Matching(rows, q) <==> r in rows && InRange(r, q)
  {
    if rows != [] {
      MatchingRows(rows[1..], q);
      assert rows == [rows[0]] + rows[1..];
    }
  }

  lemma {:induction false} SortedIsInOrder(rows: seq<Row>)
    requires SortedRows(rows)
    ensures InOrder(rows)
  {
    if rows != [] {
      SortedIsInOrder(rows[1..]);
      forall i, j | 0 <= i < j < |rows|
        ensures rows[i].seqNo <= rows[j].seqNo
      {
        assert rows[j] == rows[1..][j - 1] && rows[j] in rows[1..];
        if i > 0 {
          assert rows[i] == rows[1..][i - 1];
        }
      }
    }
  }

  lemma TakenIsPage(sorted: seq<Row>, limit: nat, r: Row)
    requires InOrder(sorted) && r in sorted && r !in Take(sorted, limit)
    ensures var page := Take(sorted, limit); |page| == limit && forall p :: p in page ==> p.seqNo <= r.seqNo
  {
    var i :| 0 <= i < |sorted| && sorted[i] == r;
    var page := Take(sorted, limit);
    assert forall k :: 0 <= k < |page| ==> page[k] == sorted[k] && page[k] in page;
    forall p | p in page
      ensures p.seqNo <= r.seqNo
    {
      var j :| 0 <= j < |page| && page[j] == p;
      assert sorted[j] == p && j < i;
    }
  }

  /** A selected page is a page. */
  lemma SelectIsPage(rows: seq<Row>, q: Query)
    ensures IsPage(rows, q, Select(rows, q))
  {
    var matching := Matching(rows, q);
    var sorted, page := SortBySeq(matching), Select(rows, q);
    MatchingRows(rows, q);
    SortIsSorted(matching);
    SortedIsInOrder(sorted);
    SameRows(sorted, matching);
    TakenRows(sorted, q.limit);
    forall r | r in rows && InRange(r, q) && r !in page
      ensures |page| == q.limit && forall p :: p in page ==> p.seqNo <= r.seqNo
    {
      TakenIsPage(sorted, q.limit, r);
    }
  }

  lemma SameRows(a: seq<Row>, b: seq<Row>)
    requires multiset(a) == multiset(b)
    ensures forall r :: r in a <==> r in b
  {
    forall r
      ensures r in a <==> r in b
    {
      assert r in a <==> r in multiset(a);
      assert r in b <==> r in multiset(b);
    }
  }

  lemma TakenRows(sorted: seq<Row>, limit: nat)
    ensures var page := Take(sorted, limit);
      |page| <= limit && multiset(page) <= multiset(sorted) && (forall r :: r in page ==> r in sorted)
      && (InOrder(sorted) ==> InOrder(page))
  {
    var page := Take(sorted, limit);
    assert sorted == page + sorted[|page|..];
  }

  /* ------------------------------- paging through a session ------------------------------- */

  /** Sequence numbers of the session's rows are distinct, as the code gives them out. */
  ghost predicate DistinctSeqs(rows: seq<Row>, id: string) {
    forall i, j :: 0 <= i < j < |rows| && rows[i].sessionId == id && rows[j].sessionId == id ==>
      rows[i].seqNo != rows[j].seqNo
  }

  function Cursor(page: seq<Row>, cursor: int): int { if page == [] then cursor else page[|page| - 1].seqNo }

  /** Page after page behind the last row of the one before. */
  function ReadMessages(rows: seq<Row>, id: string, limits: seq<nat>, cursor: int): seq<Row>
    decreases |limits|
  {
    if limits == [] then []
    else
      var page := Select(rows, Query(id, Some(cursor), None, limits[0]));
      page + ReadMessages(rows, id, limits[1..], Cursor(page, cursor))
  }

  ghost function Unread(rows: seq<Row>, id: string, cursor: int): set<Row> {
    set r | r in rows && r.sessionId == id && cursor < r.seqNo
  }

  lemma SameSeqSameRow(rows: seq<Row>, id: string, a: Row, b: Row)
    requires DistinctSeqs(rows, id) && a in rows && b in rows && a.sessionId == id && b.sessionId == id
      && a.seqNo == b.seqNo
    ensures a == b
  {
    var i :| 0 <= i < |rows| && rows[i] == a;
    var j :| 0 <= j < |rows| && rows[j] == b;
    assert i == j || i < j || j < i;
  }

  /** A page takes exactly the rows up to its last one. */
  lemma PageIsInterval(rows: seq<Row>, id: string, cursor: int, limit: nat, r: Row)
    requires DistinctSeqs(rows, id) && r in rows && r.sessionId == id && limit > 0
    ensures var page := Select(rows, Query(id, Some(cursor), None, limit));
      r in page <==> cursor < r.seqNo <= Cursor(page, cursor)
  {
    var q := Query(id, Some(cursor), None, limit);
    var page := Select(rows, q);
    SelectIsPage(rows, q);
    if r in page {
      var i :| 0 <= i < |page| && page[i] == r;
      assert page[i].seqNo <= page[|page| - 1].seqNo;
    } else if cursor < r.seqNo <= Cursor(page, cursor) {
      var last := page[|page| - 1];
      SameSeqSameRow(rows, id, r, last);
    }
  }

  lemma PageMakesProgress(rows: seq<Row>, id: string, cursor: int, limit: nat)
    requires DistinctSeqs(rows, id) && limit > 0
    ensures var page := Select(rows, Query(id, Some(cursor), None, limit));
      Cursor(page, cursor) >= cursor
      && (Unread(rows, id, cursor) == {} || |Unread(rows, id, Cursor(page, cursor))| < |Unread(rows, id, cursor)|)
  {
    var q := Query(id, Some(cursor), None, limit);
    var page := Select(rows, q);
    var after := Cursor(page, cursor);
    SelectIsPage(rows, q);
    if page != [] {
      var last := page[|page| - 1];
      assert last in page && InRange(last, q);
      assert last in Unread(rows, id, cursor) && last !in Unread(rows, id, after);
      FewerMembers(Unread(rows, id, after), Unread(rows, id, cursor), last);
    } else if Unread(rows, id, cursor) != {} {
      var r :| r in Unread(rows, id, cursor);
      assert InRange(r, q) && r !in page;
    }
  }

  lemma FewerMembers(a: set<Row>, b: set<Row>, x: Row)
    requires a <= b && x in b && x !in a
    ensures |a| < |b|
  {
    assert a <= b - {x};
    Subset(a, b - {x});
  }

  lemma {:induction false} Subset(a: set<Row>, b: set<Row>)
    requires a <= b
    ensures |a| <= |b|
  {
    if a != {} {
      var x :| x in a;
      Subset(a - {x}, b - {x});
    }
  }

  /** A client that pages through a session with positive limits gets every row behind its cursor,
      and no other, as soon as it has read as many pages as there were rows. */
  lemma {:induction false} PagingReadsEveryRow(rows: seq<Row>, id: string, limits: seq<nat>, cursor: int)
    requires DistinctSeqs(rows, id) && (forall i :: 0 <= i < |limits| ==> limits[i] > 0)
    requires |limits| >= |Unread(rows, id, cursor)|
    ensures forall r :: r in ReadMessages(rows, id, limits, cursor) <==>
      r in rows && r.sessionId == id && cursor < r.seqNo
    decreases |limits|
  {
    if limits == [] {
      assert forall r :: r in rows && r.sessionId == id && cursor < r.seqNo ==> r in Unread(rows, id, cursor);
    } else {
      var q := Query(id, Some(cursor), None, limits[0]);
      var page := Select(rows, q);
      var after := Cursor(page, cursor);
      PageMakesProgress(rows, id, cursor, limits[0]);
      if Unread(rows, id, cursor) == {} {
        Subset(Unread(rows, id, after), Unread(rows, id, cursor));
      }
      PagingReadsEveryRow(rows, id, limits[1..], after);
      SelectIsPage(rows, q);
      forall r
        ensures r in page + ReadMessages(rows, id, limits[1..], after) <==>
          r in rows && r.sessionId == id && cursor < r.seqNo
      {
        if r in rows && r.sessionId == id {
          PageIsInterval(rows, id, cursor, limits[0], r);
        }
      }
    }
  }

  /** It gets them once and in order. */
  lemma {:induction false} PagingIsInOrder(rows: seq<Row>, id: string, limits: seq<nat>, cursor: int)
    requires DistinctSeqs(rows, id) && (forall i :: 0 <= i < |limits| ==> limits[i] > 0)
    ensures var read := ReadMessages(rows, id, limits, cursor);
      (forall r :: r in read ==> r in rows && r.sessionId == id && cursor < r.seqNo) && Strict(read)
    decreases |limits|
  {
    if limits != [] {
      var q := Query(id, Some(cursor), None, limits[0]);
      var page := Select(rows, q);
      var after := Cursor(page, cursor);
      PageMakesProgress(rows, id, cursor, limits[0]);
      PagingIsInOrder(rows, id, limits[1..], after);
      SelectIsPage(rows, q);
      PageIsStrict(rows, q, page);
      StrictTogether(page, ReadMessages(rows, id, limits[1..], after), after);
      assert forall r :: r in page ==> InRange(r, q);
    }
  }

  ghost predicate Strict(rows: seq<Row>) { forall i, j :: 0 <= i < j < |rows| ==> rows[i].seqNo < rows[j].seqNo }

  lemma StrictTogether(page: seq<Row>, rest: seq<Row>, after: int)
    requires Strict(page) && Strict(rest) && (page != [] ==> page[|page| - 1].seqNo == after)
    requires forall r :: r in rest ==> after < r.seqNo
    ensures Strict(page + rest)
  {
    forall i, j | 0 <= i < j < |page + rest|
      ensures (page + rest)[i].seqNo < (page + rest)[j].seqNo
    {
      if i < |page| <= j {
        assert rest[j - |page|] in rest && page[i].seqNo <= after;
      }
    }
  }

  lemma PageIsStrict(rows: seq<Row>, q: Query, page: seq<Row>)
    requires IsPage(rows, q, page) && DistinctSeqs(rows, q.sessionId)
    ensures Strict(page)
  {
    forall i, j | 0 <= i < j < |page|
      ensures page[i].seqNo < page[j].seqNo
    {
      assert page[i] in page && page[j] in page;
      if page[i].seqNo == page[j].seqNo {
        SameSeqSameRow(rows, q.sessionId, page[i], page[j]);
        TwiceInPage(page, i, j);
        OnceInRows(rows, q.sessionId, page[i]);
      }
    }
  }

  lemma TwiceInPage(page: seq<Row>, i: nat, j: nat)
    requires i < j < |page| && page[i] == page[j]
    ensures multiset(page)[page[i]] >= 2
  {
    assert page == page[..i] + [page[i]] + page[i + 1..j] + [page[j]] + page[j + 1..];
  }

  lemma {:induction false} OnceInRows(rows: seq<Row>, id: string, r: Row)
    requires DistinctSeqs(rows, id) && r in rows && r.sessionId == id
    ensures multiset(rows)[r] == 1
  {
    var i :| 0 <= i < |rows| && rows[i] == r;
    assert rows == rows[..i] + [r] + rows[i + 1..];
    assert r !in rows[..i] && r !in rows[i + 1..];
  }
}
