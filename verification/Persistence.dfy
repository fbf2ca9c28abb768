/** The persistence service: the tables and the two caches over them
    (packages/gateway/src/persistence.ts). */
module Persistence {
  import opened Basics
  import opened CacheKeys
  import opened Tables
  import opened MessagePages

  datatype WriteError = NoSuchSession | ForeignId

  datatype Result<T> = Ok(value: T) | Failed(error: WriteError)

  /** Each cached page is what the request that filled it selects. */
  ghost predicate PagesOk(rows: seq<Row>, pages: map<string, seq<Row>>, origins: map<string, Query>) {
    forall key :: key in pages ==>
      key in origins && Key(origins[key]) == key && pages[key] == Select(rows, origins[key])
  }

  ghost predicate SeqsOk(events: seq<Event>, latest: map<string, int>) {
    forall id :: id in latest ==> latest[id] == MaxSeq(events, id)
  }

  /** Row ids are unique. */
  ghost predicate UniqueIds(rows: seq<Row>) {
    forall i, j :: 0 <= i < j < |rows| ==> rows[i].id != rows[j].id
  }

  /** Pages of other sessions survive a change that does not touch their rows. */
  lemma PagesSurvive(rows: seq<Row>, rows': seq<Row>, pages: map<string, seq<Row>>, id: string,
                     origins: map<string, Query>)
    requires PagesOk(rows, pages, origins)
    requires forall q: Query :: q.sessionId != id ==> Matching(rows', q) == Matching(rows, q)
    requires forall key :: key in pages ==> !StartsWith(key, id + ":")
    ensures PagesOk(rows', pages, origins)
  {
    forall key | key in pages
      ensures pages[key] == Select(rows', origins[key])
    {
      KeyStartsWithSession(origins[key]);
      assert origins[key].sessionId != id;
    }
  }

  lemma AppendKeepsSeqs(events: seq<Event>, e: Event, lastSeq: int, latest: map<string, int>)
    requires SortedLog(events, lastSeq) && SeqsOk(events, latest) && e.seqNo == lastSeq + 1 && lastSeq >= 0
    ensures SortedLog(events + [e], lastSeq + 1) && SeqsOk(events + [e], latest[e.sessionId := e.seqNo])
  {
    var latest' := latest[e.sessionId := e.seqNo];
    forall k | k in latest'
      ensures latest'[k] == MaxSeq(events + [e], k)
    {
      EventsOfAppend(events, e, k);
      assert EventsOf(events, k) + [] == EventsOf(events, k);
    }
  }

  lemma DeleteKeepsSeqs(events: seq<Event>, id: string, lastSeq: int, latest: map<string, int>)
    requires SortedLog(events, lastSeq) && SeqsOk(events, latest) && id !in latest
    ensures SortedLog(WithoutSession(events, id), lastSeq) && SeqsOk(WithoutSession(events, id), latest)
  {
    WithoutSessionIsSorted(events, id, lastSeq);
    forall k | k in latest
      ensures latest[k] == MaxSeq(WithoutSession(events, id), k)
    {
      WithoutSessionKeepsOthers(events, id, k);
    }
  }

  lemma DeleteKeepsPages(rows: seq<Row>, id: string, pages: map<string, seq<Row>>, origins: map<string, Query>)
    requires UniqueIds(rows) && PagesOk(rows, pages, origins)
    requires forall key :: key in pages ==> !StartsWith(key, id + ":")
    ensures UniqueIds(WithoutMessages(rows, id)) && PagesOk(WithoutMessages(rows, id), pages, origins)
  {
    WithoutKeepsTable(rows, id);
    forall q: Query | q.sessionId != id
      ensures Matching(WithoutMessages(rows, id), q) == Matching(rows, q)
    {
      MatchingWithout(rows, id, q);
    }
    PagesSurvive(rows, WithoutMessages(rows, id), pages, id, origins);
  }

  /** Position of the row with this id, or the length. */
  function FindRow(rows: seq<Row>, id: string): (i: nat)
    ensures i <= |rows| && (i < |rows| ==> rows[i].id == id)
    ensures forall j :: 0 <= j < i ==> rows[j].id != id
  {
    Position(rows, (r: Row) => r.id, id)
  }

  class PersistenceService {
    /** Tables sessions, events (with its AUTOINCREMENT counter) and messages. */
    var sessions: set<string>
    var events: seq<Event>
    var lastSeq: int
    var messages: seq<Row>
    var latestSeqCache: map<string, int>
    var messagePageCache: map<string, seq<Row>>
    /** The request that filled each cached page. */
    ghost var origins: map<string, Query>

    ghost predicate Valid()
      reads this
    {
      && lastSeq >= 0 && SortedLog(events, lastSeq)
      && UniqueIds(messages)
      && SeqsOk(events, latestSeqCache)
      && PagesOk(messages, messagePageCache, origins)
    }

    constructor ()
      ensures Valid() && sessions == {} && events == [] && messages == [] && messagePageCache == map[]
    {
      sessions, events, lastSeq, messages := {}, [], 0, [];
      latestSeqCache, messagePageCache, origins := map[], map[], map[];
    }

    /** The caches may drop entries at any moment: capacity, expiry. */
    method Evict(ids: set<string>, keys: set<string>)
      requires Valid()
      modifies this`latestSeqCache, this`messagePageCache
      ensures Valid()
      ensures latestSeqCache == old(latestSeqCache) - ids && messagePageCache == old(messagePageCache) - keys
    {
      latestSeqCache := latestSeqCache - ids;
      messagePageCache := messagePageCache - keys;
    }

    method CreateSession(id: string)
      requires Valid()
      modifies this`sessions
      ensures Valid() && sessions == old(sessions) + {id}
    {
      sessions := sessions + {id};
    }

    /** Drops the cached pages whose key starts with the session's prefix. */
    method InvalidatePages(id: string)
      modifies this`messagePageCache
      ensures forall key :: key in messagePageCache ==>
        key in old(messagePageCache) && messagePageCache[key] == old(messagePageCache)[key]
          && !StartsWith(key, id + ":")
      ensures forall key :: key in old(messagePageCache) && !StartsWith(key, id + ":") ==> key in messagePageCache
    {
      var rest := messagePageCache.Keys;
      while rest != {}
        invariant forall key :: key in messagePageCache ==>
          key in old(messagePageCache) && messagePageCache[key] == old(messagePageCache)[key]
          && (key in rest || !StartsWith(key, id + ":"))
        invariant forall key :: key in old(messagePageCache) && !StartsWith(key, id + ":") ==> key in messagePageCache
        decreases rest
      {
        var key :| key in rest;
        rest := rest - {key};
        if StartsWith(key, id + ":") {
          messagePageCache := messagePageCache - {key};
        }
      }
    }

    method DeleteEventRows(id: string)
      requires Valid()
      modifies this`events, this`latestSeqCache
      ensures Valid() && events == WithoutSession(old(events), id)
    {
      DeleteKeepsSeqs(events, id, lastSeq, latestSeqCache - {id});
      events := WithoutSession(events, id);
      latestSeqCache := latestSeqCache - {id};
    }

    method DeleteMessageRows(id: string)
      requires Valid()
      modifies this`messages, this`messagePageCache
      ensures Valid() && messages == WithoutMessages(old(messages), id)
    {
      InvalidatePages(id);
      DeleteKeepsPages(messages, id, messagePageCache, origins);
      messages := WithoutMessages(messages, id);
    }

    /** Cascades to events and messages. Their sequence numbers are never handed out again. */
    method DeleteSession(id: string)
      requires Valid()
      modifies this`sessions, this`events, this`messages, this`latestSeqCache, this`messagePageCache
      ensures Valid() && sessions == old(sessions) - {id}
      ensures events == WithoutSession(old(events), id) && messages == WithoutMessages(old(messages), id)
    {
      sessions := sessions - {id};
      DeleteEventRows(id);
      DeleteMessageRows(id);
    }

    /** The foreign key refuses events of a session that does not exist. */
    method AppendEvent(id: string, payload: string) returns (r: Result<int>)
      requires Valid()
      modifies this`events, this`lastSeq, this`latestSeqCache
      ensures Valid()
      ensures id !in sessions ==> r == Failed(NoSuchSession) && events == old(events) && lastSeq == old(lastSeq)
      ensures id in sessions ==>
        r == Ok(old(lastSeq) + 1) && lastSeq == old(lastSeq) + 1
          && events == old(events) + [Event(lastSeq, id, payload)]
    {
      if id !in sessions { return Failed(NoSuchSession); }
      var e := Event(lastSeq + 1, id, payload);
      AppendKeepsSeqs(events, e, lastSeq, latestSeqCache);
      lastSeq := lastSeq + 1;
      events := events + [e];
      latestSeqCache := latestSeqCache[id := e.seqNo];
      return Ok(e.seqNo);
    }

    /** Reads straight from the table: the session's next events after the cursor, at most `limit`,
        ascending, none skipped. */
    method GetEventsSince(id: string, after: int, limit: nat) returns (page: seq<Event>)
      requires Valid()
      ensures |page| <= limit && Ascending(page)
      ensures forall e :: e in page ==> e in events && e.sessionId == id && e.seqNo > after
      ensures forall e :: e in events && e.sessionId == id && e.seqNo > after && e !in page ==>
        |page| == limit && forall p :: p in page ==> p.seqNo < e.seqNo
      ensures page == Page(events, id, after, limit)
    {
      page := Page(events, id, after, limit);
      PageIsSound(events, id, after, limit, lastSeq);
      forall e | e in events && e.sessionId == id && e.seqNo > after && e !in page
        ensures |page| == limit && forall p :: p in page ==> p.seqNo < e.seqNo
      {
        PageSkipsNothing(events, id, after, limit, lastSeq, e);
      }
    }

    /** Always the true maximum, whatever happened to the cache. */
    method GetLatestSeq(id: string) returns (latest: int)
      requires Valid()
      modifies this`latestSeqCache
      ensures Valid() && latest == MaxSeq(events, id)
    {
      if id in latestSeqCache { return latestSeqCache[id]; }
      latest := MaxSeq(events, id);
      latestSeqCache := latestSeqCache[id := latest];
    }

    /** Inserts the message, or edits the row that already has its id in place; refuses an id
        that belongs to another session. A message without an explicit sequence number gets one
        above the session's newest event. */
    method AppendMessage(id: string, messageId: string, body: Body, seqNo: Option<int>) returns (r: Result<bool>)
      requires Valid()
      modifies this`messages, this`latestSeqCache, this`messagePageCache
      ensures Valid()
      ensures var i := FindRow(old(messages), messageId);
        if i < |old(messages)| then
          (if old(messages)[i].sessionId != id then r == Failed(ForeignId) && messages == old(messages)
           else r.Ok? && messages == old(messages)[i := old(messages)[i].(body := body)])
        else
          (if id !in sessions then r == Failed(NoSuchSession) && messages == old(messages)
           else
             var number := if seqNo.Some? then seqNo.value else MaxSeq(events, id) + 1;
             r.Ok? && messages == old(messages) + [Row(messageId, id, number, body)])
    {
      var i := FindRow(messages, messageId);
      if i < |messages| {
        if messages[i].sessionId != id { return Failed(ForeignId); }
        if messages[i].body == body {
          assert messages == messages[i := messages[i].(body := body)];
          return Ok(false);
        }
        ReplaceBody(i, body, id);
        return Ok(true);
      }
      var resolved: int;
      if seqNo.Some? {
        resolved := seqNo.value;
      } else {
        var latest := GetLatestSeq(id);
        resolved := latest + 1;
      }
      if id !in sessions { return Failed(NoSuchSession); }
      InsertRow(Row(messageId, id, resolved, body));
      return Ok(true);
    }

    method InsertRow(row: Row)
      requires Valid() && FindRow(messages, row.id) == |messages|
      modifies this`messages, this`messagePageCache
      ensures Valid() && messages == old(messages) + [row]
    {
      ghost var messages0 := messages;
      messages := messages + [row];
      InvalidatePages(row.sessionId);
      forall q: Query | q.sessionId != row.sessionId
        ensures Matching(messages, q) == Matching(messages0, q)
      {
        MatchingAppend(messages0, row, q);
      }
      PagesSurvive(messages0, messages, messagePageCache, row.sessionId, origins);
    }

    method ReplaceBody(i: nat, body: Body, ghost id: string)
      requires Valid() && i < |messages| && messages[i].sessionId == id
      modifies this`messages, this`messagePageCache
      ensures Valid() && messages == old(messages)[i := old(messages)[i].(body := body)]
    {
      ghost var messages0 := messages;
      messages := messages[i := messages[i].(body := body)];
      InvalidatePages(messages[i].sessionId);
      forall q: Query | q.sessionId != id
        ensures Matching(messages, q) == Matching(messages0, q)
      {
        MatchingUpdate(messages0, i, body, q);
      }
      PagesSurvive(messages0, messages, messagePageCache, id, origins);
    }

    /** Sets the status, and the content if one is given, of the row with this id, if any. */
    method UpdateMessageStatus(messageId: string, status: string, content: Option<string>)
      requires Valid()
      modifies this`messages, this`messagePageCache
      ensures Valid()
      ensures var i := FindRow(old(messages), messageId);
        if i == |old(messages)| then messages == old(messages)
        else
          var b := old(messages)[i].body;
          messages == old(messages)[i := old(messages)[i].(
            body := b.(status := Some(status), content := if content.Some? then content.value else b.content))]
    {
      var i := FindRow(messages, messageId);
      if i < |messages| {
        var b := messages[i].body;
        var edited := b.(status := Some(status), content := if content.Some? then content.value else b.content);
        messages := messages[i := messages[i].(body := edited)];
      }
      messagePageCache := map[];
    }

    /** The page of the request that filled the cache entry, or else of this one. On a table of
        positive sequence numbers that is right exactly if the two agree about a zero `before`
        cursor, or if there is nothing to find anyway. */
    method GetMessages(q: Query) returns (page: seq<Row>, ghost origin: Query)
      requires Valid()
      modifies this`messagePageCache, this`origins
      ensures Valid() && Key(origin) == Key(q) && page == Select(messages, origin)
      ensures origin == if Key(q) in old(messagePageCache) then old(origins)[Key(q)] else q
      ensures messagePageCache == old(messagePageCache)[Key(q) := page] && origins == old(origins)[Key(q) := origin]
      ensures PositiveSeqs(messages) ==> (page == Select(messages, q) <==> Interchangeable(messages, origin, q))
      ensures IsPage(messages, origin, page)
      ensures PositiveSeqs(messages) && (origin.before == Some(0) <==> q.before == Some(0)) ==>
        IsPage(messages, q, page)
    {
      var key := Key(q);
      origin := if key in messagePageCache then origins[key] else q;
      if key in messagePageCache {
        page := messagePageCache[key];
      } else {
        page := Select(messages, q);
      }
      if PositiveSeqs(messages) {
        CachedPageIsRightIff(messages, origin, q);
      }
      SelectIsPage(messages, origin);
      SelectIsPage(messages, q);
      messagePageCache := messagePageCache[key := page];
      origins := origins[key := origin];
    }
  }

  lemma WithoutKeepsTable(rows: seq<Row>, id: string)
    requires UniqueIds(rows)
    ensures UniqueIds(WithoutMessages(rows, id))
    ensures forall r :: r in WithoutMessages(rows, id) ==> r in rows
  {
    if rows != [] {
      WithoutKeepsTable(rows[1..], id);
      var rest := WithoutMessages(rows[1..], id);
      forall j | 0 <= j < |rest|
        ensures rows[0].id != rest[j].id
      {
        assert rest[j] in rows[1..];
      }
    }
  }

  /** Both or neither give a zero `before` cursor, or there is nothing to find without one. */
  ghost predicate Interchangeable(rows: seq<Row>, origin: Query, q: Query) {
    (origin.before == Some(0) <==> q.before == Some(0)) || Select(rows, q.(before := None)) == []
  }

  /** The page of one request answers another with the same key exactly in these cases. */
  lemma CachedPageIsRightIff(rows: seq<Row>, origin: Query, q: Query)
    requires PositiveSeqs(rows) && Key(origin) == Key(q)
    ensures Select(rows, origin) == Select(rows, q) <==> Interchangeable(rows, origin, q)
  {
    SameKeyIff(origin, q);
    if origin.before == Some(0) <==> q.before == Some(0) {
      SameKeySameRows(rows, origin, q);
    } else if origin.before == Some(0) {
      ZeroCursorSelectsNothing(rows, origin);
      assert q.(before := None) == q;
    } else {
      ZeroCursorSelectsNothing(rows, q);
      var plain := q.(before := None);
      SameKeyIff(origin, plain);
      SameKeySameRows(rows, origin, plain);
    }
  }

  /** The keys' ambiguity is real: after a request with a zero cursor, the plain request for
      the same page is answered with nothing although the session has a message. */
  method ZeroCursorPoisonsPage() returns (service: PersistenceService, page: seq<Row>)
    ensures page == [] && |Select(service.messages, Query("s", None, None, 200))| == 1
  {
    var body := Body("user", "hello", None, None, None, None);
    service := new PersistenceService();
    service.CreateSession("s");
    var r := service.AppendMessage("s", "m1", body, None);
    assert service.messages == [Row("m1", "s", 1, body)];
    var zero, plain := Query("s", None, Some(0), 200), Query("s", None, None, 200);
    SameKeyIff(zero, plain);
    OneRowSelects(service.messages[0], zero);
    OneRowSelects(service.messages[0], plain);
    service.Evict({}, {Key(zero)});
    var none, _ := service.GetMessages(zero);
    ghost var origin;
    page, origin := service.GetMessages(plain);
  }
}
