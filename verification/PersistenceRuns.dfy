/** Whole runs of the persistence service: with caches it answers like the tables alone. */
module PersistenceRuns {
  import opened Basics
  import opened CacheKeys
  import opened Tables
  import opened Persistence

  /** The tables without any cache. */
  datatype Database = Database(sessions: set<string>, events: seq<Event>, lastSeq: int, messages: seq<Row>)

  datatype Request =
    | CreateSession(id: string)
    | DeleteSession(id: string)
    | AppendEvent(id: string, payload: string)
    | AppendMessage(id: string, messageId: string, body: Body, seqNo: Option<int>)
    | UpdateMessageStatus(messageId: string, status: string, content: Option<string>)
    | GetMessages(query: Query)
    | GetEventsSince(id: string, after: int, limit: nat)
    | GetLatestSeq(id: string)
    | Evict(ids: set<string>, keys: set<string>)

  datatype Answer =
    | Done
    | Refused(error: WriteError)
    | Number(n: int)
    | Rows(rows: seq<Row>)
    | Events(events: seq<Event>)

  /** What one request does to the tables; evictions do nothing to them. */
  function After(d: Database, r: Request): Database {
    match r
    case CreateSession(id) => d.(sessions := d.sessions + {id})
    case DeleteSession(id) =>
      d.(sessions := d.sessions - {id}, events := WithoutSession(d.events, id),
         messages := WithoutMessages(d.messages, id))
    case AppendEvent(id, payload) =>
      if id in d.sessions then d.(lastSeq := d.lastSeq + 1, events := d.events + [Event(d.lastSeq + 1, id, payload)])
        else d
    case AppendMessage(id, messageId, body, seqNo) =>
      var i := FindRow(d.messages, messageId);
      if i < |d.messages| then
        if d.messages[i].sessionId == id then d.(messages := d.messages[i := d.messages[i].(body := body)]) else d
      else if id in d.sessions then
        var number := if seqNo.Some? then seqNo.value else MaxSeq(d.events, id) + 1;
        d.(messages := d.messages + [Row(messageId, id, number, body)])
      else d
    case UpdateMessageStatus(messageId, status, content) =>
      var i := FindRow(d.messages, messageId);
      if i == |d.messages| then d
      else
        var b := d.messages[i].body;
        d.(messages := d.messages[i := d.messages[i].(
          body := b.(status := Some(status), content := if content.Some? then content.value else b.content))])
    case _ => d
  }

  function AnswerTo(d: Database, r: Request): Answer {
    match r
    case AppendEvent(id, _) => if id in d.sessions then Number(d.lastSeq + 1) else Refused(NoSuchSession)
    case AppendMessage(id, messageId, _, _) =>
      var i := FindRow(d.messages, messageId);
      if i < |d.messages| then if d.messages[i].sessionId == id then Done else Refused(ForeignId)
      else if id in d.sessions then Done else Refused(NoSuchSession)
    case GetMessages(query) => Rows(Select(d.messages, query))
    case GetEventsSince(id, after, limit) => Events(Page(d.events, id, after, limit))
    case GetLatestSeq(id) => Number(MaxSeq(d.events, id))
    case _ => Done
  }

  function AfterAll(d: Database, requests: seq<Request>): Database {
    if requests == [] then d else After(AfterAll(d, requests[..|requests| - 1]), requests[|requests| - 1])
  }

  function AnswersTo(d: Database, requests: seq<Request>): seq<Answer> {
    if requests == [] then []
    else
      var before := requests[..|requests| - 1];
      AnswersTo(d, before) + [AnswerTo(AfterAll(d, before), requests[|requests| - 1])]
  }

  ghost function TablesOf(service: PersistenceService): Database
    reads service
  {
    Database(service.sessions, service.events, service.lastSeq, service.messages)
  }

  /** No cursor of 0, no explicit sequence number below 1. */
  predicate Plain(r: Request) {
    (r.GetMessages? ==> r.query.before != Some(0)) && (r.AppendMessage? && r.seqNo.Some? ==> r.seqNo.value > 0)
  }

  /** No cached page comes from a cursor of 0, and all sequence numbers are positive. */
  ghost predicate Clean(service: PersistenceService)
    reads service
  {
    && service.Valid() && PositiveSeqs(service.messages)
    && forall key :: key in service.origins ==> service.origins[key].before != Some(0)
  }

  lemma PositiveAfter(d: Database, r: Request)
    requires PositiveSeqs(d.messages) && SortedLog(d.events, d.lastSeq) && d.lastSeq >= 0 && Plain(r)
    ensures PositiveSeqs(After(d, r).messages)
  {
    if r.AppendMessage? {
      MaxSeqIsMax(d.events, r.id, d.lastSeq);
    }
    if r.DeleteSession? {
      OnlyOldRows(d.messages, r.id);
    }
  }

  lemma {:induction false} OnlyOldRows(rows: seq<Row>, id: string)
    ensures forall r :: r in WithoutMessages(rows, id) ==> r in rows
  {
    if rows != [] {
      OnlyOldRows(rows[1..], id);
    }
  }

  method ServeAppend(service: PersistenceService, r: Request) returns (answer: Answer)
    requires Clean(service) && Plain(r) && r.AppendMessage?
    modifies service
    ensures Clean(service)
    ensures answer == AnswerTo(old(TablesOf(service)), r) && TablesOf(service) == After(old(TablesOf(service)), r)
  {
    PositiveAfter(TablesOf(service), r);
    var result := service.AppendMessage(r.id, r.messageId, r.body, r.seqNo);
    answer := if result.Ok? then Done else Refused(result.error);
  }

  /** Requests that leave the tables as they are. */
  predicate IsRead(r: Request) { r.GetMessages? || r.GetEventsSince? || r.GetLatestSeq? || r.Evict? }

  method ServeRead(service: PersistenceService, r: Request) returns (answer: Answer)
    requires Clean(service) && Plain(r) && IsRead(r)
    modifies service
    ensures Clean(service)
    ensures answer == AnswerTo(old(TablesOf(service)), r) && TablesOf(service) == old(TablesOf(service))
  {
    match r {
      case GetMessages(query) =>
        var page, origin := service.GetMessages(query);
        return Rows(page);
      case GetEventsSince(id, after, limit) =>
        var page := service.GetEventsSince(id, after, limit);
        return Events(page);
      case GetLatestSeq(id) =>
        var latest := service.GetLatestSeq(id);
        return Number(latest);
      case Evict(ids, keys) =>
        service.Evict(ids, keys);
        return Done;
    }
  }

  /** One request, answered with the caches as they are. */
  method Serve(service: PersistenceService, r: Request) returns (answer: Answer)
    requires Clean(service) && Plain(r)
    modifies service
    ensures Clean(service)
    ensures answer == AnswerTo(old(TablesOf(service)), r) && TablesOf(service) == After(old(TablesOf(service)), r)
  {
    PositiveAfter(TablesOf(service), r);
    match r {
      case CreateSession(id) =>
        service.CreateSession(id);
        return Done;
      case DeleteSession(id) =>
        service.DeleteSession(id);
        return Done;
      case AppendEvent(id, payload) =>
        var result := service.AppendEvent(id, payload);
        return if result.Ok? then Number(result.value) else Refused(result.error);
      case AppendMessage(_, _, _, _) =>
        answer := ServeAppend(service, r);
      case UpdateMessageStatus(messageId, status, content) =>
        service.UpdateMessageStatus(messageId, status, content);
        return Done;
      case _ =>
        answer := ServeRead(service, r);
    }
  }

  /** Over every run of plain requests, evictions at any moment included, the service answers as
      if it had no caches. */
  method ServeAll(service: PersistenceService, requests: seq<Request>) returns (answers: seq<Answer>)
    requires Clean(service) && forall r :: r in requests ==> Plain(r)
    modifies service
    ensures Clean(service)
    ensures answers == AnswersTo(old(TablesOf(service)), requests)
    ensures TablesOf(service) == AfterAll(old(TablesOf(service)), requests)
  {
    answers := [];
    for i := 0 to |requests|
      invariant Clean(service)
      invariant answers == AnswersTo(old(TablesOf(service)), requests[..i])
      invariant TablesOf(service) == AfterAll(old(TablesOf(service)), requests[..i])
    {
      assert requests[..i + 1][..i] == requests[..i];
      var answer := Serve(service, requests[i]);
      answers := answers + [answer];
    }
    assert requests[..|requests|] == requests;
  }
}
