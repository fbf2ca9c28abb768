/** Event fan-out to connected clients: immediate delivery, batching for throttled terminals,
    and buffering for sessions nobody watches (packages/gateway/src/events.ts). */
module Events {
  import opened Basics

  datatype ClientKind = Tui | Web

  datatype EventMode = Full | Throttled

  datatype Event = Event(payload: string, kind: Option<string>, workflowId: Option<string>, seqNo: Option<int>)

  /** A message on a client's socket: one event, or the payloads of a flushed batch. */
  datatype Wire = Single(event: Event) | Batch(payloads: seq<string>)

  datatype Queued = Queued(payload: string, kind: Option<string>)

  /** A connection; `wire` is everything its socket has accepted so far. */
  datatype Client = Client(
    kind: ClientKind, mode: EventMode, sessionId: string, subscriptions: set<string>, open: bool, wire: seq<Wire>)

  /** What was handed to the session manager for later. */
  datatype Buffered = Buffered(sessionId: string, event: Event)

  datatype State = State(
    clients: map<string, Client>, batches: map<string, seq<Queued>>, timers: set<string>, buffered: seq<Buffered>)

  datatype Config = Config(hasSessions: bool, defaultSession: string)

  datatype Step =
    | Add(id: string, client: Client)
    | Remove(id: string)
    | Subscribe(id: string, workflowId: string)
    | Unsubscribe(id: string)
    | Disconnect(id: string)
    | Emit(event: Event, session: Option<string>)
    | EmitDag(event: Event, session: Option<string>)
    | Flush(id: string)

  /* ------------------------------- one client ------------------------------- */

  const IMMEDIATE_KINDS: set<string> :=
    {"done", "error", "finding", "thinking", "tool_call", "tool_result", "status", "loop_iteration", "replan"}

  predicate InSession(c: Client, session: Option<string>) {
    Given(session) ==> c.sessionId == session.value
  }

  predicate Subscribed(c: Client, workflowId: Option<string>) {
    Given(workflowId) && c.subscriptions != {} ==> workflowId.value in c.subscriptions
  }

  predicate Matches(c: Client, e: Event, session: Option<string>) {
    InSession(c, session) && Subscribed(c, e.workflowId)
  }

  predicate IsImmediate(c: Client, e: Event) {
    c.kind == Web || c.mode == Full || (Given(e.kind) && e.kind.value in IMMEDIATE_KINDS)
  }

  predicate NeedsBatch(c: Client) { c.mode == Throttled || c.kind == Tui }

  /** Sends are dropped on a socket that is not open. */
  function SendTo(c: Client, w: Wire): Client {
    if c.open then c.(wire := c.wire + [w]) else c
  }

  predicate Takes(c: Client, e: Event, session: Option<string>, dag: bool) {
    Matches(c, e, session) && (dag || IsImmediate(c, e))
  }

  predicate Queues(c: Client, e: Event, session: Option<string>, dag: bool) {
    Matches(c, e, session) && !dag && !IsImmediate(c, e)
  }

  function Receive(c: Client, e: Event, session: Option<string>, dag: bool): Client {
    if Takes(c, e, session, dag) then SendTo(c, Single(e)) else c
  }

  function Enqueue(c: Client, batch: seq<Queued>, e: Event, session: Option<string>, dag: bool): seq<Queued> {
    if Queues(c, e, session, dag) then batch + [Queued(e.payload, e.kind)] else batch
  }

  function Payloads(batch: seq<Queued>): (r: seq<string>)
    ensures |r| == |batch|
  {
    if batch == [] then [] else Payloads(batch[..|batch| - 1]) + [batch[|batch| - 1].payload]
  }

  /* ------------------------------- one step ------------------------------- */

  predicate SomeEligible(clients: map<string, Client>, session: Option<string>) {
    exists id :: id in clients && InSession(clients[id], session)
  }

  function Target(config: Config, session: Option<string>): string {
    if session.Some? then session.value else config.defaultSession
  }

  function FanOut(s: State, e: Event, session: Option<string>, dag: bool): State {
    s.(clients := map id | id in s.clients :: Receive(s.clients[id], e, session, dag),
       batches := map id | id in s.batches ::
         if id in s.clients then Enqueue(s.clients[id], s.batches[id], e, session, dag) else s.batches[id])
  }

  function Emitted(config: Config, s: State, e: Event, session: Option<string>, dag: bool): State {
    if !SomeEligible(s.clients, session) && config.hasSessions
    then s.(buffered := s.buffered + [Buffered(Target(config, session), e)])
    else FanOut(s, e, session, dag)
  }

  function Next(config: Config, s: State, step: Step): State {
    match step
    case Add(id, client) =>
      var t := s.(clients := s.clients[id := client]);
      if NeedsBatch(client) then t.(batches := t.batches[id := []], timers := t.timers + {id}) else t
    case Remove(id) => s.(clients := s.clients - {id}, batches := s.batches - {id}, timers := s.timers - {id})
    case Subscribe(id, w) =>
      if id in s.clients
      then s.(clients := s.clients[id := s.clients[id].(subscriptions := s.clients[id].subscriptions + {w})]) else s
    case Unsubscribe(id) =>
      if id in s.clients then s.(clients := s.clients[id := s.clients[id].(subscriptions := {})]) else s
    case Disconnect(id) =>
      if id in s.clients then s.(clients := s.clients[id := s.clients[id].(open := false)]) else s
    case Emit(e, session) => Emitted(config, s, e, session, false)
    case EmitDag(e, session) => Emitted(config, s, e, session, true)
    case Flush(id) =>
      if id in s.clients && id in s.batches && s.batches[id] != []
      then s.(clients := s.clients[id := SendTo(s.clients[id], Batch(Payloads(s.batches[id])))],
              batches := s.batches[id := []])
      else s
  }

  function BatchOf(s: State, id: string): seq<Queued> { if id in s.batches then s.batches[id] else [] }

  /* ------------------------------- invariants ------------------------------- */

  /** Every client that may have to queue has a batch, and every batch has a flush timer. */
  ghost predicate Registered(s: State) {
    && s.batches.Keys == s.timers
    && forall id :: id in s.clients && NeedsBatch(s.clients[id]) ==> id in s.batches
  }

  lemma StepKeepsRegistered(config: Config, s: State, step: Step)
    requires Registered(s)
    ensures Registered(Next(config, s, step))
  {
  }

  /** An event finds this client: it passes both filters, and needs no closed socket. */
  ghost predicate Accepts(c: Client, e: Event, session: Option<string>, dag: bool) {
    Matches(c, e, session) && (c.open || !(dag || IsImmediate(c, e)))
  }

  /** One emission, seen from any one client: sent once, or queued once, or neither; never both,
      and neither only if a filter or a closed socket stands in the way. */
  lemma EmitReachesClientOnce(config: Config, s: State, e: Event, session: Option<string>, dag: bool, id: string)
    requires Registered(s) && id in s.clients
    ensures var c, t := s.clients[id], Emitted(config, s, e, session, dag);
      && id in t.clients && (id in s.batches <==> id in t.batches)
      && var sent := t.clients[id] == c.(wire := c.wire + [Single(e)]);
         var queued := id in s.batches && t.batches[id] == s.batches[id] + [Queued(e.payload, e.kind)];
         && (sent || t.clients[id] == c) && (queued || BatchOf(t, id) == BatchOf(s, id)) && !(sent && queued)
         && (sent || queued <==> Accepts(c, e, session, dag))
         && (sent || queued ==> t.buffered == s.buffered)
  {
    var c := s.clients[id];
    assert InSession(c, session) ==> SomeEligible(s.clients, session);
    assert |c.wire + [Single(e)]| == |c.wire| + 1;
    assert |BatchOf(s, id) + [Queued(e.payload, e.kind)]| == |BatchOf(s, id)| + 1;
  }

  /** Has this emission left a trace anywhere: on a socket, in a batch or in a session's buffer? */
  ghost predicate Delivered(s: State, t: State) {
    || t.buffered != s.buffered
    || (exists id :: id in s.clients && id in t.clients && t.clients[id] != s.clients[id])
    || (exists id :: id in s.batches && id in t.batches && t.batches[id] != s.batches[id])
  }

  /** Exactly when an event is not lost: somebody takes it, or nobody at all watches its session
      and there is a session manager to keep it. A client that watches the session but not the
      workflow keeps the event from being buffered without receiving it. */
  lemma DeliveredIff(config: Config, s: State, e: Event, session: Option<string>, dag: bool)
    requires Registered(s)
    ensures Delivered(s, Emitted(config, s, e, session, dag)) <==>
      || (exists id :: id in s.clients && Accepts(s.clients[id], e, session, dag))
      || (config.hasSessions && forall id :: id in s.clients ==> !InSession(s.clients[id], session))
  {
    var t := Emitted(config, s, e, session, dag);
    if !SomeEligible(s.clients, session) && config.hasSessions {
      assert |t.buffered| == |s.buffered| + 1;
    } else {
      forall id | id in s.clients
        ensures Accepts(s.clients[id], e, session, dag) <==>
          t.clients[id] != s.clients[id] || (id in s.batches && t.batches[id] != s.batches[id])
      {
      }
      assert forall id :: id in s.batches && t.batches[id] != s.batches[id] ==> id in s.clients;
    }
  }

  /** The client watches the session, but of all workflows only others. */
  predicate WatchesOthers(c: Client, e: Event, session: Option<string>) {
    InSession(c, session) && Given(e.workflowId) && c.subscriptions != {} && e.workflowId.value !in c.subscriptions
  }

  /** An event whose session is watched, with open sockets and a session manager at hand, but only
      by clients subscribed to other workflows, leaves no trace at all. */
  lemma SubscriptionHidesEvent(config: Config, s: State, e: Event, session: Option<string>, dag: bool, watcher: string)
    requires config.hasSessions && watcher in s.clients && s.clients[watcher].open
      && InSession(s.clients[watcher], session)
    requires forall id :: id in s.clients && InSession(s.clients[id], session) ==>
      WatchesOthers(s.clients[id], e, session)
    ensures Emitted(config, s, e, session, dag) == s
  {
    var t := FanOut(s, e, session, dag);
    assert t.clients == s.clients;
    assert t.batches == s.batches;
  }

  /** There is such a state and event. */
  lemma HiddenEventExists(config: Config)
    requires config.hasSessions
    ensures var c := Client(Web, Full, "s", {"w1"}, true, []); var s := State(map["c" := c], map[], {}, []);
      Registered(s) && Emitted(config, s, Event("p", None, Some("w2"), None), Some("s"), false) == s
  {
    var s := State(map["c" := Client(Web, Full, "s", {"w1"}, true, [])], map[], {}, []);
    assert s.batches.Keys == s.timers;
    SubscriptionHidesEvent(config, s, Event("p", None, Some("w2"), None), Some("s"), false, "c");
  }

  /* ------------------------------- whole runs ------------------------------- */

  function Run(config: Config, s: State, steps: seq<Step>): State
    decreases |steps|
  {
    if steps == [] then s else Run(config, Next(config, s, steps[0]), steps[1..])
  }

  lemma {:induction false} RunKeepsRegistered(config: Config, s: State, steps: seq<Step>)
    requires Registered(s)
    ensures Registered(Run(config, s, steps))
    decreases |steps|
  {
    if steps != [] {
      StepKeepsRegistered(config, s, steps[0]);
      RunKeepsRegistered(config, Next(config, s, steps[0]), steps[1..]);
    }
  }

  /** The client neither leaves, nor registers again, nor loses its socket. */
  predicate Stays(steps: seq<Step>, id: string) {
    forall i :: 0 <= i < |steps| ==>
      !(steps[i].Add? && steps[i].id == id) && !(steps[i].Remove? && steps[i].id == id)
      && !(steps[i].Disconnect? && steps[i].id == id)
  }

  /** What one step owes a client: events to send it at once, payloads to queue. */
  function Owed(s: State, step: Step, id: string): seq<Event> {
    if id !in s.clients then []
    else
      match step
      case Emit(e, session) => if Takes(s.clients[id], e, session, false) then [e] else []
      case EmitDag(e, session) => if Takes(s.clients[id], e, session, true) then [e] else []
      case _ => []
  }

  function OwedLater(s: State, step: Step, id: string): seq<string> {
    if id !in s.clients then []
    else
      match step
      case Emit(e, session) => if Queues(s.clients[id], e, session, false) then [e.payload] else []
      case _ => []
  }

  function AllOwed(config: Config, s: State, steps: seq<Step>, id: string): seq<Event>
    decreases |steps|
  {
    if steps == [] then [] else Owed(s, steps[0], id) + AllOwed(config, Next(config, s, steps[0]), steps[1..], id)
  }

  function AllOwedLater(config: Config, s: State, steps: seq<Step>, id: string): seq<string>
    decreases |steps|
  {
    if steps == [] then []
    else OwedLater(s, steps[0], id) + AllOwedLater(config, Next(config, s, steps[0]), steps[1..], id)
  }

  /** The events sent one by one, and the payloads sent in batches, in order. */
  function Singles(wire: seq<Wire>): seq<Event> {
    if wire == [] then []
    else
      var last := wire[|wire| - 1];
      Singles(wire[..|wire| - 1]) + if last.Single? then [last.event] else []
  }

  function FromBatches(wire: seq<Wire>): seq<string> {
    if wire == [] then []
    else
      var last := wire[|wire| - 1];
      FromBatches(wire[..|wire| - 1]) + if last.Batch? then last.payloads else []
  }

  /** What reached the client in batches together with what waits in its current batch. */
  function Throughput(s: State, id: string): seq<string>
    requires id in s.clients
  {
    FromBatches(s.clients[id].wire) + Payloads(BatchOf(s, id))
  }

  lemma ReceiveAddsSingle(c: Client, e: Event, session: Option<string>, dag: bool)
    requires c.open
    ensures var wire := Receive(c, e, session, dag).wire;
      && Singles(wire) == Singles(c.wire) + (if Takes(c, e, session, dag) then [e] else [])
      && FromBatches(wire) == FromBatches(c.wire)
  {
    assert Singles(c.wire) + [] == Singles(c.wire) && FromBatches(c.wire) + [] == FromBatches(c.wire);
  }

  lemma EmissionKeepsFaith(config: Config, s: State, e: Event, session: Option<string>, dag: bool, id: string)
    requires Registered(s) && id in s.clients && s.clients[id].open
    ensures var t := Emitted(config, s, e, session, dag);
      && id in t.clients && t.clients[id].open
      && Singles(t.clients[id].wire)
        == Singles(s.clients[id].wire) + (if Takes(s.clients[id], e, session, dag) then [e] else [])
      && Throughput(t, id) == Throughput(s, id) + if Queues(s.clients[id], e, session, dag) then [e.payload] else []
  {
    var c, batch := s.clients[id], BatchOf(s, id);
    ReceiveAddsSingle(c, e, session, dag);
    Regroup(FromBatches(c.wire), Payloads(batch), if Queues(c, e, session, dag) then [e.payload] else []);
  }

  lemma FlushKeepsFaith(config: Config, s: State, flushed: string, id: string)
    requires id in s.clients && s.clients[id].open
    ensures var t := Next(config, s, Flush(flushed));
      && id in t.clients && t.clients[id].open
      && Singles(t.clients[id].wire) == Singles(s.clients[id].wire) && Throughput(t, id) == Throughput(s, id)
  {
    if flushed == id && id in s.batches && s.batches[id] != [] {
      var wire, batch := s.clients[id].wire, Payloads(s.batches[id]);
      assert Singles(wire) + [] == Singles(wire);
      assert FromBatches(wire) + batch + Payloads([]) == FromBatches(wire) + batch;
    }
  }

  lemma StepKeepsFaith(config: Config, s: State, step: Step, id: string)
    requires Registered(s) && id in s.clients && s.clients[id].open && Stays([step], id)
    ensures var t := Next(config, s, step);
      && id in t.clients && t.clients[id].open
      && Singles(t.clients[id].wire) == Singles(s.clients[id].wire) + Owed(s, step, id)
      && Throughput(t, id) == Throughput(s, id) + OwedLater(s, step, id)
  {
    assert step == [step][0];
    assert Singles(s.clients[id].wire) + [] == Singles(s.clients[id].wire);
    assert Throughput(s, id) + [] == Throughput(s, id);
    match step {
      case Emit(e, session) => EmissionKeepsFaith(config, s, e, session, false, id);
      case EmitDag(e, session) => EmissionKeepsFaith(config, s, e, session, true, id);
      case Flush(flushed) => FlushKeepsFaith(config, s, flushed, id);
      case _ =>
    }
  }

  /** Over any run in which a client stays registered with an open socket, it is sent one by one
      exactly the matching immediate events, and its flushed batches followed by the current
      batch are exactly the other matching events; both in the order of their emission. */
  lemma {:induction false} RunKeepsFaith(config: Config, s: State, steps: seq<Step>, id: string)
    requires Registered(s) && id in s.clients && s.clients[id].open && Stays(steps, id)
    ensures var t := Run(config, s, steps);
      && id in t.clients && t.clients[id].open
      && Singles(t.clients[id].wire) == Singles(s.clients[id].wire) + AllOwed(config, s, steps, id)
      && Throughput(t, id) == Throughput(s, id) + AllOwedLater(config, s, steps, id)
    decreases |steps|
  {
    if steps == [] {
      assert Singles(s.clients[id].wire) + [] == Singles(s.clients[id].wire);
      assert Throughput(s, id) + [] == Throughput(s, id);
    } else {
      var s1 := Next(config, s, steps[0]);
      assert [steps[0]][0] == steps[0];
      StepKeepsFaith(config, s, steps[0], id);
      StepKeepsRegistered(config, s, steps[0]);
      RunKeepsFaith(config, s1, steps[1..], id);
      Regroup(Singles(s.clients[id].wire), Owed(s, steps[0], id), AllOwed(config, s1, steps[1..], id));
      Regroup(Throughput(s, id), OwedLater(s, steps[0], id), AllOwedLater(config, s1, steps[1..], id));
    }
  }

  /* ------------------------------- a round over the clients ------------------------------- */

  ghost predicate ClientsServed(
    c0: map<string, Client>, c1: map<string, Client>, rest: set<string>, e: Event, session: Option<string>, dag: bool) {
    && c1.Keys == c0.Keys
    && forall id :: id in c0 ==> c1[id] == if id in rest then c0[id] else Receive(c0[id], e, session, dag)
  }

  ghost predicate BatchesServed(
    c0: map<string, Client>, b0: map<string, seq<Queued>>, b1: map<string, seq<Queued>>,
    rest: set<string>, e: Event, session: Option<string>, dag: bool) {
    && b1.Keys == b0.Keys
    && forall id :: id in b0 ==>
         b1[id] == if id in c0 && id !in rest then Enqueue(c0[id], b0[id], e, session, dag) else b0[id]
  }

  lemma ServeOneMore(
    c0: map<string, Client>, c1: map<string, Client>, b0: map<string, seq<Queued>>, b1: map<string, seq<Queued>>,
    rest: set<string>, id: string, e: Event, session: Option<string>, dag: bool)
    requires ClientsServed(c0, c1, rest, e, session, dag) && BatchesServed(c0, b0, b1, rest, e, session, dag)
    requires id in rest && id in c0
    ensures ClientsServed(c0, c1[id := Receive(c1[id], e, session, dag)], rest - {id}, e, session, dag)
    ensures BatchesServed(c0, b0, if id in b1 then b1[id := Enqueue(c1[id], b1[id], e, session, dag)] else b1,
      rest - {id}, e, session, dag)
  {
  }

  /* ------------------------------- the streamer ------------------------------- */

  class EventStreamer {
    var clients: map<string, Client>
    var batches: map<string, seq<Queued>>
    var timers: set<string>
    var buffered: seq<Buffered>
    const config: Config

    ghost function Now(): State
      reads this
    {
      State(clients, batches, timers, buffered)
    }

    ghost predicate Valid()
      reads this
    {
      Registered(Now())
    }

    constructor (config: Config)
      ensures Valid() && Now() == State(map[], map[], {}, []) && this.config == config
    {
      clients, batches, timers, buffered := map[], map[], {}, [];
      this.config := config;
    }

    method AddClient(id: string, client: Client)
      requires Valid()
      modifies this
      ensures Valid() && Now() == Next(config, old(Now()), Add(id, client))
    {
      StepKeepsRegistered(config, Now(), Add(id, client));
      clients := clients[id := client];
      if client.mode == Throttled || client.kind == Tui {
        batches := batches[id := []];
        timers := timers + {id};
      }
    }

    /** Whatever waits in the client's batch is dropped with it. */
    method RemoveClient(id: string)
      requires Valid()
      modifies this
      ensures Valid() && Now() == Next(config, old(Now()), Remove(id))
    {
      StepKeepsRegistered(config, Now(), Remove(id));
      clients := clients - {id};
      batches := batches - {id};
      timers := timers - {id};
    }

    /** The first connected client's session, or the default. */
    method ActiveSessionId() returns (id: string)
      ensures clients == map[] ==> id == config.defaultSession
      ensures clients != map[] ==> exists c :: c in clients && clients[c].sessionId == id
    {
      if clients.Keys == {} { return config.defaultSession; }
      var first :| first in clients.Keys;
      return clients[first].sessionId;
    }

    method CountEligible(session: Option<string>) returns (count: nat)
      ensures count > 0 <==> SomeEligible(clients, session)
    {
      count := 0;
      var rest := clients.Keys;
      while rest != {}
        invariant rest <= clients.Keys
        invariant count > 0 <==> exists id :: id in clients && id !in rest && InSession(clients[id], session)
        decreases rest
      {
        var id :| id in rest;
        rest := rest - {id};
        if InSession(clients[id], session) {
          count := count + 1;
        }
      }
    }

    /** Every event ends up where `Next` says: see EmitReachesClientOnce and DeliveredIff. */
    method EmitEvent(e: Event, session: Option<string>)
      requires Valid()
      modifies this`clients, this`batches, this`buffered
      ensures Valid() && Now() == Next(config, old(Now()), Emit(e, session))
    {
      StepKeepsRegistered(config, Now(), Emit(e, session));
      Deliver(e, session, false);
    }

    /** Lifecycle messages are never batched. */
    method EmitDagMessage(e: Event, session: Option<string>)
      requires Valid()
      modifies this`clients, this`batches, this`buffered
      ensures Valid() && Now() == Next(config, old(Now()), EmitDag(e, session))
    {
      StepKeepsRegistered(config, Now(), EmitDag(e, session));
      Deliver(e, session, true);
    }

    method Deliver(e: Event, session: Option<string>, dag: bool)
      requires Valid()
      modifies this`clients, this`batches, this`buffered
      ensures Now() == Emitted(config, old(Now()), e, session, dag)
    {
      var active := ActiveSessionId();
      var target := if session.Some? then session.value else active;
      var eligible := CountEligible(session);
      assert session.None? ==> forall id :: id in clients ==> InSession(clients[id], session);
      if eligible == 0 && config.hasSessions {
        buffered := buffered + [Buffered(target, e)];
      } else {
        DeliverToAll(e, session, dag);
      }
    }

    method DeliverToAll(e: Event, session: Option<string>, dag: bool)
      modifies this`clients, this`batches
      ensures Now() == FanOut(old(Now()), e, session, dag)
    {
      var rest := clients.Keys;
      while rest != {}
        invariant rest <= old(clients).Keys
        invariant ClientsServed(old(clients), clients, rest, e, session, dag)
        invariant BatchesServed(old(clients), old(batches), batches, rest, e, session, dag)
        decreases rest
      {
        var id :| id in rest;
        ServeOneMore(old(clients), clients, old(batches), batches, rest, id, e, session, dag);
        rest := rest - {id};
        DeliverTo(id, e, session, dag);
      }
      ghost var t := FanOut(old(Now()), e, session, dag);
      assert clients == t.clients;
      assert batches == t.batches;
    }

    method DeliverTo(id: string, e: Event, session: Option<string>, dag: bool)
      requires id in clients
      modifies this`clients, this`batches
      ensures clients == old(clients)[id := Receive(old(clients)[id], e, session, dag)]
      ensures batches ==
        if id in old(batches) then old(batches)[id := Enqueue(old(clients)[id], old(batches)[id], e, session, dag)]
        else old(batches)
    {
      var client := clients[id];
      if !InSession(client, session) || !Subscribed(client, e.workflowId) {
        assert clients == clients[id := client];
        assert id in batches ==> batches == batches[id := batches[id]];
        return;
      }
      if dag || client.kind == Web || client.mode == Full || (Given(e.kind) && e.kind.value in IMMEDIATE_KINDS) {
        clients := clients[id := SendTo(client, Single(e))];
        assert id in batches ==> batches == batches[id := batches[id]];
      } else {
        if id in batches {
          batches := batches[id := batches[id] + [Queued(e.payload, e.kind)]];
        }
        assert clients == clients[id := client];
      }
    }

    method FlushBatch(id: string)
      requires Valid()
      modifies this`clients, this`batches
      ensures Valid() && Now() == Next(config, old(Now()), Flush(id))
    {
      StepKeepsRegistered(config, Now(), Flush(id));
      if id !in clients || id !in batches || batches[id] == [] { return; }
      var events := Payloads(batches[id]);
      batches := batches[id := []];
      clients := clients[id := SendTo(clients[id], Batch(events))];
    }
  }
}
