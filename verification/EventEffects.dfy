/** What one step of the event streamer does to clients, batches and session buffers, read off
    kinds, modes, sessions and subscriptions (packages/gateway/src/events.ts). */
module EventEffects {
  import opened Basics
  import opened Events

  /** The client is in the session named, or none is named. */
  ghost predicate Watches(c: Client, session: Option<string>) {
    session == None || session == Some("") || session == Some(c.sessionId)
  }

  /** The event is of no workflow, or the client has no subscriptions, or one to this workflow. */
  ghost predicate Wants(c: Client, e: Event) {
    e.workflowId == None || e.workflowId == Some("") || c.subscriptions == {} || e.workflowId.value in c.subscriptions
  }

  ghost predicate Urgent(e: Event) {
    e.kind.Some? && e.kind.value in
      {"done", "error", "finding", "thinking", "tool_call", "tool_result", "status", "loop_iteration", "replan"}
  }

  /** Lifecycle messages, web clients, full mode and urgent kinds do without a batch. */
  ghost predicate AtOnce(c: Client, e: Event, dag: bool) { dag || c.kind == Web || c.mode == Full || Urgent(e) }

  ghost predicate Served(s: State, t: State, e: Event, session: Option<string>, dag: bool, id: string)
    requires id in s.clients && id in t.clients
  {
    var c, c' := s.clients[id], t.clients[id];
    var reached := Watches(c, session) && Wants(c, e);
    && c' == c.(wire := c'.wire)
    && c'.wire == (if reached && AtOnce(c, e, dag) && c.open then c.wire + [Single(e)] else c.wire)
    && (id in t.batches <==> id in s.batches)
    && (id in s.batches ==>
          t.batches[id] == if reached && !AtOnce(c, e, dag) then s.batches[id] + [Queued(e.payload, e.kind)]
                           else s.batches[id])
  }

  /** An emission is buffered once, for the session named or else the default one, if nobody
      watches; otherwise each client that wants it gets it, at once or with its next batch, and no
      buffer changes. */
  lemma EmissionEffect(config: Config, s: State, step: Step)
    requires step.Emit? || step.EmitDag?
    ensures var t, e, session := Next(config, s, step), step.event, step.session;
      && t.timers == s.timers && t.clients.Keys == s.clients.Keys && t.batches.Keys == s.batches.Keys
      && if config.hasSessions && forall id :: id in s.clients ==> !Watches(s.clients[id], session) then
           && t.clients == s.clients && t.batches == s.batches
           && t.buffered == s.buffered + [Buffered(if session.Some? then session.value else config.defaultSession, e)]
         else
           && t.buffered == s.buffered
           && forall id :: id in s.clients ==> Served(s, t, e, session, step.EmitDag?, id)
  {
    var e, session := step.event, step.session;
    forall id | id in s.clients
      ensures InSession(s.clients[id], session) <==> Watches(s.clients[id], session)
      ensures Subscribed(s.clients[id], e.workflowId) <==> Wants(s.clients[id], e)
    {
    }
    assert Given(e.kind) && e.kind.value in IMMEDIATE_KINDS <==> Urgent(e);
  }

  ghost predicate OnlyClient(s: State, t: State, id: string) {
    && t.buffered == s.buffered
    && (forall k :: k != id ==> (k in t.clients <==> k in s.clients) && (k in t.batches <==> k in s.batches)
                                && (k in t.timers <==> k in s.timers))
    && (forall k :: k != id && k in s.clients ==> t.clients[k] == s.clients[k])
    && (forall k :: k != id && k in s.batches ==> t.batches[k] == s.batches[k])
  }

  /** Terminals and throttled clients start with an empty batch and a timer; leaving takes both. */
  lemma ConnectionEffect(config: Config, s: State, step: Step)
    requires step.Add? || step.Remove?
    ensures var t, id := Next(config, s, step), step.id;
      && OnlyClient(s, t, id)
      && (step.Add? ==> id in t.clients && t.clients[id] == step.client)
      && (step.Add? && (step.client.kind == Tui || step.client.mode == Throttled) ==>
            id in t.batches && t.batches[id] == [] && id in t.timers)
      && (step.Add? && step.client.kind == Web && step.client.mode == Full ==>
            (id in t.batches <==> id in s.batches) && (id in t.timers <==> id in s.timers))
      && (step.Remove? ==> id !in t.clients && id !in t.batches && id !in t.timers)
  {
  }

  /** Subscribing adds one workflow, unsubscribing drops all; a closed socket stays closed. */
  lemma ClientEffect(config: Config, s: State, step: Step)
    requires step.Subscribe? || step.Unsubscribe? || step.Disconnect?
    ensures var t, id := Next(config, s, step), step.id;
      && OnlyClient(s, t, id) && (id !in s.clients ==> t == s)
      && (id in s.clients ==>
            && id in t.clients && t.batches == s.batches && t.timers == s.timers
            && var c, c' := s.clients[id], t.clients[id];
               && (step.Subscribe? ==>
                     && c' == c.(subscriptions := c'.subscriptions)
                     && c'.subscriptions == c.subscriptions + {step.workflowId})
               && (step.Unsubscribe? ==> c' == c.(subscriptions := {}))
               && (step.Disconnect? ==> c' == c.(open := false)))
  {
  }

  /** A flush sends what is queued as one message, in order, and empties the batch. */
  lemma FlushEffect(config: Config, s: State, id: string)
    ensures var t := Next(config, s, Flush(id));
      && OnlyClient(s, t, id) && t.timers == s.timers && t.clients.Keys == s.clients.Keys
      && t.batches.Keys == s.batches.Keys
      && (id in s.clients && id in s.batches && s.batches[id] != [] ==>
            && t.batches[id] == []
            && t.clients[id] == s.clients[id].(wire := t.clients[id].wire)
            && (!s.clients[id].open ==> t.clients[id] == s.clients[id])
            && (s.clients[id].open ==> SentTogether(s.clients[id].wire, t.clients[id].wire, s.batches[id])))
      && (id !in s.clients || id !in s.batches || s.batches[id] == [] ==> t == s)
  {
    if id in s.batches {
      PayloadsInOrder(s.batches[id]);
    }
  }

  ghost predicate SentTogether(before: seq<Wire>, after: seq<Wire>, batch: seq<Queued>) {
    exists payloads :: SentAs(batch, payloads) && after == before + [Batch(payloads)]
  }

  ghost predicate SentAs(batch: seq<Queued>, payloads: seq<string>) {
    |payloads| == |batch| && forall i :: 0 <= i < |batch| ==> payloads[i] == batch[i].payload
  }

  lemma {:induction false} PayloadsInOrder(batch: seq<Queued>)
    ensures SentAs(batch, Payloads(batch))
  {
    if batch != [] {
      PayloadsInOrder(batch[..|batch| - 1]);
    }
  }
}
