/** The session manager: session objects, the debounce queue and the session files. Every
    method performs one operation of the model (packages/gateway/src/sessions.ts). */
module Sessions {
  import opened Basics
  import opened SessionModel
  import opened SessionEffects

  class Session {
    var data: SessionData
    var updatedAt: int
    var clients: set<string>
    var eventBuffer: seq<string>

    constructor (data: SessionData, updatedAt: int)
      ensures Value() == SessionValue(data, updatedAt, {}, [])
    {
      this.data, this.updatedAt, clients, eventBuffer := data, updatedAt, {}, [];
    }

    ghost function Value(): SessionValue
      reads this
    {
      SessionValue(data, updatedAt, clients, eventBuffer)
    }

    method Store(data: SessionData, now: int)
      modifies this`data, this`updatedAt
      ensures Value() == WithData(old(Value()), data, now)
    {
      this.data, updatedAt := data, now;
    }
  }

  class SessionManager {
    /** JSON files are written (modes 'dual' and 'json'). */
    const json: bool
    var sessions: map<string, Session>
    /** Sessions with a debounce timer. */
    var writeQueue: set<string>
    /** Orchestration events since the last scheduled flush. */
    var orchEventCount: map<string, nat>
    /** The session files. */
    var disk: map<string, File>

    /** No two sessions share an object. */
    ghost predicate Valid()
      reads this
    {
      forall a, b :: a in sessions && b in sessions && a != b ==> sessions[a] != sessions[b]
    }

    ghost function Values(): map<string, SessionValue>
      reads this, sessions.Values
    {
      map id | id in sessions :: sessions[id].Value()
    }

    ghost function Now(): Store
      reads this, sessions.Values
    {
      Store(json, Values(), writeQueue, orchEventCount, disk)
    }

    /** All that is left to check after an operation: its own entry, and that no other entry
        changed. */
    twostate lemma Performed(op: Op)
      requires old(Valid()) && Valid()
      requires At(Now(), op.id) == Step(json, |old(sessions)| < MAX_SESSIONS, old(At(Now(), op.id)), op)
      requires forall k :: k != op.id ==> At(Now(), k) == old(At(Now(), k))
      ensures Now() == Next(old(Now()), op)
    {
      assert |old(Values())| == |old(sessions)| by {
        assert old(Values()).Keys == old(sessions).Keys;
      }
      EntryChangeIsNext(old(Now()), Now(), op);
    }

    method SchedulePersist(id: string)
      modifies this`writeQueue
      ensures writeQueue == old(writeQueue) + {id}
    {
      writeQueue := writeQueue + {id};
    }

    method PersistToDisk(id: string)
      modifies this`disk
      ensures disk ==
        if id in sessions then old(disk)[id := File(sessions[id].data, sessions[id].updatedAt)] else old(disk)
    {
      if id !in sessions { return; }
      disk := disk[id := File(sessions[id].data, sessions[id].updatedAt)];
    }

    /** Stores edited contents and schedules their write; some mutators look at the mode first. */
    method Save(id: string, data: SessionData, now: int, always: bool)
      requires Valid() && id in sessions
      modifies this`writeQueue, sessions[id]
      ensures At(Now(), id) == old(At(Now(), id)).(
        session := Some(WithData(old(sessions[id].Value()), data, now)),
        pending := old(id in writeQueue) || always || json)
      ensures forall k :: k != id ==> At(Now(), k) == old(At(Now(), k))
    {
      sessions[id].Store(data, now);
      if always || json {
        SchedulePersist(id);
      }
    }

    /** A message with a known id is merged into its entry instead of being pushed again. */
    method AddMessage(id: string, message: Message, now: int)
      requires Valid()
      modifies this`writeQueue, sessions.Values
      ensures Now() == Next(old(Now()), Edit(id, Change.AddMessage(message), now))
      ensures forall k :: k in sessions && k != id ==> sessions[k].Value() == old(sessions[k].Value())
      ensures id in sessions ==> var d := old(sessions[id].data);
        sessions[id].Value()
          == WithData(old(sessions[id].Value()), d.(messages := UpsertMessage(d.messages, message)), now)
      ensures old(writeQueue) <= writeQueue <= old(writeQueue) + {id}
      ensures id in old(sessions) ==> Performs(old(sessions[id].data), sessions[id].data, Change.AddMessage(message))
    {
      if id in sessions {
        var d := sessions[id].data;
        var messages := d.messages;
        var existing := FindMessage(messages, message.id);
        if existing < |messages| {
          messages := messages[existing := Message(message.id, messages[existing].fields + message.fields)];
        } else {
          messages := Newest(messages + [message], MAX_MESSAGES);
        }
        Save(id, d.(messages := messages), now, false);
      }
      if id in sessions {
        EditPerforms(Change.AddMessage(message), old(sessions[id].data));
      }
      Performed(Edit(id, Change.AddMessage(message), now));
    }

    method RenameSession(id: string, name: string, now: int)
      requires Valid()
      modifies this`writeQueue, sessions.Values
      ensures Now() == Next(old(Now()), Edit(id, Change.Rename(name), now))
    {
      if id in sessions {
        var d := sessions[id].data;
        Save(id, d.(name := name), now, true);
      }
      Performed(Edit(id, Change.Rename(name), now));
    }

    method AddMemoryEvent(id: string, event: string, now: int)
      requires Valid()
      modifies this`writeQueue, sessions.Values
      ensures Now() == Next(old(Now()), Edit(id, Change.AddMemoryEvent(event), now))
    {
      if id in sessions {
        var d := sessions[id].data;
        Save(id, d.(memoryEvents := Newest(d.memoryEvents + [event], MAX_MEMORY_EVENTS)), now, false);
      }
      Performed(Edit(id, Change.AddMemoryEvent(event), now));
    }

    method AddRunSummary(id: string, run: string, now: int)
      requires Valid()
      modifies this`writeQueue, sessions.Values
      ensures Now() == Next(old(Now()), Edit(id, Change.AddRunSummary(run), now))
    {
      if id in sessions {
        var d := sessions[id].data;
        Save(id, d.(runHistory := Newest(d.runHistory + [run], MAX_RUN_HISTORY)), now, false);
      }
      Performed(Edit(id, Change.AddRunSummary(run), now));
    }

    method AddActiveWorkflow(id: string, workflow: string, now: int)
      requires Valid()
      modifies this`writeQueue, sessions.Values
      ensures Now() == Next(old(Now()), Edit(id, Change.AddActiveWorkflow(workflow), now))
    {
      if id in sessions {
        var d := sessions[id].data;
        Save(id, d.(activeWorkflows := d.activeWorkflows + {workflow}), now, true);
      }
      Performed(Edit(id, Change.AddActiveWorkflow(workflow), now));
    }

    method RemoveActiveWorkflow(id: string, workflow: string, now: int)
      requires Valid()
      modifies this`writeQueue, sessions.Values
      ensures Now() == Next(old(Now()), Edit(id, Change.RemoveActiveWorkflow(workflow), now))
    {
      if id in sessions {
        var d := sessions[id].data;
        Save(id, d.(activeWorkflows := d.activeWorkflows - {workflow}), now, true);
      }
      Performed(Edit(id, Change.RemoveActiveWorkflow(workflow), now));
    }

    method UpdateAgentMode(id: string, mode: Mode, now: int)
      requires Valid()
      modifies this`writeQueue, sessions.Values
      ensures Now() == Next(old(Now()), Edit(id, Change.UpdateAgentMode(mode), now))
    {
      if id in sessions && sessions[id].data.agentMode != Some(mode) {
        var d := sessions[id].data;
        Save(id, d.(agentMode := Some(mode)), now, true);
      }
      Performed(Edit(id, Change.UpdateAgentMode(mode), now));
    }

    method UpsertInlineDAG(id: string, dagId: string, dag: Dag, now: int)
      requires Valid()
      modifies this`writeQueue, sessions.Values
      ensures Now() == Next(old(Now()), Edit(id, Change.UpsertInlineDAG(dagId, dag), now))
      ensures id in old(sessions) ==>
        Performs(old(sessions[id].data), sessions[id].data, Change.UpsertInlineDAG(dagId, dag))
    {
      if id in sessions {
        var d := sessions[id].data;
        var merged := if dagId in d.inlineDAGs then MergeDag(d.inlineDAGs[dagId], dag) else dag;
        Save(id, d.(inlineDAGs := d.inlineDAGs[dagId := merged]), now, true);
      }
      if id in sessions {
        EditPerforms(Change.UpsertInlineDAG(dagId, dag), old(sessions[id].data));
      }
      Performed(Edit(id, Change.UpsertInlineDAG(dagId, dag), now));
    }

    method UpdateInlineDAGNode(id: string, dagId: string, nodeId: string, update: NodeUpdate, now: int)
      requires Valid()
      modifies this`writeQueue, sessions.Values
      ensures Now() == Next(old(Now()), Edit(id, Change.UpdateInlineDAGNode(dagId, nodeId, update), now))
      ensures id in old(sessions) ==>
        Performs(old(sessions[id].data), sessions[id].data, Change.UpdateInlineDAGNode(dagId, nodeId, update))
    {
      if id in sessions && dagId in sessions[id].data.inlineDAGs {
        var d := sessions[id].data;
        var dag := UpdateDagNode(d.inlineDAGs[dagId], nodeId, update);
        Save(id, d.(inlineDAGs := d.inlineDAGs[dagId := dag]), now, true);
      }
      if id in sessions {
        EditPerforms(Change.UpdateInlineDAGNode(dagId, nodeId, update), old(sessions[id].data));
      }
      Performed(Edit(id, Change.UpdateInlineDAGNode(dagId, nodeId, update), now));
    }

    method SetCodingSession(id: string, state: Option<string>, now: int)
      requires Valid()
      modifies this`writeQueue, sessions.Values
      ensures Now() == Next(old(Now()), Edit(id, Change.SetCodingSession(state), now))
    {
      if id in sessions {
        var d := sessions[id].data;
        Save(id, d.(codingSession := state), now, true);
      }
      Performed(Edit(id, Change.SetCodingSession(state), now));
    }

    method AccumulateSessionTotals(id: string, delta: Totals, now: int)
      requires Valid()
      modifies this`writeQueue, sessions.Values
      ensures Now() == Next(old(Now()), Edit(id, Change.AccumulateTotals(delta), now))
      ensures id in old(sessions) ==>
        Performs(old(sessions[id].data), sessions[id].data, Change.AccumulateTotals(delta))
    {
      if id in sessions {
        var d := sessions[id].data;
        Save(id, d.(totals := AddTotals(d.totals, delta)), now, false);
      }
      if id in sessions {
        EditPerforms(Change.AccumulateTotals(delta), old(sessions[id].data));
      }
      Performed(Edit(id, Change.AccumulateTotals(delta), now));
    }

    method SetActivePlan(id: string, plan: Option<string>, now: int)
      requires Valid()
      modifies this`writeQueue, sessions.Values
      ensures Now() == Next(old(Now()), Edit(id, Change.SetActivePlan(plan), now))
    {
      if id in sessions {
        var d := sessions[id].data;
        Save(id, d.(activePlan := plan), now, true);
      }
      Performed(Edit(id, Change.SetActivePlan(plan), now));
    }

    method SetPendingConfirmation(id: string, confirmation: Option<string>, now: int)
      requires Valid()
      modifies this`writeQueue, sessions.Values
      ensures Now() == Next(old(Now()), Edit(id, Change.SetPendingConfirmation(confirmation), now))
    {
      if id in sessions {
        var d := sessions[id].data;
        Save(id, d.(pendingConfirmation := confirmation), now, true);
      }
      Performed(Edit(id, Change.SetPendingConfirmation(confirmation), now));
    }

    method SetPendingGate(id: string, gateId: string, gate: string, now: int)
      requires Valid()
      modifies this`writeQueue, sessions.Values
      ensures Now() == Next(old(Now()), Edit(id, Change.SetPendingGate(gateId, gate), now))
    {
      if id in sessions {
        var d := sessions[id].data;
        Save(id, d.(pendingGates := d.pendingGates[gateId := gate]), now, true);
      }
      Performed(Edit(id, Change.SetPendingGate(gateId, gate), now));
    }

    method RemovePendingGate(id: string, gateId: string, now: int)
      requires Valid()
      modifies this`writeQueue, sessions.Values
      ensures Now() == Next(old(Now()), Edit(id, Change.RemovePendingGate(gateId), now))
    {
      if id in sessions && gateId in sessions[id].data.pendingGates {
        var d := sessions[id].data;
        Save(id, d.(pendingGates := d.pendingGates - {gateId}), now, true);
      }
      Performed(Edit(id, Change.RemovePendingGate(gateId), now));
    }

    method SetPendingIntervention(id: string, interventionId: string, intervention: string, now: int)
      requires Valid()
      modifies this`writeQueue, sessions.Values
      ensures Now() == Next(old(Now()), Edit(id, Change.SetPendingIntervention(interventionId, intervention), now))
    {
      if id in sessions {
        var d := sessions[id].data;
        Save(id, d.(pendingInterventions := d.pendingInterventions[interventionId := intervention]), now, true);
      }
      Performed(Edit(id, Change.SetPendingIntervention(interventionId, intervention), now));
    }

    method RemovePendingIntervention(id: string, interventionId: string, now: int)
      requires Valid()
      modifies this`writeQueue, sessions.Values
      ensures Now() == Next(old(Now()), Edit(id, Change.RemovePendingIntervention(interventionId), now))
    {
      if id in sessions && interventionId in sessions[id].data.pendingInterventions {
        var d := sessions[id].data;
        Save(id, d.(pendingInterventions := d.pendingInterventions - {interventionId}), now, true);
      }
      Performed(Edit(id, Change.RemovePendingIntervention(interventionId), now));
    }

    method ResetSession(id: string, now: int)
      requires Valid()
      modifies this`writeQueue, sessions.Values
      ensures Now() == Next(old(Now()), Edit(id, Change.Reset, now))
      ensures id in old(sessions) ==> Performs(old(sessions[id].data), sessions[id].data, Change.Reset)
    {
      if id in sessions {
        var d := sessions[id].data;
        sessions[id].Store(d.(messages := [], memoryEvents := [], activeWorkflows := {}, inlineDAGs := map[],
                              orchestrationEvents := [], codingSession := None, totals := NO_TOTALS,
                              activePlan := None, pendingConfirmation := None, pendingGates := map[],
                              pendingInterventions := map[]), now);
        sessions[id].eventBuffer := [];
        SchedulePersist(id);
      }
      if id in sessions {
        EditPerforms(Change.Reset, old(sessions[id].data));
      }
      Performed(Edit(id, Change.Reset, now));
    }

    /** Counts an unflushed event; the fiftieth schedules a write and starts over. */
    method CountEvent(id: string)
      modifies this`writeQueue, this`orchEventCount
      ensures var count := (if id in old(orchEventCount) then old(orchEventCount)[id] else 0) + 1;
        if count >= ORCH_EVENT_PERSIST_INTERVAL
        then orchEventCount == old(orchEventCount)[id := 0] && writeQueue == old(writeQueue) + {id}
        else orchEventCount == old(orchEventCount)[id := count] && writeQueue == old(writeQueue)
    {
      var count := (if id in orchEventCount then orchEventCount[id] else 0) + 1;
      if count >= ORCH_EVENT_PERSIST_INTERVAL {
        orchEventCount := orchEventCount[id := 0];
        SchedulePersist(id);
      } else {
        orchEventCount := orchEventCount[id := count];
      }
    }

    /** Throttled: only every fiftieth event schedules a write. */
    method AddOrchestrationEvent(id: string, event: string, now: int)
      requires Valid()
      modifies this`writeQueue, this`orchEventCount, sessions.Values
      ensures Now() == Next(old(Now()), Op.AddOrchestrationEvent(id, event, now))
    {
      if id in sessions {
        var d := sessions[id].data;
        var events := Newest(d.orchestrationEvents + [event], MAX_ORCHESTRATION_EVENTS);
        sessions[id].Store(d.(orchestrationEvents := events), now);
        CountEvent(id);
      }
      Performed(Op.AddOrchestrationEvent(id, event, now));
    }

    /** Stores edited contents, resets the event counter, cancels the pending write and writes. */
    method WriteThrough(id: string, data: SessionData, now: int)
      requires Valid() && id in sessions
      modifies this`writeQueue, this`orchEventCount, this`disk, sessions[id]
      ensures var v := WithData(old(sessions[id].Value()), data, now);
        At(Now(), id) == Entry(Some(v), false, Some(0), Some(File(data, now)))
      ensures forall k :: k != id ==> At(Now(), k) == old(At(Now(), k))
    {
      sessions[id].Store(data, now);
      orchEventCount := orchEventCount[id := 0];
      writeQueue := writeQueue - {id};
      PersistToDisk(id);
    }

    /** Terminal state of a run: written at once, past the debounce. */
    method CompleteInlineDAG(id: string, dagId: string, completion: Completion, now: int)
      requires Valid()
      modifies this`writeQueue, this`orchEventCount, this`disk, sessions.Values
      ensures Now() == Next(old(Now()), Op.CompleteInlineDAG(id, dagId, completion, now))
      ensures id in old(sessions) && dagId in old(sessions[id].data.inlineDAGs) ==>
        var d, d' := old(sessions[id].data), sessions[id].data;
        && OnlyDag(d, d', dagId) && Completes(d.inlineDAGs[dagId], d'.inlineDAGs[dagId], completion)
        && id in disk && disk[id].data == d' && id !in writeQueue
    {
      if id in sessions && dagId in sessions[id].data.inlineDAGs {
        var d := sessions[id].data;
        CompletionIsPerformed(d.inlineDAGs[dagId], completion);
        WriteThrough(
          id, d.(inlineDAGs := d.inlineDAGs[dagId := CompletedDag(d.inlineDAGs[dagId], completion)]), now);
      }
      Performed(Op.CompleteInlineDAG(id, dagId, completion, now));
    }

    method AddClient(id: string, client: string, now: int)
      requires Valid()
      modifies sessions.Values
      ensures Now() == Next(old(Now()), Op.AddClient(id, client, now))
    {
      if id in sessions {
        sessions[id].clients := sessions[id].clients + {client};
        sessions[id].updatedAt := now;
      }
      Performed(Op.AddClient(id, client, now));
    }

    method RemoveClient(id: string, client: string, now: int)
      requires Valid()
      modifies sessions.Values
      ensures Now() == Next(old(Now()), Op.RemoveClient(id, client, now))
    {
      if id in sessions {
        sessions[id].clients := sessions[id].clients - {client};
        sessions[id].updatedAt := now;
      }
      Performed(Op.RemoveClient(id, client, now));
    }

    method BufferEvent(id: string, event: string)
      requires Valid()
      modifies sessions.Values
      ensures Now() == Next(old(Now()), Op.BufferEvent(id, event))
    {
      if id in sessions {
        sessions[id].eventBuffer := Newest(sessions[id].eventBuffer + [event], MAX_EVENT_BUFFER);
      }
      Performed(Op.BufferEvent(id, event));
    }

    method DrainEventBuffer(id: string) returns (events: seq<string>)
      requires Valid()
      modifies sessions.Values
      ensures Now() == Next(old(Now()), Op.DrainEventBuffer(id))
      ensures events == if id in sessions then old(sessions[id].eventBuffer) else []
    {
      events := [];
      if id in sessions {
        events := sessions[id].eventBuffer;
        sessions[id].eventBuffer := [];
      }
      Performed(Op.DrainEventBuffer(id));
    }

    /** `id` is the random identifier of the new session. */
    method CreateSession(id: string, name: string, now: int) returns (created: bool)
      requires Valid() && id !in sessions
      modifies this`sessions, this`writeQueue
      ensures Valid() && fresh(sessions.Values - old(sessions.Values))
      ensures created <==> |old(sessions)| < MAX_SESSIONS
      ensures Now() == Next(old(Now()), Op.CreateSession(id, name, now))
    {
      created := |sessions| < MAX_SESSIONS;
      if created {
        InsertSession(id, name, now);
      }
      Performed(Op.CreateSession(id, name, now));
    }

    method InsertSession(id: string, name: string, now: int)
      requires Valid() && id !in sessions
      modifies this`sessions, this`writeQueue
      ensures Valid() && fresh(sessions.Values - old(sessions.Values))
      ensures At(Now(), id)
        == old(At(Now(), id)).(session := Some(SessionValue(NewData(name), now, {}, [])), pending := true)
      ensures forall k :: k != id ==> At(Now(), k) == old(At(Now(), k))
    {
      var session := new Session(NewData(name), now);
      sessions := sessions[id := session];
      SchedulePersist(id);
    }

    method DeleteSession(id: string)
      requires Valid()
      modifies this`sessions, this`disk
      ensures Valid() && Now() == Next(old(Now()), Op.DeleteSession(id))
    {
      if id != DEFAULT_SESSION_ID {
        sessions := sessions - {id};
        disk := disk - {id};
      }
      Performed(Op.DeleteSession(id));
    }

    /** The debounce timer of a session fires. */
    method FireTimer(id: string)
      requires Valid()
      modifies this`writeQueue, this`disk
      ensures Now() == Next(old(Now()), TimerFires(id))
    {
      if id in writeQueue {
        writeQueue := writeQueue - {id};
        PersistToDisk(id);
      }
      Performed(TimerFires(id));
    }

    ghost function FileOf(id: string): Option<File>
      reads this, sessions.Values
    {
      if id in sessions then Some(File(sessions[id].data, sessions[id].updatedAt)) else None
    }

    /** Writes the sessions of a set. */
    method PersistAll(ids: set<string>)
      requires Valid()
      modifies this`disk
      ensures forall k :: Lookup(disk, k) == if k in ids && k in sessions then FileOf(k) else old(Lookup(disk, k))
    {
      var rest := ids;
      while rest != {}
        invariant rest <= ids
        invariant forall k :: Lookup(disk, k) == if k in ids - rest && k in sessions then FileOf(k)
          else old(Lookup(disk, k))
        decreases rest
      {
        var id :| id in rest;
        rest := rest - {id};
        PersistToDisk(id);
      }
    }

    /** Writes what is pending, then what has events counted. */
    method Shutdown()
      requires Valid()
      modifies this`writeQueue, this`orchEventCount, this`disk
      ensures Now() == Flushed(old(Now()))
    {
      PersistAll(writeQueue);
      writeQueue := {};
      PersistAll(set id | id in orchEventCount && orchEventCount[id] > 0);
      orchEventCount := map[];
      forall k
        ensures At(Now(), k) == At(Flushed(old(Now())), k)
      {
        assert k in Due(old(Now())) <==>
          k in sessions && (k in old(writeQueue) || (k in old(orchEventCount) && old(orchEventCount)[k] > 0));
      }
      EntriesDetermineStore(Now(), Flushed(old(Now())));
    }

    /* ------------------------------- startup ------------------------------- */

    /** Loads every session file, sweeps runs that the restart interrupted, and makes sure the
        default session exists. */
    constructor Load(disk: map<string, File>, json: bool, now: int)
      ensures Valid() && this.json == json && Restarted(disk, Now())
    {
      this.json, this.disk := json, disk;
      sessions, writeQueue, orchEventCount := map[], {}, map[];
      new;
      StartUp(now);
    }

    method StartUp(now: int)
      requires sessions == map[] && writeQueue == {} && orchEventCount == map[]
      modifies this`sessions, this`writeQueue
      ensures Valid() && Restarted(disk, Now())
    {
      LoadAllFromDisk(now);
      ghost var loaded := Values();
      EnsureDefaultSession(now);
      RestartWithDefault(disk, loaded, now, Now());
    }

    method ReadFiles()
      requires sessions == map[]
      modifies this`sessions
      ensures Valid() && sessions.Keys == disk.Keys && forall id :: id in sessions ==> fresh(sessions[id])
      ensures forall id :: id in disk ==> sessions[id].Value() == Loaded(disk[id])
    {
      var rest := disk.Keys;
      while rest != {}
        invariant rest <= disk.Keys && sessions.Keys == disk.Keys - rest
        invariant Valid() && forall id :: id in sessions ==> fresh(sessions[id])
        invariant forall id :: id in sessions ==> sessions[id].Value() == Loaded(disk[id])
        decreases rest
      {
        var id :| id in rest;
        rest := rest - {id};
        var session := new Session(disk[id].data, disk[id].updatedAt);
        sessions := sessions[id := session];
      }
    }

    /** Marks one interrupted run as an error, with a message, and schedules the write. */
    method SweepRun(id: string, dagId: string, now: int)
      requires Valid() && id in sessions && dagId in sessions[id].data.inlineDAGs
      modifies this`writeQueue, sessions.Values
      ensures var before, after := old(sessions[id].data), sessions[id].data;
        after == before.(inlineDAGs := before.inlineDAGs[dagId := SweptDag(before.inlineDAGs[dagId])],
                          messages := UpsertMessage(before.messages, NoteMessage(Note(dagId, Radix36(Positive(now))))))
      ensures sessions[id].clients == old(sessions[id].clients)
        && sessions[id].eventBuffer == old(sessions[id].eventBuffer)
      ensures writeQueue == old(writeQueue) + {id}
      ensures forall k :: k in sessions && k != id ==> sessions[k].Value() == old(sessions[k].Value())
    {
      var session := sessions[id];
      var d := session.data;
      session.data := d.(inlineDAGs := d.inlineDAGs[dagId := SweptDag(d.inlineDAGs[dagId])]);
      AddMessage(id, NoteMessage(Note(dagId, Radix36(Positive(now)))), now);
      SchedulePersist(id);
    }

    /** All runs but those in `rest` are swept and announced. */
    ghost predicate PartWay(id: string, rest: set<string>, before: SessionValue, notes: seq<Note>)
      reads this, sessions.Values
    {
      && id in sessions && rest <= before.data.inlineDAGs.Keys
      && sessions[id].data == before.data.(inlineDAGs := PartlySwept(before.data.inlineDAGs, rest),
                                           messages := WithNotes(before.data.messages, notes))
      && sessions[id].clients == before.clients && sessions[id].eventBuffer == before.eventBuffer
      && NotedOnce(notes)
      && (forall k :: Mentions(notes, k) <==>
            k in before.data.inlineDAGs && k !in rest && Orphaned(before.data.inlineDAGs[k]))
      && (notes == [] ==> sessions[id].updatedAt == before.updatedAt)
    }

    method SweepNextRun(id: string, dagId: string, ghost rest: set<string>, ghost before: SessionValue,
                        ghost notes: seq<Note>, now: int)
      returns (ghost more: seq<Note>)
      requires Valid() && PartWay(id, rest, before, notes) && dagId in rest
      modifies this`writeQueue, sessions.Values
      ensures PartWay(id, rest - {dagId}, before, more) && |notes| <= |more|
      ensures writeQueue == old(writeQueue) + if |notes| < |more| then {id} else {}
      ensures forall k :: k in sessions && k != id ==> sessions[k].Value() == old(sessions[k].Value())
    {
      more := notes;
      PartlySweptOneMore(before.data.inlineDAGs, rest, dagId);
      if Orphaned(sessions[id].data.inlineDAGs[dagId]) {
        SweepRun(id, dagId, now);
        RadixHasNoDash(Positive(now));
        more := NotedOneMore(notes, Note(dagId, Radix36(Positive(now))), before.data.messages);
      }
    }

    /** Marks the orphaned runs of one session. */
    method SweepSession(id: string, now: int)
      requires Valid() && id in sessions
      modifies this`writeQueue, sessions.Values
      ensures SweptValue(old(sessions[id].Value()), sessions[id].Value())
      ensures writeQueue == old(writeQueue) + if HasOrphans(old(sessions[id].data)) then {id} else {}
      ensures forall k :: k in sessions && k != id ==> sessions[k].Value() == old(sessions[k].Value())
    {
      ghost var before := sessions[id].Value();
      var rest := sessions[id].data.inlineDAGs.Keys;
      ghost var notes: seq<Note> := [];
      while rest != {}
        invariant PartWay(id, rest, before, notes)
        invariant writeQueue == old(writeQueue) + if |notes| > 0 then {id} else {}
        invariant forall k :: k in sessions && k != id ==> sessions[k].Value() == old(sessions[k].Value())
        decreases rest
      {
        var dagId :| dagId in rest;
        notes := SweepNextRun(id, dagId, rest, before, notes, now);
        rest := rest - {dagId};
      }
      assert PartlySwept(before.data.inlineDAGs, {}) == SweptDags(before.data.inlineDAGs);
      SweepIsAnnounced(before.data, sessions[id].data, notes);
    }

    /** Sessions in `rest` are as they were, the others are swept. */
    ghost predicate SweptOutside(rest: set<string>, before: map<string, SessionValue>)
      reads this, sessions.Values
    {
      && before.Keys == sessions.Keys
      && forall k :: k in sessions ==>
           if k in rest then sessions[k].Value() == before[k] else SweptValue(before[k], sessions[k].Value())
    }

    method SweepNext(id: string, ghost rest: set<string>, ghost before: map<string, SessionValue>, now: int)
      requires Valid() && id in rest && id in sessions && SweptOutside(rest, before)
      modifies this`writeQueue, sessions.Values
      ensures SweptOutside(rest - {id}, before)
      ensures writeQueue == old(writeQueue) + if HasOrphans(before[id].data) then {id} else {}
    {
      SweepSession(id, now);
    }

    method SweepOrphanedRuns(now: int)
      requires Valid()
      modifies this`writeQueue, sessions.Values
      ensures SweptOutside({}, old(Values()))
      ensures writeQueue == old(writeQueue) + OrphansAmong(old(Values()), sessions.Keys)
    {
      var rest := sessions.Keys;
      ghost var before := Values();
      while rest != {}
        invariant rest <= sessions.Keys
        invariant SweptOutside(rest, before)
        invariant writeQueue == old(writeQueue) + OrphansAmong(before, sessions.Keys - rest)
        decreases rest
      {
        var id :| id in rest;
        SweepNext(id, rest, before, now);
        OneMoreSwept(before, sessions.Keys, rest, id);
        rest := rest - {id};
      }
    }

    method LoadAllFromDisk(now: int)
      requires sessions == map[]
      modifies this`sessions, this`writeQueue
      ensures Valid() && sessions.Keys == disk.Keys && forall id :: id in sessions ==> fresh(sessions[id])
      ensures forall id :: id in disk ==> SweptValue(Loaded(disk[id]), Values()[id])
      ensures writeQueue == old(writeQueue) + OrphanFiles(disk)
    {
      ReadFiles();
      assert Values() == map id | id in disk :: Loaded(disk[id]);
      assert OrphansAmong(Values(), disk.Keys) == OrphanFiles(disk);
      SweepOrphanedRuns(now);
    }

    method EnsureDefaultSession(now: int)
      requires Valid()
      modifies this`sessions, this`writeQueue
      ensures Valid() && Values() == WithDefault(old(Values()), now)
      ensures writeQueue == old(writeQueue) + if DEFAULT_SESSION_ID in old(sessions) then {} else {DEFAULT_SESSION_ID}
    {
      if DEFAULT_SESSION_ID in sessions { return; }
      var session := new Session(NewData("Default"), now);
      sessions := sessions[DEFAULT_SESSION_ID := session];
      SchedulePersist(DEFAULT_SESSION_ID);
    }
  }

  ghost function PartlySwept(dags: map<string, Dag>, rest: set<string>): map<string, Dag> {
    map k | k in dags :: if k in rest then dags[k] else SweptDag(dags[k])
  }

  lemma PartlySweptOneMore(dags: map<string, Dag>, rest: set<string>, k: string)
    requires k in rest && k in dags
    ensures PartlySwept(dags, rest)[k] == dags[k]
    ensures PartlySwept(dags, rest - {k}) == PartlySwept(dags, rest)[k := SweptDag(dags[k])]
    ensures !Orphaned(dags[k]) ==> PartlySwept(dags, rest - {k}) == PartlySwept(dags, rest)
  {
  }
}
