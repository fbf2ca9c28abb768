/** What each operation of the session manager writes, field by field
    (packages/gateway/src/sessions.ts). */
module SessionEffects {
  import opened Basics
  import opened SessionModel

  /* ------------------------------- small relations ------------------------------- */

  /** `x` is appended, and the oldest give way beyond `cap`. */
  ghost predicate CappedAppend<T>(before: seq<T>, after: seq<T>, x: T, cap: nat) {
    && |after| == (if |before| < cap then |before| + 1 else cap)
    && after == (before + [x])[|before| + 1 - |after|..]
  }

  ghost predicate OnlyKey<V>(before: map<string, V>, after: map<string, V>, key: string) {
    forall k :: k != key ==> (k in after <==> k in before) && (k in before ==> after[k] == before[k])
  }

  /** A message with a known id keeps its place and its other fields; a new one goes to the end. */
  ghost predicate MessageStored(before: seq<Message>, after: seq<Message>, m: Message) {
    if exists i :: 0 <= i < |before| && before[i].id == m.id then
      exists i :: 0 <= i < |before| && FirstWith(before, m.id, i) && MergedAt(before, after, m, i)
    else CappedAppend(before, after, m, 1000)
  }

  ghost predicate FirstWith(messages: seq<Message>, id: string, i: nat)
    requires i < |messages|
  {
    messages[i].id == id && forall j :: 0 <= j < i ==> messages[j].id != id
  }

  ghost predicate MergedAt(before: seq<Message>, after: seq<Message>, m: Message, i: nat)
    requires i < |before|
  {
    && |after| == |before| && (forall j :: 0 <= j < |before| && j != i ==> after[j] == before[j])
    && after[i].id == m.id && FieldsMerged(before[i].fields, after[i].fields, m.fields)
  }

  /** Fields that are given win, the others stay. */
  ghost predicate FieldsMerged(before: map<string, string>, after: map<string, string>, given: map<string, string>) {
    && (forall k :: k in after <==> k in before || k in given)
    && (forall k :: k in given ==> after[k] == given[k])
    && (forall k :: k in before && k !in given ==> after[k] == before[k])
  }

  ghost predicate IfGiven<T>(before: T, after: T, given: Option<T>) {
    (given.Some? ==> after == given.value) && (given.None? ==> after == before)
  }

  ghost predicate Optional<T>(before: Option<T>, after: Option<T>, given: Option<T>) {
    (given.Some? ==> after == given) && (given.None? ==> after == before)
  }

  /** A stub does not take away what was known of the run. */
  ghost predicate StubMerged(before: Dag, after: Dag, given: Dag) {
    && after.status == given.status && after.completedCount == given.completedCount
    && after.totalCount == given.totalCount
    && (given.summary != "" ==> after.summary == given.summary)
    && (given.summary == "" ==> after.summary == before.summary)
    && (given.nodes != [] ==> after.nodes == given.nodes) && (given.nodes == [] ==> after.nodes == before.nodes)
    && Optional(before.isDirect, after.isDirect, given.isDirect) && Optional(before.result, after.result, given.result)
    && Optional(before.error, after.error, given.error) && Optional(before.stats, after.stats, given.stats)
    && Optional(before.supersededBy, after.supersededBy, given.supersededBy)
  }

  ghost predicate Settled(node: DagNode) {
    node.status == Done || node.status == NodeError || node.status == NodeSkipped || node.status == Cancelled
  }

  ghost function SettledAt(nodes: seq<DagNode>): set<int> { set i | 0 <= i < |nodes| && Settled(nodes[i]) }

  /** The nodes with this id take the update, and the settled ones are counted anew. */
  ghost predicate NodeUpdated(before: Dag, after: Dag, nodeId: string, update: NodeUpdate) {
    && after == before.(nodes := after.nodes, completedCount := after.completedCount, status := after.status)
    && |after.nodes| == |before.nodes| && after.completedCount == |SettledAt(after.nodes)|
    && (before.status == Dispatched ==> after.status == Running)
    && (before.status != Dispatched ==> after.status == before.status)
    && forall i :: 0 <= i < |before.nodes| ==>
         var a, b := before.nodes[i], after.nodes[i];
         if a.id != nodeId then b == a
         else IfGiven(a.id, b.id, update.id) && IfGiven(a.status, b.status, update.status)
              && FieldsMerged(a.fields, b.fields, update.fields)
  }

  /** How a run ends: superseded before failed, failed before stopped, stopped before complete. */
  ghost predicate Completes(before: Dag, after: Dag, c: Completion) {
    && after == before.(status := after.status, supersededBy := after.supersededBy, result := c.result,
                        error := c.error, completedCount := before.totalCount, stats := after.stats)
    && (Given(c.supersededBy) ==> after.status == Superseded && after.supersededBy == c.supersededBy)
    && (!Given(c.supersededBy) ==> after.supersededBy == before.supersededBy)
    && (!Given(c.supersededBy) && Given(c.error) ==> after.status == Errored)
    && (!Given(c.supersededBy) && !Given(c.error) && c.stopped ==> after.status == Stopped)
    && (!Given(c.supersededBy) && !Given(c.error) && !c.stopped ==> after.status == Complete)
    && Optional(before.stats, after.stats, c.stats)
  }

  /* ------------------------------- edits ------------------------------- */

  ghost predicate OnlyDag(d: SessionData, d': SessionData, dagId: string) {
    && d' == d.(inlineDAGs := d'.inlineDAGs) && dagId in d'.inlineDAGs && OnlyKey(d.inlineDAGs, d'.inlineDAGs, dagId)
  }

  /** What an edit makes of the contents, including edits that find nothing to do. */
  ghost predicate Performs(d: SessionData, d': SessionData, change: Change) {
    match change
    case Rename(name) => d' == d.(name := name)
    case AddMessage(m) => d' == d.(messages := d'.messages) && MessageStored(d.messages, d'.messages, m)
    case AddMemoryEvent(e) =>
      d' == d.(memoryEvents := d'.memoryEvents) && CappedAppend(d.memoryEvents, d'.memoryEvents, e, 200)
    case AddRunSummary(r) => d' == d.(runHistory := d'.runHistory) && CappedAppend(d.runHistory, d'.runHistory, r, 100)
    case AddActiveWorkflow(w) =>
      d' == d.(activeWorkflows := d'.activeWorkflows)
      && forall x :: x in d'.activeWorkflows <==> x in d.activeWorkflows || x == w
    case RemoveActiveWorkflow(w) =>
      d' == d.(activeWorkflows := d'.activeWorkflows)
      && forall x :: x in d'.activeWorkflows <==> x in d.activeWorkflows && x != w
    case UpdateAgentMode(mode) => d' == d.(agentMode := Some(mode))
    case UpsertInlineDAG(id, dag) =>
      && OnlyDag(d, d', id)
      && (if id in d.inlineDAGs then StubMerged(d.inlineDAGs[id], d'.inlineDAGs[id], dag) else d'.inlineDAGs[id] == dag)
    case UpdateInlineDAGNode(id, nodeId, update) =>
      if id !in d.inlineDAGs then d' == d
      else OnlyDag(d, d', id) && NodeUpdated(d.inlineDAGs[id], d'.inlineDAGs[id], nodeId, update)
    case SetCodingSession(state) => d' == d.(codingSession := state)
    case AccumulateTotals(t) =>
      && d' == d.(totals := d'.totals) && d'.totals.messageCount == d.totals.messageCount + 1
      && d'.totals.inputTokens - d.totals.inputTokens == t.inputTokens
      && d'.totals.outputTokens - d.totals.outputTokens == t.outputTokens
      && d'.totals.cacheReadTokens - d.totals.cacheReadTokens == t.cacheReadTokens
      && d'.totals.costUsd - d.totals.costUsd == t.costUsd
    case SetActivePlan(plan) => d' == d.(activePlan := plan)
    case SetPendingConfirmation(confirmation) => d' == d.(pendingConfirmation := confirmation)
    case SetPendingGate(id, gate) =>
      && d' == d.(pendingGates := d'.pendingGates) && OnlyKey(d.pendingGates, d'.pendingGates, id)
      && id in d'.pendingGates && d'.pendingGates[id] == gate
    case RemovePendingGate(id) =>
      && d' == d.(pendingGates := d'.pendingGates) && OnlyKey(d.pendingGates, d'.pendingGates, id)
      && id !in d'.pendingGates
    case SetPendingIntervention(id, x) =>
      && d' == d.(pendingInterventions := d'.pendingInterventions)
      && OnlyKey(d.pendingInterventions, d'.pendingInterventions, id)
      && id in d'.pendingInterventions && d'.pendingInterventions[id] == x
    case RemovePendingIntervention(id) =>
      && d' == d.(pendingInterventions := d'.pendingInterventions)
      && OnlyKey(d.pendingInterventions, d'.pendingInterventions, id) && id !in d'.pendingInterventions
    case Reset => Blank(d') && d'.name == d.name && d'.runHistory == d.runHistory && d'.agentMode == d.agentMode
  }

  /** Nothing but name, run history and agent mode. */
  ghost predicate Blank(d: SessionData) {
    && d.messages == [] && d.activeWorkflows == {} && d.memoryEvents == [] && d.inlineDAGs == map[]
    && d.orchestrationEvents == [] && d.codingSession == None && d.activePlan == None && d.pendingConfirmation == None
    && d.pendingGates == map[] && d.pendingInterventions == map[]
    && d.totals.inputTokens == 0 && d.totals.outputTokens == 0 && d.totals.cacheReadTokens == 0
    && d.totals.costUsd == 0.0 && d.totals.messageCount == 0
  }

  lemma UpsertStores(messages: seq<Message>, m: Message)
    ensures MessageStored(messages, UpsertMessage(messages, m), m)
  {
    var i := FindMessage(messages, m.id);
    if i < |messages| {
      assert FirstWith(messages, m.id, i) && MergedAt(messages, UpsertMessage(messages, m), m, i);
    }
  }

  lemma {:induction false} NodesAreSet(nodes: seq<DagNode>, id: string, update: NodeUpdate)
    ensures var after := SetNode(nodes, id, update);
      |after| == |nodes|
      && forall i :: 0 <= i < |nodes| ==>
        after[i] == if nodes[i].id == id then MergeNode(nodes[i], update) else nodes[i]
  {
    if nodes != [] {
      NodesAreSet(nodes[1..], id, update);
    }
  }

  lemma {:induction false} SettledAreCounted(nodes: seq<DagNode>)
    ensures SettledNodes(nodes) == |SettledAt(nodes)|
  {
    if nodes == [] {
      assert SettledAt(nodes) == {};
    } else {
      var init, last := nodes[..|nodes| - 1], nodes[|nodes| - 1];
      SettledAreCounted(init);
      SettledOneMore(init, last);
      SettledAtOneMore(init, last);
      assert nodes == init + [last];
    }
  }

  lemma SettledAtOneMore(nodes: seq<DagNode>, last: DagNode)
    ensures |SettledAt(nodes + [last])| == |SettledAt(nodes)| + if Settled(last) then 1 else 0
  {
    assert SettledAt(nodes + [last]) == SettledAt(nodes) + if Settled(last) then {|nodes|} else {};
  }

  lemma {:induction false} SettledOneMore(nodes: seq<DagNode>, last: DagNode)
    ensures SettledNodes(nodes + [last]) == SettledNodes(nodes) + if Settled(last) then 1 else 0
  {
    if nodes == [] {
      assert [] + [last] == [last] && [last][1..] == [];
    } else {
      SettledOneMore(nodes[1..], last);
      assert (nodes + [last])[1..] == nodes[1..] + [last];
    }
  }

  lemma MergeTakesTheUpdate(a: DagNode, update: NodeUpdate)
    ensures var b := MergeNode(a, update);
      IfGiven(a.id, b.id, update.id) && IfGiven(a.status, b.status, update.status)
      && FieldsMerged(a.fields, b.fields, update.fields)
  {
  }

  lemma NodeUpdateIsPerformed(dag: Dag, nodeId: string, update: NodeUpdate)
    ensures NodeUpdated(dag, UpdateDagNode(dag, nodeId, update), nodeId, update)
  {
    NodesAreSet(dag.nodes, nodeId, update);
    forall i | 0 <= i < |dag.nodes|
      ensures var a, b := dag.nodes[i], MergeNode(dag.nodes[i], update);
        IfGiven(a.id, b.id, update.id) && IfGiven(a.status, b.status, update.status)
        && FieldsMerged(a.fields, b.fields, update.fields)
    {
      MergeTakesTheUpdate(dag.nodes[i], update);
    }
    SettledAreCounted(SetNode(dag.nodes, nodeId, update));
  }

  predicate OfRuns(change: Change) { change.UpsertInlineDAG? || change.UpdateInlineDAGNode? }

  predicate OfKeys(change: Change) {
    change.SetPendingGate? || change.RemovePendingGate? || change.SetPendingIntervention?
      || change.RemovePendingIntervention?
  }

  lemma RunEditPerforms(change: Change, d: SessionData)
    requires OfRuns(change)
    ensures Performs(d, if Apply(change, d).Some? then Apply(change, d).value else d, change)
  {
    if change.UpdateInlineDAGNode? && change.dagId in d.inlineDAGs {
      NodeUpdateIsPerformed(d.inlineDAGs[change.dagId], change.nodeId, change.update);
    }
  }

  lemma KeyEditPerforms(change: Change, d: SessionData)
    requires OfKeys(change)
    ensures Performs(d, if Apply(change, d).Some? then Apply(change, d).value else d, change)
  {
  }

  lemma PlainEditPerforms(change: Change, d: SessionData)
    requires !OfRuns(change) && !OfKeys(change)
    ensures Performs(d, if Apply(change, d).Some? then Apply(change, d).value else d, change)
  {
    if change.AddMessage? {
      UpsertStores(d.messages, change.message);
    }
  }

  lemma EditPerforms(change: Change, d: SessionData)
    ensures Performs(d, if Apply(change, d).Some? then Apply(change, d).value else d, change)
  {
    if OfRuns(change) {
      RunEditPerforms(change, d);
    } else if OfKeys(change) {
      KeyEditPerforms(change, d);
    } else {
      PlainEditPerforms(change, d);
    }
  }

  /* ------------------------------- the store ------------------------------- */

  /** Whatever the store holds about other sessions is as it was. */
  ghost predicate OnlySession(st: Store, t: Store, id: string) {
    t.json == st.json && forall k :: k != id ==> At(t, k) == At(st, k)
  }

  lemma OneEntryChanges(st: Store, op: Op)
    ensures OnlySession(st, Next(st, op), op.id)
    ensures At(Next(st, op), op.id) == Step(st.json, |st.sessions| < MAX_SESSIONS, At(st, op.id), op)
  {
    var e := Step(st.json, |st.sessions| < MAX_SESSIONS, At(st, op.id), op);
    forall k
      ensures At(Next(st, op), k) == if k == op.id then e else At(st, k)
    {
      PutFacts(st, op.id, e, k);
    }
  }

  /** The write is due: at once in the modes with JSON files, and for most edits in all modes. */
  ghost predicate Scheduled(json: bool, e: Entry, e': Entry, change: Change) {
    e'.pending <==> (
      e.pending || json
      || !(change.AddMessage? || change.AddMemoryEvent? || change.AddRunSummary? || change.AccumulateTotals?))
  }

  /** The mode is set already, or what is to be updated or removed is not there. */
  ghost predicate NothingToDo(d: SessionData, change: Change) {
    match change
    case UpdateAgentMode(mode) => d.agentMode == Some(mode)
    case UpdateInlineDAGNode(dagId, _, _) => dagId !in d.inlineDAGs
    case RemovePendingGate(gateId) => gateId !in d.pendingGates
    case RemovePendingIntervention(interventionId) => interventionId !in d.pendingInterventions
    case _ => false
  }

  /** An edit changes the contents and the time stamp of its session, empties the buffer on a
      reset, and schedules the write; an edit with nothing to do does none of that. */
  ghost predicate EntryEdited(json: bool, e: Entry, e': Entry, change: Change, now: int) {
    && e'.count == e.count && e'.file == e.file
    && (e.session.None? ==> e' == e)
    && (e.session.Some? ==>
          && e'.session.Some? && Performs(e.session.value.data, e'.session.value.data, change)
          && e'.session.value.clients == e.session.value.clients
          && (!change.Reset? ==> e'.session.value.eventBuffer == e.session.value.eventBuffer)
          && (change.Reset? ==> e'.session.value.eventBuffer == [])
          && (if NothingToDo(e.session.value.data, change) then e' == e
              else e'.session.value.updatedAt == now && Scheduled(json, e, e', change)))
  }

  lemma EditOfEntry(json: bool, room: bool, e: Entry, id: string, change: Change, now: int)
    ensures EntryEdited(json, e, Step(json, room, e, Edit(id, change, now)), change, now)
  {
    if e.session.Some? {
      EditPerforms(change, e.session.value.data);
    }
  }

  lemma EditEffect(st: Store, id: string, change: Change, now: int)
    ensures var t := Next(st, Edit(id, change, now));
      OnlySession(st, t, id) && EntryEdited(st.json, At(st, id), At(t, id), change, now)
  {
    OneEntryChanges(st, Edit(id, change, now));
    EditOfEntry(st.json, |st.sessions| < MAX_SESSIONS, At(st, id), id, change, now);
  }

  lemma CompletionIsPerformed(dag: Dag, c: Completion)
    ensures Completes(dag, CompletedDag(dag, c), c)
  {
  }

  /** A completed run is in memory and on disk as its completion says, at once, and nothing of the
      session waits to be written. */
  ghost predicate EntryCompleted(e: Entry, e': Entry, dagId: string, c: Completion, now: int)
    requires e.session.Some? && dagId in e.session.value.data.inlineDAGs
  {
    && e'.session.Some? && !e'.pending && e'.count == Some(0)
    && var v, v' := e.session.value, e'.session.value;
       && OnlyDag(v.data, v'.data, dagId) && Completes(v.data.inlineDAGs[dagId], v'.data.inlineDAGs[dagId], c)
       && v'.clients == v.clients && v'.eventBuffer == v.eventBuffer && v'.updatedAt == now
       && e'.file == Some(File(v'.data, now))
  }

  lemma CompletionEffect(st: Store, id: string, dagId: string, c: Completion, now: int)
    requires id in st.sessions && dagId in st.sessions[id].data.inlineDAGs
    ensures var t := Next(st, Op.CompleteInlineDAG(id, dagId, c, now));
      OnlySession(st, t, id) && EntryCompleted(At(st, id), At(t, id), dagId, c, now)
  {
    OneEntryChanges(st, Op.CompleteInlineDAG(id, dagId, c, now));
    CompletionIsPerformed(st.sessions[id].data.inlineDAGs[dagId], c);
  }

  /** An orchestration event is appended under its cap; the fiftieth since the last write schedules
      one. */
  ghost predicate EventTaken(e: Entry, e': Entry, event: string)
    requires e.session.Some?
  {
    && e'.file == e.file && e'.session.Some?
    && var d, d', n := e.session.value.data, e'.session.value.data, (if e.count.Some? then e.count.value else 0) + 1;
       && d' == d.(orchestrationEvents := d'.orchestrationEvents)
       && CappedAppend(d.orchestrationEvents, d'.orchestrationEvents, event, 500)
       && (n < 50 ==> e'.count == Some(n) && e'.pending == e.pending)
       && (n >= 50 ==> e'.count == Some(0) && e'.pending)
  }

  lemma EventEffect(st: Store, id: string, event: string, now: int)
    requires id in st.sessions
    ensures var t := Next(st, Op.AddOrchestrationEvent(id, event, now));
      OnlySession(st, t, id) && EventTaken(At(st, id), At(t, id), event)
  {
    OneEntryChanges(st, Op.AddOrchestrationEvent(id, event, now));
  }

  /** Connections and buffered events are kept in memory only; no write is scheduled for them. */
  ghost predicate Connected(e: Entry, e': Entry, op: Op)
    requires e.session.Some?
  {
    && e' == e.(session := e'.session) && e'.session.Some?
    && var v, v' := e.session.value, e'.session.value;
       && v'.data == v.data
       && (op.AddClient? ==> v'.eventBuffer == v.eventBuffer && v'.clients == v.clients + {op.client})
       && (op.RemoveClient? ==> v'.eventBuffer == v.eventBuffer && v'.clients == v.clients - {op.client})
       && (op.BufferEvent? ==> v'.clients == v.clients && CappedAppend(v.eventBuffer, v'.eventBuffer, op.event, 500))
       && (op.DrainEventBuffer? ==> v'.clients == v.clients && v'.eventBuffer == [])
  }

  lemma ConnectionOfEntry(json: bool, room: bool, e: Entry, op: Op)
    requires e.session.Some? && (op.AddClient? || op.RemoveClient? || op.BufferEvent? || op.DrainEventBuffer?)
    ensures Connected(e, Step(json, room, e, op), op)
  {
  }

  lemma ConnectionEffect(st: Store, op: Op)
    requires op.AddClient? || op.RemoveClient? || op.BufferEvent? || op.DrainEventBuffer?
    ensures OnlySession(st, Next(st, op), op.id)
    ensures if op.id in st.sessions then Connected(At(st, op.id), At(Next(st, op), op.id), op)
            else At(Next(st, op), op.id) == At(st, op.id)
  {
    OneEntryChanges(st, op);
    if op.id in st.sessions {
      ConnectionOfEntry(st.json, |st.sessions| < MAX_SESSIONS, At(st, op.id), op);
    }
  }

  /** A new session is blank and waits for its first write. */
  ghost predicate Created(e: Entry, e': Entry, name: string) {
    && e' == e.(session := e'.session, pending := true) && e'.session.Some?
    && var v := e'.session.value;
       && v.data.name == name && Blank(v.data) && v.data.runHistory == [] && v.data.agentMode == None
       && v.clients == {} && v.eventBuffer == []
  }

  /** Creating needs a free place among fifty. */
  lemma CreateEffect(st: Store, id: string, name: string, now: int)
    requires id !in st.sessions
    ensures var t := Next(st, Op.CreateSession(id, name, now));
      && OnlySession(st, t, id)
      && (if |st.sessions| < 50 then Created(At(st, id), At(t, id), name) else At(t, id) == At(st, id))
  {
    OneEntryChanges(st, Op.CreateSession(id, name, now));
  }

  /** Deleting takes session and file away, except the default one's. */
  lemma DeleteEffect(st: Store, id: string)
    ensures var t := Next(st, Op.DeleteSession(id));
      && OnlySession(st, t, id)
      && At(t, id) == if id == "default" then At(st, id) else At(st, id).(session := None, file := None)
  {
    OneEntryChanges(st, Op.DeleteSession(id));
  }

  /** A timer that fires writes the session as it then is, once. */
  lemma TimerEffect(st: Store, id: string)
    ensures var t := Next(st, TimerFires(id)); var e, e' := At(st, id), At(t, id);
      && OnlySession(st, t, id) && e'.session == e.session && e'.count == e.count && !e'.pending
      && (e.pending && e.session.Some? ==> e'.file == Some(File(e.session.value.data, e.session.value.updatedAt)))
      && (!e.pending || e.session.None? ==> e'.file == e.file)
  {
    OneEntryChanges(st, TimerFires(id));
  }

  /* ------------------------------- the startup sweep ------------------------------- */

  /** Shutting down writes the sessions with a pending write or with events counted, and no other;
      nothing waits any more. */
  lemma ShutdownEffect(st: Store, id: string)
    ensures var t := Flushed(st);
      && t.sessions == st.sessions && t.json == st.json && id !in t.pending && id !in t.counts
      && At(t, id).file ==
           if id in st.sessions && (id in st.pending || (id in st.counts && st.counts[id] > 0)) then
             Some(File(st.sessions[id].data, st.sessions[id].updatedAt))
           else At(st, id).file
  {
  }

  /** A run that was going becomes an error, all of its work counted as done; others stay. */
  lemma SweepEffect(before: SessionData, after: SessionData, k: string)
    requires SweepResult(before, after) && k in before.inlineDAGs
    ensures after.inlineDAGs.Keys == before.inlineDAGs.Keys
    ensures var a, b := before.inlineDAGs[k], after.inlineDAGs[k];
      if a.status == Running || a.status == Dispatched then
        && b == a.(status := Errored, error := b.error, completedCount := a.totalCount)
        && b.error.Some? && b.error.value != ""
      else b == a
  {
  }

  /** A message announces its run as failed, in the session's own stream. */
  lemma NoteSays(note: Note)
    ensures var m := NoteMessage(note);
      && "orphan-" + note.dagId + "-" <= m.id
      && "type" in m.fields && m.fields["type"] == "dag-complete"
      && "runId" in m.fields && m.fields["runId"] == note.dagId
      && "status" in m.fields && m.fields["status"] == "error"
  {
  }
}
