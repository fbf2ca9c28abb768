/** The session store as a state machine: sessions in memory, their files, the pending
    debounced writes and the counters of unflushed orchestration events
    (packages/gateway/src/sessions.ts). */
module SessionModel {
  import opened Basics

  const DEFAULT_SESSION_ID := "default"
  const MAX_MESSAGES: nat := 1000
  const MAX_MEMORY_EVENTS: nat := 200
  const MAX_RUN_HISTORY: nat := 100
  const MAX_ORCHESTRATION_EVENTS: nat := 500
  const MAX_EVENT_BUFFER: nat := 500
  const ORCH_EVENT_PERSIST_INTERVAL: nat := 50
  const MAX_SESSIONS: nat := 50

  /* ------------------------------- session contents ------------------------------- */

  datatype Message = Message(id: string, fields: map<string, string>)

  datatype DagStatus = Dispatched | Running | Complete | Errored | Stopped | PausedRun | Interrupted | Superseded
  datatype NodeStatus = Pending | NodeRunning | Done | NodeError | NodeSkipped | Cancelled
  /** Label, type, progress and dependencies are opaque fields. */
  datatype DagNode = DagNode(id: string, status: NodeStatus, fields: map<string, string>)

  /** The fields of a node that an update gives. */
  datatype NodeUpdate = NodeUpdate(id: Option<string>, status: Option<NodeStatus>, fields: map<string, string>)

  datatype Dag = Dag(
    status: DagStatus, summary: string, nodes: seq<DagNode>, completedCount: nat, totalCount: nat,
    isDirect: Option<bool>, result: Option<string>, error: Option<string>,
    supersededBy: Option<string>, stats: Option<string>)

  datatype Mode = Orchestrate | Direct | Code

  datatype Totals = Totals(inputTokens: nat, outputTokens: nat, cacheReadTokens: nat, costUsd: real, messageCount: nat)

  /** What a session file holds, apart from `updatedAt`. Opaque payloads are strings. */
  datatype SessionData = SessionData(
    name: string, messages: seq<Message>, activeWorkflows: set<string>, memoryEvents: seq<string>,
    runHistory: seq<string>, agentMode: Option<Mode>, inlineDAGs: map<string, Dag>,
    orchestrationEvents: seq<string>, codingSession: Option<string>, totals: Totals,
    activePlan: Option<string>, pendingConfirmation: Option<string>,
    pendingGates: map<string, string>, pendingInterventions: map<string, string>)

  const NO_TOTALS := Totals(0, 0, 0, 0.0, 0)

  function NewData(name: string): SessionData {
    SessionData(name, [], {}, [], [], None, map[], [], None, NO_TOTALS, None, None, map[], map[])
  }

  /* ------------------------------- the mutators ------------------------------- */

  datatype Change =
    | Rename(name: string)
    | AddMessage(message: Message)
    | AddMemoryEvent(event: string)
    | AddRunSummary(run: string)
    | AddActiveWorkflow(workflow: string)
    | RemoveActiveWorkflow(workflow: string)
    | UpdateAgentMode(mode: Mode)
    | UpsertInlineDAG(dagId: string, dag: Dag)
    | UpdateInlineDAGNode(dagId: string, nodeId: string, update: NodeUpdate)
    | SetCodingSession(state: Option<string>)
    | AccumulateTotals(delta: Totals)
    | SetActivePlan(plan: Option<string>)
    | SetPendingConfirmation(confirmation: Option<string>)
    | SetPendingGate(gateId: string, gate: string)
    | RemovePendingGate(gateId: string)
    | SetPendingIntervention(interventionId: string, intervention: string)
    | RemovePendingIntervention(interventionId: string)
    | Reset

  /** First position holding a message with this id, or the length. */
  function FindMessage(messages: seq<Message>, id: string): (i: nat)
    ensures i <= |messages|
    ensures i < |messages| ==> messages[i].id == id
    ensures forall j :: 0 <= j < i ==> messages[j].id != id
  {
    Position(messages, (m: Message) => m.id, id)
  }

  function UpsertMessage(messages: seq<Message>, message: Message): seq<Message> {
    var i := FindMessage(messages, message.id);
    if i < |messages| then messages[i := Message(message.id, messages[i].fields + message.fields)]
    else Newest(messages + [message], MAX_MESSAGES)
  }

  function OrElse<T>(a: Option<T>, b: Option<T>): Option<T> { if a.Some? then a else b }

  /** A later payload may be a stub: identity fields of the existing entry survive it. */
  function MergeDag(existing: Dag, dag: Dag): Dag {
    Dag(dag.status, if dag.summary != "" then dag.summary else existing.summary,
        if dag.nodes != [] then dag.nodes else existing.nodes, dag.completedCount, dag.totalCount,
        OrElse(dag.isDirect, existing.isDirect), OrElse(dag.result, existing.result), OrElse(dag.error, existing.error),
        OrElse(dag.supersededBy, existing.supersededBy), OrElse(dag.stats, existing.stats))
  }

  function MergeNode(node: DagNode, update: NodeUpdate): DagNode {
    DagNode(if update.id.Some? then update.id.value else node.id,
            if update.status.Some? then update.status.value else node.status, node.fields + update.fields)
  }

  function SetNode(nodes: seq<DagNode>, id: string, update: NodeUpdate): seq<DagNode> {
    if nodes == [] then []
    else [if nodes[0].id == id then MergeNode(nodes[0], update) else nodes[0]] + SetNode(nodes[1..], id, update)
  }

  function SettledNodes(nodes: seq<DagNode>): nat {
    if nodes == [] then 0
    else (if nodes[0].status in {Done, NodeError, NodeSkipped, Cancelled} then 1 else 0) + SettledNodes(nodes[1..])
  }

  function UpdateDagNode(dag: Dag, nodeId: string, update: NodeUpdate): Dag {
    var nodes := SetNode(dag.nodes, nodeId, update);
    dag.(nodes := nodes, completedCount := SettledNodes(nodes),
         status := if dag.status == Dispatched then Running else dag.status)
  }

  function AddTotals(t: Totals, d: Totals): Totals {
    Totals(t.inputTokens + d.inputTokens, t.outputTokens + d.outputTokens, t.cacheReadTokens + d.cacheReadTokens,
           t.costUsd + d.costUsd, t.messageCount + 1)
  }

  /** The edited contents, or None where the mutator returns early without touching anything. */
  function Apply(change: Change, d: SessionData): Option<SessionData> {
    match change
    case Rename(name) => Some(d.(name := name))
    case AddMessage(message) => Some(d.(messages := UpsertMessage(d.messages, message)))
    case AddMemoryEvent(event) => Some(d.(memoryEvents := Newest(d.memoryEvents + [event], MAX_MEMORY_EVENTS)))
    case AddRunSummary(run) => Some(d.(runHistory := Newest(d.runHistory + [run], MAX_RUN_HISTORY)))
    case AddActiveWorkflow(w) => Some(d.(activeWorkflows := d.activeWorkflows + {w}))
    case RemoveActiveWorkflow(w) => Some(d.(activeWorkflows := d.activeWorkflows - {w}))
    case UpdateAgentMode(mode) => if d.agentMode == Some(mode) then None else Some(d.(agentMode := Some(mode)))
    case UpsertInlineDAG(id, dag) =>
      Some(d.(inlineDAGs := d.inlineDAGs[id := if id in d.inlineDAGs then MergeDag(d.inlineDAGs[id], dag) else dag]))
    case UpdateInlineDAGNode(id, nodeId, update) =>
      if id !in d.inlineDAGs then None
      else Some(d.(inlineDAGs := d.inlineDAGs[id := UpdateDagNode(d.inlineDAGs[id], nodeId, update)]))
    case SetCodingSession(state) => Some(d.(codingSession := state))
    case AccumulateTotals(delta) => Some(d.(totals := AddTotals(d.totals, delta)))
    case SetActivePlan(plan) => Some(d.(activePlan := plan))
    case SetPendingConfirmation(confirmation) => Some(d.(pendingConfirmation := confirmation))
    case SetPendingGate(id, gate) => Some(d.(pendingGates := d.pendingGates[id := gate]))
    case RemovePendingGate(id) =>
      if id !in d.pendingGates then None else Some(d.(pendingGates := d.pendingGates - {id}))
    case SetPendingIntervention(id, intervention) =>
      Some(d.(pendingInterventions := d.pendingInterventions[id := intervention]))
    case RemovePendingIntervention(id) =>
      if id !in d.pendingInterventions then None else Some(d.(pendingInterventions := d.pendingInterventions - {id}))
    case Reset => Some(NewData(d.name).(runHistory := d.runHistory, agentMode := d.agentMode))
  }

  /** Mutators that schedule their write only when JSON persistence is enabled. */
  predicate OnlyWhenJson(change: Change) {
    change.AddMessage? || change.AddMemoryEvent? || change.AddRunSummary? || change.AccumulateTotals?
  }

  datatype Completion = Completion(
    result: Option<string>, error: Option<string>, stopped: bool, supersededBy: Option<string>, stats: Option<string>)

  function CompletedDag(dag: Dag, c: Completion): Dag {
    dag.(status := if Given(c.supersededBy) then Superseded else if Given(c.error) then Errored
                   else if c.stopped then Stopped else Complete,
         supersededBy := if Given(c.supersededBy) then c.supersededBy else dag.supersededBy,
         result := c.result, error := c.error, completedCount := dag.totalCount, stats := OrElse(c.stats, dag.stats))
  }

  /* ------------------------------- the store ------------------------------- */

  datatype SessionValue = SessionValue(data: SessionData, updatedAt: int, clients: set<string>,
      eventBuffer: seq<string>)

  datatype File = File(data: SessionData, updatedAt: int)

  /** `pending` holds the sessions with a debounce timer; `json` is true in the modes 'dual'
      and 'json'. */
  datatype Store = Store(
    json: bool, sessions: map<string, SessionValue>, pending: set<string>, counts: map<string, nat>,
    disk: map<string, File>)

  datatype Op =
    | Edit(id: string, change: Change, now: int)
    | AddOrchestrationEvent(id: string, event: string, now: int)
    | CompleteInlineDAG(id: string, dagId: string, completion: Completion, now: int)
    | AddClient(id: string, client: string, now: int)
    | RemoveClient(id: string, client: string, now: int)
    | BufferEvent(id: string, event: string)
    | DrainEventBuffer(id: string)
    | CreateSession(id: string, name: string, now: int)
    | DeleteSession(id: string)
    | TimerFires(id: string)

  /** Everything the store holds about one session. */
  datatype Entry = Entry(session: Option<SessionValue>, pending: bool, count: Option<nat>, file: Option<File>)

  function Lookup<V>(m: map<string, V>, id: string): Option<V> {
    if id in m then Some(m[id]) else None
  }

  function Bind<V>(m: map<string, V>, id: string, v: Option<V>): map<string, V> {
    if v.Some? then m[id := v.value] else m - {id}
  }

  function At(st: Store, id: string): Entry {
    Entry(Lookup(st.sessions, id), id in st.pending, Lookup(st.counts, id), Lookup(st.disk, id))
  }

  function Put(st: Store, id: string, e: Entry): Store {
    Store(st.json, Bind(st.sessions, id, e.session), if e.pending then st.pending + {id} else st.pending - {id},
          Bind(st.counts, id, e.count), Bind(st.disk, id, e.file))
  }

  lemma PutFacts(st: Store, id: string, e: Entry, other: string)
    ensures At(Put(st, id, e), other) == if other == id then e else At(st, other)
    ensures Put(st, id, At(st, id)) == st
  {
  }

  /** A store is determined by its entries. */
  lemma EntriesDetermineStore(s: Store, t: Store)
    requires s.json == t.json && forall id :: At(s, id) == At(t, id)
    ensures s == t
  {
    forall id
      ensures id in s.sessions <==> id in t.sessions
      ensures id in s.counts <==> id in t.counts
      ensures id in s.disk <==> id in t.disk
      ensures id in s.pending <==> id in t.pending
      ensures id in s.sessions ==> s.sessions[id] == t.sessions[id]
      ensures id in s.counts ==> s.counts[id] == t.counts[id]
      ensures id in s.disk ==> s.disk[id] == t.disk[id]
    {
      assert At(s, id) == At(t, id);
    }
    assert s.sessions == t.sessions && s.counts == t.counts && s.disk == t.disk && s.pending == t.pending;
  }

  /** Changing one entry as an operation says, and no other, performs the operation. */
  lemma EntryChangeIsNext(s: Store, t: Store, op: Op)
    requires t.json == s.json
    requires At(t, op.id) == Step(s.json, |s.sessions| < MAX_SESSIONS, At(s, op.id), op)
    requires forall k :: k != op.id ==> At(t, k) == At(s, k)
    ensures t == Next(s, op)
  {
    forall k
      ensures At(t, k) == At(Next(s, op), k)
    {
      PutFacts(s, op.id, At(t, op.id), k);
    }
    EntriesDetermineStore(t, Next(s, op));
  }

  function Counted(e: Entry): nat { if e.count.Some? then e.count.value else 0 }

  /** Writes the session to its file, if it exists. */
  function Persisted(e: Entry): Entry {
    if e.session.None? then e else e.(file := Some(File(e.session.value.data, e.session.value.updatedAt)))
  }

  function AppendEvent(d: SessionData, event: string): SessionData {
    d.(orchestrationEvents := Newest(d.orchestrationEvents + [event], MAX_ORCHESTRATION_EVENTS))
  }

  function WithData(v: SessionValue, data: SessionData, now: int): SessionValue { v.(data := data, updatedAt := now) }

  function Edited(json: bool, e: Entry, v: SessionValue, change: Change, now: int): Entry {
    match Apply(change, v.data)
    case None => e
    case Some(data) =>
      var v' := WithData(v, data, now);
      e.(session := Some(if change.Reset? then v'.(eventBuffer := []) else v'),
         pending := e.pending || json || !OnlyWhenJson(change))
  }

  function EventAdded(e: Entry, v: SessionValue, event: string, now: int): Entry {
    var full := Counted(e) + 1 >= ORCH_EVENT_PERSIST_INTERVAL;
    e.(session := Some(WithData(v, AppendEvent(v.data, event), now)),
       count := Some(if full then 0 else Counted(e) + 1), pending := e.pending || full)
  }

  function DagCompleted(e: Entry, v: SessionValue, dagId: string, completion: Completion, now: int): Entry {
    if dagId !in v.data.inlineDAGs then e
    else
      var dags := v.data.inlineDAGs[dagId := CompletedDag(v.data.inlineDAGs[dagId], completion)];
      Persisted(e.(session := Some(WithData(v, v.data.(inlineDAGs := dags), now)), count := Some(0), pending := false))
  }

  /** What an operation does to the entry of its session. */
  function Step(json: bool, room: bool, e: Entry, op: Op): Entry {
    match op
    case CreateSession(_, name, now) =>
      if !room || e.session.Some? then e
      else e.(session := Some(SessionValue(NewData(name), now, {}, [])), pending := true)
    case DeleteSession(id) => if id == DEFAULT_SESSION_ID then e else e.(session := None, file := None)
    case TimerFires(_) => if !e.pending then e else Persisted(e.(pending := false))
    case _ =>
      if e.session.None? then e
      else
        var v := e.session.value;
        match op
        case Edit(_, change, now) => Edited(json, e, v, change, now)
        case AddOrchestrationEvent(_, event, now) => EventAdded(e, v, event, now)
        case CompleteInlineDAG(_, dagId, completion, now) => DagCompleted(e, v, dagId, completion, now)
        case AddClient(_, client, now) => e.(session := Some(v.(clients := v.clients + {client}, updatedAt := now)))
        case RemoveClient(_, client, now) => e.(session := Some(v.(clients := v.clients - {client}, updatedAt := now)))
        case BufferEvent(_, event) =>
          e.(session := Some(v.(eventBuffer := Newest(v.eventBuffer + [event], MAX_EVENT_BUFFER))))
        case DrainEventBuffer(_) => e.(session := Some(v.(eventBuffer := [])))
        case _ => e
  }

  function Next(st: Store, op: Op): Store {
    Put(st, op.id, Step(st.json, |st.sessions| < MAX_SESSIONS, At(st, op.id), op))
  }

  /* ------------------------------- what is kept ------------------------------- */

  /** The file lacks at most the `n` newest orchestration events, and nothing else. */
  ghost predicate Lags(memory: SessionData, file: SessionData, n: nat) {
    && memory == file.(orchestrationEvents := memory.orchestrationEvents)
    && exists newest :: MissingEvents(memory, file, n, newest)
  }

  ghost predicate MissingEvents(memory: SessionData, file: SessionData, n: nat, newest: seq<string>) {
    |newest| <= n
    && memory.orchestrationEvents == Newest(file.orchestrationEvents + newest, MAX_ORCHESTRATION_EVENTS)
  }

  ghost predicate WithinCap(d: SessionData) { |d.orchestrationEvents| <= MAX_ORCHESTRATION_EVENTS }

  /** A session is pending, or on disk up to what its event counter admits. */
  ghost predicate TrackedEntry(e: Entry) {
    && (e.session.Some? ==> WithinCap(e.session.value.data))
    && (e.session.Some? && !e.pending ==>
          e.file.Some? && Lags(e.session.value.data, e.file.value.data, Counted(e)))
    && (e.file.Some? ==> e.session.Some? && WithinCap(e.file.value.data))
    && Counted(e) < ORCH_EVENT_PERSIST_INTERVAL
  }

  ghost predicate Tracked(st: Store) {
    forall id :: TrackedEntry(At(st, id))
  }

  lemma UpToDateLags(d: SessionData, n: nat)
    requires WithinCap(d)
    ensures Lags(d, d, n)
  {
    assert d.orchestrationEvents + [] == d.orchestrationEvents;
    assert MissingEvents(d, d, n, []);
  }

  lemma OneEventMore(memory: SessionData, file: SessionData, n: nat, event: string)
    requires Lags(memory, file, n)
    ensures Lags(AppendEvent(memory, event), file, n + 1)
  {
    var newest :| MissingEvents(memory, file, n, newest);
    NewestAppend(file.orchestrationEvents + newest, event, MAX_ORCHESTRATION_EVENTS);
    assert file.orchestrationEvents + newest + [event] == file.orchestrationEvents + (newest + [event]);
    assert MissingEvents(AppendEvent(memory, event), file, n + 1, newest + [event]);
  }

  /** With nothing counted the file is the session. */
  lemma NoLagMeansEqual(memory: SessionData, file: SessionData)
    requires Lags(memory, file, 0) && WithinCap(file)
    ensures memory == file
  {
  }

  lemma ApplyKeepsCap(change: Change, d: SessionData)
    requires WithinCap(d) && Apply(change, d).Some?
    ensures WithinCap(Apply(change, d).value)
  {
  }

  /** The mutator's write is scheduled: always with JSON persistence, and for the mutators that
      do not look at the mode. */
  ghost predicate WritesJson(st: Store, op: Op) {
    st.json || !(op.Edit? && OnlyWhenJson(op.change))
  }

  lemma EditKeepsTracked(json: bool, e: Entry, change: Change, now: int)
    requires TrackedEntry(e) && e.session.Some? && (json || !OnlyWhenJson(change))
    ensures TrackedEntry(Edited(json, e, e.session.value, change, now))
  {
    if Apply(change, e.session.value.data).Some? {
      ApplyKeepsCap(change, e.session.value.data);
    }
  }

  lemma EventKeepsTracked(e: Entry, event: string, now: int)
    requires TrackedEntry(e) && e.session.Some?
    ensures TrackedEntry(EventAdded(e, e.session.value, event, now))
  {
    if !e.pending {
      OneEventMore(e.session.value.data, e.file.value.data, Counted(e), event);
    }
  }

  lemma PersistedIsTracked(e: Entry)
    requires e.session.Some? ==> WithinCap(e.session.value.data)
    requires e.session.None? ==> e.file.None?
    requires Counted(e) < ORCH_EVENT_PERSIST_INTERVAL
    ensures TrackedEntry(Persisted(e))
  {
    if e.session.Some? {
      UpToDateLags(e.session.value.data, Counted(e));
    }
  }

  lemma EntryStepKeepsTracked(st: Store, room: bool, e: Entry, op: Op)
    requires TrackedEntry(e) && WritesJson(st, op)
    ensures TrackedEntry(Step(st.json, room, e, op))
  {
    match op {
      case Edit(_, change, now) =>
        if e.session.Some? {
          EditKeepsTracked(st.json, e, change, now);
        }
      case AddOrchestrationEvent(_, event, now) =>
        if e.session.Some? {
          EventKeepsTracked(e, event, now);
        }
      case CompleteInlineDAG(_, dagId, completion, now) =>
        if e.session.Some? && dagId in e.session.value.data.inlineDAGs {
          var v := e.session.value;
          var dags := v.data.inlineDAGs[dagId := CompletedDag(v.data.inlineDAGs[dagId], completion)];
          PersistedIsTracked(e.(session := Some(WithData(v, v.data.(inlineDAGs := dags), now)),
                                count := Some(0), pending := false));
        }
      case TimerFires(_) => PersistedIsTracked(e.(pending := false));
      case _ =>
    }
  }

  lemma StepKeepsTracked(st: Store, op: Op)
    requires Tracked(st) && WritesJson(st, op)
    ensures Tracked(Next(st, op))
  {
    var e := Step(st.json, |st.sessions| < MAX_SESSIONS, At(st, op.id), op);
    EntryStepKeepsTracked(st, |st.sessions| < MAX_SESSIONS, At(st, op.id), op);
    forall id
      ensures TrackedEntry(At(Next(st, op), id))
    {
      PutFacts(st, op.id, e, id);
      assert TrackedEntry(At(st, id));
    }
  }

  /** An edit that stays in memory is one whose contents are those of the file. */
  lemma UnwrittenEditIsTrackedIff(e: Entry, change: Change, now: int)
    requires TrackedEntry(e) && e.session.Some? && !e.pending && OnlyWhenJson(change)
    ensures TrackedEntry(Edited(false, e, e.session.value, change, now)) <==>
      Apply(change, e.session.value.data) == Some(e.session.value.data)
  {
    ApplyKeepsCap(change, e.session.value.data);
    var before, after, file := e.session.value.data, Apply(change, e.session.value.data).value, e.file.value.data;
    assert after.orchestrationEvents == before.orchestrationEvents;
    if Lags(after, file, Counted(e)) {
      assert after == file.(orchestrationEvents := before.orchestrationEvents) == before;
    }
  }

  /** Exactly when an operation keeps track of a session: when its write is scheduled, or there is
      no such session, or a write is pending already, or the edit changes nothing. So without JSON
      persistence the four guarded mutators leave memory ahead of the file, with no write to come
      from them. */
  lemma StepKeepsTrackedIff(st: Store, op: Op)
    requires Tracked(st)
    ensures Tracked(Next(st, op)) <==>
      WritesJson(st, op) || op.id !in st.sessions || op.id in st.pending
      || Apply(op.change, st.sessions[op.id].data) == Some(st.sessions[op.id].data)
  {
    if WritesJson(st, op) {
      StepKeepsTracked(st, op);
    } else {
      var e := At(st, op.id);
      var e' := Step(st.json, |st.sessions| < MAX_SESSIONS, e, op);
      assert TrackedEntry(e);
      GuardedEditIsTrackedIff(e, op.change, op.now);
      OneEntryDecides(st, op.id, e');
    }
  }

  lemma GuardedEditIsTrackedIff(e: Entry, change: Change, now: int)
    requires TrackedEntry(e) && OnlyWhenJson(change)
    ensures var e' := if e.session.None? then e else Edited(false, e, e.session.value, change, now);
      TrackedEntry(e') <==>
        e.session.None? || e.pending || Apply(change, e.session.value.data) == Some(e.session.value.data)
  {
    if e.session.Some? {
      ApplyKeepsCap(change, e.session.value.data);
      if !e.pending {
        UnwrittenEditIsTrackedIff(e, change, now);
      }
    }
  }

  lemma OneEntryDecides(st: Store, id: string, e: Entry)
    requires Tracked(st)
    ensures Tracked(Put(st, id, e)) <==> TrackedEntry(e)
  {
    forall k
      ensures At(Put(st, id, e), k) == if k == id then e else At(st, k)
    {
      PutFacts(st, id, e, k);
    }
    assert forall k :: TrackedEntry(At(st, k));
    assert At(Put(st, id, e), id) == e;
  }

  /** A run summary is such an edit. */
  lemma SqliteModeLosesTrack(st: Store, id: string, run: string, now: int)
    requires Tracked(st) && !st.json && id in st.sessions && id !in st.pending
    requires |st.sessions[id].data.runHistory| < MAX_RUN_HISTORY
    ensures !Tracked(Next(st, Edit(id, AddRunSummary(run), now)))
  {
    var history := st.sessions[id].data.runHistory;
    StepKeepsTrackedIff(st, Edit(id, AddRunSummary(run), now));
    assert |Newest(history + [run], MAX_RUN_HISTORY)| == |history| + 1;
  }

  /** Whatever was left behind, the next scheduled write of the session catches up. */
  lemma NextWriteCatchesUp(st: Store, id: string)
    requires id in st.sessions && id in st.pending && WithinCap(st.sessions[id].data)
    requires Counted(At(st, id)) < ORCH_EVENT_PERSIST_INTERVAL
    ensures TrackedEntry(At(Next(st, TimerFires(id)), id))
  {
    var e := At(st, id);
    PersistedIsTracked(e.(pending := false));
    PutFacts(st, id, Persisted(e.(pending := false)), id);
  }

  /* ------------------------------- whole runs ------------------------------- */

  function Run(st: Store, ops: seq<Op>): Store
    decreases |ops|
  {
    if ops == [] then st else Run(Next(st, ops[0]), ops[1..])
  }

  lemma {:induction false} RunKeepsTracked(st: Store, ops: seq<Op>)
    requires Tracked(st) && st.json
    ensures Tracked(Run(st, ops)) && Run(st, ops).json
    decreases |ops|
  {
    if ops != [] {
      StepKeepsTracked(st, ops[0]);
      assert Next(st, ops[0]).json;
      RunKeepsTracked(Next(st, ops[0]), ops[1..]);
    }
  }

  /** In every reachable state a session that differs from its file has a write pending or
      events counted; without a pending write only fewer than 50 of its newest orchestration
      events are not on disk. So a crash loses no more than that. */
  lemma DirtyMeansPending(st: Store, ops: seq<Op>, id: string)
    requires Tracked(st) && st.json
    ensures var t := Run(st, ops);
      id in t.sessions && id !in t.pending ==>
      && id in t.disk
      && (t.sessions[id].data != t.disk[id].data ==> id in t.counts && t.counts[id] > 0)
      && Lags(t.sessions[id].data, t.disk[id].data, ORCH_EVENT_PERSIST_INTERVAL - 1)
  {
    RunKeepsTracked(st, ops);
    var e := At(Run(st, ops), id);
    assert TrackedEntry(e);
    if e.session.Some? && !e.pending {
      var memory, file, n := e.session.value.data, e.file.value.data, Counted(e);
      if n == 0 {
        NoLagMeansEqual(memory, file);
      }
      var newest :| MissingEvents(memory, file, n, newest);
      assert MissingEvents(memory, file, ORCH_EVENT_PERSIST_INTERVAL - 1, newest);
    }
  }

  /* ------------------------------- shutdown and restart ------------------------------- */

  /** Sessions that `shutdown` writes: the pending ones, then those with events counted. */
  function Due(st: Store): set<string> {
    set id | id in st.sessions && (id in st.pending || (id in st.counts && st.counts[id] > 0))
  }

  function Flushed(st: Store): Store {
    st.(disk := st.disk + map id | id in Due(st) :: File(st.sessions[id].data, st.sessions[id].updatedAt),
        pending := {}, counts := map[])
  }

  lemma ShutdownWritesEverything(st: Store)
    requires Tracked(st)
    ensures Flushed(st).disk.Keys == st.sessions.Keys
    ensures forall id :: id in st.sessions ==> Flushed(st).disk[id].data == st.sessions[id].data
  {
    forall id | id in st.sessions
      ensures id in Flushed(st).disk && Flushed(st).disk[id].data == st.sessions[id].data
    {
      assert TrackedEntry(At(st, id));
      if id !in Due(st) {
        NoLagMeansEqual(st.sessions[id].data, st.disk[id].data);
      }
    }
    forall id | id in st.disk
      ensures id in st.sessions
    {
      assert TrackedEntry(At(st, id));
    }
  }

  const ORPHAN_ERROR := "Run was interrupted by a server restart and could not be recovered."

  predicate Orphaned(dag: Dag) { dag.status == Running || dag.status == Dispatched }

  ghost predicate HasOrphans(d: SessionData) {
    exists k :: k in d.inlineDAGs && Orphaned(d.inlineDAGs[k])
  }

  function SweptDag(dag: Dag): Dag {
    if Orphaned(dag) then dag.(status := Errored, error := Some(ORPHAN_ERROR), completedCount := dag.totalCount)
      else dag
  }

  function SweptDags(dags: map<string, Dag>): map<string, Dag> {
    map k | k in dags :: SweptDag(dags[k])
  }

  /** The announcement of one swept run, under an id that ends in the time of the sweep. */
  datatype Note = Note(dagId: string, stamp: string)

  function NoteId(note: Note): string { "orphan-" + note.dagId + "-" + note.stamp }

  function NoteMessage(note: Note): Message {
    Message(NoteId(note), map["role" := "assistant", "content" := "", "type" := "dag-complete",
                              "workflowId" := note.dagId, "runId" := note.dagId, "status" := "error"])
  }

  function Radix36(n: nat): string {
    var d := n % 36;
    var c := if d < 10 then '0' + d as char else 'a' + (d - 10) as char;
    if n < 36 then [c] else Radix36(n / 36) + [c]
  }

  /** The number that digits and letters stand for in base 36. */
  function ValueOf36(s: string): int {
    if s == "" then 0
    else
      var c := s[|s| - 1];
      36 * ValueOf36(s[..|s| - 1]) + if '0' <= c <= '9' then c as int - '0' as int else c as int - 'a' as int + 10
  }

  lemma {:induction false} Radix36Inverts(n: nat)
    ensures ValueOf36(Radix36(n)) == n
    ensures forall c :: c in Radix36(n) ==> '0' <= c <= '9' || 'a' <= c <= 'z'
  {
    var s := Radix36(n);
    if n >= 36 {
      Radix36Inverts(n / 36);
      assert s[..|s| - 1] == Radix36(n / 36);
    } else {
      assert s[..|s| - 1] == "";
    }
  }

  lemma {:induction false} RadixHasNoDash(n: nat)
    ensures '-' !in Radix36(n)
  {
    if n >= 36 {
      RadixHasNoDash(n / 36);
    }
  }

  /** The messages of a session to which these runs are announced one after the other. */
  function WithNotes(messages: seq<Message>, notes: seq<Note>): seq<Message> {
    if notes == [] then messages
    else UpsertMessage(WithNotes(messages, notes[..|notes| - 1]), NoteMessage(notes[|notes| - 1]))
  }

  ghost predicate Mentions(notes: seq<Note>, k: string) {
    exists i :: 0 <= i < |notes| && notes[i].dagId == k
  }

  /** Different runs, with proper times. */
  ghost predicate NotedOnce(notes: seq<Note>) {
    && (forall i, j :: 0 <= i < j < |notes| ==> notes[i].dagId != notes[j].dagId)
    && (forall i :: 0 <= i < |notes| ==> '-' !in notes[i].stamp)
  }

  /** Every orphaned run once, and no other. */
  ghost predicate Announces(notes: seq<Note>, dags: map<string, Dag>) {
    NotedOnce(notes) && forall k :: Mentions(notes, k) <==> k in dags && Orphaned(dags[k])
  }

  /** What the startup sweep makes of a loaded session: orphaned runs become errors, each is
      announced by one message, and nothing else changes. */
  ghost predicate SweepResult(before: SessionData, after: SessionData) {
    && after == before.(inlineDAGs := SweptDags(before.inlineDAGs), messages := after.messages)
    && exists notes :: Announces(notes, before.inlineDAGs) && after.messages == WithNotes(before.messages, notes)
  }

  lemma NotedOneMore(notes: seq<Note>, note: Note, messages: seq<Message>) returns (all: seq<Note>)
    ensures |all| > |notes| && WithNotes(messages, all) == UpsertMessage(WithNotes(messages, notes), NoteMessage(note))
    ensures forall k :: Mentions(all, k) <==> Mentions(notes, k) || k == note.dagId
    ensures NotedOnce(notes) && !Mentions(notes, note.dagId) && '-' !in note.stamp ==> NotedOnce(all)
  {
    all := notes + [note];
    assert all[..|notes|] == notes && all[|notes|] == note;
    forall k
      ensures Mentions(all, k) <==> Mentions(notes, k) || k == note.dagId
    {
      if Mentions(notes, k) {
        var i :| 0 <= i < |notes| && notes[i].dagId == k;
        assert all[i].dagId == k;
      }
    }
  }

  /** Without orphans nothing is announced. */
  lemma NothingToAnnounce(notes: seq<Note>, dags: map<string, Dag>)
    requires Announces(notes, dags) && forall k :: k in dags ==> !Orphaned(dags[k])
    ensures notes == []
  {
    if notes != [] {
      assert Mentions(notes, notes[0].dagId);
    }
  }

  lemma SweepIsAnnounced(before: SessionData, after: SessionData, notes: seq<Note>)
    requires Announces(notes, before.inlineDAGs)
    requires after == before.(inlineDAGs := SweptDags(before.inlineDAGs), messages := WithNotes(before.messages, notes))
    ensures SweepResult(before, after) && (notes == [] <==> !HasOrphans(before))
  {
    if notes != [] {
      assert Mentions(notes, notes[0].dagId);
    }
    if HasOrphans(before) {
      var k :| k in before.inlineDAGs && Orphaned(before.inlineDAGs[k]);
      assert Mentions(notes, k);
    }
  }

  /** Times hold no dash, so the id of an announcement tells its run. */
  lemma NoteIdTellsRun(m: Note, n: Note)
    requires '-' !in m.stamp && '-' !in n.stamp && NoteId(m) == NoteId(n)
    ensures m.dagId == n.dagId
  {
    if |m.stamp| < |n.stamp| {
      DashInside(m, n);
    } else if |n.stamp| < |m.stamp| {
      DashInside(n, m);
    } else {
      assert NoteId(m)[7..7 + |m.dagId|] == m.dagId && NoteId(n)[7..7 + |n.dagId|] == n.dagId;
    }
  }

  lemma DashInside(m: Note, n: Note)
    requires |m.stamp| < |n.stamp| && NoteId(m) == NoteId(n)
    ensures '-' in n.stamp
  {
    var k := 7 + |m.dagId|;
    assert NoteId(m)[k] == '-';
    assert NoteId(n)[k] == n.stamp[k - 8 - |n.dagId|];
  }

  function Messages(notes: seq<Note>): seq<Message> {
    seq(|notes|, i requires 0 <= i < |notes| => NoteMessage(notes[i]))
  }

  ghost predicate Unheard(messages: seq<Message>, notes: seq<Note>) {
    forall i, j :: 0 <= i < |messages| && 0 <= j < |notes| ==> messages[i].id != NoteId(notes[j])
  }

  /** If no old message bears such an id, all old ones stay as they are, under the cap, and the
      announcements follow them. */
  lemma {:induction false} NotesAreAppended(messages: seq<Message>, notes: seq<Note>)
    requires NotedOnce(notes) && Unheard(messages, notes) && notes != []
    ensures WithNotes(messages, notes) == Newest(messages + Messages(notes), MAX_MESSAGES)
    decreases |notes|
  {
    var init, last := notes[..|notes| - 1], notes[|notes| - 1];
    assert Messages(notes) == Messages(init) + [NoteMessage(last)];
    assert messages + Messages(notes) == (messages + Messages(init)) + [NoteMessage(last)];
    if init == [] {
      assert messages + Messages(init) == messages;
      NotAmong(messages, NoteMessage(last));
    } else {
      NotesAreAppended(messages, init);
      LastIsUnheard(messages, notes);
      NotAmong(Newest(messages + Messages(init), MAX_MESSAGES), NoteMessage(last));
      NewestAppend(messages + Messages(init), NoteMessage(last), MAX_MESSAGES);
    }
  }

  lemma NotAmong(messages: seq<Message>, m: Message)
    requires forall i :: 0 <= i < |messages| ==> messages[i].id != m.id
    ensures UpsertMessage(messages, m) == Newest(messages + [m], MAX_MESSAGES)
  {
  }

  lemma LastIsUnheard(messages: seq<Message>, notes: seq<Note>)
    requires NotedOnce(notes) && Unheard(messages, notes) && notes != []
    ensures var all := Newest(messages + Messages(notes[..|notes| - 1]), MAX_MESSAGES);
      forall i :: 0 <= i < |all| ==> all[i].id != NoteId(notes[|notes| - 1])
  {
    var last := notes[|notes| - 1];
    forall j | 0 <= j < |notes| - 1
      ensures NoteId(notes[j]) != NoteId(last)
    {
      if NoteId(notes[j]) == NoteId(last) {
        NoteIdTellsRun(notes[j], last);
      }
    }
  }

  /** No message announces a run that is still going. */
  ghost predicate Unannounced(d: SessionData) {
    forall i, k :: 0 <= i < |d.messages| && k in d.inlineDAGs && Orphaned(d.inlineDAGs[k]) ==>
      !("orphan-" + k + "-" <= d.messages[i].id)
  }

  /** So a restart keeps a session's messages and adds one for each interrupted run; under the
      cap only the oldest give way. */
  lemma SweepKeepsMessages(before: SessionData, after: SessionData)
    requires SweepResult(before, after) && HasOrphans(before) && Unannounced(before)
    ensures exists notes ::
      Announces(notes, before.inlineDAGs) && after.messages == Newest(before.messages + Messages(notes), MAX_MESSAGES)
  {
    var notes: seq<Note> :| Announces(notes, before.inlineDAGs) && after.messages == WithNotes(before.messages, notes);
    SweepIsAnnounced(before, after, notes);
    forall j | 0 <= j < |notes|
      ensures "orphan-" + notes[j].dagId + "-" <= NoteId(notes[j])
      ensures notes[j].dagId in before.inlineDAGs && Orphaned(before.inlineDAGs[notes[j].dagId])
    {
      assert Mentions(notes, notes[j].dagId);
    }
    assert Unheard(before.messages, notes);
    NotesAreAppended(before.messages, notes);
  }

  /** A second sweep finds nothing to do. */
  lemma SweptHasNoOrphans(before: SessionData, after: SessionData)
    requires SweepResult(before, after)
    ensures !HasOrphans(after)
  {
  }

  /** The sweep of a whole session: only its contents, and its time stamp if it had orphans. */
  ghost predicate SweptValue(before: SessionValue, after: SessionValue) {
    && SweepResult(before.data, after.data)
    && after.clients == before.clients && after.eventBuffer == before.eventBuffer
    && (!HasOrphans(before.data) ==> after.updatedAt == before.updatedAt)
  }

  ghost function OrphansAmong(m: map<string, SessionValue>, ids: set<string>): set<string> {
    set id | id in ids && id in m && HasOrphans(m[id].data)
  }

  lemma OneMoreSwept(m: map<string, SessionValue>, all: set<string>, rest: set<string>, id: string)
    requires m.Keys == all && rest <= all && id in rest
    ensures OrphansAmong(m, all - (rest - {id}))
         == OrphansAmong(m, all - rest) + if HasOrphans(m[id].data) then {id} else {}
  {
  }

  /** A session as read from its file: nobody connected, nothing buffered. */
  function Loaded(file: File): SessionValue { SessionValue(file.data, file.updatedAt, {}, []) }

  ghost function OrphanFiles(disk: map<string, File>): set<string> {
    set id | id in disk && HasOrphans(disk[id].data)
  }

  /** A store as the constructor leaves it: every file loaded and swept, no clients, no
      buffered events, the default session present. */
  ghost predicate Restarted(disk: map<string, File>, t: Store) {
    && t.disk == disk && t.counts == map[]
    && t.sessions.Keys == disk.Keys + {DEFAULT_SESSION_ID}
    && (forall id :: id in disk ==> SweptValue(Loaded(disk[id]), t.sessions[id]))
    && t.pending == (if DEFAULT_SESSION_ID in disk then {} else {DEFAULT_SESSION_ID}) + OrphanFiles(disk)
    && (DEFAULT_SESSION_ID !in disk ==> WithinCap(t.sessions[DEFAULT_SESSION_ID].data))
  }

  function WithDefault(loaded: map<string, SessionValue>, now: int): map<string, SessionValue> {
    if DEFAULT_SESSION_ID in loaded then loaded
    else loaded[DEFAULT_SESSION_ID := SessionValue(NewData("Default"), now, {}, [])]
  }

  lemma RestartWithDefault(disk: map<string, File>, loaded: map<string, SessionValue>, now: int, t: Store)
    requires loaded.Keys == disk.Keys && forall id :: id in disk ==> SweptValue(Loaded(disk[id]), loaded[id])
    requires t.sessions == WithDefault(loaded, now) && t.disk == disk && t.counts == map[]
    requires t.pending == (if DEFAULT_SESSION_ID in disk then {} else {DEFAULT_SESSION_ID}) + OrphanFiles(disk)
    ensures Restarted(disk, t)
  {
  }

  lemma SweepIsIdentityIff(before: SessionData, after: SessionData)
    requires SweepResult(before, after)
    ensures after == before <==> !HasOrphans(before)
  {
    if HasOrphans(before) {
      var k :| k in before.inlineDAGs && Orphaned(before.inlineDAGs[k]);
      assert !Orphaned(after.inlineDAGs[k]);
    } else {
      var notes :| Announces(notes, before.inlineDAGs) && after.messages == WithNotes(before.messages, notes);
      NothingToAnnounce(notes, before.inlineDAGs);
      assert SweptDags(before.inlineDAGs) == before.inlineDAGs;
    }
  }

  lemma RestartIsTracked(disk: map<string, File>, t: Store)
    requires Restarted(disk, t) && forall id :: id in disk ==> WithinCap(disk[id].data)
    ensures Tracked(t)
  {
    forall id
      ensures TrackedEntry(At(t, id))
    {
      if id in disk {
        assert WithinCap(disk[id].data) && SweptValue(Loaded(disk[id]), t.sessions[id]);
        SweepIsIdentityIff(disk[id].data, t.sessions[id].data);
        UpToDateLags(disk[id].data, 0);
      }
    }
  }

  /** Shutting down and starting again gives back every session: its persisted contents
      unchanged exactly when none of its runs was still going. */
  lemma RestartRestoresIff(st: Store, t: Store, id: string)
    requires Tracked(st) && Restarted(Flushed(st).disk, t) && id in st.sessions
    ensures Tracked(t) && t.sessions.Keys == st.sessions.Keys + {DEFAULT_SESSION_ID}
    ensures t.sessions[id].data == st.sessions[id].data <==> !HasOrphans(st.sessions[id].data)
    ensures SweepResult(st.sessions[id].data, t.sessions[id].data)
    ensures t.sessions[id].clients == {} && t.sessions[id].eventBuffer == []
  {
    ShutdownWritesEverything(st);
    assert SweptValue(Loaded(Flushed(st).disk[id]), t.sessions[id]);
    SweepIsIdentityIff(st.sessions[id].data, t.sessions[id].data);
    forall k | k in Flushed(st).disk
      ensures WithinCap(Flushed(st).disk[k].data)
    {
      assert TrackedEntry(At(st, k));
    }
    RestartIsTracked(Flushed(st).disk, t);
  }

  /** So it does after any run of a manager that was itself started that way. */
  lemma RunThenRestart(st: Store, ops: seq<Op>, t: Store, id: string)
    requires Tracked(st) && st.json
    ensures var final := Run(st, ops);
      Restarted(Flushed(final).disk, t) && id in final.sessions ==>
        Tracked(t) && id in t.sessions
        && (t.sessions[id].data == final.sessions[id].data <==> !HasOrphans(final.sessions[id].data))
        && SweepResult(final.sessions[id].data, t.sessions[id].data)
  {
    RunKeepsTracked(st, ops);
    if Restarted(Flushed(Run(st, ops)).disk, t) && id in Run(st, ops).sessions {
      RestartRestoresIff(Run(st, ops), t, id);
    }
  }
}
