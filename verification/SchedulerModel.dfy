/** The cron scheduler as a state machine: one step for every stretch of code that runs between
    two suspension points (packages/gateway/src/scheduler.ts). Times are milliseconds. */
module SchedulerModel {
  import opened Basics

  datatype Policy = Skip | Queue | Allow
  datatype TaskStatus = Active | Paused | Deleted
  datatype ExecStatus = Running | Completed | Failed | TimedOut | Skipped
  datatype Outcome = Success | Failure | Timeout

  /** A row of scheduled_tasks: the columns that decide anything. */
  datatype Task = Task(
    status: TaskStatus, policy: Policy, oneShot: bool, maxRetries: int, lastRunAt: Option<int>, runCount: nat)

  /** A row of task_executions; `interrupted` marks rows failed by the recovery at start. */
  datatype Exec = Exec(taskId: string, status: ExecStatus, startedAt: int, interrupted: bool)

  /** A suspended execution: what `executeTask` captured at admission, and its attempt. */
  datatype Flight = Flight(taskId: string, oneShot: bool, totalAttempts: nat, attempt: nat)

  datatype Config = Config(maxConcurrent: int, minIntervalMs: int)

  datatype State = State(
    started: bool, tasks: map<string, Task>, execs: map<nat, Exec>,
    jobs: set<string>, running: map<string, nat>, flights: map<nat, Flight>)

  datatype Step =
    | Start(mountable: set<string>)
    | Stop
    | Crash
    | Create(id: string, policy: Policy, oneShot: bool, maxRetries: int, mounts: bool)
    | Update(id: string, newPolicy: Option<Policy>, newRetries: Option<int>, reschedule: bool, mounts: bool)
    | Pause(id: string)
    | Resume(id: string, mounts: bool)
    | Delete(id: string)
    | Fire(cron: bool, id: string, exec: nat, gateNow: int, startedAt: int)
    | Attempt(exec: nat, outcome: Outcome)

  /* ------------------------------- small parts ------------------------------- */

  /** JavaScript's `running.get(id) ?? 0`. */
  function Count(running: map<string, nat>, id: string): nat {
    if id in running then running[id] else 0
  }

  /** The sum of all entries, in any order. */
  ghost function Total(m: map<string, nat>): nat {
    if m == map[] then 0 else var k :| k in m; m[k] + Total(m - {k})
  }

  function Mount(s: State, id: string, mounts: bool): State {
    if id in s.tasks && s.tasks[id].status == Active && mounts then s.(jobs := s.jobs + {id}) else s
  }

  function Recover(row: Exec): Exec {
    if row.status == Running then row.(status := Failed, interrupted := true) else row
  }

  function WithStatus(s: State, id: string, status: TaskStatus): State
    requires id in s.tasks
  {
    s.(tasks := s.tasks[id := s.tasks[id].(status := status)])
  }

  datatype Verdict = Admit | SkipRow | Ignore

  /** What becomes of a trigger, gate by gate. */
  ghost function Judge(config: Config, s: State, cron: bool, id: string, now: int): Verdict {
    if id !in s.tasks then Ignore
    else
      var task := s.tasks[id];
      if cron && task.status != Active then Ignore
      else if Total(s.running) >= config.maxConcurrent then SkipRow
      else if task.lastRunAt.Some? && config.minIntervalMs > 0
              && now - task.lastRunAt.value < config.minIntervalMs then SkipRow
      else if Count(s.running, id) > 0 && task.policy != Allow then SkipRow
      else Admit
  }

  function TotalAttempts(task: Task): nat { if task.maxRetries > 0 then task.maxRetries + 1 else 1 }

  function Admitted(s: State, id: string, exec: nat, startedAt: int): State
    requires id in s.tasks
  {
    var task := s.tasks[id];
    s.(running := s.running[id := Count(s.running, id) + 1],
       execs := s.execs[exec := Exec(id, Running, startedAt, false)],
       tasks := s.tasks[id := task.(lastRunAt := Some(startedAt))],
       flights := s.flights[exec := Flight(id, task.oneShot, TotalAttempts(task), 1)])
  }

  /** Everything after the last suspension: the counter, the row, the task, the auto-pause. */
  function Finished(s: State, exec: nat, status: ExecStatus): State
    requires exec in s.flights && exec in s.execs && s.flights[exec].taskId in s.tasks
  {
    var f := s.flights[exec];
    var id := f.taskId;
    var count: int := if id in s.running then s.running[id] else 1;
    var remaining := count - 1;
    var task := s.tasks[id].(runCount := s.tasks[id].runCount + 1);
    s.(running := if remaining <= 0 then s.running - {id} else s.running[id := remaining],
       execs := s.execs[exec := s.execs[exec].(status := status)],
       tasks := s.tasks[id := if f.oneShot then task.(status := Paused) else task],
       jobs := if f.oneShot then s.jobs - {id} else s.jobs,
       flights := s.flights - {exec})
  }

  /** The next attempt of the same execution. */
  function Retried(s: State, exec: nat): State
    requires exec in s.flights
  {
    s.(flights := s.flights[exec := s.flights[exec].(attempt := s.flights[exec].attempt + 1)])
  }

  function FinalStatus(outcome: Outcome): ExecStatus {
    match outcome case Success => Completed case Failure => Failed case Timeout => TimedOut
  }

  /* ------------------------------- the transition ------------------------------- */

  /** What the environment guarantees: identifiers are fresh, the clock does not run backwards
      within a step, and only suspended executions report. */
  ghost predicate Enabled(s: State, step: Step) {
    match step
    case Create(id, _, _, _, _) => id !in s.tasks
    case Fire(_, _, exec, gateNow, startedAt) => exec !in s.execs && gateNow <= startedAt
    case Attempt(exec, _) => exec in s.flights && exec in s.execs && s.flights[exec].taskId in s.tasks
    case _ => true
  }

  /** `stop()` clears jobs and counters but cannot recall executions in flight. */
  function Stopped(s: State): State {
    s.(started := false, jobs := {}, running := map[])
  }

  ghost function Next(config: Config, s: State, step: Step): State
    requires Enabled(s, step)
  {
    match step
    case Start(mountable) =>
      if s.started then s
      else s.(started := true,
              execs := map e | e in s.execs :: Recover(s.execs[e]),
              jobs := s.jobs + set id | id in s.tasks && s.tasks[id].status == Active && id in mountable)
    case Stop => Stopped(s)
    case Crash => s.(started := false, jobs := {}, running := map[], flights := map[])
    case Create(id, policy, oneShot, maxRetries, mounts) =>
      Mount(s.(tasks := s.tasks[id := Task(Active, policy, oneShot, maxRetries, None, 0)]), id, mounts)
    case Update(id, newPolicy, newRetries, reschedule, mounts) =>
      if id !in s.tasks then s
      else
        var task := s.tasks[id];
        var updated := task.(policy := if newPolicy.Some? then newPolicy.value else task.policy,
                             maxRetries := if newRetries.Some? then newRetries.value else task.maxRetries);
        var s' := s.(tasks := s.tasks[id := updated]);
        if reschedule then Mount(s'.(jobs := s.jobs - {id}), id, mounts) else s'
    case Pause(id) => if id !in s.tasks then s else WithStatus(s, id, Paused).(jobs := s.jobs - {id})
    case Resume(id, mounts) => if id !in s.tasks then s else Mount(WithStatus(s, id, Active), id, mounts)
    case Delete(id) => if id !in s.tasks then s else WithStatus(s, id, Deleted).(jobs := s.jobs - {id})
    case Fire(cron, id, exec, gateNow, startedAt) =>
      (match Judge(config, s, cron, id, gateNow)
       case Ignore => s
       case SkipRow => s.(execs := s.execs[exec := Exec(id, Skipped, gateNow, false)])
       case Admit => Admitted(s, id, exec, startedAt))
    case Attempt(exec, outcome) =>
      var f := s.flights[exec];
      if outcome == Success || f.attempt >= f.totalAttempts then Finished(s, exec, FinalStatus(outcome))
      else Retried(s, exec)
  }

  /* ------------------------------- what is kept ------------------------------- */

  ghost function FlightsOf(flights: map<nat, Flight>, id: string): set<nat> {
    set e | e in flights && flights[e].taskId == id
  }

  ghost function RunningRows(execs: map<nat, Exec>, id: string): set<nat> {
    set e | e in execs && execs[e].taskId == id && execs[e].status == Running
  }

  ghost predicate IsFinished(row: Exec) {
    !row.interrupted && row.status != Running && row.status != Skipped
  }

  /** Executions of a task that ran to their end under a live scheduler. */
  ghost function FinishedRows(execs: map<nat, Exec>, id: string): set<nat> {
    set e | e in execs && execs[e].taskId == id && IsFinished(execs[e])
  }

  /** The suspended executions are exactly the rows in state 'running'; before `start`, rows of
      a dead process may say so too. */
  ghost predicate RowsMatch(started: bool, execs: map<nat, Exec>, flights: map<nat, Flight>) {
    && (forall e :: e in flights ==>
          e in execs && execs[e].status == Running && execs[e].taskId == flights[e].taskId)
    && (started ==> forall e :: e in execs && execs[e].status == Running ==> e in flights)
    && (forall e :: e in execs && execs[e].interrupted ==> execs[e].status == Failed)
  }

  /** The in-flight counter of each task is the number of its suspended executions. */
  ghost predicate PerTaskCounts(running: map<string, nat>, flights: map<nat, Flight>) {
    && (forall id :: id in running ==> running[id] > 0)
    && (forall id :: Count(running, id) == |FlightsOf(flights, id)|)
  }

  ghost predicate CountsMatch(running: map<string, nat>, flights: map<nat, Flight>) {
    PerTaskCounts(running, flights) && Total(running) == |flights|
  }

  ghost predicate AttemptsInRange(flights: map<nat, Flight>) {
    forall e :: e in flights ==> 1 <= flights[e].attempt <= flights[e].totalAttempts
  }

  /** Only active tasks are mounted. */
  ghost predicate JobsAreActive(tasks: map<string, Task>, jobs: set<string>) {
    forall id :: id in jobs ==> id in tasks && tasks[id].status == Active
  }

  ghost predicate Ran(row: Exec) { row.status != Skipped }

  /** Every execution row belongs to a task; with a minimum interval in force, the task
      remembers its latest start. */
  ghost predicate StartsRemembered(config: Config, tasks: map<string, Task>, execs: map<nat, Exec>) {
    forall e :: e in execs ==> Remembered(config, tasks, execs[e])
  }

  ghost predicate Remembered(config: Config, tasks: map<string, Task>, row: Exec) {
    row.taskId in tasks &&
    (Ran(row) && config.minIntervalMs > 0 ==>
      var last := tasks[row.taskId].lastRunAt; last.Some? && row.startedAt <= last.value)
  }

  ghost predicate Apart(config: Config, a: Exec, b: Exec) {
    a.taskId == b.taskId && Ran(a) && Ran(b) ==>
    a.startedAt + config.minIntervalMs <= b.startedAt || b.startedAt + config.minIntervalMs <= a.startedAt
  }

  /** Any two admitted starts of one task are at least the minimum interval apart. */
  ghost predicate StartsSpaced(config: Config, execs: map<nat, Exec>) {
    config.minIntervalMs > 0 ==>
      (forall d, e :: d in execs && e in execs && d != e ==> Apart(config, execs[d], execs[e]))
  }

  /** The run counter of a task counts its finished executions. */
  ghost predicate RunsCounted(tasks: map<string, Task>, execs: map<nat, Exec>) {
    forall id :: id in tasks ==> tasks[id].runCount == |FinishedRows(execs, id)|
  }

  /** What memory and the database agree on. */
  ghost predicate Coherent(config: Config, s: State) {
    && RowsMatch(s.started, s.execs, s.flights)
    && CountsMatch(s.running, s.flights)
    && AttemptsInRange(s.flights)
    && |s.flights| <= Positive(config.maxConcurrent)
    && JobsAreActive(s.tasks, s.jobs)
  }

  /** What the rows of the database record. */
  ghost predicate Recorded(config: Config, s: State) {
    && StartsRemembered(config, s.tasks, s.execs)
    && StartsSpaced(config, s.execs)
    && RunsCounted(s.tasks, s.execs)
  }

  ghost predicate Good(config: Config, s: State) {
    Coherent(config, s) && Recorded(config, s)
  }

  /** Starting and stopping happen with nothing in flight: the recovery at start would fail the
      rows of living executions, and `stop()` would forget them. */
  ghost predicate Clean(s: State, step: Step) {
    && (step.Start? && !s.started ==> s.flights == map[])
    && (step.Stop? ==> s.flights == map[])
  }

  /* ------------------------------- sums ------------------------------- */

  lemma {:induction false} TotalWithout(m: map<string, nat>, k: string)
    requires k in m
    ensures Total(m) == m[k] + Total(m - {k})
    decreases m
  {
    var j :| j in m && Total(m) == m[j] + Total(m - {j});
    if j != k {
      TotalWithout(m - {j}, k);
      TotalWithout(m - {k}, j);
      assert m - {j} - {k} == m - {k} - {j};
    }
  }

  lemma TotalUpdate(m: map<string, nat>, k: string, v: nat)
    ensures Total(m[k := v]) == Total(m) - Count(m, k) + v
    ensures Total(m - {k}) == Total(m) - Count(m, k)
  {
    TotalWithout(m[k := v], k);
    assert m[k := v] - {k} == m - {k};
    if k in m {
      TotalWithout(m, k);
    } else {
      assert m - {k} == m;
    }
  }

  /* ------------------------------- one component at a time ------------------------------- */

  lemma OneFlightMore(flights: map<nat, Flight>, exec: nat, f: Flight, k: string)
    requires exec !in flights
    ensures |FlightsOf(flights[exec := f], k)| == |FlightsOf(flights, k)| + if k == f.taskId then 1 else 0
  {
    var before, after := FlightsOf(flights, k), FlightsOf(flights[exec := f], k);
    assert exec !in before;
    if k == f.taskId {
      assert after == before + {exec};
    } else {
      assert after == before;
    }
  }

  lemma CountsAfterAdmit(running: map<string, nat>, flights: map<nat, Flight>, id: string, exec: nat, f: Flight)
    requires PerTaskCounts(running, flights) && exec !in flights && f.taskId == id
    ensures PerTaskCounts(running[id := Count(running, id) + 1], flights[exec := f])
  {
    var running', flights' := running[id := Count(running, id) + 1], flights[exec := f];
    forall k
      ensures Count(running', k) == |FlightsOf(flights', k)|
    {
      OneFlightMore(flights, exec, f, k);
    }
  }

  lemma TotalAfterAdmit(running: map<string, nat>, flights: map<nat, Flight>, id: string, exec: nat, f: Flight)
    requires exec !in flights && Total(running) == |flights|
    ensures Total(running[id := Count(running, id) + 1]) == |flights[exec := f]| == |flights| + 1
  {
    TotalUpdate(running, id, Count(running, id) + 1);
  }

  function Decremented(running: map<string, nat>, id: string): map<string, nat> {
    if Count(running, id) <= 1 then running - {id} else running[id := running[id] - 1]
  }

  lemma CountsAfterFinish(running: map<string, nat>, flights: map<nat, Flight>, exec: nat)
    requires PerTaskCounts(running, flights) && exec in flights
    ensures flights[exec].taskId in running
    ensures PerTaskCounts(Decremented(running, flights[exec].taskId), flights - {exec})
  {
    var id, fewer := flights[exec].taskId, flights - {exec};
    assert exec in FlightsOf(flights, id);
    assert Count(running, id) >= 1;
    assert fewer[exec := flights[exec]] == flights;
    var running' := Decremented(running, id);
    forall k
      ensures Count(running', k) == |FlightsOf(fewer, k)|
    {
      OneFlightMore(fewer, exec, flights[exec], k);
    }
  }

  lemma TotalAfterFinish(running: map<string, nat>, flights: map<nat, Flight>, exec: nat)
    requires exec in flights && flights[exec].taskId in running && running[flights[exec].taskId] > 0
    requires Total(running) == |flights|
    ensures Total(Decremented(running, flights[exec].taskId)) == |flights - {exec}| == |flights| - 1
  {
    var id, fewer := flights[exec].taskId, flights - {exec};
    assert fewer[exec := flights[exec]] == flights;
    TotalUpdate(running, id, running[id] - 1);
  }

  lemma FinishedAfterFinish(execs: map<nat, Exec>, exec: nat, status: ExecStatus, id: string)
    requires exec in execs && execs[exec].status == Running && !execs[exec].interrupted
    requires status != Running && status != Skipped
    ensures var after := FinishedRows(execs[exec := execs[exec].(status := status)], id);
            |after| == |FinishedRows(execs, id)| + if execs[exec].taskId == id then 1 else 0
  {
    var execs' := execs[exec := execs[exec].(status := status)];
    assert exec !in FinishedRows(execs, id);
    assert FinishedRows(execs', id)
        == FinishedRows(execs, id) + (if execs[exec].taskId == id then {exec} else {});
  }

  lemma SpacedAfterAdmit(config: Config, tasks: map<string, Task>, execs: map<nat, Exec>, exec: nat, row: Exec)
    requires StartsRemembered(config, tasks, execs) && StartsSpaced(config, execs) && exec !in execs
    requires row.taskId in tasks
    requires config.minIntervalMs > 0 && tasks[row.taskId].lastRunAt.Some? ==>
      tasks[row.taskId].lastRunAt.value + config.minIntervalMs <= row.startedAt
    ensures StartsSpaced(config, execs[exec := row])
  {
  }

  lemma SameFinished(execs: map<nat, Exec>, execs': map<nat, Exec>)
    requires forall e :: e in execs && IsFinished(execs[e]) ==> e in execs' && execs'[e] == execs[e]
    requires forall e :: e in execs' && IsFinished(execs'[e]) ==> e in execs && execs[e] == execs'[e]
    ensures forall id :: FinishedRows(execs', id) == FinishedRows(execs, id)
  {
  }

  /* ------------------------------- every step keeps it ------------------------------- */

  /** The same row up to its status, not turned into or out of a skipped one. */
  ghost predicate SameStart(a: Exec, b: Exec) {
    a.taskId == b.taskId && a.startedAt == b.startedAt && Ran(a) == Ran(b)
  }

  ghost predicate SameStarts(execs: map<nat, Exec>, execs': map<nat, Exec>) {
    forall e :: e in execs' ==> e in execs && SameStart(execs[e], execs'[e])
  }

  lemma RememberedIfSameStarts(config: Config, tasks: map<string, Task>, tasks': map<string, Task>,
                               execs: map<nat, Exec>, execs': map<nat, Exec>)
    requires StartsRemembered(config, tasks, execs) && SameStarts(execs, execs')
    requires forall id :: id in tasks ==> id in tasks' && tasks'[id].lastRunAt == tasks[id].lastRunAt
    ensures StartsRemembered(config, tasks', execs')
  {
  }

  lemma NoRowsOfNewTask(config: Config, tasks: map<string, Task>, execs: map<nat, Exec>, id: string)
    requires StartsRemembered(config, tasks, execs) && id !in tasks
    ensures FinishedRows(execs, id) == {}
  {
  }

  ghost predicate IsEdit(step: Step) {
    step.Create? || step.Update? || step.Pause? || step.Resume? || step.Delete?
  }

  ghost predicate SameRuns(a: Task, b: Task) {
    b.lastRunAt == a.lastRunAt && b.runCount == a.runCount
  }

  lemma EditLeavesExecutions(config: Config, s: State, step: Step)
    requires Enabled(s, step) && IsEdit(step)
    ensures var t := Next(config, s, step);
      t.execs == s.execs && t.running == s.running && t.flights == s.flights && t.started == s.started
  {
  }

  /** An edit leaves executions alone, loses no task and no memory of its runs. */
  lemma EditFacts(config: Config, s: State, step: Step)
    requires Enabled(s, step) && IsEdit(step)
    ensures var t := Next(config, s, step);
      && t.execs == s.execs && t.running == s.running && t.flights == s.flights && t.started == s.started
      && (forall id :: id in s.tasks ==> id in t.tasks && SameRuns(s.tasks[id], t.tasks[id]))
      && (forall id :: id in t.tasks && id !in s.tasks ==> step.Create? && id == step.id && t.tasks[id].runCount == 0)
  {
    EditLeavesExecutions(config, s, step);
    var t := Next(config, s, step);
    forall id
      ensures id in s.tasks ==> id in t.tasks && SameRuns(s.tasks[id], t.tasks[id])
      ensures id in t.tasks && id !in s.tasks ==> step.Create? && id == step.id && t.tasks[id].runCount == 0
    {
    }
  }

  lemma EditKeepsCoherent(config: Config, s: State, step: Step)
    requires Coherent(config, s) && Enabled(s, step) && IsEdit(step)
    ensures Coherent(config, Next(config, s, step))
  {
    EditFacts(config, s, step);
  }

  lemma EditKeepsRecorded(config: Config, s: State, step: Step)
    requires Recorded(config, s) && Enabled(s, step) && IsEdit(step)
    ensures Recorded(config, Next(config, s, step))
  {
    EditFacts(config, s, step);
    RememberedIfSameStarts(config, s.tasks, Next(config, s, step).tasks, s.execs, s.execs);
    if step.Create? {
      NoRowsOfNewTask(config, s.tasks, s.execs, step.id);
    }
  }

  lemma StartKeepsCoherent(config: Config, s: State, mountable: set<string>)
    requires Coherent(config, s) && Clean(s, Start(mountable))
    ensures Coherent(config, Next(config, s, Start(mountable)))
  {
  }

  lemma StartKeepsRecorded(config: Config, s: State, mountable: set<string>)
    requires Recorded(config, s) && !s.started
    ensures Recorded(config, Next(config, s, Start(mountable)))
  {
    var t := Next(config, s, Start(mountable));
    SameFinished(s.execs, t.execs);
    RememberedIfSameStarts(config, s.tasks, s.tasks, s.execs, t.execs);
  }

  lemma CrashKeepsGood(config: Config, s: State)
    requires Good(config, s)
    ensures Good(config, Next(config, s, Crash))
  {
  }

  lemma SkipRowKeepsRecorded(config: Config, s: State, exec: nat, row: Exec)
    requires Recorded(config, s) && row.taskId in s.tasks && exec !in s.execs && row.status == Skipped
    ensures Recorded(config, s.(execs := s.execs[exec := row]))
  {
    var execs' := s.execs[exec := row];
    SameFinished(s.execs, execs');
    if config.minIntervalMs > 0 {
      forall d, e | d in execs' && e in execs' && d != e
        ensures Apart(config, execs'[d], execs'[e])
      {
        assert d != exec && e != exec ==> Apart(config, s.execs[d], s.execs[e]);
      }
    }
    forall e | e in execs'
      ensures Remembered(config, s.tasks, execs'[e])
    {
      assert e != exec ==> Remembered(config, s.tasks, s.execs[e]);
    }
  }

  lemma AdmitKeepsRows(started: bool, execs: map<nat, Exec>, flights: map<nat, Flight>, exec: nat, row: Exec, f: Flight)
    requires RowsMatch(started, execs, flights) && exec !in execs
    requires row.status == Running && row.taskId == f.taskId && !row.interrupted
    ensures RowsMatch(started, execs[exec := row], flights[exec := f])
  {
  }

  lemma AdmitKeepsCoherent(config: Config, s: State, id: string, exec: nat, startedAt: int)
    requires Coherent(config, s) && exec !in s.execs && id in s.tasks
    requires Total(s.running) < config.maxConcurrent
    ensures Coherent(config, Admitted(s, id, exec, startedAt))
  {
    assert exec !in s.flights;
    var t := Admitted(s, id, exec, startedAt);
    var f := t.flights[exec];
    AdmitKeepsRows(s.started, s.execs, s.flights, exec, t.execs[exec], f);
    CountsAfterAdmit(s.running, s.flights, id, exec, f);
    TotalAfterAdmit(s.running, s.flights, id, exec, f);
  }

  lemma AdmitKeepsRecorded(config: Config, s: State, cron: bool, id: string, exec: nat, gateNow: int, startedAt: int)
    requires Recorded(config, s) && exec !in s.execs && gateNow <= startedAt
    requires Judge(config, s, cron, id, gateNow) == Admit
    ensures Recorded(config, Admitted(s, id, exec, startedAt))
  {
    var t := Admitted(s, id, exec, startedAt);
    SameFinished(s.execs, t.execs);
    SpacedAfterAdmit(config, s.tasks, s.execs, exec, t.execs[exec]);
    forall e | e in t.execs
      ensures Remembered(config, t.tasks, t.execs[e])
    {
      assert e != exec ==> Remembered(config, s.tasks, s.execs[e]);
    }
  }

  lemma FinishKeepsCoherent(config: Config, s: State, exec: nat, status: ExecStatus)
    requires Coherent(config, s) && exec in s.flights && s.flights[exec].taskId in s.tasks
    requires status != Running && status != Skipped
    ensures Coherent(config, Finished(s, exec, status))
  {
    CountsAfterFinish(s.running, s.flights, exec);
    TotalAfterFinish(s.running, s.flights, exec);
    assert Finished(s, exec, status).running == Decremented(s.running, s.flights[exec].taskId);
  }

  lemma FinishKeepsRecorded(config: Config, s: State, exec: nat, status: ExecStatus)
    requires Recorded(config, s) && exec in s.flights && exec in s.execs
    requires s.execs[exec].status == Running && !s.execs[exec].interrupted
    requires s.execs[exec].taskId == s.flights[exec].taskId && s.flights[exec].taskId in s.tasks
    requires status != Running && status != Skipped
    ensures Recorded(config, Finished(s, exec, status))
  {
    var t := Finished(s, exec, status);
    RememberedIfSameStarts(config, s.tasks, t.tasks, s.execs, t.execs);
    forall k | k in t.tasks
      ensures t.tasks[k].runCount == |FinishedRows(t.execs, k)|
    {
      FinishedAfterFinish(s.execs, exec, status, k);
    }
  }

  lemma RetryKeepsCoherent(config: Config, s: State, exec: nat)
    requires Coherent(config, s) && exec in s.flights && s.flights[exec].attempt < s.flights[exec].totalAttempts
    ensures Coherent(config, Retried(s, exec))
  {
    var flights' := Retried(s, exec).flights;
    assert flights'.Keys == s.flights.Keys;
    assert |flights'| == |flights'.Keys| == |s.flights|;
    forall id
      ensures FlightsOf(flights', id) == FlightsOf(s.flights, id)
    {
    }
  }

  lemma FireKeepsCoherent(config: Config, s: State, cron: bool, id: string, exec: nat, gateNow: int, startedAt: int)
    requires Coherent(config, s) && Enabled(s, Fire(cron, id, exec, gateNow, startedAt))
    ensures Coherent(config, Next(config, s, Fire(cron, id, exec, gateNow, startedAt)))
  {
    var t := Next(config, s, Fire(cron, id, exec, gateNow, startedAt));
    match Judge(config, s, cron, id, gateNow) {
      case Ignore =>
        assert t == s;
      case SkipRow =>
        assert t == s.(execs := s.execs[exec := Exec(id, Skipped, gateNow, false)]);
      case Admit =>
        AdmitKeepsCoherent(config, s, id, exec, startedAt);
        assert t == Admitted(s, id, exec, startedAt);
    }
  }

  lemma FireKeepsRecorded(config: Config, s: State, cron: bool, id: string, exec: nat, gateNow: int, startedAt: int)
    requires Recorded(config, s) && Enabled(s, Fire(cron, id, exec, gateNow, startedAt))
    ensures Recorded(config, Next(config, s, Fire(cron, id, exec, gateNow, startedAt)))
  {
    var t := Next(config, s, Fire(cron, id, exec, gateNow, startedAt));
    match Judge(config, s, cron, id, gateNow) {
      case Ignore =>
        assert t == s;
      case SkipRow =>
        SkipRowKeepsRecorded(config, s, exec, Exec(id, Skipped, gateNow, false));
        assert t == s.(execs := s.execs[exec := Exec(id, Skipped, gateNow, false)]);
      case Admit =>
        AdmitKeepsRecorded(config, s, cron, id, exec, gateNow, startedAt);
        assert t == Admitted(s, id, exec, startedAt);
    }
  }

  lemma AttemptKeepsCoherent(config: Config, s: State, exec: nat, outcome: Outcome)
    requires Coherent(config, s) && Enabled(s, Attempt(exec, outcome))
    ensures Coherent(config, Next(config, s, Attempt(exec, outcome)))
  {
    if outcome == Success || s.flights[exec].attempt >= s.flights[exec].totalAttempts {
      FinishKeepsCoherent(config, s, exec, FinalStatus(outcome));
      assert Next(config, s, Attempt(exec, outcome)) == Finished(s, exec, FinalStatus(outcome));
    } else {
      RetryKeepsCoherent(config, s, exec);
      assert Next(config, s, Attempt(exec, outcome)) == Retried(s, exec);
    }
  }

  lemma AttemptKeepsRecorded(config: Config, s: State, exec: nat, outcome: Outcome)
    requires Recorded(config, s) && RowsMatch(s.started, s.execs, s.flights) && Enabled(s, Attempt(exec, outcome))
    ensures Recorded(config, Next(config, s, Attempt(exec, outcome)))
  {
    if outcome == Success || s.flights[exec].attempt >= s.flights[exec].totalAttempts {
      FinishKeepsRecorded(config, s, exec, FinalStatus(outcome));
    }
  }

  lemma StepKeepsGood(config: Config, s: State, step: Step)
    requires Good(config, s) && Enabled(s, step) && Clean(s, step)
    ensures Good(config, Next(config, s, step))
  {
    if IsEdit(step) {
      EditKeepsCoherent(config, s, step);
      EditKeepsRecorded(config, s, step);
    } else {
      match step {
        case Start(mountable) =>
          StartKeepsCoherent(config, s, mountable);
          if !s.started {
            StartKeepsRecorded(config, s, mountable);
          }
        case Stop =>
          CrashKeepsGood(config, s);
          assert Stopped(s) == Next(config, s, Crash);
        case Crash => CrashKeepsGood(config, s);
        case Fire(cron, id, exec, gateNow, startedAt) =>
          FireKeepsCoherent(config, s, cron, id, exec, gateNow, startedAt);
          FireKeepsRecorded(config, s, cron, id, exec, gateNow, startedAt);
        case Attempt(exec, outcome) =>
          AttemptKeepsCoherent(config, s, exec, outcome);
          AttemptKeepsRecorded(config, s, exec, outcome);
      }
    }
  }

  /** Those two are the only steps that can break the agreement of memory and database, and they
      do so exactly when something is in flight. */
  lemma StepKeepsCoherentIff(config: Config, s: State, step: Step)
    requires Good(config, s) && Enabled(s, step)
    ensures Coherent(config, Next(config, s, step)) <==> Clean(s, step)
  {
    if Clean(s, step) {
      StepKeepsGood(config, s, step);
    } else {
      var e :| e in s.flights;
    }
  }

  /* ------------------------------- whole runs ------------------------------- */

  const EMPTY := State(false, map[], map[], {}, map[], map[])

  ghost predicate CanRun(config: Config, s: State, steps: seq<Step>)
    decreases |steps|
  {
    steps == [] || (Enabled(s, steps[0]) && CanRun(config, Next(config, s, steps[0]), steps[1..]))
  }

  ghost function Run(config: Config, s: State, steps: seq<Step>): State
    requires CanRun(config, s, steps)
    decreases |steps|
  {
    if steps == [] then s else Run(config, Next(config, s, steps[0]), steps[1..])
  }

  /** Whenever the run starts or stops the scheduler, nothing is in flight. */
  ghost predicate CleanRun(config: Config, s: State, steps: seq<Step>)
    requires CanRun(config, s, steps)
    decreases |steps|
  {
    steps == [] || (Clean(s, steps[0]) && CleanRun(config, Next(config, s, steps[0]), steps[1..]))
  }

  lemma {:induction false} RunKeepsGood(config: Config, s: State, steps: seq<Step>)
    requires Good(config, s) && CanRun(config, s, steps) && CleanRun(config, s, steps)
    ensures Good(config, Run(config, s, steps))
    decreases |steps|
  {
    if steps != [] {
      StepKeepsGood(config, s, steps[0]);
      RunKeepsGood(config, Next(config, s, steps[0]), steps[1..]);
    }
  }

  /** The safety of the scheduler over every run from an empty database, restarts included:
      while it is up, each counter is the number of 'running' rows of its task, their sum stays
      under the cap, only active tasks are mounted; at all times, starts of one task are spaced
      by the minimum interval and the run counter counts the finished executions. */
  lemma EveryRunIsSafe(config: Config, steps: seq<Step>)
    requires CanRun(config, EMPTY, steps) && CleanRun(config, EMPTY, steps)
    ensures var s := Run(config, EMPTY, steps);
      && (s.started ==> forall id :: Count(s.running, id) == |RunningRows(s.execs, id)|)
      && Total(s.running) <= Positive(config.maxConcurrent)
      && (forall id :: id in s.jobs ==> id in s.tasks && s.tasks[id].status == Active)
      && StartsSpaced(config, s.execs)
      && RunsCounted(s.tasks, s.execs)
  {
    RunKeepsGood(config, EMPTY, steps);
    var s := Run(config, EMPTY, steps);
    if s.started {
      forall id
        ensures RunningRows(s.execs, id) == FlightsOf(s.flights, id)
      {
      }
    }
  }

  /** A row that left the state 'running' never changes again: each is finalised once. */
  lemma FinalRowIsFinal(config: Config, s: State, step: Step, exec: nat)
    requires Coherent(config, s) && Enabled(s, step) && exec in s.execs && s.execs[exec].status != Running
    ensures var t := Next(config, s, step); exec in t.execs && t.execs[exec] == s.execs[exec]
  {
  }

  lemma {:induction false} FinalRowIsFinalInRun(config: Config, s: State, steps: seq<Step>, exec: nat)
    requires Good(config, s) && CanRun(config, s, steps) && CleanRun(config, s, steps)
    requires exec in s.execs && s.execs[exec].status != Running
    ensures var t := Run(config, s, steps); exec in t.execs && t.execs[exec] == s.execs[exec]
    decreases |steps|
  {
    if steps != [] {
      StepKeepsGood(config, s, steps[0]);
      FinalRowIsFinal(config, s, steps[0], exec);
      FinalRowIsFinalInRun(config, Next(config, s, steps[0]), steps[1..], exec);
    }
  }

  /* ------------------------------- overlap ------------------------------- */

  ghost predicate NotAllowed(s: State, id: string) {
    id in s.tasks ==> s.tasks[id].policy != Allow
  }

  /** At no point of the run does the task's policy allow overlap. */
  ghost predicate NeverAllowed(config: Config, s: State, steps: seq<Step>, id: string)
    requires CanRun(config, s, steps)
    decreases |steps|
  {
    NotAllowed(s, id) && (steps != [] ==> NeverAllowed(config, Next(config, s, steps[0]), steps[1..], id))
  }

  /** The counter of this one task is true, and at most one execution of it is in flight. */
  ghost predicate AtMostOne(s: State, id: string) {
    && (forall e :: e in s.flights ==> e in s.execs)
    && (id in s.running ==> s.running[id] > 0)
    && Count(s.running, id) == |FlightsOf(s.flights, id)| <= 1
  }

  /** The scheduler is never stopped while the task is in flight. */
  ghost predicate Undisturbed(config: Config, s: State, steps: seq<Step>, id: string)
    requires CanRun(config, s, steps)
    decreases |steps|
  {
    steps == [] || (
      && (steps[0].Stop? ==> FlightsOf(s.flights, id) == {})
      && Undisturbed(config, Next(config, s, steps[0]), steps[1..], id))
  }

  lemma FireKeepsAtMostOne(config: Config, s: State, step: Step, id: string)
    requires AtMostOne(s, id) && step.Fire? && Enabled(s, step) && NotAllowed(s, id)
    ensures AtMostOne(Next(config, s, step), id)
  {
    if Judge(config, s, step.cron, step.id, step.gateNow) == Admit {
      var f := Next(config, s, step).flights[step.exec];
      assert step.exec !in s.flights;
      OneFlightMore(s.flights, step.exec, f, id);
    }
  }

  lemma FinishKeepsAtMostOne(s: State, exec: nat, status: ExecStatus, id: string)
    requires AtMostOne(s, id) && exec in s.flights && exec in s.execs && s.flights[exec].taskId in s.tasks
    ensures AtMostOne(Finished(s, exec, status), id)
  {
    var fewer := s.flights - {exec};
    assert fewer[exec := s.flights[exec]] == s.flights;
    OneFlightMore(fewer, exec, s.flights[exec], id);
  }

  lemma AttemptKeepsAtMostOne(config: Config, s: State, exec: nat, outcome: Outcome, id: string)
    requires AtMostOne(s, id) && Enabled(s, Attempt(exec, outcome))
    ensures AtMostOne(Next(config, s, Attempt(exec, outcome)), id)
  {
    if outcome == Success || s.flights[exec].attempt >= s.flights[exec].totalAttempts {
      FinishKeepsAtMostOne(s, exec, FinalStatus(outcome), id);
      assert Next(config, s, Attempt(exec, outcome)) == Finished(s, exec, FinalStatus(outcome));
    } else {
      assert FlightsOf(Retried(s, exec).flights, id) == FlightsOf(s.flights, id);
    }
  }

  lemma StepKeepsAtMostOne(config: Config, s: State, step: Step, id: string)
    requires AtMostOne(s, id) && Enabled(s, step) && NotAllowed(s, id)
    requires step.Stop? ==> FlightsOf(s.flights, id) == {}
    ensures AtMostOne(Next(config, s, step), id)
  {
    match step {
      case Fire(_, _, _, _, _) => FireKeepsAtMostOne(config, s, step, id);
      case Attempt(exec, outcome) => AttemptKeepsAtMostOne(config, s, exec, outcome, id);
      case Crash =>
        assert FlightsOf(map[], id) == {};
      case Stop =>
      case Start(_) =>
      case _ => EditFacts(config, s, step);
    }
  }

  /** A task whose policy is never 'allow' never has two executions in flight, whatever triggers
      them and however often the scheduler crashes, or stops without the task in flight. */
  lemma {:induction false} OneAtATime(config: Config, s: State, steps: seq<Step>, id: string)
    requires AtMostOne(s, id) && CanRun(config, s, steps)
    requires NeverAllowed(config, s, steps, id) && Undisturbed(config, s, steps, id)
    ensures |FlightsOf(Run(config, s, steps).flights, id)| <= 1
    decreases |steps|
  {
    if steps != [] {
      StepKeepsAtMostOne(config, s, steps[0], id);
      OneAtATime(config, Next(config, s, steps[0]), steps[1..], id);
    }
  }

  /* --------------------- stopping without ending the process --------------------- */

  /** Stopping is as good as a crash exactly when nothing is in flight. */
  lemma StopIsCrashIff(config: Config, s: State)
    ensures Stopped(s) == Next(config, s, Crash) <==> s.flights == map[]
  {
  }

  /** Whatever may follow, as far as it allows overlap or disturbs the task no further, never runs
      the task twice at a time. */
  ghost predicate StaysSingle(config: Config, s: State, id: string) {
    forall steps :: (
      CanRun(config, s, steps) && NeverAllowed(config, s, steps, id) && Undisturbed(config, s, steps, id) ==>
      |FlightsOf(Run(config, s, steps).flights, id)| <= 1)
  }

  /** Exactly when stopping the scheduler in a living process leaves a task's overlap policy in
      force: when that task is not in flight. Otherwise a trigger after the next start runs it
      beside its first execution. */
  lemma StopKeepsPolicyIff(config: Config, s: State, id: string)
    requires AtMostOne(s, id) && id in s.tasks && s.tasks[id].policy != Allow && config.maxConcurrent > 0
    ensures StaysSingle(config, Stopped(s), id) <==> FlightsOf(s.flights, id) == {}
  {
    if FlightsOf(s.flights, id) == {} {
      forall steps | CanRun(config, Stopped(s), steps) && NeverAllowed(config, Stopped(s), steps, id)
                     && Undisturbed(config, Stopped(s), steps, id)
        ensures |FlightsOf(Run(config, Stopped(s), steps).flights, id)| <= 1
      {
        OneAtATime(config, Stopped(s), steps, id);
      }
    } else {
      var first :| first in FlightsOf(s.flights, id);
      var second := FreshRow(s.execs);
      var now := EarliestStart(config, s.tasks[id]);
      RestartInProcessOverlaps(config, s, first, second, now);
      var steps := [Start({}), Fire(false, id, second, now, now)];
      RunOfTwo(config, Stopped(s), steps[0], steps[1], id);
      var t := Run(config, Stopped(s), steps);
      assert {first, second} <= FlightsOf(t.flights, id);
      SubsetSize({first, second}, FlightsOf(t.flights, id));
      assert |{first, second}| == 2;
    }
  }

  /** A time at which the interval gate lets the task through. */
  function EarliestStart(config: Config, task: Task): int {
    if task.lastRunAt.Some? then task.lastRunAt.value + Positive(config.minIntervalMs) else 0
  }

  /** A task in flight whose policy is not 'allow' is admitted a second time right after stop and
      start, next to the first execution. */
  lemma RestartInProcessOverlaps(config: Config, s: State, first: nat, second: nat, now: int)
    requires first in s.flights && first in s.execs && second !in s.execs && config.maxConcurrent > 0
    requires var id := s.flights[first].taskId;
      id in s.tasks && s.tasks[id].policy != Allow && now >= EarliestStart(config, s.tasks[id])
    ensures var id := s.flights[first].taskId;
      var t := Next(config, Next(config, Stopped(s), Start({})), Fire(false, id, second, now, now));
      first != second && {first, second} <= FlightsOf(t.flights, id) && Count(t.running, id) == 1
  {
    assert Total(map[]) == 0;
  }

  lemma RunOfTwo(config: Config, s: State, one: Step, two: Step, id: string)
    requires Enabled(s, one) && Enabled(Next(config, s, one), two) && !one.Stop? && !two.Stop?
    requires NotAllowed(s, id) && NotAllowed(Next(config, s, one), id)
    requires NotAllowed(Next(config, Next(config, s, one), two), id)
    ensures CanRun(config, s, [one, two]) && Run(config, s, [one, two]) == Next(config, Next(config, s, one), two)
    ensures NeverAllowed(config, s, [one, two], id) && Undisturbed(config, s, [one, two], id)
  {
    assert [one, two][1..] == [two] && [two][1..] == [];
    var s1 := Next(config, s, one);
    assert CanRun(config, s1, [two]) && Run(config, s1, [two]) == Next(config, s1, two);
    assert NeverAllowed(config, s1, [two], id) && Undisturbed(config, s1, [two], id);
  }

  lemma {:induction false} FreshRow(execs: map<nat, Exec>) returns (row: nat)
    ensures row !in execs
    ensures forall e :: e in execs ==> e < row
    decreases execs
  {
    if execs == map[] {
      row := 0;
    } else {
      var e :| e in execs;
      var other := FreshRow(execs - {e});
      assert forall k :: k in execs ==> k == e || k in execs - {e};
      row := if e < other then other else e + 1;
    }
  }

  lemma SubsetSize<T>(a: set<T>, b: set<T>)
    requires a <= b
    ensures |a| <= |b|
  {
    assert a + (b - a) == b;
  }

  /* ------------------------------- deletion ------------------------------- */

  ghost predicate Finishes(s: State, step: Step, id: string)
    requires Enabled(s, step)
  {
    step.Attempt? && s.flights[step.exec].taskId == id
    && (step.outcome == Success || s.flights[step.exec].attempt >= s.flights[step.exec].totalAttempts)
  }

  /** The step pauses or resumes the task, or ends a one-shot execution of it. */
  ghost predicate Revives(s: State, step: Step, id: string)
    requires Enabled(s, step)
  {
    ((step.Resume? || step.Pause?) && step.id == id) || (Finishes(s, step, id) && s.flights[step.exec].oneShot)
  }

  ghost predicate IsDeleted(s: State, id: string) { id in s.tasks && s.tasks[id].status == Deleted }

  ghost predicate DeletedThroughout(config: Config, s: State, steps: seq<Step>, id: string)
    requires CanRun(config, s, steps)
    decreases |steps|
  {
    IsDeleted(s, id) && (steps != [] ==> DeletedThroughout(config, Next(config, s, steps[0]), steps[1..], id))
  }

  ghost predicate NeverRevived(config: Config, s: State, steps: seq<Step>, id: string)
    requires CanRun(config, s, steps)
    decreases |steps|
  {
    steps == [] || (!Revives(s, steps[0], id) && NeverRevived(config, Next(config, s, steps[0]), steps[1..], id))
  }

  /** Exactly when a deleted task stays deleted over a whole run: when nobody pauses or resumes it
      and no one-shot execution of it that was still in flight ends. */
  lemma {:induction false} DeletedStaysDeletedIff(config: Config, s: State, steps: seq<Step>, id: string)
    requires CanRun(config, s, steps) && IsDeleted(s, id)
    ensures DeletedThroughout(config, s, steps, id) <==> NeverRevived(config, s, steps, id)
    decreases |steps|
  {
    if steps != [] {
      if !Revives(s, steps[0], id) {
        DeletedStaysDeletedIff(config, Next(config, s, steps[0]), steps[1..], id);
      }
    }
  }

  const REVIVING_RUN: seq<Step> :=
    [Start({}), Create("t", Skip, true, 0, true), Fire(false, "t", 0, 0, 0), Delete("t"), Attempt(0, Success)]

  lemma RevivingSteps(config: Config)
    requires config.maxConcurrent > 0
    ensures var s1 := Next(config, EMPTY, REVIVING_RUN[0]); var s2 := Next(config, s1, REVIVING_RUN[1]);
      Enabled(s2, REVIVING_RUN[2]) && s2.started
      && var s3 := Next(config, s2, REVIVING_RUN[2]); var s4 := Next(config, s3, REVIVING_RUN[3]);
         && IsDeleted(s4, "t") && Enabled(s4, REVIVING_RUN[4])
         && var s5 := Next(config, s4, REVIVING_RUN[4]); "t" in s5.tasks && s5.tasks["t"].status == Paused
  {
    var s2 := Next(config, Next(config, EMPTY, REVIVING_RUN[0]), REVIVING_RUN[1]);
    assert Total(map[]) == 0 && Judge(config, s2, false, "t", 0) == Admit;
    var s4 := Next(config, Next(config, s2, REVIVING_RUN[2]), REVIVING_RUN[3]);
    assert 0 in s4.flights && s4.flights[0].oneShot;
  }

  /** A one-shot task is created, triggered and deleted; when its execution ends, it is back. */
  lemma DeletedTaskComesBack(config: Config)
    requires config.maxConcurrent > 0
    ensures CanRun(config, EMPTY, REVIVING_RUN[..4]) && IsDeleted(Run(config, EMPTY, REVIVING_RUN[..4]), "t")
    ensures CanRun(config, EMPTY, REVIVING_RUN) && CleanRun(config, EMPTY, REVIVING_RUN)
    ensures "t" in Run(config, EMPTY, REVIVING_RUN).tasks
      && Run(config, EMPTY, REVIVING_RUN).tasks["t"].status == Paused
  {
    var steps := REVIVING_RUN;
    RevivingSteps(config);
    var p1 := [] + [steps[0]];
    RunOneMore(config, EMPTY, [], steps[0]);
    var p2 := p1 + [steps[1]];
    RunOneMore(config, EMPTY, p1, steps[1]);
    var p3 := p2 + [steps[2]];
    RunOneMore(config, EMPTY, p2, steps[2]);
    var p4 := p3 + [steps[3]];
    RunOneMore(config, EMPTY, p3, steps[3]);
    RunOneMore(config, EMPTY, p4, steps[4]);
    assert p4 == steps[..4] && p4 + [steps[4]] == steps;
  }

  lemma {:induction false} RunOneMore(config: Config, s: State, steps: seq<Step>, step: Step)
    requires CanRun(config, s, steps) && Enabled(Run(config, s, steps), step)
    ensures CanRun(config, s, steps + [step])
      && Run(config, s, steps + [step]) == Next(config, Run(config, s, steps), step)
    ensures CleanRun(config, s, steps + [step]) <==> CleanRun(config, s, steps) && Clean(Run(config, s, steps), step)
    decreases |steps|
  {
    if steps == [] {
      assert [] + [step] == [step] && [step][1..] == [];
    } else {
      assert (steps + [step])[1..] == steps[1..] + [step];
      RunOneMore(config, Next(config, s, steps[0]), steps[1..], step);
    }
  }

  /* ------------------------------- retry delays ------------------------------- */

  const RETRY_BASE_BACKOFF_MS := 1000
  const RETRY_MAX_BACKOFF_MS := 30_000

  function ComputeRetryBackoffMs(attempt: nat): nat
    requires attempt > 0
  {
    if RETRY_BASE_BACKOFF_MS * Pow2(attempt - 1) < RETRY_MAX_BACKOFF_MS
    then RETRY_BASE_BACKOFF_MS * Pow2(attempt - 1) else RETRY_MAX_BACKOFF_MS
  }

  /** Delays double until the cap, which holds from the sixth attempt on. */
  lemma {:induction false} BackoffDoublesToCap(attempt: nat)
    requires attempt > 0
    ensures ComputeRetryBackoffMs(attempt + 1)
         == if 2 * ComputeRetryBackoffMs(attempt) < RETRY_MAX_BACKOFF_MS then 2 * ComputeRetryBackoffMs(attempt)
            else RETRY_MAX_BACKOFF_MS
    ensures ComputeRetryBackoffMs(attempt) == RETRY_MAX_BACKOFF_MS <==> attempt >= 6
    ensures ComputeRetryBackoffMs(1) == 1000
  {
    assert Pow2(attempt) == 2 * Pow2(attempt - 1);
    if attempt > 1 {
      BackoffDoublesToCap(attempt - 1);
    }
    assert Pow2(4) == 16 && Pow2(5) == 32 by {
      assert Pow2(1) == 2 && Pow2(2) == 4 && Pow2(3) == 8;
    }
  }
}
