/** What the scheduler's steps do to the rows that a user can see, gate by gate
    (packages/gateway/src/scheduler.ts). */
module SchedulerEffects {
  import opened Basics
  import opened SchedulerModel

  /* ------------------------------- the last start ------------------------------- */

  /** A remembered start is the start of an execution. */
  ghost predicate LastIsStart(tasks: map<string, Task>, execs: map<nat, Exec>) {
    forall id :: id in tasks && tasks[id].lastRunAt.Some? ==> Started(execs, id, tasks[id].lastRunAt.value)
  }

  ghost predicate Started(execs: map<nat, Exec>, id: string, at: int) {
    exists e :: e in execs && execs[e].taskId == id && execs[e].status != Skipped && execs[e].startedAt == at
  }

  ghost predicate StartsStay(execs: map<nat, Exec>, execs': map<nat, Exec>) {
    forall e :: e in execs && execs[e].status != Skipped ==>
      e in execs' && execs'[e].taskId == execs[e].taskId && execs'[e].startedAt == execs[e].startedAt
      && execs'[e].status != Skipped
  }

  lemma StartedStays(execs: map<nat, Exec>, execs': map<nat, Exec>, id: string, at: int)
    requires StartsStay(execs, execs') && Started(execs, id, at)
    ensures Started(execs', id, at)
  {
  }

  lemma StepKeepsStarts(config: Config, s: State, step: Step)
    requires Enabled(s, step)
    ensures StartsStay(s.execs, Next(config, s, step).execs)
  {
  }

  lemma StepKeepsLastIsStart(config: Config, s: State, step: Step)
    requires Enabled(s, step) && LastIsStart(s.tasks, s.execs)
    ensures var t := Next(config, s, step); LastIsStart(t.tasks, t.execs)
  {
    var t := Next(config, s, step);
    StepKeepsStarts(config, s, step);
    forall id | id in t.tasks && t.tasks[id].lastRunAt.Some?
      ensures Started(t.execs, id, t.tasks[id].lastRunAt.value)
    {
      var at := t.tasks[id].lastRunAt.value;
      if id in s.tasks && s.tasks[id].lastRunAt == Some(at) {
        StartedStays(s.execs, t.execs, id, at);
      } else {
        assert step.Fire? && step.id == id && t.execs[step.exec].startedAt == at;
      }
    }
  }

  lemma {:induction false} RunKeepsLastIsStart(config: Config, s: State, steps: seq<Step>)
    requires CanRun(config, s, steps) && LastIsStart(s.tasks, s.execs)
    ensures var t := Run(config, s, steps); LastIsStart(t.tasks, t.execs)
    decreases |steps|
  {
    if steps != [] {
      StepKeepsLastIsStart(config, s, steps[0]);
      RunKeepsLastIsStart(config, Next(config, s, steps[0]), steps[1..]);
    }
  }

  /** What holds after every clean run. */
  ghost predicate Reached(config: Config, s: State) { Good(config, s) && LastIsStart(s.tasks, s.execs) }

  lemma CleanRunsReach(config: Config, steps: seq<Step>)
    requires CanRun(config, EMPTY, steps) && CleanRun(config, EMPTY, steps)
    ensures Reached(config, Run(config, EMPTY, steps))
  {
    RunKeepsGood(config, EMPTY, steps);
    RunKeepsLastIsStart(config, EMPTY, steps);
  }

  /* ------------------------------- admission ------------------------------- */

  /** The trigger concerns the task at all. */
  ghost predicate Concerns(s: State, cron: bool, id: string) {
    id in s.tasks && (s.tasks[id].status == Active || !cron)
  }

  ghost function RunningNow(execs: map<nat, Exec>): set<nat> { set e | e in execs && execs[e].status == Running }

  ghost predicate RoomFor(config: Config, s: State) { |RunningNow(s.execs)| < config.maxConcurrent }

  /** Every start of the task lies the interval back. */
  ghost predicate Rested(config: Config, s: State, id: string, now: int) {
    config.minIntervalMs > 0 ==>
      forall e :: e in s.execs && s.execs[e].taskId == id && s.execs[e].status != Skipped ==>
        s.execs[e].startedAt + config.minIntervalMs <= now
  }

  ghost predicate MayOverlap(s: State, id: string)
    requires id in s.tasks
  {
    s.tasks[id].policy == Allow || forall e :: e in s.execs && s.execs[e].status == Running ==> s.execs[e].taskId != id
  }

  /** One more 'running' row, suspended at its first attempt; the start is remembered. */
  ghost predicate Starts(s: State, t: State, id: string, exec: nat, at: int)
    requires id in s.tasks
  {
    && t.started == s.started && t.jobs == s.jobs
    && t.execs == s.execs[exec := Exec(id, Running, at, false)]
    && t.tasks == s.tasks[id := s.tasks[id].(lastRunAt := Some(at))]
    && exec in t.flights && t.flights == s.flights[exec := t.flights[exec]]
    && t.flights[exec].taskId == id && t.flights[exec].oneShot == s.tasks[id].oneShot
    && t.flights[exec].attempt == 1 && t.flights[exec].totalAttempts == 1 + Positive(s.tasks[id].maxRetries)
  }

  lemma RowsAreFlights(config: Config, s: State)
    requires Good(config, s) && s.started
    ensures |RunningNow(s.execs)| == Total(s.running)
  {
    assert RunningNow(s.execs) == s.flights.Keys;
    assert |s.flights| == |s.flights.Keys|;
  }

  lemma OwnRowsAreFlights(config: Config, s: State, id: string)
    requires Good(config, s) && s.started
    ensures Count(s.running, id) == 0 <==> forall e :: e in s.execs && s.execs[e].status == Running ==>
      s.execs[e].taskId != id
  {
    if Count(s.running, id) == 0 {
      assert FlightsOf(s.flights, id) == {};
      forall e | e in s.execs && s.execs[e].status == Running
        ensures s.execs[e].taskId != id
      {
        assert e in s.flights && e !in FlightsOf(s.flights, id);
      }
    } else {
      assert FlightsOf(s.flights, id) != {};
      var e :| e in FlightsOf(s.flights, id);
      assert e in s.execs && s.execs[e].status == Running && s.execs[e].taskId == id;
    }
  }

  lemma RestedIff(config: Config, s: State, id: string, now: int)
    requires Reached(config, s) && id in s.tasks && config.minIntervalMs > 0
    ensures Rested(config, s, id, now) <==>
      s.tasks[id].lastRunAt.Some? ==> now - s.tasks[id].lastRunAt.value >= config.minIntervalMs
  {
    if s.tasks[id].lastRunAt.Some? {
      var e :| e in s.execs && s.execs[e].taskId == id && s.execs[e].status != Skipped
               && s.execs[e].startedAt == s.tasks[id].lastRunAt.value;
    }
    forall e | e in s.execs && s.execs[e].taskId == id && s.execs[e].status != Skipped
      ensures s.tasks[id].lastRunAt.Some? && s.execs[e].startedAt <= s.tasks[id].lastRunAt.value
    {
      assert Remembered(config, s.tasks, s.execs[e]);
    }
  }

  /** Exactly which triggers start an execution, which leave a skipped row, and which nothing. */
  lemma TriggerIff(config: Config, s: State, cron: bool, id: string, exec: nat, gateNow: int, startedAt: int)
    requires Reached(config, s) && s.started && Enabled(s, Fire(cron, id, exec, gateNow, startedAt))
    ensures var t := Next(config, s, Fire(cron, id, exec, gateNow, startedAt));
      if !Concerns(s, cron, id) then t == s
      else if RoomFor(config, s) && Rested(config, s, id, gateNow) && MayOverlap(s, id) then
        Starts(s, t, id, exec, startedAt)
      else t == s.(execs := s.execs[exec := Exec(id, Skipped, gateNow, false)])
  {
    VerdictIff(config, s, cron, id, gateNow);
  }

  lemma VerdictIff(config: Config, s: State, cron: bool, id: string, now: int)
    requires Reached(config, s) && s.started
    ensures Judge(config, s, cron, id, now) ==
      if !Concerns(s, cron, id) then Ignore
      else if RoomFor(config, s) && Rested(config, s, id, now) && MayOverlap(s, id) then Admit
      else SkipRow
  {
    if Concerns(s, cron, id) {
      RowsAreFlights(config, s);
      OwnRowsAreFlights(config, s, id);
      if config.minIntervalMs > 0 {
        RestedIff(config, s, id, now);
      }
    }
  }

  /* ------------------------------- attempts ------------------------------- */

  /** The rows of all executions but one, and all tasks but one, stay as they are. */
  ghost predicate OnlyTouches(s: State, t: State, exec: nat, id: string) {
    && t.started == s.started && t.execs.Keys == s.execs.Keys && t.tasks.Keys == s.tasks.Keys
    && (forall e :: e in s.execs && e != exec ==> t.execs[e] == s.execs[e])
    && (forall k :: k in s.tasks && k != id ==> t.tasks[k] == s.tasks[k])
    && (forall e :: e in s.flights && e != exec ==> e in t.flights && t.flights[e] == s.flights[e])
    && (forall e :: e in t.flights && e != exec ==> e in s.flights)
    && (forall k :: k != id ==> (k in t.jobs <==> k in s.jobs))
  }

  /** Success ends an execution, failure and timeout only its last attempt; then the row says so,
      the task has run once more, and a one-shot task is paused and has no job. */
  lemma AttemptEffect(config: Config, s: State, exec: nat, outcome: Outcome)
    requires Enabled(s, Attempt(exec, outcome))
    ensures var f, t := s.flights[exec], Next(config, s, Attempt(exec, outcome)); var id := f.taskId;
      && OnlyTouches(s, t, exec, id)
      && if !outcome.Success? && f.attempt < f.totalAttempts then
           && t.execs == s.execs && t.tasks == s.tasks && t.jobs == s.jobs && t.running == s.running
           && exec in t.flights && t.flights[exec] == f.(attempt := f.attempt + 1)
         else
           && exec !in t.flights
           && t.execs[exec] == s.execs[exec].(status := t.execs[exec].status)
           && (outcome.Success? ==> t.execs[exec].status == Completed)
           && (outcome.Failure? ==> t.execs[exec].status == Failed)
           && (outcome.Timeout? ==> t.execs[exec].status == TimedOut)
           && t.tasks[id] == s.tasks[id].(runCount := s.tasks[id].runCount + 1,
                                          status := if f.oneShot then Paused else s.tasks[id].status)
           && (id in t.jobs <==> id in s.jobs && !f.oneShot)
  {
  }

  ghost predicate AllFail(outcomes: seq<Outcome>) { forall i :: 0 <= i < |outcomes| ==> !outcomes[i].Success? }

  function Attempts(exec: nat, outcomes: seq<Outcome>): seq<Step> {
    if outcomes == [] then [] else [Attempt(exec, outcomes[0])] + Attempts(exec, outcomes[1..])
  }

  /** An execution whose attempts all fail is given up after one attempt and as many more as
      there are retries, not sooner and not later. */
  lemma {:induction false} RetriesAreExhausted(config: Config, s: State, exec: nat, outcomes: seq<Outcome>)
    requires Enabled(s, Attempt(exec, Failure)) && s.execs[exec].status == Running && AllFail(outcomes)
    requires |outcomes| <= s.flights[exec].totalAttempts - s.flights[exec].attempt + 1
    requires s.flights[exec].attempt <= s.flights[exec].totalAttempts
    ensures CanRun(config, s, Attempts(exec, outcomes))
    ensures var t := Run(config, s, Attempts(exec, outcomes));
      exec in t.execs && (t.execs[exec].status == Running <==>
        |outcomes| < s.flights[exec].totalAttempts - s.flights[exec].attempt + 1)
    decreases |outcomes|
  {
    if outcomes != [] {
      AttemptEffect(config, s, exec, outcomes[0]);
      var t := Next(config, s, Attempt(exec, outcomes[0]));
      var steps := Attempts(exec, outcomes);
      assert steps[0] == Attempt(exec, outcomes[0]) && steps[1..] == Attempts(exec, outcomes[1..]);
      if |outcomes| > 1 {
        RetriesAreExhausted(config, t, exec, outcomes[1..]);
      } else {
        assert Attempts(exec, outcomes[1..]) == [];
      }
    }
  }

  /* ------------------------------- tasks and jobs ------------------------------- */

  /** Starting fails the rows that a dead process left running, and changes no other. */
  lemma StartEffect(config: Config, s: State, mountable: set<string>)
    requires !s.started
    ensures var t := Next(config, s, Start(mountable));
      && t.started && t.tasks == s.tasks && t.flights == s.flights && t.running == s.running
      && t.execs.Keys == s.execs.Keys
      && (forall e :: e in s.execs && s.execs[e].status == Running ==>
            t.execs[e] == s.execs[e].(status := Failed, interrupted := true))
      && (forall e :: e in s.execs && s.execs[e].status != Running ==> t.execs[e] == s.execs[e])
      && (forall id :: id in t.jobs <==>
        id in s.jobs || (id in s.tasks && s.tasks[id].status == Active && id in mountable))
  {
  }

  /** Creating adds an active task that has never run; its job is mounted if its schedule is
      accepted. */
  lemma CreateEffect(config: Config, s: State, id: string, policy: Policy, oneShot: bool, maxRetries: int, mounts: bool)
    requires id !in s.tasks
    ensures var t := Next(config, s, Create(id, policy, oneShot, maxRetries, mounts));
      && t.tasks == s.tasks[id := Task(Active, policy, oneShot, maxRetries, None, 0)]
      && t.jobs == (if mounts then s.jobs + {id} else s.jobs)
      && t.started == s.started && t.execs == s.execs && t.running == s.running && t.flights == s.flights
  {
  }

  ghost predicate SameButTask(s: State, t: State, id: string) {
    && t.started == s.started && t.execs == s.execs && t.running == s.running && t.flights == s.flights
    && t.tasks.Keys == s.tasks.Keys && (forall k :: k in s.tasks && k != id ==> t.tasks[k] == s.tasks[k])
    && (forall k :: k != id ==> (k in t.jobs <==> k in s.jobs))
  }

  /** Pausing and deleting unmount; resuming mounts. Unknown tasks are left alone. */
  lemma StatusEffect(config: Config, s: State, step: Step)
    requires step.Pause? || step.Delete? || step.Resume?
    ensures var t, id := Next(config, s, step), step.id;
      && SameButTask(s, t, id) && (id !in s.tasks ==> t == s)
      && (id in s.tasks ==> t.tasks[id] == s.tasks[id].(status := t.tasks[id].status))
      && (id in s.tasks && step.Pause? ==> t.tasks[id].status == Paused && id !in t.jobs)
      && (id in s.tasks && step.Delete? ==> t.tasks[id].status == Deleted && id !in t.jobs)
      && (id in s.tasks && step.Resume? ==>
            t.tasks[id].status == Active && (id in t.jobs <==> id in s.jobs || step.mounts))
  {
  }

  /** Updating changes what is given, and remounts an active task whose schedule changes. */
  lemma UpdateEffect(config: Config, s: State, id: string, newPolicy: Option<Policy>, newRetries: Option<int>,
                     reschedule: bool, mounts: bool)
    ensures var t := Next(config, s, Update(id, newPolicy, newRetries, reschedule, mounts));
      && SameButTask(s, t, id) && (id !in s.tasks ==> t == s)
      && (id in s.tasks ==>
            var a, b := s.tasks[id], t.tasks[id];
            && b == a.(policy := b.policy, maxRetries := b.maxRetries)
            && (if newPolicy.Some? then b.policy == newPolicy.value else b.policy == a.policy)
            && (if newRetries.Some? then b.maxRetries == newRetries.value else b.maxRetries == a.maxRetries)
            && (id in t.jobs <==> if reschedule then a.status == Active && mounts else id in s.jobs))
  {
  }

  /** Every schedule is accepted by the cron library. */
  ghost predicate Accepting(s: State, step: Step) {
    match step
    case Start(mountable) => s.tasks.Keys <= mountable
    case Create(_, _, _, _, mounts) => mounts
    case Update(_, _, _, _, mounts) => mounts
    case Resume(_, mounts) => mounts
    case _ => true
  }

  ghost predicate AcceptingRun(config: Config, s: State, steps: seq<Step>)
    requires CanRun(config, s, steps)
    decreases |steps|
  {
    steps == [] || (Accepting(s, steps[0]) && AcceptingRun(config, Next(config, s, steps[0]), steps[1..]))
  }

  ghost predicate ActiveAreMounted(s: State) {
    s.started ==> forall id :: id in s.tasks && s.tasks[id].status == Active ==> id in s.jobs
  }

  lemma StepKeepsActiveMounted(config: Config, s: State, step: Step)
    requires Enabled(s, step) && Accepting(s, step) && ActiveAreMounted(s)
    ensures ActiveAreMounted(Next(config, s, step))
  {
  }

  lemma {:induction false} RunKeepsActiveMounted(config: Config, s: State, steps: seq<Step>)
    requires CanRun(config, s, steps) && AcceptingRun(config, s, steps) && ActiveAreMounted(s)
    ensures ActiveAreMounted(Run(config, s, steps))
    decreases |steps|
  {
    if steps != [] {
      StepKeepsActiveMounted(config, s, steps[0]);
      RunKeepsActiveMounted(config, Next(config, s, steps[0]), steps[1..]);
    }
  }

  /** As long as schedules are accepted, a started service has a job for exactly the active tasks:
      none is forgotten, none too many. */
  lemma JobsAreTheActiveTasks(config: Config, steps: seq<Step>)
    requires CanRun(config, EMPTY, steps) && CleanRun(config, EMPTY, steps) && AcceptingRun(config, EMPTY, steps)
    ensures var s := Run(config, EMPTY, steps);
      s.started ==> s.jobs == set id | id in s.tasks && s.tasks[id].status == Active
  {
    RunKeepsGood(config, EMPTY, steps);
    RunKeepsActiveMounted(config, EMPTY, steps);
  }
}
