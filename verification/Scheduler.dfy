/** The scheduler service with its in-memory maps and the two database tables it writes. Each
    method is one stretch of synchronous code and performs one step of the model
    (packages/gateway/src/scheduler.ts). */
module Scheduler {
  import opened Basics
  import opened SchedulerModel

  class SchedulerService {
    const config: Config
    var started: bool
    /** Tables scheduled_tasks and task_executions. */
    var tasks: map<string, Task>
    var execs: map<nat, Exec>
    /** Ids of the mounted cron jobs. */
    var jobs: set<string>
    var running: map<string, nat>
    /** The executions suspended at an await. */
    var flights: map<nat, Flight>

    ghost function Now(): State
      reads this
    {
      State(started, tasks, execs, jobs, running, flights)
    }

    constructor (config: Config, tasks: map<string, Task>, execs: map<nat, Exec>)
      ensures this.config == config && Now() == State(false, tasks, execs, {}, map[], map[])
    {
      this.config := config;
      started, jobs, running, flights := false, {}, map[], map[];
      this.tasks, this.execs := tasks, execs;
    }

    /** `mounts` tells whether the cron library accepts the schedule. */
    method MountJob(id: string, mounts: bool)
      modifies this`jobs
      ensures Now() == Mount(old(Now()), id, mounts)
    {
      if id in jobs || id !in tasks || tasks[id].status != Active {
        assert id in jobs ==> jobs + {id} == jobs;
        return;
      }
      if mounts {
        jobs := jobs + {id};
      }
    }

    /** Fails the rows a dead process left running, then mounts every active task. */
    method StartService(mountable: set<string>)
      modifies this
      ensures Now() == Next(config, old(Now()), Start(mountable))
    {
      if started { return; }
      started := true;
      execs := map e | e in execs :: Recover(execs[e]);
      var toMount := set id | id in tasks && tasks[id].status == Active;
      ghost var active := toMount;
      while toMount != {}
        invariant toMount <= active && active == set id | id in tasks && tasks[id].status == Active
        invariant jobs == old(jobs) + ((active - toMount) * mountable)
        invariant started && tasks == old(tasks) && running == old(running) && flights == old(flights)
        invariant execs == map e | e in old(execs) :: Recover(old(execs)[e])
        decreases toMount
      {
        var id :| id in toMount;
        toMount := toMount - {id};
        MountJob(id, id in mountable);
      }
      assert active * mountable == set id | id in tasks && tasks[id].status == Active && id in mountable;
    }

    /** Jobs and counters are gone; executions in flight are not. */
    method StopService()
      modifies this
      ensures Now() == Next(config, old(Now()), Stop)
    {
      jobs, running, started := {}, map[], false;
    }

    method CreateTask(id: string, policy: Policy, oneShot: bool, maxRetries: int, mounts: bool)
      requires Enabled(Now(), Create(id, policy, oneShot, maxRetries, mounts))
      modifies this
      ensures Now() == Next(config, old(Now()), Create(id, policy, oneShot, maxRetries, mounts))
    {
      tasks := tasks[id := Task(Active, policy, oneShot, maxRetries, None, 0)];
      MountJob(id, mounts);
    }

    method UpdateTask(id: string, newPolicy: Option<Policy>, newRetries: Option<int>, reschedule: bool, mounts: bool)
      returns (found: bool)
      modifies this
      ensures found == (id in old(tasks))
      ensures Now() == Next(config, old(Now()), Update(id, newPolicy, newRetries, reschedule, mounts))
    {
      if id !in tasks { return false; }
      if newPolicy.Some? {
        tasks := tasks[id := tasks[id].(policy := newPolicy.value)];
      }
      if newRetries.Some? {
        tasks := tasks[id := tasks[id].(maxRetries := newRetries.value)];
      }
      ghost var updated := tasks[id];
      assert tasks == old(tasks)[id := updated];
      if reschedule {
        jobs := jobs - {id};
        MountJob(id, mounts);
      }
      return true;
    }

    method PauseTask(id: string) returns (found: bool)
      modifies this
      ensures found == (id in old(tasks)) && Now() == Next(config, old(Now()), Pause(id))
    {
      if id !in tasks { return false; }
      jobs := jobs - {id};
      tasks := tasks[id := tasks[id].(status := Paused)];
      return true;
    }

    method ResumeTask(id: string, mounts: bool) returns (found: bool)
      modifies this
      ensures found == (id in old(tasks)) && Now() == Next(config, old(Now()), Resume(id, mounts))
    {
      if id !in tasks { return false; }
      tasks := tasks[id := tasks[id].(status := Active)];
      MountJob(id, mounts);
      return true;
    }

    method DeleteTask(id: string) returns (found: bool)
      modifies this
      ensures found == (id in old(tasks)) && Now() == Next(config, old(Now()), Delete(id))
    {
      if id !in tasks { return false; }
      jobs := jobs - {id};
      tasks := tasks[id := tasks[id].(status := Deleted)];
      return true;
    }

    /** Sums the in-flight counters of all tasks. */
    method TotalRunning() returns (total: nat)
      ensures total == Total(running)
    {
      total := 0;
      var rest := running;
      while rest != map[]
        invariant total + Total(rest) == Total(running)
        decreases rest
      {
        var id :| id in rest;
        TotalWithout(rest, id);
        total := total + rest[id];
        rest := rest - {id};
      }
    }

    /** The part of `executeTask` before the first await: the gates, then either a skip row or
        the admission. */
    method ExecuteTask(cron: bool, id: string, exec: nat, gateNow: int, startedAt: int) returns (verdict: Verdict)
      requires Enabled(Now(), Fire(cron, id, exec, gateNow, startedAt))
      modifies this
      ensures verdict == Judge(config, old(Now()), cron, id, gateNow)
      ensures Now() == Next(config, old(Now()), Fire(cron, id, exec, gateNow, startedAt))
    {
      if id !in tasks { return Ignore; }
      var task := tasks[id];
      if cron && task.status != Active { return Ignore; }
      var totalRunning := TotalRunning();
      if totalRunning >= config.maxConcurrent {
        execs := execs[exec := Exec(id, Skipped, gateNow, false)];
        return SkipRow;
      }
      if task.lastRunAt.Some? && config.minIntervalMs > 0 {
        var elapsed := gateNow - task.lastRunAt.value;
        if elapsed < config.minIntervalMs {
          execs := execs[exec := Exec(id, Skipped, gateNow, false)];
          return SkipRow;
        }
      }
      if Count(running, id) > 0 {
        if task.policy == Skip || task.policy == Queue {
          execs := execs[exec := Exec(id, Skipped, gateNow, false)];
          return SkipRow;
        }
      }
      running := running[id := Count(running, id) + 1];
      execs := execs[exec := Exec(id, Running, startedAt, false)];
      tasks := tasks[id := task.(lastRunAt := Some(startedAt))];
      flights := flights[exec := Flight(id, task.oneShot, TotalAttempts(task), 1)];
      return Admit;
    }

    /** Takes one execution of the task off its counter; an entry at zero goes. */
    method Release(id: string)
      modifies this`running
      ensures var count: int := if id in old(running) then old(running)[id] else 1;
        var remaining := count - 1;
        running == if remaining <= 0 then old(running) - {id} else old(running)[id := remaining]
    {
      var count: int := if id in running then running[id] else 1;
      var remaining := count - 1;
      if remaining <= 0 {
        running := running - {id};
      } else {
        running := running[id := remaining];
      }
    }

    /** The counter, the row, the task and the auto-pause of an execution that is over. */
    method Finalise(exec: nat, outcome: Outcome)
      requires exec in flights && exec in execs && flights[exec].taskId in tasks
      modifies this`running, this`execs, this`tasks, this`jobs, this`flights
      ensures Now() == Finished(old(Now()), exec, FinalStatus(outcome))
    {
      var f := flights[exec];
      Release(f.taskId);
      execs := execs[exec := execs[exec].(status := FinalStatus(outcome))];
      tasks := tasks[f.taskId := tasks[f.taskId].(runCount := tasks[f.taskId].runCount + 1)];
      if f.oneShot {
        tasks := tasks[f.taskId := tasks[f.taskId].(status := Paused)];
        jobs := jobs - {f.taskId};
      }
      flights := flights - {exec};
    }

    /** An attempt of a suspended execution ends: another attempt after a delay, or the
        finalisation of the row and the task. */
    method EndAttempt(exec: nat, outcome: Outcome) returns (retryAfterMs: Option<nat>)
      requires Enabled(Now(), Attempt(exec, outcome))
      requires flights[exec].attempt > 0
      modifies this
      ensures Now() == Next(config, old(Now()), Attempt(exec, outcome))
      ensures retryAfterMs == if exec in flights then Some(ComputeRetryBackoffMs(old(flights[exec].attempt))) else None
    {
      var f := flights[exec];
      if outcome != Success && f.attempt < f.totalAttempts {
        flights := flights[exec := f.(attempt := f.attempt + 1)];
        return Some(ComputeRetryBackoffMs(f.attempt));
      }
      Finalise(exec, outcome);
      return None;
    }
  }
}
