/** The watchdog of `app/orchestrator/watchdog.py`: the registry of executions, the polling
    monitor and the guarded call, each tied to a step on the value of the registry. */
module Watchdog {
  import opened Wrappers
  import AB = AgentBudget

  datatype ExecutionId = ExecutionId(text: string)

  // ---- The registry as a value ----------------------------------------------------------------

  /** The task that runs an execution, once it is attached. */
  datatype TaskState = NoTask | Task(done: bool, cancelRequested: bool)

  datatype Watched = Watched(start: real, limit: real, cancelled: bool, task: TaskState)

  /** `wake` is when the monitor is due to run again; `None` when there is no live monitor. */
  datatype Registry = Registry(executions: map<ExecutionId, Watched>, wake: Option<real>)

  predicate Overdue(start: real, limit: real, now: real) {
    now - start >= limit
  }

  /** A negative interval sleeps no time. */
  function Pause(poll: real): real {
    if poll > 0.0 then poll else 0.0
  }

  /** The monitor starts with the first execution it can find no live monitor for. */
  function Registered(r: Registry, id: ExecutionId, limit: real, now: real): Registry {
    Registry(r.executions[id := Watched(now, limit, false, NoTask)], if r.wake.None? then Some(now) else r.wake)
  }

  function Attached(r: Registry, id: ExecutionId, task: TaskState): Registry {
    if id in r.executions then r.(executions := r.executions[id := r.executions[id].(task := task)]) else r
  }

  function Unregistered(r: Registry, id: ExecutionId): Registry {
    r.(executions := r.executions - {id})
  }

  /** An overdue execution is cancelled, and with it its task, unless that has ended. */
  function Polled(w: Watched, now: real): Watched {
    if Overdue(w.start, w.limit, now) then w.(cancelled := true, task := CancelTask(w.task)) else w
  }

  function CancelTask(t: TaskState): TaskState {
    if t.Task? && !t.done then t.(cancelRequested := true) else t
  }

  function AllPolled(executions: map<ExecutionId, Watched>, now: real): map<ExecutionId, Watched> {
    map id | id in executions :: Polled(executions[id], now)
  }

  /** One wake-up: with nothing registered the monitor ends. */
  function Woken(r: Registry, now: real, poll: real): Registry {
    if r.executions == map[] then r.(wake := None)
    else Registry(AllPolled(r.executions, now), Some(now + Pause(poll)))
  }

  // ---- The objects ------------------------------------------------------------------------------

  class AgentTask {
    var done: bool
    var cancelRequested: bool

    constructor ()
      ensures !done && !cancelRequested
    {
      done, cancelRequested := false, false;
    }

    method Cancel()
      modifies this
      ensures cancelRequested && done == old(done)
    {
      cancelRequested := true;
    }
  }

  function TaskOf(task: AgentTask?): TaskState
    reads task
  {
    if task == null then NoTask else Task(task.done, task.cancelRequested)
  }

  datatype WatchedExecution = WatchedExecution(ctx: AB.AgentExecutionContext, task: AgentTask?)

  /** How the wrapped coroutine ended. */
  datatype TaskEnd = Returned(value: string) | WasCancelled | BudgetExceeded | Raised

  /** What the monitor can change about one execution. No task counts as an ended one. */
  datatype Execution = Execution(budget: AB.Budget, taskDone: bool, taskCancelled: bool)

  function Terminated(e: Execution): Execution {
    Execution(e.budget.(reason := AB.RuntimeLimit, cancelled := true), e.taskDone, e.taskCancelled || !e.taskDone)
  }

  class AgentWatchdog {
    const pollInterval: real
    var executions: map<ExecutionId, WatchedExecution>
    var nextWake: Option<real>

    /** No two executions share an object. */
    ghost predicate Valid()
      reads this`executions
    {
      forall i, j :: i in executions && j in executions && i != j ==>
        && executions[i].ctx != executions[j].ctx
        && (executions[i].task == null || executions[i].task != executions[j].task)
    }

    ghost function Objects(): set<object>
      reads this`executions
    {
      (set id | id in executions :: executions[id].ctx as object)
      + (set id | id in executions && executions[id].task != null :: executions[id].task as object)
    }

    ghost function View(): Registry
      reads this, Objects()
    {
      Registry(map id | id in executions :: Entry(id), nextWake)
    }

    ghost function Entry(id: ExecutionId): Watched
      requires id in executions
      reads this`executions, executions[id].ctx, executions[id].task
    {
      var ctx := executions[id].ctx;
      Watched(ctx.startTime, ctx.maxRuntime, ctx.cancelled, TaskOf(executions[id].task))
    }

    constructor (pollInterval: real := 1.0)
      ensures Valid() && this.pollInterval == pollInterval && View() == Registry(map[], None)
    {
      this.pollInterval := pollInterval;
      executions, nextWake := map[], None;
    }

    method Register(id: ExecutionId, maxIterations: int, maxToolCalls: int, maxRuntime: real, now: real)
        returns (ctx: AB.AgentExecutionContext)
      requires Valid()
      modifies this
      ensures Valid() && fresh(ctx) && ctx.startTime == now
      ensures ctx.View() == AB.Budget(maxIterations, maxToolCalls, maxRuntime, 0, 0, false, AB.Completed, [])
      ensures executions == old(executions)[id := WatchedExecution(ctx, null)]
      ensures View() == Registered(old(View()), id, maxRuntime, now)
    {
      ctx := new AB.AgentExecutionContext(maxIterations, maxToolCalls, maxRuntime, now);
      Enroll(id, ctx);
      hide Valid, Entry;
      EnsureMonitorRunning(now);
    }

    /** The dictionary assignment. */
    method Enroll(id: ExecutionId, ctx: AB.AgentExecutionContext)
      requires Valid() && ctx !in Objects()
      modifies this`executions
      ensures Valid() && executions == old(executions)[id := WatchedExecution(ctx, null)]
      ensures View().wake == old(View()).wake
      ensures View().executions
           == old(View()).executions[id := Watched(ctx.startTime, ctx.maxRuntime, ctx.cancelled, NoTask)]
    {
      executions := executions[id := WatchedExecution(ctx, null)];
    }

    method EnsureMonitorRunning(now: real)
      modifies this`nextWake
      ensures View().executions == old(View()).executions
      ensures nextWake == if old(nextWake).None? then Some(now) else old(nextWake)
    {
      if nextWake.None? {
        nextWake := Some(now);
      }
    }

    method AttachTask(id: ExecutionId, task: AgentTask)
      requires Valid() && task !in Objects()
      modifies this`executions
      ensures Valid() && View() == Attached(old(View()), id, TaskOf(task))
      ensures executions == if id in old(executions) then old(executions)[id := old(executions)[id].(task := task)]
                            else old(executions)
    {
      if id in executions {
        ghost var before := View().executions;
        executions := executions[id := executions[id].(task := task)];
        assert Valid();
        hide Valid, Objects;
        assert View().executions == before[id := before[id].(task := TaskOf(task))];
      }
    }

    method Unregister(id: ExecutionId) returns (ctx: AB.AgentExecutionContext?)
      requires Valid()
      modifies this`executions
      ensures Valid() && id !in executions && executions == old(executions) - {id}
      ensures View() == Unregistered(old(View()), id)
      ensures ctx == if id in old(executions) then old(executions)[id].ctx else null
    {
      if id !in executions {
        return null;
      }
      ctx := executions[id].ctx;
      executions := executions - {id};
    }

    ghost function State(id: ExecutionId): Execution
      requires id in executions
      reads this`executions, Objects()
    {
      var w := executions[id];
      Execution(w.ctx.View(), w.task == null || w.task.done, w.task != null && w.task.cancelRequested)
    }

    /** Cancels one execution: its context, and its task unless that has ended. */
    method Terminate(id: ExecutionId)
      requires Valid()
      modifies Objects()
      ensures forall i :: i in executions ==> State(i) == if i == id then Terminated(old(State(i))) else old(State(i))
    {
      if id !in executions {
        return;
      }
      var watched := executions[id];
      watched.ctx.terminationReason := AB.RuntimeLimit;
      watched.ctx.Cancel();
      if watched.task != null && !watched.task.done {
        watched.task.Cancel();
      }
    }

    /** The executions a pass finds overdue. */
    method CollectOverdue(now: real) returns (toKill: seq<ExecutionId>)
      ensures forall id :: id in toKill <==> IsOverdue(id, now)
    {
      toKill := [];
      var pending := executions.Keys;
      while pending != {}
        invariant pending <= executions.Keys
        invariant forall id :: id in toKill <==> id !in pending && IsOverdue(id, now)
      {
        var id :| id in pending;
        pending := pending - {id};
        if now - executions[id].ctx.startTime >= executions[id].ctx.maxRuntime {
          toKill := toKill + [id];
        }
      }
    }

    ghost predicate IsOverdue(id: ExecutionId, now: real)
      reads this`executions
    {
      id in executions && Overdue(executions[id].ctx.startTime, executions[id].ctx.maxRuntime, now)
    }

    method TerminateAll(toKill: seq<ExecutionId>)
      requires Valid()
      modifies Objects()
      ensures forall id :: id in executions ==>
                State(id) == if id in toKill then Terminated(old(State(id))) else old(State(id))
    {
      for n := 0 to |toKill|
        invariant forall id :: id in executions ==>
                    State(id) == if id in toKill[..n] then Terminated(old(State(id))) else old(State(id))
      {
        assert toKill[..n + 1] == toKill[..n] + [toKill[n]];
        Terminate(toKill[n]);
      }
    }

    /** The body of one pass: every overdue execution is cancelled with its task, and no other
        object changes. */
    method Poll(now: real)
      requires Valid()
      modifies Objects()
      ensures forall id :: id in executions ==>
                State(id) == if IsOverdue(id, now) then Terminated(old(State(id))) else old(State(id))
      ensures View() == Registry(AllPolled(old(View()).executions, now), nextWake)
      ensures forall id :: id in executions && now - executions[id].ctx.startTime >= executions[id].ctx.maxRuntime ==>
                var w := executions[id];
                && w.ctx.cancelled && w.ctx.terminationReason == AB.RuntimeLimit
                && (w.task != null && !old(w.task.done) ==> w.task.cancelRequested)
      ensures forall id :: id in executions && executions[id].task != null ==>
                var w := executions[id];
                && w.task.done == old(w.task.done)
                && (w.task.done || now - w.ctx.startTime < w.ctx.maxRuntime ==>
                      w.task.cancelRequested == old(w.task.cancelRequested))
      ensures forall id :: id in executions && now - executions[id].ctx.startTime < executions[id].ctx.maxRuntime ==>
                executions[id].ctx.View() == old(executions[id].ctx.View())
    {
      var toKill := CollectOverdue(now);
      TerminateAll(toKill);
      forall id | id in executions ensures Entry(id) == Polled(old(Entry(id)), now) {
        assert State(id) == if id in toKill then Terminated(old(State(id))) else old(State(id));
      }
      assert View().executions == AllPolled(old(View()).executions, now);
    }

    /** One pass of `_monitor_loop`, up to its sleep or its exit. */
    method MonitorPass(now: real)
      requires Valid() && nextWake.Some?
      modifies this`nextWake, Objects()
      ensures Valid() && executions == old(executions)
      ensures forall id :: id in executions ==>
                State(id) == if IsOverdue(id, now) then Terminated(old(State(id))) else old(State(id))
      ensures View() == Woken(old(View()), now, pollInterval)
      ensures forall id :: id in executions && now - executions[id].ctx.startTime >= executions[id].ctx.maxRuntime ==>
                var w := executions[id];
                && w.ctx.cancelled && w.ctx.terminationReason == AB.RuntimeLimit
                && (w.task != null && !old(w.task.done) ==> w.task.cancelRequested)
      ensures forall id :: id in executions && executions[id].task != null ==>
                var w := executions[id];
                && w.task.done == old(w.task.done)
                && (w.task.done || now - w.ctx.startTime < w.ctx.maxRuntime ==>
                      w.task.cancelRequested == old(w.task.cancelRequested))
      ensures forall id :: id in executions && now - executions[id].ctx.startTime < executions[id].ctx.maxRuntime ==>
                executions[id].ctx.View() == old(executions[id].ctx.View())
      ensures nextWake == if executions == map[] then None else Some(now + Pause(pollInterval))
    {
      hide State, Entry, Polled, IsOverdue, Valid, AllPolled;
      assert old(View()).executions.Keys == executions.Keys;
      if executions == map[] {
        SetWake(None);
        return;
      }
      Poll(now);
      SetWake(Some(now + Pause(pollInterval)));
    }

    method SetWake(wake: Option<real>)
      modifies this`nextWake
      ensures nextWake == wake && View() == old(View()).(wake := wake)
    {
      nextWake := wake;
      assert View().executions == old(View()).executions;
    }

    /** `guarded_execute` up to its `await`. `hasTask` is false outside any task. */
    method BeginGuarded(id: ExecutionId, maxIterations: int, maxToolCalls: int, maxRuntime: real, hasTask: bool,
                        now: real)
        returns (ctx: AB.AgentExecutionContext, task: AgentTask?)
      requires Valid()
      modifies this
      ensures Valid() && fresh(ctx) && (task != null <==> hasTask) && (task != null ==> fresh(task))
      ensures executions == old(executions)[id := WatchedExecution(ctx, task)]
      ensures View() == var r := Registered(old(View()), id, maxRuntime, now);
                        if hasTask then Attached(r, id, Task(false, false)) else r
    {
      hide Valid, Entry, View, Registered, Attached;
      ctx := Register(id, maxIterations, maxToolCalls, maxRuntime, now);
      task := null;
      if hasTask {
        task := new AgentTask();
        AttachTask(id, task);
      }
    }

    /** `guarded_execute` from the end of its `await`: whatever happened, the id is no longer
        registered, and only a returned value comes back. `check` has already written the
        reason of a spent budget. */
    method EndGuarded(id: ExecutionId, ctx: AB.AgentExecutionContext, hasTask: bool, end: TaskEnd)
        returns (result: Option<string>)
      requires Valid()
      modifies this`executions, ctx
      ensures Valid() && id !in executions && View() == Unregistered(old(View()), id)
      ensures result == if end.Returned? then Some(end.value) else None
      ensures ctx.View() == old(ctx.View()).(reason := ctx.terminationReason)
      ensures end.Returned? ==> ctx.terminationReason == AB.Completed
      ensures end.Raised? ==> ctx.terminationReason == AB.Error
      ensures end.WasCancelled? && hasTask ==> ctx.terminationReason == AB.RuntimeLimit
      ensures end.BudgetExceeded? || (end.WasCancelled? && !hasTask) ==>
                ctx.terminationReason == old(ctx.terminationReason)
    {
      result := None;
      match end {
        case Returned(value) =>
          ctx.terminationReason := AB.Completed;
          result := Some(value);
        case WasCancelled =>
          if hasTask {
            ctx.terminationReason := AB.RuntimeLimit;
          }
        case BudgetExceeded =>
        case Raised =>
          ctx.terminationReason := AB.Error;
      }
      assert View() == old(View()) by {
        assert forall i :: i in executions ==> Entry(i) == old(Entry(i));
      }
      hide Valid, Entry;
      var _ := Unregister(id);
    }
  }
}
