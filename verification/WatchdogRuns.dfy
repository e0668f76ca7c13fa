/** Every interleaving of guarded calls, monitor wake-ups and the passing of time. */
module WatchdogRuns {
  import opened Wrappers
  import opened Watchdog

  /** `live` counts the guarded calls under way, by id. */
  datatype World = World(registry: Registry, now: real, live: multiset<ExecutionId>)

  /** `Finish` is the end of a call's task, `End` that of the call, which comes later. */
  datatype Step =
    | Begin(id: ExecutionId, limit: real, hasTask: bool)
    | Finish(id: ExecutionId)
    | End(id: ExecutionId)
    | Wake
    | Tick(dt: real)

  /** The monitor runs no earlier than it is due, and at most `lag` later. */
  predicate Enabled(w: World, s: Step, lag: real) {
    match s
    case Begin(_, _, _) => true
    case Finish(id) => id in w.registry.executions && w.registry.executions[id].task.Task?
    case End(id) => id in w.live
    case Wake => w.registry.wake.Some? && w.registry.wake.value <= w.now
    case Tick(dt) => dt >= 0.0 && (w.registry.wake.Some? ==> w.now + dt <= w.registry.wake.value + lag)
  }

  function Next(w: World, s: Step, poll: real): World {
    match s
    case Begin(id, limit, hasTask) =>
      var r := Registered(w.registry, id, limit, w.now);
      World(if hasTask then Attached(r, id, Task(false, false)) else r, w.now, w.live + multiset{id})
    case Finish(id) =>
      if id in w.registry.executions && w.registry.executions[id].task.Task?
      then w.(registry := Attached(w.registry, id, w.registry.executions[id].task.(done := true)))
      else w
    case End(id) => World(Unregistered(w.registry, id), w.now, w.live - multiset{id})
    case Wake => w.(registry := Woken(w.registry, w.now, poll))
    case Tick(dt) => w.(now := w.now + dt)
  }

  ghost predicate Legal(w: World, steps: seq<Step>, poll: real, lag: real)
    decreases |steps|
  {
    steps == [] || (Enabled(w, steps[0], lag) && Legal(Next(w, steps[0], poll), steps[1..], poll, lag))
  }

  function Run(w: World, steps: seq<Step>, poll: real): World
    decreases |steps|
  {
    if steps == [] then w else Run(Next(w, steps[0], poll), steps[1..], poll)
  }

  function Start(now: real): World {
    World(Registry(map[], None), now, multiset{})
  }

  // ---- The deadline ---------------------------------------------------------------------------

  /** When an execution is due to end; a negative limit is due at once. */
  function Deadline(e: Watched): real {
    if e.limit > 0.0 then e.start + e.limit else e.start
  }

  ghost predicate EntryInv(w: World, e: Watched, poll: real) {
    && e.start <= w.now
    && (e.cancelled ==> Overdue(e.start, e.limit, w.now))
    && (e.task.Task? ==>
          && (e.task.cancelRequested ==> e.cancelled)
          && (e.cancelled && !e.task.done ==> e.task.cancelRequested))
    && (e.cancelled || (w.registry.wake.Some? && w.registry.wake.value <= Deadline(e) + Pause(poll)))
  }

  ghost predicate Inv(w: World, poll: real, lag: real) {
    && (w.registry.executions != map[] ==> w.registry.wake.Some?)
    && (w.registry.wake.Some? ==>
          w.registry.wake.value <= w.now + Pause(poll) && w.now <= w.registry.wake.value + lag)
    && forall id :: id in w.registry.executions ==> EntryInv(w, w.registry.executions[id], poll)
  }

  lemma NextKeepsInv(w: World, s: Step, poll: real, lag: real)
    requires lag >= 0.0 && Inv(w, poll, lag) && Enabled(w, s, lag)
    ensures Inv(Next(w, s, poll), poll, lag)
  {
    var n := Next(w, s, poll);
    forall id | id in n.registry.executions ensures EntryInv(n, n.registry.executions[id], poll) {
      if !s.Begin? || id != s.id {
        assert id in w.registry.executions && EntryInv(w, w.registry.executions[id], poll);
      }
    }
  }

  lemma {:induction false} RunKeepsInv(w: World, steps: seq<Step>, poll: real, lag: real)
    requires lag >= 0.0 && Inv(w, poll, lag) && Legal(w, steps, poll, lag)
    ensures Inv(Run(w, steps, poll), poll, lag)
    decreases |steps|
  {
    hide Inv, Next, Enabled;
    if steps != [] {
      NextKeepsInv(w, steps[0], poll, lag);
      RunKeepsInv(Next(w, steps[0], poll), steps[1..], poll, lag);
    }
  }

  /** In every run a nonempty registry has a live monitor, an execution still registered after
      its deadline, one poll and the monitor's lag has been cancelled, and so has its task
      unless that has ended, and nothing is cancelled before its limit. */
  lemma DeadlineKept(now: real, steps: seq<Step>, poll: real, lag: real, id: ExecutionId)
    requires lag >= 0.0 && Legal(Start(now), steps, poll, lag)
    ensures var w := Run(Start(now), steps, poll);
            id in w.registry.executions ==>
              var e := w.registry.executions[id];
              && w.registry.wake.Some?
              && (w.now > Deadline(e) + Pause(poll) + lag ==>
                    e.cancelled && (e.task.Task? && !e.task.done ==> e.task.cancelRequested))
              && (e.cancelled || (e.task.Task? && e.task.cancelRequested) ==> Overdue(e.start, e.limit, w.now))
  {
    hide Run, Legal;
    RunKeepsInv(Start(now), steps, poll, lag);
    var w := Run(Start(now), steps, poll);
    if id in w.registry.executions {
      assert EntryInv(w, w.registry.executions[id], poll);
    }
  }

  /** No smaller bound holds: an execution can outlive its limit by anything less. */
  lemma DeadlineTight(poll: real, lag: real, early: real, id: ExecutionId)
    requires lag >= 0.0 && early > 0.0
    ensures exists steps ::
              && Legal(Start(0.0), steps, poll, lag)
              && var w := Run(Start(0.0), steps, poll);
                 && id in w.registry.executions
                 && !w.registry.executions[id].cancelled
                 && w.now > Deadline(w.registry.executions[id]) + Pause(poll) + lag - early
  {
    var limit := early / 2.0;
    var steps := [Begin(id, limit, true), Wake, Tick(Pause(poll) + lag)];
    var w0 := Start(0.0);
    var w1 := Next(w0, steps[0], poll);
    var w2 := Next(w1, steps[1], poll);
    var w3 := Next(w2, steps[2], poll);
    assert w1.registry.executions == map[id := Watched(0.0, limit, false, Task(false, false))];
    assert w2.registry.executions == map[id := Watched(0.0, limit, false, Task(false, false))];
    RunThree(w0, steps, poll, lag);
  }

  lemma RunThree(w: World, steps: seq<Step>, poll: real, lag: real)
    requires |steps| == 3
    ensures var w1 := Next(w, steps[0], poll);
            var w2 := Next(w1, steps[1], poll);
            && Run(w, steps, poll) == Next(w2, steps[2], poll)
            && (Legal(w, steps, poll, lag) <==>
                  Enabled(w, steps[0], lag) && Enabled(w1, steps[1], lag) && Enabled(w2, steps[2], lag))
  {
    hide Next, Enabled;
    var one, two := steps[1..], steps[2..];
    assert one[0] == steps[1] && one[1..] == two && two[0] == steps[2] && two[1..] == [];
    var w1 := Next(w, steps[0], poll);
    var w2 := Next(w1, steps[1], poll);
    var w3 := Next(w2, steps[2], poll);
    assert Run(w3, [], poll) == w3 && Legal(w3, [], poll, lag);
    assert Run(w2, two, poll) == w3 && (Legal(w2, two, poll, lag) <==> Enabled(w2, steps[2], lag));
    assert Run(w1, one, poll) == Run(w2, two, poll);
  }

  // ---- Which calls are watched ------------------------------------------------------------------

  /** Every guarded call under way is registered, and nothing else is. */
  ghost predicate AllWatched(w: World) {
    forall id :: id in w.live <==> id in w.registry.executions
  }

  /** A step loses sight of a call exactly when one call ends while another runs under its id. */
  lemma WatchedStepIff(w: World, s: Step, poll: real, lag: real)
    requires AllWatched(w) && Enabled(w, s, lag)
    ensures AllWatched(Next(w, s, poll)) <==> !(s.End? && w.live[s.id] > 1)
  {
    var n := Next(w, s, poll);
    match s
    case Begin(_, _, _) =>
    case Finish(_) =>
    case End(id) =>
      assert id !in n.registry.executions && (id in n.live <==> w.live[id] > 1);
    case Wake =>
    case Tick(dt) =>
  }

  /** No call begins under the id of one that is still running. */
  ghost predicate IdsFresh(w: World, steps: seq<Step>, poll: real)
    decreases |steps|
  {
    steps == [] || ((steps[0].Begin? ==> steps[0].id !in w.live) && IdsFresh(Next(w, steps[0], poll), steps[1..], poll))
  }

  ghost predicate LiveOnce(w: World) {
    forall id :: w.live[id] <= 1
  }

  /** With ids that are not reused while in use, the watchdog sees every call throughout. */
  lemma {:induction false} FreshIdsAreWatched(w: World, steps: seq<Step>, poll: real, lag: real)
    requires AllWatched(w) && LiveOnce(w)
    requires Legal(w, steps, poll, lag) && IdsFresh(w, steps, poll)
    ensures AllWatched(Run(w, steps, poll))
    decreases |steps|
  {
    if steps != [] {
      WatchedStepIff(w, steps[0], poll, lag);
      hide AllWatched;
      FreshIdsAreWatched(Next(w, steps[0], poll), steps[1..], poll, lag);
    }
  }
}
