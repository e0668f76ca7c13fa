/** Any number of executions on one engine (`app/reasoning_graph/engine.py`). `execute` puts
    its context in a slot of the engine; `_execute_node` reads that slot again before each
    node, before each tool and when it saves a result. Every interleaving is a run. */
module EngineRuns {
  import opened Wrappers
  import opened ReasoningGraphs
  import opened GraphRuns
  import opened GraphEndState
  import AB = AgentBudget
  import S = SwarmBatches

  /** One execution: the graph and context value it began with, its context now, its course,
      and how many nodes and tools, its own or not, were admitted on its context. */
  datatype Execution = Execution(
    graph: GraphView, start: Option<AB.Budget>, ctx: Option<AB.Budget>, run: Run, charged: nat, tools: nat)

  /** Executions are numbered as they begin; `slot` is the one whose context the engine holds.
      `unchecked` and `uncheckedTools` count what was admitted while it held none. */
  datatype Engine = Engine(slot: Option<nat>, execs: seq<Execution>, unchecked: nat, uncheckedTools: nat)

  const IDLE := Engine(None, [], 0, 0)

  datatype Event =
    | Begin(graph: GraphView, budget: Option<AB.Budget>)
    | StartNode(i: nat, id: Id, elapsed: real)
    | FinishNode(i: nat, id: Id, o: Outcome)
    | CancelContext(i: nat)

  predicate Acts(e: Event, i: nat) {
    (e.StartNode? || e.FinishNode?) && e.i == i
  }

  /** The value of the slot. */
  function Content(m: Engine): Option<AB.Budget>
    requires m.slot.Some? ==> m.slot.value < |m.execs|
  {
    if m.slot.None? then None else m.execs[m.slot.value].ctx
  }

  /** The slot names a context, and every execution sees its value. */
  ghost predicate Consistent(m: Engine) {
    && (m.slot.Some? ==> m.slot.value < |m.execs| && m.execs[m.slot.value].ctx.Some?)
    && (forall k :: 0 <= k < |m.execs| ==>
          m.execs[k].run.budget == Content(m) && m.execs[k].ctx.Some? == m.execs[k].start.Some?)
  }

  ghost predicate Enabled(sv: Services, m: Engine, e: Event) {
    Consistent(m)
    && match e
       case Begin(g, _) => AllPending(g)
       case StartNode(i, id, _) => i < |m.execs| && IsReady(m.execs[i].run.g, id)
       case FinishNode(i, id, o) => i < |m.execs| && CanFinish(sv, m.execs[i].run, id, o)
       case CancelContext(i) => i < |m.execs| && m.execs[i].ctx.Some?
  }

  /** Everyone sees the slot's new value; `peers` says whether it is another context. */
  ghost function Seen(x: Execution, budget: Option<AB.Budget>, peers: Peers): Execution {
    x.(run := Disturb(x.run, budget, peers))
  }

  /** Execution `k` after execution `i` went on to `run`. */
  ghost function AfterAct(m: Engine, i: nat, run: Run, k: nat): Execution
    requires i < |m.execs| && k < |m.execs|
  {
    var x := m.execs[k];
    var moved := if k == i then x.(run := run) else Seen(x, run.budget, Quiet);
    if m.slot == Some(k)
    then moved.(ctx := run.budget, charged := x.charged + Admitted(m, i, run), tools := x.tools + Called(m, i, run))
    else moved
  }

  ghost function Admitted(m: Engine, i: nat, run: Run): nat
    requires i < |m.execs|
  {
    if |run.admitted| > |m.execs[i].run.admitted| then 1 else 0
  }

  ghost function Called(m: Engine, i: nat, run: Run): nat
    requires i < |m.execs|
  {
    if run.toolRuns > m.execs[i].run.toolRuns then 1 else 0
  }

  ghost function Act(m: Engine, i: nat, run: Run): Engine
    requires i < |m.execs|
  {
    Engine(m.slot, seq(|m.execs|, k requires 0 <= k < |m.execs| => AfterAct(m, i, run, k)),
           m.unchecked + (if m.slot.None? then Admitted(m, i, run) else 0),
           m.uncheckedTools + (if m.slot.None? then Called(m, i, run) else 0))
  }

  ghost function AfterCancel(m: Engine, j: nat): Engine
    requires j < |m.execs| && m.execs[j].ctx.Some?
  {
    var b := Some(m.execs[j].ctx.value.(cancelled := true));
    Engine(m.slot,
           seq(|m.execs|, k requires 0 <= k < |m.execs| =>
             var x := if m.slot == Some(j) then Seen(m.execs[k], b, Quiet) else m.execs[k];
             if k == j then x.(ctx := b) else x),
           m.unchecked, m.uncheckedTools)
  }

  /** Setting the slot from nothing to nothing changes nothing. */
  ghost function AfterBegin(m: Engine, g: GraphView, budget: Option<AB.Budget>): Engine {
    var peers := if m.slot.None? && budget.None? then Quiet else Replacing;
    Engine(if budget.Some? then Some(|m.execs|) else None,
           seq(|m.execs|, k requires 0 <= k < |m.execs| => Seen(m.execs[k], budget, peers))
           + [Execution(g, budget, budget, Initial(g, budget), 0, 0)],
           m.unchecked, m.uncheckedTools)
  }

  ghost function Next(sv: Services, m: Engine, e: Event): Engine
    requires Enabled(sv, m, e)
  {
    match e
    case Begin(g, budget) => AfterBegin(m, g, budget)
    case StartNode(i, id, elapsed) => Act(m, i, Start(sv, m.execs[i].run, id, elapsed))
    case FinishNode(i, id, o) => Act(m, i, Finish(m.execs[i].run, id, o))
    case CancelContext(j) => AfterCancel(m, j)
  }

  ghost predicate IsEngineRun(sv: Services, run: seq<Engine>, events: seq<Event>) {
    && |run| == |events| + 1 && run[0] == IDLE
    && forall t :: 0 <= t < |events| ==> Enabled(sv, run[t], events[t]) && run[t + 1] == Next(sv, run[t], events[t])
  }

  // ---- Every execution is a run of its own --------------------------------------------------

  /** What holds of each execution. */
  ghost predicate Sound(sv: Services, m: Engine) {
    && Consistent(m)
    && forall k :: 0 <= k < |m.execs| ==> Good(sv, m.execs[k].graph, m.execs[k].start, m.execs[k].run)
  }

  /** The event moves execution `k` by one step of the single-execution system. */
  lemma EventIsStep(sv: Services, m: Engine, e: Event, k: nat)
    requires Enabled(sv, m, e) && k < |m.execs|
    ensures var m' := Next(sv, m, e);
            && |m'.execs| >= |m.execs|
            && m'.execs[k].graph == m.execs[k].graph && m'.execs[k].start == m.execs[k].start
            && Step(sv, m.execs[k].run, m'.execs[k].run)
  {
    hide Start, Finish;
    var s, s' := m.execs[k].run, Next(sv, m, e).execs[k].run;
    match e
    case Begin(_, _) =>
    case StartNode(i, id, elapsed) =>
      if i == k {
        assert StartStep(sv, s, s', id, elapsed);
      }
    case FinishNode(i, id, o) =>
      if i == k {
        assert FinishStep(sv, s, s', id, o);
      }
    case CancelContext(_) =>
      assert s' == Disturb(s, s'.budget, s'.peers) || s' == s;
  }

  /** What an event does to the slot. */
  ghost function AsOthers(sv: Services, m: Engine, e: Event): seq<Other>
    requires Enabled(sv, m, e)
  {
    match e
    case Begin(_, budget) => [TakeSlot(budget)]
    case StartNode(i, id, elapsed) => [ChargeNode(CallsTool(sv, m.execs[i].run.g.nodes[id]), elapsed)]
    case FinishNode(_, id, o) => if o.Value? then [SaveResult(id, Some(o.v))] else []
    case CancelContext(j) => if m.slot == Some(j) then [CancelSlot] else []
  }

  /** To an execution, an event of another one is exactly that change of the slot. */
  lemma OthersSeen(sv: Services, m: Engine, e: Event, k: nat)
    requires Enabled(sv, m, e) && k < |m.execs| && !Acts(e, k)
    ensures var s, es := m.execs[k].run, AsOthers(sv, m, e);
            && k < |Next(sv, m, e).execs|
            && Next(sv, m, e).execs[k].run
                 == Disturb(s, AfterOthers(s.budget, es), Worst(s.budget.Some?, es))
  {
    hide Allow;
    var s, es := m.execs[k].run, AsOthers(sv, m, e);
    OneOther(s.budget, es);
    if es != [] {
      SeverityExact(s.budget, es[0]);
    }
  }

  lemma OneOther(b: Option<AB.Budget>, es: seq<Other>)
    requires |es| <= 1
    ensures AfterOthers(b, es) == (if es == [] then b else AfterOther(b, es[0]))
    ensures Worst(b.Some?, es) == (if es == [] then Quiet else Severity(b.Some?, es[0]))
  {
    if es != [] {
      assert es[1..] == [];
    }
  }

  lemma ActConsistent(m: Engine, i: nat, run: Run)
    requires Consistent(m) && i < |m.execs| && run.budget.Some? == m.execs[i].run.budget.Some?
    ensures Consistent(Act(m, i, run))
  {
  }

  lemma SameSlot(sv: Services, s: Run, e: Event)
    ensures e.StartNode? && IsReady(s.g, e.id) ==> Start(sv, s, e.id, e.elapsed).budget.Some? == s.budget.Some?
    ensures e.FinishNode? && CanFinish(sv, s, e.id, e.o) ==> Finish(s, e.id, e.o).budget.Some? == s.budget.Some?
  {
  }

  lemma NextConsistent(sv: Services, m: Engine, e: Event)
    requires Enabled(sv, m, e)
    ensures Consistent(Next(sv, m, e))
  {
    hide Start, Finish, Act;
    match e
    case Begin(_, _) =>
    case StartNode(i, id, elapsed) =>
      SameSlot(sv, m.execs[i].run, e);
      ActConsistent(m, i, Start(sv, m.execs[i].run, id, elapsed));
    case FinishNode(i, id, o) =>
      SameSlot(sv, m.execs[i].run, e);
      ActConsistent(m, i, Finish(m.execs[i].run, id, o));
    case CancelContext(_) =>
  }

  lemma NextSound(sv: Services, m: Engine, e: Event)
    requires Sound(sv, m) && Enabled(sv, m, e)
    ensures Sound(sv, Next(sv, m, e))
  {
    hide Good, Step, Consistent;
    var m' := Next(sv, m, e);
    NextConsistent(sv, m, e);
    forall k | 0 <= k < |m'.execs| ensures Good(sv, m'.execs[k].graph, m'.execs[k].start, m'.execs[k].run) {
      if k < |m.execs| {
        EventIsStep(sv, m, e, k);
        GoodStep(sv, m.execs[k].graph, m.execs[k].start, m.execs[k].run, m'.execs[k].run);
      } else {
        NewExecution(sv, m, e, k);
        GoodInitially(sv, e.graph, e.budget);
      }
    }
  }

  lemma NewExecution(sv: Services, m: Engine, e: Event, k: nat)
    requires Enabled(sv, m, e) && |m.execs| <= k < |Next(sv, m, e).execs|
    ensures e.Begin? && AllPending(e.graph) && k == |m.execs|
    ensures Next(sv, m, e).execs[k] == Execution(e.graph, e.budget, e.budget, Initial(e.graph, e.budget), 0, 0)
  {
    hide Start, Finish;
  }

  /** In every interleaving, every execution keeps the invariants of `GraphRuns`, so that its
      end state, its results where no check raised, and while no other context takes the slot
      its budget bounds, are those of an execution on its own. */
  lemma {:induction false} EveryExecution(sv: Services, run: seq<Engine>, events: seq<Event>, t: nat)
    requires IsEngineRun(sv, run, events) && t < |run|
    ensures Sound(sv, run[t])
  {
    hide Sound, Enabled, Next;
    if t == 0 {
      IdleSound(sv);
    } else {
      EveryExecution(sv, run, events, t - 1);
      assert run[t - 1 + 1] == Next(sv, run[t - 1], events[t - 1]);
      NextSound(sv, run[t - 1], events[t - 1]);
    }
  }

  lemma IdleSound(sv: Services)
    ensures Sound(sv, IDLE)
  {
  }

  // ---- Whose context a node is charged to ----------------------------------------------------

  /** No `execute` begins among the events `from .. to - 1`. */
  ghost predicate NoBegin(events: seq<Event>, from: nat, to: nat)
    requires to <= |events|
  {
    forall t :: from <= t < to ==> !events[t].Begin?
  }

  lemma {:induction false} SlotStays(sv: Services, run: seq<Engine>, events: seq<Event>, from: nat, t: nat)
    requires IsEngineRun(sv, run, events) && from <= t < |run| && NoBegin(events, from, t)
    ensures run[t].slot == run[from].slot && |run[t].execs| == |run[from].execs|
    decreases t
  {
    hide Enabled;
    if from < t {
      SlotStays(sv, run, events, from, t - 1);
      assert run[t - 1 + 1] == Next(sv, run[t - 1], events[t - 1]);
      SlotStep(sv, run[t - 1], events[t - 1]);
    }
  }

  lemma SlotStep(sv: Services, m: Engine, e: Event)
    requires Enabled(sv, m, e)
    ensures var m' := Next(sv, m, e);
            if e.Begin? then
              |m'.execs| == |m.execs| + 1 && m'.slot == (if e.budget.Some? then Some(|m.execs|) else None)
            else |m'.execs| == |m.execs| && m'.slot == m.slot
  {
    hide Start, Finish;
  }

  /** Once another execution has begun, the slot never holds an earlier context again. */
  lemma {:induction false} SlotLost(sv: Services, run: seq<Engine>, events: seq<Event>, m: nat, t: nat)
    requires IsEngineRun(sv, run, events) && m < t < |run| && events[m].Begin?
    ensures |run[t].execs| > |run[m].execs| && (run[t].slot.Some? ==> run[t].slot.value >= |run[m].execs|)
    decreases t
  {
    hide Enabled, Next;
    assert run[t - 1 + 1] == Next(sv, run[t - 1], events[t - 1]);
    SlotStep(sv, run[t - 1], events[t - 1]);
    if m < t - 1 {
      SlotLost(sv, run, events, m, t - 1);
    }
  }

  /** Execution `i`, which event `p` began with a context, is charged to and saved in that
      context at each of its steps before `n`. */
  ghost predicate Owned(run: seq<Engine>, events: seq<Event>, i: nat, p: nat, n: nat)
    requires |run| == |events| + 1 && n <= |events|
  {
    forall t :: p < t < n && Acts(events[t], i) ==> run[t].slot == Some(i)
  }

  /** No other `execute` begins on the engine before the last of those steps. */
  ghost predicate Undisturbed(events: seq<Event>, i: nat, p: nat, n: nat)
    requires n <= |events|
  {
    forall m, t :: p < m < t < n && events[m].Begin? ==> !Acts(events[t], i)
  }

  ghost predicate Began(run: seq<Engine>, events: seq<Event>, i: nat, p: nat) {
    p < |events| && |run| == |events| + 1 && |run[p].execs| == i && events[p].Begin?
  }

  ghost predicate BeganAt(run: seq<Engine>, events: seq<Event>, i: nat, p: nat) {
    Began(run, events, i, p) && events[p].budget.Some?
  }

  /** Every node of an execution is charged to and saved in its own context if and only if no
      other `execute` begins on the engine before its last step. */
  lemma OwnedIffUndisturbed(sv: Services, run: seq<Engine>, events: seq<Event>, i: nat, p: nat, n: nat)
    requires IsEngineRun(sv, run, events) && BeganAt(run, events, i, p) && n <= |events|
    ensures Owned(run, events, i, p, n) <==> Undisturbed(events, i, p, n)
  {
    hide Enabled, Next;
    forall t | p < t < n && Acts(events[t], i)
      ensures run[t].slot == Some(i) <==> NoBegin(events, p + 1, t)
    {
      OwnedStep(sv, run, events, i, p, t);
    }
    if Undisturbed(events, i, p, n) {
      forall t | p < t < n && Acts(events[t], i) ensures run[t].slot == Some(i) {
        assert NoBegin(events, p + 1, t);
      }
    }
    if Owned(run, events, i, p, n) {
      forall m, t | p < m < t < n && events[m].Begin? ensures !Acts(events[t], i) {
        assert !NoBegin(events, p + 1, t);
      }
    }
  }

  lemma OwnedStep(sv: Services, run: seq<Engine>, events: seq<Event>, i: nat, p: nat, t: nat)
    requires IsEngineRun(sv, run, events) && BeganAt(run, events, i, p) && p < t < |run|
    ensures run[t].slot == Some(i) <==> NoBegin(events, p + 1, t)
  {
    hide Enabled, Next;
    assert run[p + 1] == Next(sv, run[p], events[p]);
    SlotStep(sv, run[p], events[p]);
    if NoBegin(events, p + 1, t) {
      SlotStays(sv, run, events, p + 1, t);
    } else {
      var m :| p + 1 <= m < t && events[m].Begin?;
      ExecsGrow(sv, run, events, p + 1, m);
      SlotLost(sv, run, events, m, t);
    }
  }

  lemma {:induction false} ExecsGrow(sv: Services, run: seq<Engine>, events: seq<Event>, m: nat, t: nat)
    requires IsEngineRun(sv, run, events) && m <= t < |run|
    ensures |run[t].execs| >= |run[m].execs|
    decreases t
  {
    hide Enabled, Next;
    if m < t {
      ExecsGrow(sv, run, events, m, t - 1);
      assert run[t - 1 + 1] == Next(sv, run[t - 1], events[t - 1]);
      SlotStep(sv, run[t - 1], events[t - 1]);
    }
  }

  // ---- The bound of one execution --------------------------------------------------------------

  lemma ActCharges(sv: Services, s: Run, e: Event)
    ensures e.StartNode? && IsReady(s.g, e.id) ==> Effect(s.budget, Start(sv, s, e.id, e.elapsed).budget) != Replacing
    ensures e.FinishNode? && CanFinish(sv, s, e.id, e.o) ==> Effect(s.budget, Finish(s, e.id, e.o).budget) != Replacing
  {
  }

  /** Only a beginning execution takes the slot. */
  lemma PeersStep(sv: Services, m: Engine, e: Event, k: nat)
    requires Enabled(sv, m, e) && !e.Begin? && k < |m.execs| && m.execs[k].run.peers != Replacing
    ensures k < |Next(sv, m, e).execs| && Next(sv, m, e).execs[k].run.peers != Replacing
  {
    match e
    case StartNode(i, id, elapsed) => ActCharges(sv, m.execs[i].run, e);
    case FinishNode(i, id, o) => ActCharges(sv, m.execs[i].run, e);
    case CancelContext(_) =>
  }

  lemma {:induction false} PeersUntilBegin(sv: Services, run: seq<Engine>, events: seq<Event>, i: nat, p: nat, t: nat)
    requires IsEngineRun(sv, run, events) && BeganAt(run, events, i, p) && p < t < |run| && NoBegin(events, p + 1, t)
    ensures i < |run[t].execs| && run[t].execs[i].run.peers != Replacing && run[t].execs[i].start == events[p].budget
    ensures run[t].execs[i].graph == events[p].graph
    decreases t
  {
    assert run[t - 1 + 1] == Next(sv, run[t - 1], events[t - 1]) && Enabled(sv, run[t - 1], events[t - 1]);
    hide Enabled, Next;
    if p < t - 1 {
      PeersUntilBegin(sv, run, events, i, p, t - 1);
      PeersStep(sv, run[t - 1], events[t - 1], i);
      EventIsStep(sv, run[t - 1], events[t - 1], i);
    } else {
      BornAt(sv, run[p], events[p]);
    }
  }

  lemma BornAt(sv: Services, m: Engine, e: Event)
    requires Enabled(sv, m, e) && e.Begin?
    ensures |Next(sv, m, e).execs| == |m.execs| + 1
    ensures Next(sv, m, e).execs[|m.execs|] == Execution(e.graph, e.budget, e.budget, Initial(e.graph, e.budget), 0, 0)
  {
  }

  /** The part of `b` that was left pays for the nodes and tools that ran. */
  ghost predicate PaidBy(b: AB.Budget, s: Run) {
    && |s.finished| <= |s.admitted|
    && (s.admitted != [] ==> |s.admitted| <= b.maxIterations - b.iterations - 1)
    && (s.toolRuns > 0 ==> s.toolRuns <= b.maxToolCalls - b.toolCalls - 1)
  }

  /** The bound of an execution follows: as long as no other `execute` begins before its last
      step, its nodes and tools are paid by its own budget. Whatever begins later does not
      matter. */
  lemma {:induction false} OwnedIsPaid(sv: Services, run: seq<Engine>, events: seq<Event>, i: nat, p: nat, n: nat)
    requires IsEngineRun(sv, run, events) && BeganAt(run, events, i, p) && p < n <= |events|
    requires Undisturbed(events, i, p, n)
    ensures i < |run[n].execs| && run[n].execs[i].start == events[p].budget
    ensures PaidBy(events[p].budget.value, run[n].execs[i].run)
    decreases n
  {
    hide IsEngineRun, Enabled, Next, PaidBy, Sound;
    if NoBegin(events, p + 1, n) {
      PeersUntilBegin(sv, run, events, i, p, n);
      EveryExecution(sv, run, events, n);
      SoundIsPaid(sv, run[n], i);
    } else {
      var m :| p + 1 <= m < n && events[m].Begin?;
      OwnedIsPaid(sv, run, events, i, p, n - 1);
      EventAt(sv, run, events, n - 1);
      EventIsStep(sv, run[n - 1], events[n - 1], i);
      assert !Acts(events[n - 1], i);
      OthersLeave(sv, run[n - 1], events[n - 1], i, events[p].budget.value);
    }
  }

  lemma EventAt(sv: Services, run: seq<Engine>, events: seq<Event>, t: nat)
    requires IsEngineRun(sv, run, events) && t < |events|
    ensures |run| == |events| + 1 && Enabled(sv, run[t], events[t]) && run[t + 1] == Next(sv, run[t], events[t])
  {
  }

  lemma SoundIsPaid(sv: Services, m: Engine, i: nat)
    requires Sound(sv, m) && i < |m.execs| && m.execs[i].start.Some? && m.execs[i].run.peers != Replacing
    ensures PaidBy(m.execs[i].start.value, m.execs[i].run)
  {
    hide Inv, Consistent;
    assert Good(sv, m.execs[i].graph, m.execs[i].start, m.execs[i].run);
  }

  lemma OthersLeave(sv: Services, m: Engine, e: Event, i: nat, b: AB.Budget)
    requires Enabled(sv, m, e) && i < |m.execs| && !Acts(e, i) && PaidBy(b, m.execs[i].run)
    ensures PaidBy(b, Next(sv, m, e).execs[i].run)
  {
    hide Start, Finish;
  }

  // ---- What is saved, and where -----------------------------------------------------------------

  predicate Saves(e: Event) {
    e.FinishNode? && e.o.Value?
  }

  /** The results delivered, by whatever execution, while the slot held context `i`. */
  ghost function Saved(run: seq<Engine>, events: seq<Event>, i: nat, t: nat): seq<(Id, Option<string>)>
    requires |run| == |events| + 1 && t <= |events|
  {
    if t == 0 then []
    else
      var e := events[t - 1];
      Saved(run, events, i, t - 1) + if Saves(e) && run[t - 1].slot == Some(i) then [(e.id, Some(e.o.v))] else []
  }

  lemma SavesStep(sv: Services, m: Engine, e: Event, i: nat)
    requires Enabled(sv, m, e) && i < |m.execs| && m.execs[i].ctx.Some?
    ensures var m' := Next(sv, m, e);
            && i < |m'.execs| && m'.execs[i].ctx.Some?
            && m'.execs[i].ctx.value.partials ==
                 m.execs[i].ctx.value.partials
                 + if Saves(e) && m.slot == Some(i) then [(e.id, Some(e.o.v))] else []
  {
    hide Effect, Worse;
    var c := m.execs[i].ctx.value;
    assert c.partials + [] == c.partials;
    match e
    case StartNode(j, id, elapsed) => StartSavesNothing(sv, m.execs[j].run, id, elapsed);
    case _ =>
  }

  lemma StartSavesNothing(sv: Services, s: Run, id: Id, elapsed: real)
    requires IsReady(s.g, id)
    ensures var t := Start(sv, s, id, elapsed);
            t.budget.Some? == s.budget.Some? && (s.budget.Some? ==> t.budget.value.partials == s.budget.value.partials)
  {
  }

  /** In every interleaving, what a context holds is what it came with and then exactly the
      results that were delivered while the slot held it, in that order. */
  lemma {:induction false} SavedExact(sv: Services, run: seq<Engine>, events: seq<Event>, i: nat, t: nat)
    requires IsEngineRun(sv, run, events) && t < |run|
    ensures i >= |run[t].execs| ==> Saved(run, events, i, t) == []
    ensures i < |run[t].execs| && run[t].execs[i].start.Some? ==>
              && run[t].execs[i].ctx.Some?
              && run[t].execs[i].ctx.value.partials
                   == run[t].execs[i].start.value.partials + Saved(run, events, i, t)
  {
    hide Enabled, Next;
    if t > 0 {
      SavedExact(sv, run, events, i, t - 1);
      EventAt(sv, run, events, t - 1);
      var m, e := run[t - 1], events[t - 1];
      SlotStep(sv, m, e);
      SlotNamesExecution(sv, m, e);
      if i < |m.execs| {
        EventIsStep(sv, m, e, i);
        if m.execs[i].start.Some? {
          SavesStep(sv, m, e, i);
        }
      } else if i < |run[t].execs| {
        BornAt(sv, m, e);
        var b := run[t].execs[i].start;
        assert b.Some? ==> b.value.partials + [] == b.value.partials;
      }
    }
  }

  lemma SlotNamesExecution(sv: Services, m: Engine, e: Event)
    requires Enabled(sv, m, e)
    ensures m.slot.Some? ==> m.slot.value < |m.execs|
  {
  }

  /** The values delivered while the slot holds context `i` are those of execution `i`. */
  ghost predicate SavesOwn(run: seq<Engine>, events: seq<Event>, i: nat, p: nat, n: nat)
    requires |run| == |events| + 1 && n <= |events|
  {
    forall t :: p < t < n && Saves(events[t]) ==> (events[t].i == i <==> run[t].slot == Some(i))
  }

  /** Where that is so, the context holds exactly the completed nodes of its execution, once
      each and in the order in which they ended, whatever else other executions do. */
  lemma {:induction false} OwnSavesOnce(sv: Services, run: seq<Engine>, events: seq<Event>, i: nat, p: nat, n: nat)
    requires IsEngineRun(sv, run, events) && BeganAt(run, events, i, p) && p < n <= |events|
    requires SavesOwn(run, events, i, p, n) && events[p].budget.value.partials == []
    ensures i < |run[n].execs| && run[n].execs[i].ctx.Some?
    ensures SavedOnce(run[n].execs[i].ctx.value.partials, run[n].execs[i].run)
  {
    hide Enabled, Next, Good, Saved, SavesOwn;
    OwnPartials(sv, run, events, i, p, n);
    EveryExecution(sv, run, events, n);
    var x := run[n].execs[i];
    assert Good(sv, x.graph, x.start, x.run);
    PartialsMean(sv, x.graph, x.start, x.run);
  }

  /** In particular: no other `execute` begins before its last step, and no other execution's
      node ends with a value while its context is in the slot. */
  lemma AloneSavesOnce(sv: Services, run: seq<Engine>, events: seq<Event>, i: nat, p: nat, n: nat)
    requires IsEngineRun(sv, run, events) && BeganAt(run, events, i, p) && p < n <= |events|
    requires Undisturbed(events, i, p, n) && events[p].budget.value.partials == []
    requires forall t :: p < t < n && Saves(events[t]) && run[t].slot == Some(i) ==> events[t].i == i
    ensures i < |run[n].execs| && run[n].execs[i].ctx.Some?
    ensures SavedOnce(run[n].execs[i].ctx.value.partials, run[n].execs[i].run)
  {
    hide IsEngineRun, SavedOnce, Undisturbed;
    OwnedIffUndisturbed(sv, run, events, i, p, n);
    assert forall t :: p < t < n && Saves(events[t]) && events[t].i == i ==> Acts(events[t], i);
    OwnSavesOnce(sv, run, events, i, p, n);
  }

  lemma PartialsMean(sv: Services, g: GraphView, b: Option<AB.Budget>, s: Run)
    requires Good(sv, g, b, s) && forall k :: 0 <= k < |s.finished| ==> s.finished[k] in s.g.nodes
    ensures SavedOnce(PartialsOf(s.g, s.finished), s)
  {
    PartialsExact(s.g, s.finished);
    forall k | k in s.g.nodes && s.g.nodes[k].status == Completed ensures k in s.finished {
      assert Ended(s.g.nodes[k]);
    }
  }

  /** The partial results are those of the nodes that ended. */
  ghost predicate Own(x: Execution) {
    && x.ctx.Some? && (forall k :: 0 <= k < |x.run.finished| ==> x.run.finished[k] in x.run.g.nodes)
    && x.ctx.value.partials == PartialsOf(x.run.g, x.run.finished)
  }

  lemma {:induction false} OwnPartials(sv: Services, run: seq<Engine>, events: seq<Event>, i: nat, p: nat, n: nat)
    requires IsEngineRun(sv, run, events) && BeganAt(run, events, i, p) && p < n <= |events|
    requires SavesOwn(run, events, i, p, n) && events[p].budget.value.partials == []
    ensures i < |run[n].execs| && Own(run[n].execs[i])
    decreases n
  {
    hide Enabled, Next, Own, Sound, Consistent;
    EventAt(sv, run, events, n - 1);
    if p < n - 1 {
      OwnPartials(sv, run, events, i, p, n - 1);
      EveryExecution(sv, run, events, n - 1);
      OwnStep(sv, run[n - 1], events[n - 1], i);
    } else {
      BornAt(sv, run[p], events[p]);
      BornOwn(run[n].execs[i]);
    }
  }

  lemma BornOwn(x: Execution)
    requires x.ctx.Some? && x.ctx.value.partials == [] && x.run.finished == []
    ensures Own(x)
  {
  }

  lemma OwnStep(sv: Services, m: Engine, e: Event, i: nat)
    requires Sound(sv, m) && Enabled(sv, m, e) && i < |m.execs| && Own(m.execs[i])
    requires Saves(e) ==> (e.i == i <==> m.slot == Some(i))
    ensures i < |Next(sv, m, e).execs| && Own(Next(sv, m, e).execs[i])
  {
    SavesStep(sv, m, e, i);
    EventIsStep(sv, m, e, i);
    var s, s' := m.execs[i].run, Next(sv, m, e).execs[i].run;
    assert Good(sv, m.execs[i].graph, m.execs[i].start, s);
    if Acts(e, i) {
      ActMoves(sv, m, e, i);
      hide Next;
      if e.StartNode? {
        StartPartials(sv, m.execs[i].graph, s, e.id, e.elapsed);
      } else {
        FinishPartials(sv, m.execs[i].graph, s, e.id, e.o);
      }
    } else {
      OthersMove(sv, m, e, i);
    }
  }

  lemma ActMoves(sv: Services, m: Engine, e: Event, i: nat)
    requires Enabled(sv, m, e) && i < |m.execs| && Acts(e, i)
    ensures e.StartNode? ==> IsReady(m.execs[i].run.g, e.id)
                             && Next(sv, m, e).execs[i].run == Start(sv, m.execs[i].run, e.id, e.elapsed)
    ensures e.FinishNode? ==> CanFinish(sv, m.execs[i].run, e.id, e.o)
                              && Next(sv, m, e).execs[i].run == Finish(m.execs[i].run, e.id, e.o)
  {
    hide Start, Finish;
  }

  lemma OthersMove(sv: Services, m: Engine, e: Event, i: nat)
    requires Enabled(sv, m, e) && i < |m.execs| && !Acts(e, i)
    ensures var s, s' := m.execs[i].run, Next(sv, m, e).execs[i].run;
            s'.g == s.g && s'.finished == s.finished && s'.inflight == s.inflight
  {
    hide Start, Finish;
  }

  lemma StartPartials(sv: Services, g0: GraphView, s: Run, id: Id, elapsed: real)
    requires Inv(sv, g0, s) && IsReady(s.g, id)
    ensures var s' := Start(sv, s, id, elapsed);
            && s'.finished == s.finished
            && (forall k :: 0 <= k < |s.finished| ==> s.finished[k] in s.g.nodes && s.finished[k] in s'.g.nodes)
            && PartialsOf(s'.g, s'.finished) == PartialsOf(s.g, s.finished)
  {
    assert FinishedExact(s) && id !in s.finished;
    PartialsUnchanged(s.g, Start(sv, s, id, elapsed).g, s.finished);
  }

  lemma FinishPartials(sv: Services, g0: GraphView, s: Run, id: Id, o: Outcome)
    requires Inv(sv, g0, s) && CanFinish(sv, s, id, o)
    ensures var s' := Finish(s, id, o);
            && (forall k :: 0 <= k < |s.finished| ==> s.finished[k] in s.g.nodes)
            && (forall k :: 0 <= k < |s'.finished| ==> s'.finished[k] in s'.g.nodes)
            && PartialsOf(s'.g, s'.finished)
                 == PartialsOf(s.g, s.finished) + if o.Value? then [(id, Some(o.v))] else []
  {
    hide ResultsRight, Topological, DispatchExact, StartedAfterDeps, Invoke;
    var s' := Finish(s, id, o);
    assert id !in s.finished;
    PartialsUnchanged(s.g, s'.g, s.finished);
    assert s'.finished[..|s'.finished| - 1] == s.finished;
  }

  // ---- Executions without a budget --------------------------------------------------------------

  /** No `execute` brings a context among the events `from .. to - 1`. */
  ghost predicate NoContext(events: seq<Event>, from: nat, to: nat)
    requires to <= |events|
  {
    forall t :: from <= t < to && events[t].Begin? ==> events[t].budget.None?
  }

  /** An execution that began without a context, and none has been brought since. */
  ghost predicate Unbudgeted(run: seq<Engine>, events: seq<Event>, i: nat, p: nat, t: nat) {
    Began(run, events, i, p) && events[p].budget.None? && p < t < |run| && NoContext(events, p + 1, t)
  }

  lemma {:induction false} SlotStaysEmpty(sv: Services, run: seq<Engine>, events: seq<Event>, i: nat, p: nat, t: nat)
    requires IsEngineRun(sv, run, events) && Unbudgeted(run, events, i, p, t)
    ensures run[t].slot.None? && i < |run[t].execs|
    ensures var x := run[t].execs[i]; x.run.peers != Replacing && x.start.None? && x.graph == events[p].graph
    decreases t
  {
    hide Enabled, Next;
    EventAt(sv, run, events, t - 1);
    SlotStep(sv, run[t - 1], events[t - 1]);
    if p < t - 1 {
      SlotStaysEmpty(sv, run, events, i, p, t - 1);
      EventIsStep(sv, run[t - 1], events[t - 1], i);
      EmptyStep(sv, run[t - 1], events[t - 1], i);
    } else {
      BornAt(sv, run[p], events[p]);
    }
  }

  lemma EmptyStep(sv: Services, m: Engine, e: Event, i: nat)
    requires Enabled(sv, m, e) && m.slot.None? && i < |m.execs| && m.execs[i].run.peers != Replacing
    requires e.Begin? ==> e.budget.None?
    ensures i < |Next(sv, m, e).execs| && Next(sv, m, e).execs[i].run.peers != Replacing
  {
    if !e.Begin? {
      PeersStep(sv, m, e, i);
    }
  }

  lemma UnbudgetedIsSound(sv: Services, run: seq<Engine>, events: seq<Event>, i: nat, p: nat, t: nat)
    requires IsEngineRun(sv, run, events) && Unbudgeted(run, events, i, p, t)
    ensures i < |run[t].execs| && Inv(sv, events[p].graph, run[t].execs[i].run) && NoneStuck(run[t].execs[i].run)
  {
    hide Inv, NoneStuck, IsEngineRun, NoContext;
    SlotStaysEmpty(sv, run, events, i, p, t);
    EveryExecution(sv, run, events, t);
    var x := run[t].execs[i];
    assert Good(sv, x.graph, x.start, x.run);
  }

  /** In every interleaving: an execution of a closed acyclic graph that began without a
      context, and into whose course no other one brings a context, has computed the
      reference evaluation when it comes to its end. */
  lemma UnbudgetedReachesReference(sv: Services, run: seq<Engine>, events: seq<Event>, i: nat, p: nat, t: nat, k: Id)
    requires IsEngineRun(sv, run, events) && Unbudgeted(run, events, i, p, t)
    requires var g := events[p].graph; NoAgents(g) && Closed(g) && Acyclic(g) && k in g.nodes
    requires i < |run[t].execs| && Quiescent(run[t].execs[i].run)
    ensures var s := run[t].execs[i].run;
            k in s.g.nodes && Settled(sv, s.g, k) && Matches(s.g.nodes[k], Evaluate(sv, events[p].graph, k))
  {
    hide Inv, NoneStuck, IsEngineRun, NoContext;
    UnbudgetedIsSound(sv, run, events, i, p, t);
    ReferenceReached(sv, events[p].graph, run[t].execs[i].run, k);
  }

  /** Schedule independence on the engine: two such executions of one graph, with or without
      cycles, on one engine or on two, leave the same graph. */
  lemma UnbudgetedAgree(sv: Services, run: seq<Engine>, events: seq<Event>, i: nat, p: nat, t: nat,
                        run': seq<Engine>, events': seq<Event>, i': nat, p': nat, t': nat)
    requires IsEngineRun(sv, run, events) && Unbudgeted(run, events, i, p, t)
    requires IsEngineRun(sv, run', events') && Unbudgeted(run', events', i', p', t')
    requires events[p].graph == events'[p'].graph && NoAgents(events[p].graph)
    requires i < |run[t].execs| && Quiescent(run[t].execs[i].run)
    requires i' < |run'[t'].execs| && Quiescent(run'[t'].execs[i'].run)
    ensures run[t].execs[i].run.g == run'[t'].execs[i'].run.g
  {
    hide Inv, NoneStuck, IsEngineRun, NoContext, Quiescent;
    UnbudgetedIsSound(sv, run, events, i, p, t);
    UnbudgetedIsSound(sv, run', events', i', p', t');
    ScheduleIndependence(sv, events[p].graph, run[t].execs[i].run, run'[t'].execs[i'].run);
  }

  // ---- What holds of all executions together ---------------------------------------------------

  /** The nodes a budget can still admit. */
  function Left(b: Option<AB.Budget>): nat {
    if b.Some? && b.value.maxIterations - b.value.iterations - 1 > 0
    then b.value.maxIterations - b.value.iterations - 1 else 0
  }

  /** The tools it can still pay for. */
  function LeftTools(b: Option<AB.Budget>): nat {
    if b.Some? && b.value.maxToolCalls - b.value.toolCalls - 1 > 0
    then b.value.maxToolCalls - b.value.toolCalls - 1 else 0
  }

  /** `f` of each execution. */
  function Tally(xs: seq<Execution>, f: Execution -> nat): (r: seq<nat>)
    ensures |r| == |xs| && forall k :: 0 <= k < |r| ==> r[k] == f(xs[k])
  {
    seq(|xs|, k requires 0 <= k < |xs| => f(xs[k]))
  }

  function Admissions(x: Execution): nat {
    |x.run.admitted|
  }

  function Charges(x: Execution): nat {
    x.charged
  }

  function Budgets(x: Execution): nat {
    Left(x.start)
  }

  function ToolRuns(x: Execution): nat {
    x.run.toolRuns
  }

  function ToolCharges(x: Execution): nat {
    x.tools
  }

  function ToolBudgets(x: Execution): nat {
    LeftTools(x.start)
  }

  function Total(xs: seq<Execution>, f: Execution -> nat): nat {
    S.Sum(Tally(xs, f))
  }

  /** A context has admitted no more nodes, and paid no more tools, than it had left when its
      execution began. */
  ghost predicate Covered(x: Execution) {
    && x.ctx.Some? == x.start.Some?
    && (x.ctx.None? ==> x.charged == 0 && x.tools == 0)
    && (x.ctx.Some? ==>
          && x.ctx.value.maxIterations == x.start.value.maxIterations
          && x.ctx.value.maxToolCalls == x.start.value.maxToolCalls
          && x.ctx.value.iterations >= x.start.value.iterations + x.charged
          && x.ctx.value.toolCalls >= x.start.value.toolCalls + x.tools
          && (x.charged > 0 ==> x.start.value.iterations + x.charged < x.start.value.maxIterations)
          && (x.tools > 0 ==> x.start.value.toolCalls + x.tools < x.start.value.maxToolCalls))
  }

  /** What was admitted is what was charged, up to what went unchecked. */
  ghost predicate Even(m: Engine) {
    && Total(m.execs, Admissions) == Total(m.execs, Charges) + m.unchecked
    && Total(m.execs, ToolRuns) == Total(m.execs, ToolCharges) + m.uncheckedTools
  }

  /** Every admitted node is charged to exactly one context, or was admitted unchecked, and so
      is every tool. */
  ghost predicate Balanced(m: Engine) {
    && Consistent(m)
    && Even(m)
    && (forall k :: 0 <= k < |m.execs| ==> Covered(m.execs[k]))
  }

  /** One number grows by `d`. */
  lemma TotalGrows(xs: seq<Execution>, ys: seq<Execution>, f: Execution -> nat, i: nat, d: nat)
    requires |ys| == |xs| && i < |xs| && f(ys[i]) == f(xs[i]) + d
    requires forall k :: 0 <= k < |xs| && k != i ==> f(ys[k]) == f(xs[k])
    ensures Total(ys, f) == Total(xs, f) + d
  {
    assert Tally(ys, f) == Tally(xs, f)[i := f(xs[i]) + d];
    S.SumUpdate(Tally(xs, f), i, f(xs[i]) + d);
  }

  lemma TotalSame(xs: seq<Execution>, ys: seq<Execution>, f: Execution -> nat)
    requires |ys| == |xs| && forall k :: 0 <= k < |xs| ==> f(ys[k]) == f(xs[k])
    ensures Total(ys, f) == Total(xs, f)
  {
    assert Tally(ys, f) == Tally(xs, f);
  }

  /** What an act does to the tallies. */
  lemma ActBalances(m: Engine, i: nat, run: Run)
    requires Consistent(m) && Even(m) && i < |m.execs|
    requires |m.execs[i].run.admitted| <= |run.admitted| <= |m.execs[i].run.admitted| + 1
    requires m.execs[i].run.toolRuns <= run.toolRuns <= m.execs[i].run.toolRuns + 1
    ensures Even(Act(m, i, run))
  {
    hide Total, Worse, Effect;
    var xs, ys := m.execs, Act(m, i, run).execs;
    TotalGrows(xs, ys, Admissions, i, Admitted(m, i, run));
    TotalGrows(xs, ys, ToolRuns, i, Called(m, i, run));
    if m.slot.Some? {
      TotalGrows(xs, ys, Charges, m.slot.value, Admitted(m, i, run));
      TotalGrows(xs, ys, ToolCharges, m.slot.value, Called(m, i, run));
    } else {
      TotalSame(xs, ys, Charges);
      TotalSame(xs, ys, ToolCharges);
    }
  }

  lemma TotalJoin(xs: seq<Execution>, ys: seq<Execution>, f: Execution -> nat)
    requires |ys| == |xs| + 1 && f(ys[|xs|]) == 0 && forall k :: 0 <= k < |xs| ==> f(ys[k]) == f(xs[k])
    ensures Total(ys, f) == Total(xs, f)
  {
    assert Tally(ys, f) == Tally(xs, f) + [0];
    S.SumAppend(Tally(xs, f), 0);
  }

  lemma BeginBalances(m: Engine, g: GraphView, budget: Option<AB.Budget>)
    requires Even(m)
    ensures Even(AfterBegin(m, g, budget))
  {
    hide Total, Worse, Effect;
    var xs, ys := m.execs, AfterBegin(m, g, budget).execs;
    TotalJoin(xs, ys, Admissions);
    TotalJoin(xs, ys, Charges);
    TotalJoin(xs, ys, ToolRuns);
    TotalJoin(xs, ys, ToolCharges);
  }

  lemma CancelBalances(m: Engine, j: nat)
    requires Even(m) && j < |m.execs| && m.execs[j].ctx.Some?
    ensures Even(AfterCancel(m, j))
  {
    hide Total, Worse, Effect;
    var xs, ys := m.execs, AfterCancel(m, j).execs;
    TotalSame(xs, ys, Admissions);
    TotalSame(xs, ys, Charges);
    TotalSame(xs, ys, ToolRuns);
    TotalSame(xs, ys, ToolCharges);
  }

  /** An admitted node finds its context below the limit, and so does a tool. */
  lemma StartPays(sv: Services, s: Run, id: Id, elapsed: real)
    requires IsReady(s.g, id)
    ensures var t := Start(sv, s, id, elapsed);
            && |s.admitted| <= |t.admitted| <= |s.admitted| + 1 && s.toolRuns <= t.toolRuns <= s.toolRuns + 1
            && t.budget.Some? == s.budget.Some?
            && (s.budget.Some? ==>
                  && t.budget.value.maxIterations == s.budget.value.maxIterations
                  && t.budget.value.iterations == s.budget.value.iterations + 1
                  && (|t.admitted| > |s.admitted| ==> t.budget.value.iterations < t.budget.value.maxIterations)
                  && ToolsPaid(s, t))
  {
  }

  ghost predicate ToolsPaid(s: Run, t: Run)
    requires s.budget.Some? && t.budget.Some?
  {
    && t.budget.value.maxToolCalls == s.budget.value.maxToolCalls
    && t.budget.value.toolCalls >= s.budget.value.toolCalls + (if t.toolRuns > s.toolRuns then 1 else 0)
    && (t.toolRuns > s.toolRuns ==> t.budget.value.toolCalls < t.budget.value.maxToolCalls)
  }

  lemma ActCovers(m: Engine, i: nat, run: Run, k: nat)
    requires Balanced(m) && i < |m.execs| && k < |m.execs| && run.budget.Some? == m.execs[i].run.budget.Some?
    requires run.budget.Some? ==>
               var b, c := m.execs[i].run.budget.value, run.budget.value;
               && c.maxIterations == b.maxIterations && c.iterations >= b.iterations + Admitted(m, i, run)
               && (Admitted(m, i, run) > 0 ==> c.iterations < c.maxIterations)
               && ToolsPaid(m.execs[i].run, run)
    ensures Covered(Act(m, i, run).execs[k])
  {
    hide Disturb, Total;
    assert Covered(m.execs[k]);
  }

  lemma NextBalanced(sv: Services, m: Engine, e: Event)
    requires Balanced(m) && Enabled(sv, m, e)
    ensures Balanced(Next(sv, m, e))
  {
    hide Start, Finish, Act, Total, Consistent, Covered;
    NextConsistent(sv, m, e);
    CoveredNext(sv, m, e);
    match e
    case Begin(g, budget) => BeginBalances(m, g, budget);
    case StartNode(i, id, elapsed) =>
      StartPays(sv, m.execs[i].run, id, elapsed);
      ActBalances(m, i, Start(sv, m.execs[i].run, id, elapsed));
    case FinishNode(i, id, o) =>
      FinishPays(sv, m.execs[i].run, id, o);
      ActBalances(m, i, Finish(m.execs[i].run, id, o));
    case CancelContext(j) => CancelBalances(m, j);
  }

  lemma FinishPays(sv: Services, s: Run, id: Id, o: Outcome)
    requires CanFinish(sv, s, id, o)
    ensures var t := Finish(s, id, o);
            && t.admitted == s.admitted && t.budget.Some? == s.budget.Some?
            && (s.budget.Some? ==>
                  && t.budget.value.maxIterations == s.budget.value.maxIterations
                  && t.budget.value.iterations == s.budget.value.iterations && ToolsPaid(s, t))
            && t.toolRuns == s.toolRuns
  {
  }

  lemma CoveredNext(sv: Services, m: Engine, e: Event)
    requires Balanced(m) && Enabled(sv, m, e)
    ensures forall k :: 0 <= k < |Next(sv, m, e).execs| ==> Covered(Next(sv, m, e).execs[k])
  {
    hide Start, Finish, Act, Total, Disturb, ToolsPaid;
    var m' := Next(sv, m, e);
    match e
    case Begin(_, _) =>
      forall k | 0 <= k < |m'.execs| ensures Covered(m'.execs[k]) {
        assert k < |m.execs| ==> Covered(m.execs[k]);
      }
    case CancelContext(j) =>
      forall k | 0 <= k < |m'.execs| ensures Covered(m'.execs[k]) {
        assert Covered(m.execs[k]);
      }
    case StartNode(i, id, elapsed) =>
      StartPays(sv, m.execs[i].run, id, elapsed);
      ActLength(m, i, Start(sv, m.execs[i].run, id, elapsed));
      forall k | 0 <= k < |m'.execs| ensures Covered(m'.execs[k]) {
        ActCovers(m, i, Start(sv, m.execs[i].run, id, elapsed), k);
      }
    case FinishNode(i, id, o) =>
      FinishPays(sv, m.execs[i].run, id, o);
      ActLength(m, i, Finish(m.execs[i].run, id, o));
      forall k | 0 <= k < |m'.execs| ensures Covered(m'.execs[k]) {
        ActCovers(m, i, Finish(m.execs[i].run, id, o), k);
      }
  }

  lemma ActLength(m: Engine, i: nat, run: Run)
    requires i < |m.execs|
    ensures |Act(m, i, run).execs| == |m.execs|
  {
  }

  lemma {:induction false} SumPointwise(a: seq<nat>, b: seq<nat>)
    requires |a| == |b| && forall k :: 0 <= k < |a| ==> a[k] <= b[k]
    ensures S.Sum(a) <= S.Sum(b)
  {
    if a != [] {
      SumPointwise(a[1..], b[1..]);
    }
  }

  lemma {:induction false} AlwaysBalanced(sv: Services, run: seq<Engine>, events: seq<Event>, t: nat)
    requires IsEngineRun(sv, run, events) && t < |run|
    ensures Balanced(run[t])
    ensures (forall e :: e in events && e.Begin? ==> e.budget.Some?) ==>
              run[t].unchecked == 0 && run[t].uncheckedTools == 0 && (run[t].slot.None? ==> run[t].execs == [])
  {
    hide Balanced, Enabled, Next, Consistent;
    if t == 0 {
      IdleBalanced();
    } else {
      AlwaysBalanced(sv, run, events, t - 1);
      EventAt(sv, run, events, t - 1);
      NextBalanced(sv, run[t - 1], events[t - 1]);
      SlotStep(sv, run[t - 1], events[t - 1]);
      assert events[t - 1] in events;
      if forall e :: e in events && e.Begin? ==> e.budget.Some? {
        UncheckedStep(sv, run[t - 1], events[t - 1]);
      }
    }
  }

  lemma IdleBalanced()
    ensures Balanced(IDLE)
  {
  }

  lemma UncheckedStep(sv: Services, m: Engine, e: Event)
    requires Enabled(sv, m, e) && (m.slot.None? ==> m.execs == [])
    ensures Next(sv, m, e).unchecked == m.unchecked && Next(sv, m, e).uncheckedTools == m.uncheckedTools
  {
    hide Start, Finish;
  }

  lemma TotalWithin(xs: seq<Execution>, f: Execution -> nat, g: Execution -> nat)
    requires forall k :: 0 <= k < |xs| ==> f(xs[k]) <= g(xs[k])
    ensures Total(xs, f) <= Total(xs, g)
  {
    SumPointwise(Tally(xs, f), Tally(xs, g));
  }

  /** Whatever the interleaving: the nodes admitted in all executions together, and the tools
      they call, are no more than all the contexts had left when they came to the engine,
      unless some were admitted while the slot was empty, which needs an `execute` without a
      context. */
  lemma TotalIsPaid(sv: Services, run: seq<Engine>, events: seq<Event>, t: nat)
    requires IsEngineRun(sv, run, events) && t < |run|
    ensures var xs := run[t].execs;
            && Total(xs, Admissions) <= Total(xs, Budgets) + run[t].unchecked
            && Total(xs, ToolRuns) <= Total(xs, ToolBudgets) + run[t].uncheckedTools
    ensures (forall e :: e in events && e.Begin? ==> e.budget.Some?) ==>
              run[t].unchecked == 0 && run[t].uncheckedTools == 0
  {
    hide IsEngineRun, Total;
    AlwaysBalanced(sv, run, events, t);
    var xs := run[t].execs;
    assert forall k :: 0 <= k < |xs| ==> Covered(xs[k]);
    TotalWithin(xs, Charges, Budgets);
    TotalWithin(xs, ToolCharges, ToolBudgets);
  }

  // ---- When the slot is taken --------------------------------------------------------------------

  const A := Id("a")
  const B := Id("b")
  const STEP := NodeView(Reasoning, "", Some("agent"), [], Pending, None, 1)

  /** Two nodes in a row. */
  const CHAIN := GraphView([A, B], map[A := STEP, B := STEP.(deps := [A], depth := 2)])

  function Fresh(maxIterations: int): AB.Budget {
    AB.Budget(maxIterations, 20, 30.0, 1, 0, false, AB.Completed, [])
  }

  lemma Extend(sv: Services, run: seq<Engine>, events: seq<Event>, e: Event)
      returns (run': seq<Engine>, events': seq<Event>)
    requires IsEngineRun(sv, run, events) && Enabled(sv, run[|run| - 1], e)
    ensures IsEngineRun(sv, run', events') && events' == events + [e] && |run'| == |run| + 1
    ensures run'[|run'| - 1] == Next(sv, run[|run| - 1], e)
  {
    hide Enabled, Next;
    run', events' := run + [Next(sv, run[|run| - 1], e)], events + [e];
  }

  /** The first node of the chain is at its `await`, paid by its own budget of one node. */
  lemma FirstStarted(sv: Services) returns (run: seq<Engine>, events: seq<Event>)
    ensures IsEngineRun(sv, run, events)
    ensures events == [Begin(CHAIN, Some(Fresh(3))), StartNode(0, A, 0.0)]
    ensures var m := run[|run| - 1];
            && Consistent(m) && m.slot == Some(0) && |m.execs| == 1
            && m.execs[0].start == Some(Fresh(3)) && m.execs[0].ctx.Some? && m.execs[0].ctx.value.partials == []
            && m.execs[0].run.inflight == map[A := map[]] && m.execs[0].run.finished == []
            && m.execs[0].run.g == Update(CHAIN, A, Running, None)
  {
    run, events := [IDLE], [];
    run, events := Extend(sv, run, events, Begin(CHAIN, Some(Fresh(3))));
    var m := run[|run| - 1];
    NextConsistent(sv, IDLE, Begin(CHAIN, Some(Fresh(3))));
    assert m.execs == [Execution(CHAIN, Some(Fresh(3)), Some(Fresh(3)), Initial(CHAIN, Some(Fresh(3))), 0, 0)];
    assert IsReady(m.execs[0].run.g, A);
    run, events := Extend(sv, run, events, StartNode(0, A, 0.0));
    NextConsistent(sv, m, StartNode(0, A, 0.0));
    assert Capture(CHAIN, []) == map[];
  }

  lemma Started(sv: Services, m: Engine)
    requires Consistent(m) && |m.execs| == 2 && m.slot == Some(1) && m.execs[1].ctx.Some?
    requires m.execs[1].ctx.value == Fresh(10).(partials := m.execs[1].ctx.value.partials)
    requires IsReady(m.execs[0].run.g, B)
    requires m.execs[0].run.g.nodes[B].agent.Some?
    ensures Enabled(sv, m, StartNode(0, B, 0.0))
    ensures var m' := Next(sv, m, StartNode(0, B, 0.0));
            && Consistent(m') && |m'.execs| == 2 && m'.slot == Some(1)
            && m'.execs[0].start == m.execs[0].start && m'.execs[0].ctx == m.execs[0].ctx
            && m'.execs[1].ctx.Some? && m'.execs[1].ctx.value.partials == m.execs[1].ctx.value.partials
            && B in m'.execs[0].run.inflight && m'.execs[0].run.finished == m.execs[0].run.finished
            && B in m'.execs[0].run.g.nodes && m'.execs[0].run.g.nodes[B].agent.Some?
            && m'.execs[1].run.dispatched == m.execs[1].run.dispatched
  {
    NextConsistent(sv, m, StartNode(0, B, 0.0));
  }

  lemma Finished(sv: Services, m: Engine, id: Id, v: string)
    requires Consistent(m) && |m.execs| == 2 && m.slot == Some(1) && m.execs[1].ctx.Some?
    requires id in m.execs[0].run.inflight && id in m.execs[0].run.g.nodes && m.execs[0].run.g.nodes[id].agent.Some?
    ensures Enabled(sv, m, FinishNode(0, id, Value(v)))
    ensures var m' := Next(sv, m, FinishNode(0, id, Value(v)));
            && Consistent(m') && |m'.execs| == 2 && m'.slot == Some(1)
            && m'.execs[0].start == m.execs[0].start && m'.execs[0].ctx == m.execs[0].ctx
            && m'.execs[1].ctx ==
                 Some(m.execs[1].ctx.value.(partials := m.execs[1].ctx.value.partials + [(id, Some(v))]))
            && m'.execs[0].run.g == Update(m.execs[0].run.g, id, Completed, Some(v))
            && m'.execs[0].run.finished == m.execs[0].run.finished + [id]
            && m'.execs[1].run.dispatched == m.execs[1].run.dispatched
  {
    NextConsistent(sv, m, FinishNode(0, id, Value(v)));
  }

  /** Without that condition the bound fails: an execution with one node left to run runs two,
      and both results are saved in the context of another one that ran nothing. */
  lemma TakenSlotOverruns(sv: Services) returns (run: seq<Engine>, events: seq<Event>)
    ensures IsEngineRun(sv, run, events)
    ensures var m := run[|run| - 1];
            && |m.execs| == 2 && m.execs[0].start == Some(Fresh(3)) && m.execs[1].start == Some(Fresh(10))
            && |m.execs[0].run.finished| > Fresh(3).maxIterations - 2
            && m.execs[0].ctx.Some? && m.execs[0].ctx.value.partials == []
            && m.execs[1].run.dispatched == []
            && m.execs[1].ctx.Some? && m.execs[1].ctx.value.partials == [(A, Some("x")), (B, Some("y"))]
  {
    hide Enabled, IsEngineRun, Consistent, IsReady, Update;
    ChainStates();
    run, events := FirstStarted(sv);
    var m := run[|run| - 1];
    BeginsOther(sv, m);
    run, events := Extend(sv, run, events, Begin(EMPTY_GRAPH, Some(Fresh(10))));
    var m2 := run[|run| - 1];
    hide Next;
    Finished(sv, m2, A, "x");
    run, events := Extend(sv, run, events, FinishNode(0, A, Value("x")));
    var m3 := run[|run| - 1];
    Started(sv, m3);
    run, events := Extend(sv, run, events, StartNode(0, B, 0.0));
    var m4 := run[|run| - 1];
    Finished(sv, m4, B, "y");
    run, events := Extend(sv, run, events, FinishNode(0, B, Value("y")));
  }

  lemma ChainStates()
    ensures var g := Update(CHAIN, A, Running, None);
            && A in g.nodes && g.nodes[A].agent.Some?
            && var h := Update(g, A, Completed, Some("x")); IsReady(h, B) && h.nodes[B].agent.Some?
  {
  }

  lemma BeginsOther(sv: Services, m: Engine)
    requires Consistent(m) && m.slot == Some(0) && |m.execs| == 1
    ensures Enabled(sv, m, Begin(EMPTY_GRAPH, Some(Fresh(10))))
    ensures var m' := Next(sv, m, Begin(EMPTY_GRAPH, Some(Fresh(10))));
            && Consistent(m') && m'.slot == Some(1) && |m'.execs| == 2
            && m'.execs[0].start == m.execs[0].start && m'.execs[0].ctx == m.execs[0].ctx
            && m'.execs[0].run.g == m.execs[0].run.g && m'.execs[0].run.inflight == m.execs[0].run.inflight
            && m'.execs[0].run.finished == m.execs[0].run.finished
            && m'.execs[1] == Execution(EMPTY_GRAPH, Some(Fresh(10)), Some(Fresh(10)),
                                        Initial(EMPTY_GRAPH, Some(Fresh(10))), 0, 0)
  {
    NextConsistent(sv, m, Begin(EMPTY_GRAPH, Some(Fresh(10))));
  }
}
