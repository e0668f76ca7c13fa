/** The engine (`app/reasoning_graph/engine.py`) and the two execution strategies
    (`app/swarm/execution.py`) on the mutable graph, in the middle of other executions: at
    every `await` these may be charged to the context in the engine's slot, put their own in
    its place, and move the counter of a shared strategy object. What they will do to the slot
    is an input, `others`, so that conditions on it can be checked before a call. Each method is tied to a
    step, or to a sequence of steps, of `GraphRuns`; the theorems there then speak about the
    graph the strategy leaves behind. */
module Execution {
  import opened Collections
  import opened Wrappers
  import opened ReasoningGraphs
  import opened GraphRanks
  import opened GraphRuns
  import opened GraphEndState
  import opened SwarmBatches
  import AB = AgentBudget

  class ReasoningGraphEngine {
    const services: Services
    var execCtx: AB.AgentExecutionContext?  // the slot all executions on this engine share

    /** What the other coroutines on this engine are going to do to the slot, in order. How
        much of it happens during which `await` is left open. */
    var others: seq<Other>

    function BudgetView(): Option<AB.Budget>
      reads this, execCtx
    {
      if execCtx == null then None else Some(execCtx.View())
    }

    /** The objects are in the state `s` of the step system. */
    ghost predicate Sync(graph: ReasoningGraph, s: Run)
      reads this, execCtx, graph, graph.nodes.Values
    {
      graph.Valid() && s.g == graph.view && s.budget == BudgetView()
    }

    /** What has been done to the slot since `s` began, and is still going to be. */
    ghost function Outlook(s: Run): Peers
      reads this
    {
      Worse(s.peers, Worst(execCtx != null, others))
    }

    constructor (services: Services, others: seq<Other>)
      ensures this.services == services && execCtx == null && this.others == others
    {
      this.services, execCtx, this.others := services, null, others;
    }

    /** `_execute_node` up to its `await`: `None` where a budget check raised, which leaves
        the node RUNNING. */
    method StartNode(node: ReasoningNode, graph: ReasoningGraph, elapsed: real, ghost s: Run)
        returns (inputs: Option<Inputs>, ghost s': Run)
      requires Sync(graph, s) && node.id in graph.nodes && graph.nodes[node.id] == node
      requires IsReady(s.g, node.id)
      modifies node`status, node`result, graph`view, execCtx
      ensures Sync(graph, s') && s' == Start(services, s, node.id, elapsed)
      ensures inputs.None? ==> s.budget.Some?
      ensures s'.inflight == if inputs.Some? then s.inflight[node.id := inputs.value] else s.inflight
    {
      hide Capture, Update, Allow, IsReady, Start, ReasoningGraph.Valid, CallsTool;
      NodeInGraph(node, graph, s);
      var ok, captured := Prepare(node, graph, elapsed);
      inputs := if ok then Some(captured) else None;
      s' := Started(services, s, node.id, elapsed, graph.view, BudgetView(), ok, captured);
    }

    lemma NodeInGraph(node: ReasoningNode, graph: ReasoningGraph, s: Run)
      requires Sync(graph, s) && node.id in graph.nodes && graph.nodes[node.id] == node && IsReady(s.g, node.id)
      ensures node.id in s.g.nodes && s.g.nodes[node.id] == node.View()
      ensures forall d :: d in node.dependencies ==> d in graph.nodes && d in s.g.nodes
    {
    }

    /** The same on the objects alone. */
    method Prepare(node: ReasoningNode, graph: ReasoningGraph, elapsed: real) returns (ok: bool, captured: Inputs)
      requires graph.Valid() && node.id in graph.nodes && graph.nodes[node.id] == node
      requires node.id in graph.view.nodes && graph.view.nodes[node.id] == node.View()
      requires forall d :: d in node.dependencies ==> d in graph.nodes && d in graph.view.nodes
      modifies node`status, node`result, graph`view, execCtx
      ensures graph.Valid() && graph.view == Update(old(graph.view), node.id, Running, old(node.result))
      ensures captured == Capture(old(graph.view), node.dependencies)
      ensures (BudgetView(), ok) == Allow(old(BudgetView()), CallsTool(services, old(node.View())), elapsed)
      ensures !ok ==> execCtx != null
    {
      captured := CaptureResults(node, graph);
      var callsTool := node.agent.None? && node.kind == ToolCall && (services.parseTool)(node.task).Some?;
      assert callsTool == CallsTool(services, node.View());
      hide Capture, Update, ReasoningGraph.Valid, CallsTool;
      graph.Mark(node, Running, node.result);
      ok := CheckBudget(callsTool, elapsed);
    }

    method CaptureResults(node: ReasoningNode, graph: ReasoningGraph) returns (inputs: Inputs)
      requires graph.Valid() && forall d :: d in node.dependencies ==> d in graph.nodes
      ensures inputs == Capture(graph.view, node.dependencies)
    {
      inputs := map d | d in node.dependencies :: graph.nodes[d].result;
    }

    /** The iteration check of every node and the second check of a node that calls a tool. */
    method CheckBudget(callsTool: bool, elapsed: real) returns (ok: bool)
      modifies execCtx
      ensures (BudgetView(), ok) == Allow(old(BudgetView()), callsTool, elapsed)
    {
      if execCtx == null {
        return true;
      }
      execCtx.RecordIteration();
      ok := execCtx.Check(elapsed);
      if ok && callsTool {
        execCtx.RecordToolCall();
        ok := execCtx.Check(elapsed);
      }
    }

    /** `_execute_node` from the end of its `await`. */
    method FinishNode(node: ReasoningNode, graph: ReasoningGraph, o: Outcome, ghost s: Run) returns (ghost s': Run)
      requires Sync(graph, s) && node.id in graph.nodes && graph.nodes[node.id] == node
      requires node.id in s.inflight
      modifies node`status, node`result, graph`view, execCtx
      ensures Sync(graph, s') && s' == Finish(s, node.id, o)
    {
      s' := Finish(s, node.id, o);
      match o {
        case Value(v) =>
          graph.Mark(node, Completed, Some(v));
          if execCtx != null {
            execCtx.SavePartial(node.id, node.result);
          }
        case Raised(m) =>
          graph.Mark(node, Failed, Some("Error: " + m));
      }
    }

    /** What may happen at an `await`: the next `n` events of other coroutines. `peers` records
        exactly the worst of them. */
    method Interleave(graph: ReasoningGraph, ghost s: Run) returns (ghost s': Run, ghost n: nat)
      requires Sync(graph, s)
      modifies this`execCtx, this`others, execCtx
      ensures Sync(graph, s') && n <= |old(others)| && others == old(others)[n..]
      ensures BudgetView() == AfterOthers(old(BudgetView()), old(others)[..n])
      ensures s' == Disturb(s, BudgetView(), Worst(old(execCtx) != null, old(others)[..n]))
      ensures s'.peers == Worse(s.peers, Worst(old(execCtx) != null, old(others)[..n]))
      ensures execCtx == old(execCtx) || (s'.peers == Replacing && (execCtx == null || fresh(execCtx)))
      ensures AtMost(Outlook(s'), old(Outlook(s)))
    {
      hide ReasoningGraph.Valid, Disturb, AB.AgentExecutionContext.View, AfterOther, Severity, Effect;
      var count: nat :| count <= |others|;
      n := count;
      ghost var all, peers := others[..n], Quiet;
      s' := s;
      NotDisturbed(s);
      assert others[0..] == others;
      for i := 0 to count
        invariant Sync(graph, s') && others == old(others)[i..]
        invariant AfterOthers(BudgetView(), all[i..]) == AfterOthers(old(BudgetView()), all)
        invariant s' == Disturb(s, BudgetView(), peers) && s'.peers == Worse(s.peers, peers)
        invariant AtMost(Effect(s.budget, BudgetView()), peers)
        invariant Worse(peers, Worst(execCtx != null, all[i..])) == Worst(old(execCtx) != null, all)
        invariant peers == Replacing || (execCtx != null <==> old(execCtx) != null)
        invariant execCtx == old(execCtx) || (peers == Replacing && (execCtx == null || fresh(execCtx)))
        invariant AtMost(Outlook(s'), old(Outlook(s)))
      {
        ghost var b, e := BudgetView(), others[0];
        SeverityExact(b, e);
        assert all[i] == e && all[i..][1..] == all[i + 1..];
        ghost var severity := Severity(b.Some?, e);
        OtherStep();
        DisturbTwice(s, b, peers, BudgetView(), severity);
        Disturbed(s', BudgetView(), severity);
        s' := Disturb(s', BudgetView(), severity);
        peers := Worse(peers, severity);
      }
      assert all[count..] == [];
    }

    /** One event of another coroutine. */
    method OtherStep()
      requires others != []
      modifies this`execCtx, this`others, execCtx
      ensures others == old(others)[1..] && BudgetView() == AfterOther(old(BudgetView()), old(others)[0])
      ensures execCtx == old(execCtx)
           || (Severity(old(execCtx) != null, old(others)[0]) == Replacing && (execCtx == null || fresh(execCtx)))
    {
      var e := others[0];
      others := others[1..];
      match e {
        case CancelSlot =>
          if execCtx != null {
            execCtx.Cancel();
          }
        case ChargeNode(callsTool, elapsed) =>
          var ok := CheckBudget(callsTool, elapsed);
        case SaveResult(id, result) =>
          if execCtx != null {
            execCtx.SavePartial(id, result);
          }
        case TakeSlot(budget) =>
          execCtx := null;
          if budget.Some? {
            execCtx := Bring(budget.value);
          }
      }
    }
  }

  /** The context another execution comes with. */
  method Bring(b: AB.Budget) returns (ctx: AB.AgentExecutionContext)
    ensures fresh(ctx) && ctx.View() == b
  {
    var start: real := *;
    ctx := new AB.AgentExecutionContext(b.maxIterations, b.maxToolCalls, b.maxRuntime, start);
    ctx.iterationCount, ctx.toolCallCount, ctx.cancelled := b.iterations, b.toolCalls, b.cancelled;
    ctx.terminationReason, ctx.partialResults := b.reason, b.partials;
  }

  lemma NotDisturbed(s: Run)
    ensures Disturb(s, s.budget, Quiet) == s && Effect(s.budget, s.budget) == Quiet
  {
  }

  lemma Disturbed(s: Run, budget: Option<AB.Budget>, peers: Peers)
    requires AtMost(Effect(s.budget, budget), peers)
    ensures var s' := Disturb(s, budget, peers);
            s'.g == s.g && s'.budget == budget && s'.peers == Worse(s.peers, peers)
  {
  }

  lemma OutlookInitially(engine: ReasoningGraphEngine, graph: ReasoningGraph, g0: GraphView, b0: Option<AB.Budget>)
    requires engine.Sync(graph, Initial(g0, b0))
    ensures (engine.execCtx != null <==> b0.Some?)
    ensures AtMost(engine.Outlook(Initial(g0, b0)), Worst(engine.execCtx != null, engine.others))
  {
  }

  lemma NoWorse(p: Peers, q: Peers, r: Peers)
    requires AtMost(p, q) && AtMost(q, r)
    ensures AtMost(p, r)
  {
  }

  lemma OutlookMeans(engine: ReasoningGraphEngine, s: Run, outlook: Peers)
    requires AtMost(engine.Outlook(s), outlook)
    ensures AtMost(s.peers, outlook)
  {
  }

  lemma Started(sv: Services, s: Run, id: Id, elapsed: real, g: GraphView, budget: Option<AB.Budget>, ok: bool,
          inputs: Inputs)
      returns (s': Run)
    requires IsReady(s.g, id) && g == Update(s.g, id, Running, s.g.nodes[id].result)
    requires (budget, ok) == Allow(s.budget, CallsTool(sv, s.g.nodes[id]), elapsed)
    requires inputs == Capture(s.g, s.g.nodes[id].deps)
    ensures s' == Start(sv, s, id, elapsed) && s'.g == g && s'.budget == budget
    ensures s'.inflight == if ok then s.inflight[id := inputs] else s.inflight
  {
    s' := Start(sv, s, id, elapsed);
  }

  /** The value an awaited service call delivers; an agent may deliver anything. */
  method Await(sv: Services, node: ReasoningNode, inputs: Inputs) returns (o: Outcome)
    ensures Possible(sv, node.View(), inputs, o)
  {
    if node.agent.None? {
      o := Invoke(sv, node.View(), inputs);
    } else {
      o := *;
    }
  }

  // ---- What every step of an execution keeps ----------------------------------------------

  lemma GoodStart(sv: Services, g0: GraphView, b0: Option<AB.Budget>, s: Run, id: Id, elapsed: real)
    requires Good(sv, g0, b0, s) && IsReady(s.g, id)
    ensures Good(sv, g0, b0, Start(sv, s, id, elapsed))
    ensures Start(sv, s, id, elapsed).dispatched == s.dispatched + [id]
    ensures Start(sv, s, id, elapsed).finished == s.finished && Start(sv, s, id, elapsed).peers == s.peers
    ensures forall k :: k in Start(sv, s, id, elapsed).inflight && k != id ==> k in s.inflight
    ensures forall k :: k in s.inflight ==> k in Start(sv, s, id, elapsed).inflight
    ensures forall k :: k != id && IsReady(s.g, k) ==> IsReady(Start(sv, s, id, elapsed).g, k)
  {
    hide Good;
    var s' := Start(sv, s, id, elapsed);
    assert StartStep(sv, s, s', id, elapsed);
    GoodStep(sv, g0, b0, s, s');
    forall k | k != id && IsReady(s.g, k) ensures IsReady(s'.g, k) {
      UpdateKeepsCompleted(s.g, id, Running, s.g.nodes[id].result, k);
    }
  }

  lemma GoodFinish(sv: Services, g0: GraphView, b0: Option<AB.Budget>, s: Run, id: Id, o: Outcome)
    requires Good(sv, g0, b0, s) && CanFinish(sv, s, id, o)
    ensures Good(sv, g0, b0, Finish(s, id, o))
    ensures Finish(s, id, o).dispatched == s.dispatched
    ensures Finish(s, id, o).finished == s.finished + [id]
    ensures forall k :: IsReady(s.g, k) ==> IsReady(Finish(s, id, o).g, k)
  {
    var s' := Finish(s, id, o);
    assert FinishStep(sv, s, s', id, o);
    GoodStep(sv, g0, b0, s, s');
    forall k | IsReady(s.g, k) ensures IsReady(s'.g, k) {
      UpdateKeepsCompleted(s.g, id, StatusOf(o), ResultOf(o), k);
    }
  }

  lemma GoodDisturb(sv: Services, g0: GraphView, b0: Option<AB.Budget>, s: Run, budget: Option<AB.Budget>, peers: Peers)
    requires Good(sv, g0, b0, s)
    ensures var s' := Disturb(s, budget, peers);
            && Good(sv, g0, b0, s') && s'.(budget := s.budget, peers := s.peers) == s
            && (s.peers == Replacing ==> s'.peers == Replacing)
  {
    var s' := Disturb(s, budget, peers);
    assert s' == Disturb(s, s'.budget, s'.peers);
    assert Step(sv, s, s');
    GoodStep(sv, g0, b0, s, s');
  }

  function Ids(batch: seq<ReasoningNode>): (ids: seq<Id>)
    ensures |ids| == |batch| && forall i :: 0 <= i < |ids| ==> ids[i] == batch[i].id
  {
    seq(|batch|, i requires 0 <= i < |batch| => batch[i].id)
  }

  /** What `get_ready_nodes` hands to a strategy. */
  ghost predicate Dispatchable(graph: ReasoningGraph, g: GraphView, batch: seq<ReasoningNode>)
    reads graph
  {
    && Distinct(Ids(batch))
    && forall i :: 0 <= i < |batch| ==>
         batch[i].id in graph.nodes && graph.nodes[batch[i].id] == batch[i] && IsReady(g, batch[i].id)
  }

  /** How far the `gather` of the batch `ids`, begun in state `s`, has come in state `t`. */
  ghost predicate Progress(ids: seq<Id>, next: nat, raised: set<Id>, s: Run, t: Run) {
    && next <= |ids| && Distinct(ids)
    && t.dispatched == s.dispatched + ids[..next]
    && (forall i :: next <= i < |ids| ==> IsReady(t.g, ids[i]))
    && (forall k :: k in t.finished || k in t.inflight || k in raised <==> k in s.finished || k in ids[..next])
    && (forall k :: k in raised ==> k !in t.finished && k !in t.inflight)
    && (forall k :: k in s.finished ==> k in t.finished)
  }

  lemma ProgressInitially(graph: ReasoningGraph, batch: seq<ReasoningNode>, s: Run)
    requires Dispatchable(graph, s.g, batch) && s.inflight == map[]
    ensures Progress(Ids(batch), 0, {}, s, s)
  {
  }

  lemma ProgressStart(sv: Services, g0: GraphView, b0: Option<AB.Budget>, ids: seq<Id>, next: nat, raised: set<Id>,
                      s: Run, t: Run, elapsed: real)
    requires Good(sv, g0, b0, t) && Progress(ids, next, raised, s, t) && next < |ids|
    ensures var t' := Start(sv, t, ids[next], elapsed);
            && Good(sv, g0, b0, t')
            && Progress(ids, next + 1, if ids[next] in t'.inflight then raised else raised + {ids[next]}, s, t')
            && t'.peers == t.peers
  {
    hide Good, Start;
    var id := ids[next];
    NotStarted(sv, g0, b0, t, id);
    GoodStart(sv, g0, b0, t, id, elapsed);
    var t' := Start(sv, t, id, elapsed);
    assert ids[..next + 1] == ids[..next] + [id];
    assert id !in ids[..next];
  }

  lemma NextIsReady(ids: seq<Id>, next: nat, raised: set<Id>, s: Run, t: Run)
    requires Progress(ids, next, raised, s, t) && next < |ids|
    ensures IsReady(t.g, ids[next])
  {
  }

  lemma NotStarted(sv: Services, g0: GraphView, b0: Option<AB.Budget>, t: Run, id: Id)
    requires Good(sv, g0, b0, t) && IsReady(t.g, id)
    ensures id !in t.inflight && id !in t.finished
  {
  }

  lemma ProgressFinish(sv: Services, g0: GraphView, b0: Option<AB.Budget>, ids: seq<Id>, next: nat, raised: set<Id>,
                       s: Run, t: Run, id: Id, o: Outcome)
    requires Good(sv, g0, b0, t) && Progress(ids, next, raised, s, t) && CanFinish(sv, t, id, o)
    ensures Good(sv, g0, b0, Finish(t, id, o)) && Progress(ids, next, raised, s, Finish(t, id, o))
    ensures Finish(t, id, o).peers == t.peers && Finish(t, id, o).inflight == t.inflight - {id}
  {
    GoodFinish(sv, g0, b0, t, id, o);
  }

  lemma ProgressDisturb(sv: Services, g0: GraphView, b0: Option<AB.Budget>, ids: seq<Id>, next: nat, raised: set<Id>,
                        s: Run, t: Run, budget: Option<AB.Budget>, peers: Peers)
    requires Good(sv, g0, b0, t) && Progress(ids, next, raised, s, t)
    ensures var t' := Disturb(t, budget, peers);
            && Good(sv, g0, b0, t') && Progress(ids, next, raised, s, t') && t'.inflight == t.inflight
            && (t.peers == Replacing ==> t'.peers == Replacing)
  {
    GoodDisturb(sv, g0, b0, t, budget, peers);
  }

  /** The slot still holds what it held, or another context took it. */
  ghost predicate SlotKept(engine: ReasoningGraphEngine, slot: AB.AgentExecutionContext?, s: Run)
    reads engine
  {
    engine.execCtx == slot || s.peers == Replacing
  }

  /** Why a coroutine of the batch may have raised. */
  ghost predicate Excused(raised: set<Id>, b0: Option<AB.Budget>, s: Run) {
    raised == {} || b0.Some? || s.peers == Replacing
  }

  /** `asyncio.gather`: the coroutines of a batch begin in order; after that, and in between,
      their awaited calls come back in any order and other executions go on. `raised` holds
      the nodes whose coroutine raised. */
  method Gather(engine: ReasoningGraphEngine, graph: ReasoningGraph, batch: seq<ReasoningNode>,
                ghost g0: GraphView, ghost b0: Option<AB.Budget>, ghost s: Run)
      returns (raised: set<Id>, ghost s': Run)
    requires engine.Sync(graph, s) && Good(engine.services, g0, b0, s) && s.inflight == map[]
    requires Dispatchable(graph, s.g, batch)
    modifies graph`view, graph.nodes.Values, engine`execCtx, engine`others, engine.execCtx
    ensures engine.Sync(graph, s') && Good(engine.services, g0, b0, s') && s'.inflight == map[]
    ensures Progress(Ids(batch), |batch|, raised, s, s')
    ensures Excused(raised, b0, s') && SlotKept(engine, old(engine.execCtx), s')
    ensures (s.peers == Replacing ==> s'.peers == Replacing) && AtMost(engine.Outlook(s'), old(engine.Outlook(s)))
    ensures engine.execCtx == old(engine.execCtx) || engine.execCtx == null || fresh(engine.execCtx)
  {
    hide ReasoningGraphEngine.Outlook, Good, Progress, IsReady, ReasoningGraphEngine.Sync, Disturb, Finish, CanFinish;
    var next := 0;
    var calls: map<Id, Inputs> := map[];
    raised, s' := {}, s;
    ProgressInitially(graph, batch, s);
    while next < |batch| || calls != map[]
      invariant next <= |batch|
      invariant engine.Sync(graph, s') && Good(engine.services, g0, b0, s') && s'.inflight == calls
      invariant Progress(Ids(batch), next, raised, s, s')
      invariant Excused(raised, b0, s') && SlotKept(engine, old(engine.execCtx), s')
      invariant (s.peers == Replacing ==> s'.peers == Replacing) && AtMost(engine.Outlook(s'), old(engine.Outlook(s)))
      invariant engine.execCtx == old(engine.execCtx) || engine.execCtx == null || fresh(engine.execCtx)
      decreases |batch| - next, calls.Keys
    {
      s' := Between(engine, graph, g0, b0, s', Ids(batch), next, raised, s);
      if
      case next < |batch| =>
        var ok;
        ok, calls, s' := StartNext(engine, graph, batch[next], calls, g0, b0, s', Ids(batch), next, raised, s);
        if !ok {
          raised := raised + {batch[next].id};
        }
        next := next + 1;
      case calls != map[] =>
        var id :| id in calls;
        InflightNode(engine, graph, g0, b0, s', id);
        ghost var t, o := s', Value("");
        o, s' := FinishOne(engine, graph, id, calls[id], s');
        ProgressFinish(engine.services, g0, b0, Ids(batch), next, raised, s, t, id, o);
        calls := calls - {id};
    }
  }

  /** Control is elsewhere for a while. */
  method Between(engine: ReasoningGraphEngine, graph: ReasoningGraph,
                 ghost g0: GraphView, ghost b0: Option<AB.Budget>, ghost t: Run,
                 ghost ids: seq<Id>, ghost next: nat, ghost raised: set<Id>, ghost s: Run)
      returns (ghost t': Run)
    requires engine.Sync(graph, t) && Good(engine.services, g0, b0, t)
    requires Progress(ids, next, raised, s, t)
    modifies engine`execCtx, engine`others, engine.execCtx
    ensures engine.Sync(graph, t') && Good(engine.services, g0, b0, t') && t'.inflight == t.inflight
    ensures Progress(ids, next, raised, s, t')
    ensures (t.peers == Replacing ==> t'.peers == Replacing) && AtMost(engine.Outlook(t'), old(engine.Outlook(t)))
    ensures engine.execCtx == old(engine.execCtx)
         || (t'.peers == Replacing && (engine.execCtx == null || fresh(engine.execCtx)))
  {
    hide Good, Progress, ReasoningGraphEngine.Sync, Disturb;
    ghost var n;
    t', n := engine.Interleave(graph, t);
    ProgressDisturb(engine.services, g0, b0, ids, next, raised, s, t, engine.BudgetView(),
                    Worst(old(engine.execCtx) != null, old(engine.others)[..n]));
  }

  lemma RaisedWhy(sv: Services, g0: GraphView, b0: Option<AB.Budget>, t: Run)
    requires Good(sv, g0, b0, t) && t.budget.Some?
    ensures b0.Some? || t.peers == Replacing
  {
  }

  /** The next coroutine of the batch runs up to its `await`. */
  method StartNext(engine: ReasoningGraphEngine, graph: ReasoningGraph, node: ReasoningNode, calls: map<Id, Inputs>,
                   ghost g0: GraphView, ghost b0: Option<AB.Budget>, ghost t: Run,
                   ghost ids: seq<Id>, ghost next: nat, ghost raised: set<Id>, ghost s: Run)
      returns (ok: bool, calls': map<Id, Inputs>, ghost t': Run)
    requires engine.Sync(graph, t) && Good(engine.services, g0, b0, t) && t.inflight == calls
    requires Progress(ids, next, raised, s, t) && next < |ids|
    requires node.id == ids[next] && node.id in graph.nodes && graph.nodes[node.id] == node
    modifies graph`view, node, engine.execCtx
    ensures engine.Sync(graph, t') && Good(engine.services, g0, b0, t') && t'.inflight == calls'
    ensures Progress(ids, next + 1, if ok then raised else raised + {ids[next]}, s, t')
    ensures if ok then node.id in calls' && calls'.Keys == calls.Keys + {node.id} else calls' == calls
    ensures t'.peers == t.peers && engine.Outlook(t') == old(engine.Outlook(t))
    ensures !ok ==> b0.Some? || t.peers == Replacing
  {
    hide Good, Progress, Start, ReasoningGraphEngine.Sync;
    var elapsed: real := *;
    NextIsReady(ids, next, raised, s, t);
    NotStarted(engine.services, g0, b0, t, node.id);
    ProgressStart(engine.services, g0, b0, ids, next, raised, s, t, elapsed);
    var inputs;
    inputs, t' := engine.StartNode(node, graph, elapsed, t);
    ok := inputs.Some?;
    if !ok {
      RaisedWhy(engine.services, g0, b0, t);
    }
    calls' := if ok then calls[node.id := inputs.value] else calls;
  }

  /** Some coroutine's awaited call comes back. */
  method FinishOne(engine: ReasoningGraphEngine, graph: ReasoningGraph, id: Id, inputs: Inputs, ghost t: Run)
      returns (ghost o: Outcome, ghost t': Run)
    requires engine.Sync(graph, t) && id in graph.nodes && graph.nodes[id].id == id
    requires id in t.inflight && t.inflight[id] == inputs
    modifies graph`view, graph.nodes.Values, engine.execCtx
    ensures CanFinish(engine.services, t, id, o) && t' == Finish(t, id, o) && engine.Sync(graph, t')
    ensures engine.Outlook(t') == old(engine.Outlook(t))
  {
    assert forall o1 :: Finish(t, id, o1).peers == t.peers;
    hide Finish;
    assert id in t.g.nodes && t.g.nodes[id] == graph.nodes[id].View();
    var node := graph.nodes[id];
    var outcome := Await(engine.services, node, inputs);
    t' := engine.FinishNode(node, graph, outcome, t);
    o := outcome;
  }

  lemma InflightNode(engine: ReasoningGraphEngine, graph: ReasoningGraph, g0: GraphView, b0: Option<AB.Budget>,
          t: Run, id: Id)
    requires engine.Sync(graph, t) && Good(engine.services, g0, b0, t) && id in t.inflight
    ensures id in graph.nodes && graph.nodes[id].id == id
    ensures id in t.g.nodes && t.g.nodes[id] == graph.nodes[id].View()
  {
    assert id in graph.view.nodes;
  }

  // ---- The strategies -------------------------------------------------------------------------

  /** The list names every node that ended, once. */
  ghost predicate Lists(versions: seq<Id>, s: Run) {
    Distinct(versions) && forall k :: k in versions <==> k in s.finished
  }

  /** What holds when a strategy stops without an exception: nothing is in flight, nothing is
      ready, and the returned list is complete. */
  ghost predicate Done(s: Run, versions: seq<Id>) {
    Quiescent(s) && Lists(versions, s)
  }

  /** What a round or a pass adds to the list. */
  ghost predicate Adds(results: seq<Id>, s: Run, t: Run) {
    && Distinct(results) && (forall k :: k in results ==> k !in s.finished)
    && (forall k :: k in t.finished <==> k in s.finished || k in results)
  }

  lemma ListsMore(versions: seq<Id>, results: seq<Id>, s: Run, t: Run)
    requires Lists(versions, s) && Adds(results, s, t)
    ensures Lists(versions + results, t)
  {
    var all := versions + results;
    forall i, j | 0 <= i < j < |all| ensures all[i] != all[j] {
      if i < |versions| <= j {
        assert all[i] in versions && all[j] in results;
      }
    }
  }

  lemma ReadyNotFinished(sv: Services, graph: ReasoningGraph, g0: GraphView, b0: Option<AB.Budget>, s: Run,
          batch: seq<ReasoningNode>)
    requires Good(sv, g0, b0, s) && Dispatchable(graph, s.g, batch)
    ensures forall k :: k in Ids(batch) ==> k !in s.finished
  {
    hide Good, IsReady;
    forall k | k in Ids(batch) ensures k !in s.finished {
      var i :| 0 <= i < |batch| && batch[i].id == k;
      NotStarted(sv, g0, b0, s, k);
    }
  }

  lemma CompleteIsQuiescent(engine: ReasoningGraphEngine, graph: ReasoningGraph, s: Run)
    requires engine.Sync(graph, s) && s.inflight == map[] && graph.IsComplete()
    ensures Quiescent(s)
  {
    forall k ensures !IsReady(s.g, k) {
      if k in s.g.nodes {
        assert graph.nodes[k].status == Completed;
      }
    }
  }

  /** The scan succeeded: its nodes are exactly the ready ones. */
  lemma ScanIsReady(graph: ReasoningGraph, s: Run, ready: seq<ReasoningNode>)
    requires graph.Valid() && s.g == graph.view && s.inflight == map[]
    requires ReadyUpTo(graph.view, |graph.order|).Some? && |ready| == |ReadyUpTo(graph.view, |graph.order|).value|
    requires forall i :: 0 <= i < |ready| ==>
               ready[i] in graph.nodes.Values && ready[i].id == ReadyUpTo(graph.view, |graph.order|).value[i]
    ensures Dispatchable(graph, s.g, ready)
    ensures ready == [] ==> Quiescent(s)
  {
    ReadyExact(s.g, |graph.order|);
    var r := ReadyUpTo(s.g, |graph.order|).value;
    assert Ids(ready) == r;
    assert s.g.order[..|graph.order|] == s.g.order;
    forall i | 0 <= i < |ready|
      ensures ready[i].id in graph.nodes && graph.nodes[ready[i].id] == ready[i] && IsReady(s.g, ready[i].id)
    {
      assert r[i] in r;
      var k :| k in graph.nodes && graph.nodes[k] == ready[i];
    }
    forall k ensures IsReady(s.g, k) ==> k in r {
      if IsReady(s.g, k) {
        assert k in s.g.order;
      }
    }
  }

  /** The scan at the head of both loops. */
  method NextReady(engine: ReasoningGraphEngine, graph: ReasoningGraph, ghost g0: GraphView,
          ghost b0: Option<AB.Budget>, ghost s: Run)
      returns (ready: Option<seq<ReasoningNode>>)
    requires engine.Sync(graph, s) && Good(engine.services, g0, b0, s) && s.inflight == map[]
    ensures ready.None? ==> !Closed(g0)
    ensures ready.Some? ==> Dispatchable(graph, s.g, ready.value) && (ready.value == [] ==> Quiescent(s))
  {
    ready := graph.GetReadyNodes();
    if ready == None {
      ScanFailsOnlyIfOpen(engine.services, g0, b0, s);
    } else {
      ScanIsReady(graph, s, ready.value);
    }
  }

  /** Without agent-routed nodes every node is settled. If the graph was closed and acyclic, it
      is the reference evaluation, and the list names the nodes that ran in it. */
  ghost predicate IsReference(sv: Services, g0: GraphView, g: GraphView, versions: seq<Id>) {
    && (NoAgents(g0) ==> g.nodes.Keys == g0.nodes.Keys && forall k :: k in g.nodes ==> Settled(sv, g, k))
    && (NoAgents(g0) && Closed(g0) && Acyclic(g0) ==>
          && (forall k :: k in g0.nodes ==> k in g.nodes && Matches(g.nodes[k], Evaluate(sv, g0, k)))
          && (forall k :: k in versions <==> k in g0.nodes && Evaluate(sv, g0, k).Ran?))
  }

  /** Whenever no budget check raised, the graph a strategy leaves behind is the reference
      evaluation, whatever the limits, the counter's start value and the other executions
      were. */
  lemma StrategyReachesReference(sv: Services, g0: GraphView, b0: Option<AB.Budget>, s: Run, versions: seq<Id>)
    requires Good(sv, g0, b0, s) && Done(s, versions) && NoneStuck(s)
    ensures IsReference(sv, g0, s.g, versions)
  {
    hide Acyclic, Closed, Evaluate, Rank, NoAgents, Settled;
    if NoAgents(g0) {
      forall k | k in s.g.nodes ensures Settled(sv, s.g, k) {
        EndIsSettled(sv, g0, s, k);
      }
    }
    if NoAgents(g0) && Closed(g0) && Acyclic(g0) {
      forall k | k in g0.nodes ensures k in s.g.nodes && Matches(s.g.nodes[k], Evaluate(sv, g0, k)) {
        ReferenceReached(sv, g0, s, k);
      }
      assert SameShape(g0, s.g);
      forall k ensures k in versions <==> k in g0.nodes && Evaluate(sv, g0, k).Ran? {
        assert k in versions <==> k in s.g.nodes && Ended(s.g.nodes[k]);
      }
    }
  }

  /** An execution that brings no budget has no check that can raise, unless another one
      brings its own to the engine. */
  lemma UnbudgetedNeverStuck(sv: Services, g0: GraphView, s: Run)
    requires Good(sv, g0, None, s) && s.peers != Replacing
    ensures NoneStuck(s)
  {
  }

  lemma NothingRuns(g0: GraphView, b0: Option<AB.Budget>)
    requires AllPending(g0)
    ensures NoneStuck(Initial(g0, b0))
  {
  }

  lemma Concluded(sv: Services, g0: GraphView, b0: Option<AB.Budget>, s: Run, versions: seq<Id>, outlook: Peers)
    requires Good(sv, g0, b0, s) && AtMost(s.peers, outlook)
    ensures AllDelivered(sv, s.g)
    ensures b0.None? && outlook != Replacing ==> NoneStuck(s)
    ensures Done(s, versions) && NoneStuck(s) ==> IsReference(sv, g0, s.g, versions)
  {
    GoodDelivers(sv, g0, b0, s);
    hide Good, NoneStuck, Done, IsReference;
    if b0.None? && outlook != Replacing {
      UnbudgetedNeverStuck(sv, g0, s);
    }
    if Done(s, versions) && NoneStuck(s) {
      StrategyReachesReference(sv, g0, b0, s, versions);
    }
  }

  /** A coroutine that raised leaves its node RUNNING for good. */
  lemma RaisedIsStuck(sv: Services, g0: GraphView, b0: Option<AB.Budget>, ids: seq<Id>, next: nat, raised: set<Id>,
          s: Run, t: Run, id: Id)
    requires Good(sv, g0, b0, t) && Progress(ids, next, raised, s, t) && next > 0
    requires ids[next - 1] == id && id in raised
    ensures !NoneStuck(t)
  {
    assert ids[..next][next - 1] == id;
    assert id in t.dispatched;
  }

  lemma GoodDelivers(sv: Services, g0: GraphView, b0: Option<AB.Budget>, s: Run)
    requires Good(sv, g0, b0, s)
    ensures AllDelivered(sv, s.g)
  {
    hide Delivered;
    forall k | k in s.g.nodes && Ended(s.g.nodes[k]) && s.g.nodes[k].agent.None?
      ensures DepsCompleted(s.g, k) && Delivered(sv, s.g, k)
    {
      EndedIsDelivered(sv, g0, s, k);
    }
  }

  /** If no coroutine of the batch raised, none of its nodes is left RUNNING. */
  lemma NoneRaised(sv: Services, g0: GraphView, b0: Option<AB.Budget>, ids: seq<Id>, s: Run, t: Run)
    requires Good(sv, g0, b0, s) && Good(sv, g0, b0, t) && Progress(ids, |ids|, {}, s, t)
    requires s.inflight == map[] && t.inflight == map[]
    ensures NoneStuck(s) ==> NoneStuck(t)
  {
    if NoneStuck(s) {
      assert ids[..|ids|] == ids;
      assert forall k :: k in s.dispatched ==> k in s.finished;
      assert forall k :: k in t.dispatched ==> k in t.finished;
    }
  }

  class SwarmExecution {
    const maxAgents: int
    const maxParallel: int
    var activeAgents: int
    var rounds: Shared  // the batches that the executions under way hold in local variables

    /** The counter is accounted for, and bounded, as in every run of `SwarmBatches`. */
    ghost predicate Valid()
      reads this
    {
      activeAgents == rounds.active && CounterInv(0, rounds, maxAgents)
    }

    constructor (maxAgents: int := 5, maxParallel: int := 10)
      ensures this.maxAgents == maxAgents && this.maxParallel == maxParallel
      ensures Valid() && activeAgents == 0
    {
      this.maxAgents, this.maxParallel := maxAgents, maxParallel;
      activeAgents, rounds := 0, Shared(0, [], 0);
    }

    /** Rounds of other executions start, end and are cancelled meanwhile. */
    method OtherRounds(me: nat)
      requires Valid() && me < |rounds.inflight|
      modifies this
      ensures Valid() && me < |rounds.inflight| && rounds.inflight[me] == old(rounds.inflight[me])
    {
      var n: nat :| true;
      for i := 0 to n
        invariant Valid() && me < |rounds.inflight| && rounds.inflight[me] == old(rounds.inflight[me])
      {
        if * {
          JoinKeepsCounter(0, rounds, maxAgents);
          rounds := Join(rounds);
        } else {
          OtherRound(me);
        }
      }
    }

    method OtherRound(me: nat)
      requires Valid() && me < |rounds.inflight|
      modifies this
      ensures Valid() && me < |rounds.inflight| && rounds.inflight[me] == old(rounds.inflight[me])
    {
      var e: Event :| true;
      if e.i != me && Enabled(rounds, e) {
        NextKeepsCounter(0, rounds, e, maxParallel, maxAgents);
        rounds := SwarmBatches.Next(rounds, e, maxParallel, maxAgents);
        activeAgents := rounds.active;
      }
    }

    /** The exception case is the `KeyError` of a dependency that names no node. Its own
        batches are given back in the end. */
    method Execute(engine: ReasoningGraphEngine, graph: ReasoningGraph, ghost g0: GraphView,
                   ghost b0: Option<AB.Budget>)
        returns (raised: bool, versions: seq<Id>, ghost s: Run)
      requires Valid() && engine.Sync(graph, Initial(g0, b0)) && AllPending(g0)
      modifies this, graph`view, graph.nodes.Values, engine`execCtx, engine`others, engine.execCtx
      ensures Valid()
      ensures |rounds.inflight| > old(|rounds.inflight|) && rounds.inflight[old(|rounds.inflight|)] == 0
      ensures engine.Sync(graph, s) && Good(engine.services, g0, b0, s)
      ensures !raised ==> Done(s, versions)
      ensures raised ==> !Closed(g0)
      ensures SlotKept(engine, old(engine.execCtx), s)
      ensures AtMost(s.peers, Worst(b0.Some?, old(engine.others)))
      ensures b0.None? && Worst(false, old(engine.others)) != Replacing ==> NoneStuck(s)
      ensures AllDelivered(engine.services, s.g)
      ensures !raised && NoneStuck(s) ==> IsReference(engine.services, g0, s.g, versions)
    {
      hide NoneStuck, IsReference, AllDelivered, AtMost, ReasoningGraphEngine.Outlook, ReasoningGraphEngine.Sync, Worst;
      hide Good, Dispatchable, Quiescent, Closed, AllPending, SwarmExecution.Valid;
      ghost var outlook := Worst(engine.execCtx != null, engine.others);
      OutlookInitially(engine, graph, g0, b0);
      raised, s, versions := false, Initial(g0, b0), [];
      GoodInitially(engine.services, g0, b0);
      var me := Enter();
      while !graph.IsComplete()
        invariant engine.Sync(graph, s) && Good(engine.services, g0, b0, s) && s.inflight == map[]
        invariant Lists(versions, s)
        invariant Valid() && me < |rounds.inflight| && rounds.inflight[me] == 0
        invariant !raised && SlotKept(engine, old(engine.execCtx), s)
        invariant AtMost(engine.Outlook(s), outlook)
        invariant engine.execCtx == old(engine.execCtx) || engine.execCtx == null || fresh(engine.execCtx)
        decreases |g0.nodes.Keys| - |s.dispatched|
      {
        var ready := NextReady(engine, graph, g0, b0, s);
        if ready == None {
          raised := true;
          break;
        }
        if ready.value == [] {
          break;
        }
        var results;
        ghost var before, foreseen := s, engine.Outlook(s);
        results, s := Round(me, engine, graph, ready.value, g0, b0, s);
        NoWorse(engine.Outlook(s), foreseen, outlook);
        DispatchMeasure(engine.services, g0, b0, s);
        ListsMore(versions, results, before, s);
        versions := versions + results;
      }
      if !raised && graph.IsComplete() {
        CompleteIsQuiescent(engine, graph, s);
      }
      OutlookMeans(engine, s, outlook);
      Concluded(engine.services, g0, b0, s, versions, outlook);
    }

    method Enter() returns (me: nat)
      requires Valid()
      modifies this`rounds
      ensures Valid() && me == old(|rounds.inflight|) && |rounds.inflight| == me + 1 && rounds.inflight[me] == 0
    {
      me := |rounds.inflight|;
      JoinKeepsCounter(0, rounds, maxAgents);
      rounds := Join(rounds);
    }

    /** One round of the loop: a batch is sized, awaited and collected. */
    method Round(me: nat, engine: ReasoningGraphEngine, graph: ReasoningGraph, ready: seq<ReasoningNode>,
                 ghost g0: GraphView, ghost b0: Option<AB.Budget>, ghost s: Run)
        returns (results: seq<Id>, ghost t: Run)
      requires Valid() && me < |rounds.inflight| && rounds.inflight[me] == 0
      requires engine.Sync(graph, s) && Good(engine.services, g0, b0, s) && s.inflight == map[]
      requires Dispatchable(graph, s.g, ready) && ready != []
      modifies this, graph`view, graph.nodes.Values, engine`execCtx, engine`others, engine.execCtx
      ensures Valid() && me < |rounds.inflight| && rounds.inflight[me] == 0
      ensures engine.Sync(graph, t) && Good(engine.services, g0, b0, t) && t.inflight == map[]
      ensures |t.dispatched| > |s.dispatched|
      ensures Adds(results, s, t)
      ensures SlotKept(engine, old(engine.execCtx), t) && (s.peers == Replacing ==> t.peers == Replacing)
      ensures AtMost(engine.Outlook(t), old(engine.Outlook(s)))
      ensures engine.execCtx == old(engine.execCtx) || engine.execCtx == null || fresh(engine.execCtx)
    {
      hide Good, Dispatchable, Quiescent, Progress, ReasoningGraphEngine.Sync, SwarmExecution.Valid;
      var size := Dispatch(me, |ready|);
      var batch := ready[..size];
      PrefixDispatchable(graph, s.g, ready, size);
      ReadyNotFinished(engine.services, graph, g0, b0, s, batch);
      OtherRounds(me);
      var failed;
      failed, t := Gather(engine, graph, batch, g0, b0, s);
      ProgressEnd(Ids(batch), failed, s, t);
      results := Returned(batch, failed);
      Collect(me, |batch|);
    }

    /** The batch is sized and counted. */
    method Dispatch(me: nat, ready: nat) returns (size: nat)
      requires Valid() && me < |rounds.inflight| && rounds.inflight[me] == 0 && ready > 0
      modifies this
      ensures Valid() && 1 <= size <= ready && me < |rounds.inflight| && rounds.inflight[me] == size
    {
      size := BatchSize(ready, maxParallel, maxAgents, activeAgents);
      var e := Event.Dispatch(me, ready);
      NextKeepsCounter(0, rounds, e, maxParallel, maxAgents);
      rounds := SwarmBatches.Next(rounds, e, maxParallel, maxAgents);
      activeAgents := activeAgents + size;
    }

    method Collect(me: nat, size: nat)
      requires Valid() && me < |rounds.inflight| && rounds.inflight[me] == size > 0
      modifies this
      ensures Valid() && me < |rounds.inflight| && rounds.inflight[me] == 0
    {
      var e := Event.Collect(me);
      NextKeepsCounter(0, rounds, e, maxParallel, maxAgents);
      rounds := SwarmBatches.Next(rounds, e, maxParallel, maxAgents);
      activeAgents := activeAgents - size;
    }
  }

  lemma PrefixDispatchable(graph: ReasoningGraph, g: GraphView, ready: seq<ReasoningNode>, size: nat)
    requires Dispatchable(graph, g, ready) && size <= |ready|
    ensures Dispatchable(graph, g, ready[..size])
  {
    var ids := Ids(ready[..size]);
    assert forall i :: 0 <= i < |ids| ==> ids[i] == Ids(ready)[i];
  }

  lemma ProgressEnd(ids: seq<Id>, raised: set<Id>, s: Run, t: Run)
    requires Progress(ids, |ids|, raised, s, t) && t.inflight == map[]
    ensures t.dispatched == s.dispatched + ids
    ensures forall k :: k in t.finished <==> k in s.finished || (k in ids && k !in raised)
  {
    assert ids[..|ids|] == ids;
  }

  /** The termination measure: fewer nodes are left to dispatch. */
  lemma DispatchMeasure(sv: Services, g0: GraphView, b0: Option<AB.Budget>, s: Run)
    requires Good(sv, g0, b0, s)
    ensures |s.dispatched| <= |g0.nodes.Keys|
  {
    Pigeonhole(s.dispatched, s.g.nodes.Keys);
  }

  lemma ScanFailsOnlyIfOpen(sv: Services, g0: GraphView, b0: Option<AB.Budget>, s: Run)
    requires Good(sv, g0, b0, s) && Ordered(s.g) && ReadyUpTo(s.g, |s.g.order|).None?
    ensures !Closed(g0)
  {
    if Closed(g0) {
      ClosedKept(g0, s.g);
      ReadyExact(s.g, |s.g.order|);
      assert false;
    }
  }

  /** The loop that appends the results that are not exceptions. */
  method Returned(batch: seq<ReasoningNode>, raised: set<Id>) returns (versions: seq<Id>)
    requires Distinct(Ids(batch))
    ensures Distinct(versions)
    ensures forall k :: k in versions <==> k in Ids(batch) && k !in raised
  {
    versions := [];
    for i := 0 to |batch|
      invariant Distinct(versions)
      invariant forall k :: k in versions <==> k in Ids(batch)[..i] && k !in raised
    {
      assert Ids(batch)[..i + 1] == Ids(batch)[..i] + [batch[i].id];
      if batch[i].id !in raised {
        versions := versions + [batch[i].id];
      }
    }
    assert Ids(batch)[..|batch|] == Ids(batch);
  }

  class SequentialExecution {
    constructor () {}

    /** A budget exception leaves the loop at once. */
    method Execute(engine: ReasoningGraphEngine, graph: ReasoningGraph, ghost g0: GraphView,
                   ghost b0: Option<AB.Budget>)
        returns (raised: bool, versions: seq<Id>, ghost s: Run)
      requires engine.Sync(graph, Initial(g0, b0)) && AllPending(g0)
      modifies graph`view, graph.nodes.Values, engine`execCtx, engine`others, engine.execCtx
      ensures engine.Sync(graph, s) && Good(engine.services, g0, b0, s)
      ensures !raised ==> Done(s, versions) && NoneStuck(s)
      ensures raised ==> !Closed(g0) || ((b0.Some? || s.peers == Replacing) && !NoneStuck(s))
      ensures SlotKept(engine, old(engine.execCtx), s)
      ensures AtMost(s.peers, Worst(b0.Some?, old(engine.others)))
      ensures b0.None? && Worst(false, old(engine.others)) != Replacing ==> NoneStuck(s)
      ensures AllDelivered(engine.services, s.g)
      ensures !raised && NoneStuck(s) ==> IsReference(engine.services, g0, s.g, versions)
    {
      hide NoneStuck, IsReference, AllDelivered, AtMost, ReasoningGraphEngine.Outlook, ReasoningGraphEngine.Sync, Worst;
      hide Good, Dispatchable, Quiescent, Closed, AllPending;
      ghost var outlook := Worst(engine.execCtx != null, engine.others);
      OutlookInitially(engine, graph, g0, b0);
      raised, s, versions := false, Initial(g0, b0), [];
      GoodInitially(engine.services, g0, b0);
      NothingRuns(g0, b0);
      while !graph.IsComplete()
        invariant engine.Sync(graph, s) && Good(engine.services, g0, b0, s) && s.inflight == map[]
        invariant Lists(versions, s) && NoneStuck(s)
        invariant !raised && SlotKept(engine, old(engine.execCtx), s)
        invariant AtMost(engine.Outlook(s), outlook)
        invariant engine.execCtx == old(engine.execCtx) || engine.execCtx == null || fresh(engine.execCtx)
        decreases |g0.nodes.Keys| - |s.dispatched|
      {
        var ready := NextReady(engine, graph, g0, b0, s);
        if ready == None {
          raised := true;
          break;
        }
        if ready.value == [] {
          break;
        }
        var results;
        ghost var before, foreseen := s, engine.Outlook(s);
        raised, results, s := Pass(engine, graph, ready.value, g0, b0, s);
        NoWorse(engine.Outlook(s), foreseen, outlook);
        if raised {
          break;
        }
        ListsMore(versions, results, before, s);
        versions := versions + results;
        DispatchMeasure(engine.services, g0, b0, s);
      }
      if !raised && graph.IsComplete() {
        CompleteIsQuiescent(engine, graph, s);
      }
      OutlookMeans(engine, s, outlook);
      Concluded(engine.services, g0, b0, s, versions, outlook);
    }

    /** One awaited `_execute_node`. */
    method ExecuteNode(engine: ReasoningGraphEngine, graph: ReasoningGraph, node: ReasoningNode,
                       ghost g0: GraphView, ghost b0: Option<AB.Budget>, ghost t: Run,
                       ghost ids: seq<Id>, ghost i: nat, ghost s: Run)
        returns (ok: bool, ghost t': Run)
      requires engine.Sync(graph, t) && Good(engine.services, g0, b0, t) && t.inflight == map[]
      requires Progress(ids, i, {}, s, t) && i < |ids|
      requires node.id == ids[i] && node.id in graph.nodes && graph.nodes[node.id] == node
      modifies graph`view, graph.nodes.Values, engine`execCtx, engine`others, engine.execCtx
      ensures engine.Sync(graph, t') && Good(engine.services, g0, b0, t')
      ensures ok ==> Progress(ids, i + 1, {}, s, t') && t'.inflight == map[]
      ensures !ok ==> (b0.Some? || t'.peers == Replacing) && !NoneStuck(t')
      ensures SlotKept(engine, old(engine.execCtx), t')
      ensures (t.peers == Replacing ==> t'.peers == Replacing) && AtMost(engine.Outlook(t'), old(engine.Outlook(t)))
      ensures engine.execCtx == old(engine.execCtx) || engine.execCtx == null || fresh(engine.execCtx)
    {
      hide ReasoningGraphEngine.Outlook, ReasoningGraphEngine.Sync;
      hide NoneStuck, Good, Progress, IsReady, Finish, CanFinish;
      var calls;
      ok, calls, t' := StartNext(engine, graph, node, map[], g0, b0, t, ids, i, {}, s);
      if ok {
        t' := Between(engine, graph, g0, b0, t', ids, i + 1, {}, s);
        InflightNode(engine, graph, g0, b0, t', node.id);
        ghost var before, o := t', Value("");
        o, t' := FinishOne(engine, graph, node.id, calls[node.id], t');
        ProgressFinish(engine.services, g0, b0, ids, i + 1, {}, s, before, node.id, o);
      } else {
        RaisedIsStuck(engine.services, g0, b0, ids, i + 1, {} + {ids[i]}, s, t', ids[i]);
      }
    }

    /** The inner loop over one scan's nodes. */
    method Pass(engine: ReasoningGraphEngine, graph: ReasoningGraph, ready: seq<ReasoningNode>,
                ghost g0: GraphView, ghost b0: Option<AB.Budget>, ghost s: Run)
        returns (raised: bool, results: seq<Id>, ghost t: Run)
      requires engine.Sync(graph, s) && Good(engine.services, g0, b0, s) && s.inflight == map[]
      requires Dispatchable(graph, s.g, ready) && ready != []
      modifies graph`view, graph.nodes.Values, engine`execCtx, engine`others, engine.execCtx
      ensures engine.Sync(graph, t) && Good(engine.services, g0, b0, t)
      ensures raised ==> (b0.Some? || t.peers == Replacing) && !NoneStuck(t)
      ensures !raised ==> |t.dispatched| > |s.dispatched| && t.inflight == map[]
      ensures !raised ==> Adds(results, s, t) && (NoneStuck(s) ==> NoneStuck(t))
      ensures SlotKept(engine, old(engine.execCtx), t) && (s.peers == Replacing ==> t.peers == Replacing)
      ensures AtMost(engine.Outlook(t), old(engine.Outlook(s)))
      ensures engine.execCtx == old(engine.execCtx) || engine.execCtx == null || fresh(engine.execCtx)
    {
      hide ReasoningGraphEngine.Outlook, ReasoningGraphEngine.Sync;
      hide NoneStuck, Good, Progress, IsReady, Finish, CanFinish;
      t, results, raised := s, [], false;
      ProgressInitially(graph, ready, s);
      ReadyNotFinished(engine.services, graph, g0, b0, s, ready);
      for i := 0 to |ready|
        invariant engine.Sync(graph, t) && Good(engine.services, g0, b0, t) && t.inflight == map[]
        invariant Progress(Ids(ready), i, {}, s, t) && results == Ids(ready)[..i]
        invariant SlotKept(engine, old(engine.execCtx), t) && (s.peers == Replacing ==> t.peers == Replacing)
        invariant AtMost(engine.Outlook(t), old(engine.Outlook(s)))
        invariant engine.execCtx == old(engine.execCtx) || engine.execCtx == null || fresh(engine.execCtx)
      {
        var ok;
        ok, t := ExecuteNode(engine, graph, ready[i], g0, b0, t, Ids(ready), i, s);
        if !ok {
          return true, results, t;
        }
        assert Ids(ready)[..i + 1] == Ids(ready)[..i] + [ready[i].id];
        results := results + [ready[i].id];
      }
      ProgressEnd(Ids(ready), {}, s, t);
      NoneRaised(engine.services, g0, b0, Ids(ready), s, t);
      assert Ids(ready)[..|ready|] == Ids(ready);
    }
  }

  // ---- The results --------------------------------------------------------------------------------

  /** Each node was started at most once, and stayed PENDING exactly when a cycle, a failure
      or a stuck node is above it. */
  lemma StrategyEndState(sv: Services, g0: GraphView, b0: Option<AB.Budget>, s: Run, versions: seq<Id>, k: Id)
    requires Good(sv, g0, b0, s) && Done(s, versions) && Closed(g0) && k in g0.nodes
    ensures Distinct(s.dispatched) && k in s.g.nodes
    ensures k in s.dispatched <==> !(OnOrBelowCycle(s.g, k) || BelowFailure(s.g, k))
  {
    assert SameShape(g0, s.g);
    EndStateExact(sv, g0, s, k);
  }

  datatype Strategy = Sequential(sequential: SequentialExecution) | Swarm(swarm: SwarmExecution)

  /** The budget steps of `_run_agent_graph`: planning counts as an iteration, then the graph
      runs on an engine whose slot is set to this context. Unless another execution is about
      to take the slot, at most `maxIterations - 2` nodes end and at most `maxToolCalls - 1` of
      them called a tool; unless one is about to be charged to this context, the partial
      results are exactly the completed nodes, once each. */
  method RunAgentGraph(engine: ReasoningGraphEngine, ctx: AB.AgentExecutionContext, graph: ReasoningGraph,
                       strategy: Strategy, elapsed: real)
      returns (ran: bool, raised: bool, versions: seq<Id>, ghost s: Run)
    requires graph.Valid() && AllPending(graph.view)
    requires strategy.Swarm? ==> strategy.swarm.Valid()
    requires ctx.iterationCount == 0 && ctx.toolCallCount == 0 && ctx.partialResults == []
    modifies graph`view, graph.nodes.Values, ctx, engine`execCtx, engine`others
    modifies if strategy.Swarm? then {strategy.swarm} else {}
    ensures graph.Valid() && s.g == graph.view && Inv(engine.services, old(graph.view), s)
    ensures ran <==> AB.Exhausted(old(ctx.View()).(iterations := 1), elapsed) == None
    ensures !ran ==> graph.view == old(graph.view) && versions == []
    ensures AllDelivered(engine.services, graph.view)
    ensures ran && !raised ==> Done(s, versions)
    ensures raised ==> !Closed(old(graph.view)) || (strategy.Sequential? && !NoneStuck(s))
    ensures ran && !raised && NoneStuck(s) ==> IsReference(engine.services, old(graph.view), graph.view, versions)
    ensures Worst(true, old(engine.others)) != Replacing ==>
              && |EndedNodes(graph.view)| <= (if ctx.maxIterations >= 2 then ctx.maxIterations - 2 else 0)
              && |ToolNodes(engine.services, s)| <= (if ctx.maxToolCalls >= 1 then ctx.maxToolCalls - 1 else 0)
    ensures Worst(true, old(engine.others)) == Quiet ==> SavedOnce(ctx.partialResults, s)
  {
    hide Good, Inv, BudgetInv, Done, AllDelivered, Closed, NoneStuck, IsReference, ToolNodes, EndedNodes;
    ctx.RecordIteration();
    ran := ctx.Check(elapsed);
    ghost var g0, b0 := graph.view, ctx.View();
    raised, versions, s := false, [], Initial(g0, Some(b0));
    GoodInitially(engine.services, g0, Some(b0));
    if ran {
      engine.execCtx := ctx;
      match strategy {
        case Sequential(sequential) =>
          raised, versions, s := sequential.Execute(engine, graph, g0, Some(b0));
        case Swarm(swarm) =>
          raised, versions, s := swarm.Execute(engine, graph, g0, Some(b0));
      }
    }
    GoodBudget(engine.services, g0, b0, s);
  }

  function EndedNodes(g: GraphView): set<Id> {
    set k | k in g.nodes && Ended(g.nodes[k])
  }

  lemma GoodBudget(sv: Services, g0: GraphView, b0: AB.Budget, s: Run)
    requires Good(sv, g0, Some(b0), s) && b0.partials == []
    ensures Inv(sv, g0, s) && WithinBudget(b0, s) && AllDelivered(sv, s.g)
    ensures |EndedNodes(s.g)| == |s.finished| && |ToolNodes(sv, s)| == s.toolRuns
    ensures s.peers == Quiet ==> s.budget.Some? && SavedOnce(s.budget.value.partials, s)
  {
    GoodDelivers(sv, g0, Some(b0), s);
    hide AllDelivered;
    BudgetMeaning(sv, g0, b0, s);
    DistinctSize(s.finished);
    assert EndedNodes(s.g) == set k | k in s.finished;
  }
}
