/** Executions of a reasoning graph as a step system.

    A node's coroutine (`_execute_node`, app/reasoning_graph/engine.py) is split at its one
    `await`: `Start` is everything before it, `Finish` everything after. Any scheduler that
    starts only ready nodes, with any interleaving of the two kinds of step, produces a run
    of this system; `Execution.dfy` shows that both strategies do. */
module GraphRuns {
  import opened Collections
  import opened Wrappers
  import opened ReasoningGraphs
  import opened GraphRanks
  import B = AgentBudget

  datatype Outcome = Value(v: string) | Raised(message: string)

  type Inputs = map<Id, Option<string>>

  /** The services a node calls. Each is a function of what it is given; `render` is the
      prompt text built from the dependencies in order, their results and the instruction, and
      `parseTool` the match of `name(args)` in a tool task. */
  datatype Services = Services(
    ask: string -> Outcome,
    runTool: (string, string) -> Outcome,
    retrieve: string -> Outcome,
    parseTool: string -> Option<(string, string)>,
    render: (seq<Id>, Inputs, string) -> string)

  predicate CallsTool(sv: Services, n: NodeView) {
    n.agent.None? && n.kind == ToolCall && (sv.parseTool)(n.task).Some?
  }

  /** What a node without an agent yields, given the results of its dependencies. */
  function Invoke(sv: Services, n: NodeView, inputs: Inputs): Outcome {
    match n.kind
    case Reasoning => (sv.ask)((sv.render)(n.deps, inputs, n.task))
    case ToolCall =>
      (match (sv.parseTool)(n.task)
       case Some(call) => (sv.runTool)(call.0, call.1)
       case None => Value("Error: Failed to parse tool call from " + n.task))
    case MemoryLookup => (sv.retrieve)(n.task)
  }

  function StatusOf(o: Outcome): NodeStatus {
    if o.Value? then Completed else Failed
  }

  function ResultOf(o: Outcome): Option<string> {
    match o
    case Value(v) => Some(v)
    case Raised(m) => Some("Error: " + m)
  }

  /** What other executions on the same engine have done to the budget in its slot so far:
      nothing but cancel it, charge it, or put another one in its place. */
  datatype Peers = Quiet | Charging | Replacing

  /** `inflight` maps the nodes at their `await` to the dependency results they captured;
      `dispatched`, `admitted` and `finished` list the nodes started, the nodes whose budget
      checks passed, and the nodes that ended, in that order of events. `budget` is the value
      of the context the engine's slot holds, which need not be this execution's own. */
  datatype Run = Run(
    g: GraphView, inflight: map<Id, Inputs>,
    dispatched: seq<Id>, admitted: seq<Id>, finished: seq<Id>,
    toolRuns: nat, budget: Option<B.Budget>, peers: Peers)

  function Initial(g: GraphView, budget: Option<B.Budget>): Run {
    Run(g, map[], [], [], [], 0, budget, Quiet)
  }

  ghost predicate AllPending(g: GraphView) {
    forall k :: k in g.nodes ==> g.nodes[k].status == Pending && g.nodes[k].result == None
  }

  function Capture(g: GraphView, deps: seq<Id>): Inputs
    requires forall d :: d in deps ==> d in g.nodes
  {
    map d | d in deps :: g.nodes[d].result
  }

  /** The budget after the checks of a starting node, and whether it may go on. */
  function Admit(b: B.Budget, callsTool: bool, elapsed: real): (B.Budget, bool) {
    var b1 := b.(iterations := b.iterations + 1);
    if B.Exhausted(b1, elapsed).Some? then (B.AfterCheck(b1, elapsed), false)
    else if !callsTool then (b1, true)
    else
      var b2 := b1.(toolCalls := b1.toolCalls + 1);
      (B.AfterCheck(b2, elapsed), B.Exhausted(b2, elapsed) == None)
  }

  /** Without a budget nothing is checked. */
  function Allow(b: Option<B.Budget>, callsTool: bool, elapsed: real): (Option<B.Budget>, bool) {
    if b.None? then (None, true)
    else var (b', ok) := Admit(b.value, callsTool, elapsed); (Some(b'), ok)
  }

  /** A starting node is counted as an iteration, and a tool call as well once that check has
      passed. It may go on if and only if the context was not cancelled, its time is not up,
      and what it will have used stays below both limits. */
  lemma AllowExact(b: Option<B.Budget>, callsTool: bool, elapsed: real)
    ensures var (b', ok) := Allow(b, callsTool, elapsed);
            && b'.Some? == b.Some? && (b.None? ==> ok)
            && (b.Some? ==>
                  var x, y := b.value, b'.value;
                  var passed := !x.cancelled && x.iterations + 1 < x.maxIterations
                                && x.toolCalls < x.maxToolCalls && elapsed < x.maxRuntime;
                  && (ok <==> passed && (callsTool ==> x.toolCalls + 1 < x.maxToolCalls))
                  && y == x.(iterations := x.iterations + 1,
                             toolCalls := x.toolCalls + (if passed && callsTool then 1 else 0),
                             reason := y.reason)
                  && (ok ==> y.reason == x.reason))
  {
  }

  function Start(sv: Services, s: Run, id: Id, elapsed: real): Run
    requires IsReady(s.g, id)
  {
    var n := s.g.nodes[id];
    var (budget, ok) := Allow(s.budget, CallsTool(sv, n), elapsed);
    Run(Update(s.g, id, Running, n.result),
        if ok then s.inflight[id := Capture(s.g, n.deps)] else s.inflight,
        s.dispatched + [id],
        if ok then s.admitted + [id] else s.admitted,
        s.finished,
        s.toolRuns + if ok && CallsTool(sv, n) then 1 else 0,
        budget, s.peers)
  }

  function SavePartial(budget: Option<B.Budget>, id: Id, o: Outcome): Option<B.Budget> {
    if budget.Some? && o.Value?
    then Some(budget.value.(partials := budget.value.partials + [(id, Some(o.v))]))
    else budget
  }

  function Finish(s: Run, id: Id, o: Outcome): Run
    requires id in s.inflight && id in s.g.nodes
  {
    s.(g := Update(s.g, id, StatusOf(o), ResultOf(o)), inflight := s.inflight - {id},
       finished := s.finished + [id], budget := SavePartial(s.budget, id, o))
  }

  /** The counters of a context only grow, and its limits never change. */
  ghost predicate Charged(b: B.Budget, c: B.Budget) {
    && c.maxIterations == b.maxIterations && c.maxToolCalls == b.maxToolCalls && c.maxRuntime == b.maxRuntime
    && b.iterations <= c.iterations && b.toolCalls <= c.toolCalls
  }

  function Worse(p: Peers, q: Peers): Peers {
    if p == Replacing || q == Replacing then Replacing
    else if p == Charging || q == Charging then Charging
    else Quiet
  }

  /** What a change of the slot's value amounts to at least. */
  ghost function Effect(b: Option<B.Budget>, c: Option<B.Budget>): Peers {
    if c == b || (b.Some? && c.Some? && c.value == b.value.(cancelled := c.value.cancelled)) then Quiet
    else if b.Some? && c.Some? && Charged(b.value, c.value) then Charging
    else Replacing
  }

  /** What another coroutine can do to the slot: cancel its context, charge a node to it, save
      a result in it, or put its own context, or none, in its place. */
  datatype Other =
    | CancelSlot
    | ChargeNode(callsTool: bool, elapsed: real)
    | SaveResult(id: Id, result: Option<string>)
    | TakeSlot(budget: Option<B.Budget>)

  function AfterOther(b: Option<B.Budget>, e: Other): Option<B.Budget> {
    match e
    case CancelSlot => if b.None? then None else Some(b.value.(cancelled := true))
    case ChargeNode(callsTool, elapsed) => Allow(b, callsTool, elapsed).0
    case SaveResult(id, result) =>
      if b.None? then None else Some(b.value.(partials := b.value.partials + [(id, result)]))
    case TakeSlot(budget) => budget
  }

  function AfterOthers(b: Option<B.Budget>, es: seq<Other>): Option<B.Budget>
    decreases es
  {
    if es == [] then b else AfterOthers(AfterOther(b, es[0]), es[1..])
  }

  /** An empty slot cannot be charged, and taking it with nothing changes nothing. */
  function Severity(occupied: bool, e: Other): Peers {
    match e
    case CancelSlot => Quiet
    case ChargeNode(_, _) => if occupied then Charging else Quiet
    case SaveResult(_, _) => if occupied then Charging else Quiet
    case TakeSlot(budget) => if occupied || budget.Some? then Replacing else Quiet
  }

  /** The worst that these events do to a slot that is occupied, or empty, to begin with. */
  function Worst(occupied: bool, es: seq<Other>): Peers {
    if es == [] then Quiet else Worse(Severity(occupied, es[0]), Worst(occupied, es[1..]))
  }

  predicate AtMost(p: Peers, q: Peers) {
    Worse(p, q) == q
  }

  /** At any `await` the watchdog and other executions may change what the slot holds. */
  ghost function Disturb(s: Run, budget: Option<B.Budget>, peers: Peers): Run {
    s.(budget := budget, peers := Worse(s.peers, Worse(peers, Effect(s.budget, budget))))
  }

  /** An agent-routed node may yield anything. */
  ghost predicate Possible(sv: Services, n: NodeView, inputs: Inputs, o: Outcome) {
    n.agent.None? ==> o == Invoke(sv, n, inputs)
  }

  ghost predicate CanFinish(sv: Services, s: Run, id: Id, o: Outcome) {
    id in s.inflight && id in s.g.nodes && Possible(sv, s.g.nodes[id], s.inflight[id], o)
  }

  /** `Severity` is no less than what the change of the value amounts to, and tells every
      event from the ones below it. */
  lemma SeverityExact(b: Option<B.Budget>, e: Other)
    ensures AtMost(Effect(b, AfterOther(b, e)), Severity(b.Some?, e))
    ensures !e.TakeSlot? ==> Effect(b, AfterOther(b, e)) == (if e.CancelSlot? then Quiet else Severity(b.Some?, e))
    ensures AfterOther(b, e).Some? != b.Some? ==> Severity(b.Some?, e) == Replacing
  {
    if b.Some? {
      match e
      case SaveResult(id, result) => assert |b.value.partials + [(id, result)]| > |b.value.partials|;
      case ChargeNode(callsTool, elapsed) => AllowExact(b, callsTool, elapsed);
      case _ =>
    }
  }

  /** Disturbances add up to one. */
  lemma DisturbTwice(s: Run, b: Option<B.Budget>, p: Peers, c: Option<B.Budget>, q: Peers)
    requires AtMost(Effect(s.budget, b), p) && AtMost(Effect(b, c), q)
    ensures Disturb(Disturb(s, b, p), c, q) == Disturb(s, c, Worse(p, q))
    ensures AtMost(Effect(s.budget, c), Worse(p, q))
  {
  }

  ghost predicate StartStep(sv: Services, s: Run, s': Run, id: Id, elapsed: real) {
    IsReady(s.g, id) && s' == Start(sv, s, id, elapsed)
  }

  ghost predicate FinishStep(sv: Services, s: Run, s': Run, id: Id, o: Outcome) {
    CanFinish(sv, s, id, o) && s' == Finish(s, id, o)
  }

  ghost predicate Step(sv: Services, s: Run, s': Run) {
    || (exists id, elapsed :: StartStep(sv, s, s', id, elapsed))
    || (exists id, o :: FinishStep(sv, s, s', id, o))
    || s' == Disturb(s, s'.budget, s'.peers)
  }

  ghost predicate IsRun(sv: Services, run: seq<Run>) {
    run != [] && forall i :: 0 <= i < |run| - 1 ==> Step(sv, run[i], run[i + 1])
  }

  // ---- The invariant ------------------------------------------------------------------

  ghost predicate SameNode(m: NodeView, n: NodeView) {
    n == m.(status := n.status, result := n.result)
  }

  /** Only statuses and results move. */
  ghost predicate SameShape(g0: GraphView, g: GraphView) {
    && g.order == g0.order && g.nodes.Keys == g0.nodes.Keys
    && forall k :: k in g0.nodes ==> SameNode(g0.nodes[k], g.nodes[k])
  }

  ghost predicate DepsCompleted(g: GraphView, id: Id)
    requires id in g.nodes
  {
    forall d :: d in g.nodes[id].deps ==> d in g.nodes && g.nodes[d].status == Completed
  }

  /** A node leaves PENDING only after all its dependencies completed. */
  ghost predicate StartedAfterDeps(g: GraphView) {
    forall k :: k in g.nodes && g.nodes[k].status != Pending ==> DepsCompleted(g, k)
  }

  ghost predicate PendingUntouched(g: GraphView) {
    forall k :: k in g.nodes && g.nodes[k].status == Pending ==> g.nodes[k].result == None
  }

  ghost predicate InflightExact(s: Run) {
    forall k :: k in s.inflight ==>
      && k in s.g.nodes && s.g.nodes[k].status == Running && DepsCompleted(s.g, k)
      && s.inflight[k] == Capture(s.g, s.g.nodes[k].deps)
  }

  predicate Ended(n: NodeView) {
    n.status == Completed || n.status == Failed
  }

  /** An ended node without an agent holds what its services yield on the stored results of
      its dependencies. */
  ghost predicate ResultRight(sv: Services, g: GraphView, k: Id)
    requires k in g.nodes
  {
    var n := g.nodes[k];
    && DepsCompleted(g, k)
    && (n.agent.None? ==>
          var o := Invoke(sv, n, Capture(g, n.deps)); n.status == StatusOf(o) && n.result == ResultOf(o))
    && (n.status == Completed ==> n.result.Some?)
  }

  ghost predicate ResultsRight(sv: Services, g: GraphView) {
    forall k :: k in g.nodes && Ended(g.nodes[k]) ==> ResultRight(sv, g, k)
  }

  ghost predicate DispatchExact(s: Run) {
    Distinct(s.dispatched)
    && forall k :: k in s.dispatched <==> k in s.g.nodes && s.g.nodes[k].status != Pending
  }

  ghost predicate FinishedExact(s: Run) {
    Distinct(s.finished) && forall k :: k in s.finished <==> k in s.g.nodes && Ended(s.g.nodes[k])
  }

  /** Nodes end in a topological order. */
  ghost predicate Topological(s: Run) {
    forall i, d :: 0 <= i < |s.finished| && s.finished[i] in s.g.nodes && d in s.g.nodes[s.finished[i]].deps
      ==> d in s.finished[..i]
  }

  ghost predicate Inv(sv: Services, g0: GraphView, s: Run) {
    && SameShape(g0, s.g)
    && StartedAfterDeps(s.g)
    && PendingUntouched(s.g)
    && InflightExact(s)
    && ResultsRight(sv, s.g)
    && DispatchExact(s)
    && FinishedExact(s)
    && Topological(s)
  }

  lemma InitialInv(sv: Services, g: GraphView, budget: Option<B.Budget>)
    requires AllPending(g)
    ensures Inv(sv, g, Initial(g, budget))
  {
  }

  /** Changing the status of a node that was not COMPLETED leaves the facts about the nodes
      that depend only on completed nodes unchanged. */
  lemma UpdateKeepsCompleted(g: GraphView, id: Id, status: NodeStatus, result: Option<string>, k: Id)
    requires id in g.nodes && g.nodes[id].status != Completed && k in g.nodes && DepsCompleted(g, k)
    ensures var g' := Update(g, id, status, result);
            DepsCompleted(g', k) && Capture(g', g.nodes[k].deps) == Capture(g, g.nodes[k].deps)
  {
    var g' := Update(g, id, status, result);
    forall d | d in g.nodes[k].deps ensures d in g'.nodes && g'.nodes[d] == g.nodes[d] {
      assert d != id;
    }
  }

  lemma UpdateKeepsResults(sv: Services, g: GraphView, id: Id, status: NodeStatus, result: Option<string>)
    requires id in g.nodes && g.nodes[id].status != Completed && ResultsRight(sv, g)
    ensures var g' := Update(g, id, status, result);
            forall k :: k in g'.nodes && k != id && Ended(g'.nodes[k]) ==> ResultRight(sv, g', k)
  {
    var g' := Update(g, id, status, result);
    forall k | k in g'.nodes && k != id && Ended(g'.nodes[k]) ensures ResultRight(sv, g', k) {
      assert g'.nodes[k] == g.nodes[k] && ResultRight(sv, g, k);
      UpdateKeepsCompleted(g, id, status, result, k);
    }
  }

  lemma UpdateKeepsStarted(g: GraphView, id: Id, status: NodeStatus, result: Option<string>)
    requires id in g.nodes && g.nodes[id].status != Completed && StartedAfterDeps(g) && DepsCompleted(g, id)
    ensures StartedAfterDeps(Update(g, id, status, result))
  {
    var g' := Update(g, id, status, result);
    forall k | k in g'.nodes && g'.nodes[k].status != Pending ensures DepsCompleted(g', k) {
      UpdateKeepsCompleted(g, id, status, result, k);
    }
  }

  lemma StartKeepsInflight(sv: Services, s: Run, id: Id, elapsed: real)
    requires IsReady(s.g, id) && InflightExact(s)
    ensures InflightExact(Start(sv, s, id, elapsed))
  {
    var s' := Start(sv, s, id, elapsed);
    forall k | k in s'.inflight
      ensures k in s'.g.nodes && s'.g.nodes[k].status == Running && DepsCompleted(s'.g, k)
      ensures s'.inflight[k] == Capture(s'.g, s'.g.nodes[k].deps)
    {
      UpdateKeepsCompleted(s.g, id, Running, s.g.nodes[id].result, k);
    }
  }

  lemma StartKeepsInv(sv: Services, g0: GraphView, s: Run, id: Id, elapsed: real)
    requires Inv(sv, g0, s) && IsReady(s.g, id)
    ensures Inv(sv, g0, Start(sv, s, id, elapsed))
  {
    var s' := Start(sv, s, id, elapsed);
    UpdateKeepsStarted(s.g, id, Running, s.g.nodes[id].result);
    UpdateKeepsResults(sv, s.g, id, Running, s.g.nodes[id].result);
    StartKeepsInflight(sv, s, id, elapsed);
    StartKeepsLists(sv, s, id, elapsed);
  }

  lemma StartKeepsLists(sv: Services, s: Run, id: Id, elapsed: real)
    requires IsReady(s.g, id) && DispatchExact(s) && FinishedExact(s) && Topological(s)
    ensures var s' := Start(sv, s, id, elapsed); DispatchExact(s') && FinishedExact(s') && Topological(s')
  {
    var s' := Start(sv, s, id, elapsed);
    DistinctAppend(s.dispatched, id);
    assert forall k :: k in s'.g.nodes && k != id ==> s'.g.nodes[k] == s.g.nodes[k];
    assert s'.finished == s.finished && s'.g.nodes[id].deps == s.g.nodes[id].deps;
  }

  lemma FinishKeepsInflight(sv: Services, s: Run, id: Id, o: Outcome)
    requires CanFinish(sv, s, id, o) && InflightExact(s)
    ensures InflightExact(Finish(s, id, o))
  {
    var s' := Finish(s, id, o);
    forall k | k in s'.inflight
      ensures k in s'.g.nodes && s'.g.nodes[k].status == Running && DepsCompleted(s'.g, k)
      ensures s'.inflight[k] == Capture(s'.g, s'.g.nodes[k].deps)
    {
      UpdateKeepsCompleted(s.g, id, StatusOf(o), ResultOf(o), k);
    }
  }

  lemma FinishKeepsTopological(sv: Services, s: Run, id: Id, o: Outcome)
    requires CanFinish(sv, s, id, o) && InflightExact(s) && FinishedExact(s) && Topological(s)
    ensures Topological(Finish(s, id, o))
  {
    var s' := Finish(s, id, o);
    forall i, d | 0 <= i < |s'.finished| && s'.finished[i] in s'.g.nodes && d in s'.g.nodes[s'.finished[i]].deps
      ensures d in s'.finished[..i]
    {
      if i < |s.finished| {
        assert s'.finished[i] == s.finished[i] && s'.finished[..i] == s.finished[..i];
      } else {
        assert s'.finished[i] == id && s'.finished[..i] == s.finished;
        assert DepsCompleted(s.g, id);
      }
    }
  }

  lemma FinishKeepsLists(sv: Services, s: Run, id: Id, o: Outcome)
    requires CanFinish(sv, s, id, o) && InflightExact(s) && DispatchExact(s) && FinishedExact(s)
    ensures DispatchExact(Finish(s, id, o)) && FinishedExact(Finish(s, id, o))
  {
    var s' := Finish(s, id, o);
    DistinctAppend(s.finished, id);
    assert forall k :: k in s'.g.nodes && k != id ==> s'.g.nodes[k] == s.g.nodes[k];
  }

  lemma FinishKeepsResults(sv: Services, s: Run, id: Id, o: Outcome)
    requires CanFinish(sv, s, id, o) && InflightExact(s) && ResultsRight(sv, s.g)
    ensures ResultsRight(sv, Finish(s, id, o).g)
  {
    hide Invoke;
    UpdateKeepsResults(sv, s.g, id, StatusOf(o), ResultOf(o));
    UpdateKeepsCompleted(s.g, id, StatusOf(o), ResultOf(o), id);
    var g' := Finish(s, id, o).g;
    SameInvoke(sv, s.g.nodes[id], g'.nodes[id], s.inflight[id]);
    assert ResultRight(sv, g', id);
  }

  lemma FinishKeepsInv(sv: Services, g0: GraphView, s: Run, id: Id, o: Outcome)
    requires Inv(sv, g0, s) && CanFinish(sv, s, id, o)
    ensures Inv(sv, g0, Finish(s, id, o))
  {
    FinishKeepsShape(sv, g0, s, id, o);
    hide ResultsRight, InflightExact, Topological, DispatchExact, FinishedExact, StartedAfterDeps, SameShape;
    hide PendingUntouched, CanFinish, Finish;
    FinishKeepsResults(sv, s, id, o);
    FinishKeepsInflight(sv, s, id, o);
    FinishKeepsTopological(sv, s, id, o);
    FinishKeepsLists(sv, s, id, o);
  }

  lemma FinishKeepsShape(sv: Services, g0: GraphView, s: Run, id: Id, o: Outcome)
    requires SameShape(g0, s.g) && PendingUntouched(s.g) && StartedAfterDeps(s.g) && InflightExact(s)
    requires CanFinish(sv, s, id, o)
    ensures var g := Finish(s, id, o).g; SameShape(g0, g) && PendingUntouched(g) && StartedAfterDeps(g)
  {
    UpdateKeepsStarted(s.g, id, StatusOf(o), ResultOf(o));
    hide StartedAfterDeps, Possible;
  }

  lemma StepKeepsInv(sv: Services, g0: GraphView, s: Run, s': Run)
    requires Inv(sv, g0, s) && Step(sv, s, s')
    ensures Inv(sv, g0, s')
  {
    if id, elapsed :| StartStep(sv, s, s', id, elapsed) {
      StartKeepsInv(sv, g0, s, id, elapsed);
    } else if id, o :| FinishStep(sv, s, s', id, o) {
      FinishKeepsInv(sv, g0, s, id, o);
    }
  }

  /** The invariant holds in every state of every run. */
  lemma {:induction false} RunKeepsInv(sv: Services, g0: GraphView, budget: Option<B.Budget>, run: seq<Run>, i: nat)
    requires AllPending(g0) && IsRun(sv, run) && run[0] == Initial(g0, budget) && i < |run|
    ensures Inv(sv, g0, run[i])
  {
    if i == 0 {
      InitialInv(sv, g0, budget);
    } else {
      RunKeepsInv(sv, g0, budget, run, i - 1);
      assert Step(sv, run[i - 1], run[i - 1 + 1]);
      StepKeepsInv(sv, g0, run[i - 1], run[i]);
    }
  }

  // ---- Schedule independence ----------------------------------------------------------

  /** Nothing is in flight and nothing can be started: where both strategies stop. */
  ghost predicate Quiescent(s: Run) {
    s.inflight == map[] && forall k :: !IsReady(s.g, k)
  }

  ghost predicate NoAgents(g: GraphView) {
    forall k :: k in g.nodes ==> g.nodes[k].agent.None?
  }

  /** No budget check raised: every RUNNING node is still in flight. */
  ghost predicate NoneStuck(s: Run) {
    forall k :: k in s.g.nodes && s.g.nodes[k].status == Running ==> k in s.inflight
  }

  lemma StepKeepsNoneStuck(sv: Services, s: Run, s': Run)
    requires Step(sv, s, s') && s'.peers != Replacing && NoneStuck(s) && s.budget == None
    ensures NoneStuck(s') && s'.budget == None
  {
    if id, elapsed :| StartStep(sv, s, s', id, elapsed) {
    } else if id, o :| FinishStep(sv, s, s', id, o) {
    }
  }

  /** A node ends the same way in any two quiescent states reached from one graph, whether
      or not the graph has cycles. */
  lemma {:induction false} EndedAgree(sv: Services, g0: GraphView, s: Run, t: Run, i: nat)
    requires Inv(sv, g0, s) && Inv(sv, g0, t) && NoAgents(g0)
    requires Quiescent(t) && NoneStuck(t) && i < |s.finished|
    ensures s.finished[i] in s.g.nodes && t.g.nodes[s.finished[i]] == s.g.nodes[s.finished[i]]
    decreases i
  {
    var k := s.finished[i];
    var n := s.g.nodes[k];
    assert k in s.finished && ResultRight(sv, s.g, k) && SameNode(g0.nodes[k], n)
        && SameNode(g0.nodes[k], t.g.nodes[k]);
    forall d | d in n.deps ensures d in t.g.nodes && t.g.nodes[d] == s.g.nodes[d] {
      assert d in s.finished[..i];
      var j :| 0 <= j < i && s.finished[j] == d;
      EndedAgree(sv, g0, s, t, j);
    }
    assert DepsCompleted(t.g, k);
    assert !IsReady(t.g, k);
    assert Ended(t.g.nodes[k]) && ResultRight(sv, t.g, k);
    assert Capture(t.g, n.deps) == Capture(s.g, n.deps);
  }

  /** Schedule independence: any two executions that ran to the end, no budget check having
      raised, leave the same statuses and results, whatever was started when, whatever
      finished first and whatever other executions did. */
  lemma ScheduleIndependence(sv: Services, g0: GraphView, s: Run, t: Run)
    requires Inv(sv, g0, s) && Inv(sv, g0, t) && NoAgents(g0)
    requires Quiescent(s) && NoneStuck(s) && Quiescent(t) && NoneStuck(t)
    ensures s.g == t.g
  {
    forall k | k in g0.nodes ensures s.g.nodes[k] == t.g.nodes[k] {
      assert SameNode(g0.nodes[k], s.g.nodes[k]) && SameNode(g0.nodes[k], t.g.nodes[k]);
      if k in s.finished {
        var i :| 0 <= i < |s.finished| && s.finished[i] == k;
        EndedAgree(sv, g0, s, t, i);
      } else if k in t.finished {
        var i :| 0 <= i < |t.finished| && t.finished[i] == k;
        EndedAgree(sv, g0, t, s, i);
      }
    }
    assert s.g.nodes == t.g.nodes;
  }

  // ---- What a node ends with --------------------------------------------------------------

  /** The node holds what the service delivered, or the error text. */
  predicate Holds(n: NodeView, o: Outcome) {
    match o
    case Value(v) => n.status == Completed && n.result == Some(v)
    case Raised(m) => n.status == Failed && n.result == Some("Error: " + m)
  }

  /** The node holds the reply of its service: a reasoning node is asked with the stored
      results of its dependencies, a tool is called with the parsed name and arguments, and a
      call that does not parse completes with a text that says so. */
  ghost predicate Delivered(sv: Services, g: GraphView, k: Id)
    requires k in g.nodes && forall d :: d in g.nodes[k].deps ==> d in g.nodes
  {
    var n := g.nodes[k];
    match n.kind
    case Reasoning =>
      Holds(n, (sv.ask)((sv.render)(n.deps, map d | d in n.deps :: g.nodes[d].result, n.task)))
    case ToolCall =>
      (match (sv.parseTool)(n.task)
       case Some(call) => Holds(n, (sv.runTool)(call.0, call.1))
       case None => n.status == Completed && n.result == Some("Error: Failed to parse tool call from " + n.task))
    case MemoryLookup => Holds(n, (sv.retrieve)(n.task))
  }

  /** In every state of every run, an ended node without an agent holds the reply of its
      service to the completed results of its dependencies. */
  lemma EndedIsDelivered(sv: Services, g0: GraphView, s: Run, k: Id)
    requires Inv(sv, g0, s) && k in s.g.nodes && Ended(s.g.nodes[k]) && s.g.nodes[k].agent.None?
    ensures DepsCompleted(s.g, k) && Delivered(sv, s.g, k)
  {
    assert ResultRight(sv, s.g, k);
    assert Capture(s.g, s.g.nodes[k].deps) == map d | d in s.g.nodes[k].deps :: s.g.nodes[d].result;
  }

  ghost predicate AllDelivered(sv: Services, g: GraphView) {
    forall k :: k in g.nodes && Ended(g.nodes[k]) && g.nodes[k].agent.None? ==>
                  DepsCompleted(g, k) && Delivered(sv, g, k)
  }

  /** A node is settled: it ended with its service's reply if all its dependencies completed,
      and was not touched otherwise. */
  ghost predicate Settled(sv: Services, g: GraphView, k: Id)
    requires k in g.nodes
  {
    if DepsCompleted(g, k) then Ended(g.nodes[k]) && Delivered(sv, g, k)
    else g.nodes[k].status == Pending && g.nodes[k].result == None
  }

  // ---- The reference evaluation ---------------------------------------------------------

  datatype Verdict = Ran(o: Outcome) | Blocked

  predicate Yields(v: Verdict) {
    v.Ran? && v.o.Value?
  }

  /** Recursive evaluation of one node: it runs if and only if every dependency yields a
      value, and then on those values. */
  ghost function Evaluate(sv: Services, g: GraphView, k: Id): Verdict
    requires Closed(g) && Acyclic(g) && k in g.nodes
    decreases Rank(g, k)
  {
    RanksFall(g, k);
    var deps := g.nodes[k].deps;
    if forall d :: d in deps ==> Yields(Evaluate(sv, g, d)) then
      Ran(Invoke(sv, g.nodes[k], map d | d in deps :: Some(Evaluate(sv, g, d).o.v)))
    else Blocked
  }

  ghost predicate Matches(n: NodeView, v: Verdict) {
    match v
    case Blocked => n.status == Pending && n.result == None
    case Ran(o) => n.status == StatusOf(o) && n.result == ResultOf(o)
  }

  /** Without agents, every node is settled when an execution has run to the end, no budget
      check having raised. The graph may have cycles. */
  lemma EndIsSettled(sv: Services, g0: GraphView, s: Run, k: Id)
    requires Inv(sv, g0, s) && NoAgents(g0) && k in g0.nodes && Quiescent(s) && NoneStuck(s)
    ensures k in s.g.nodes && Settled(sv, s.g, k)
  {
    hide Delivered, Invoke, Topological;
    ShapeKept(sv, g0, s, k);
    assert !IsReady(s.g, k);
    if Ended(s.g.nodes[k]) {
      EndedIsDelivered(sv, g0, s, k);
    }
  }

  /** In a closed acyclic graph being settled everywhere determines every node: it is what the
      recursive evaluation says. */
  lemma {:induction false} SettledIsReference(sv: Services, g0: GraphView, g: GraphView, k: Id)
    requires SameShape(g0, g) && NoAgents(g0) && Closed(g0) && Acyclic(g0) && k in g0.nodes
    requires forall j :: j in g.nodes ==> Settled(sv, g, j)
    ensures Matches(g.nodes[k], Evaluate(sv, g0, k))
    decreases Rank(g0, k)
  {
    hide Acyclic, Evaluate, Rank, Delivered, Matches;
    RanksFall(g0, k);
    assert SameNode(g0.nodes[k], g.nodes[k]);
    forall d | d in g0.nodes[k].deps ensures d in g.nodes && Matches(g.nodes[d], Evaluate(sv, g0, d)) {
      SettledIsReference(sv, g0, g, d);
    }
    SettledStep(sv, g0, g, k);
  }

  lemma SettledStep(sv: Services, g0: GraphView, g: GraphView, k: Id)
    requires SameShape(g0, g) && Closed(g0) && Acyclic(g0) && k in g0.nodes && Settled(sv, g, k)
    requires forall d :: d in g0.nodes[k].deps ==> d in g.nodes && Matches(g.nodes[d], Evaluate(sv, g0, d))
    requires forall d :: d in g0.nodes[k].deps ==> Settled(sv, g, d)
    ensures Matches(g.nodes[k], Evaluate(sv, g0, k))
  {
    hide Acyclic, Rank;
    RanksFall(g0, k);
    assert SameNode(g0.nodes[k], g.nodes[k]);
    if forall d :: d in g0.nodes[k].deps ==> Yields(Evaluate(sv, g0, d)) {
      EvaluateCaptured(sv, g0, g, k);
    }
  }

  lemma ShapeKept(sv: Services, g0: GraphView, s: Run, k: Id)
    requires Inv(sv, g0, s) && k in g0.nodes
    ensures k in s.g.nodes && SameNode(g0.nodes[k], s.g.nodes[k])
  {
  }

  /** Every execution of a closed acyclic graph that ran to the end, no budget check having
      raised, computed the reference evaluation. */
  lemma ReferenceReached(sv: Services, g0: GraphView, s: Run, k: Id)
    requires Inv(sv, g0, s) && NoAgents(g0) && Closed(g0) && Acyclic(g0) && k in g0.nodes
    requires Quiescent(s) && NoneStuck(s)
    ensures k in s.g.nodes && Settled(sv, s.g, k) && Matches(s.g.nodes[k], Evaluate(sv, g0, k))
  {
    hide Acyclic, Closed, Evaluate, Settled, Matches, Quiescent, NoneStuck, NoAgents;
    assert SameShape(g0, s.g);
    forall j | j in s.g.nodes ensures Settled(sv, s.g, j) {
      EndIsSettled(sv, g0, s, j);
    }
    SettledIsReference(sv, g0, s.g, k);
  }

  lemma EvaluateCaptured(sv: Services, g0: GraphView, g: GraphView, k: Id)
    requires Closed(g0) && Acyclic(g0) && k in g0.nodes
    requires forall d :: d in g0.nodes[k].deps ==>
               && Yields(Evaluate(sv, g0, d))
               && d in g.nodes && Matches(g.nodes[d], Evaluate(sv, g0, d))
    ensures Evaluate(sv, g0, k) == Ran(Invoke(sv, g0.nodes[k], Capture(g, g0.nodes[k].deps)))
  {
    hide Invoke;
    var deps := g0.nodes[k].deps;
    var inputs := map d | d in deps :: Some(Evaluate(sv, g0, d).o.v);
    assert Capture(g, deps) == inputs;
  }

  lemma SameInvoke(sv: Services, m: NodeView, n: NodeView, inputs: Inputs)
    requires SameNode(m, n)
    ensures Invoke(sv, m, inputs) == Invoke(sv, n, inputs)
  {
  }
}
