/** What a reasoning graph looks like when its execution stops, cycles and stuck nodes
    included, and what a budget lets happen before that. */
module GraphEndState {
  import opened Collections
  import opened Wrappers
  import opened ReasoningGraphs
  import opened GraphRuns
  import B = AgentBudget

  // ---- The nodes left PENDING -----------------------------------------------------------

  /** Some dependency chain from the node meets a node twice. */
  ghost predicate OnOrBelowCycle(g: GraphView, k: Id) {
    exists p :: Chain(g, p) && p[0] == k && !Distinct(p)
  }

  ghost predicate BadEnd(g: GraphView, p: seq<Id>)
    requires Chain(g, p)
  {
    |p| > 1 && (g.nodes[p[|p| - 1]].status == Failed || g.nodes[p[|p| - 1]].status == Running)
  }

  /** Some proper ancestor failed, or was left RUNNING by a budget exception. */
  ghost predicate BelowFailure(g: GraphView, k: Id) {
    exists p :: Chain(g, p) && p[0] == k && BadEnd(g, p)
  }

  /** In a quiescent state of a closed graph, a node is PENDING if and only if it lies on or
      below a cycle or below a failed or stuck node. */
  lemma EndStateExact(sv: Services, g0: GraphView, s: Run, k: Id)
    requires Inv(sv, g0, s) && Quiescent(s) && Closed(g0) && k in s.g.nodes
    ensures s.g.nodes[k].status == Pending <==> OnOrBelowCycle(s.g, k) || BelowFailure(s.g, k)
  {
    ClosedKept(g0, s.g);
    if s.g.nodes[k].status == Pending {
      assert |s.g.nodes.Keys| == |s.g.nodes|;
      var p := PendingChain(s, k, |s.g.nodes|);
      if !BadEnd(s.g, p) && Distinct(p) {
        Pigeonhole(p, s.g.nodes.Keys);
        assert false;
      }
    } else {
      if OnOrBelowCycle(s.g, k) {
        var p :| Chain(s.g, p) && p[0] == k && !Distinct(p);
        NoRepeat(sv, g0, s, p);
        assert false;
      }
      if BelowFailure(s.g, k) {
        var p :| Chain(s.g, p) && p[0] == k && BadEnd(s.g, p);
        AncestorsCompleted(s.g, p, |p| - 1);
        assert false;
      }
    }
  }

  lemma ClosedKept(g0: GraphView, g: GraphView)
    requires Closed(g0) && SameShape(g0, g)
    ensures Closed(g)
  {
    forall k, d | k in g.nodes && d in g.nodes[k].deps ensures d in g.nodes {
      assert SameNode(g0.nodes[k], g.nodes[k]);
    }
  }

  /** Follows unfinished dependencies until one failed or is stuck, or for `n` steps. */
  lemma {:induction false} PendingChain(s: Run, k: Id, n: nat) returns (p: seq<Id>)
    requires Closed(s.g) && (forall d :: !IsReady(s.g, d))
    requires k in s.g.nodes && s.g.nodes[k].status == Pending
    ensures Chain(s.g, p) && p[0] == k && (BadEnd(s.g, p) || |p| == n + 1)
    decreases n
  {
    if n == 0 {
      p := [k];
    } else {
      assert !IsReady(s.g, k);
      var d :| d in s.g.nodes[k].deps && d in s.g.nodes && s.g.nodes[d].status != Completed;
      var q := [d];
      if s.g.nodes[d].status == Pending {
        q := PendingChain(s, d, n - 1);
      }
      ChainCons(s.g, k, q);
      p := [k] + q;
    }
  }

  /** Every proper ancestor of a started node completed. */
  lemma {:induction false} AncestorsCompleted(g: GraphView, p: seq<Id>, j: nat)
    requires StartedAfterDeps(g) && Chain(g, p) && g.nodes[p[0]].status != Pending && j < |p|
    ensures j > 0 ==> g.nodes[p[j]].status == Completed
    ensures g.nodes[p[j]].status != Pending
  {
    if j > 0 {
      AncestorsCompleted(g, p, j - 1);
      assert DepsCompleted(g, p[j - 1]) && p[j - 1 + 1] in g.nodes[p[j - 1]].deps;
    }
  }

  /** Along a chain of ended nodes the positions in the finishing order fall. */
  lemma {:induction false} PositionsFall(sv: Services, g0: GraphView, s: Run, p: seq<Id>, i: nat, j: nat)
      returns (x: nat, y: nat)
    requires Inv(sv, g0, s) && Chain(s.g, p) && i < j < |p|
    requires forall m :: i <= m <= j ==> Ended(s.g.nodes[p[m]])
    ensures y < x < |s.finished| && s.finished[x] == p[i] && s.finished[y] == p[j]
    decreases j - i
  {
    assert p[i] in s.finished && p[i + 1] in s.g.nodes[p[i]].deps;
    x :| 0 <= x < |s.finished| && s.finished[x] == p[i];
    assert p[i + 1] in s.finished[..x];
    y :| 0 <= y < x && s.finished[y] == p[i + 1];
    if i + 1 < j {
      var x', y' := PositionsFall(sv, g0, s, p, i + 1, j);
      assert x' == y;
      y := y';
    }
  }

  lemma NoRepeat(sv: Services, g0: GraphView, s: Run, p: seq<Id>)
    requires Inv(sv, g0, s) && Chain(s.g, p) && s.g.nodes[p[0]].status != Pending
    ensures Distinct(p)
  {
    forall i, j | 0 <= i < j < |p| ensures p[i] != p[j] {
      if p[i] == p[j] {
        forall m | i <= m <= j ensures Ended(s.g.nodes[p[m]]) {
          AncestorsCompleted(s.g, p, j);
          AncestorsCompleted(s.g, p, m);
        }
        var x, y := PositionsFall(sv, g0, s, p, i, j);
        assert false;
      }
    }
  }

  // ---- Budgets -------------------------------------------------------------------------------

  /** One saved pair for each completed node of the list, in order. */
  ghost function PartialsOf(g: GraphView, ids: seq<Id>): seq<(Id, Option<string>)>
    requires forall i :: 0 <= i < |ids| ==> ids[i] in g.nodes
  {
    if ids == [] then []
    else
      var last := ids[|ids| - 1];
      PartialsOf(g, ids[..|ids| - 1]) +
      if g.nodes[last].status == Completed then [(last, g.nodes[last].result)] else []
  }

  lemma {:induction false} PartialsUnchanged(g: GraphView, g': GraphView, ids: seq<Id>)
    requires forall i :: 0 <= i < |ids| ==>
               ids[i] in g.nodes && ids[i] in g'.nodes && g.nodes[ids[i]] == g'.nodes[ids[i]]
    ensures PartialsOf(g, ids) == PartialsOf(g', ids)
  {
    if ids != [] {
      PartialsUnchanged(g, g', ids[..|ids| - 1]);
    }
  }

  lemma {:induction false} PartialsExact(g: GraphView, ids: seq<Id>)
    requires Distinct(ids) && forall i :: 0 <= i < |ids| ==> ids[i] in g.nodes
    ensures var ps := PartialsOf(g, ids);
            && |ps| <= |ids|
            && (forall i, j :: 0 <= i < j < |ps| ==> ps[i].0 != ps[j].0)
            && (forall x :: x in ps <==> x.0 in ids && g.nodes[x.0].status == Completed && x.1 == g.nodes[x.0].result)
  {
    if ids != [] {
      var front := ids[..|ids| - 1];
      assert ids == front + [ids[|ids| - 1]];
      PartialsExact(g, front);
      var ps := PartialsOf(g, front);
      assert forall i :: 0 <= i < |ps| ==> ps[i] in ps;
      assert ids[|ids| - 1] !in front;
    }
  }

  /** What the checks leave of the budget, as long as its counters only grow. */
  ghost predicate Counters(b0: B.Budget, s: Run) {
    s.budget.Some? && var b := s.budget.value;
    && b.maxIterations == b0.maxIterations && b.maxToolCalls == b0.maxToolCalls
    && b.iterations >= b0.iterations + |s.dispatched|
    && b.toolCalls >= b0.toolCalls + s.toolRuns
    && |s.admitted| <= |s.dispatched|
    && (s.admitted != [] ==> b0.iterations + |s.admitted| < b0.maxIterations)
    && (s.toolRuns > 0 ==> b0.toolCalls + s.toolRuns < b0.maxToolCalls)
  }

  ghost predicate Flights(s: Run) {
    |s.admitted| == |s.finished| + |s.inflight|
  }

  ghost predicate PartialsSaved(b0: B.Budget, s: Run) {
    && s.budget.Some?
    && s.budget.value.iterations == b0.iterations + |s.dispatched|
    && (forall i :: 0 <= i < |s.finished| ==> s.finished[i] in s.g.nodes)
    && s.budget.value.partials == b0.partials + PartialsOf(s.g, s.finished)
  }

  lemma StartKeepsFlights(sv: Services, s: Run, id: Id, elapsed: real)
    requires Flights(s) && IsReady(s.g, id) && id !in s.inflight
    ensures Flights(Start(sv, s, id, elapsed))
  {
    var s' := Start(sv, s, id, elapsed);
    if id in s'.inflight {
      assert s'.inflight.Keys == s.inflight.Keys + {id};
      assert |s'.inflight| == |s'.inflight.Keys| && |s.inflight| == |s.inflight.Keys|;
    }
  }

  lemma FinishKeepsFlights(s: Run, id: Id, o: Outcome)
    requires Flights(s) && id in s.inflight && id in s.g.nodes
    ensures Flights(Finish(s, id, o))
  {
    var s' := Finish(s, id, o);
    assert s'.inflight.Keys == s.inflight.Keys - {id};
    assert |s'.inflight| == |s'.inflight.Keys| && |s.inflight| == |s.inflight.Keys|;
  }

  lemma StartKeepsPartials(sv: Services, b0: B.Budget, s: Run, id: Id, elapsed: real)
    requires PartialsSaved(b0, s) && FinishedExact(s) && IsReady(s.g, id)
    ensures PartialsSaved(b0, Start(sv, s, id, elapsed))
  {
    var s' := Start(sv, s, id, elapsed);
    assert id !in s.finished;
    PartialsUnchanged(s.g, s'.g, s.finished);
  }

  lemma FinishKeepsPartials(b0: B.Budget, s: Run, id: Id, o: Outcome)
    requires PartialsSaved(b0, s) && FinishedExact(s) && InflightExact(s) && id in s.inflight && id in s.g.nodes
    ensures PartialsSaved(b0, Finish(s, id, o))
  {
    var s' := Finish(s, id, o);
    assert id !in s.finished;
    PartialsUnchanged(s.g, s'.g, s.finished);
    assert s'.finished[..|s'.finished| - 1] == s.finished;
  }

  /** The counters hold unless another context took the slot; the partial results and the
      iteration count are exact unless another execution was charged to it as well. */
  ghost predicate BudgetInv(b0: B.Budget, s: Run) {
    && Flights(s)
    && (s.peers != Replacing ==> Counters(b0, s))
    && (s.peers == Quiet ==> PartialsSaved(b0, s))
  }

  lemma BudgetInitially(g: GraphView, b0: B.Budget)
    ensures BudgetInv(b0, Initial(g, Some(b0)))
  {
    assert b0.partials + [] == b0.partials;
  }

  lemma StartKeepsCounters(sv: Services, b0: B.Budget, s: Run, id: Id, elapsed: real)
    requires Counters(b0, s) && IsReady(s.g, id)
    ensures Counters(b0, Start(sv, s, id, elapsed))
  {
  }

  lemma StartKeepsBudget(sv: Services, g0: GraphView, b0: B.Budget, s: Run, id: Id, elapsed: real)
    requires Inv(sv, g0, s) && BudgetInv(b0, s) && IsReady(s.g, id)
    ensures BudgetInv(b0, Start(sv, s, id, elapsed))
  {
    hide Flights, Counters, PartialsSaved;
    assert id !in s.inflight;
    StartKeepsFlights(sv, s, id, elapsed);
    if s.peers != Replacing {
      StartKeepsCounters(sv, b0, s, id, elapsed);
    }
    if s.peers == Quiet {
      StartKeepsPartials(sv, b0, s, id, elapsed);
    }
  }

  lemma FinishKeepsBudget(sv: Services, g0: GraphView, b0: B.Budget, s: Run, id: Id, o: Outcome)
    requires Inv(sv, g0, s) && BudgetInv(b0, s) && CanFinish(sv, s, id, o)
    ensures BudgetInv(b0, Finish(s, id, o))
  {
    hide Flights, PartialsSaved;
    FinishKeepsFlights(s, id, o);
    if s.peers == Quiet {
      FinishKeepsPartials(b0, s, id, o);
    }
  }

  lemma DisturbKeepsBudget(b0: B.Budget, s: Run, budget: Option<B.Budget>, peers: Peers)
    requires BudgetInv(b0, s)
    ensures BudgetInv(b0, Disturb(s, budget, peers))
  {
  }

  lemma StepKeepsBudget(sv: Services, g0: GraphView, b0: B.Budget, s: Run, s': Run)
    requires Inv(sv, g0, s) && BudgetInv(b0, s) && Step(sv, s, s')
    ensures BudgetInv(b0, s')
  {
    hide Inv, BudgetInv, Start, Finish, Disturb;
    if id, elapsed :| StartStep(sv, s, s', id, elapsed) {
      StartKeepsBudget(sv, g0, b0, s, id, elapsed);
    } else if id, o :| FinishStep(sv, s, s', id, o) {
      FinishKeepsBudget(sv, g0, b0, s, id, o);
    } else {
      DisturbKeepsBudget(b0, s, s'.budget, s'.peers);
    }
  }

  /** In every state of every run in which no other context took the slot: the nodes that ran
      are at most one fewer than the iterations the budget had left, and likewise the tools.
      If no other execution was charged to it either, exactly one partial result, the node's
      own, is saved for each COMPLETED node. */
  lemma BudgetBound(sv: Services, g0: GraphView, b0: B.Budget, run: seq<Run>, i: nat)
    requires AllPending(g0) && IsRun(sv, run) && run[0] == Initial(g0, Some(b0)) && i < |run|
    requires b0.partials == []
    ensures WithinBudget(b0, run[i])
    ensures run[i].peers == Quiet ==> run[i].budget.Some? && SavedOnce(run[i].budget.value.partials, run[i])
  {
    RunKeepsBudget(sv, g0, b0, run, i);
    RunKeepsInv(sv, g0, Some(b0), run, i);
    BudgetMeaning(sv, g0, b0, run[i]);
  }

  ghost predicate WithinBudget(b0: B.Budget, s: Run) {
    && |s.finished| <= |s.admitted|
    && (s.peers != Replacing ==>
          && (s.admitted != [] ==> |s.admitted| <= b0.maxIterations - b0.iterations - 1)
          && (s.toolRuns > 0 ==> s.toolRuns <= b0.maxToolCalls - b0.toolCalls - 1))
  }

  ghost predicate SavedOnce(ps: seq<(Id, Option<string>)>, s: Run) {
    && |ps| <= |s.finished|
    && (forall m, n :: 0 <= m < n < |ps| ==> ps[m].0 != ps[n].0)
    && (forall x :: x in ps <==>
          x.0 in s.g.nodes && s.g.nodes[x.0].status == Completed && x.1 == s.g.nodes[x.0].result)
  }

  lemma BudgetMeaning(sv: Services, g0: GraphView, b0: B.Budget, s: Run)
    requires Inv(sv, g0, s) && BudgetInv(b0, s) && b0.partials == []
    ensures WithinBudget(b0, s)
    ensures s.peers == Quiet ==> s.budget.Some? && SavedOnce(s.budget.value.partials, s)
  {
    if s.peers == Quiet {
      PartialsExact(s.g, s.finished);
      var ps := s.budget.value.partials;
      assert ps == PartialsOf(s.g, s.finished);
      forall k | k in s.g.nodes && s.g.nodes[k].status == Completed ensures k in s.finished {
        assert Ended(s.g.nodes[k]);
      }
    }
  }

  lemma {:induction false} RunKeepsBudget(sv: Services, g0: GraphView, b0: B.Budget, run: seq<Run>, i: nat)
    requires AllPending(g0) && IsRun(sv, run) && run[0] == Initial(g0, Some(b0)) && i < |run|
    ensures BudgetInv(b0, run[i])
  {
    hide BudgetInv, Inv, Initial;
    if i == 0 {
      BudgetInitially(g0, b0);
    } else {
      RunKeepsBudget(sv, g0, b0, run, i - 1);
      RunKeepsInv(sv, g0, Some(b0), run, i - 1);
      assert Step(sv, run[i - 1], run[i - 1 + 1]);
      StepKeepsBudget(sv, g0, b0, run[i - 1], run[i]);
    }
  }

  // ---- The tools that were called -----------------------------------------------------------

  /** The nodes that called a tool: past their budget checks, and not routed to an agent. */
  ghost function ToolNodes(sv: Services, s: Run): set<Id> {
    set k | k in s.g.nodes && (k in s.inflight || Ended(s.g.nodes[k])) && s.g.nodes[k].agent.None?
            && s.g.nodes[k].kind == ToolCall && (sv.parseTool)(s.g.nodes[k].task).Some?
  }

  ghost predicate ToolsCounted(sv: Services, s: Run) {
    s.toolRuns == |ToolNodes(sv, s)|
  }

  lemma StartKeepsTools(sv: Services, s: Run, id: Id, elapsed: real)
    requires ToolsCounted(sv, s) && IsReady(s.g, id) && id !in s.inflight
    ensures ToolsCounted(sv, Start(sv, s, id, elapsed))
  {
    var s' := Start(sv, s, id, elapsed);
    StartedOne(sv, s, id, elapsed);
    hide Start, Update, CallsTool, Ended, IsReady;
    var added := if id in s'.inflight && CallsTool(sv, s.g.nodes[id]) then {id} else {};
    assert ToolNodes(sv, s') == ToolNodes(sv, s) + added;
  }

  lemma StartedOne(sv: Services, s: Run, id: Id, elapsed: real)
    requires IsReady(s.g, id) && id !in s.inflight
    ensures var s' := Start(sv, s, id, elapsed);
            && s'.g.nodes.Keys == s.g.nodes.Keys && id in s.g.nodes
            && !Ended(s.g.nodes[id]) && !Ended(s'.g.nodes[id])
            && CallsTool(sv, s'.g.nodes[id]) == CallsTool(sv, s.g.nodes[id])
            && (forall k :: k in s.g.nodes && k != id ==> s'.g.nodes[k] == s.g.nodes[k])
            && (forall k :: k != id ==> (k in s'.inflight <==> k in s.inflight))
            && s'.toolRuns == s.toolRuns + if id in s'.inflight && CallsTool(sv, s.g.nodes[id]) then 1 else 0
  {
    hide Allow;
  }

  lemma FinishKeepsTools(sv: Services, s: Run, id: Id, o: Outcome)
    requires ToolsCounted(sv, s) && id in s.inflight && id in s.g.nodes
    ensures ToolsCounted(sv, Finish(s, id, o))
  {
    var s' := Finish(s, id, o);
    assert CallsTool(sv, s'.g.nodes[id]) == CallsTool(sv, s.g.nodes[id]);
    hide CallsTool;
    assert ToolNodes(sv, s') == ToolNodes(sv, s);
  }

  lemma StepKeepsTools(sv: Services, g0: GraphView, s: Run, s': Run)
    requires Inv(sv, g0, s) && ToolsCounted(sv, s) && Step(sv, s, s')
    ensures ToolsCounted(sv, s')
  {
    hide ToolsCounted, Start, Finish;
    if id, elapsed :| StartStep(sv, s, s', id, elapsed) {
      assert id !in s.inflight;
      StartKeepsTools(sv, s, id, elapsed);
    } else if id, o :| FinishStep(sv, s, s', id, o) {
      FinishKeepsTools(sv, s, id, o);
    } else {
      DisturbKeepsTools(sv, s, s'.budget, s'.peers);
    }
  }

  lemma DisturbKeepsTools(sv: Services, s: Run, budget: Option<B.Budget>, peers: Peers)
    requires ToolsCounted(sv, s)
    ensures ToolsCounted(sv, Disturb(s, budget, peers))
  {
    assert ToolNodes(sv, Disturb(s, budget, peers)) == ToolNodes(sv, s);
  }

  // ---- What every step of an execution keeps ----------------------------------------------

  /** The invariants of `GraphRuns` and `GraphEndState` for an execution of `g0` that began
      with budget `b0`. */
  ghost predicate Good(sv: Services, g0: GraphView, b0: Option<B.Budget>, s: Run) {
    && Inv(sv, g0, s)
    && ToolsCounted(sv, s)
    && (b0.Some? ==> BudgetInv(b0.value, s))
    && (b0.None? && s.peers != Replacing ==> s.budget.None? && NoneStuck(s))
  }

  lemma GoodInitially(sv: Services, g0: GraphView, b0: Option<B.Budget>)
    requires AllPending(g0)
    ensures Good(sv, g0, b0, Initial(g0, b0))
  {
    InitialInv(sv, g0, b0);
    assert ToolNodes(sv, Initial(g0, b0)) == {};
    if b0.Some? {
      BudgetInitially(g0, b0.value);
    }
  }

  lemma GoodStep(sv: Services, g0: GraphView, b0: Option<B.Budget>, s: Run, s': Run)
    requires Good(sv, g0, b0, s) && Step(sv, s, s')
    ensures Good(sv, g0, b0, s')
  {
    StepKeepsInv(sv, g0, s, s');
    StepKeepsTools(sv, g0, s, s');
    hide Inv, Step, ToolsCounted, BudgetInv;
    if b0.Some? {
      StepKeepsBudget(sv, g0, b0.value, s, s');
    } else if s'.peers != Replacing {
      StepKeepsNoneStuck(sv, s, s');
    }
  }
}
