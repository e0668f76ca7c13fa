/** The reasoning graph of `app/reasoning_graph/models.py` and the loop of
    `app/agents/planner_agent.py` that fills it.

    `ReasoningGraph` and `ReasoningNode` are objects updated in place; `GraphView` and
    `NodeView` are their values, on which the specification functions and lemmas work. */
module ReasoningGraphs {
  import opened Collections
  import opened Wrappers

  datatype Id = Id(name: string)

  datatype NodeStatus = Pending | Running | Completed | Failed

  datatype NodeType = Reasoning | ToolCall | MemoryLookup

  /** `agent` is the entry `metadata["agent"]`. */
  datatype NodeView = NodeView(
    kind: NodeType, task: string, agent: Option<string>, deps: seq<Id>,
    status: NodeStatus, result: Option<string>, depth: int)

  /** `order` is the insertion order of the dictionary. */
  datatype GraphView = GraphView(order: seq<Id>, nodes: map<Id, NodeView>)

  datatype AddError = TooManyNodes | NoKnownDependency | TooDeep

  ghost predicate Ordered(g: GraphView) {
    Distinct(g.order) && forall k :: k in g.order <==> k in g.nodes
  }

  /** Every dependency id names a node of the graph. */
  ghost predicate Closed(g: GraphView) {
    forall k, d :: k in g.nodes && d in g.nodes[k].deps ==> d in g.nodes
  }

  const EMPTY_GRAPH := GraphView([], map[])

  // ---- Inserting a node ---------------------------------------------------------------

  /** The depths `add_node` takes the maximum of; unknown ids are skipped. */
  function KnownDepths(g: GraphView, deps: seq<Id>): seq<int> {
    if deps == [] then []
    else
      var last := deps[|deps| - 1];
      KnownDepths(g, deps[..|deps| - 1]) + if last in g.nodes then [g.nodes[last].depth] else []
  }

  function MaxOf(s: seq<int>): int
    requires s != []
  {
    if |s| == 1 then s[0] else var rest := MaxOf(s[1..]); if s[0] >= rest then s[0] else rest
  }

  /** The depth `add_node` gives a node; `None` when Python's `max` has nothing to look at. */
  function DepthOf(g: GraphView, deps: seq<Id>): Option<int> {
    if deps == [] then Some(1)
    else var known := KnownDepths(g, deps); if known == [] then None else Some(MaxOf(known) + 1)
  }

  lemma {:induction false} KnownDepthsExact(g: GraphView, deps: seq<Id>)
    ensures forall x :: x in KnownDepths(g, deps) ==> exists d :: d in deps && d in g.nodes && g.nodes[d].depth == x
    ensures forall d :: d in deps && d in g.nodes ==> g.nodes[d].depth in KnownDepths(g, deps)
  {
    if deps != [] {
      var front := deps[..|deps| - 1];
      assert deps == front + [deps[|deps| - 1]];
      KnownDepthsExact(g, front);
    }
  }

  lemma {:induction false} MaxOfIsMax(s: seq<int>)
    requires s != []
    ensures MaxOf(s) in s && forall x :: x in s ==> x <= MaxOf(s)
  {
    if |s| > 1 {
      MaxOfIsMax(s[1..]);
      assert forall x :: x in s ==> x == s[0] || x in s[1..];
    }
  }

  /** A node with dependencies is put one below its deepest known dependency; the call fails
      exactly when it names dependencies and knows none of them. */
  lemma DepthOfExact(g: GraphView, deps: seq<Id>)
    ensures DepthOf(g, deps).None? <==> deps != [] && forall d :: d in deps ==> d !in g.nodes
    ensures DepthOf(g, deps).Some? && deps != [] ==>
              var depth := DepthOf(g, deps).value;
              && (exists d :: d in deps && d in g.nodes && depth == g.nodes[d].depth + 1)
              && (forall d :: d in deps && d in g.nodes ==> g.nodes[d].depth < depth)
  {
    KnownDepthsExact(g, deps);
    var known := KnownDepths(g, deps);
    if deps != [] && known != [] {
      MaxOfIsMax(known);
    }
  }

  function Insert(g: GraphView, id: Id, n: NodeView): GraphView {
    GraphView(if id in g.nodes then g.order else g.order + [id], g.nodes[id := n])
  }

  lemma InsertOrdered(g: GraphView, id: Id, n: NodeView)
    requires Ordered(g)
    ensures Ordered(Insert(g, id, n))
  {
    if id !in g.nodes {
      DistinctAppend(g.order, id);
    }
  }

  function Add(g: GraphView, id: Id, n: NodeView, maxNodes: int, maxDepth: int): Result<GraphView, AddError> {
    if |g.nodes| >= maxNodes then Failure(TooManyNodes)
    else match DepthOf(g, n.deps)
      case None => Failure(NoKnownDependency)
      case Some(depth) =>
        if depth > maxDepth then Failure(TooDeep) else Success(Insert(g, id, n.(depth := depth)))
  }

  /** The depth of a new node: one below its deepest known dependency, or 1. */
  ghost predicate IsDepth(g: GraphView, deps: seq<Id>, depth: int) {
    if deps == [] then depth == 1
    else
      && (exists d :: d in deps && d in g.nodes && g.nodes[d].depth + 1 == depth)
      && (forall d :: d in deps && d in g.nodes ==> g.nodes[d].depth + 1 <= depth)
  }

  /** Exactly which insertions are accepted, with which error the others are refused, and what
      an accepted one changes: the node is stored with its depth, in the place of one with its
      id or else at the end. */
  lemma AddExact(g: GraphView, id: Id, n: NodeView, maxNodes: int, maxDepth: int)
    ensures match Add(g, id, n, maxNodes, maxDepth)
            case Success(g') =>
              && |g.nodes| < maxNodes && g'.nodes.Keys == g.nodes.Keys + {id}
              && (forall k :: k in g.nodes && k != id ==> g'.nodes[k] == g.nodes[k])
              && g'.nodes[id] == n.(depth := g'.nodes[id].depth)
              && IsDepth(g, n.deps, g'.nodes[id].depth) && g'.nodes[id].depth <= maxDepth
              && g'.order == if id in g.nodes then g.order else g.order + [id]
            case Failure(TooManyNodes) => |g.nodes| >= maxNodes
            case Failure(NoKnownDependency) =>
              |g.nodes| < maxNodes && n.deps != [] && forall d :: d in n.deps ==> d !in g.nodes
            case Failure(TooDeep) =>
              |g.nodes| < maxNodes && exists depth :: IsDepth(g, n.deps, depth) && depth > maxDepth
  {
    DepthOfExact(g, n.deps);
    assert n.deps == [] ==> DepthOf(g, n.deps) == Some(1);
    hide DepthOf;
    if DepthOf(g, n.deps).Some? {
      assert IsDepth(g, n.deps, DepthOf(g, n.deps).value);
    }
  }

  function Update(g: GraphView, id: Id, status: NodeStatus, result: Option<string>): GraphView
    requires id in g.nodes
  {
    g.(nodes := g.nodes[id := g.nodes[id].(status := status, result := result)])
  }

  // ---- Ready nodes --------------------------------------------------------------------

  /** The generator in `get_ready_nodes`: it stops at the first dependency that is not
      completed, and `None` is the `KeyError` of an id that is not in the graph. */
  function DepsMet(g: GraphView, deps: seq<Id>): (r: Option<bool>)
    ensures r == Some(true) <==> forall d :: d in deps ==> d in g.nodes && g.nodes[d].status == Completed
    ensures (forall d :: d in deps ==> d in g.nodes) ==> r.Some?
  {
    if deps == [] then Some(true)
    else if deps[0] !in g.nodes then None
    else if g.nodes[deps[0]].status != Completed then Some(false)
    else DepsMet(g, deps[1..])
  }

  ghost predicate CompletedIn(g: GraphView, d: Id) {
    d in g.nodes && g.nodes[d].status == Completed
  }

  /** Dependency `i` is not in the graph, and all before it are completed. */
  ghost predicate Missing(g: GraphView, deps: seq<Id>, i: int) {
    0 <= i < |deps| && deps[i] !in g.nodes && forall j :: 0 <= j < i ==> CompletedIn(g, deps[j])
  }

  lemma {:induction false} DepsMetExact(g: GraphView, deps: seq<Id>)
    ensures DepsMet(g, deps) == None <==> exists i :: Missing(g, deps, i)
  {
    if deps != [] && CompletedIn(g, deps[0]) {
      var rest := deps[1..];
      DepsMetExact(g, rest);
      if i :| Missing(g, rest, i) {
        assert forall j :: 0 < j <= i ==> deps[j] == rest[j - 1];
        assert Missing(g, deps, i + 1);
      }
      if i :| Missing(g, deps, i) {
        assert Missing(g, rest, i - 1);
      }
    } else if deps != [] && deps[0] !in g.nodes {
      assert Missing(g, deps, 0);
    }
  }

  /** What the scan of the first `n` nodes collects; `None` is the `KeyError`. */
  function ReadyUpTo(g: GraphView, n: nat): Option<seq<Id>>
    requires n <= |g.order| && forall k :: k in g.order ==> k in g.nodes
  {
    if n == 0 then Some([])
    else match ReadyUpTo(g, n - 1)
      case None => None
      case Some(r) =>
        var node := g.nodes[g.order[n - 1]];
        if node.status != Pending then Some(r)
        else match DepsMet(g, node.deps)
          case None => None
          case Some(met) => Some(if met then r + [g.order[n - 1]] else r)
  }

  ghost predicate IsReady(g: GraphView, id: Id) {
    id in g.nodes && g.nodes[id].status == Pending
    && forall d :: d in g.nodes[id].deps ==> d in g.nodes && g.nodes[d].status == Completed
  }

  /** The scan stops at this node: a dependency that is not in the graph comes before any that
      is not completed. */
  ghost predicate Breaks(g: GraphView, id: Id) {
    id in g.nodes && g.nodes[id].status == Pending && exists i :: Missing(g, g.nodes[id].deps, i)
  }

  /** The scan returns exactly the ready nodes, each once and in insertion order, and on a
      closed graph it never fails. */
  lemma {:induction false} ReadyExact(g: GraphView, n: nat)
    requires Ordered(g) && n <= |g.order|
    ensures Closed(g) ==> ReadyUpTo(g, n).Some?
    ensures ReadyUpTo(g, n).Some? ==>
              var r := ReadyUpTo(g, n).value;
              && Distinct(r)
              && (forall id :: id in r <==> IsReady(g, id) && id in g.order[..n])
  {
    if n > 0 {
      ReadyExact(g, n - 1);
      assert g.order[..n] == g.order[..n - 1] + [g.order[n - 1]];
      assert g.order[n - 1] !in g.order[..n - 1];
    }
  }

  lemma {:induction false} ReadyInOrder(g: GraphView, n: nat)
    requires Ordered(g) && n <= |g.order| && ReadyUpTo(g, n).Some?
    ensures Subsequence(ReadyUpTo(g, n).value, g.order[..n])
  {
    hide Subsequence, DepsMet;
    if n == 0 {
      EmptySubsequence(g.order[..0]);
    } else {
      ReadyInOrder(g, n - 1);
      assert g.order[..n][..n - 1] == g.order[..n - 1];
      SubsequenceMore(g.order[..n], ReadyUpTo(g, n - 1).value);
    }
  }

  /** The scan fails if and only if it comes to a node that stops it. */
  lemma {:induction false} ScanFailsIff(g: GraphView, n: nat)
    requires Ordered(g) && n <= |g.order|
    ensures ReadyUpTo(g, n).None? <==> exists m :: 0 <= m < n && Breaks(g, g.order[m])
  {
    hide DepsMet, Missing;
    if n > 0 {
      ScanFailsIff(g, n - 1);
      DepsMetExact(g, g.nodes[g.order[n - 1]].deps);
      assert g.order[n - 1] in g.order;
    }
  }

  // ---- Depth and acyclicity -----------------------------------------------------------

  /** A dependency chain: each node depends on the next. */
  ghost predicate Chain(g: GraphView, p: seq<Id>) {
    && p != []
    && (forall i :: 0 <= i < |p| ==> p[i] in g.nodes)
    && (forall i :: 0 <= i < |p| - 1 ==> p[i + 1] in g.nodes[p[i]].deps)
  }

  ghost predicate Acyclic(g: GraphView) {
    forall p :: Chain(g, p) ==> Distinct(p)
  }

  /** The stored depth is the length of the longest chain starting at the node. */
  ghost predicate DepthExact(g: GraphView) {
    forall k :: k in g.nodes ==>
      && (forall p :: Chain(g, p) && p[0] == k ==> |p| <= g.nodes[k].depth)
      && (exists p :: Chain(g, p) && p[0] == k && |p| == g.nodes[k].depth)
  }

  /** One level of the depth equation. */
  ghost predicate DepthStep(g: GraphView, k: Id)
    requires k in g.nodes
  {
    var n := g.nodes[k];
    && (n.deps == [] ==> n.depth == 1)
    && (n.deps != [] ==> exists d :: d in n.deps && d in g.nodes && n.depth == g.nodes[d].depth + 1)
    && (forall d :: d in n.deps && d in g.nodes ==> g.nodes[d].depth < n.depth)
  }

  ghost predicate DepthLocal(g: GraphView) {
    && (forall k :: k in g.nodes ==> 1 <= g.nodes[k].depth)
    && (forall k {:trigger DepthStep(g, k)} :: k in g.nodes ==> DepthStep(g, k))
  }

  lemma {:induction false} ChainBounded(g: GraphView, p: seq<Id>)
    requires DepthLocal(g) && Chain(g, p)
    ensures |p| <= g.nodes[p[0]].depth
    ensures forall j :: 0 < j < |p| ==> g.nodes[p[j]].depth < g.nodes[p[0]].depth
    decreases |p|
  {
    if |p| > 1 {
      var q := p[1..];
      assert forall i :: 0 <= i < |q| ==> q[i] == p[i + 1];
      assert Chain(g, q);
      ChainBounded(g, q);
      assert DepthStep(g, p[0]) && p[1] in g.nodes[p[0]].deps;
      forall j | 0 < j < |p| ensures g.nodes[p[j]].depth < g.nodes[p[0]].depth {
        assert p[j] == q[j - 1];
      }
    }
  }

  lemma ChainCons(g: GraphView, k: Id, q: seq<Id>)
    requires q != [] && Chain(g, q) && k in g.nodes && q[0] in g.nodes[k].deps
    ensures Chain(g, [k] + q)
  {
    var p := [k] + q;
    assert forall i :: 0 < i < |p| ==> p[i] == q[i - 1];
  }

  lemma Deepest(g: GraphView, k: Id) returns (d: Id)
    requires Closed(g) && DepthLocal(g) && k in g.nodes && g.nodes[k].deps != []
    ensures d in g.nodes[k].deps && d in g.nodes && g.nodes[k].depth == g.nodes[d].depth + 1 && 1 <= g.nodes[d].depth
  {
    assert DepthStep(g, k);
    d :| d in g.nodes[k].deps && d in g.nodes && g.nodes[k].depth == g.nodes[d].depth + 1;
  }

  lemma ChainOne(g: GraphView, k: Id)
    requires DepthLocal(g) && k in g.nodes
    ensures Chain(g, [k]) && (g.nodes[k].deps == [] ==> g.nodes[k].depth == 1)
  {
    assert DepthStep(g, k);
  }

  lemma {:induction false} LongestChain(g: GraphView, k: Id) returns (p: seq<Id>)
    requires Closed(g) && DepthLocal(g) && k in g.nodes
    ensures p != [] && Chain(g, p) && p[0] == k && |p| == g.nodes[k].depth
    decreases g.nodes[k].depth
  {
    hide Closed, DepthLocal, DepthStep, Chain;
    if g.nodes[k].deps == [] {
      ChainOne(g, k);
      p := [k];
    } else {
      var d := Deepest(g, k);
      var q := LongestChain(g, d);
      assert q != [] && q[0] == d;
      ChainCons(g, k, q);
      p := [k] + q;
    }
  }

  lemma ChainSuffix(g: GraphView, p: seq<Id>, i: nat)
    requires Chain(g, p) && i < |p|
    ensures Chain(g, p[i..])
  {
    var q := p[i..];
    assert forall j :: 0 <= j < |q| ==> q[j] == p[i + j];
    forall j | 0 <= j < |q| - 1 ensures q[j + 1] in g.nodes[q[j]].deps {
      assert q[j] == p[i + j] && q[j + 1] == p[i + j + 1];
    }
  }

  lemma DepthLocalImpliesExact(g: GraphView)
    requires Closed(g) && DepthLocal(g)
    ensures DepthExact(g) && Acyclic(g)
  {
    forall k | k in g.nodes
      ensures forall p :: Chain(g, p) && p[0] == k ==> |p| <= g.nodes[k].depth
      ensures exists p :: Chain(g, p) && p[0] == k && |p| == g.nodes[k].depth
    {
      forall p | Chain(g, p) && p[0] == k ensures |p| <= g.nodes[k].depth {
        ChainBounded(g, p);
      }
      var p := LongestChain(g, k);
    }
    forall p | Chain(g, p) ensures Distinct(p) {
      forall i, j | 0 <= i < j < |p| ensures p[i] != p[j] {
        ChainSuffix(g, p, i);
        ChainBounded(g, p[i..]);
        assert p[i..][j - i] == p[j];
      }
    }
  }

  /** One call with a fresh id and every dependency present keeps the graph closed and its
      depths exact. */
  lemma AddKeepsDepths(g: GraphView, id: Id, n: NodeView, maxNodes: int, maxDepth: int)
    requires Ordered(g) && Closed(g) && DepthLocal(g)
    requires id !in g.nodes && forall d :: d in n.deps ==> d in g.nodes
    requires Add(g, id, n, maxNodes, maxDepth).Success?
    ensures var g' := Add(g, id, n, maxNodes, maxDepth).value;
            Ordered(g') && Closed(g') && DepthLocal(g') && g'.nodes.Keys == g.nodes.Keys + {id}
  {
    var g' := Add(g, id, n, maxNodes, maxDepth).value;
    var depth := DepthOf(g, n.deps).value;
    assert g' == Insert(g, id, n.(depth := depth));
    hide Ordered, Closed, DepthLocal, DepthOf, Add, Insert;
    InsertKeepsClosed(g, id, n.(depth := depth));
    InsertKeepsDepths(g, id, n, depth);
  }

  lemma InsertKeepsClosed(g: GraphView, id: Id, n: NodeView)
    requires Ordered(g) && Closed(g) && id !in g.nodes && forall d :: d in n.deps ==> d in g.nodes
    ensures var g' := Insert(g, id, n); Ordered(g') && Closed(g') && g'.nodes.Keys == g.nodes.Keys + {id}
  {
    DistinctAppend(g.order, id);
  }

  lemma InsertKeepsDepths(g: GraphView, id: Id, n: NodeView, depth: int)
    requires Closed(g) && DepthLocal(g) && id !in g.nodes && DepthOf(g, n.deps) == Some(depth)
    requires forall d :: d in n.deps ==> d in g.nodes
    ensures DepthLocal(Insert(g, id, n.(depth := depth)))
  {
    var g' := Insert(g, id, n.(depth := depth));
    NewNodeStep(g, g', id, n, depth);
    hide DepthStep, DepthOf;
    forall k | k in g.nodes ensures DepthStep(g', k) && 1 <= g'.nodes[k].depth {
      OldNodeKeepsStep(g, g', id, k);
    }
  }

  lemma NewNodeStep(g: GraphView, g': GraphView, id: Id, n: NodeView, depth: int)
    requires DepthLocal(g) && id !in g.nodes && DepthOf(g, n.deps) == Some(depth)
    requires forall d :: d in n.deps ==> d in g.nodes
    requires g' == Insert(g, id, n.(depth := depth))
    ensures 1 <= depth && DepthStep(g', id)
  {
    DepthOfExact(g, n.deps);
    if n.deps == [] {
      assert depth == 1;
    } else {
      hide DepthOf;
      var d :| d in n.deps && d in g.nodes && depth == g.nodes[d].depth + 1;
      assert g'.nodes[d] == g.nodes[d] && DepthStep(g, d);
    }
  }

  lemma OldNodeKeepsStep(g: GraphView, g': GraphView, id: Id, k: Id)
    requires Closed(g) && DepthLocal(g) && id !in g.nodes && k in g.nodes
    requires id in g'.nodes && g'.nodes == g.nodes[id := g'.nodes[id]]
    ensures DepthStep(g', k) && 1 <= g'.nodes[k].depth
  {
    assert DepthStep(g, k) && g'.nodes[k] == g.nodes[k];
    if g.nodes[k].deps != [] {
      var d :| d in g.nodes[k].deps && d in g.nodes && g.nodes[k].depth == g.nodes[d].depth + 1;
      assert g'.nodes[d] == g.nodes[d];
    }
  }

  /** With a fresh id the guard is exact: the call keeps the graph closed and acyclic if and
      only if every dependency was already present. */
  lemma AddClosedIff(g: GraphView, id: Id, n: NodeView, maxNodes: int, maxDepth: int)
    requires Ordered(g) && Closed(g) && DepthLocal(g) && id !in g.nodes
    requires Add(g, id, n, maxNodes, maxDepth).Success?
    ensures var g' := Add(g, id, n, maxNodes, maxDepth).value;
            (Closed(g') && Acyclic(g')) <==> (forall d :: d in n.deps ==> d in g.nodes)
  {
    var g' := Add(g, id, n, maxNodes, maxDepth).value;
    if forall d :: d in n.deps ==> d in g.nodes {
      AddKeepsDepths(g, id, n, maxNodes, maxDepth);
      DepthLocalImpliesExact(g');
    } else {
      var d :| d in n.deps && d !in g.nodes;
      if d == id {
        assert Chain(g', [id, id]);
        assert [id, id][0] == [id, id][1];
        assert !Distinct([id, id]);
      } else {
        assert id in g'.nodes && d in g'.nodes[id].deps && d !in g'.nodes;
      }
    }
  }

  /** A forward reference is accepted as long as one dependency is known, and can close a
      cycle: `b` names `c` before `c` exists, and `c` then names `b`. */
  lemma ForwardReferenceMakesCycle(a: NodeView, b: NodeView, c: NodeView)
    requires a.deps == [] && b.deps == [Id("a"), Id("c")] && c.deps == [Id("b")]
    ensures var g1 := Add(EMPTY_GRAPH, Id("a"), a, 50, 10);
            && g1.Success?
            && var g2 := Add(g1.value, Id("b"), b, 50, 10);
            && g2.Success?
            && var g3 := Add(g2.value, Id("c"), c, 50, 10);
            && g3.Success? && Closed(g3.value) && !Acyclic(g3.value)
  {
    var g1 := Insert(EMPTY_GRAPH, Id("a"), a.(depth := 1));
    assert Add(EMPTY_GRAPH, Id("a"), a, 50, 10) == Success(g1);
    var g2 := Insert(g1, Id("b"), b.(depth := 2));
    assert Add(g1, Id("b"), b, 50, 10) == Success(g2) by {
      assert g1.nodes.Keys == {Id("a")} && b.deps[0] == Id("a");
      DepthOfExact(g1, b.deps);
    }
    var g3 := Insert(g2, Id("c"), c.(depth := 3));
    assert Add(g2, Id("c"), c, 50, 10) == Success(g3) by {
      assert g2.nodes.Keys == {Id("a"), Id("b")} && c.deps[0] == Id("b");
      DepthOfExact(g2, c.deps);
    }
    var p := [Id("b"), Id("c"), Id("b")];
    assert Chain(g3, p) by {
      assert b.deps[1] == Id("c") && c.deps[0] == Id("b");
    }
    assert p[0] == p[2];
  }

  // ---- Runs of insertions ---------------------------------------------------------------

  datatype Planned = Planned(id: Id, node: NodeView)

  /** The planner's loop over its node list. */
  function AddAll(plan: seq<Planned>, n: nat, maxNodes: int, maxDepth: int): Result<GraphView, AddError>
    requires n <= |plan|
  {
    if n == 0 then Success(EMPTY_GRAPH)
    else match AddAll(plan, n - 1, maxNodes, maxDepth)
      case Failure(e) => Failure(e)
      case Success(g) => Add(g, plan[n - 1].id, plan[n - 1].node, maxNodes, maxDepth)
  }

  /** Ids are fresh and every dependency is planned earlier. */
  ghost predicate InDependencyOrder(plan: seq<Planned>) {
    && (forall i, j :: 0 <= i < j < |plan| ==> plan[i].id != plan[j].id)
    && (forall i, d :: 0 <= i < |plan| && d in plan[i].node.deps ==>
          exists j :: 0 <= j < i && plan[j].id == d)
  }

  /** Whatever the plan, a graph that was built respects both limits. */
  lemma {:induction false} LimitsHold(plan: seq<Planned>, n: nat, maxNodes: int, maxDepth: int)
    requires n <= |plan| && AddAll(plan, n, maxNodes, maxDepth).Success?
    ensures var g := AddAll(plan, n, maxNodes, maxDepth).value;
            && Ordered(g)
            && (n > 0 ==> |g.nodes| <= maxNodes)
            && (forall k :: k in g.nodes ==> 1 <= g.nodes[k].depth <= maxDepth)
  {
    if n > 0 {
      LimitsHold(plan, n - 1, maxNodes, maxDepth);
      var g0 := AddAll(plan, n - 1, maxNodes, maxDepth).value;
      var p := plan[n - 1];
      assert AddAll(plan, n, maxNodes, maxDepth) == Add(g0, p.id, p.node, maxNodes, maxDepth);
      hide Add, AddAll;
      AddKeepsLimits(g0, p.id, p.node, maxNodes, maxDepth);
    }
  }

  lemma AddKeepsLimits(g: GraphView, id: Id, n: NodeView, maxNodes: int, maxDepth: int)
    requires Ordered(g) && (forall k :: k in g.nodes ==> 1 <= g.nodes[k].depth <= maxDepth)
    requires Add(g, id, n, maxNodes, maxDepth).Success?
    ensures var g' := Add(g, id, n, maxNodes, maxDepth).value;
            && Ordered(g') && |g'.nodes| <= maxNodes
            && (forall k :: k in g'.nodes ==> 1 <= g'.nodes[k].depth <= maxDepth)
  {
    DepthOfExact(g, n.deps);
    assert n.deps == [] ==> DepthOf(g, n.deps) == Some(1);
    hide DepthOf, Ordered;
    var node := n.(depth := DepthOf(g, n.deps).value);
    InsertOrdered(g, id, node);
    InsertSize(g, id, node);
    assert 1 <= node.depth <= maxDepth;
  }

  lemma InsertSize(g: GraphView, id: Id, n: NodeView)
    ensures |Insert(g, id, n).nodes| <= |g.nodes| + 1
  {
    var g' := Insert(g, id, n);
    assert g'.nodes.Keys == g.nodes.Keys + {id};
    assert |g'.nodes| == |g'.nodes.Keys| && |g.nodes| == |g.nodes.Keys|;
  }

  /** A plan in dependency order that is accepted yields a closed acyclic graph whose stored
      depths are the longest chain lengths. */
  lemma OrderedPlanIsDag(plan: seq<Planned>, maxNodes: int, maxDepth: int)
    requires InDependencyOrder(plan) && AddAll(plan, |plan|, maxNodes, maxDepth).Success?
    ensures var g := AddAll(plan, |plan|, maxNodes, maxDepth).value;
            Ordered(g) && Closed(g) && DepthExact(g) && Acyclic(g)
  {
    OrderedPrefix(plan, |plan|, maxNodes, maxDepth);
    DepthLocalImpliesExact(AddAll(plan, |plan|, maxNodes, maxDepth).value);
  }

  lemma {:induction false} OrderedPrefix(plan: seq<Planned>, n: nat, maxNodes: int, maxDepth: int)
    requires n <= |plan| && InDependencyOrder(plan) && AddAll(plan, n, maxNodes, maxDepth).Success?
    ensures var g := AddAll(plan, n, maxNodes, maxDepth).value;
            && Ordered(g) && Closed(g) && DepthLocal(g)
            && (forall k :: k in g.nodes <==> PlannedBefore(plan, n, k))
  {
    if n > 0 {
      hide InDependencyOrder, DepthLocal, Closed, Ordered, Add;
      OrderedPrefix(plan, n - 1, maxNodes, maxDepth);
      var g0 := AddAll(plan, n - 1, maxNodes, maxDepth).value;
      var id, node := plan[n - 1].id, plan[n - 1].node;
      NextIsFresh(plan, n);
      AddKeepsDepths(g0, id, node, maxNodes, maxDepth);
      var g := AddAll(plan, n, maxNodes, maxDepth).value;
      PlannedStep(plan, n);
    }
  }

  lemma NextIsFresh(plan: seq<Planned>, n: nat)
    requires 0 < n <= |plan| && InDependencyOrder(plan)
    ensures !PlannedBefore(plan, n - 1, plan[n - 1].id)
    ensures var deps := plan[n - 1].node.deps; forall d :: d in deps ==> PlannedBefore(plan, n - 1, d)
  {
  }

  ghost predicate PlannedBefore(plan: seq<Planned>, n: nat, k: Id)
    requires n <= |plan|
  {
    exists i :: 0 <= i < n && plan[i].id == k
  }

  lemma PlannedStep(plan: seq<Planned>, n: nat)
    requires 0 < n <= |plan|
    ensures forall k :: PlannedBefore(plan, n, k) <==> PlannedBefore(plan, n - 1, k) || plan[n - 1].id == k
  {
  }

  // ---- The objects ------------------------------------------------------------------------

  class ReasoningNode {
    const id: Id
    const kind: NodeType
    const task: string
    const agent: Option<string>
    const dependencies: seq<Id>
    var result: Option<string>
    var status: NodeStatus
    var depth: int

    function View(): NodeView
      reads this
    {
      NodeView(kind, task, agent, dependencies, status, result, depth)
    }

    constructor (id: Id, kind: NodeType, task: string, agent: Option<string>, dependencies: seq<Id>,
                 result: Option<string> := None, status: NodeStatus := Pending, depth: int := 0)
      ensures this.id == id && View() == NodeView(kind, task, agent, dependencies, status, result, depth)
    {
      this.id, this.kind, this.task, this.agent := id, kind, task, agent;
      this.dependencies := dependencies;
      this.result, this.status, this.depth := result, status, depth;
    }
  }

  lemma UpdatedValues<K, V>(m: map<K, V>, k: K, v: V)
    ensures forall x :: x in m[k := v].Values ==> x == v || x in m.Values
  {
  }

  class ReasoningGraph {
    const maxNodes: int
    const maxDepth: int
    var order: seq<Id>
    var nodes: map<Id, ReasoningNode>
    ghost var view: GraphView  // the value of the graph

    ghost predicate Valid()
      reads this, nodes.Values
    {
      && Ordered(view)
      && view.order == order && view.nodes.Keys == nodes.Keys
      && (forall k :: k in nodes ==> nodes[k].id == k && view.nodes[k] == nodes[k].View())
    }

    constructor (maxNodes: int := 50, maxDepth: int := 10)
      ensures Valid() && view == EMPTY_GRAPH && nodes == map[]
      ensures this.maxNodes == maxNodes && this.maxDepth == maxDepth
    {
      this.maxNodes, this.maxDepth := maxNodes, maxDepth;
      order, nodes, view := [], map[], EMPTY_GRAPH;
    }

    /** A rejected node may still have had its depth written, as in the source. */
    method AddNode(node: ReasoningNode) returns (error: Option<AddError>)
      requires Valid() && node !in nodes.Values
      modifies this, node`depth
      ensures Valid() && (forall x :: x in nodes.Values ==> x == node || x in old(nodes.Values))
      ensures match Add(old(view), node.id, old(node.View()), maxNodes, maxDepth)
              case Success(g) => error == None && view == g
              case Failure(e) => error == Some(e) && view == old(view)
    {
      assert |view.nodes| == |view.nodes.Keys| && |nodes| == |nodes.Keys|;
      if |nodes| >= maxNodes {
        return Some(TooManyNodes);
      }
      var depth := DepthFor(node.dependencies);
      if depth == None {
        return Some(NoKnownDependency);
      }
      node.depth := depth.value;
      assert forall k :: k in nodes ==> nodes[k] != node;
      if node.depth > maxDepth {
        return Some(TooDeep);
      }
      Store(node);
      return None;
    }

    /** The dictionary assignment: a known id keeps its place in the order. */
    method Store(node: ReasoningNode)
      requires Valid() && node !in nodes.Values
      modifies this
      ensures Valid() && (forall x :: x in nodes.Values ==> x == node || x in old(nodes.Values))
      ensures view == Insert(old(view), node.id, node.View())
    {
      ghost var inserted := Insert(view, node.id, node.View());
      InsertOrdered(view, node.id, node.View());
      assert inserted.nodes == view.nodes[node.id := node.View()];
      assert inserted.order == if node.id in nodes then order else order + [node.id];
      hide Ordered, Insert, Distinct, ReasoningNode.View;
      order := if node.id in nodes then order else order + [node.id];
      UpdatedValues(nodes, node.id, node);
      nodes := nodes[node.id := node];
      view := inserted;
      assert forall k :: k in nodes ==> nodes[k].id == k && view.nodes[k] == nodes[k].View();
    }

    /** The generator inside `max`. */
    method DepthFor(deps: seq<Id>) returns (depth: Option<int>)
      requires Valid()
      ensures depth == DepthOf(view, deps)
    {
      if deps == [] {
        return Some(1);
      }
      var known := [];
      for i := 0 to |deps|
        invariant known == KnownDepths(view, deps[..i])
      {
        assert deps[..i + 1][..i] == deps[..i];
        if deps[i] in nodes {
          known := known + [nodes[deps[i]].depth];
        }
      }
      assert deps[..|deps|] == deps;
      depth := if known == [] then None else Some(MaxOf(known) + 1);
    }

    /** The generator inside `all`. */
    method AllCompleted(deps: seq<Id>) returns (met: Option<bool>)
      requires Valid()
      ensures met == DepsMet(view, deps)
    {
      for i := 0 to |deps|
        invariant DepsMet(view, deps) == DepsMet(view, deps[i..])
      {
        if deps[i] !in nodes {
          return None;
        }
        if nodes[deps[i]].status != Completed {
          return Some(false);
        }
        assert deps[i..][1..] == deps[i + 1..];
      }
      return Some(true);
    }

    /** `None` is the `KeyError`. */
    method GetReadyNodes() returns (ready: Option<seq<ReasoningNode>>)
      requires Valid()
      ensures ready.Some? == ReadyUpTo(view, |order|).Some?
      ensures ready.Some? ==>
                && |ready.value| == |ReadyUpTo(view, |order|).value|
                && (forall i :: 0 <= i < |ready.value| ==>
                      ready.value[i] in nodes.Values && ready.value[i].id == ReadyUpTo(view, |order|).value[i])
    {
      var found: seq<ReasoningNode> := [];
      for i := 0 to |order|
        invariant ReadyUpTo(view, i).Some? && |found| == |ReadyUpTo(view, i).value|
        invariant forall j :: 0 <= j < |found| ==>
                    found[j] in nodes.Values && found[j].id == ReadyUpTo(view, i).value[j]
      {
        var node := nodes[order[i]];
        if node.status == Pending {
          var met := AllCompleted(node.dependencies);
          if met == None {
            ReadyStaysNone(view, i + 1, |order|);
            return None;
          }
          if met.value {
            found := found + [node];
          }
        }
      }
      return Some(found);
    }

    /** One node's status and result change in place. */
    method Mark(node: ReasoningNode, status: NodeStatus, result: Option<string>)
      requires Valid() && node.id in nodes && nodes[node.id] == node
      modifies node`status, node`result, this`view
      ensures Valid() && node.id in old(view).nodes && view == Update(old(view), node.id, status, result)
    {
      view := Update(view, node.id, status, result);
      node.status := status;
      node.result := result;
    }

    predicate IsComplete()
      reads this, nodes.Values
    {
      forall k :: k in nodes ==> nodes[k].status == Completed
    }
  }

  lemma ReadyStaysNone(g: GraphView, m: nat, n: nat)
    requires m <= n <= |g.order| && (forall k :: k in g.order ==> k in g.nodes) && ReadyUpTo(g, m).None?
    ensures ReadyUpTo(g, n).None?
    decreases n
  {
    if m < n {
      ReadyStaysNone(g, m, n - 1);
    }
  }

  /** The planner's fallback plan: one node that asks the query itself. */
  function FallbackGraph(query: string): GraphView {
    GraphView([Id("fallback")], map[Id("fallback") := NodeView(Reasoning, query, None, [], Pending, None, 1)])
  }

  /** The insertion loop of `plan`, for whatever node list the LLM's reply parsed to. */
  method BuildPlan(plan: seq<Planned>, query: string) returns (graph: ReasoningGraph)
    ensures fresh(graph) && graph.Valid() && fresh(graph.nodes.Values)
    ensures graph.view == match AddAll(plan, |plan|, 50, 10)
                            case Success(g) => g
                            case Failure(_) => FallbackGraph(query)
  {
    hide Add, AddAll, Ordered;
    graph := new ReasoningGraph();
    AddAllNone(plan);
    for i := 0 to |plan|
      invariant fresh(graph) && graph.Valid() && fresh(graph.nodes.Values)
      invariant graph.maxNodes == 50 && graph.maxDepth == 10
      invariant AddAll(plan, i, 50, 10) == Success(graph.view)
    {
      AddAllNext(plan, i, graph.view);
      var error := AddPlanned(graph, plan[i]);
      if error.Some? {
        AddAllFails(plan, i + 1, |plan|, 50, 10);
        graph := Fallback(query);
        return;
      }
    }
  }

  lemma AddAllNone(plan: seq<Planned>)
    ensures AddAll(plan, 0, 50, 10) == Success(EMPTY_GRAPH)
  {
  }

  lemma AddAllNext(plan: seq<Planned>, i: nat, g: GraphView)
    requires i < |plan| && AddAll(plan, i, 50, 10) == Success(g)
    ensures AddAll(plan, i + 1, 50, 10) == Add(g, plan[i].id, plan[i].node, 50, 10)
  {
  }

  method AddPlanned(graph: ReasoningGraph, p: Planned) returns (error: Option<AddError>)
    requires graph.Valid()
    modifies graph
    ensures graph.Valid() && fresh(graph.nodes.Values - old(graph.nodes.Values))
    ensures match Add(old(graph.view), p.id, p.node, graph.maxNodes, graph.maxDepth)
            case Success(g) => error == None && graph.view == g
            case Failure(e) => error == Some(e) && graph.view == old(graph.view)
  {
    var node := new ReasoningNode(p.id, p.node.kind, p.node.task, p.node.agent, p.node.deps,
                                p.node.result, p.node.status, p.node.depth);
    error := graph.AddNode(node);
  }

  method Fallback(query: string) returns (graph: ReasoningGraph)
    ensures fresh(graph) && graph.Valid() && fresh(graph.nodes.Values)
    ensures graph.view == FallbackGraph(query)
  {
    graph := new ReasoningGraph();
    var node := new ReasoningNode(Id("fallback"), Reasoning, query, None, []);
    var error := graph.AddNode(node);
  }

  lemma AddAllFails(plan: seq<Planned>, m: nat, n: nat, maxNodes: int, maxDepth: int)
    requires m <= n <= |plan| && AddAll(plan, m, maxNodes, maxDepth).Failure?
    ensures AddAll(plan, n, maxNodes, maxDepth).Failure?
    decreases n
  {
    if m < n {
      AddAllFails(plan, m, n - 1, maxNodes, maxDepth);
    }
  }
}
