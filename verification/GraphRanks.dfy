/** Acyclicity as a ranking of the nodes, and what the depths stored by `add_node`
    (app/reasoning_graph/models.py) are worth when dependencies are named before they exist. */
module GraphRanks {
  import opened Collections
  import opened Wrappers
  import opened ReasoningGraphs

  // ---- Rankings -------------------------------------------------------------------------

  /** Every dependency has a smaller rank. */
  ghost predicate Ranks(g: GraphView, rank: map<Id, nat>) {
    && (forall k :: k in g.nodes ==> k in rank)
    && (forall k, d :: k in g.nodes && d in g.nodes[k].deps ==> d in rank && rank[d] < rank[k])
  }

  ghost predicate HasChain(g: GraphView, k: Id, n: nat) {
    exists p :: Chain(g, p) && p[0] == k && |p| == n
  }

  /** The length of the longest chain from `k` that has at most `n` nodes. */
  ghost function Longest(g: GraphView, k: Id, n: nat): (m: nat)
    ensures m <= n
  {
    if n == 0 || HasChain(g, k, n) then n else Longest(g, k, n - 1)
  }

  ghost function Rank(g: GraphView, k: Id): nat {
    Longest(g, k, |g.nodes|)
  }

  lemma {:induction false} LongestExact(g: GraphView, k: Id, n: nat)
    ensures Longest(g, k, n) > 0 ==> HasChain(g, k, Longest(g, k, n))
    ensures forall m: nat :: m <= n && HasChain(g, k, m) ==> m <= Longest(g, k, n)
  {
    hide HasChain;
    if n > 0 && !HasChain(g, k, n) {
      LongestExact(g, k, n - 1);
    }
  }

  /** A chain of an acyclic graph is no longer than the graph has nodes. */
  lemma ChainFits(g: GraphView, p: seq<Id>)
    requires Acyclic(g) && Chain(g, p)
    ensures |p| <= |g.nodes|
  {
    Pigeonhole(p, g.nodes.Keys);
    assert |g.nodes.Keys| == |g.nodes|;
  }

  lemma ChainExtends(g: GraphView, k: Id, d: Id, n: nat)
    requires Closed(g) && k in g.nodes && d in g.nodes[k].deps && (n == 0 || HasChain(g, d, n))
    ensures n > 0 ==> HasChain(g, k, n + 1)
    ensures HasChain(g, d, 1)
  {
    assert Chain(g, [d]);
    if n > 0 {
      var q :| Chain(g, q) && q[0] == d && |q| == n;
      ChainCons(g, k, q);
      assert ([k] + q)[0] == k;
    }
  }

  lemma RankFalls(g: GraphView, k: Id, d: Id)
    requires Closed(g) && Acyclic(g) && k in g.nodes && d in g.nodes[k].deps
    ensures Rank(g, d) < Rank(g, k)
  {
    var n := Rank(g, d);
    LongestExact(g, d, |g.nodes|);
    LongestExact(g, k, |g.nodes|);
    ChainExtends(g, k, d, n);
    var q :| Chain(g, q) && q[0] == d && |q| == 1;
    ChainFits(g, q);
    assert n >= 1;
    var p :| Chain(g, p) && p[0] == k && |p| == n + 1;
    ChainFits(g, p);
  }

  lemma RanksFall(g: GraphView, k: Id)
    requires Closed(g) && Acyclic(g) && k in g.nodes
    ensures forall d :: d in g.nodes[k].deps ==> d in g.nodes && Rank(g, d) < Rank(g, k)
  {
    forall d | d in g.nodes[k].deps ensures Rank(g, d) < Rank(g, k) {
      RankFalls(g, k, d);
    }
  }

  lemma {:induction false} ChainRanksFall(g: GraphView, rank: map<Id, nat>, p: seq<Id>, i: nat, j: nat)
    requires Ranks(g, rank) && Chain(g, p) && i < j < |p|
    ensures rank[p[j]] < rank[p[i]]
    decreases j
  {
    assert p[j - 1 + 1] in g.nodes[p[j - 1]].deps;
    if i < j - 1 {
      ChainRanksFall(g, rank, p, i, j - 1);
    }
  }

  /** A closed graph can be ranked if and only if it is acyclic. */
  lemma RankedIffAcyclic(g: GraphView)
    requires Closed(g)
    ensures Acyclic(g) <==> exists rank :: Ranks(g, rank)
  {
    if Acyclic(g) {
      var rank := map k | k in g.nodes :: Rank(g, k);
      forall k | k in g.nodes ensures forall d :: d in g.nodes[k].deps ==> d in rank && rank[d] < rank[k] {
        RanksFall(g, k);
      }
      assert Ranks(g, rank);
    }
    if rank :| Ranks(g, rank) {
      forall p | Chain(g, p) ensures Distinct(p) {
        forall i, j | 0 <= i < j < |p| ensures p[i] != p[j] {
          ChainRanksFall(g, rank, p, i, j);
        }
      }
    }
  }

  /** The depths stored for a plan in dependency order are such a ranking. */
  lemma DepthsRank(g: GraphView)
    requires Closed(g) && DepthLocal(g)
    ensures Ranks(g, map k | k in g.nodes :: g.nodes[k].depth)
  {
    forall k | k in g.nodes ensures DepthStep(g, k) {
    }
  }

  // ---- What a stored depth means ----------------------------------------------------------

  /** In a closed graph the stored depths are the longest chain lengths if and only if they
      satisfy the depth equation at every node. */
  lemma DepthExactIff(g: GraphView)
    requires Closed(g)
    ensures DepthExact(g) <==> DepthLocal(g)
  {
    if DepthLocal(g) {
      DepthLocalImpliesExact(g);
    }
    if DepthExact(g) {
      forall k | k in g.nodes ensures DepthStep(g, k) && 1 <= g.nodes[k].depth {
        ExactStep(g, k);
      }
    }
  }

  lemma ExactStep(g: GraphView, k: Id)
    requires Closed(g) && DepthExact(g) && k in g.nodes
    ensures DepthStep(g, k) && 1 <= g.nodes[k].depth
  {
    var p :| Chain(g, p) && p[0] == k && |p| == g.nodes[k].depth;
    forall d | d in g.nodes[k].deps ensures d in g.nodes && g.nodes[d].depth + 1 <= g.nodes[k].depth {
      assert d in g.nodes;
      var q :| Chain(g, q) && q[0] == d && |q| == g.nodes[d].depth;
      ChainCons(g, k, q);
      assert ([k] + q)[0] == k;
    }
    if |p| > 1 {
      var d := p[0 + 1];
      ChainSuffix(g, p, 1);
      assert p[1..][0] == d && d in g.nodes[k].deps && |p[1..]| <= g.nodes[d].depth;
    } else if g.nodes[k].deps != [] {
      assert g.nodes[k].deps[0] in g.nodes;
    }
  }

  /** Where the depth equation holds, the limit bounds every chain. */
  lemma ChainsWithinLimit(plan: seq<Planned>, maxNodes: int, maxDepth: int, p: seq<Id>)
    requires AddAll(plan, |plan|, maxNodes, maxDepth).Success?
    requires var g := AddAll(plan, |plan|, maxNodes, maxDepth).value; DepthLocal(g) && Chain(g, p)
    ensures |p| <= maxDepth
  {
    LimitsHold(plan, |plan|, maxNodes, maxDepth);
    ChainBounded(AddAll(plan, |plan|, maxNodes, maxDepth).value, p);
  }

  /** With forward references it does not: `b` names `c` before `c` exists, and the accepted
      graph is closed and acyclic with a chain longer than the limit. */
  lemma ForwardReferenceExceedsDepth(a: NodeView, b: NodeView, c: NodeView)
      returns (g: GraphView, p: seq<Id>)
    requires a.deps == [] && b.deps == [Id("a"), Id("c")] && c.deps == [Id("a")]
    ensures AddAll([Planned(Id("a"), a), Planned(Id("b"), b), Planned(Id("c"), c)], 3, 50, 2) == Success(g)
    ensures Closed(g) && Acyclic(g) && Chain(g, p) && |p| == 3
  {
    var plan := [Planned(Id("a"), a), Planned(Id("b"), b), Planned(Id("c"), c)];
    var g1 := Insert(EMPTY_GRAPH, Id("a"), a.(depth := 1));
    var g2 := Insert(g1, Id("b"), b.(depth := 2));
    g := Insert(g2, Id("c"), c.(depth := 2));
    DepthsOfThree(a, b, c, g1, g2);
    assert AddAll(plan, 1, 50, 2) == Success(g1) by { assert AddAll(plan, 0, 50, 2) == Success(EMPTY_GRAPH); }
    assert AddAll(plan, 2, 50, 2) == Success(g2);
    assert AddAll(plan, 3, 50, 2) == Success(g);
    hide AddAll, Add, DepthOf;
    p := [Id("b"), Id("c"), Id("a")];
    assert b.deps[1] == Id("c") && c.deps[0] == Id("a");
    assert g.nodes.Keys == {Id("a"), Id("b"), Id("c")};
    var rank := map[Id("a") := 0, Id("c") := 1, Id("b") := 2];
    assert Ranks(g, rank);
    RankedIffAcyclic(g);
  }

  lemma DepthsOfThree(a: NodeView, b: NodeView, c: NodeView, g1: GraphView, g2: GraphView)
    requires a.deps == [] && b.deps == [Id("a"), Id("c")] && c.deps == [Id("a")]
    requires g1 == Insert(EMPTY_GRAPH, Id("a"), a.(depth := 1)) && g2 == Insert(g1, Id("b"), b.(depth := 2))
    ensures Add(EMPTY_GRAPH, Id("a"), a, 50, 2) == Success(g1)
    ensures Add(g1, Id("b"), b, 50, 2) == Success(g2)
    ensures Add(g2, Id("c"), c, 50, 2) == Success(Insert(g2, Id("c"), c.(depth := 2)))
  {
    assert g1.nodes.Keys == {Id("a")} && b.deps[0] == Id("a");
    DepthOfExact(g1, b.deps);
    assert g2.nodes.Keys == {Id("a"), Id("b")} && c.deps[0] == Id("a");
    DepthOfExact(g2, c.deps);
  }
}
