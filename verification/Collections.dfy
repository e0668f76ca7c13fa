/** Types and facts about sequences and sets that several models use. */
module Collections {

  type byte = b: int | 0 <= b < 256

  type Vector = seq<real>

  function Min(a: int, b: int): int {
    if a <= b then a else b
  }

  ghost predicate Distinct<T>(s: seq<T>) {
    forall i, j :: 0 <= i < j < |s| ==> s[i] != s[j]
  }

  lemma DistinctAppend<T>(s: seq<T>, x: T)
    requires Distinct(s) && x !in s
    ensures Distinct(s + [x])
  {
  }

  lemma {:induction false} Pigeonhole<T>(p: seq<T>, keys: set<T>)
    requires Distinct(p) && forall i :: 0 <= i < |p| ==> p[i] in keys
    ensures |p| <= |keys|
  {
    if p != [] {
      var q := p[..|p| - 1];
      assert forall i :: 0 <= i < |q| ==> q[i] in keys - {p[|p| - 1]};
      Pigeonhole(q, keys - {p[|p| - 1]});
    }
  }

  lemma {:induction false} DistinctSize<T>(s: seq<T>)
    requires Distinct(s)
    ensures |set x | x in s| == |s|
  {
    if s != [] {
      var front, last := s[..|s| - 1], s[|s| - 1];
      DistinctSize(front);
      assert last !in front;
      assert (set x | x in s) == (set x | x in front) + {last};
    }
  }

  lemma {:induction false} SubsetSize<T>(a: set<T>, b: set<T>)
    requires a <= b
    ensures |a| <= |b|
  {
    if a != {} {
      var x :| x in a;
      SubsetSize(a - {x}, b - {x});
    }
  }

  /** The positions `ps` of the list `xs`, in order, hold the list `ys`. */
  ghost predicate Picks<T>(ps: seq<nat>, xs: seq<T>, ys: seq<T>) {
    && |ps| == |ys|
    && (forall i :: 0 <= i < |ps| ==> ps[i] < |xs| && ys[i] == xs[ps[i]])
    && (forall i, j :: 0 <= i < j < |ps| ==> ps[i] < ps[j])
  }

  lemma PicksMore<T>(ps: seq<nat>, xs: seq<T>, ys: seq<T>)
    requires xs != [] && Picks(ps, xs[..|xs| - 1], ys)
    ensures Picks(ps, xs, ys) && Picks(ps + [|xs| - 1], xs, ys + [xs[|xs| - 1]])
  {
  }

  /** `ys` is what is left of `xs` when some places are struck out. */
  ghost predicate Subsequence<T(!new)>(ys: seq<T>, xs: seq<T>) {
    exists ps: seq<nat> :: Picks(ps, xs, ys)
  }

  lemma EmptySubsequence<T(!new)>(xs: seq<T>)
    ensures Subsequence([], xs)
  {
    var ps: seq<nat> := [];
    assert Picks(ps, xs, []);
  }

  lemma SubsequenceMore<T(!new)>(xs: seq<T>, ys: seq<T>)
    requires xs != [] && Subsequence(ys, xs[..|xs| - 1])
    ensures Subsequence(ys, xs) && Subsequence(ys + [xs[|xs| - 1]], xs)
  {
    var ps: seq<nat> :| Picks(ps, xs[..|xs| - 1], ys);
    PicksMore(ps, xs, ys);
  }
}
