/** The maintenance pipeline of `app/vector_memory/maintenance.py` on the store of
    `app/vector_memory/faiss_store.py`: an index of vectors and a list of records kept
    position by position in step. */
module VectorMaintenance {
  import opened Collections
  import opened Wrappers

  /** `timestamp` is absent when it does not parse; such memories are kept. */
  datatype Memory = Memory(id: string, text: string, timestamp: Option<real>, compressed: bool)

  /** The two files. */
  datatype Store = Store(index: Option<seq<Vector>>, memories: seq<Memory>)

  /** `embed` is the embedding service and `dot` the inner product. */
  datatype Settings = Settings(
    embed: string -> Vector, dot: (Vector, Vector) -> real, threshold: real, staleDays: real, compressDays: real)

  // ---- Near-duplicates ------------------------------------------------------------------

  /** Vector `j` is dropped: an earlier kept one is at least as similar as the threshold. */
  predicate Duplicate(c: Settings, vs: seq<Vector>, j: nat)
    requires j < |vs|
    decreases j
  {
    exists i :: 0 <= i < j && !Duplicate(c, vs, i) && (c.dot)(vs[i], vs[j]) >= c.threshold
  }

  /** What is kept of the first `n` elements. */
  function Kept<T>(c: Settings, vs: seq<Vector>, xs: seq<T>, n: nat): seq<T>
    requires n <= |vs| == |xs|
  {
    if n == 0 then []
    else Kept(c, vs, xs, n - 1) + if Duplicate(c, vs, n - 1) then [] else [xs[n - 1]]
  }

  /** Being pairwise below the threshold, and accounting for every dropped vector by an
      earlier kept one, leaves no choice: the greedy pass is the only such selection. */
  lemma {:induction false} SelectionUnique(c: Settings, vs: seq<Vector>, drop: set<nat>, j: nat)
    requires j < |vs|
    requires forall a, b :: 0 <= a < b < |vs| && a !in drop && b !in drop ==> (c.dot)(vs[a], vs[b]) < c.threshold
    requires forall b :: 0 <= b < |vs| && b in drop ==>
               exists a :: 0 <= a < b && a !in drop && (c.dot)(vs[a], vs[b]) >= c.threshold
    ensures j in drop <==> Duplicate(c, vs, j)
    decreases j
  {
    forall i | 0 <= i < j ensures i in drop <==> Duplicate(c, vs, i) {
      SelectionUnique(c, vs, drop, i);
    }
  }

  /** The kept vectors keep their order and are pairwise below the threshold. */
  lemma {:induction false} KeptSeparated(c: Settings, vs: seq<Vector>, n: nat)
    requires n <= |vs|
    ensures var ks := Kept(c, vs, vs, n);
            && (forall v :: v in ks ==> exists i :: 0 <= i < n && vs[i] == v && !Duplicate(c, vs, i))
            && Separated(c, ks)
  {
    if n > 0 {
      KeptSeparated(c, vs, n - 1);
      var ks := Kept(c, vs, vs, n - 1);
      if !Duplicate(c, vs, n - 1) {
        forall a | 0 <= a < |ks| ensures (c.dot)(ks[a], vs[n - 1]) < c.threshold {
          assert ks[a] in ks;
        }
      }
    }
  }

  ghost predicate Separated(c: Settings, vs: seq<Vector>) {
    forall a, b :: 0 <= a < b < |vs| ==> (c.dot)(vs[a], vs[b]) < c.threshold
  }

  /** On separated vectors nothing is dropped. */
  lemma {:induction false} SeparatedKept<T>(c: Settings, vs: seq<Vector>, xs: seq<T>, n: nat)
    requires n <= |vs| == |xs| && Separated(c, vs)
    ensures Kept(c, vs, xs, n) == xs[..n]
  {
    if n > 0 {
      SeparatedKept(c, vs, xs, n - 1);
      assert !Duplicate(c, vs, n - 1);
    }
  }

  lemma {:induction false} KeptAll<T>(c: Settings, vs: seq<Vector>, xs: seq<T>, n: nat)
    requires n <= |vs| == |xs|
    ensures |Kept(c, vs, xs, n)| <= n
    ensures |Kept(c, vs, xs, n)| == n ==> Kept(c, vs, xs, n) == xs[..n]
  {
    if n > 0 {
      KeptAll(c, vs, xs, n - 1);
    }
  }

  // ---- The pipeline ---------------------------------------------------------------------

  predicate IsFresh(m: Memory, cutoff: real) {
    m.timestamp.None? || m.timestamp.value >= cutoff
  }

  function FreshOnes(ms: seq<Memory>, cutoff: real): seq<Memory> {
    if ms == [] then []
    else
      var last := ms[|ms| - 1];
      FreshOnes(ms[..|ms| - 1], cutoff) + if IsFresh(last, cutoff) then [last] else []
  }

  function Compress(m: Memory, cutoff: real): Memory {
    if m.timestamp.Some? && m.timestamp.value < cutoff then m.(compressed := true) else m
  }

  function CompressAll(ms: seq<Memory>, cutoff: real): (r: seq<Memory>)
    ensures |r| == |ms| && forall i :: 0 <= i < |r| ==> r[i] == Compress(ms[i], cutoff)
  {
    seq(|ms|, i requires 0 <= i < |ms| => Compress(ms[i], cutoff))
  }

  /** The positions whose memory gets a new flag. */
  function Changed(ms: seq<Memory>, cutoff: real, n: nat): set<nat>
    requires n <= |ms|
  {
    set i: nat | i < n && Compress(ms[i], cutoff) != ms[i]
  }

  lemma ChangedStep(ms: seq<Memory>, cutoff: real, n: nat)
    requires n < |ms|
    ensures |Changed(ms, cutoff, n + 1)|
         == |Changed(ms, cutoff, n)| + if Compress(ms[n], cutoff) != ms[n] then 1 else 0
  {
    hide Compress;
    var s := Changed(ms, cutoff, n);
    if Compress(ms[n], cutoff) != ms[n] {
      assert Changed(ms, cutoff, n + 1) == s + {n} && n !in s;
    } else {
      assert Changed(ms, cutoff, n + 1) == s;
    }
  }

  /** Nothing is flagged exactly when the list stays as it is. */
  lemma ChangedNone(ms: seq<Memory>, cutoff: real)
    ensures |Changed(ms, cutoff, |ms|)| == 0 <==> CompressAll(ms, cutoff) == ms
  {
    hide Compress;
    var r := CompressAll(ms, cutoff);
    if |Changed(ms, cutoff, |ms|)| == 0 {
      forall i: nat | i < |ms| ensures r[i] == ms[i] {
        assert i !in Changed(ms, cutoff, |ms|);
      }
    } else {
      var i :| i in Changed(ms, cutoff, |ms|);
      assert r[i] != ms[i];
    }
  }

  function Embeddings(c: Settings, ms: seq<Memory>): (vs: seq<Vector>)
    ensures |vs| == |ms| && forall i :: 0 <= i < |vs| ==> vs[i] == (c.embed)(ms[i].text)
  {
    seq(|ms|, i requires 0 <= i < |ms| => (c.embed)(ms[i].text))
  }

  /** `_deduplicate`: it declines when the index and the list have different lengths. */
  function Deduplicated(c: Settings, index: seq<Vector>, ms: seq<Memory>): seq<Memory> {
    if |index| <= 1 || |index| != |ms| then ms else Kept(c, index, ms, |ms|)
  }

  /** What stale removal and deduplication leave; the index is still the one that was loaded. */
  function Survivors(c: Settings, s: Store, now: real): seq<Memory>
    requires s.index.Some?
  {
    var current := FreshOnes(s.memories, now - c.staleDays);
    if |current| > 1 then Deduplicated(c, s.index.value, current) else current
  }

  /** `run_full_maintenance` at time `now`. */
  function Maintain(c: Settings, s: Store, now: real): Store {
    if s.index.None? || s.memories == [] then s
    else
      var kept := Survivors(c, s, now);
      var s1 := if |kept| < |s.memories| then Store(Some(Embeddings(c, kept)), kept) else s;
      s1.(memories := CompressAll(kept, now - c.compressDays))
  }

  /** The index holds the embedding of each memory's text. */
  ghost predicate Aligned(c: Settings, s: Store) {
    s.index == Some(Embeddings(c, s.memories))
  }

  ghost predicate NothingStale(c: Settings, ms: seq<Memory>, now: real) {
    forall i :: 0 <= i < |ms| ==> IsFresh(ms[i], now - c.staleDays)
  }

  ghost predicate AllCompressed(c: Settings, ms: seq<Memory>, now: real) {
    forall i :: 0 <= i < |ms| ==> Compress(ms[i], now - c.compressDays) == ms[i]
  }

  lemma {:induction false} FreshOnesExact(ms: seq<Memory>, cutoff: real)
    ensures |FreshOnes(ms, cutoff)| <= |ms|
    ensures forall i :: 0 <= i < |FreshOnes(ms, cutoff)| ==> IsFresh(FreshOnes(ms, cutoff)[i], cutoff)
    ensures |FreshOnes(ms, cutoff)| == |ms| <==> forall i :: 0 <= i < |ms| ==> IsFresh(ms[i], cutoff)
    ensures |FreshOnes(ms, cutoff)| == |ms| ==> FreshOnes(ms, cutoff) == ms
  {
    if ms != [] {
      FreshOnesExact(ms[..|ms| - 1], cutoff);
    }
  }

  lemma CompressKeepsEmbeddings(c: Settings, ms: seq<Memory>, cutoff: real)
    ensures Embeddings(c, CompressAll(ms, cutoff)) == Embeddings(c, ms)
  {
  }

  lemma {:induction false} KeptEmbeddings(c: Settings, vs: seq<Vector>, ms: seq<Memory>, n: nat)
    requires n <= |vs| == |ms| && vs == Embeddings(c, ms)
    ensures Embeddings(c, Kept(c, vs, ms, n)) == Kept(c, vs, vs, n)
    ensures forall m :: m in Kept(c, vs, ms, n) ==> m in ms
  {
    if n > 0 {
      KeptEmbeddings(c, vs, ms, n - 1);
    }
  }

  lemma {:induction false} KeptMembers(c: Settings, vs: seq<Vector>, ms: seq<Memory>, n: nat)
    requires n <= |vs| == |ms|
    ensures forall m :: m in Kept(c, vs, ms, n) ==> m in ms
  {
    hide Duplicate;
    if n > 0 {
      KeptMembers(c, vs, ms, n - 1);
    }
  }

  lemma DeduplicatedWithin(c: Settings, index: seq<Vector>, ms: seq<Memory>)
    ensures var r := Deduplicated(c, index, ms);
            |r| <= |ms| && (|r| == |ms| ==> r == ms) && forall m :: m in r ==> m in ms
  {
    if |index| == |ms| {
      hide Kept;
      KeptAll(c, index, ms, |ms|);
      KeptMembers(c, index, ms, |ms|);
      assert ms[..|ms|] == ms;
    }
  }

  lemma NothingStaleWithin(c: Settings, ms: seq<Memory>, kept: seq<Memory>, now: real)
    requires NothingStale(c, ms, now) && forall m :: m in kept ==> m in ms
    ensures NothingStale(c, kept, now)
  {
    hide IsFresh;
    forall i | 0 <= i < |kept| ensures IsFresh(kept[i], now - c.staleDays) {
      assert kept[i] in kept;
    }
  }

  lemma SurvivorsAmongFresh(c: Settings, s: Store, now: real)
    requires Aligned(c, s)
    ensures var kept := Survivors(c, s, now);
            && NothingStale(c, kept, now) && |kept| <= |s.memories|
            && (|kept| == |s.memories| ==> kept == s.memories)
            && (!NothingStale(c, s.memories, now) ==> kept == FreshOnes(s.memories, now - c.staleDays))
  {
    hide Kept, FreshOnes, IsFresh;
    var current := FreshOnes(s.memories, now - c.staleDays);
    FreshOnesExact(s.memories, now - c.staleDays);
    DeduplicatedWithin(c, s.index.value, current);
    NothingStaleWithin(c, current, Survivors(c, s, now), now);
  }

  lemma SurvivorsWhenFresh(c: Settings, s: Store, now: real)
    requires Aligned(c, s) && NothingStale(c, s.memories, now)
    ensures var vs := s.index.value;
            Survivors(c, s, now) == if |vs| > 1 then Kept(c, vs, s.memories, |vs|) else s.memories
  {
    hide Kept, FreshOnes, IsFresh;
    FreshOnesExact(s.memories, now - c.staleDays);
  }

  lemma SurvivorsSeparated(c: Settings, s: Store, now: real)
    requires Aligned(c, s) && NothingStale(c, s.memories, now)
    ensures Separated(c, Embeddings(c, Survivors(c, s, now)))
    ensures Separated(c, Embeddings(c, s.memories)) ==> Survivors(c, s, now) == s.memories
  {
    var vs := s.index.value;
    SurvivorsWhenFresh(c, s, now);
    if |vs| > 1 {
      hide Survivors, Separated, Kept, NothingStale;
      KeptSeparated(c, vs, |vs|);
      KeptEmbeddings(c, vs, s.memories, |vs|);
      if Separated(c, vs) {
        SeparatedKept(c, vs, s.memories, |vs|);
        assert s.memories[..|vs|] == s.memories;
      }
    }
  }

  /** The outcome of a run over an aligned store, reindexed or not. */
  lemma MaintainForm(c: Settings, s: Store, now: real)
    requires Aligned(c, s)
    ensures var kept := Survivors(c, s, now);
            Maintain(c, s, now) == Store(Some(Embeddings(c, kept)), CompressAll(kept, now - c.compressDays))
  {
    hide Kept, Compress, NothingStale, Duplicate;
    SurvivorsAmongFresh(c, s, now);
    if s.memories == [] {
      assert Survivors(c, s, now) == [];
      assert CompressAll([], now - c.compressDays) == [];
    }
  }

  /** Where a run leaves an aligned store: aligned, fresh and compressed. */
  lemma MaintainSettles(c: Settings, s: Store, now: real)
    requires Aligned(c, s)
    ensures var t := Maintain(c, s, now);
            Aligned(c, t) && NothingStale(c, t.memories, now) && AllCompressed(c, t.memories, now)
  {
    MaintainForm(c, s, now);
    SurvivorsAmongFresh(c, s, now);
    CompressedFacts(c, Survivors(c, s, now), now);
    hide Survivors, Maintain, NothingStale, AllCompressed;
  }

  lemma CompressedFacts(c: Settings, ms: seq<Memory>, now: real)
    ensures var r := CompressAll(ms, now - c.compressDays);
            AllCompressed(c, r, now) && (NothingStale(c, ms, now) ==> NothingStale(c, r, now))
                && Embeddings(c, r) == Embeddings(c, ms)
  {
  }

  /** A run over an aligned store with nothing stale separates the vectors. */
  lemma MaintainSeparates(c: Settings, s: Store, now: real)
    requires Aligned(c, s) && NothingStale(c, s.memories, now)
    ensures Separated(c, Embeddings(c, Maintain(c, s, now).memories))
  {
    hide Survivors, Maintain, Separated, NothingStale;
    MaintainForm(c, s, now);
    SurvivorsSeparated(c, s, now);
    CompressKeepsEmbeddings(c, Survivors(c, s, now), now - c.compressDays);
  }

  /** A run changes nothing exactly when nothing is stale, similar or uncompressed. */
  lemma MaintainFixedIff(c: Settings, s: Store, now: real)
    requires Aligned(c, s)
    ensures Maintain(c, s, now) == s <==>
              NothingStale(c, s.memories, now) && Separated(c, Embeddings(c, s.memories))
                  && AllCompressed(c, s.memories, now)
  {
    hide Survivors, Maintain, Separated, NothingStale;
    MaintainForm(c, s, now);
    if Maintain(c, s, now) == s {
      MaintainSettles(c, s, now);
      MaintainSeparates(c, s, now);
    }
    if NothingStale(c, s.memories, now) && Separated(c, Embeddings(c, s.memories))
        && AllCompressed(c, s.memories, now) {
      SurvivorsSeparated(c, s, now);
      assert CompressAll(s.memories, now - c.compressDays) == s.memories;
    }
  }

  /** At a fixed clock, a third run never changes an aligned store. */
  lemma ThirdRunIdle(c: Settings, s: Store, now: real)
    requires Aligned(c, s)
    ensures var s2 := Maintain(c, Maintain(c, s, now), now); Maintain(c, s2, now) == s2
  {
    var s1 := Maintain(c, s, now);
    var s2 := Maintain(c, s1, now);
    MaintainSettles(c, s, now);
    MaintainSettles(c, s1, now);
    MaintainSeparates(c, s1, now);
    MaintainFixedIff(c, s2, now);
  }

  /** One run is enough exactly when it leaves separated vectors; a run that removed something
      stale skips deduplication, and may not. */
  lemma SecondRunIdleIff(c: Settings, s: Store, now: real)
    requires Aligned(c, s)
    ensures var s1 := Maintain(c, s, now);
            Maintain(c, s1, now) == s1 <==>
              NothingStale(c, s.memories, now) || Separated(c, Embeddings(c, FreshOnes(s.memories, now - c.staleDays)))
  {
    hide Survivors, Maintain, Separated, NothingStale, Aligned, AllCompressed;
    var s1 := Maintain(c, s, now);
    MaintainSettles(c, s, now);
    MaintainFixedIff(c, s1, now);
    if NothingStale(c, s.memories, now) {
      MaintainSeparates(c, s, now);
    } else {
      MaintainForm(c, s, now);
      SurvivorsAmongFresh(c, s, now);
      CompressKeepsEmbeddings(c, FreshOnes(s.memories, now - c.staleDays), now - c.compressDays);
    }
  }

  // ---- Which memories survive ---------------------------------------------------------------

  /** The positions are those of the memories that are not stale: their timestamp is at or
      after the cutoff, or does not parse. */
  ghost predicate NotStale(ms: seq<Memory>, cutoff: real, ps: seq<nat>) {
    forall j :: 0 <= j < |ms| ==> (j in ps <==> ms[j].timestamp.None? || ms[j].timestamp.value >= cutoff)
  }

  /** What is not stale stays, in order. */
  lemma {:induction false} FreshPicked(ms: seq<Memory>, cutoff: real) returns (ps: seq<nat>)
    ensures Picks(ps, ms, FreshOnes(ms, cutoff))
    ensures NotStale(ms, cutoff, ps)
  {
    ps := [];
    if ms != [] {
      var n := |ms| - 1;
      ps := FreshPicked(ms[..n], cutoff);
      PicksMore(ps, ms, FreshOnes(ms[..n], cutoff));
      assert forall j :: 0 <= j < n ==> ms[..n][j] == ms[j];
      assert n !in ps;
      if IsFresh(ms[n], cutoff) {
        ps := ps + [n];
      }
    }
  }

  lemma {:induction false} KeptPicked<T>(c: Settings, vs: seq<Vector>, xs: seq<T>, n: nat) returns (ps: seq<nat>)
    requires n <= |vs| == |xs|
    ensures Picks(ps, xs[..n], Kept(c, vs, xs, n))
    ensures forall j :: 0 <= j < n ==> (j in ps <==> !Duplicate(c, vs, j))
  {
    hide Duplicate;
    ps := [];
    if n > 0 {
      ps := KeptPicked(c, vs, xs, n - 1);
      assert xs[..n][..n - 1] == xs[..n - 1];
      PicksMore(ps, xs[..n], Kept(c, vs, xs, n - 1));
      assert n - 1 !in ps;
      if !Duplicate(c, vs, n - 1) {
        ps := ps + [n - 1];
      }
    }
  }

  /** Any two of the positions hold vectors below the threshold, and every other position has
      one of them before it at or above the threshold. */
  ghost predicate Greedy(c: Settings, vs: seq<Vector>, ps: seq<nat>) {
    && (forall i, j :: 0 <= i < j < |vs| && i in ps && j in ps ==> (c.dot)(vs[i], vs[j]) < c.threshold)
    && (forall j :: 0 <= j < |vs| && j !in ps ==>
          exists i :: 0 <= i < j && i in ps && (c.dot)(vs[i], vs[j]) >= c.threshold)
  }

  lemma PickedIsGreedy(c: Settings, vs: seq<Vector>, ps: seq<nat>)
    requires forall j :: 0 <= j < |vs| ==> (j in ps <==> !Duplicate(c, vs, j))
    ensures Greedy(c, vs, ps)
  {
    forall j | 0 <= j < |vs| && j !in ps
      ensures exists i :: 0 <= i < j && i in ps && (c.dot)(vs[i], vs[j]) >= c.threshold
    {
      var i :| 0 <= i < j && !Duplicate(c, vs, i) && (c.dot)(vs[i], vs[j]) >= c.threshold;
      assert i in ps;
    }
  }

  lemma AllPicked<T>(xs: seq<T>) returns (ps: seq<nat>)
    ensures Picks(ps, xs, xs) && forall j :: 0 <= j < |xs| ==> j in ps
  {
    ps := seq(|xs|, i => i);
    forall j | 0 <= j < |xs| ensures j in ps {
      assert ps[j] == j;
    }
  }

  /** All of the list is left if it and the index have different lengths, and a greedy
      selection by the vectors of the index otherwise. */
  ghost predicate Thinned(c: Settings, index: seq<Vector>, ms: seq<Memory>, ps: seq<nat>, kept: seq<Memory>) {
    Picks(ps, ms, kept) && if |index| == |ms| then Greedy(c, index, ps) else kept == ms
  }

  /** What deduplication leaves. */
  lemma DeduplicatedPicked(c: Settings, index: seq<Vector>, ms: seq<Memory>) returns (ps: seq<nat>)
    ensures Thinned(c, index, ms, ps, Deduplicated(c, index, ms))
  {
    if |index| == |ms| && |index| > 1 {
      ps := KeptPicked(c, index, ms, |ms|);
      assert ms[..|ms|] == ms;
      PickedIsGreedy(c, index, ps);
    } else {
      ps := AllPicked(ms);
    }
  }

  /** The flags after a run: a memory is flagged once it is old enough, and nothing else in it
      changes. */
  ghost predicate Flagged(before: seq<Memory>, after: seq<Memory>, cutoff: real) {
    |after| == |before| && forall i :: 0 <= i < |after| ==>
      && after[i] == before[i].(compressed := after[i].compressed)
      && (after[i].compressed <==>
            before[i].compressed || (before[i].timestamp.Some? && before[i].timestamp.value < cutoff))
  }

  /** What one run leaves of any store, memory by memory and in order. First everything stale
      goes: a memory stays if its timestamp is at or after the cutoff, or does not parse. Then,
      if the index is as long as what is left, that is thinned out greedily by the vectors of
      the index. The index is built anew if anything went, and left alone otherwise. */
  lemma MaintainExact(c: Settings, s: Store, now: real)
      returns (ps: seq<nat>, current: seq<Memory>, qs: seq<nat>, kept: seq<Memory>)
    requires s.index.Some? && s.memories != []
    ensures Picks(ps, s.memories, current)
    ensures NotStale(s.memories, now - c.staleDays, ps)
    ensures Thinned(c, s.index.value, current, qs, kept)
    ensures Flagged(kept, Maintain(c, s, now).memories, now - c.compressDays)
    ensures Maintain(c, s, now).index == if |kept| == |s.memories| then s.index else Some(Embeddings(c, kept))
  {
    hide *;
    current := FreshOnes(s.memories, now - c.staleDays);
    ps := FreshPicked(s.memories, now - c.staleDays);
    kept := Survivors(c, s, now);
    MaintainParts(c, s, now);
    CompressedExact(kept, now - c.compressDays);
    qs := DeduplicatedPicked(c, s.index.value, current);
  }

  lemma MaintainParts(c: Settings, s: Store, now: real)
    requires s.index.Some? && s.memories != []
    ensures var kept := Survivors(c, s, now);
            && kept == Deduplicated(c, s.index.value, FreshOnes(s.memories, now - c.staleDays))
            && Maintain(c, s, now).memories == CompressAll(kept, now - c.compressDays)
            && Maintain(c, s, now).index == if |kept| == |s.memories| then s.index else Some(Embeddings(c, kept))
  {
    SurvivorsWithin(c, s, now);
    hide Survivors, FreshOnes, Deduplicated, CompressAll, Embeddings, Compress, IsFresh;
  }

  lemma SurvivorsWithin(c: Settings, s: Store, now: real)
    requires s.index.Some?
    ensures var kept := Survivors(c, s, now);
            && kept == Deduplicated(c, s.index.value, FreshOnes(s.memories, now - c.staleDays))
            && |kept| <= |s.memories|
  {
    hide FreshOnes, Deduplicated, IsFresh;
    var current := FreshOnes(s.memories, now - c.staleDays);
    FreshOnesExact(s.memories, now - c.staleDays);
    DeduplicatedWithin(c, s.index.value, current);
    if |current| <= 1 {
      DeduplicatedShort(c, s.index.value, current);
    }
  }

  lemma DeduplicatedShort(c: Settings, index: seq<Vector>, ms: seq<Memory>)
    requires |ms| <= 1
    ensures Deduplicated(c, index, ms) == ms
  {
  }

  /** A run over a store whose index holds its memories' vectors: if some memory is stale it
      leaves exactly the others, and if none is, a greedy selection of all. */
  lemma MaintainAligned(c: Settings, s: Store, now: real) returns (ps: seq<nat>, kept: seq<Memory>)
    requires Aligned(c, s)
    ensures Picks(ps, s.memories, kept) && Flagged(kept, Maintain(c, s, now).memories, now - c.compressDays)
    ensures var ms, cutoff := s.memories, now - c.staleDays;
            if SomeStale(ms, cutoff)
            then NotStale(ms, cutoff, ps)
            else Greedy(c, s.index.value, ps)
    ensures Maintain(c, s, now).index == Some(Embeddings(c, kept))
  {
    hide *;
    AlignedHasIndex(c, s);
    kept := Survivors(c, s, now);
    MaintainForm(c, s, now);
    SurvivorsAmongFresh(c, s, now);
    CompressedExact(kept, now - c.compressDays);
    StaleWhen(c, s.memories, now);
    if NothingStale(c, s.memories, now) {
      ps := SurvivorsPicked(c, s, now);
    } else {
      ps := FreshPicked(s.memories, now - c.staleDays);
    }
  }

  lemma AlignedHasIndex(c: Settings, s: Store)
    requires Aligned(c, s)
    ensures s.index.Some? && |s.index.value| == |s.memories|
  {
  }

  lemma SurvivorsPicked(c: Settings, s: Store, now: real) returns (ps: seq<nat>)
    requires Aligned(c, s) && NothingStale(c, s.memories, now)
    ensures Picks(ps, s.memories, Survivors(c, s, now)) && Greedy(c, s.index.value, ps)
  {
    var vs := s.index.value;
    SurvivorsWhenFresh(c, s, now);
    hide Survivors, Aligned, NothingStale, Kept;
    ps := DeduplicatedPicked(c, vs, s.memories);
    assert |vs| == |s.memories|;
  }

  lemma StaleWhen(c: Settings, ms: seq<Memory>, now: real)
    ensures NothingStale(c, ms, now) <==> !SomeStale(ms, now - c.staleDays)
  {
  }

  ghost predicate SomeStale(ms: seq<Memory>, cutoff: real) {
    exists j :: 0 <= j < |ms| && ms[j].timestamp.Some? && ms[j].timestamp.value < cutoff
  }

  lemma CompressedExact(ms: seq<Memory>, cutoff: real)
    ensures Flagged(ms, CompressAll(ms, cutoff), cutoff)
  {
  }

  /** As many copies of a memory stay as there were, if it is not stale, and none if it is. */
  lemma {:induction false} FreshCounts(ms: seq<Memory>, cutoff: real, m: Memory)
    ensures multiset(FreshOnes(ms, cutoff))[m]
         == if m.timestamp.None? || m.timestamp.value >= cutoff then multiset(ms)[m] else 0
  {
    if ms != [] {
      FreshCounts(ms[..|ms| - 1], cutoff, m);
      assert ms == ms[..|ms| - 1] + [ms[|ms| - 1]];
    }
  }

  /** Stale removal looks at each memory by itself. */
  lemma {:induction false} FreshConcat(a: seq<Memory>, b: seq<Memory>, cutoff: real)
    ensures FreshOnes(a + b, cutoff) == FreshOnes(a, cutoff) + FreshOnes(b, cutoff)
    decreases |b|
  {
    if b == [] {
      assert a + b == a;
    } else {
      FreshConcat(a, b[..|b| - 1], cutoff);
      assert (a + b)[..|a + b| - 1] == a + b[..|b| - 1];
    }
  }

  // ---- The objects --------------------------------------------------------------------------

  datatype Summary = Skipped | Summary(staleRemoved: nat, duplicatesRemoved: nat, reindexed: bool, compressed: nat)

  class VectorMaintenanceManager {
    const settings: Settings
    var index: Option<seq<Vector>>
    var memories: seq<Memory>

    function View(): Store
      reads this
    {
      Store(index, memories)
    }

    constructor (settings: Settings, store: Store)
      ensures this.settings == settings && View() == store
    {
      this.settings, index, memories := settings, store.index, store.memories;
    }

    method RunFullMaintenance(now: real) returns (summary: Summary)
      modifies this
      ensures View() == Maintain(settings, old(View()), now)
      ensures summary.Skipped? <==> old(index).None? || old(memories) == []
      ensures summary.Summary? ==>
                var current := FreshOnes(old(memories), now - settings.staleDays);
                var kept := Survivors(settings, old(View()), now);
                && summary.staleRemoved == |old(memories)| - |current|
                && summary.duplicatesRemoved == |current| - |kept|
                && (summary.reindexed <==> |memories| < |old(memories)|)
                && summary.compressed == |Changed(kept, now - settings.compressDays, |kept|)|
    {
      hide Embeddings, CompressAll, Survivors, FreshOnes, Changed, Compress, IsFresh;
      if index == None || memories == [] {
        return Skipped;
      }
      var kept, stale, duplicates := Survive(now);
      var reindexed := stale > 0 || duplicates > 0;
      if reindexed {
        Reindex(kept);
      }
      var count := CompressOld(kept, now - settings.compressDays);
      summary := Summary(stale, duplicates, reindexed, count);
    }

    method Survive(now: real) returns (kept: seq<Memory>, stale: nat, duplicates: nat)
      requires index.Some?
      ensures kept == Survivors(settings, View(), now)
      ensures stale == |memories| - |FreshOnes(memories, now - settings.staleDays)|
      ensures duplicates == |FreshOnes(memories, now - settings.staleDays)| - |kept|
      ensures stale + duplicates == 0 ==> kept == memories
    {
      kept, stale := RemoveStale(now - settings.staleDays);
      FreshOnesExact(memories, now - settings.staleDays);
      hide FreshOnes, IsFresh, Deduplicated;
      duplicates := 0;
      if |kept| > 1 {
        kept, duplicates := Deduplicate(kept);
      }
    }

    method RemoveStale(cutoff: real) returns (kept: seq<Memory>, removed: nat)
      ensures kept == FreshOnes(memories, cutoff) && removed == |memories| - |kept|
      ensures forall m :: multiset(kept)[m]
                       == if m.timestamp.None? || m.timestamp.value >= cutoff then multiset(memories)[m] else 0
    {
      kept, removed := [], 0;
      for i := 0 to |memories|
        invariant kept == FreshOnes(memories[..i], cutoff) && removed == i - |kept|
      {
        assert memories[..i + 1][..i] == memories[..i];
        if IsFresh(memories[i], cutoff) {
          kept := kept + [memories[i]];
        } else {
          removed := removed + 1;
        }
      }
      assert memories[..|memories|] == memories;
      forall m ensures multiset(kept)[m]
                    == if m.timestamp.None? || m.timestamp.value >= cutoff then multiset(memories)[m] else 0
      {
        FreshCounts(memories, cutoff, m);
      }
    }

    method Deduplicate(ms: seq<Memory>) returns (kept: seq<Memory>, removed: nat)
      requires index.Some?
      ensures kept == Deduplicated(settings, index.value, ms) && removed == |ms| - |kept|
      ensures removed == 0 ==> kept == ms
    {
      var n := |index.value|;
      if n <= 1 || n != |ms| {
        return ms, 0;
      }
      var duplicates := FindDuplicates(index.value);
      kept := [];
      for i := 0 to n
        invariant kept == Kept(settings, index.value, ms, i)
      {
        if i !in duplicates {
          kept := kept + [ms[i]];
        }
      }
      KeptAll(settings, index.value, ms, n);
      assert ms[..n] == ms;
      removed := |ms| - |kept|;
    }

    /** The nested loops over pairs. */
    method FindDuplicates(vs: seq<Vector>) returns (duplicates: set<nat>)
      ensures forall j :: 0 <= j < |vs| ==> (j in duplicates <==> Duplicate(settings, vs, j))
    {
      duplicates := {};
      for i := 0 to |vs|
        invariant forall j :: 0 <= j < |vs| ==> (j in duplicates <==> FoundBy(vs, i, j))
      {
        FoundIsDuplicate(vs, i);
        if i !in duplicates {
          for j := i + 1 to |vs|
            invariant forall k :: 0 <= k < j ==> (k in duplicates <==> FoundBy(vs, i + 1, k))
            invariant forall k :: j <= k < |vs| ==> (k in duplicates <==> FoundBy(vs, i, k))
          {
            FoundStep(vs, i, j);
            if j !in duplicates {
              var similarity := (settings.dot)(vs[i], vs[j]);
              if similarity >= settings.threshold {
                duplicates := duplicates + {j};
              }
            }
          }
        } else {
          forall j | 0 <= j < |vs| ensures FoundBy(vs, i + 1, j) == FoundBy(vs, i, j) {
            FoundStep(vs, i, j);
          }
        }
      }
      forall j | 0 <= j < |vs| ensures FoundBy(vs, |vs|, j) == Duplicate(settings, vs, j) {
        FoundLater(vs, |vs|, j);
      }
    }

    /** Dropped on account of one of the first `i` vectors. */
    ghost predicate FoundBy(vs: seq<Vector>, i: nat, j: nat)
      requires i <= |vs| && j < |vs|
    {
      exists k :: 0 <= k < i && k < j && !Duplicate(settings, vs, k)
          && (settings.dot)(vs[k], vs[j]) >= settings.threshold
    }

    lemma FoundIsDuplicate(vs: seq<Vector>, i: nat)
      requires i < |vs|
      ensures FoundBy(vs, i, i) == Duplicate(settings, vs, i)
    {
    }

    lemma FoundLater(vs: seq<Vector>, i: nat, j: nat)
      requires j < i <= |vs|
      ensures FoundBy(vs, i, j) == Duplicate(settings, vs, j)
    {
    }

    lemma FoundStep(vs: seq<Vector>, i: nat, j: nat)
      requires i < |vs| && j < |vs|
      ensures FoundBy(vs, i + 1, j) <==>
                FoundBy(vs, i, j)
                || (i < j && !Duplicate(settings, vs, i) && (settings.dot)(vs[i], vs[j]) >= settings.threshold)
    {
    }

    method Reindex(ms: seq<Memory>)
      modifies this
      ensures View() == Store(Some(Embeddings(settings, ms)), ms)
    {
      index, memories := Some(Embeddings(settings, ms)), ms;
    }

    /** The list is written back only if something was flagged. */
    method CompressOld(ms: seq<Memory>, cutoff: real) returns (count: nat)
      requires ms == memories
      modifies this`memories
      ensures memories == CompressAll(ms, cutoff)
      ensures count == |Changed(ms, cutoff, |ms|)|
    {
      var flagged := ms;
      count := 0;
      for i := 0 to |ms|
        invariant |flagged| == |ms| && memories == ms
        invariant forall k :: 0 <= k < |ms| ==> flagged[k] == if k < i then Compress(ms[k], cutoff) else ms[k]
        invariant count == |Changed(ms, cutoff, i)|
      {
        ChangedStep(ms, cutoff, i);
        if ms[i].timestamp.Some? && ms[i].timestamp.value < cutoff && !ms[i].compressed {
          flagged := flagged[i := ms[i].(compressed := true)];
          count := count + 1;
        }
      }
      assert flagged == CompressAll(ms, cutoff);
      ChangedNone(ms, cutoff);
      if count > 0 {
        memories := flagged;
      }
    }
  }
}
