/** Batch sizes in `SwarmExecution.execute` and the counter `_active_agents` that several
    executions on one strategy object share. */
module SwarmBatches {
  import opened Collections

  /** At least one node is dispatched even when the limit is reached. */
  function BatchSize(ready: nat, maxParallel: int, maxAgents: int, active: int): (b: int)
    requires ready > 0
    ensures 1 <= b <= ready
    ensures b == 1 || (b <= maxParallel && active + b <= maxAgents)
    ensures b == 1 <==> (ready == 1 || maxParallel <= 1 || active >= maxAgents - 1)
  {
    var size := Min(Min(ready, maxParallel), maxAgents - active);
    if size <= 0 then 1 else size
  }

  /** `inflight[i]` is the batch that execution `i` awaits, 0 between rounds; `leaked` is what
      cancelled rounds added and never took back. */
  datatype Shared = Shared(active: int, inflight: seq<nat>, leaked: nat)

  datatype Event =
    | Dispatch(i: nat, ready: nat)  // a round starts with `ready` ready nodes
    | Collect(i: nat)               // its `gather` returns
    | Abort(i: nat)                 // CancelledError at the `await`: the decrement is skipped

  predicate Enabled(s: Shared, e: Event) {
    && e.i < |s.inflight|
    && match e
       case Dispatch(i, ready) => s.inflight[i] == 0 && ready > 0
       case Collect(i) => s.inflight[i] > 0
       case Abort(i) => s.inflight[i] > 0
  }

  function Next(s: Shared, e: Event, maxParallel: int, maxAgents: int): Shared
    requires Enabled(s, e)
  {
    match e
    case Dispatch(i, ready) =>
      var b := BatchSize(ready, maxParallel, maxAgents, s.active);
      Shared(s.active + b, s.inflight[i := b], s.leaked)
    case Collect(i) => Shared(s.active - s.inflight[i], s.inflight[i := 0], s.leaked)
    case Abort(i) => Shared(s.active, s.inflight[i := 0], s.leaked + s.inflight[i])
  }

  ghost predicate IsRun(run: seq<Shared>, events: seq<Event>, maxParallel: int, maxAgents: int) {
    && |run| == |events| + 1
    && forall j :: 0 <= j < |events| ==>
         Enabled(run[j], events[j]) && run[j + 1] == Next(run[j], events[j], maxParallel, maxAgents)
  }

  function Sum(s: seq<nat>): nat {
    if s == [] then 0 else s[0] + Sum(s[1..])
  }

  /** How many executions are inside a round. */
  function Busy(s: seq<nat>): nat {
    if s == [] then 0 else (if s[0] > 0 then 1 else 0) + Busy(s[1..])
  }

  lemma {:induction false} SumUpdate(s: seq<nat>, i: nat, x: nat)
    requires i < |s|
    ensures Sum(s[i := x]) == Sum(s) - s[i] + x
    ensures Busy(s[i := x]) == Busy(s) - (if s[i] > 0 then 1 else 0) + (if x > 0 then 1 else 0)
    ensures s[i] > 0 ==> Busy(s) >= 1
  {
    if i > 0 {
      SumUpdate(s[1..], i - 1, x);
      assert s[i := x][1..] == s[1..][i - 1 := x];
    }
  }

  lemma {:induction false} BusyBounds(s: seq<nat>)
    ensures Busy(s) <= |s| && (Busy(s) == 0 <==> Sum(s) == 0)
    ensures Busy(s) == 0 ==> forall i :: 0 <= i < |s| ==> s[i] == 0
  {
    if s != [] {
      BusyBounds(s[1..]);
      assert forall i :: 0 < i < |s| ==> s[i] == s[1..][i - 1];
    }
  }

  ghost predicate CounterInv(start: int, s: Shared, maxAgents: int) {
    && s.active == start + Sum(s.inflight) + s.leaked
    && (maxAgents >= 1 && Busy(s.inflight) > 0 ==> s.active <= start + maxAgents + Busy(s.inflight) - 1 + s.leaked)
  }

  lemma NextKeepsCounter(start: nat, s: Shared, e: Event, maxParallel: int, maxAgents: int)
    requires CounterInv(start, s, maxAgents) && Enabled(s, e)
    ensures CounterInv(start, Next(s, e, maxParallel, maxAgents), maxAgents)
  {
    BusyBounds(s.inflight);
    match e
    case Dispatch(i, ready) => SumUpdate(s.inflight, i, BatchSize(ready, maxParallel, maxAgents, s.active));
    case Collect(i) => SumUpdate(s.inflight, i, 0);
    case Abort(i) => SumUpdate(s.inflight, i, 0);
  }

  /** One more execution on the same object. */
  function Join(s: Shared): Shared {
    s.(inflight := s.inflight + [0])
  }

  lemma {:induction false} SumAppend(s: seq<nat>, x: nat)
    ensures Sum(s + [x]) == Sum(s) + x && Busy(s + [x]) == Busy(s) + if x > 0 then 1 else 0
  {
    if s != [] {
      SumAppend(s[1..], x);
      assert (s + [x])[1..] == s[1..] + [x];
    }
  }

  lemma JoinKeepsCounter(start: nat, s: Shared, maxAgents: int)
    requires CounterInv(start, s, maxAgents)
    ensures CounterInv(start, Join(s), maxAgents)
  {
    SumAppend(s.inflight, 0);
  }

  lemma {:induction false} RunKeepsCounter(run: seq<Shared>, events: seq<Event>, maxParallel: int,
          maxAgents: int, j: nat)
    requires IsRun(run, events, maxParallel, maxAgents) && maxAgents >= 1 && j < |run|
    requires run[0].active >= 0 && run[0].leaked == 0 && Sum(run[0].inflight) == 0
    ensures CounterInv(run[0].active, run[j], maxAgents) && |run[j].inflight| == |run[0].inflight|
  {
    if j == 0 {
      BusyBounds(run[0].inflight);
    } else {
      RunKeepsCounter(run, events, maxParallel, maxAgents, j - 1);
      assert run[j - 1 + 1] == Next(run[j - 1], events[j - 1], maxParallel, maxAgents);
      NextKeepsCounter(run[0].active, run[j - 1], events[j - 1], maxParallel, maxAgents);
    }
  }

  /** For `k` executions interleaved in any way on one strategy object with a fresh counter
      and no cancellation: the counter is the sum of the batches in flight, stays at most
      `maxAgents + k - 1`, and is back at zero whenever every execution is between rounds. */
  lemma SharedCounterBound(run: seq<Shared>, events: seq<Event>, maxParallel: int, maxAgents: int, j: nat)
    requires IsRun(run, events, maxParallel, maxAgents) && maxAgents >= 1 && j < |run|
    requires run[0].active == 0 && run[0].leaked == 0 && Sum(run[0].inflight) == 0
    requires forall i :: 0 <= i < |events| ==> !events[i].Abort?
    ensures run[j].active == Sum(run[j].inflight)
    ensures run[j].active > 0 ==> run[j].active <= maxAgents + |run[0].inflight| - 1
    ensures (forall i :: 0 <= i < |run[j].inflight| ==> run[j].inflight[i] == 0) ==> run[j].active == 0
  {
    RunKeepsCounter(run, events, maxParallel, maxAgents, j);
    NoLeak(run, events, maxParallel, maxAgents, j);
    BusyBounds(run[j].inflight);
    if forall i :: 0 <= i < |run[j].inflight| ==> run[j].inflight[i] == 0 {
      AllZero(run[j].inflight);
    }
  }

  lemma {:induction false} NoLeak(run: seq<Shared>, events: seq<Event>, maxParallel: int, maxAgents: int, j: nat)
    requires IsRun(run, events, maxParallel, maxAgents) && j < |run|
    requires forall i :: 0 <= i < |events| ==> !events[i].Abort?
    ensures run[j].leaked == run[0].leaked
  {
    if j > 0 {
      NoLeak(run, events, maxParallel, maxAgents, j - 1);
      assert run[j - 1 + 1] == Next(run[j - 1], events[j - 1], maxParallel, maxAgents);
    }
  }

  lemma {:induction false} AllZero(s: seq<nat>)
    requires forall i :: 0 <= i < |s| ==> s[i] == 0
    ensures Sum(s) == 0
  {
    if s != [] {
      AllZero(s[1..]);
    }
  }

  // ---- The exact maximum ------------------------------------------------------------------

  /** What `k` executions can hold together: full batches as long as they fit under the limit,
      then one node each. `CeilDiv(a, p)` executions reach the limit. */
  function Peak(k: nat, maxParallel: int, maxAgents: int): nat {
    var p, a := AtLeastOne(maxParallel), AtLeastOne(maxAgents);
    if k * p <= a then k * p
    else
      CeilDivides(a, p);
      a + k - CeilDiv(a, p)
  }

  function AtLeastOne(n: int): nat {
    if n >= 1 then n else 1
  }

  function CeilDiv(a: nat, p: nat): nat
    requires p >= 1
  {
    (a + p - 1) / p
  }

  lemma CeilDivides(a: nat, p: nat)
    requires a >= 1 && p >= 1
    ensures var c := CeilDiv(a, p); 1 <= c <= a && (c - 1) * p < a <= c * p
  {
    var c := CeilDiv(a, p);
    assert a + p - 1 == c * p + (a + p - 1) % p;
    if c < 1 {
      ProductMonotone(c, 0, p);
    }
    if c > a {
      ProductMonotone(a + 1, c, p);
      ProductMonotone(1, p, a);
    }
  }

  lemma ProductMonotone(x: int, y: int, z: nat)
    requires x <= y
    ensures x * z <= y * z
  {
  }

  lemma PeakForm(k: nat, maxParallel: int, maxAgents: int)
    ensures var p, a := AtLeastOne(maxParallel), AtLeastOne(maxAgents);
            var c := CeilDiv(a, p);
            if k < c then Peak(k, maxParallel, maxAgents) == k * p < a
            else Peak(k, maxParallel, maxAgents) == a + k - c && a <= k * p
  {
    var p, a := AtLeastOne(maxParallel), AtLeastOne(maxAgents);
    var c := CeilDiv(a, p);
    CeilDivides(a, p);
    if k < c {
      ProductMonotone(k, c - 1, p);
    } else {
      ProductMonotone(c, k, p);
      if k > c {
        ProductMonotone(c + 1, k, p);
        assert (c + 1) * p == c * p + p;
      }
    }
  }

  /** One execution more can hold one node more, or another batch up to the limit. */
  lemma PeakStep(k: nat, maxParallel: int, maxAgents: int)
    ensures var p, a := AtLeastOne(maxParallel), AtLeastOne(maxAgents);
            var h, h' := Peak(k, maxParallel, maxAgents), Peak(k + 1, maxParallel, maxAgents);
            h' == h + if h + p <= a then p else if h + 1 <= a then a - h else 1
    ensures Peak(0, maxParallel, maxAgents) == 0
  {
    var p, a := AtLeastOne(maxParallel), AtLeastOne(maxAgents);
    CeilDivides(a, p);
    PeakForm(0, maxParallel, maxAgents);
    PeakForm(k, maxParallel, maxAgents);
    PeakForm(k + 1, maxParallel, maxAgents);
    assert (k + 1) * p == k * p + p;
    hide Peak, CeilDiv, AtLeastOne;
  }

  lemma {:induction false} PeakMonotone(k: nat, n: nat, maxParallel: int, maxAgents: int)
    requires k <= n
    ensures Peak(k, maxParallel, maxAgents) + (n - k) <= Peak(n, maxParallel, maxAgents)
    decreases n
  {
    if k < n {
      PeakMonotone(k, n - 1, maxParallel, maxAgents);
      PeakStep(n - 1, maxParallel, maxAgents);
    }
  }

  /** The nodes in batches of more than one. */
  function Large(s: seq<nat>): nat {
    if s == [] then 0 else (if s[0] > 1 then s[0] else 0) + Large(s[1..])
  }

  lemma {:induction false} LargeUpdate(s: seq<nat>, i: nat, x: nat)
    requires i < |s|
    ensures Large(s[i := x]) == Large(s) - (if s[i] > 1 then s[i] else 0) + (if x > 1 then x else 0)
  {
    if i > 0 {
      LargeUpdate(s[1..], i - 1, x);
      assert s[i := x][1..] == s[1..][i - 1 := x];
    }
  }

  ghost predicate WithinBatch(s: seq<nat>, p: nat) {
    forall i :: 0 <= i < |s| ==> s[i] <= p
  }

  /** How many batches of more than one there are decides how much can be in flight. */
  lemma {:induction false} SumByLarge(s: seq<nat>, p: nat) returns (m: nat)
    requires WithinBatch(s, p)
    ensures m <= Busy(s) && Large(s) <= m * p && Sum(s) == Large(s) + Busy(s) - m
  {
    if s == [] {
      m := 0;
    } else {
      var rest := SumByLarge(s[1..], p);
      m := rest + if s[0] > 1 then 1 else 0;
      assert (rest + 1) * p == rest * p + p;
    }
  }

  lemma PeakCovers(s: seq<nat>, maxParallel: int, maxAgents: int)
    requires WithinBatch(s, AtLeastOne(maxParallel)) && Large(s) <= AtLeastOne(maxAgents)
    ensures Sum(s) <= Peak(Busy(s), maxParallel, maxAgents)
  {
    var p, a, n := AtLeastOne(maxParallel), AtLeastOne(maxAgents), Busy(s);
    var m := SumByLarge(s, p);
    PeakOfLarge(m, p, a, Large(s));
    PeakMonotone(m, n, maxParallel, maxAgents);
  }

  lemma PeakOfLarge(m: nat, p: nat, a: nat, large: nat)
    requires p >= 1 && a >= 1 && large <= m * p && large <= a
    ensures large <= Peak(m, p, a)
  {
    if m * p > a {
      CeilDivides(a, p);
      if m < CeilDiv(a, p) {
        ProductMonotone(m, CeilDiv(a, p) - 1, p);
      }
    }
  }

  ghost predicate BatchInv(s: Shared, maxParallel: int, maxAgents: int) {
    && s.active == Sum(s.inflight) && s.leaked == 0
    && WithinBatch(s.inflight, AtLeastOne(maxParallel))
    && Large(s.inflight) <= AtLeastOne(maxAgents)
  }

  lemma {:induction false} LargeAtMostSum(s: seq<nat>)
    ensures Large(s) <= Sum(s)
  {
    if s != [] {
      LargeAtMostSum(s[1..]);
    }
  }

  lemma NextKeepsBatches(s: Shared, e: Event, maxParallel: int, maxAgents: int)
    requires BatchInv(s, maxParallel, maxAgents) && Enabled(s, e) && !e.Abort?
    ensures BatchInv(Next(s, e, maxParallel, maxAgents), maxParallel, maxAgents)
  {
    LargeAtMostSum(s.inflight);
    match e
    case Dispatch(i, ready) =>
      var b := BatchSize(ready, maxParallel, maxAgents, s.active);
      SumUpdate(s.inflight, i, b);
      LargeUpdate(s.inflight, i, b);
    case Collect(i) =>
      SumUpdate(s.inflight, i, 0);
      LargeUpdate(s.inflight, i, 0);
  }

  lemma {:induction false} RunKeepsBatches(run: seq<Shared>, events: seq<Event>, maxParallel: int,
          maxAgents: int, j: nat)
    requires IsRun(run, events, maxParallel, maxAgents) && j < |run|
    requires run[0] == Shared(0, seq(|run[0].inflight|, _ => 0), 0)
    requires forall i :: 0 <= i < |events| ==> !events[i].Abort?
    ensures BatchInv(run[j], maxParallel, maxAgents) && |run[j].inflight| == |run[0].inflight|
  {
    if j == 0 {
      AllZero(run[0].inflight);
      LargeAtMostSum(run[0].inflight);
    } else {
      RunKeepsBatches(run, events, maxParallel, maxAgents, j - 1);
      assert run[j - 1 + 1] == Next(run[j - 1], events[j - 1], maxParallel, maxAgents);
      NextKeepsBatches(run[j - 1], events[j - 1], maxParallel, maxAgents);
    }
  }

  /** For all limits: `k` executions never hold more than the peak. */
  lemma PeakBound(run: seq<Shared>, events: seq<Event>, maxParallel: int, maxAgents: int, j: nat)
    requires IsRun(run, events, maxParallel, maxAgents) && j < |run|
    requires run[0] == Shared(0, seq(|run[0].inflight|, _ => 0), 0)
    requires forall i :: 0 <= i < |events| ==> !events[i].Abort?
    ensures run[j].active <= Peak(|run[0].inflight|, maxParallel, maxAgents)
  {
    hide Peak;
    RunKeepsBatches(run, events, maxParallel, maxAgents, j);
    PeakCovers(run[j].inflight, maxParallel, maxAgents);
    BusyBounds(run[j].inflight);
    PeakMonotone(Busy(run[j].inflight), |run[0].inflight|, maxParallel, maxAgents);
  }

  /** For all limits the peak is reached, when `n` of the `k` executions dispatch in turn and
      have enough ready nodes. */
  lemma {:induction false} BoundIsTight(maxParallel: int, maxAgents: int, k: nat, n: nat)
      returns (run: seq<Shared>, events: seq<Event>)
    requires n <= k
    ensures IsRun(run, events, maxParallel, maxAgents) && forall i :: 0 <= i < |events| ==> !events[i].Abort?
    ensures run[0] == Shared(0, seq(k, _ => 0), 0)
    ensures run[|run| - 1].active == Peak(n, maxParallel, maxAgents)
    ensures |run[|run| - 1].inflight| == k
    ensures var flights := run[|run| - 1].inflight; forall i :: n <= i < k ==> flights[i] == 0
    decreases n
  {
    hide Peak;
    PeakStep(if n > 0 then n - 1 else 0, maxParallel, maxAgents);
    if n == 0 {
      run, events := [Shared(0, seq(k, _ => 0), 0)], [];
    } else {
      run, events := BoundIsTight(maxParallel, maxAgents, k, n - 1);
      var last := run[|run| - 1];
      var e := Dispatch(n - 1, AtLeastOne(maxParallel));
      run, events := run + [Next(last, e, maxParallel, maxAgents)], events + [e];
    }
  }

  // ---- Leaks --------------------------------------------------------------------------------

  /** A cancelled round never gives its agents back; once one fewer than the limit have leaked,
      every later round of every execution dispatches a single node. */
  lemma LeakSerialises(run: seq<Shared>, events: seq<Event>, maxParallel: int, maxAgents: int, j: nat, m: nat)
    requires IsRun(run, events, maxParallel, maxAgents) && maxAgents >= 1
    requires run[0].active >= 0 && run[0].leaked == 0 && Sum(run[0].inflight) == 0
    requires j <= m < |events| && run[j].leaked >= maxAgents - 1 && events[m].Dispatch?
    ensures BatchSize(events[m].ready, maxParallel, maxAgents, run[m].active) == 1
  {
    RunKeepsCounter(run, events, maxParallel, maxAgents, m);
    LeakGrows(run, events, maxParallel, maxAgents, j, m);
  }

  /** And not before: of an execution that has the object to itself and two nodes to dispatch,
      the batch is single if and only if that many have leaked. */
  lemma LeakSerialisesIff(run: seq<Shared>, events: seq<Event>, maxParallel: int, maxAgents: int, m: nat, ready: nat)
    requires IsRun(run, events, maxParallel, maxAgents) && maxAgents >= 1 && maxParallel >= 2 && ready >= 2
    requires run[0] == Shared(0, seq(|run[0].inflight|, _ => 0), 0)
    requires m < |run| && forall i :: 0 <= i < |run[m].inflight| ==> run[m].inflight[i] == 0
    ensures BatchSize(ready, maxParallel, maxAgents, run[m].active) == 1 <==> run[m].leaked >= maxAgents - 1
  {
    AllZero(run[0].inflight);
    RunKeepsCounter(run, events, maxParallel, maxAgents, m);
    AllZero(run[m].inflight);
  }

  lemma {:induction false} LeakGrows(run: seq<Shared>, events: seq<Event>, maxParallel: int, maxAgents: int,
          j: nat, m: nat)
    requires IsRun(run, events, maxParallel, maxAgents) && j <= m < |run|
    ensures run[j].leaked <= run[m].leaked
  {
    if j < m {
      LeakGrows(run, events, maxParallel, maxAgents, j, m - 1);
      assert run[m - 1 + 1] == Next(run[m - 1], events[m - 1], maxParallel, maxAgents);
    }
  }
}
