/** Every interleaving of calls on one circuit breaker. */
module BreakerRuns {
  import opened FailureTracking
  import opened CircuitBreaking

  /** `Abandon` is a cancelled call: neither `_on_success` nor `_on_failure` runs. `Foreign` is
      a failure that another component records in a shared tracker. */
  datatype Event =
    | BeginCall(now: real)
    | EndSuccess(now: real)
    | EndFailure(recorded: real, counted: real, tripped: real)
    | Abandon(now: real)
    | ReadState(now: real)
    | ManualOpen(now: real)
    | ManualClose(now: real)
    | Foreign(now: real)

  /** `inflight` calls have reached the target and not come back. */
  datatype Sys = Sys(b: Breaker, inflight: nat, clock: real)

  function Started(e: Event): real {
    if e.EndFailure? then e.recorded else e.now
  }

  function Ended(e: Event): real {
    if e.EndFailure? then e.tripped else e.now
  }

  predicate Enabled(s: Sys, e: Event) {
    && s.clock <= Started(e)
    && (e.EndFailure? ==> e.recorded <= e.counted <= e.tripped)
    && (e.EndFailure? || e.EndSuccess? || e.Abandon? ==> s.inflight > 0)
  }

  function Next(c: Config, s: Sys, e: Event): Sys
    requires Enabled(s, e)
  {
    match e
    case BeginCall(now) =>
      var (b, admitted) := Begin(c, s.b, now); Sys(b, if admitted then s.inflight + 1 else s.inflight, now)
    case EndSuccess(now) => Sys(Success(s.b), s.inflight - 1, now)
    case EndFailure(r, n, o) => Sys(Failure(c, s.b, r, n, o), s.inflight - 1, o)
    case Abandon(now) => Sys(s.b, s.inflight - 1, now)
    case ReadState(now) => Sys(Refresh(c, s.b, now), s.inflight, now)
    case ManualOpen(now) => Sys(ForceOpen(s.b, now), s.inflight, now)
    case ManualClose(now) => Sys(ForceClose(s.b), s.inflight, now)
    case Foreign(now) => Sys(s.b.(failures := s.b.failures + [now]), s.inflight, now)
  }

  ghost predicate IsRun(c: Config, run: seq<Sys>, events: seq<Event>) {
    && |run| == |events| + 1
    && forall i :: 0 <= i < |events| ==> Enabled(run[i], events[i]) && run[i + 1] == Next(c, run[i], events[i])
  }

  predicate Admits(s: Sys, s': Sys) {
    s'.inflight > s.inflight
  }

  // ---- OPEN admits nothing ---------------------------------------------------------------

  /** In a run that does not begin OPEN, the breaker was opened no later than now. */
  lemma {:induction false} OpenedBefore(c: Config, run: seq<Sys>, events: seq<Event>, j: nat)
    requires IsRun(c, run, events) && run[0].b.state != Open && j < |run|
    ensures run[j].b.state == Open ==> run[j].b.openedAt <= run[j].clock
  {
    if j > 0 {
      OpenedBefore(c, run, events, j - 1);
      assert run[j - 1 + 1] == Next(c, run[j - 1], events[j - 1]) && Enabled(run[j - 1], events[j - 1]);
    }
  }

  /** Once OPEN at time `T`, and until `T + recovery`, no call reaches the target unless the
      breaker is closed by hand. */
  lemma {:induction false} OpenRejects(c: Config, run: seq<Sys>, events: seq<Event>, i: nat, j: nat)
    requires IsRun(c, run, events) && i <= j < |events| && run[i].b.state == Open
    requires Ended(events[j]) < run[i].b.openedAt + c.recovery
    requires run[0].b.state != Open
    requires forall k :: i <= k < j ==> !events[k].ManualClose?
    ensures run[j].b.state == Open && run[i].b.openedAt <= run[j].b.openedAt <= run[j].clock
    ensures !Admits(run[j], run[j + 1])
    decreases j
  {
    OpenedBefore(c, run, events, i);
    if i < j {
      assert run[j - 1 + 1] == Next(c, run[j - 1], events[j - 1]) && Enabled(run[j], events[j]);
      OpenRejects(c, run, events, i, j - 1);
    }
    assert run[j + 1] == Next(c, run[j], events[j]);
  }

  // ---- The probe quota ---------------------------------------------------------------------

  function AdmitCount(run: seq<Sys>, i: nat, j: nat): nat
    requires i <= j < |run|
    decreases j
  {
    if i == j then 0 else AdmitCount(run, i, j - 1) + if Admits(run[j - 1], run[j]) then 1 else 0
  }

  /** A HALF_OPEN episode, from the step that entered it, admits at most the quota. */
  lemma {:induction false} EpisodeQuota(c: Config, run: seq<Sys>, events: seq<Event>, i: nat, j: nat)
    requires IsRun(c, run, events) && i < j < |run|
    requires run[i].b.state != HalfOpen && forall k :: i < k <= j ==> run[k].b.state == HalfOpen
    ensures run[j].b.probes == AdmitCount(run, i, j)
    ensures AdmitCount(run, i, j) <= if c.maxProbes >= 0 then c.maxProbes else 0
    decreases j
  {
    assert run[j - 1 + 1] == Next(c, run[j - 1], events[j - 1]);
    if i + 1 < j {
      EpisodeQuota(c, run, events, i, j - 1);
    } else {
      assert AdmitCount(run, i, i) == 0;
    }
  }

  // ---- Leaving HALF_OPEN --------------------------------------------------------------------

  /** HALF_OPEN is left exactly by a success, by a failure that brings the window count to the
      threshold, or by hand. */
  lemma HalfOpenExit(c: Config, s: Sys, e: Event)
    requires Enabled(s, e) && s.b.state == HalfOpen
    ensures Next(c, s, e).b.state != HalfOpen <==>
              || e.EndSuccess? || e.ManualOpen? || e.ManualClose?
              || (e.EndFailure? && WindowFailures(c, s.b.failures + [e.recorded], e.counted) >= c.threshold)
    ensures Next(c, s, e).b.state == Open <==>
              || e.ManualOpen?
              || (e.EndFailure? && WindowFailures(c, s.b.failures + [e.recorded], e.counted) >= c.threshold)
  {
  }

  /** The header comment's "if any fail, OPEN": every failed probe reopens the breaker, in
      every HALF_OPEN state with ordered failure times, if and only if the threshold is at
      most one (for a tracker that keeps at least one record and a window that reaches back
      to the failure just recorded). */
  lemma AnyFailureReopensIff(c: Config)
    requires c.maxRecords >= 1 && c.window >= 0.0
    ensures c.threshold <= 1 <==>
              forall b: Breaker, t: real :: b.state == HalfOpen && Nondecreasing(b.failures + [t])
                ==> Failure(c, b, t, t, t).state == Open
  {
    if c.threshold <= 1 {
      forall b: Breaker, t: real | b.state == HalfOpen && Nondecreasing(b.failures + [t])
        ensures Failure(c, b, t, t, t).state == Open
      {
        var h := b.failures + [t];
        WindowExact(h, c.maxRecords, t - c.window);
        CountAtLeast(h, 1, t - c.window);
        assert h[|h| - 1] == t;
      }
    } else {
      var b := Breaker(HalfOpen, 0.0, 1, []);
      CountBound([0.0], 0.0 - c.window);
      assert b.failures + [0.0] == [0.0];
      assert Failure(c, b, 0.0, 0.0, 0.0).state != Open;
    }
  }

  ghost predicate Stuck(c: Config, s: Sys) {
    s.b.state == HalfOpen && s.b.probes >= c.maxProbes && s.inflight == 0
  }

  predicate Manual(e: Event) {
    e.ManualOpen? || e.ManualClose?
  }

  /** A spent quota with nothing in flight is final: whatever is called later, and however
      much time passes, every call is rejected until someone intervenes by hand. */
  lemma {:induction false} StuckForever(c: Config, run: seq<Sys>, events: seq<Event>, i: nat, j: nat)
    requires IsRun(c, run, events) && i <= j < |run| && Stuck(c, run[i])
    requires forall k :: i <= k < j ==> !Manual(events[k])
    ensures Stuck(c, run[j]) && AdmitCount(run, i, j) == 0
    decreases j
  {
    if i < j {
      StuckForever(c, run, events, i, j - 1);
      assert run[j - 1 + 1] == Next(c, run[j - 1], events[j - 1]) && Enabled(run[j - 1], events[j - 1]);
    }
  }

  lemma Extend(c: Config, run: seq<Sys>, events: seq<Event>, e: Event) returns (run': seq<Sys>, events': seq<Event>)
    requires IsRun(c, run, events) && Enabled(run[|run| - 1], e)
    ensures IsRun(c, run', events') && run'[0] == run[0] && |run'| == |run| + 1
    ensures run'[|run'| - 1] == Next(c, run[|run| - 1], e) && events' == events + [e]
    ensures run'[..|run|] == run
  {
    run', events' := run + [Next(c, run[|run| - 1], e)], events + [e];
  }

  /** Sequential calls on a private tracker. */
  predicate Sequential(slack: nat, s: Sys, e: Event) {
    !e.Foreign? && (e.BeginCall? ==> s.inflight == 0) && (e.ManualOpen? ==> s.inflight <= slack)
  }

  ghost predicate OneByOne(slack: nat, run: seq<Sys>, events: seq<Event>) {
    |run| == |events| + 1 && forall k :: 0 <= k < |events| ==> Sequential(slack, run[k], events[k])
  }

  /** No manual control and no failure from elsewhere. */
  predicate Unattended(events: seq<Event>) {
    forall e :: e in events ==> !Manual(e) && !e.Foreign?
  }

  /** No call is cancelled, and each failure is counted within a window of its recording. */
  predicate Uncancelled(c: Config, events: seq<Event>) {
    forall e :: e in events ==> !e.Abandon? && (e.EndFailure? ==> e.counted - e.recorded <= c.window)
  }

  ghost predicate FreshRun(c: Config, run: seq<Sys>, events: seq<Event>) {
    IsRun(c, run, events) && run[0] == Sys(FRESH, 0, run[0].clock) && Unattended(events)
  }

  /** Every probe of the episode is still under way. */
  ghost predicate ProbesOut(s: Sys) {
    s.b.state == HalfOpen ==> s.inflight >= s.b.probes
  }

  /** A failure just recorded is in the window. */
  lemma LastCounts(h: seq<real>, t: real, max: nat, cutoff: real)
    requires max >= 1 && t >= cutoff
    ensures CountFrom(Recent(h + [t], max), cutoff) >= 1
  {
    var r := Recent(h + [t], max);
    assert r[|r| - 1] == t;
  }

  /** With a threshold of at most one, every failed probe ends the episode. */
  lemma {:induction false} ProbesStayOut(c: Config, run: seq<Sys>, events: seq<Event>, j: nat)
    requires FreshRun(c, run, events) && Uncancelled(c, events) && c.threshold <= 1 <= c.maxRecords && j < |run|
    ensures ProbesOut(run[j])
  {
    hide WindowFailures;
    if j > 0 {
      ProbesStayOut(c, run, events, j - 1);
      var e := events[j - 1];
      assert run[j - 1 + 1] == Next(c, run[j - 1], e) && Enabled(run[j - 1], e) && e in events;
      if e.EndFailure? {
        OneTrips(c, run[j - 1].b.failures, e.recorded, e.counted);
      }
    }
  }

  lemma OneTrips(c: Config, h: seq<real>, recorded: real, counted: real)
    requires c.threshold <= 1 <= c.maxRecords && counted - recorded <= c.window
    ensures WindowFailures(c, h + [recorded], counted) >= c.threshold
  {
    LastCounts(h, recorded, c.maxRecords, counted - c.window);
  }

  /** With a threshold above the tracker's capacity no failure opens the breaker. */
  lemma {:induction false} NeverOpens(c: Config, run: seq<Sys>, events: seq<Event>, j: nat)
    requires FreshRun(c, run, events) && c.threshold > c.maxRecords && j < |run|
    ensures run[j].b.state == Closed
  {
    if j > 0 {
      NeverOpens(c, run, events, j - 1);
      var e := events[j - 1];
      assert run[j - 1 + 1] == Next(c, run[j - 1], e) && Enabled(run[j - 1], e) && e in events;
      if e.EndFailure? {
        CountBound(Recent(run[j - 1].b.failures + [e.recorded], c.maxRecords), e.counted - c.window);
      }
    }
  }

  /** Without cancelled calls, the quota can be spent for good if and only if the threshold is
      at least two, and not above what the tracker can count. */
  lemma StuckReachableIff(c: Config)
    requires c.maxProbes >= 1 && c.maxRecords >= 1 && c.window >= 0.0
    ensures 2 <= c.threshold <= c.maxRecords <==>
              exists run, events :: FreshRun(c, run, events) && Uncancelled(c, events) && Stuck(c, run[|run| - 1])
  {
    if 2 <= c.threshold <= c.maxRecords {
      var run, events := StuckReachable(c);
    } else {
      forall run, events | FreshRun(c, run, events) && Uncancelled(c, events) ensures !Stuck(c, run[|run| - 1]) {
        if c.threshold <= 1 {
          ProbesStayOut(c, run, events, |run| - 1);
        } else {
          NeverOpens(c, run, events, |run| - 1);
        }
      }
    }
  }

  /** A cancelled probe gives its place in the quota back to nobody. With cancelled calls, the
      quota can be spent for good whenever the breaker can open at all. */
  lemma CancelledStuckIff(c: Config)
    requires c.window >= 0.0
    ensures c.threshold <= c.maxRecords <==>
              exists run, events :: FreshRun(c, run, events) && Stuck(c, run[|run| - 1])
  {
    if c.threshold <= c.maxRecords {
      var run, events := CancelledStuck(c);
    } else {
      forall run, events | FreshRun(c, run, events) ensures !Stuck(c, run[|run| - 1]) {
        NeverOpens(c, run, events, |run| - 1);
      }
    }
  }

  lemma CancelledStuck(c: Config) returns (run: seq<Sys>, events: seq<Event>)
    requires c.threshold <= c.maxRecords && c.window >= 0.0
    ensures FreshRun(c, run, events) && Stuck(c, run[|run| - 1])
    ensures forall e :: e in events ==> !e.EndSuccess?
  {
    run, events := OpenedAtZero(c, if c.threshold >= 1 then c.threshold else 1);
    var wait := if c.recovery > 0.0 then c.recovery else 0.0;
    run, events := Extend(c, run, events, ReadState(wait));
    run, events := AbandonedProbes(c, run, events, if c.maxProbes >= 0 then c.maxProbes else 0);
  }

  /** Every event so far is a call or its failure, a cancellation or a reading of the state. */
  predicate Plain(events: seq<Event>) {
    forall e :: e in events ==> e.BeginCall? || e.EndFailure? || e.Abandon? || e.ReadState?
  }

  lemma {:induction false} AbandonedProbes(c: Config, run0: seq<Sys>, events0: seq<Event>, n: nat)
      returns (run: seq<Sys>, events: seq<Event>)
    requires n <= c.maxProbes || n == 0
    requires IsRun(c, run0, events0) && Plain(events0)
    requires var s := run0[|run0| - 1]; s.b.state == HalfOpen && s.b.probes == 0 && s.inflight == 0
    ensures IsRun(c, run, events) && run[0] == run0[0] && Plain(events)
    ensures var s := run[|run| - 1]; s.b.state == HalfOpen && s.b.probes == n && s.inflight == 0
    decreases n
  {
    if n == 0 {
      run, events := run0, events0;
    } else {
      run, events := AbandonedProbes(c, run0, events0, n - 1);
      var t := run[|run| - 1].clock;
      run, events := Extend(c, run, events, BeginCall(t));
      run, events := Extend(c, run, events, Abandon(t));
    }
  }

  /** Failing calls alone, with no cancellation, lead from a fresh breaker to `Stuck`. */
  lemma StuckReachable(c: Config) returns (run: seq<Sys>, events: seq<Event>)
    requires 2 <= c.threshold <= c.maxRecords && c.maxProbes >= 0 && c.window >= 0.0
    ensures FreshRun(c, run, events) && Uncancelled(c, events)
    ensures forall e :: e in events ==> !e.EndSuccess?
    ensures Stuck(c, run[|run| - 1])
  {
    run, events := OpenedAtZero(c, c.threshold);
    var wait := (if c.recovery > c.window then c.recovery else c.window) + 1.0;
    assert run[|run| - 1].b.state == Open && wait >= c.recovery && wait > c.window;
    run, events := Extend(c, run, events, ReadState(wait));
    run, events := SpentProbes(c, run, events, c.maxProbes, wait);
  }

  lemma {:induction false} OpenedAtZero(c: Config, n: nat) returns (run: seq<Sys>, events: seq<Event>)
    requires c.threshold <= c.maxRecords && n <= (if c.threshold >= 1 then c.threshold else 1) && c.window >= 0.0
    ensures IsRun(c, run, events) && run[0] == Sys(FRESH, 0, 0.0)
    ensures Plain(events) && Uncancelled(c, events) && OneByOne(0, run, events)
    ensures run[|run| - 1] == FailedAtZero(c, n)
  {
    if n == 0 {
      run, events := [Sys(FRESH, 0, 0.0)], [];
    } else {
      run, events := OpenedAtZero(c, n - 1);
      OneMoreAtZero(c, n);
      hide *;
      run, events := ExtendPlainly(c, run, events, BeginCall(0.0));
      run, events := ExtendPlainly(c, run, events, EndFailure(0.0, 0.0, 0.0));
    }
  }

  /** A breaker after `n` failures at time 0. */
  function FailedAtZero(c: Config, n: nat): Sys {
    Sys(Breaker(if n == 0 || n < c.threshold then Closed else Open, 0.0, 0, seq(n, _ => 0.0)), 0, 0.0)
  }

  lemma OneMoreAtZero(c: Config, n: nat)
    requires 1 <= n <= (if c.threshold >= 1 then c.threshold else 1) && c.threshold <= c.maxRecords && c.window >= 0.0
    ensures var s := FailedAtZero(c, n - 1);
            && Enabled(s, BeginCall(0.0)) && Sequential(0, s, BeginCall(0.0))
            && var t := Next(c, s, BeginCall(0.0));
               && Enabled(t, EndFailure(0.0, 0.0, 0.0)) && Sequential(0, t, EndFailure(0.0, 0.0, 0.0))
               && Next(c, t, EndFailure(0.0, 0.0, 0.0)) == FailedAtZero(c, n)
  {
    var h := seq(n, _ => 0.0);
    assert seq(n - 1, _ => 0.0) + [0.0] == h;
    if c.maxRecords >= n {
      assert Recent(h, c.maxRecords) == h;
    }
    CountBound(h, 0.0 - c.window);
    hide CountFrom, Recent;
  }

  /** One more event of a run of calls, one at a time, with no delay between the recording of a
      failure and its count. */
  lemma ExtendPlainly(c: Config, run: seq<Sys>, events: seq<Event>, e: Event)
      returns (run': seq<Sys>, events': seq<Event>)
    requires IsRun(c, run, events) && Plain(events) && Uncancelled(c, events) && OneByOne(0, run, events)
    requires |run| == |events| + 1 && Enabled(run[|run| - 1], e) && Sequential(0, run[|run| - 1], e)
    requires e.BeginCall? || (e.EndFailure? && e.counted - e.recorded <= c.window)
    ensures IsRun(c, run', events') && Plain(events') && Uncancelled(c, events') && OneByOne(0, run', events')
    ensures |run'| == |events'| + 1 == |run| + 1 && run'[0] == run[0]
    ensures run'[|run'| - 1] == Next(c, run[|run| - 1], e)
  {
    hide Next, Sequential, Enabled;
    run', events' := Extend(c, run, events, e);
    forall k | 0 <= k < |events'| ensures Sequential(0, run'[k], events'[k]) {
      assert run'[k] == run[k];
    }
  }

  /** Probes that fail more than a window apart never bring the count to two. */
  lemma {:induction false} SpentProbes(c: Config, run0: seq<Sys>, events0: seq<Event>, n: nat, t: real)
      returns (run: seq<Sys>, events: seq<Event>)
    requires c.threshold >= 2 && n <= c.maxProbes && c.window >= 0.0
    requires IsRun(c, run0, events0) && Plain(events0) && Uncancelled(c, events0)
    requires var s := run0[|run0| - 1];
             && s.b.state == HalfOpen && s.b.probes == 0 && s.inflight == 0 && s.clock == t
             && forall i :: 0 <= i < |s.b.failures| ==> s.b.failures[i] < t - c.window
    ensures IsRun(c, run, events) && run[0] == run0[0] && Plain(events) && Uncancelled(c, events)
    ensures var s := run[|run| - 1];
            && s.b.state == HalfOpen && s.b.probes == n && s.inflight == 0
            && forall i :: 0 <= i < |s.b.failures| ==> s.b.failures[i] <= s.clock
    decreases n
  {
    if n == 0 {
      run, events := run0, events0;
    } else {
      run, events := SpentProbes(c, run0, events0, n - 1, t);
      var s := run[|run| - 1];
      var t1 := s.clock + c.window + 1.0;
      var h := s.b.failures + [t1];
      CountFromLast(h, c.maxRecords, t1 - c.window);
      run, events := Extend(c, run, events, BeginCall(t1));
      run, events := Extend(c, run, events, EndFailure(t1, t1, t1));
    }
  }

  /** Only the last entry is recent. */
  lemma CountFromLast(h: seq<real>, max: nat, cutoff: real)
    requires h != [] && forall i :: 0 <= i < |h| - 1 ==> h[i] < cutoff
    ensures CountFrom(Recent(h, max), cutoff) <= 1
  {
    var r := Recent(h, max);
    if r != [] {
      var front := r[..|r| - 1];
      assert forall i :: 0 <= i < |front| ==> front[i] == h[|h| - |r| + i];
      CountBound(front, cutoff);
    }
  }

  // ---- When a closed breaker opens ------------------------------------------------------------

  /** A fresh breaker after sequential calls that fail at the given times. Once it is OPEN the
      later ones would be rejected; `Failure` then only records. */
  function AfterFailures(c: Config, times: seq<real>): Breaker {
    if times == [] then FRESH
    else var t := times[|times| - 1]; Failure(c, AfterFailures(c, times[..|times| - 1]), t, t, t)
  }

  /** The last failure and the one `threshold - 1` before it lie within one window. */
  predicate Burst(c: Config, times: seq<real>, k: nat)
    requires k < |times|
  {
    k + 1 >= c.threshold && (c.threshold >= 1 ==> times[k] - times[k + 1 - c.threshold] <= c.window)
  }

  lemma BurstIsCount(c: Config, times: seq<real>)
    requires 1 <= c.threshold <= c.maxRecords && Nondecreasing(times) && times != []
    ensures Burst(c, times, |times| - 1) <==> WindowFailures(c, times, times[|times| - 1]) >= c.threshold
  {
    var cutoff := times[|times| - 1] - c.window;
    WindowExact(times, c.maxRecords, cutoff);
    CountAtLeast(times, c.threshold, cutoff);
  }

  lemma BurstOfPrefix(c: Config, times: seq<real>, n: nat)
    requires n <= |times| && c.threshold >= 1
    ensures forall k :: 0 <= k < n ==> Burst(c, times, k) == Burst(c, times[..n], k)
  {
  }

  ghost predicate AnyBurst(c: Config, times: seq<real>) {
    exists k :: 0 <= k < |times| && Burst(c, times, k)
  }

  lemma AnyBurstStep(c: Config, times: seq<real>)
    requires c.threshold >= 1 && times != []
    ensures AnyBurst(c, times) <==> AnyBurst(c, times[..|times| - 1]) || Burst(c, times, |times| - 1)
  {
    BurstOfPrefix(c, times, |times| - 1);
    hide Burst;
    var n := |times| - 1;
    var front := times[..n];
    if k :| 0 <= k < n && Burst(c, front, k) {
      assert Burst(c, times, k);
    }
  }

  /** Exactly when failing calls open a fresh breaker: at the first failure that completes
      `threshold` of them within one window. */
  lemma {:induction false} OpensIffBurst(c: Config, times: seq<real>)
    requires 1 <= c.threshold <= c.maxRecords && Nondecreasing(times)
    ensures AfterFailures(c, times).failures == times && AfterFailures(c, times).state != HalfOpen
    ensures AfterFailures(c, times).state == Open <==> AnyBurst(c, times)
  {
    if times != [] {
      var n := |times| - 1;
      var front := times[..n];
      assert Nondecreasing(front) && front + [times[n]] == times;
      BurstIsCount(c, times);
      AnyBurstStep(c, times);
      hide AnyBurst, Burst, WindowFailures, Nondecreasing;
      OpensIffBurst(c, front);
    }
  }

  /** Sequential calls on a fresh breaker that fail at the given times, none of them a burst
      before the last: each is admitted, and the run ends in the state above. It is OPEN if
      and only if the last failure completes a burst. */
  lemma {:induction false} FailingCalls(c: Config, times: seq<real>, clock: real)
      returns (run: seq<Sys>, events: seq<Event>)
    requires 1 <= c.threshold <= c.maxRecords && Nondecreasing(times) && (times != [] ==> clock <= times[0])
    requires forall k :: 0 <= k < |times| - 1 ==> !Burst(c, times, k)
    ensures IsRun(c, run, events) && Plain(events) && run[0] == Sys(FRESH, 0, clock)
    ensures run[|run| - 1] == Sys(AfterFailures(c, times), 0, if times == [] then clock else times[|times| - 1])
    ensures run[|run| - 1].b.state == Open <==> times != [] && Burst(c, times, |times| - 1)
  {
    if times == [] {
      run, events := [Sys(FRESH, 0, clock)], [];
    } else {
      var n := |times| - 1;
      var front := times[..n];
      BurstOfPrefix(c, times, n);
      hide Burst, AfterFailures, Nondecreasing;
      FrontOrdered(times);
      run, events := FailingCalls(c, front, clock);
      StillClosed(c, front);
      StillClosed(c, times);
      FailsOnce(c, times);
      run, events := Extend(c, run, events, BeginCall(times[n]));
      run, events := Extend(c, run, events, EndFailure(times[n], times[n], times[n]));
    }
  }

  lemma FrontOrdered(times: seq<real>)
    requires Nondecreasing(times) && times != []
    ensures Nondecreasing(times[..|times| - 1])
    ensures |times| > 1 ==> times[|times| - 2] <= times[|times| - 1]
    ensures times[0] <= times[|times| - 1]
  {
  }

  lemma FailsOnce(c: Config, times: seq<real>)
    requires times != []
    ensures var t := times[|times| - 1];
            AfterFailures(c, times) == Failure(c, AfterFailures(c, times[..|times| - 1]), t, t, t)
  {
  }

  lemma StillClosed(c: Config, times: seq<real>)
    requires 1 <= c.threshold <= c.maxRecords && Nondecreasing(times)
    requires forall k :: 0 <= k < |times| - 1 ==> !Burst(c, times, k)
    ensures AfterFailures(c, times).state == Open <==> times != [] && Burst(c, times, |times| - 1)
    ensures AfterFailures(c, times).state != HalfOpen
  {
    hide Burst, AfterFailures, Nondecreasing;
    OpensIffBurst(c, times);
  }

  /** `n` gaps */
  function Stretch(n: int, gap: real): real {
    (n as real) * gap
  }

  lemma Multiples(gap: real, i: nat, j: nat)
    requires i <= j && gap >= 0.0
    ensures Stretch(j, gap) - Stretch(i, gap) == Stretch(j - i, gap) >= 0.0
  {
    assert ((j - i) as real) >= 0.0;
  }

  lemma StretchNext(gap: real, n: nat)
    ensures Stretch(n + 1, gap) == Stretch(n, gap) + gap && Stretch(0, gap) == 0.0
  {
  }

  lemma {:induction false} Gaps(times: seq<real>, gap: real, i: nat, n: nat)
    requires i + n < |times| && forall k :: 0 <= k < |times| - 1 ==> times[k + 1] - times[k] >= gap
    ensures times[i + n] - times[i] >= Stretch(n, gap)
  {
    hide Stretch;
    StretchNext(gap, if n > 0 then n - 1 else 0);
    if n > 0 {
      Gaps(times, gap, i, n - 1);
      assert times[i + n - 1 + 1] - times[i + n - 1] >= gap;
    }
  }

  ghost predicate Spaced(t0: real, gap: real, times: seq<real>) {
    forall k :: 0 <= k < |times| ==> times[k] == t0 + Stretch(k, gap)
  }

  /** `threshold - 1` gaps fit into the window. */
  predicate Fits(c: Config, gap: real) {
    Stretch(c.threshold - 1, gap) <= c.window
  }

  lemma SpacedBurst(c: Config, t0: real, gap: real, times: seq<real>, k: nat)
    requires Spaced(t0, gap, times) && gap >= 0.0 && 1 <= c.threshold && k < |times|
    ensures Burst(c, times, k) <==> k + 1 >= c.threshold && Fits(c, gap)
  {
    hide Stretch;
    if k + 1 >= c.threshold {
      Multiples(gap, k + 1 - c.threshold, k);
    }
  }

  lemma SpacedOrdered(t0: real, gap: real, times: seq<real>)
    requires Spaced(t0, gap, times) && gap >= 0.0
    ensures Nondecreasing(times)
  {
    hide Stretch;
    forall i, j | 0 <= i < j < |times| ensures times[i] <= times[j] {
      Multiples(gap, i, j);
    }
  }

  /** Failures exactly `gap` apart open a fresh breaker if and only if `threshold - 1` gaps
      fit into the window. */
  lemma SpacedFailures(c: Config, t0: real, gap: real, times: seq<real>)
    requires 1 <= c.threshold <= c.maxRecords && gap >= 0.0 && |times| >= c.threshold && Spaced(t0, gap, times)
    ensures AfterFailures(c, times).state == Open <==> Fits(c, gap)
  {
    hide Burst, Spaced, Nondecreasing, Fits, AfterFailures;
    SpacedOrdered(t0, gap, times);
    OpensIffBurst(c, times);
    forall k | 0 <= k < |times|
      ensures Burst(c, times, k) <==> k + 1 >= c.threshold && Fits(c, gap)
    {
      SpacedBurst(c, t0, gap, times, k);
    }
    assert Burst(c, times, c.threshold - 1) <==> Fits(c, gap);
  }

  /** Failures at least `gap` apart, with `threshold - 1` gaps longer than the window, never
      open a fresh breaker. */
  lemma SparseFailuresNeverOpen(c: Config, gap: real, times: seq<real>)
    requires 1 <= c.threshold <= c.maxRecords && gap >= 0.0
    requires forall k :: 0 <= k < |times| - 1 ==> times[k + 1] - times[k] >= gap
    requires !Fits(c, gap)
    ensures AfterFailures(c, times).state == Closed
  {
    hide Stretch;
    forall i, j | 0 <= i < j < |times| ensures times[i] <= times[j] {
      Gaps(times, gap, i, j - i);
      Multiples(gap, i, j);
    }
    forall k | 0 <= k < |times| ensures !Burst(c, times, k) {
      if k + 1 >= c.threshold {
        Gaps(times, gap, k + 1 - c.threshold, c.threshold - 1);
      }
    }
    hide Burst;
    OpensIffBurst(c, times);
  }

  // ---- The history of failures ----------------------------------------------------------------

  /** The failures on record after the events: those reported by calls and by other components,
      in order, since the breaker was last closed by hand. Successes, rejections, cancelled
      calls and the opening and closing of the breaker do not touch them. */
  function Recorded(initial: seq<real>, events: seq<Event>): seq<real> {
    if events == [] then initial
    else
      var h := Recorded(initial, events[..|events| - 1]);
      match events[|events| - 1]
      case EndFailure(recorded, _, _) => h + [recorded]
      case Foreign(now) => h + [now]
      case ManualClose(_) => []
      case _ => h
  }

  /** In every run the tracker holds exactly that history. */
  lemma {:induction false} HistoryExact(c: Config, run: seq<Sys>, events: seq<Event>, j: nat)
    requires IsRun(c, run, events) && j < |run|
    ensures run[j].b.failures == Recorded(run[0].b.failures, events[..j])
  {
    if j > 0 {
      HistoryExact(c, run, events, j - 1);
      assert run[j - 1 + 1] == Next(c, run[j - 1], events[j - 1]);
      assert events[..j][..j - 1] == events[..j - 1];
    }
  }

  ghost predicate InThePast(times: seq<real>, now: real) {
    Nondecreasing(times) && forall i :: 0 <= i < |times| ==> times[i] <= now
  }

  lemma {:induction false} HistoryOrdered(c: Config, run: seq<Sys>, events: seq<Event>, j: nat)
    requires IsRun(c, run, events) && j < |run| && InThePast(run[0].b.failures, run[0].clock)
    ensures InThePast(run[j].b.failures, run[j].clock)
  {
    if j > 0 {
      HistoryOrdered(c, run, events, j - 1);
      assert run[j - 1 + 1] == Next(c, run[j - 1], events[j - 1]) && Enabled(run[j - 1], events[j - 1]);
    }
  }

  lemma FailedCall(c: Config, s: Sys, e: Event)
    requires Enabled(s, e) && e.EndFailure? && s.b.state != Open
    ensures var h, b := s.b.failures + [e.recorded], Next(c, s, e).b;
            && b.failures == h
            && (b.state == Open <==> CountFrom(Recent(h, c.maxRecords), e.counted - c.window) >= c.threshold)
            && (b.state == Open ==> b.openedAt == e.tripped)
            && (b.state != Open ==> b.state == s.b.state)
  {
    hide CountFrom, Recent;
  }

  lemma StepAt(c: Config, run: seq<Sys>, events: seq<Event>, j: nat)
    requires IsRun(c, run, events) && j < |events|
    ensures |run| == |events| + 1 && Enabled(run[j], events[j]) && run[j + 1] == Next(c, run[j], events[j])
  {
  }

  /** In every run, successes, cancellations and other components' failures included: the
      failure of a call opens a breaker that is not OPEN if and only if, with it, the last
      `threshold` failures of the history fall within the window. */
  lemma OpensExactly(c: Config, run: seq<Sys>, events: seq<Event>, j: nat)
    requires |run| == |events| + 1 && IsRun(c, run, events) && j < |events|
    requires InThePast(run[0].b.failures, run[0].clock)
    requires 1 <= c.threshold <= c.maxRecords && events[j].EndFailure? && run[j].b.state != Open
    ensures var h := Recorded(run[0].b.failures, events[..j + 1]);
            && (run[j + 1].b.state == Open <==>
                  |h| >= c.threshold && h[|h| - c.threshold] >= events[j].counted - c.window)
            && (run[j + 1].b.state == Open ==> run[j + 1].b.openedAt == events[j].tripped)
            && (run[j + 1].b.state != Open ==> run[j + 1].b.state == run[j].b.state)
  {
    hide *;
    StepAt(c, run, events, j);
    HistoryExact(c, run, events, j + 1);
    HistoryOrdered(c, run, events, j + 1);
    FailedCall(c, run[j], events[j]);
    CountedInWindow(c, run[j + 1].b.failures, run[j + 1].clock, events[j].counted - c.window);
  }

  lemma CountedInWindow(c: Config, h: seq<real>, now: real, cutoff: real)
    requires InThePast(h, now) && 1 <= c.threshold <= c.maxRecords
    ensures CountFrom(Recent(h, c.maxRecords), cutoff) >= c.threshold
        <==> |h| >= c.threshold && h[|h| - c.threshold] >= cutoff
  {
    WindowExact(h, c.maxRecords, cutoff);
    CountAtLeast(h, c.threshold, cutoff);
  }

  /** No other event opens the breaker but `ManualOpen`, and a success leaves it CLOSED unless
      it was OPEN. */
  lemma OtherEvents(c: Config, s: Sys, e: Event)
    requires Enabled(s, e) && !e.EndFailure?
    ensures Next(c, s, e).b.state == Open ==> s.b.state == Open || e.ManualOpen?
    ensures e.EndSuccess? ==> Next(c, s, e).b.state == if s.b.state == HalfOpen then Closed else s.b.state
    ensures s.b.state == Closed && Next(c, s, e).b.state != Closed ==> e.ManualOpen?
  {
  }

  // ---- Health -------------------------------------------------------------------------------------

  /** Failures recorded after the breaker was opened. */
  function LateFailures(failures: seq<real>, openedAt: real): nat {
    if failures == [] then 0
    else LateFailures(failures[..|failures| - 1], openedAt) + if failures[|failures| - 1] > openedAt then 1 else 0
  }

  lemma {:induction false} LateBounds(failures: seq<real>, openedAt: real, cutoff: real)
    requires openedAt < cutoff
    ensures CountFrom(failures, cutoff) <= LateFailures(failures, openedAt)
  {
    if failures != [] {
      LateBounds(failures[..|failures| - 1], openedAt, cutoff);
    }
  }

  lemma {:induction false} NoneLate(failures: seq<real>, openedAt: real)
    requires forall i :: 0 <= i < |failures| ==> failures[i] <= openedAt
    ensures LateFailures(failures, openedAt) == 0
  {
    if failures != [] {
      NoneLate(failures[..|failures| - 1], openedAt);
    }
  }

  /** `slack` is 0 when the manual controls are used only between calls, and 1 otherwise. */
  ghost predicate HealthInv(c: Config, slack: nat, s: Sys) {
    && s.inflight <= 1
    && Nondecreasing(s.b.failures)
    && (forall i :: 0 <= i < |s.b.failures| ==> s.b.failures[i] <= s.clock)
    && (s.b.state != Open ==> CountFrom(s.b.failures, s.clock - c.window) < c.threshold)
    && (s.b.state == Open ==>
          s.b.openedAt <= s.clock && LateFailures(s.b.failures, s.b.openedAt) + s.inflight <= slack)
  }

  lemma RefreshKeepsHealth(c: Config, slack: nat, s: Sys, now: real)
    requires HealthInv(c, slack, s) && s.clock <= now && slack < c.threshold && c.recovery > c.window
    ensures HealthInv(c, slack, Sys(Refresh(c, s.b, now), s.inflight, now))
  {
    CountMonotone(s.b.failures, s.clock - c.window, now - c.window);
    if s.b.state == Open && now - s.b.openedAt >= c.recovery {
      LateBounds(s.b.failures, s.b.openedAt, now - c.window);
    }
  }

  lemma FailureKeepsHealth(c: Config, slack: nat, s: Sys, recorded: real, counted: real, tripped: real)
    requires HealthInv(c, slack, s) && s.inflight > 0 && s.clock <= recorded <= counted <= tripped
    requires slack < c.threshold <= c.maxRecords
    ensures HealthInv(c, slack, Sys(Failure(c, s.b, recorded, counted, tripped), s.inflight - 1, tripped))
  {
    var h := s.b.failures + [recorded];
    assert h[..|h| - 1] == s.b.failures;
    if s.b.state != Open {
      WindowExact(h, c.maxRecords, counted - c.window);
      CountMonotone(h, counted - c.window, tripped - c.window);
      NoneLate(h, tripped);
    }
  }

  lemma ManualKeepsHealth(c: Config, slack: nat, s: Sys, now: real)
    requires HealthInv(c, slack, s) && s.clock <= now && slack < c.threshold
    ensures s.inflight <= slack ==> HealthInv(c, slack, Sys(ForceOpen(s.b, now), s.inflight, now))
    ensures HealthInv(c, slack, Sys(ForceClose(s.b), s.inflight, now))
  {
    NoneLate(s.b.failures, now);
  }

  lemma EndKeepsHealth(c: Config, slack: nat, s: Sys, now: real)
    requires HealthInv(c, slack, s) && s.clock <= now && s.inflight > 0
    ensures HealthInv(c, slack, Sys(Success(s.b), s.inflight - 1, now))
    ensures HealthInv(c, slack, Sys(s.b, s.inflight - 1, now))
  {
    CountMonotone(s.b.failures, s.clock - c.window, now - c.window);
  }

  lemma BeginKeepsHealth(c: Config, slack: nat, s: Sys, now: real)
    requires HealthInv(c, slack, s) && s.clock <= now && slack < c.threshold && c.recovery > c.window && s.inflight == 0
    ensures var (b, admitted) := Begin(c, s.b, now); HealthInv(c, slack, Sys(b, if admitted then 1 else 0, now))
  {
    RefreshKeepsHealth(c, slack, s, now);
  }

  lemma NextKeepsHealth(c: Config, slack: nat, s: Sys, e: Event)
    requires HealthInv(c, slack, s) && Enabled(s, e) && Sequential(slack, s, e)
    requires slack < c.threshold <= c.maxRecords && c.recovery > c.window
    ensures HealthInv(c, slack, Next(c, s, e))
  {
    hide HealthInv, Begin, Refresh, Success, Failure, ForceOpen, ForceClose;
    match e
    case BeginCall(now) => BeginKeepsHealth(c, slack, s, now);
    case ReadState(now) => RefreshKeepsHealth(c, slack, s, now);
    case EndSuccess(now) => EndKeepsHealth(c, slack, s, now);
    case Abandon(now) => EndKeepsHealth(c, slack, s, now);
    case EndFailure(r, n, o) => FailureKeepsHealth(c, slack, s, r, n, o);
    case ManualOpen(now) => ManualKeepsHealth(c, slack, s, now);
    case ManualClose(now) => ManualKeepsHealth(c, slack, s, now);
    case Foreign(now) =>
  }

  /** With a private tracker, sequential calls, `threshold <= maxRecords` and a recovery time
      longer than the window, every reachable state that is not OPEN has fewer window
      failures than the threshold. With the manual controls used in mid-call this needs a
      threshold of at least two; used only between calls, one is enough. */
  lemma {:induction false} HealthHolds(c: Config, slack: nat, run: seq<Sys>, events: seq<Event>, j: nat)
    requires IsRun(c, run, events) && run[0] == Sys(FRESH, 0, run[0].clock) && j < |run|
    requires OneByOne(slack, run, events)
    requires slack < c.threshold <= c.maxRecords && c.recovery > c.window
    ensures HealthInv(c, slack, run[j])
    ensures run[j].b.state != Open ==> WindowFailures(c, run[j].b.failures, run[j].clock) < c.threshold
  {
    hide HealthInv, Next, Enabled, Sequential;
    if j == 0 {
      FreshIsHealthy(c, slack, run[0]);
    } else {
      HealthHolds(c, slack, run, events, j - 1);
      assert run[j - 1 + 1] == Next(c, run[j - 1], events[j - 1]) && Sequential(slack, run[j - 1], events[j - 1]);
      NextKeepsHealth(c, slack, run[j - 1], events[j - 1]);
    }
    if run[j].b.state != Open {
      HealthMeans(c, slack, run[j]);
    }
  }

  lemma FreshIsHealthy(c: Config, slack: nat, s: Sys)
    requires s == Sys(FRESH, 0, s.clock) && c.threshold > 0
    ensures HealthInv(c, slack, s)
  {
  }

  lemma HealthMeans(c: Config, slack: nat, s: Sys)
    requires HealthInv(c, slack, s) && c.threshold <= c.maxRecords && s.b.state != Open
    ensures WindowFailures(c, s.b.failures, s.clock) < c.threshold
  {
    WindowExact(s.b.failures, c.maxRecords, s.clock - c.window);
  }

  ghost predicate Healthy(c: Config, s: Sys) {
    s.b.state != Open ==> WindowFailures(c, s.b.failures, s.clock) < c.threshold
  }

  ghost predicate SequentialRun(c: Config, slack: nat, run: seq<Sys>, events: seq<Event>) {
    IsRun(c, run, events) && run[0] == Sys(FRESH, 0, run[0].clock) && OneByOne(slack, run, events)
  }

  /** What the settings must satisfy for that. */
  predicate StaysHealthy(c: Config, slack: nat) {
    c.threshold >= 1 && (c.threshold > c.maxRecords || (c.recovery > c.window && c.threshold > slack))
  }

  /** The conditions of `HealthHolds` are needed: in all sequential runs every state that is
      not OPEN is below the threshold if and only if the tracker cannot count that far, or the
      recovery time is longer than the window and a threshold of one is not combined with
      manual controls in mid-call. */
  lemma HealthIff(c: Config, slack: nat)
    requires slack <= 1 && c.window >= 0.0
    ensures StaysHealthy(c, slack) <==>
              forall run, events, j :: SequentialRun(c, slack, run, events) && 0 <= j < |run| ==> Healthy(c, run[j])
  {
    hide WindowFailures;
    if StaysHealthy(c, slack) {
      forall run, events, j | SequentialRun(c, slack, run, events) && 0 <= j < |run| ensures Healthy(c, run[j]) {
        if c.threshold > c.maxRecords {
          TrackerTooSmall(c, run[j]);
        } else {
          HealthHolds(c, slack, run, events, j);
        }
      }
    } else {
      var run, events := Unhealthy(c, slack);
    }
  }

  lemma TrackerTooSmall(c: Config, s: Sys)
    requires c.threshold > c.maxRecords
    ensures Healthy(c, s)
  {
    CountBound(Recent(s.b.failures, c.maxRecords), s.clock - c.window);
  }

  lemma Unhealthy(c: Config, slack: nat) returns (run: seq<Sys>, events: seq<Event>)
    requires slack <= 1 && c.window >= 0.0 && !StaysHealthy(c, slack)
    ensures SequentialRun(c, slack, run, events) && !Healthy(c, run[|run| - 1])
  {
    var wait := if c.recovery > 0.0 then c.recovery else 0.0;
    if c.threshold <= 0 {
      run, events := [Sys(FRESH, 0, 0.0)], [];
    } else if c.recovery <= c.window {
      run, events := OpenedAtZero(c, c.threshold);
      run, events := Extend(c, run, events, ReadState(wait));
      var zeros := seq(c.threshold, _ => 0.0);
      CountBound(zeros, wait - c.window);
      assert Recent(zeros, c.maxRecords) == zeros;
    } else {
      run, events := OpenedInMidCall(c, wait);
    }
  }

  /** The chat orchestrator's own settings recover after 30 seconds of a 60-second window: five
      failures in a row leave a breaker that lets calls through again while it still counts
      all five. */
  lemma DefaultUnhealthy() returns (run: seq<Sys>, events: seq<Event>)
    ensures var c := Config(5, 30.0, 3, 60.0, 1000);
            && SequentialRun(c, 0, run, events) && run[|run| - 1].b.state == HalfOpen
            && WindowFailures(c, run[|run| - 1].b.failures, run[|run| - 1].clock) == 5
  {
    var c := Config(5, 30.0, 3, 60.0, 1000);
    run, events := OpenedAtZero(c, 5);
    run, events := Extend(c, run, events, ReadState(30.0));
    var zeros := seq(5, _ => 0.0);
    CountBound(zeros, -30.0);
    assert Recent(zeros, c.maxRecords) == zeros;
  }

  /** A breaker with a threshold of one, opened by hand in mid-call, goes HALF_OPEN just as the
      failure of that call comes in. */
  lemma OpenedInMidCall(c: Config, wait: real) returns (run: seq<Sys>, events: seq<Event>)
    requires c.threshold == 1 <= c.maxRecords && c.window >= 0.0 && wait >= 0.0 && wait >= c.recovery
    ensures SequentialRun(c, 1, run, events) && !Healthy(c, run[|run| - 1])
  {
    run, events := [Sys(FRESH, 0, 0.0)], [];
    run, events := Extend(c, run, events, BeginCall(0.0));
    run, events := Extend(c, run, events, ManualOpen(0.0));
    run, events := Extend(c, run, events, EndFailure(wait, wait, wait));
    assert run[|run| - 1] == Sys(Breaker(Open, 0.0, 0, [wait]), 0, wait);
    run, events := Extend(c, run, events, ReadState(wait));
    CountBound([wait], wait - c.window);
    assert Recent([wait], c.maxRecords) == [wait];
  }

  /** With a threshold of one, a breaker opened by hand in mid-call can reach HALF_OPEN with
      its window count already at the threshold. */
  lemma ThresholdOneCanBeUnhealthy() returns (run: seq<Sys>, events: seq<Event>)
    ensures var c := Config(1, 30.0, 3, 20.0, 1000);
            && IsRun(c, run, events) && run[0] == Sys(FRESH, 0, 0.0)
            && OneByOne(1, run, events)
            && var s := run[|run| - 1];
               s.b.state == HalfOpen && WindowFailures(c, s.b.failures, s.clock) >= c.threshold
  {
    var c := Config(1, 30.0, 3, 20.0, 1000);
    var s0, s1 := Sys(FRESH, 0, 0.0), Sys(FRESH, 1, 0.0);
    var s2 := Sys(Breaker(Open, 1.0, 0, []), 1, 1.0);
    var s3 := Sys(Breaker(Open, 1.0, 0, [25.0]), 0, 25.0);
    var s4 := Sys(Breaker(HalfOpen, 1.0, 0, [25.0]), 0, 31.0);
    var e0, e1, e2, e3 := BeginCall(0.0), ManualOpen(1.0), EndFailure(25.0, 25.0, 25.0), ReadState(31.0);
    CountBound([25.0], 11.0);
    assert WindowFailures(c, s4.b.failures, s4.clock) == 1;
    hide WindowFailures;
    assert Enabled(s0, e0) && Next(c, s0, e0) == s1 && Sequential(1, s0, e0);
    assert Enabled(s1, e1) && Next(c, s1, e1) == s2 && Sequential(1, s1, e1);
    assert Enabled(s2, e2) && Next(c, s2, e2) == s3 && Sequential(1, s2, e2);
    assert Enabled(s3, e3) && Next(c, s3, e3) == s4 && Sequential(1, s3, e3);
    hide Enabled, Next, Sequential;
    run, events := [s0, s1, s2, s3, s4], [e0, e1, e2, e3];
  }
}
