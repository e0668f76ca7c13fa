/** `RetryPolicy.execute` (app/reliability/retry_policy.py) and the chain breaker, retry,
    timeout of `_safe_llm_ask` (app/orchestrator/chat_orchestrator.py). */
module LlmCalls {
  import opened FailureTracking
  import opened CircuitBreaking
  import opened BreakerRuns

  datatype AttemptKind = Ok | Retryable | Fatal

  /** One attempt: how it ends, after how long, and the random draw in [0, 1] used for the
      delay that follows it. */
  datatype Attempt = Attempt(kind: AttemptKind, duration: real, draw: real)

  datatype RetryOutcome = Succeeded | Exhausted(attempts: nat) | Reraised

  /** Attempts are numbered from 1. */
  type Plan = nat -> Attempt

  /** `min(max_delay, random.uniform(base_delay, delay * 3))`. */
  function NextDelay(base: real, max: real, delay: real, draw: real): real {
    var d := base + Part(delay * 3.0 - base, draw);
    if d <= max then d else max
  }

  function Part(width: real, draw: real): real {
    width * draw
  }

  /** The delay is a point between the base and three times the last one, cut off at the
      maximum: the base for draw 0, three times the last one for draw 1, and further along for
      a larger draw. */
  lemma NextDelayExact(base: real, max: real, delay: real, draw: real, larger: real)
    requires base <= max && base <= delay * 3.0 && draw <= larger
    ensures NextDelay(base, max, delay, 0.0) == base
    ensures NextDelay(base, max, delay, 1.0) == if delay * 3.0 <= max then delay * 3.0 else max
    ensures NextDelay(base, max, delay, draw) <= NextDelay(base, max, delay, larger)
  {
    PartExact(delay * 3.0 - base, draw, larger);
    hide Part;
  }

  lemma PartExact(width: real, x: real, y: real)
    requires width >= 0.0 && x <= y
    ensures Part(width, 0.0) == 0.0 && Part(width, 1.0) == width && Part(width, x) <= Part(width, y)
  {
    assert width * (y - x) >= 0.0;
    assert width * (y - x) == width * y - width * x;
  }

  /** The delay slept after attempt `k`. */
  function Delay(base: real, max: real, plan: Plan, k: nat): real {
    if k == 0 then base else NextDelay(base, max, Delay(base, max, plan, k - 1), plan(k).draw)
  }

  /** The time `n` attempts and the delays between them take. */
  function Elapsed(base: real, max: real, plan: Plan, n: nat): real {
    if n == 0 then 0.0
    else
      Elapsed(base, max, plan, n - 1) + plan(n).duration + if n > 1 then Delay(base, max, plan, n - 1) else 0.0
  }

  /** When each of the first `n` attempts ends. */
  function AttemptEnds(base: real, max: real, plan: Plan, start: real, n: nat): (ends: seq<real>)
    ensures |ends| == n && forall k :: 0 <= k < n ==> ends[k] == start + Elapsed(base, max, plan, k + 1)
  {
    if n == 0 then [] else AttemptEnds(base, max, plan, start, n - 1) + [start + Elapsed(base, max, plan, n)]
  }

  ghost predicate Draws(plan: Plan) {
    forall k: nat :: 0.0 <= plan(k).draw <= 1.0
  }

  lemma {:induction false} DelayBounds(base: real, max: real, plan: Plan, k: nat)
    requires 0.0 <= base <= max && Draws(plan)
    ensures base <= Delay(base, max, plan, k) <= max
  {
    if k > 0 {
      DelayBounds(base, max, plan, k - 1);
      var d := Delay(base, max, plan, k - 1);
      PartExact(d * 3.0 - base, 0.0, plan(k).draw);
    }
  }

  lemma {:induction false} ElapsedAtLeast(base: real, max: real, plan: Plan, timeout: real, n: nat)
    requires 0.0 <= base <= max && Draws(plan) && n >= 1
    requires forall k: nat :: 1 <= k <= n ==> plan(k).duration >= timeout
    ensures Elapsed(base, max, plan, n) >= (n as real) * timeout + ((n - 1) as real) * base
  {
    if n == 1 {
      assert Elapsed(base, max, plan, 0) == 0.0;
    } else {
      ElapsedAtLeast(base, max, plan, timeout, n - 1);
      DelayBounds(base, max, plan, n - 1);
      assert Elapsed(base, max, plan, n) == Elapsed(base, max, plan, n - 1) + plan(n).duration + Delay(base, max,
              plan, n - 1);
      OneMore(Elapsed(base, max, plan, n - 1), plan(n).duration, Delay(base, max, plan, n - 1), timeout, base, n);
    }
  }

  lemma OneMore(e: real, duration: real, delay: real, timeout: real, base: real, n: nat)
    requires n >= 2 && e >= ((n - 1) as real) * timeout + ((n - 2) as real) * base && duration >= timeout
        && delay >= base
    ensures e + duration + delay >= (n as real) * timeout + ((n - 1) as real) * base
  {
  }

  lemma {:induction false} ElapsedAtMost(base: real, max: real, plan: Plan, longest: real, n: nat)
    requires 0.0 <= base <= max && Draws(plan) && n >= 1
    requires forall k: nat :: 1 <= k <= n ==> plan(k).duration <= longest
    ensures Elapsed(base, max, plan, n) <= (n as real) * longest + ((n - 1) as real) * max
  {
    hide NextDelay, Delay;
    if n == 1 {
      assert Elapsed(base, max, plan, 0) == 0.0;
    } else {
      ElapsedAtMost(base, max, plan, longest, n - 1);
      DelayBounds(base, max, plan, n - 1);
      var e, d := Elapsed(base, max, plan, n - 1), Delay(base, max, plan, n - 1);
      assert Elapsed(base, max, plan, n) == e + plan(n).duration + d;
      hide Elapsed;
      OneMore(-e, -plan(n).duration, -d, -longest, -max, n);
    }
  }

  /** `base` times three to the `k`. */
  function Tripled(base: real, k: nat): real {
    if k == 0 then base else 3.0 * Tripled(base, k - 1)
  }

  /** With the largest draw every time, the delays grow threefold up to the maximum. */
  lemma {:induction false} DelaysGrow(base: real, max: real, plan: Plan, k: nat)
    requires 0.0 <= base <= max && forall j: nat :: 1 <= j <= k ==> plan(j).draw == 1.0
    ensures base <= Tripled(base, k)
    ensures Delay(base, max, plan, k) == if Tripled(base, k) <= max then Tripled(base, k) else max
  {
    if k > 0 {
      DelaysGrow(base, max, plan, k - 1);
      NextDelayExact(base, max, Delay(base, max, plan, k - 1), 1.0, 1.0);
      hide NextDelay;
    }
  }

  class RetryPolicy {
    const maxRetries: nat
    const baseDelay: real
    const maxDelay: real
    const tracker: FailureTracker

    constructor (maxRetries: nat := 3, baseDelay: real := 1.0, maxDelay: real := 30.0, tracker: FailureTracker)
      ensures this.maxRetries == maxRetries && this.baseDelay == baseDelay && this.maxDelay == maxDelay
      ensures this.tracker == tracker
    {
      this.maxRetries, this.baseDelay, this.maxDelay, this.tracker := maxRetries, baseDelay, maxDelay, tracker;
    }

    /** `n` attempts are made: up to the first that does not fail transiently, but no more
        than `maxRetries + 1`. Every failed attempt is recorded, and the success. */
    method Execute(plan: Plan, start: real) returns (o: RetryOutcome, n: nat, end: real)
      requires tracker.Valid()
      modifies tracker
      ensures tracker.Valid() && 1 <= n <= maxRetries + 1
      ensures forall k: nat :: 1 <= k < n ==> plan(k).kind == Retryable
      ensures match plan(n).kind
              case Ok => o == Succeeded
              case Fatal => o == Reraised
              case Retryable => n == maxRetries + 1 && o == Exhausted(n)
      ensures end == start + Elapsed(baseDelay, maxDelay, plan, n)
      ensures tracker.failureTimes == old(tracker.failureTimes)
                + AttemptEnds(baseDelay, maxDelay, plan, start, if o == Succeeded then n - 1 else n)
      ensures tracker.successTimes == old(tracker.successTimes) + if o == Succeeded then [end] else []
    {
      hide NextDelay, FailureTracker.Valid;
      var delay := baseDelay;
      end := start;
      for attempt := 1 to maxRetries + 2
        invariant tracker.Valid()
        invariant forall k: nat :: 1 <= k < attempt ==> plan(k).kind == Retryable
        invariant attempt <= maxRetries + 1
        invariant delay == Delay(baseDelay, maxDelay, plan, attempt - 1)
        invariant end == start + Elapsed(baseDelay, maxDelay, plan, attempt - 1) + if attempt > 1 then delay else 0.0
        invariant tracker.failureTimes == old(tracker.failureTimes)
                    + AttemptEnds(baseDelay, maxDelay, plan, start, attempt - 1)
        invariant tracker.successTimes == old(tracker.successTimes)
      {
        n := attempt;
        end := end + plan(attempt).duration;
        match plan(attempt).kind {
          case Ok =>
            tracker.RecordSuccess(end);
            return Succeeded, n, end;
          case Retryable =>
            tracker.RecordFailure(end, "");
            if attempt > maxRetries {
              break;
            }
            delay := NextDelay(baseDelay, maxDelay, delay, plan(attempt).draw);
            end := end + delay;
          case Fatal =>
            tracker.RecordFailure(end, "");
            return Reraised, n, end;
        }
      }
      return Exhausted(n), n, end;
    }
  }

  datatype Reply = Answer | FallbackText | RaisedError

  /** One `_safe_llm_ask` begun at `now`. The breaker's clock readings at the end of the call
      all give the instant at which it ended. */
  method SafeLlmAsk(breaker: CircuitBreaker, retry: RetryPolicy, plan: Plan, now: real)
      returns (reply: Reply, end: real)
    requires breaker.Valid() && retry.tracker.Valid() && breaker.tracker != retry.tracker
    modifies breaker, breaker.tracker, retry.tracker
    ensures breaker.Valid() && retry.tracker.Valid()
    ensures var (b, admitted) := Begin(breaker.Settings(), old(breaker.View()), now);
            if !admitted then reply == FallbackText && end == now && breaker.View() == b
            else
              && exists n: nat :: FirstDecisive(retry.maxRetries, plan, n)
                   && end == now + Elapsed(retry.baseDelay, retry.maxDelay, plan, n)
                   && (if plan(n).kind == Ok then reply == Answer && breaker.View() == Success(b)
                       else reply == RaisedError && breaker.View() == Failure(breaker.Settings(), b, end, end, end))
  {
    var admitted := breaker.BeginCall(now);
    if !admitted {
      return FallbackText, now;
    }
    var o, n;
    o, n, end := retry.Execute(plan, now);
    assert FirstDecisive(retry.maxRetries, plan, n);
    if o == Succeeded {
      breaker.OnSuccess(end);
      reply := Answer;
    } else {
      breaker.OnFailure(end, end, end, "");
      reply := RaisedError;
    }
  }

  /** The last attempt that is made. */
  ghost predicate FirstDecisive(maxRetries: nat, plan: Plan, n: nat) {
    && 1 <= n <= maxRetries + 1
    && (forall k: nat :: 1 <= k < n ==> plan(k).kind == Retryable)
    && (plan(n).kind == Retryable ==> n == maxRetries + 1)
  }

  /** The LLM answers no attempt within `timeout`. */
  ghost predicate AlwaysTimesOut(plan: Plan, timeout: real) {
    Draws(plan) && forall k: nat :: plan(k).kind == Retryable && plan(k).duration >= timeout
  }

  /** A sequential caller asks `n` times, waiting `waits(i)` before each, while the LLM is
      down. If `threshold - 1` calls, at the pace the timeouts and delays impose, outlast the
      window, the breaker never opens and every call goes through to the LLM. */
  method AskDuringOutage(breaker: CircuitBreaker, retry: RetryPolicy, timeout: real, n: nat,
          plans: nat -> Plan, waits: nat -> real, start: real)
      returns (end: real, ghost ends: seq<real>)
    requires breaker.Valid() && retry.tracker.Valid() && breaker.tracker != retry.tracker
    requires breaker.View() == FRESH && breaker.tracker.failureTimes == []
    requires 0.0 <= retry.baseDelay <= retry.maxDelay && timeout >= 0.0
    requires forall i: nat :: AlwaysTimesOut(plans(i), timeout) && waits(i) >= 0.0
    requires Outlasts(breaker.Settings(), CallTime(retry.maxRetries, timeout, retry.baseDelay))
    modifies breaker, breaker.tracker, retry.tracker
    ensures breaker.Valid() && |ends| == n
    ensures breaker.View() == AfterFailures(breaker.Settings(), ends) && breaker.state == Closed
  {
    hide Failure, CallTime, Outlasts, AfterFailures, AlwaysTimesOut;
    ghost var gap := CallTime(retry.maxRetries, timeout, retry.baseDelay);
    ghost var c := breaker.Settings();
    NoFailures(c);
    end, ends := start, [];
    for i := 0 to n
      invariant breaker.Valid() && retry.tracker.Valid()
      invariant |ends| == i && SpacedBy(ends, gap) && (i > 0 ==> ends[i - 1] == end)
      invariant breaker.View() == AfterFailures(c, ends) && breaker.state == Closed
    {
      var done := AskOnce(breaker, retry, timeout, plans(i), end + waits(i));
      NextSparse(c, gap, ends, done);
      end, ends := done, ends + [done];
    }
  }

  /** `threshold - 1` gaps are longer than the window. */
  predicate Outlasts(c: Config, gap: real) {
    1 <= c.threshold <= c.maxRecords && gap >= 0.0 && !Fits(c, gap)
  }

  predicate SpacedBy(times: seq<real>, gap: real) {
    forall k :: 0 <= k < |times| - 1 ==> times[k + 1] - times[k] >= gap
  }

  lemma NoFailures(c: Config)
    ensures AfterFailures(c, []) == FRESH
  {
  }

  lemma NextSparse(c: Config, gap: real, times: seq<real>, t: real)
    requires Outlasts(c, gap) && SpacedBy(times, gap) && (times != [] ==> t - times[|times| - 1] >= gap)
    ensures SpacedBy(times + [t], gap) && AfterFailures(c, times + [t]).state == Closed
    ensures AfterFailures(c, times + [t]) == Failure(c, AfterFailures(c, times), t, t, t)
  {
    AfterNext(c, times, t);
    hide AfterFailures, Failure;
    var all := times + [t];
    assert SpacedBy(all, gap);
    SparseFailuresNeverOpen(c, gap, all);
  }

  lemma AfterNext(c: Config, times: seq<real>, t: real)
    ensures AfterFailures(c, times + [t]) == Failure(c, AfterFailures(c, times), t, t, t)
  {
    assert (times + [t])[..|times + [t]| - 1] == times;
  }

  /** One call of a closed breaker while the LLM is down. */
  method AskOnce(breaker: CircuitBreaker, retry: RetryPolicy, timeout: real, plan: Plan, begun: real)
      returns (done: real)
    requires breaker.Valid() && retry.tracker.Valid() && breaker.tracker != retry.tracker && breaker.state == Closed
    requires 0.0 <= retry.baseDelay <= retry.maxDelay && AlwaysTimesOut(plan, timeout)
    modifies breaker, breaker.tracker, retry.tracker
    ensures breaker.Valid() && retry.tracker.Valid()
    ensures done - begun >= CallTime(retry.maxRetries, timeout, retry.baseDelay)
    ensures breaker.View() == Failure(breaker.Settings(), old(breaker.View()), done, done, done)
  {
    hide Failure;
    var reply;
    reply, done := SafeLlmAsk(breaker, retry, plan, begun);
    OutageCall(retry.maxRetries, retry.baseDelay, retry.maxDelay, plan, timeout, begun, done);
  }

  /** What one call takes at least while every attempt times out. */
  function CallTime(maxRetries: nat, timeout: real, base: real): real {
    ((maxRetries + 1) as real) * timeout + (maxRetries as real) * base
  }

  lemma OutageCall(maxRetries: nat, base: real, max: real, plan: Plan, timeout: real, begun: real, done: real)
    requires 0.0 <= base <= max && AlwaysTimesOut(plan, timeout)
    requires exists n: nat :: FirstDecisive(maxRetries, plan, n) && done == begun + Elapsed(base, max, plan, n)
    ensures done - begun >= CallTime(maxRetries, timeout, base)
  {
    var n: nat :| FirstDecisive(maxRetries, plan, n) && done == begun + Elapsed(base, max, plan, n);
    assert plan(n).kind == Retryable;
    ElapsedAtLeast(base, max, plan, timeout, n);
  }

  /** The chat orchestrator's own settings: threshold 5 in a 60-second window, and at most
      three retries of a 60-second timeout with delays of at least one second. However long
      the LLM stays silent, a sequential caller never sees the breaker open. */
  method DefaultOutage(n: nat, plans: nat -> Plan, waits: nat -> real, start: real) returns (breaker: CircuitBreaker)
    requires forall i: nat :: AlwaysTimesOut(plans(i), 60.0) && waits(i) >= 0.0
    ensures breaker.Valid() && breaker.state == Closed && |breaker.tracker.failureTimes| == n
  {
    var tracker := new FailureTracker();
    breaker := new CircuitBreaker(5, 30.0, 3, tracker);
    var own := new FailureTracker();
    var retry := new RetryPolicy(3, 1.0, 15.0, own);
    assert CallTime(3, 60.0, 1.0) == 243.0;
    var end;
    ghost var ends;
    end, ends := AskDuringOutage(breaker, retry, 60.0, n, plans, waits, start);
    FailuresKept(breaker.Settings(), ends);
  }

  lemma {:induction false} FailuresKept(c: Config, times: seq<real>)
    ensures AfterFailures(c, times).failures == times
  {
    if times != [] {
      FailuresKept(c, times[..|times| - 1]);
      assert times[..|times| - 1] + [times[|times| - 1]] == times;
    }
  }
}
