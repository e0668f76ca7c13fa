/** The circuit breaker of `app/reliability/circuit_breaker.py`. `Breaker` is its value; the
    class updates the same fields in place and is tied to the functions on that value. A call
    is split at its `await` into `BeginCall` and `OnSuccess` or `OnFailure`. */
module CircuitBreaking {
  import opened FailureTracking

  datatype CircuitState = Closed | Open | HalfOpen

  datatype Config = Config(threshold: int, recovery: real, maxProbes: int, window: real, maxRecords: nat)

  /** `failures` are the failure times in the tracker since its last reset. */
  datatype Breaker = Breaker(state: CircuitState, openedAt: real, probes: int, failures: seq<real>)

  const FRESH := Breaker(Closed, 0.0, 0, [])

  /** `stats.window_failures` at time `now`. */
  function WindowFailures(c: Config, failures: seq<real>, now: real): nat {
    CountFrom(Recent(failures, c.maxRecords), now - c.window)
  }

  /** Reading the `state` property. */
  function Refresh(c: Config, b: Breaker, now: real): Breaker {
    if b.state == Open && now - b.openedAt >= c.recovery then b.(state := HalfOpen, probes := 0) else b
  }

  /** The head of `call`: the new value, and whether the call goes on to its target. */
  function Begin(c: Config, b: Breaker, now: real): (Breaker, bool) {
    var b1 := Refresh(c, b, now);
    match b1.state
    case Open => (b1, false)
    case HalfOpen => if b1.probes >= c.maxProbes then (b1, false) else (b1.(probes := b1.probes + 1), true)
    case Closed => (b1, true)
  }

  function Success(b: Breaker): Breaker {
    if b.state == HalfOpen then b.(state := Closed) else b
  }

  /** The clock is read when the failure is recorded, for the statistics, and on opening. */
  function Failure(c: Config, b: Breaker, recorded: real, counted: real, tripped: real): Breaker {
    var b1 := b.(failures := b.failures + [recorded]);
    if b.state != Open && WindowFailures(c, b1.failures, counted) >= c.threshold
    then b1.(state := Open, openedAt := tripped) else b1
  }

  function ForceOpen(b: Breaker, now: real): Breaker {
    b.(state := Open, openedAt := now)
  }

  function ForceClose(b: Breaker): Breaker {
    b.(state := Closed, failures := [])
  }

  class CircuitBreaker {
    const failureThreshold: int
    const recoveryTimeout: real
    const halfOpenMaxCalls: int
    const tracker: FailureTracker
    var state: CircuitState
    var openedAt: real
    var halfOpenCalls: int

    ghost predicate Valid()
      reads this, tracker
    {
      tracker.Valid()
    }

    ghost function Settings(): Config {
      Config(failureThreshold, recoveryTimeout, halfOpenMaxCalls, tracker.windowSeconds, tracker.maxRecords)
    }

    ghost function View(): Breaker
      reads this, tracker
    {
      Breaker(state, openedAt, halfOpenCalls, tracker.failureTimes)
    }

    constructor (failureThreshold: int := 5, recoveryTimeout: real := 30.0, halfOpenMaxCalls: int := 3,
            tracker: FailureTracker)
      requires tracker.Valid()
      ensures Valid() && this.tracker == tracker && View() == FRESH.(failures := tracker.failureTimes)
      ensures Settings() == Config(failureThreshold, recoveryTimeout, halfOpenMaxCalls, tracker.windowSeconds,
              tracker.maxRecords)
    {
      this.failureThreshold, this.recoveryTimeout := failureThreshold, recoveryTimeout;
      this.halfOpenMaxCalls, this.tracker := halfOpenMaxCalls, tracker;
      state, openedAt, halfOpenCalls := Closed, 0.0, 0;
    }

    method Transition(newState: CircuitState, now: real)
      modifies this
      ensures state == newState
      ensures openedAt == if newState == Open then now else old(openedAt)
      ensures halfOpenCalls == if newState == HalfOpen then 0 else old(halfOpenCalls)
    {
      state := newState;
      if newState == Open {
        openedAt := now;
      } else if newState == HalfOpen {
        halfOpenCalls := 0;
      }
    }

    method State(now: real) returns (s: CircuitState)
      requires Valid()
      modifies this
      ensures Valid() && View() == Refresh(Settings(), old(View()), now) && s == state
      ensures tracker.failureTimes == old(tracker.failureTimes)
      ensures s == if old(state) == Open && now - old(openedAt) >= recoveryTimeout then HalfOpen else old(state)
    {
      if state == Open && now - openedAt >= recoveryTimeout {
        Transition(HalfOpen, now);
      }
      return state;
    }

    method BeginCall(now: real) returns (admitted: bool)
      requires Valid()
      modifies this
      ensures Valid() && (View(), admitted) == Begin(Settings(), old(View()), now)
      ensures tracker.failureTimes == old(tracker.failureTimes)
      ensures admitted <==>
                || old(state) == Closed
                || (old(state) == HalfOpen && old(halfOpenCalls) < halfOpenMaxCalls)
                || (old(state) == Open && now - old(openedAt) >= recoveryTimeout && 0 < halfOpenMaxCalls)
    {
      var current := State(now);
      if current == Open {
        return false;
      }
      if current == HalfOpen {
        if halfOpenCalls >= halfOpenMaxCalls {
          return false;
        }
        halfOpenCalls := halfOpenCalls + 1;
      }
      return true;
    }

    method OnSuccess(now: real)
      requires Valid()
      modifies this, tracker
      ensures Valid() && View() == Success(old(View()))
      ensures tracker.failureTimes == old(tracker.failureTimes)
      ensures state == if old(state) == HalfOpen then Closed else old(state)
      ensures openedAt == old(openedAt) && halfOpenCalls == old(halfOpenCalls)
      ensures tracker.successTimes == old(tracker.successTimes) + [now]
    {
      tracker.RecordSuccess(now);
      if state == HalfOpen {
        Transition(Closed, now);
      }
    }

    method OnFailure(recorded: real, counted: real, tripped: real, errorType: string)
      requires Valid()
      modifies this, tracker
      ensures Valid() && View() == Failure(Settings(), old(View()), recorded, counted, tripped)
      ensures tracker.failureTimes == old(tracker.failureTimes) + [recorded]
    {
      hide Nondecreasing, Recent, CountFrom;
      tracker.RecordFailure(recorded, errorType);
      var stats := tracker.GetStats(counted);
      if (state == Closed || state == HalfOpen) && stats.windowFailures >= failureThreshold {
        Transition(Open, tripped);
      }
    }

    method ForceOpenNow(now: real)
      requires Valid()
      modifies this
      ensures Valid() && View() == ForceOpen(old(View()), now)
    {
      Transition(Open, now);
    }

    method ForceCloseNow(now: real)
      requires Valid()
      modifies this, tracker
      ensures Valid() && View() == ForceClose(old(View()))
      ensures state == Closed && tracker.failureTimes == []
    {
      Transition(Closed, now);
      tracker.Reset();
    }
  }
}
