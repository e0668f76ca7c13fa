/** The sliding-window tracker of `app/reliability/failure_tracker.py`: bounded deques set
    against the true history since the last reset. */
module FailureTracking {
  import opened Wrappers

  datatype FailureRecord = FailureRecord(timestamp: real, errorType: string)

  datatype FailureStats = FailureStats(
    totalFailures: nat, totalSuccesses: nat, failureRate: real,
    lastFailureTime: Option<real>, lastFailureType: Option<string>,
    windowFailures: nat, windowSuccesses: nat)

  function Last<T>(s: seq<T>): T
    requires s != []
  {
    s[|s| - 1]
  }

  /** `deque(maxlen=max).append(x)`. */
  function Push<T>(d: seq<T>, x: T, max: nat): seq<T> {
    if max == 0 then [] else if |d| < max then d + [x] else d[1..] + [x]
  }

  /** The most recent `n` entries. */
  function Recent<T>(h: seq<T>, n: nat): seq<T> {
    if |h| <= n then h else h[|h| - n..]
  }

  lemma LastOfRecent<T>(h: seq<T>, n: nat)
    ensures Recent(h, n) == [] <==> h == [] || n == 0
    ensures Recent(h, n) != [] ==> Last(Recent(h, n)) == Last(h)
  {
  }

  lemma PushKeepsRecent<T>(h: seq<T>, x: T, max: nat)
    ensures Push(Recent(h, max), x, max) == Recent(h + [x], max)
  {
  }

  /** `sum(1 for t in times if t >= cutoff)`. */
  function CountFrom(times: seq<real>, cutoff: real): nat {
    if times == [] then 0
    else CountFrom(times[..|times| - 1], cutoff) + if times[|times| - 1] >= cutoff then 1 else 0
  }

  predicate Nondecreasing(times: seq<real>) {
    forall i, j :: 0 <= i < j < |times| ==> times[i] <= times[j]
  }

  lemma {:induction false} CountBound(times: seq<real>, cutoff: real)
    ensures CountFrom(times, cutoff) <= |times|
    ensures (forall i :: 0 <= i < |times| ==> times[i] >= cutoff) ==> CountFrom(times, cutoff) == |times|
    ensures (forall i :: 0 <= i < |times| ==> times[i] < cutoff) ==> CountFrom(times, cutoff) == 0
  {
    if times != [] {
      CountBound(times[..|times| - 1], cutoff);
    }
  }

  /** In ordered times, `n` of them reach the cutoff exactly when the `n`-th from the end does. */
  lemma {:induction false} CountAtLeast(times: seq<real>, n: nat, cutoff: real)
    requires Nondecreasing(times) && n >= 1
    ensures CountFrom(times, cutoff) >= n <==> |times| >= n && times[|times| - n] >= cutoff
  {
    CountBound(times, cutoff);
    if times != [] && n > 1 {
      var front := times[..|times| - 1];
      CountAtLeast(front, n - 1, cutoff);
      if |times| >= n {
        assert front[|front| - (n - 1)] == times[|times| - n];
      }
    } else if times != [] && times[|times| - 1] < cutoff {
      CountBound(times[..|times| - 1], cutoff);
    }
  }

  lemma {:induction false} CountMonotone(times: seq<real>, early: real, late: real)
    requires early <= late
    ensures CountFrom(times, late) <= CountFrom(times, early)
  {
    if times != [] {
      CountMonotone(times[..|times| - 1], early, late);
    }
  }

  /** The bounded deque's window count is the true one, capped at the deque's capacity. */
  lemma WindowExact(h: seq<real>, max: nat, cutoff: real)
    requires Nondecreasing(h)
    ensures CountFrom(Recent(h, max), cutoff)
         == if CountFrom(h, cutoff) <= max then CountFrom(h, cutoff) else max
  {
    var r := Recent(h, max);
    var c := CountFrom(h, cutoff);
    CountBound(h, cutoff);
    CountBound(r, cutoff);
    if |h| > max && max > 0 {
      assert forall i :: 0 <= i < |r| ==> r[i] == h[|h| - max + i];
      if c > 0 {
        CountAtLeast(h, c, cutoff);
        CountAtLeast(h, c + 1, cutoff);
        var m := if c <= max then c else max;
        CountAtLeast(r, m, cutoff);
        CountAtLeast(r, m + 1, cutoff);
      } else {
        CountAtLeast(h, 1, cutoff);
        CountAtLeast(r, 1, cutoff);
      }
    }
  }

  class FailureTracker {
    const windowSeconds: real
    const maxRecords: nat
    var failures: seq<FailureRecord>
    var successTimestamps: seq<real>
    var totalFailures: nat
    var totalSuccesses: nat
    ghost var failureTimes: seq<real>  // every failure since the last reset
    ghost var failureTypes: seq<string>
    ghost var successTimes: seq<real>

    ghost predicate Valid()
      reads this
    {
      && Times(failures) == Recent(failureTimes, maxRecords)
      && successTimestamps == Recent(successTimes, maxRecords)
      && totalFailures == |failureTimes| && totalSuccesses == |successTimes|
      && |failureTypes| == |failureTimes|
      && (failures != [] ==> failureTypes != [] && Last(failures).errorType == Last(failureTypes))
    }

    constructor (windowSeconds: real := 60.0, maxRecords: nat := 1000)
      ensures Valid() && failureTimes == [] && failureTypes == [] && successTimes == []
      ensures this.windowSeconds == windowSeconds && this.maxRecords == maxRecords
    {
      this.windowSeconds, this.maxRecords := windowSeconds, maxRecords;
      failures, successTimestamps, totalFailures, totalSuccesses := [], [], 0, 0;
      failureTimes, failureTypes, successTimes := [], [], [];
    }

    method RecordFailure(now: real, errorType: string)
      requires Valid()
      modifies this
      ensures Valid() && failureTimes == old(failureTimes) + [now] && successTimes == old(successTimes)
      ensures failureTypes == old(failureTypes) + [errorType]
    {
      PushKeepsRecent(failureTimes, now, maxRecords);
      TimesOfPush(failures, FailureRecord(now, errorType), maxRecords);
      failures := Push(failures, FailureRecord(now, errorType), maxRecords);
      totalFailures := totalFailures + 1;
      failureTimes, failureTypes := failureTimes + [now], failureTypes + [errorType];
    }

    method RecordSuccess(now: real)
      requires Valid()
      modifies this
      ensures Valid() && successTimes == old(successTimes) + [now]
      ensures failureTimes == old(failureTimes) && failureTypes == old(failureTypes)
    {
      PushKeepsRecent(successTimes, now, maxRecords);
      successTimestamps := Push(successTimestamps, now, maxRecords);
      totalSuccesses := totalSuccesses + 1;
      successTimes := successTimes + [now];
    }

    /** With a clock that never went back, the window counts are the true counts capped at
        `maxRecords`, and the totals are exact. */
    method GetStats(now: real) returns (stats: FailureStats)
      requires Valid()
      ensures stats.windowFailures == CountFrom(Recent(failureTimes, maxRecords), now - windowSeconds)
      ensures stats.totalFailures == |failureTimes| && stats.totalSuccesses == |successTimes|
      ensures Nondecreasing(failureTimes) ==>
                var exact := CountFrom(failureTimes, now - windowSeconds);
                stats.windowFailures == if exact <= maxRecords then exact else maxRecords
      ensures Nondecreasing(successTimes) ==>
                var exact := CountFrom(successTimes, now - windowSeconds);
                stats.windowSuccesses == if exact <= maxRecords then exact else maxRecords
      ensures maxRecords > 0 ==>
                && stats.lastFailureTime == (if failureTimes == [] then None else Some(Last(failureTimes)))
                && stats.lastFailureType == (if failureTimes == [] then None else Some(Last(failureTypes)))
      ensures 0.0 <= stats.failureRate <= 1.0
      ensures stats.failureRate * (stats.windowFailures + stats.windowSuccesses) as real == stats.windowFailures as real
    {
      hide CountFrom, Nondecreasing, Rate;
      LastOfRecent(failureTimes, maxRecords);
      var cutoff := now - windowSeconds;
      hide Recent;
      if Nondecreasing(failureTimes) {
        WindowExact(failureTimes, maxRecords, cutoff);
      }
      if Nondecreasing(successTimes) {
        WindowExact(successTimes, maxRecords, cutoff);
      }
      assert failures != [] ==> Last(Times(failures)) == Last(failures).timestamp;
      var windowFailures, windowSuccesses := CountFrom(Times(failures), cutoff), CountFrom(successTimestamps, cutoff);
      var rate := Rate(windowFailures, windowSuccesses);
      stats := FailureStats(
        totalFailures, totalSuccesses, rate,
        if failures == [] then None else Some(Last(failures).timestamp),
        if failures == [] then None else Some(Last(failures).errorType),
        windowFailures, windowSuccesses);
    }

    method Reset()
      requires Valid()
      modifies this
      ensures Valid() && failureTimes == [] && successTimes == []
    {
      failures, successTimestamps, totalFailures, totalSuccesses := [], [], 0, 0;
      failureTimes, failureTypes, successTimes := [], [], [];
    }
  }

  /** The share of failures; an empty window has none. */
  function Rate(failures: nat, successes: nat): (r: real)
    ensures 0.0 <= r <= 1.0 && r * (failures + successes) as real == failures as real
  {
    if failures + successes > 0 then Share(failures as real, (failures + successes) as real) else 0.0
  }

  function Share(part: real, whole: real): (r: real)
    requires 0.0 <= part <= whole && whole > 0.0
    ensures 0.0 <= r <= 1.0 && r * whole == part
  {
    part / whole
  }

  function Times(records: seq<FailureRecord>): (times: seq<real>)
    ensures |times| == |records| && forall i :: 0 <= i < |times| ==> times[i] == records[i].timestamp
  {
    seq(|records|, i requires 0 <= i < |records| => records[i].timestamp)
  }

  lemma TimesOfPush(records: seq<FailureRecord>, r: FailureRecord, max: nat)
    ensures Times(Push(records, r, max)) == Push(Times(records), r.timestamp, max)
  {
  }
}
