/** The token-bucket script of `app/api/middleware/token_bucket.py`, over the reals. */
module TokenBuckets {
  import opened Wrappers

  datatype BucketConfig = BucketConfig(capacity: int, rate: real, ttl: int)

  datatype Bucket = Bucket(tokens: real, last: real)

  function Cap(c: BucketConfig): real {
    c.capacity as real
  }

  function ForwardStep(last: real, now: real): real {
    if now - last > 0.0 then now - last else 0.0
  }

  /** The tokens after the refill; a missing key is a full bucket. */
  function Refill(c: BucketConfig, b: Option<Bucket>, now: real): real {
    var tokens := if b.None? then Cap(c) else b.value.tokens;
    var elapsed := ForwardStep(if b.None? then now else b.value.last, now);
    var filled := tokens + elapsed * c.rate;
    if filled <= Cap(c) then filled else Cap(c)
  }

  function Take(c: BucketConfig, b: Option<Bucket>, now: real): (Bucket, bool) {
    var tokens := Refill(c, b, now);
    if tokens < 1.0 then (Bucket(tokens, now), false) else (Bucket(tokens - 1.0, now), true)
  }

  /** Redis drops a key once `ttl` has passed on its own clock since the script set its expiry;
      the script's `now` is the clock of the caller. */
  function Expire(b: Option<Bucket>, expiresAt: real, server: real): Option<Bucket> {
    if server > expiresAt then None else b
  }

  /** The hash under one rate-limit key, and when it expires. */
  class RateLimitKey {
    const config: BucketConfig
    var stored: Option<Bucket>
    var expiresAt: real

    constructor (config: BucketConfig)
      ensures this.config == config && stored == None
    {
      this.config, stored, expiresAt := config, None, 0.0;
    }

    /** The script: refill, then consume. `server` is the time at Redis. */
    method Evaluate(now: real, server: real) returns (allowed: bool)
      modifies this
      ensures var (b, ok) := Take(config, Expire(old(stored), old(expiresAt), server), now);
              stored == Some(b) && allowed == ok
      ensures expiresAt == server + config.ttl as real
    {
      var data := if server > expiresAt then None else stored;
      var tokens, last;
      if data == None {
        tokens, last := config.capacity as real, now;
      } else {
        tokens, last := data.value.tokens, data.value.last;
      }
      var filled := tokens + ForwardStep(last, now) * config.rate;
      tokens := if filled <= config.capacity as real then filled else config.capacity as real;
      assert tokens == Refill(config, data, now);
      allowed := tokens >= 1.0;
      if allowed {
        tokens := tokens - 1.0;
      }
      stored := Some(Bucket(tokens, now));
      expiresAt := server + config.ttl as real;
    }
  }

  // ---- Runs without expiry ---------------------------------------------------------------

  /** The bucket after the first `n` requests, made at `times`. */
  function After(c: BucketConfig, times: seq<real>, n: nat): Option<Bucket>
    requires n <= |times|
  {
    if n == 0 then None else Some(Take(c, After(c, times, n - 1), times[n - 1]).0)
  }

  /** The tokens request `i` finds. */
  function Level(c: BucketConfig, times: seq<real>, i: nat): real
    requires i < |times|
  {
    Refill(c, After(c, times, i), times[i])
  }

  predicate Admitted(c: BucketConfig, times: seq<real>, i: nat)
    requires i < |times|
  {
    Take(c, After(c, times, i), times[i]).1
  }

  /** The requests admitted among `i .. j - 1`. */
  function Admissions(c: BucketConfig, times: seq<real>, i: nat, j: nat): nat
    requires i <= j <= |times|
    decreases j
  {
    if i == j then 0 else Admissions(c, times, i, j - 1) + if Admitted(c, times, j - 1) then 1 else 0
  }

  /** The forward clock steps between requests `i` and `j`. */
  function Forward(times: seq<real>, i: nat, j: nat): real
    requires i <= j < |times|
    decreases j
  {
    if i == j then 0.0 else Forward(times, i, j - 1) + ForwardStep(times[j - 1], times[j])
  }

  ghost predicate Sane(c: BucketConfig) {
    c.capacity >= 0 && c.rate >= 0.0
  }

  lemma NonNegative(x: real, y: real)
    requires x >= 0.0 && y >= 0.0
    ensures x * y >= 0.0
  {
  }

  /** Tokens stay within the bucket. */
  lemma {:induction false} TokensBounded(c: BucketConfig, times: seq<real>, i: nat)
    requires Sane(c) && i < |times|
    ensures 0.0 <= Level(c, times, i) <= Cap(c)
    ensures i > 0 ==> After(c, times, i).Some? && 0.0 <= After(c, times, i).value.tokens <= Cap(c)
  {
    if i > 0 {
      TokensBounded(c, times, i - 1);
      NonNegative(ForwardStep(times[i - 1], times[i]), c.rate);
    }
  }

  /** One request to the next. */
  lemma LevelStep(c: BucketConfig, times: seq<real>, j: nat)
    requires Sane(c) && 0 < j < |times|
    ensures var carried := Level(c, times, j - 1) - (if Admitted(c, times, j - 1) then 1.0 else 0.0)
                         + ForwardStep(times[j - 1], times[j]) * c.rate;
            Level(c, times, j) == if carried <= Cap(c) then carried else Cap(c)
  {
  }

  /** The refill over the window `i .. j`. */
  function Inflow(c: BucketConfig, times: seq<real>, i: nat, j: nat): real
    requires i <= j < |times|
  {
    c.rate * Forward(times, i, j)
  }

  /** What window `i .. j` allows request `j`. */
  function Allowance(c: BucketConfig, times: seq<real>, i: nat, j: nat): real
    requires i <= j < |times|
  {
    Cap(c) + Inflow(c, times, i, j) - Admissions(c, times, i, j) as real
  }

  lemma AllowanceStep(c: BucketConfig, times: seq<real>, i: nat, j: nat)
    requires i < j < |times|
    ensures Allowance(c, times, i, j) == Allowance(c, times, i, j - 1) + ForwardStep(times[j - 1], times[j]) * c.rate
                                       - if Admitted(c, times, j - 1) then 1.0 else 0.0
  {
    var f, d := Forward(times, i, j - 1), ForwardStep(times[j - 1], times[j]);
    assert c.rate * (f + d) == c.rate * f + d * c.rate;
  }

  /** The level is the smallest allowance of any window that ends at the request. */
  lemma {:induction false} LevelIsMinimum(c: BucketConfig, times: seq<real>, j: nat) returns (tight: nat)
    requires Sane(c) && j < |times|
    ensures forall i :: 0 <= i <= j ==> Level(c, times, j) <= Allowance(c, times, i, j)
    ensures tight <= j && Level(c, times, j) == Allowance(c, times, tight, j)
  {
    TokensBounded(c, times, j);
    if j == 0 {
      tight := 0;
    } else {
      tight := LevelIsMinimum(c, times, j - 1);
      LevelStep(c, times, j);
      forall i | 0 <= i <= j ensures Level(c, times, j) <= Allowance(c, times, i, j) {
        if i < j {
          AllowanceStep(c, times, i, j);
        }
      }
      AllowanceStep(c, times, tight, j);
      if Level(c, times, j) != Allowance(c, times, tight, j) {
        tight := j;
      }
    }
  }

  /** Conformance: a request is admitted if and only if every window that ends with it still
      allows a whole token: capacity plus the refill over the window, less its admissions. */
  lemma AdmittedIffConforming(c: BucketConfig, times: seq<real>, j: nat)
    requires Sane(c) && j < |times|
    ensures Admitted(c, times, j) <==> forall i :: 0 <= i <= j ==> Allowance(c, times, i, j) >= 1.0
  {
    var tight := LevelIsMinimum(c, times, j);
    assert Admitted(c, times, j) <==> Level(c, times, j) >= 1.0;
    hide Allowance, Admitted, Level;
  }

  /** The rate bound over every window of every run, for a clock that may also go back. */
  lemma RateBound(c: BucketConfig, times: seq<real>, i: nat, j: nat)
    requires Sane(c) && i < j <= |times|
    ensures Admissions(c, times, i, j) as real <= Cap(c) + Inflow(c, times, i, j - 1)
  {
    var tight := LevelIsMinimum(c, times, j - 1);
    TokensBounded(c, times, j - 1);
    var a := Admissions(c, times, i, j - 1);
    assert Level(c, times, j - 1) <= Allowance(c, times, i, j - 1);
    assert Allowance(c, times, i, j - 1) == Cap(c) + Inflow(c, times, i, j - 1) - a as real;
    if Admitted(c, times, j - 1) {
      assert Level(c, times, j - 1) >= 1.0 && Admissions(c, times, i, j) == a + 1;
    } else {
      assert Admissions(c, times, i, j) == a;
    }
    hide Inflow, Admitted, Level, Allowance, Admissions;
  }

  lemma {:induction false} ForwardOfMonotone(times: seq<real>, i: nat, j: nat)
    requires i <= j < |times| && forall k :: 0 <= k < |times| - 1 ==> times[k] <= times[k + 1]
    ensures Forward(times, i, j) == times[j] - times[i]
    decreases j
  {
    if i < j {
      ForwardOfMonotone(times, i, j - 1);
      assert times[j - 1] <= times[j - 1 + 1];
    }
  }

  // ---- Expiry ---------------------------------------------------------------------------------

  /** A request, on the caller's clock and on the server's. */
  datatype Request = Request(now: real, server: real)

  function Nows(reqs: seq<Request>): (times: seq<real>)
    ensures |times| == |reqs| && forall k :: 0 <= k < |times| ==> times[k] == reqs[k].now
  {
    seq(|reqs|, k requires 0 <= k < |reqs| => reqs[k].now)
  }

  /** The key after the first `n` requests, with expiry. */
  function AfterExpiring(c: BucketConfig, reqs: seq<Request>, n: nat): Option<Bucket>
    requires n <= |reqs|
    decreases n, 0
  {
    if n == 0 then None else Some(Take(c, Live(c, reqs, n - 1), reqs[n - 1].now).0)
  }

  /** What request `n` finds under the key. */
  function Live(c: BucketConfig, reqs: seq<Request>, n: nat): Option<Bucket>
    requires n < |reqs|
    decreases n, 1
  {
    if n == 0 then None
    else Expire(AfterExpiring(c, reqs, n), reqs[n - 1].server + c.ttl as real, reqs[n].server)
  }

  predicate AdmittedExpiring(c: BucketConfig, reqs: seq<Request>, i: nat)
    requires i < |reqs|
  {
    Take(c, Live(c, reqs, i), reqs[i].now).1
  }

  /** Between two requests the callers' clocks fall behind the server's by at most `skew`. */
  ghost predicate Skewed(reqs: seq<Request>, skew: real) {
    forall k :: 0 <= k < |reqs| - 1 ==>
      && reqs[k].server <= reqs[k + 1].server
      && reqs[k + 1].server - reqs[k].server <= reqs[k + 1].now - reqs[k].now + skew
  }

  /** Whatever has expired would have been refilled. */
  predicate RefilledInTime(c: BucketConfig, skew: real) {
    c.rate * (c.ttl as real - skew) >= Cap(c)
  }

  /** The guard of one request: expiry changes its answer and the bucket it leaves behind only
      if the caller's clock has not advanced enough to refill what was stored. */
  lemma ExpiryStepIff(c: BucketConfig, b: Bucket, expiresAt: real, now: real, server: real)
    requires Sane(c) && 0.0 <= b.tokens <= Cap(c)
    ensures Take(c, Expire(Some(b), expiresAt, server), now) == Take(c, Some(b), now) <==>
              server <= expiresAt || b.tokens + ForwardStep(b.last, now) * c.rate >= Cap(c)
  {
    NonNegative(ForwardStep(b.last, now), c.rate);
  }

  lemma {:induction false} ExpiringBounded(c: BucketConfig, reqs: seq<Request>, n: nat)
    requires Sane(c) && 0 < n <= |reqs|
    ensures var b := AfterExpiring(c, reqs, n);
            b.Some? && 0.0 <= b.value.tokens <= Cap(c) && b.value.last == reqs[n - 1].now
  {
    if n > 1 {
      ExpiringBounded(c, reqs, n - 1);
      NonNegative(ForwardStep(reqs[n - 2].now, reqs[n - 1].now), c.rate);
    }
  }

  lemma Scaled(rate: real, x: real, y: real)
    requires rate >= 0.0 && x <= y
    ensures rate * x <= rate * y && x * rate <= y * rate
  {
    NonNegative(y - x, rate);
    assert (y - x) * rate == y * rate - x * rate;
  }

  lemma Longer(c: BucketConfig, skew: real, last: real, now: real)
    requires Sane(c) && RefilledInTime(c, skew) && now - last >= c.ttl as real - skew
    ensures ForwardStep(last, now) * c.rate >= Cap(c)
  {
    Scaled(c.rate, c.ttl as real - skew, ForwardStep(last, now));
  }

  /** If the bucket refills within `ttl` less the skew, expiry changes no bucket and no answer. */
  lemma {:induction false} ExpiryInvisible(c: BucketConfig, skew: real, reqs: seq<Request>, n: nat)
    requires Sane(c) && RefilledInTime(c, skew) && Skewed(reqs, skew) && n <= |reqs|
    ensures AfterExpiring(c, reqs, n) == After(c, Nows(reqs), n)
    ensures n < |reqs| ==> (AdmittedExpiring(c, reqs, n) <==> Admitted(c, Nows(reqs), n))
  {
    hide Take, RefilledInTime;
    if n > 0 {
      ExpiryInvisible(c, skew, reqs, n - 1);
      if n > 1 {
        SameAnswer(c, skew, reqs, n - 1);
      }
    }
    if 0 < n < |reqs| {
      SameAnswer(c, skew, reqs, n);
    }
  }

  lemma SameAnswer(c: BucketConfig, skew: real, reqs: seq<Request>, n: nat)
    requires Sane(c) && RefilledInTime(c, skew) && Skewed(reqs, skew) && 0 < n < |reqs|
    ensures Take(c, Live(c, reqs, n), reqs[n].now) == Take(c, AfterExpiring(c, reqs, n), reqs[n].now)
  {
    hide RefilledInTime, Skewed, Take, AfterExpiring, Expire;
    ExpiringBounded(c, reqs, n);
    SkewAt(reqs, skew, n);
    var b := AfterExpiring(c, reqs, n).value;
    var expiresAt := reqs[n - 1].server + c.ttl as real;
    if reqs[n].server > expiresAt {
      Longer(c, skew, b.last, reqs[n].now);
    }
    hide Sane, Cap;
    ExpiryStepIff(c, b, expiresAt, reqs[n].now, reqs[n].server);
  }

  lemma SkewAt(reqs: seq<Request>, skew: real, n: nat)
    requires Skewed(reqs, skew) && 0 < n < |reqs|
    ensures reqs[n].server - reqs[n - 1].server <= reqs[n].now - reqs[n - 1].now + skew
  {
    assert reqs[n - 1 + 1].server - reqs[n - 1].server <= reqs[n - 1 + 1].now - reqs[n - 1].now + skew;
  }

  /** `k` requests at one instant on a full bucket, and `k` more `t` later for the server and
      `t - skew` later for the callers. */
  function Bursts(k: nat, t: real, skew: real): (reqs: seq<Request>)
    ensures |reqs| == 2 * k
    ensures forall i :: 0 <= i < |reqs| ==> reqs[i] == if i < k then Request(0.0, 0.0) else Request(t - skew, t)
  {
    seq(2 * k, i => if i < k then Request(0.0, 0.0) else Request(t - skew, t))
  }

  /** With expiry, two bursts of `capacity` requests more than `ttl` apart are all admitted. */
  lemma {:induction false} BurstsAdmitted(c: BucketConfig, t: real, skew: real, n: nat)
    requires Sane(c) && c.ttl >= 0 && t > c.ttl as real && n <= 2 * c.capacity
    ensures n > 0 ==> var b := AfterExpiring(c, Bursts(c.capacity, t, skew), n);
              b == Some(if n <= c.capacity then Bucket(Cap(c) - n as real, 0.0)
                        else Bucket(Cap(c) - (n - c.capacity) as real, t - skew))
    ensures n < 2 * c.capacity ==> AdmittedExpiring(c, Bursts(c.capacity, t, skew), n)
  {
    hide Bursts;
    if n > 0 {
      BurstsAdmitted(c, t, skew, n - 1);
    }
  }

  lemma {:induction false} AllAdmitted(c: BucketConfig, times: seq<real>, j: nat)
    requires j <= |times| && forall i :: 0 <= i < j ==> Admitted(c, times, i)
    ensures Admissions(c, times, 0, j) == j
  {
    if j > 0 {
      AllAdmitted(c, times, j - 1);
    }
  }

  /** A time beyond the `ttl` by which the refill is still below the capacity. */
  lemma EarlyEnough(c: BucketConfig, skew: real) returns (t: real)
    requires Sane(c) && c.capacity >= 1 && !RefilledInTime(c, skew)
    ensures t > c.ttl as real && c.rate * ForwardStep(0.0, t - skew) < Cap(c)
  {
    var l := c.ttl as real;
    if c.rate == 0.0 {
      t := l + 1.0;
      assert c.rate * ForwardStep(0.0, t - skew) == 0.0;
    } else {
      t := (l + (skew + Cap(c) / c.rate)) / 2.0;
      assert c.rate * (Cap(c) / c.rate) == Cap(c);
      Halfway(c.rate, l - skew, Cap(c) / c.rate, Cap(c));
      assert t - skew == ((l - skew) + Cap(c) / c.rate) / 2.0;
    }
  }

  lemma Halfway(rate: real, x: real, y: real, cap: real)
    requires rate > 0.0 && rate * x < cap && rate * y == cap && cap > 0.0
    ensures x < y && rate * ((x + y) / 2.0) < cap
  {
    assert rate * ((x + y) / 2.0) == (rate * x + rate * y) / 2.0;
    if x >= y {
      Scaled(rate, y, x);
      assert false;
    }
  }

  /** With a skew of at most `skew`, key expiry is unobservable in every run if and only if
      `ttl` less the skew is long enough to refill an empty bucket. */
  lemma ExpiryInvisibleIff(c: BucketConfig, skew: real)
    requires c.capacity >= 1 && c.rate >= 0.0 && c.ttl >= 0 && skew >= 0.0
    ensures RefilledInTime(c, skew) <==>
              forall reqs: seq<Request>, i: nat :: Skewed(reqs, skew) && i < |reqs|
                ==> AdmittedExpiring(c, reqs, i) == Admitted(c, Nows(reqs), i)
  {
    hide RefilledInTime;
    if RefilledInTime(c, skew) {
      forall reqs: seq<Request>, i: nat | Skewed(reqs, skew) && i < |reqs|
        ensures AdmittedExpiring(c, reqs, i) == Admitted(c, Nows(reqs), i)
      {
        ExpiryInvisible(c, skew, reqs, i);
      }
    } else {
      var t := EarlyEnough(c, skew);
      var reqs := Bursts(c.capacity, t, skew);
      hide Admitted, AdmittedExpiring, Bursts;
      assert Skewed(reqs, skew);
      TooMany(c, t, skew);
      var i :| 0 <= i < 2 * c.capacity && AdmittedExpiring(c, reqs, i) && !Admitted(c, Nows(reqs), i);
    }
  }

  /** Without expiry the second burst cannot be admitted whole. */
  lemma TooMany(c: BucketConfig, t: real, skew: real)
    requires c.capacity >= 1 && c.rate >= 0.0 && c.ttl >= 0 && t > c.ttl as real
    requires c.rate * ForwardStep(0.0, t - skew) < Cap(c)
    ensures var reqs := Bursts(c.capacity, t, skew);
            exists i :: 0 <= i < 2 * c.capacity && AdmittedExpiring(c, reqs, i) && !Admitted(c, Nows(reqs), i)
  {
    var reqs, n := Bursts(c.capacity, t, skew), 2 * c.capacity;
    var times := Nows(reqs);
    forall i | 0 <= i < n ensures AdmittedExpiring(c, reqs, i) {
      BurstsAdmitted(c, t, skew, i);
    }
    hide Admitted, AdmittedExpiring, Bursts, Nows;
    if forall i :: 0 <= i < n ==> Admitted(c, times, i) {
      BurstInflow(c, t, skew);
      AllAdmitted(c, times, n);
      hide Inflow, Admissions;
      RateBound(c, times, 0, n);
      assert false;
    }
  }

  lemma BurstInflow(c: BucketConfig, t: real, skew: real)
    requires c.capacity >= 1
    ensures Inflow(c, Nows(Bursts(c.capacity, t, skew)), 0, 2 * c.capacity - 1)
         == c.rate * ForwardStep(0.0, t - skew)
  {
    hide Bursts;
    var times := Nows(Bursts(c.capacity, t, skew));
    ForwardSteady(times, 0, 0, c.capacity - 1);
    ForwardSteady(times, 0, c.capacity, 2 * c.capacity - 1);
    assert Forward(times, 0, c.capacity) == ForwardStep(0.0, t - skew);
  }

  /** Requests at one instant add nothing. */
  lemma {:induction false} ForwardSteady(times: seq<real>, i: nat, j: nat, k: nat)
    requires i <= j <= k < |times|
    requires forall m :: j <= m <= k ==> times[m] == times[j]
    ensures Forward(times, i, k) == Forward(times, i, j)
    decreases k
  {
    if j < k {
      ForwardSteady(times, i, j, k - 1);
    }
  }

  const GENERAL_BUCKET := BucketConfig(100, 100.0 / 60.0, 120)
  const AGENT_BUCKET := BucketConfig(10, 10.0 / 60.0, 120)

  /** The default tiers hide expiry from clocks that are at most a minute apart, no more. */
  lemma DefaultTiers(skew: real)
    ensures RefilledInTime(GENERAL_BUCKET, skew) <==> skew <= 60.0
    ensures RefilledInTime(AGENT_BUCKET, skew) <==> skew <= 60.0
  {
    assert 100.0 / 60.0 * (120.0 - skew) == (100.0 * (120.0 - skew)) / 60.0;
    assert 10.0 / 60.0 * (120.0 - skew) == (10.0 * (120.0 - skew)) / 60.0;
  }
}
