/** internal/platform/resilience/adaptive_limiter.go: a rate limiter whose rate follows the answers of the service. */
module AdaptiveLimiters {
  import opened RateLimiters
  import opened Reals

  datatype Config = Config(baseRate: real, minRate: real, maxRate: real, burst: int,
                           backoffFactor: real, recoveryFactor: real, recoveryWindow: int) {
    predicate Valid() {
      && 0.0 < minRate <= baseRate <= maxRate
      && burst >= 1
      && 0.0 < backoffFactor < 1.0 < recoveryFactor
      && recoveryWindow >= 1
    }
  }

  /** Defaults, and then the order of the three rates. */
  function Completed(c: Config): (d: Config)
    ensures d.Valid()
    ensures c.Valid() ==> d == c
  {
    var base := if c.baseRate <= 0.0 then 1.0 else c.baseRate;
    var low := if c.minRate <= 0.0 then 0.1 else c.minRate;
    var high := if c.maxRate <= 0.0 then 10.0 else c.maxRate;
    var burst := if c.burst <= 0 then (if (base * 2.0).Floor < 1 then 1 else (base * 2.0).Floor) else c.burst;
    Config(base, if low > base then base else low, if high < base then base else high, burst,
           if c.backoffFactor <= 0.0 || c.backoffFactor >= 1.0 then 0.5 else c.backoffFactor,
           if c.recoveryFactor <= 1.0 then 1.1 else c.recoveryFactor,
           if c.recoveryWindow <= 0 then 10 else c.recoveryWindow)
  }

  /** A field that can be used is kept, the outer rates up to the base rate, and any other gets its default. */
  lemma {:induction false} CompletedFieldByField(c: Config)
    ensures var d := Completed(c);
            && d.baseRate == (if c.baseRate > 0.0 then c.baseRate else 1.0)
            && d.minRate == Min(if c.minRate > 0.0 then c.minRate else 0.1, d.baseRate)
            && d.maxRate == Max(if c.maxRate > 0.0 then c.maxRate else 10.0, d.baseRate)
            && (if c.burst > 0 then d.burst == c.burst else d.burst as real <= Max(1.0, d.baseRate * 2.0) < d.burst as real + 1.0)
            && d.backoffFactor == (if 0.0 < c.backoffFactor < 1.0 then c.backoffFactor else 0.5)
            && d.recoveryFactor == (if c.recoveryFactor > 1.0 then c.recoveryFactor else 1.1)
            && d.recoveryWindow == (if c.recoveryWindow > 0 then c.recoveryWindow else 10)
  {
  }

  function Pow(f: real, n: nat): real {
    if n == 0 then 1.0 else Pow(f, n - 1) * f
  }

  /** The fields of an adaptive limiter and of the limiter inside it. */
  datatype Adaptive = Adaptive(bucket: Bucket, currentRate: real, successes: int, failures: int, lastAdjustment: real)

  function Capped(failures: int): nat {
    if failures < 0 then 0 else if failures > 5 then 5 else failures
  }

  function Cut(rate: real, multiplier: real, low: real): real {
    Max(rate * multiplier, low)
  }

  /** The rate after a rate-limit error that is the given one in a row. */
  function BackedOff(c: Config, rate: real, failures: int): real {
    Cut(rate, Pow(c.backoffFactor, Capped(failures)), c.minRate)
  }

  function WithRate(a: Adaptive, rate: real, now: real): Adaptive {
    a.(bucket := a.bucket.(rate := rate), currentRate := rate, lastAdjustment := now)
  }

  function Failing(c: Config, a: Adaptive, now: real): Adaptive {
    var rate := BackedOff(c, a.currentRate, a.failures + 1);
    var b := a.(successes := 0, failures := a.failures + 1);
    if rate != a.currentRate then WithRate(b, rate, now) else b
  }

  predicate Recovers(c: Config, a: Adaptive, now: real) {
    a.successes + 1 >= c.recoveryWindow && a.currentRate < c.maxRate && now - a.lastAdjustment >= 1.0
  }

  function Succeeding(c: Config, a: Adaptive, now: real): Adaptive {
    if Recovers(c, a, now)
    then WithRate(a.(successes := 0, failures := 0), Min(a.currentRate * c.recoveryFactor, c.maxRate), now)
    else a.(failures := 0, successes := if a.successes + 1 >= c.recoveryWindow then 0 else a.successes + 1)
  }

  class AdaptiveLimiter {
    const limiter: RateLimiter
    const config: Config
    var currentRate: real
    var consecutiveSuccess: int
    var consecutiveFailures: int
    var lastAdjustment: real

    ghost predicate Valid()
      reads this, limiter
    {
      config.Valid() && Sound(config, Value())
    }

    function Value(): Adaptive
      reads this, limiter
    {
      Adaptive(limiter.Value(), currentRate, consecutiveSuccess, consecutiveFailures, lastAdjustment)
    }

    constructor (config: Config, now: real)
      ensures Valid() && fresh(limiter) && this.config == Completed(config)
      ensures var c := Completed(config);
              Value() == Adaptive(Bucket(c.baseRate, c.burst, c.burst as real, now), c.baseRate, 0, 0, now)
    {
      var c := Completed(config);
      this.config := c;
      limiter := new RateLimiter(c.baseRate, c.burst, now);
      currentRate, consecutiveSuccess, consecutiveFailures, lastAdjustment := c.baseRate, 0, 0, now;
    }

    method Allow(now: real) returns (ok: bool)
      requires Valid() && limiter.lastUpdate <= now
      modifies limiter
      ensures Valid()
      ensures ok == Admits(old(Value()).bucket, 1, now)
      ensures Value() == old(Value()).(bucket := Taken(old(Value()).bucket, 1, now))
    {
      TakingIsSound(config, Value(), now);
      ok := limiter.Allow(now);
    }

    method RecordSuccess(now: real)
      requires Valid()
      modifies this, limiter`rate
      ensures Valid() && Value() == Succeeding(config, old(Value()), now)
    {
      SucceedingIsSound(config, Value(), now);
      consecutiveFailures := 0;
      consecutiveSuccess := consecutiveSuccess + 1;
      if consecutiveSuccess >= config.recoveryWindow {
        TryRecover(now);
      }
    }

    method RecordRateLimitError(now: real)
      requires Valid()
      modifies this, limiter`rate
      ensures Valid() && Value() == Failing(config, old(Value()), now)
    {
      FailingIsSound(config, Value(), now);
      consecutiveSuccess := 0;
      consecutiveFailures := consecutiveFailures + 1;
      Backoff(consecutiveFailures, now);
    }

    method RecordError()
      requires Valid()
      modifies this`consecutiveSuccess
      ensures Valid() && Value() == old(Value()).(successes := 0)
      ensures forall now :: Value() == After(config, old(Value()), OtherError(now))
    {
      consecutiveSuccess := 0;
    }

    method Backoff(failureCount: int, now: real)
      requires failureCount >= 0
      modifies this`currentRate, this`lastAdjustment, limiter`rate
      ensures var rate := BackedOff(config, old(currentRate), failureCount);
              Value() == if rate != old(currentRate) then WithRate(old(Value()), rate, now) else old(Value())
    {
      var count := if failureCount > 5 then 5 else failureCount;
      var multiplier := 1.0;
      for i := 0 to count
        invariant multiplier == Pow(config.backoffFactor, i)
      {
        multiplier := multiplier * config.backoffFactor;
      }
      var newRate := currentRate * multiplier;
      if newRate < config.minRate {
        newRate := config.minRate;
      }
      Adjust(newRate, now);
    }

    method TryRecover(now: real)
      requires config.Valid() && 0.0 < currentRate
      modifies this`currentRate, this`lastAdjustment, this`consecutiveSuccess, limiter`rate
      ensures var a := old(Value()).(successes := 0);
              Value() == if MayRise(old(Value()), now)
                         then WithRate(a, Min(old(currentRate) * config.recoveryFactor, config.maxRate), now) else a
    {
      consecutiveSuccess := 0;
      if currentRate >= config.maxRate {
        return;
      }
      if now - lastAdjustment < 1.0 {
        return;
      }
      var newRate := currentRate * config.recoveryFactor;
      if newRate > config.maxRate {
        newRate := config.maxRate;
      }
      Growth(currentRate, config.recoveryFactor, currentRate * config.recoveryFactor);
      Adjust(newRate, now);
    }

    /** The end of both: a new rate goes to the inner limiter as well, and its time is noted. */
    method Adjust(newRate: real, now: real)
      modifies this`currentRate, this`lastAdjustment, limiter`rate
      ensures Value() == if newRate != old(currentRate) then WithRate(old(Value()), newRate, now) else old(Value())
    {
      if newRate != currentRate {
        currentRate := newRate;
        limiter.SetRate(newRate);
        lastAdjustment := now;
      }
    }

    ghost predicate MayRise(a: Adaptive, now: real) {
      a.currentRate < config.maxRate && now - a.lastAdjustment >= 1.0
    }

    method Reset(now: real)
      requires Valid()
      modifies this, limiter`rate
      ensures Valid() && Value() == WithRate(old(Value()).(successes := 0, failures := 0), config.baseRate, now)
      ensures Value() == After(config, old(Value()), Call.Restore(now))
    {
      currentRate := config.baseRate;
      limiter.SetRate(config.baseRate);
      consecutiveSuccess := 0;
      consecutiveFailures := 0;
      lastAdjustment := now;
    }
  }

  // ---------------------------------------------------------------------
  // What every step keeps
  // ---------------------------------------------------------------------

  /** The rate is within its limits and is the one the inner limiter has. */
  ghost predicate Sound(c: Config, a: Adaptive) {
    && c.minRate <= a.currentRate <= c.maxRate && a.bucket.rate == a.currentRate
    && a.bucket.burst == c.burst && 0.0 <= a.bucket.tokens <= c.burst as real
    && 0 <= a.successes < c.recoveryWindow && 0 <= a.failures
  }

  lemma {:induction false} Growth(x: real, f: real, xf: real)
    requires x > 0.0 && f > 1.0 && xf == x * f
    ensures xf > x
  {
  }

  lemma {:induction false} Shrink(x: real, f: real, xf: real)
    requires x >= 0.0 && 0.0 <= f <= 1.0 && xf == x * f
    ensures 0.0 <= xf <= x
  {
  }

  lemma {:induction false} ShrinkPositive(x: real, f: real, xf: real)
    requires x > 0.0 && 0.0 < f < 1.0 && xf == x * f
    ensures 0.0 < xf <= x
  {
  }

  lemma {:induction false} PowIsFraction(f: real, n: nat)
    requires 0.0 < f < 1.0
    ensures 0.0 < Pow(f, n) <= 1.0
  {
    if n == 0 {
    } else {
      PowIsFraction(f, n - 1);
      ShrinkPositive(Pow(f, n - 1), f, Pow(f, n));
    }
  }

  lemma {:induction false} TakingIsSound(c: Config, a: Adaptive, now: real)
    requires c.Valid() && Sound(c, a) && a.bucket.lastUpdate <= now
    ensures Sound(c, a.(bucket := Taken(a.bucket, 1, now)))
  {
    TokensStayNonNegative(a.bucket, Take(1, now));
  }

  lemma {:induction false} FailingIsSound(c: Config, a: Adaptive, now: real)
    requires c.Valid() && Sound(c, a)
    ensures Sound(c, Failing(c, a, now))
    ensures Failing(c, a, now).currentRate <= a.currentRate
  {
    var p := Pow(c.backoffFactor, Capped(a.failures + 1));
    PowIsFraction(c.backoffFactor, Capped(a.failures + 1));
    Shrink(a.currentRate, p, a.currentRate * p);
  }

  lemma {:induction false} SucceedingIsSound(c: Config, a: Adaptive, now: real)
    requires c.Valid() && Sound(c, a)
    ensures Sound(c, Succeeding(c, a, now))
    ensures Succeeding(c, a, now).currentRate >= a.currentRate
    ensures Recovers(c, a, now) <==> Succeeding(c, a, now).currentRate > a.currentRate
  {
    Growth(a.currentRate, c.recoveryFactor, a.currentRate * c.recoveryFactor);
  }

  // ---------------------------------------------------------------------
  // Runs
  // ---------------------------------------------------------------------

  datatype Call =
    | Request(now: real)
    | Success(now: real)
    | RateLimited(now: real)
    | OtherError(now: real)
    | Restore(now: real)

  function After(c: Config, a: Adaptive, call: Call): Adaptive {
    match call
    case Request(now) => a.(bucket := Taken(a.bucket, 1, now))
    case Success(now) => Succeeding(c, a, now)
    case RateLimited(now) => Failing(c, a, now)
    case OtherError(_) => a.(successes := 0)
    case Restore(now) => WithRate(a.(successes := 0, failures := 0), c.baseRate, now)
  }

  function RunCalls(c: Config, a: Adaptive, calls: seq<Call>): Adaptive
    decreases |calls|
  {
    if calls == [] then a else RunCalls(c, After(c, a, calls[0]), calls[1..])
  }

  function Admitted(c: Config, a: Adaptive, calls: seq<Call>): nat
    decreases |calls|
  {
    if calls == [] then 0
    else (if calls[0].Request? && Admits(a.bucket, 1, calls[0].now) then 1 else 0) + Admitted(c, After(c, a, calls[0]), calls[1..])
  }

  /** The clock does not run backwards: every call happens within the window, in order. */
  ghost predicate Timed(calls: seq<Call>, from: real, to: real)
    decreases |calls|
  {
    from <= to && (calls == [] || (from <= calls[0].now <= to && Timed(calls[1..], calls[0].now, to)))
  }

  lemma {:induction false} AfterIsSound(c: Config, a: Adaptive, call: Call)
    requires c.Valid() && Sound(c, a) && a.bucket.lastUpdate <= call.now
    ensures Sound(c, After(c, a, call)) && After(c, a, call).bucket.lastUpdate <= call.now
  {
    match call
    case Request(now) => TakingIsSound(c, a, now);
    case Success(now) => SucceedingIsSound(c, a, now);
    case RateLimited(now) => FailingIsSound(c, a, now);
    case _ =>
  }

  /** Whatever the service answers, the rate stays between its limits and the inner limiter runs at that rate. */
  lemma {:induction false} RateStaysWithinLimits(c: Config, a: Adaptive, calls: seq<Call>, from: real, to: real)
    requires c.Valid() && Sound(c, a) && a.bucket.lastUpdate <= from && Timed(calls, from, to)
    ensures Sound(c, RunCalls(c, a, calls))
    decreases |calls|
  {
    if calls == [] {
    } else {
      AfterIsSound(c, a, calls[0]);
      RateStaysWithinLimits(c, After(c, a, calls[0]), calls[1..], calls[0].now, to);
    }
  }

  /** What the calls do to the inner limiter. */
  function Inner(c: Config, a: Adaptive, calls: seq<Call>): seq<Event>
    decreases |calls|
  {
    if calls == [] then []
    else
      var next := After(c, a, calls[0]);
      [if calls[0].Request? then Take(1, calls[0].now) else NewRate(next.bucket.rate)] + Inner(c, next, calls[1..])
  }

  lemma {:induction false} InnerRun(c: Config, a: Adaptive, calls: seq<Call>, from: real, start: real, to: real)
    requires c.Valid() && Sound(c, a) && a.bucket.lastUpdate <= start && from <= start && Timed(calls, start, to)
    ensures TotalGranted(a.bucket, Inner(c, a, calls)) == Admitted(c, a, calls)
    ensures AllWithin(a.bucket, Inner(c, a, calls), c.maxRate, c.burst, from, to)
    ensures forall i :: 0 <= i < |Inner(c, a, calls)| ==> !Inner(c, a, calls)[i].NewBurst?
    ensures Restores(Inner(c, a, calls)) == 0
    decreases |calls|
  {
    if calls == [] {
    } else {
      var next, events := After(c, a, calls[0]), Inner(c, a, calls);
      AfterIsSound(c, a, calls[0]);
      InnerRun(c, next, calls[1..], from, calls[0].now, to);
      assert events[1..] == Inner(c, next, calls[1..]);
      assert Next(a.bucket, events[0]) == next.bucket;
    }
  }

  /** In any window, however the rate is cut, raised or restored, at most a burst and the refill at the highest rate is
      admitted. */
  lemma {:induction false} AdaptiveWindowBound(c: Config, a: Adaptive, calls: seq<Call>, from: real, to: real)
    requires c.Valid() && Sound(c, a) && a.bucket.lastUpdate <= from && Timed(calls, from, to)
    ensures Admitted(c, a, calls) as real <= c.burst as real + c.maxRate * (to - from)
  {
    var events := Inner(c, a, calls);
    assert from <= to;
    InnerRun(c, a, calls, from, from, to);
    WindowBound(a.bucket, events, c.maxRate, c.burst, from, to, c.maxRate * (to - from));
  }

  // ---------------------------------------------------------------------
  // Rate-limit errors in a row
  // ---------------------------------------------------------------------

  /** 1 + 2 + 3 + 4 + 5 + 5 + 5 + ... */
  function CutsAfter(k: nat): nat {
    if k == 0 then 0 else CutsAfter(k - 1) + Capped(k)
  }

  lemma {:induction false} PowAdds(f: real, m: nat, n: nat)
    ensures Pow(f, m + n) == Pow(f, m) * Pow(f, n)
  {
    if n == 0 {
    } else {
      PowAdds(f, m, n - 1);
      Associates(Pow(f, m), Pow(f, n - 1), f);
    }
  }

  lemma {:induction false} Associates(x: real, y: real, z: real)
    ensures (x * y) * z == x * (y * z)
  {
  }

  /** The calls are errors, and k of them are rate-limit errors. */
  ghost predicate Errors(calls: seq<Call>, k: nat)
    decreases |calls|
  {
    if calls == [] then k == 0
    else if calls[0].RateLimited? then k > 0 && Errors(calls[1..], k - 1)
    else (calls[0].OtherError? || calls[0].Request?) && Errors(calls[1..], k)
  }

  lemma {:induction false} CutTwice(start: real, p: real, q: real, pq: real, low: real)
    requires pq == p * q && low > 0.0 && 0.0 < q <= 1.0
    ensures Cut(Cut(start, p, low), q, low) == Cut(start, pq, low)
  {
    var sp := start * p;
    Associates(start, p, q);
    Shrink(low, q, low * q);
    if sp < low {
      Scaled(q, sp, low, q * sp, q * low);
    }
  }

  /** The rate after j rate-limit errors in a row from a starting rate. */
  function AfterErrors(c: Config, start: real, j: nat): real {
    Cut(start, Pow(c.backoffFactor, CutsAfter(j)), c.minRate)
  }

  lemma {:induction false} Multipliers(f: real, j: nat) returns (p: real, q: real, pq: real)
    requires 0.0 < f < 1.0
    ensures p == Pow(f, CutsAfter(j)) && q == Pow(f, Capped(j + 1)) && pq == Pow(f, CutsAfter(j + 1))
    ensures pq == p * q && 0.0 < q <= 1.0
  {
    p, q, pq := Pow(f, CutsAfter(j)), Pow(f, Capped(j + 1)), Pow(f, CutsAfter(j + 1));
    PowAdds(f, CutsAfter(j), Capped(j + 1));
    PowIsFraction(f, Capped(j + 1));
  }

  lemma {:induction false} OneMoreError(c: Config, start: real, j: nat, rate: real)
    requires c.Valid() && rate == AfterErrors(c, start, j)
    ensures BackedOff(c, rate, j + 1) == AfterErrors(c, start, j + 1)
  {
    var p, q, pq := Multipliers(c.backoffFactor, j);
    CutTwice(start, p, q, pq, c.minRate);
  }

  lemma {:induction false} ErrorsMultiply(c: Config, a: Adaptive, calls: seq<Call>, k: nat, j: nat, start: real)
    requires c.Valid() && a.failures == j && Errors(calls, k) && a.currentRate == AfterErrors(c, start, j)
    ensures RunCalls(c, a, calls).currentRate == AfterErrors(c, start, j + k)
    decreases |calls|
  {
    if calls == [] {
    } else {
      var next := After(c, a, calls[0]);
      if calls[0].RateLimited? {
        OneMoreError(c, start, j, a.currentRate);
        ErrorsMultiply(c, next, calls[1..], k - 1, j + 1, start);
      } else {
        ErrorsMultiply(c, next, calls[1..], k, j, start);
      }
    }
  }

  lemma {:induction false} CutsInClosedForm(k: nat)
    ensures CutsAfter(k) == if k <= 5 then k * (k + 1) / 2 else 5 * k - 10
  {
    if k == 0 {
    } else {
      CutsInClosedForm(k - 1);
    }
  }

  /** After a success or Reset, k rate-limit errors with no success among them cut the rate to
      r * f^(min(1,5) + ... + min(k,5)), but not below the floor; other errors in between change nothing. */
  lemma {:induction false} ErrorsInARow(c: Config, a: Adaptive, calls: seq<Call>, k: nat)
    requires c.Valid() && Sound(c, a) && a.failures == 0 && Errors(calls, k)
    ensures RunCalls(c, a, calls).currentRate == AfterErrors(c, a.currentRate, k)
  {
    assert Pow(c.backoffFactor, CutsAfter(0)) == 1.0;
    ErrorsMultiply(c, a, calls, k, 0, a.currentRate);
  }

  // ---------------------------------------------------------------------
  // How fast the rate can rise
  // ---------------------------------------------------------------------

  ghost predicate NoRestore(calls: seq<Call>) {
    forall i :: 0 <= i < |calls| ==> !calls[i].Restore?
  }

  lemma {:induction false} RiseIsOneStep(c: Config, a: Adaptive, call: Call)
    requires c.Valid() && Sound(c, a) && !call.Restore? && a.lastAdjustment <= call.now && a.bucket.lastUpdate <= call.now
    ensures var next := After(c, a, call);
            && a.lastAdjustment <= next.lastAdjustment <= call.now
            && next.currentRate <= a.currentRate * c.recoveryFactor
            && (next.currentRate > a.currentRate ==> call.Success? && next.lastAdjustment >= a.lastAdjustment + 1.0)
  {
    Growth(a.currentRate, c.recoveryFactor, a.currentRate * c.recoveryFactor);
    match call
    case Success(now) => SucceedingIsSound(c, a, now);
    case RateLimited(now) => FailingIsSound(c, a, now);
    case _ =>
  }

  /** The rates that a run goes through. */
  function Rates(c: Config, a: Adaptive, calls: seq<Call>): (rates: seq<real>)
    ensures |rates| == |calls| + 1 && rates[0] == a.currentRate
    decreases |calls|
  {
    [a.currentRate] + if calls == [] then [] else Rates(c, After(c, a, calls[0]), calls[1..])
  }

  lemma {:induction false} LastRate(c: Config, a: Adaptive, calls: seq<Call>)
    ensures Rates(c, a, calls)[|calls|] == RunCalls(c, a, calls).currentRate
    decreases |calls|
  {
    if calls == [] {
    } else {
      LastRate(c, After(c, a, calls[0]), calls[1..]);
    }
  }

  function Ups(rates: seq<real>): nat {
    if |rates| < 2 then 0 else (if rates[1] > rates[0] then 1 else 0) + Ups(rates[1..])
  }

  /** No rate is above the one before it times the factor. */
  ghost predicate Stepwise(rates: seq<real>, g: real) {
    |rates| < 2 || (rates[1] <= rates[0] * g && Stepwise(rates[1..], g))
  }

  /** x multiplied by g, n times over. */
  function Compounded(x: real, g: real, n: nat): real
    decreases n
  {
    if n == 0 then x else Compounded(x * g, g, n - 1)
  }

  lemma {:induction false} CompoundedIsMonotone(x: real, y: real, g: real, n: nat)
    requires x <= y && g > 0.0
    ensures Compounded(x, g, n) <= Compounded(y, g, n)
    decreases n
  {
    if n == 0 {
    } else {
      Scaled(g, x, y, x * g, y * g);
      CompoundedIsMonotone(x * g, y * g, g, n - 1);
    }
  }

  lemma {:induction false} UpsCompound(rates: seq<real>, g: real)
    requires |rates| > 0 && g > 1.0 && Stepwise(rates, g)
    ensures rates[|rates| - 1] <= Compounded(rates[0], g, Ups(rates))
  {
    if |rates| <= 1 {
    } else {
      UpsCompound(rates[1..], g);
      CompoundedIsMonotone(rates[1], if rates[1] > rates[0] then rates[0] * g else rates[0], g, Ups(rates[1..]));
    }
  }

  lemma {:induction false} RunIsStepwise(c: Config, a: Adaptive, calls: seq<Call>, from: real, to: real)
    requires c.Valid() && Sound(c, a) && NoRestore(calls) && Timed(calls, from, to)
    requires a.lastAdjustment <= from && a.bucket.lastUpdate <= from
    ensures Stepwise(Rates(c, a, calls), c.recoveryFactor)
    ensures Ups(Rates(c, a, calls)) as real <= to - a.lastAdjustment
    decreases |calls|
  {
    if calls == [] {
    } else {
      var next, rates := After(c, a, calls[0]), Rates(c, a, calls);
      AfterIsSound(c, a, calls[0]);
      RiseIsOneStep(c, a, calls[0]);
      RunIsStepwise(c, next, calls[1..], calls[0].now, to);
      assert rates[1..] == Rates(c, next, calls[1..]);
    }
  }

  /** Without Reset the rate rises at most once a second, each time by at most the recovery factor. */
  lemma {:induction false} RisesAreSpaced(c: Config, a: Adaptive, calls: seq<Call>, from: real, to: real)
    requires c.Valid() && Sound(c, a) && NoRestore(calls) && Timed(calls, from, to)
    requires a.lastAdjustment <= from && a.bucket.lastUpdate <= from
    ensures var ups := Ups(Rates(c, a, calls));
            && ups as real <= to - a.lastAdjustment
            && RunCalls(c, a, calls).currentRate <= Compounded(a.currentRate, c.recoveryFactor, ups)
  {
    RunIsStepwise(c, a, calls, from, to);
    UpsCompound(Rates(c, a, calls), c.recoveryFactor);
    LastRate(c, a, calls);
  }

  // ---------------------------------------------------------------------
  // When the rate rises
  // ---------------------------------------------------------------------

  /** How many successes there were since the latest error or Reset. */
  function Streak(calls: seq<Call>): nat {
    if calls == [] then 0
    else
      var before, call := calls[..|calls| - 1], calls[|calls| - 1];
      match call
      case Success(_) => Streak(before) + 1
      case Request(_) => Streak(before)
      case _ => 0
  }

  lemma {:induction false} RunOfAppend(c: Config, a: Adaptive, calls: seq<Call>, call: Call)
    ensures RunCalls(c, a, calls + [call]) == After(c, RunCalls(c, a, calls), call)
    decreases |calls|
  {
    if calls == [] {
      assert [call][1..] == [];
    } else {
      assert (calls + [call])[0] == calls[0] && (calls + [call])[1..] == calls[1..] + [call];
      RunOfAppend(c, After(c, a, calls[0]), calls[1..], call);
    }
  }

  /** How many rate-limit errors there were since the latest success or Reset. */
  function Refusals(calls: seq<Call>): nat {
    if calls == [] then 0
    else
      var before, call := calls[..|calls| - 1], calls[|calls| - 1];
      match call
      case RateLimited(_) => Refusals(before) + 1
      case Success(_) => 0
      case Restore(_) => 0
      case _ => Refusals(before)
  }

  /** When the rate was last set to another value, or reset. */
  function LastChange(c: Config, a: Adaptive, calls: seq<Call>): real {
    if calls == [] then a.lastAdjustment
    else
      var before, call := calls[..|calls| - 1], calls[|calls| - 1];
      if call.Restore? || RunCalls(c, a, calls).currentRate != RunCalls(c, a, before).currentRate then call.now
      else LastChange(c, a, before)
  }

  /** A count that starts anew whenever it reaches the window. */
  function Counted(streak: nat, window: int): (n: nat)
    requires window >= 1
    ensures n < window
  {
    if streak == 0 || Counted(streak - 1, window) + 1 == window then 0 else Counted(streak - 1, window) + 1
  }

  /** It is zero exactly after whole windows. */
  lemma {:induction false} CountedIsRemainder(streak: nat, window: int) returns (q: nat)
    requires window >= 1
    ensures streak == q * window + Counted(streak, window)
    ensures Counted(streak, window) == streak % window
  {
    if streak == 0 {
      q := 0;
    } else {
      q := CountedIsRemainder(streak - 1, window);
      if Counted(streak, window) == 0 {
        q := q + 1;
      }
    }
    RemainderIs(streak, window, q, Counted(streak, window));
  }

  lemma {:induction false} RemainderIs(n: nat, d: int, q: int, r: int)
    requires d >= 1 && n == q * d + r && 0 <= r < d
    ensures n % d == r
  {
    SmallMultiple(q - n / d, d, n % d - r);
  }

  lemma {:induction false} SmallMultiple(k: int, d: int, kd: int)
    requires d >= 1 && kd == k * d && -d < kd < d
    ensures k == 0
  {
  }

  lemma {:induction false} StepCounts(c: Config, a: Adaptive, call: Call, next: Adaptive)
    requires c.Valid() && Sound(c, a) && next == After(c, a, call)
    ensures next.successes == match call
                              case Success(_) => if a.successes + 1 == c.recoveryWindow then 0 else a.successes + 1
                              case Request(_) => a.successes
                              case _ => 0
    ensures next.failures == match call
                             case RateLimited(_) => a.failures + 1
                             case Success(_) => 0
                             case Restore(_) => 0
                             case _ => a.failures
    ensures next.lastAdjustment == if call.Restore? || next.currentRate != a.currentRate then call.now else a.lastAdjustment
  {
    Growth(a.currentRate, c.recoveryFactor, a.currentRate * c.recoveryFactor);
  }

  /** From a limiter just built or reset: one counter is the streak of successes, counted anew after each window, the other the
      rate-limit errors in a row, and the time is that of the last change. */
  lemma {:induction false} CountersAreTheHistory(c: Config, a: Adaptive, calls: seq<Call>, from: real, to: real)
    requires c.Valid() && Sound(c, a) && a.bucket.lastUpdate <= from && Timed(calls, from, to)
    requires a.successes == 0 && a.failures == 0
    ensures RunCalls(c, a, calls).failures == Refusals(calls)
    ensures RunCalls(c, a, calls).successes == Counted(Streak(calls), c.recoveryWindow)
    ensures RunCalls(c, a, calls).lastAdjustment == LastChange(c, a, calls)
  {
    if calls == [] {
    } else {
      var before, call := calls[..|calls| - 1], calls[|calls| - 1];
      assert calls == before + [call];
      RunOfAppend(c, a, before, call);
      TimedPrefix(before, call, from, to);
      CountersAreTheHistory(c, a, before, from, to);
      RateStaysWithinLimits(c, a, before, from, to);
      StepCounts(c, RunCalls(c, a, before), call, RunCalls(c, a, calls));
    }
  }

  lemma {:induction false} TimedPrefix(before: seq<Call>, call: Call, from: real, to: real)
    requires Timed(before + [call], from, to)
    ensures Timed(before, from, to)
    decreases |before|
  {
    if before == [] {
    } else {
      assert (before + [call])[0] == before[0] && (before + [call])[1..] == before[1..] + [call];
      TimedPrefix(before[1..], call, before[0].now, to);
    }
  }

  /** From a limiter just built or reset: the rate rises at a call exactly when that is a success which completes another
      window of successes since the latest error or Reset, the rate is below its ceiling and was last changed a second ago
      or more; and then to itself times the recovery factor or the ceiling, whichever is less. */
  lemma {:induction false} RisesExactlyWhen(c: Config, a: Adaptive, calls: seq<Call>, call: Call, from: real, to: real, raised: real)
    requires c.Valid() && Sound(c, a) && a.bucket.lastUpdate <= from && Timed(calls, from, to)
    requires a.successes == 0 && a.failures == 0
    requires !call.Restore? && raised == RunCalls(c, a, calls).currentRate * c.recoveryFactor
    ensures var rate, next := RunCalls(c, a, calls).currentRate, RunCalls(c, a, calls + [call]).currentRate;
            && (next > rate <==> && call.Success? && Counted(Streak(calls) + 1, c.recoveryWindow) == 0
                                 && rate < c.maxRate && call.now - LastChange(c, a, calls) >= 1.0)
            && (next > rate ==> next == if raised <= c.maxRate then raised else c.maxRate)
  {
    var b := RunCalls(c, a, calls);
    RunOfAppend(c, a, calls, call);
    CountersAreTheHistory(c, a, calls, from, to);
    RateStaysWithinLimits(c, a, calls, from, to);
    RiseOfOne(c, b, call, RunCalls(c, a, calls + [call]), raised);
  }

  lemma {:induction false} RiseOfOne(c: Config, a: Adaptive, call: Call, next: Adaptive, raised: real)
    requires c.Valid() && Sound(c, a) && !call.Restore? && next == After(c, a, call) && raised == a.currentRate * c.recoveryFactor
    ensures next.currentRate > a.currentRate
       <==> call.Success? && a.successes + 1 == c.recoveryWindow && a.currentRate < c.maxRate && call.now - a.lastAdjustment >= 1.0
    ensures next.currentRate > a.currentRate ==> next.currentRate == if raised <= c.maxRate then raised else c.maxRate
  {
    Growth(a.currentRate, c.recoveryFactor, raised);
    if call.RateLimited? {
      FailingIsSound(c, a, call.now);
    }
  }
}
