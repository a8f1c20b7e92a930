/** internal/platform/resilience/rate_limiter.go: a token bucket, over exact reals and with time in seconds. */
module RateLimiters {
  import opened Reals

  datatype Bucket = Bucket(rate: real, burst: int, tokens: real, lastUpdate: real)

  function Refilled(b: Bucket, now: real): Bucket {
    b.(tokens := Min(b.tokens + (now - b.lastUpdate) * b.rate, b.burst as real), lastUpdate := now)
  }

  predicate Admits(b: Bucket, n: int, now: real) {
    n <= 0 || Refilled(b, now).tokens >= n as real
  }

  /** The bucket after asking for n tokens; asking for none does not even refill it. */
  function Taken(b: Bucket, n: int, now: real): Bucket {
    if n <= 0 then b
    else
      var full := Refilled(b, now);
      if full.tokens >= n as real then full.(tokens := full.tokens - n as real) else full
  }

  /** Go's conversion of a float to an integer. */
  function Truncated(x: real): int {
    if x >= 0.0 then x.Floor else -(-x).Floor
  }

  /** The longest duration, in seconds. */
  const LONGEST := 9223372036.854775807

  /** How long Wait sleeps: the time to the next token in whole seconds, cut off, but at least 10 ms. When that time is none,
      or is not a duration, the conversions leave some duration, given here as `wrapped`. */
  function WaitTime(b: Bucket, wrapped: real): real {
    if b.rate == 0.0 then Max(wrapped, 0.01)
    else
      var seconds := Truncated(Max(0.0, 1.0 - b.tokens) * (1.0 / b.rate)) as real;
      Max(if -LONGEST <= seconds <= LONGEST then seconds else wrapped, 0.01)
  }

  class RateLimiter {
    var rate: real
    var burst: int
    var tokens: real
    var lastUpdate: real

    /** The default burst is the rate cut down to an integer, which is 0 for a rate below 1. */
    constructor (rate: real, burst: int, now: real)
      ensures var r := if rate <= 0.0 then 10.0 else rate;
              var n := if burst <= 0 then r.Floor else burst;
              Value() == Bucket(r, n, n as real, now)
    {
      var r := if rate <= 0.0 then 10.0 else rate;
      var n := if burst <= 0 then r.Floor else burst;
      this.rate, this.burst, tokens, lastUpdate := r, n, n as real, now;
    }

    function Value(): Bucket
      reads this
    {
      Bucket(rate, burst, tokens, lastUpdate)
    }

    method Refill(now: real)
      modifies this
      ensures Value() == Refilled(old(Value()), now)
    {
      var elapsed := now - lastUpdate;
      var tokensToAdd := elapsed * rate;
      tokens := tokens + tokensToAdd;
      if tokens > burst as real {
        tokens := burst as real;
      }
      lastUpdate := now;
    }

    method Allow(now: real) returns (ok: bool)
      modifies this
      ensures ok == Admits(old(Value()), 1, now)
      ensures Value() == Taken(old(Value()), 1, now)
    {
      Refill(now);
      if tokens >= 1.0 {
        tokens := tokens - 1.0;
        return true;
      }
      ok := false;
    }

    method AllowN(n: int, now: real) returns (ok: bool)
      modifies this
      ensures ok == Admits(old(Value()), n, now)
      ensures Value() == Taken(old(Value()), n, now)
      ensures n <= 0 ==> ok && Value() == old(Value())
    {
      if n <= 0 {
        return true;
      }
      Refill(now);
      if tokens >= n as real {
        tokens := tokens - n as real;
        return true;
      }
      ok := false;
    }

    method SetRate(rate: real)
      modifies this`rate
      ensures this.rate == rate
      ensures Value() == Next(old(Value()), NewRate(rate))
    {
      this.rate := rate;
    }

    method SetBurst(burst: int)
      modifies this`burst, this`tokens
      ensures Value() == old(Value()).(burst := burst, tokens := Min(old(tokens), burst as real))
      ensures Value() == Next(old(Value()), NewBurst(burst))
    {
      this.burst := burst;
      if tokens > burst as real {
        tokens := burst as real;
      }
    }

    method Reset(now: real)
      modifies this
      ensures Value() == old(Value()).(tokens := burst as real, lastUpdate := now)
      ensures Value() == Next(old(Value()), Restore(now))
    {
      tokens := burst as real;
      lastUpdate := now;
    }

    /** Wait, when nobody else uses the limiter, with a context that ends at some time: it gets its token no earlier than the
        bucket has one and at most 10 ms later, or gives up when the context ends, and never gets one from a bucket that
        cannot hold a whole token or does not fill. */
    method Wait(now: real, cancelled: real) returns (ok: bool, end: real)
      requires lastUpdate <= now
      modifies this
      ensures rate == old(rate) && burst == old(burst) && now <= end
      ensures var full := Refilled(old(Value()), now);
              && (full.tokens >= 1.0 ==> ok && end == now)
              && (full.tokens < 1.0 && ok ==> Fills(full) && FullAt(full) <= end <= FullAt(full) + 0.01)
              && (!ok ==> end == Max(now, cancelled) && (Fills(full) ==> cancelled <= FullAt(full) + 0.01))
    {
      end := now;
      ok := Allow(end);
      if ok {
        return;
      }
      ghost var full := Value();
      while !ok
        invariant rate == full.rate && burst == full.burst && lastUpdate == end && now <= end
        invariant end == now || end <= cancelled
        invariant !ok ==> tokens < 1.0 && (Fills(full) ==> FullAt(Value()) == FullAt(full))
        invariant ok ==> Fills(full) && FullAt(full) <= end <= FullAt(full) + 0.01
        decreases if ok then 0.0 else Max(0.0, 100.0 * (cancelled - end) + 1.0)
      {
        var until := SleepUntil();
        var cancelFirst: bool := *;
        if cancelled < until || (cancelled == until && cancelFirst) {
          end := Max(end, cancelled);
          return;
        }
        end := until;
        ok := Poll(until, full);
      }
    }

    /** When the sleep of Wait ends: within the last second before the bucket has a whole token, or 10 ms from now. */
    method SleepUntil() returns (until: real)
      requires tokens < 1.0
      ensures lastUpdate + 0.01 <= until
      ensures Fills(Value()) ==> lastUpdate < FullAt(Value()) && until <= FullAt(Value()) + 0.01
      ensures Fills(Value()) && FullAt(Value()) <= lastUpdate + LONGEST ==> until > FullAt(Value()) - 1.0
    {
      var wrapped: real :| -LONGEST <= wrapped <= LONGEST by {
        assert -LONGEST <= 0.0 <= LONGEST;
      }
      SleepEndsInTime(Value(), wrapped);
      SleepIsNotShort(Value(), wrapped);
      until := lastUpdate + WaitTime(Value(), wrapped);
    }

    /** Another try after a sleep. */
    method Poll(now: real, ghost full: Bucket) returns (ok: bool)
      requires tokens < 1.0 && lastUpdate <= now && rate == full.rate && burst == full.burst
      requires Fills(full) ==> FullAt(Value()) == FullAt(full)
      modifies this
      ensures rate == old(rate) && burst == old(burst) && lastUpdate == now
      ensures ok <==> Fills(full) && FullAt(full) <= now
      ensures !ok ==> tokens < 1.0 && (Fills(full) ==> FullAt(Value()) == FullAt(full))
    {
      RefillTowardsFull(Value(), now);
      ok := Allow(now);
    }
  }

  /** The bucket fills up to a whole token at least. */
  ghost predicate Fills(b: Bucket) {
    b.rate > 0.0 && b.burst >= 1
  }

  /** When a bucket that fills will have a whole token. */
  ghost function FullAt(b: Bucket): real
    requires Fills(b)
  {
    b.lastUpdate + (1.0 - b.tokens) / b.rate
  }

  lemma {:induction false} SleepEndsInTime(b: Bucket, wrapped: real)
    requires b.tokens < 1.0 && -LONGEST <= wrapped <= LONGEST
    ensures WaitTime(b, wrapped) >= 0.01
    ensures Fills(b) ==> FullAt(b) > b.lastUpdate && b.lastUpdate + WaitTime(b, wrapped) <= Max(FullAt(b), b.lastUpdate + 0.01)
  {
    if Fills(b) {
      var needed := 1.0 - b.tokens;
      assert needed * (1.0 / b.rate) == needed / b.rate;
      QuotientIsPositive(needed, b.rate, needed / b.rate);
    }
  }

  lemma {:induction false} SleepIsNotShort(b: Bucket, wrapped: real)
    requires b.tokens < 1.0
    ensures Fills(b) && FullAt(b) <= b.lastUpdate + LONGEST ==> b.lastUpdate + WaitTime(b, wrapped) > FullAt(b) - 1.0
  {
    if Fills(b) {
      var needed, q := 1.0 - b.tokens, (1.0 - b.tokens) / b.rate;
      assert needed * (1.0 / b.rate) == q;
      QuotientIsPositive(needed, b.rate, q);
    }
  }

  lemma {:induction false} QuotientIsPositive(a: real, b: real, q: real)
    requires a > 0.0 && b > 0.0 && q == a / b
    ensures q > 0.0
  {
    assert q * b == a;
  }

  /** A refill keeps the instant at which the bucket has a whole token, unless it has passed; a bucket that does not fill
      stays without one. */
  lemma {:induction false} RefillTowardsFull(b: Bucket, now: real)
    requires b.tokens < 1.0 && b.lastUpdate <= now
    ensures Admits(b, 1, now) <==> Fills(b) && FullAt(b) <= now
    ensures !Admits(b, 1, now) ==> Refilled(b, now).tokens < 1.0
    ensures !Admits(b, 1, now) && Fills(b) ==> FullAt(Refilled(b, now)) == FullAt(b)
  {
    var d := now - b.lastUpdate;
    var added := d * b.rate;
    var r := RefilledIs(b, now, d, added);
    if b.rate <= 0.0 {
      Scaled(d, b.rate, 0.0, added, 0.0);
    } else if b.burst >= 1 {
      FillingKeepsFullAt(b, now, d, added, r);
    }
  }

  lemma {:induction false} RefilledIs(b: Bucket, now: real, d: real, added: real) returns (r: Bucket)
    requires d == now - b.lastUpdate && added == d * b.rate
    ensures r == Refilled(b, now) == Bucket(b.rate, b.burst, Min(b.tokens + added, b.burst as real), now)
  {
    r := Refilled(b, now);
  }

  lemma {:induction false} FillingKeepsFullAt(b: Bucket, now: real, d: real, added: real, r: Bucket)
    requires b.tokens < 1.0 && Fills(b) && d == now - b.lastUpdate && added == d * b.rate
    requires r == Bucket(b.rate, b.burst, Min(b.tokens + added, b.burst as real), now)
    ensures r.tokens >= 1.0 <==> FullAt(b) <= now
    ensures r.tokens < 1.0 ==> FullAt(r) == FullAt(b)
  {
    var at, left := FillsAt(b.tokens, b.rate, b.lastUpdate, now, d, added);
    if r.tokens < 1.0 {
      assert r.tokens == b.tokens + added;
    }
  }

  lemma {:induction false} FillsAt(tokens: real, rate: real, last: real, now: real, d: real, added: real)
      returns (at: real, left: real)
    requires rate > 0.0 && d == now - last && added == d * rate
    ensures at == last + (1.0 - tokens) / rate == left && left == now + (1.0 - (tokens + added)) / rate
    ensures tokens + added >= 1.0 <==> at <= now
  {
    var missing := 1.0 - tokens;
    var q := missing / rate;
    at, left := last + q, last + q;
    assert q * rate == missing;
    ProductOrder(q, d, rate, missing, added);
    QuotientLess(missing, added, rate, q, d);
  }

  lemma {:induction false} QuotientLess(a: real, added: real, r: real, q: real, d: real)
    requires r > 0.0 && q == a / r && added == d * r
    ensures (a - added) / r == q - d
  {
    var z := (a - added) / r;
    assert z * r == a - added;
    ProductOrder(z, q - d, r, z * r, q * r - d * r);
  }

  lemma {:induction false} ProductOrder(x: real, y: real, r: real, xr: real, yr: real)
    requires r > 0.0 && xr == x * r && yr == y * r
    ensures x <= y <==> xr <= yr
  {
  }

  // ---------------------------------------------------------------------
  // How much is admitted
  // ---------------------------------------------------------------------

  datatype Event =
    | Take(n: int, now: real)
    | Peek(now: real)          // Stats also refills
    | NewRate(rate: real)
    | NewBurst(burst: int)
    | Restore(now: real)       // Reset

  function Next(b: Bucket, e: Event): Bucket {
    match e
    case Take(n, now) => Taken(b, n, now)
    case Peek(now) => Refilled(b, now)
    case NewRate(rate) => b.(rate := rate)
    case NewBurst(burst) => b.(burst := burst, tokens := Min(b.tokens, burst as real))
    case Restore(now) => b.(tokens := b.burst as real, lastUpdate := now)
  }

  function Granted(b: Bucket, e: Event): int {
    if e.Take? && e.n > 0 && Admits(b, e.n, e.now) then e.n else 0
  }

  function Run(b: Bucket, events: seq<Event>): Bucket
    decreases |events|
  {
    if events == [] then b else Run(Next(b, events[0]), events[1..])
  }

  function TotalGranted(b: Bucket, events: seq<Event>): int
    decreases |events|
  {
    if events == [] then 0 else Granted(b, events[0]) + TotalGranted(Next(b, events[0]), events[1..])
  }

  /** The event keeps the rate and burst within bounds and happens within the window, not before the last refill. */
  ghost predicate Within(b: Bucket, e: Event, rate: real, burst: int, from: real, to: real) {
    match e
    case Take(_, now) => from <= now <= to && b.lastUpdate <= now
    case Peek(now) => from <= now <= to && b.lastUpdate <= now
    case NewRate(r) => 0.0 <= r <= rate
    case NewBurst(n) => n <= burst
    case Restore(now) => from <= now <= to && b.lastUpdate <= now
  }

  ghost predicate AllWithin(b: Bucket, events: seq<Event>, rate: real, burst: int, from: real, to: real)
    decreases |events|
  {
    events == [] || (Within(b, events[0], rate, burst, from, to) && AllWithin(Next(b, events[0]), events[1..], rate, burst, from, to))
  }

  /** What a window up to now refills at some rate. */
  function Earned(rate: real, from: real, now: real): real {
    rate * (now - from)
  }

  /** What was granted so far and what is left are within an allowance and the refill at the highest rate. */
  ghost predicate Paid(b: Bucket, granted: int, allowance: real, rate: real, burst: int, from: real) {
    && 0.0 <= b.rate <= rate && 0 <= b.burst <= burst && 0 <= granted
    && 0.0 <= b.tokens <= burst as real <= allowance
    && (b.lastUpdate < from ==> granted == 0)
    && (b.lastUpdate >= from ==> granted as real + b.tokens <= allowance + Earned(rate, from, b.lastUpdate))
  }

  lemma {:induction false} Scaled(d: real, small: real, large: real, ds: real, dl: real)
    requires d >= 0.0 && small <= large && ds == d * small && dl == d * large
    ensures ds <= dl
  {
  }

  lemma {:induction false} EarnsMore(rate: real, from: real, early: real, late: real)
    requires rate >= 0.0 && from <= early <= late
    ensures 0.0 <= Earned(rate, from, early) <= Earned(rate, from, late)
    ensures Earned(rate, from, late) == Earned(rate, from, early) + (late - early) * rate
  {
    Scaled(rate, early - from, late - from, rate * (early - from), rate * (late - from));
    Scaled(rate, 0.0, early - from, 0.0, rate * (early - from));
  }

  lemma {:induction false} RefillIsPaid(b: Bucket, granted: int, allowance: real, rate: real, burst: int, from: real, now: real)
    requires Paid(b, granted, allowance, rate, burst, from) && from <= now && b.lastUpdate <= now
    ensures Paid(Refilled(b, now), granted, allowance, rate, burst, from)
  {
    var d := now - b.lastUpdate;
    Scaled(d, b.rate, rate, d * b.rate, d * rate);
    Scaled(d, 0.0, b.rate, 0.0, d * b.rate);
    assert Refilled(b, now).tokens == Min(b.tokens + d * b.rate, b.burst as real);
    EarnsMore(rate, from, if b.lastUpdate < from then from else b.lastUpdate, now);
  }

  lemma {:induction false} RestoreIsPaid(b: Bucket, granted: int, allowance: real, rate: real, burst: int, from: real, now: real)
    requires Paid(b, granted, allowance, rate, burst, from) && from <= now && b.lastUpdate <= now
    ensures Paid(Next(b, Restore(now)), granted, allowance + burst as real, rate, burst, from)
  {
    if b.lastUpdate < from {
      EarnsMore(rate, from, from, now);
    } else {
      EarnsMore(rate, from, b.lastUpdate, now);
    }
  }

  lemma {:induction false} EventIsPaid(b: Bucket, granted: int, e: Event, allowance: real, rate: real, burst: int, from: real, to: real)
    requires Paid(b, granted, allowance, rate, burst, from) && Within(b, e, rate, burst, from, to)
    requires e.NewBurst? ==> e.burst >= 0
    ensures Paid(Next(b, e), granted + Granted(b, e), if e.Restore? then allowance + burst as real else allowance, rate, burst, from)
  {
    match e
    case Take(_, now) => RefillIsPaid(b, granted, allowance, rate, burst, from, now);
    case Peek(now) => RefillIsPaid(b, granted, allowance, rate, burst, from, now);
    case Restore(now) => RestoreIsPaid(b, granted, allowance, rate, burst, from, now);
    case _ =>
  }

  function Restores(events: seq<Event>): nat {
    if events == [] then 0 else Restores(events[1..]) + if events[0].Restore? then 1 else 0
  }

  /** A full bucket for every Reset. */
  function Restored(burst: int, events: seq<Event>): real {
    if events == [] then 0.0 else Restored(burst, events[1..]) + if events[0].Restore? then burst as real else 0.0
  }

  lemma {:induction false} OneMore(x: real, n: real)
    ensures x * n + x == x * (1.0 + n)
  {
  }

  lemma {:induction false} RestoredIsOnePerReset(burst: int, events: seq<Event>)
    ensures burst as real + Restored(burst, events) == burst as real * (1.0 + Restores(events) as real)
  {
    if events == [] {
    } else {
      RestoredIsOnePerReset(burst, events[1..]);
      OneMore(burst as real, 1.0 + Restores(events[1..]) as real);
    }
  }

  lemma {:induction false} PaidAtTheEnd(b: Bucket, granted: int, allowance: real, rate: real, burst: int, from: real, to: real)
    requires Paid(b, granted, allowance, rate, burst, from) && b.lastUpdate <= to && from <= to
    ensures granted as real <= allowance + Earned(rate, from, to)
  {
    if b.lastUpdate < from {
      EarnsMore(rate, from, from, to);
    } else {
      EarnsMore(rate, from, b.lastUpdate, to);
    }
  }

  lemma {:induction false} RunIsPaid(b: Bucket, granted: int, events: seq<Event>, allowance: real, rate: real, burst: int, from: real, to: real)
    requires Paid(b, granted, allowance, rate, burst, from) && AllWithin(b, events, rate, burst, from, to)
    requires forall i :: 0 <= i < |events| && events[i].NewBurst? ==> events[i].burst >= 0
    requires b.lastUpdate <= to && from <= to
    ensures (granted + TotalGranted(b, events)) as real <= allowance + Restored(burst, events) + Earned(rate, from, to)
    decreases |events|
  {
    if events == [] {
      PaidAtTheEnd(b, granted, allowance, rate, burst, from, to);
    } else {
      var e := events[0];
      EventIsPaid(b, granted, e, allowance, rate, burst, from, to);
      RunIsPaid(Next(b, e), granted + Granted(b, e), events[1..],
                if e.Restore? then allowance + burst as real else allowance, rate, burst, from, to);
    }
  }

  lemma {:induction false} TokensStayNonNegative(b: Bucket, e: Event)
    requires b.tokens >= 0.0 && b.burst >= 0 && b.rate >= 0.0
    requires e.Take? || e.Peek? ==> b.lastUpdate <= e.now
    requires e.NewBurst? ==> e.burst >= 0
    ensures Next(b, e).tokens >= 0.0
  {
    if e.Take? || e.Peek? {
      var d := e.now - b.lastUpdate;
      var added := d * b.rate;
      Scaled(d, 0.0, b.rate, 0.0, added);
      var r := RefilledIs(b, e.now, d, added);
    }
  }

  /** In any window the limiter admits at most a full bucket, another one for every Reset, and the refill at the highest rate
      it was set to, however often the rate changes: a change also applies to the time before it that was not yet refilled. */
  lemma {:induction false} WindowBound(b: Bucket, events: seq<Event>, rate: real, burst: int, from: real, to: real, refill: real)
    requires 0.0 <= b.rate <= rate && 0 <= b.burst <= burst && 0.0 <= b.tokens <= b.burst as real && b.lastUpdate <= from <= to
    requires forall i :: 0 <= i < |events| && events[i].NewBurst? ==> events[i].burst >= 0
    requires AllWithin(b, events, rate, burst, from, to)
    requires refill == rate * (to - from)
    ensures TotalGranted(b, events) as real <= burst as real * (1.0 + Restores(events) as real) + refill
  {
    RunIsPaid(b, 0, events, burst as real, rate, burst, from, to);
    assert Earned(rate, from, to) == refill;
    RestoredIsOnePerReset(burst, events);
  }

  /** The same request, k times over at one instant. */
  function Requests(k: nat, n: int, now: real): (events: seq<Event>)
    ensures |events| == k && forall e :: e in events ==> e == Take(n, now)
  {
    if k == 0 then [] else [Take(n, now)] + Requests(k - 1, n, now)
  }

  /** Of k requests for n tokens each at one instant as many are admitted as there are tokens for, and no others. */
  lemma {:induction false} RequestsAtOnce(b: Bucket, k: nat, n: int, now: real, q: nat, qn: int)
    requires b.lastUpdate == now && n >= 1 && b.tokens <= b.burst as real
    requires qn == q * n && qn as real <= Max(0.0, b.tokens) < (qn + n) as real
    ensures TotalGranted(b, Requests(k, n, now)) == if k <= q then k * n else qn
    decreases k
  {
    if k == 0 {
    } else {
      var events, next := Requests(k, n, now), Taken(b, n, now);
      assert events[0] == Take(n, now) && events[1..] == Requests(k - 1, n, now);
      NothingElapsed(b, now);
      if q == 0 {
        RequestsAtOnce(next, k - 1, n, now, 0, 0);
      } else {
        OneLess(q, k, n, qn);
        RequestsAtOnce(next, k - 1, n, now, q - 1, qn - n);
      }
    }
  }

  lemma {:induction false} NothingElapsed(b: Bucket, now: real)
    requires b.lastUpdate == now && b.tokens <= b.burst as real
    ensures Refilled(b, now) == b
  {
    var r := RefilledIs(b, now, 0.0, 0.0);
  }

  lemma {:induction false} OneLess(q: nat, k: nat, n: int, qn: int)
    requires q >= 1 && k >= 1 && n >= 1 && qn == q * n
    ensures qn >= n && qn - n == (q - 1) * n && k * n == n + (k - 1) * n
  {
    assert (q - 1) * n >= 0;
  }

  /** After the refill at some instant, of n requests then the whole part of the tokens is admitted, and not more: none from
      a bucket in debt, and from a full bucket its burst. */
  lemma {:induction false} WholePartIsAdmitted(b: Bucket, n: nat, now: real)
    ensures var t := Refilled(b, now).tokens;
            TotalGranted(b, Requests(n, 1, now)) == if n as real <= t then n else if t < 0.0 then 0 else t.Floor
    ensures b.lastUpdate == now && b.tokens == b.burst as real && 0 <= b.burst <= n
            ==> TotalGranted(b, Requests(n, 1, now)) == b.burst
  {
    var full, events := Refilled(b, now), Requests(n, 1, now);
    var q := if full.tokens < 0.0 then 0 else full.tokens.Floor;
    RequestsAtOnce(full, n, 1, now, q, q);
    if n > 0 {
      NothingElapsed(full, now);
      assert Taken(b, 1, now) == Taken(full, 1, now) && Granted(b, events[0]) == Granted(full, events[0]);
    }
    if b.lastUpdate == now && b.tokens == b.burst as real {
      NothingElapsed(b, now);
    }
  }

  /** What the refill of a request, or of Stats, adds beyond the burst is lost. */
  function SpilledBy(b: Bucket, e: Event): real {
    if e.Peek? || (e.Take? && e.n > 0) then Max(0.0, b.tokens + (e.now - b.lastUpdate) * b.rate - b.burst as real) else 0.0
  }

  function Spilled(b: Bucket, events: seq<Event>): real
    decreases |events|
  {
    if events == [] then 0.0 else SpilledBy(b, events[0]) + Spilled(Next(b, events[0]), events[1..])
  }

  /** What the time between two refills is worth at the rate that the second one finds. */
  function Gained(b: Bucket, events: seq<Event>): real
    decreases |events|
  {
    if events == [] then 0.0
    else Earned(b.rate, b.lastUpdate, Next(b, events[0]).lastUpdate) + Gained(Next(b, events[0]), events[1..])
  }

  /** The requests, calls of Stats and changes of the rate in a run that neither resets the bucket nor changes its burst. */
  ghost predicate OnlyUses(events: seq<Event>) {
    forall i :: 0 <= i < |events| ==> events[i].Take? || events[i].Peek? || events[i].NewRate?
  }

  lemma {:induction false} AddedIn(rate: real, from: real, now: real, d: real) returns (added: real)
    requires d == now - from
    ensures added == d * rate == Earned(rate, from, now)
  {
    added := d * rate;
  }

  lemma {:induction false} EventConserves(b: Bucket, e: Event)
    requires e.Take? || e.Peek? || e.NewRate?
    ensures Next(b, e).tokens + Granted(b, e) as real + SpilledBy(b, e) == b.tokens + Earned(b.rate, b.lastUpdate, Next(b, e).lastUpdate)
  {
    if e.Peek? || (e.Take? && e.n > 0) {
      var d := e.now - b.lastUpdate;
      var added := AddedIn(b.rate, b.lastUpdate, e.now, d);
      var r := RefilledIs(b, e.now, d, added);
    }
  }

  /** No token gets lost or made: over any such run, with whatever clock, the tokens at the end, those granted and those that a
      full bucket spilled are the tokens at the start and what the time from refill to refill was worth. */
  lemma {:induction false} TokensAreConserved(b: Bucket, events: seq<Event>)
    requires OnlyUses(events)
    ensures Run(b, events).tokens + TotalGranted(b, events) as real + Spilled(b, events) == b.tokens + Gained(b, events)
    decreases |events|
  {
    if events == [] {
    } else {
      EventConserves(b, events[0]);
      TokensAreConserved(Next(b, events[0]), events[1..]);
    }
  }

  lemma {:induction false} ElapsedAdds(rate: real, first: real, middle: real, last: real)
    ensures Earned(rate, first, middle) + Earned(rate, middle, last) == Earned(rate, first, last)
  {
  }

  lemma {:induction false} GainedAtOneRate(b: Bucket, events: seq<Event>)
    requires OnlyUses(events) && forall i :: 0 <= i < |events| ==> !events[i].NewRate?
    ensures Gained(b, events) == Earned(b.rate, b.lastUpdate, Run(b, events).lastUpdate)
    decreases |events|
  {
    if events == [] {
    } else {
      GainedAtOneRate(Next(b, events[0]), events[1..]);
      ElapsedAdds(b.rate, b.lastUpdate, Next(b, events[0]).lastUpdate, Run(b, events).lastUpdate);
    }
  }

  /** No refill of the run takes the bucket over its burst. */
  ghost predicate StaysWithin(b: Bucket, events: seq<Event>)
    decreases |events|
  {
    events == [] ||
    var e := events[0];
    && (e.Peek? || (e.Take? && e.n > 0) ==> b.tokens + (e.now - b.lastUpdate) * b.rate <= b.burst as real)
    && StaysWithin(Next(b, e), events[1..])
  }

  /** At one rate and below the burst, every token of the refill is either granted or still there. */
  lemma {:induction false} EveryTokenIsGrantedOrLeft(b: Bucket, events: seq<Event>, added: real)
    requires OnlyUses(events) && forall i :: 0 <= i < |events| ==> !events[i].NewRate?
    requires StaysWithin(b, events) && added == Earned(b.rate, b.lastUpdate, Run(b, events).lastUpdate)
    ensures Run(b, events).tokens + TotalGranted(b, events) as real == b.tokens + added
  {
    NothingSpills(b, events);
    TokensAreConserved(b, events);
    GainedAtOneRate(b, events);
  }

  lemma {:induction false} NothingSpills(b: Bucket, events: seq<Event>)
    requires StaysWithin(b, events)
    ensures Spilled(b, events) == 0.0
    decreases |events|
  {
    if events == [] {
    } else {
      NothingSpills(Next(b, events[0]), events[1..]);
    }
  }

  /** A request for n tokens can ever succeed exactly when n is within the burst; a limiter built with a rate below 1 and
      no burst therefore admits nothing. */
  lemma {:induction false} CanEverAdmitExactlyWhen(b: Bucket, n: int)
    requires n >= 1 && b.rate > 0.0 && b.tokens <= b.burst as real
    ensures (exists now :: b.lastUpdate <= now && Admits(b, n, now)) <==> n <= b.burst
  {
    if n <= b.burst {
      var missing := Max(0.0, n as real - b.tokens);
      var d := Quotient(missing, b.rate);
      var now := b.lastUpdate + d;
      var r := RefilledIs(b, now, d, missing);
      assert Admits(b, n, now);
    }
  }

  lemma {:induction false} Quotient(x: real, r: real) returns (d: real)
    requires r > 0.0 && x >= 0.0
    ensures d * r == x && d >= 0.0
  {
    d := x / r;
    assert d * r == x;
    ProductOrder(0.0, d, r, 0.0, x);
  }
}
