/** internal/platform/resilience/circuit_breaker.go. */
module CircuitBreakers {
  import opened Wrappers

  type Time = int
  datatype State = Closed | Open | HalfOpen
  datatype Error = CircuitOpen | CallFailed | CallCancelled

  /** How a call ended; a cancelled or timed-out context says nothing about the service. */
  datatype Outcome = Succeeded | Failed | Cancelled

  const DEFAULT_FAILURE_THRESHOLD := 5
  const DEFAULT_SUCCESS_THRESHOLD := 2
  const DEFAULT_TIMEOUT: Time := 60_000_000_000

  datatype Config = Config(failureThreshold: int, successThreshold: int, timeout: Time) {
    predicate Valid() {
      failureThreshold > 0 && successThreshold > 0 && timeout > 0
    }

    function WithDefaults(): (c: Config)
      ensures c.Valid() && (Valid() ==> c == this)
      ensures failureThreshold <= 0 ==> c.failureThreshold == 5
      ensures successThreshold <= 0 ==> c.successThreshold == 2
      ensures timeout <= 0 ==> c.timeout == 60_000_000_000
      ensures failureThreshold > 0 ==> c.failureThreshold == failureThreshold
      ensures successThreshold > 0 ==> c.successThreshold == successThreshold
      ensures timeout > 0 ==> c.timeout == timeout
    {
      Config(if failureThreshold <= 0 then DEFAULT_FAILURE_THRESHOLD else failureThreshold,
             if successThreshold <= 0 then DEFAULT_SUCCESS_THRESHOLD else successThreshold,
             if timeout <= 0 then DEFAULT_TIMEOUT else timeout)
    }
  }

  /** The fields of a breaker. */
  datatype Breaker = Breaker(state: State, failures: int, successes: int, lastFailTime: Time)

  predicate Admits(c: Config, b: Breaker, now: Time) {
    b.state != Open || now - b.lastFailTime > c.timeout
  }

  function Started(c: Config, b: Breaker, now: Time): Breaker {
    if b.state == Open && Admits(c, b, now) then b.(state := HalfOpen) else b
  }

  function Finished(c: Config, b: Breaker, outcome: Outcome, now: Time): Breaker {
    match outcome
    case Cancelled => b
    case Failed =>
      var trips := b.state == HalfOpen || (b.state == Closed && b.failures + 1 >= c.failureThreshold);
      Breaker(if trips then Open else b.state, b.failures + 1, 0, now)
    case Succeeded =>
      var s := b.successes + 1;
      if b.state == Closed then b.(failures := 0, successes := s)
      else if b.state == HalfOpen && s >= c.successThreshold then b.(state := Closed, failures := 0, successes := s)
      else b.(successes := s)
  }

  class CircuitBreaker {
    const config: Config
    var state: State
    var failures: int
    var successes: int
    var lastFailTime: Time

    constructor (config: Config, zeroTime: Time)
      ensures this.config == config.WithDefaults()
      ensures Value() == Breaker(Closed, 0, 0, zeroTime) == New(zeroTime)
    {
      this.config := config.WithDefaults();
      state, failures, successes, lastFailTime := Closed, 0, 0, zeroTime;
    }

    function Value(): Breaker
      reads this
    {
      Breaker(state, failures, successes, lastFailTime)
    }

    method BeforeRequest(now: Time) returns (err: Option<Error>)
      modifies this
      ensures err == if Admits(config, old(Value()), now) then None else Some(CircuitOpen)
      ensures Value() == Started(config, old(Value()), now)
    {
      match state
      case Closed => err := None;
      case Open =>
        if now - lastFailTime > config.timeout {
          state := HalfOpen;
          return None;
        }
        err := Some(CircuitOpen);
      case HalfOpen => err := None;
    }

    method AfterRequest(outcome: Outcome, now: Time)
      modifies this
      ensures Value() == Finished(config, old(Value()), outcome, now)
    {
      if outcome != Succeeded {
        if outcome == Cancelled {
          return;
        }
        failures := failures + 1;
        successes := 0;
        lastFailTime := now;
        match state
        case Closed =>
          if failures >= config.failureThreshold {
            state := Open;
          }
        case HalfOpen => state := Open;
        case Open =>
      } else {
        successes := successes + 1;
        match state
        case Closed => failures := 0;
        case HalfOpen =>
          if successes >= config.successThreshold {
            state := Closed;
            failures := 0;
          }
        case Open =>
      }
    }

    /** Runs a call that ends at a given time with a given outcome, if the breaker admits it. */
    method Execute(start: Time, outcome: Outcome, end: Time) returns (err: Option<Error>)
      modifies this
      ensures Value() == Sequential(config, old(Value()), Call(start, outcome, end))
      ensures err == if !Admits(config, old(Value()), start) then Some(CircuitOpen)
                     else if outcome == Succeeded then None
                     else Some(if outcome == Failed then CallFailed else CallCancelled)
    {
      err := BeforeRequest(start);
      if err.None? {
        AfterRequest(outcome, end);
        err := match outcome case Succeeded => None case Failed => Some(CallFailed) case Cancelled => Some(CallCancelled);
      }
    }

    method Reset()
      modifies this
      ensures Value() == Breaker(Closed, 0, 0, old(lastFailTime)) == Next(config, old(Value()), Event.Reset)
    {
      state := Closed;
      failures := 0;
      successes := 0;
    }

    method ForceOpen(now: Time)
      modifies this
      ensures Value() == old(Value()).(state := Open, lastFailTime := now) == Next(config, old(Value()), Event.ForceOpen(now))
    {
      state := Open;
      lastFailTime := now;
    }
  }

  // ---------------------------------------------------------------------
  // Any interleaving of overlapping calls
  // ---------------------------------------------------------------------

  datatype Event =
    | Start(now: Time)
    | End(outcome: Outcome, now: Time)
    | Reset
    | ForceOpen(now: Time)

  function Next(c: Config, b: Breaker, e: Event): Breaker {
    match e
    case Start(now) => Started(c, b, now)
    case End(outcome, now) => Finished(c, b, outcome, now)
    case Reset => Breaker(Closed, 0, 0, b.lastFailTime)
    case ForceOpen(now) => b.(state := Open, lastFailTime := now)
  }

  function New(zeroTime: Time): Breaker {
    Breaker(Closed, 0, 0, zeroTime)
  }

  function Run(c: Config, zeroTime: Time, events: seq<Event>): Breaker {
    if events == [] then New(zeroTime) else Next(c, Run(c, zeroTime, events[..|events| - 1]), events[|events| - 1])
  }

  /** The failures since the last success or Reset. */
  function FailuresInARow(events: seq<Event>): nat {
    if events == [] then 0
    else
      var before, e := events[..|events| - 1], events[|events| - 1];
      if e.Reset? || (e.End? && e.outcome == Succeeded) then 0
      else FailuresInARow(before) + if e.End? && e.outcome == Failed then 1 else 0
  }

  /** The successes since the last failure or Reset. */
  function SuccessesInARow(events: seq<Event>): nat {
    if events == [] then 0
    else
      var before, e := events[..|events| - 1], events[|events| - 1];
      if e.Reset? || (e.End? && e.outcome == Failed) then 0
      else SuccessesInARow(before) + if e.End? && e.outcome == Succeeded then 1 else 0
  }

  /** The time of the last failure or ForceOpen. */
  function LatestTrouble(events: seq<Event>): Option<Time> {
    if events == [] then None
    else
      var before, e := events[..|events| - 1], events[|events| - 1];
      if e.ForceOpen? || (e.End? && e.outcome == Failed) then Some(e.now) else LatestTrouble(before)
  }

  /** The counters of the breaker are what the history says, whatever overlaps: the successes in every state, the
      failures while it is closed, the time of the last failure once there was one. */
  lemma {:induction false} CountersAreTheHistory(c: Config, zeroTime: Time, events: seq<Event>)
    requires c.Valid()
    ensures var b := Run(c, zeroTime, events);
            && b.successes == SuccessesInARow(events)
            && (b.state == Closed ==> b.failures == FailuresInARow(events) < c.failureThreshold)
            && (b.state != Closed ==> LatestTrouble(events).Some?)
            && (LatestTrouble(events).Some? ==> b.lastFailTime == LatestTrouble(events).value)
  {
    if events == [] {
    } else {
      CountersAreTheHistory(c, zeroTime, events[..|events| - 1]);
    }
  }

  /** A closed breaker opens exactly at ForceOpen or at the failure that makes as many in a row as the threshold. */
  lemma {:induction false} OpensExactlyWhen(c: Config, zeroTime: Time, events: seq<Event>, e: Event)
    requires c.Valid() && Run(c, zeroTime, events).state == Closed
    ensures var after := Run(c, zeroTime, events + [e]).state;
            && after != HalfOpen
            && (after == Open <==>
                  e.ForceOpen? || (e.End? && e.outcome == Failed && FailuresInARow(events + [e]) == c.failureThreshold))
  {
    assert (events + [e])[..|events|] == events;
    CountersAreTheHistory(c, zeroTime, events);
  }

  /** From open, a call is admitted exactly when more than the timeout has passed since the latest failure or ForceOpen,
      and a call being admitted and Reset are the only ways out. */
  lemma {:induction false} LeavesOpenExactlyWhen(c: Config, zeroTime: Time, events: seq<Event>, e: Event)
    requires c.Valid() && Run(c, zeroTime, events).state == Open
    ensures LatestTrouble(events).Some?
    ensures var after := Run(c, zeroTime, events + [e]).state;
            && (e.Start? ==> (Admits(c, Run(c, zeroTime, events), e.now) <==> e.now - LatestTrouble(events).value > c.timeout))
            && (after == HalfOpen <==> e.Start? && e.now - LatestTrouble(events).value > c.timeout)
            && (after == Closed <==> e.Reset?)
  {
    assert (events + [e])[..|events|] == events;
    CountersAreTheHistory(c, zeroTime, events);
  }

  /** A half-open breaker closes exactly at Reset or at a success that makes enough in a row, counted over all states. */
  lemma {:induction false} LeavesHalfOpenExactlyWhen(c: Config, zeroTime: Time, events: seq<Event>, e: Event)
    requires c.Valid() && Run(c, zeroTime, events).state == HalfOpen
    ensures var after := Run(c, zeroTime, events + [e]).state;
            && (after == Closed <==>
                  e.Reset? || (e.End? && e.outcome == Succeeded && SuccessesInARow(events + [e]) >= c.successThreshold))
            && (after == Open <==> e.ForceOpen? || (e.End? && e.outcome == Failed))
  {
    assert (events + [e])[..|events|] == events;
    CountersAreTheHistory(c, zeroTime, events);
  }

  function RunFrom(c: Config, b: Breaker, events: seq<Event>): Breaker
    decreases |events|
  {
    if events == [] then b else RunFrom(c, Next(c, b, events[0]), events[1..])
  }

  /** Once open, the breaker rejects every call until the timeout has passed, whatever calls already under way report. */
  lemma {:induction false} RejectsUntilTheTimeout(c: Config, b: Breaker, events: seq<Event>, since: Time, i: nat)
    requires b.state == Open && since <= b.lastFailTime
    requires forall j :: 0 <= j < |events| ==> !events[j].Reset? && since <= events[j].now <= since + c.timeout
    requires i < |events|
    ensures RunFrom(c, b, events[..i]).state == Open
    ensures events[i].Start? ==> !Admits(c, RunFrom(c, b, events[..i]), events[i].now)
    decreases |events|
  {
    if i > 0 {
      assert events[..i][1..] == events[1..][..i - 1];
      RejectsUntilTheTimeout(c, Next(c, b, events[0]), events[1..], since, i - 1);
    } else {
      assert events[..0] == [];
    }
  }

  // ---------------------------------------------------------------------
  // Calls one at a time
  // ---------------------------------------------------------------------

  /** One call, from its start to its end. */
  datatype Call = Call(start: Time, outcome: Outcome, end: Time)

  function Sequential(c: Config, b: Breaker, call: Call): Breaker {
    if Admits(c, b, call.start) then Finished(c, Started(c, b, call.start), call.outcome, call.end) else b
  }

  /** What happens to a breaker whose calls do not overlap. */
  datatype Op = Do(call: Call) | Restore

  function AfterOp(c: Config, b: Breaker, op: Op): Breaker {
    match op
    case Do(call) => Sequential(c, b, call)
    case Restore => Next(c, b, Reset)
  }

  function RunOps(c: Config, zeroTime: Time, ops: seq<Op>): Breaker {
    if ops == [] then New(zeroTime) else AfterOp(c, RunOps(c, zeroTime, ops[..|ops| - 1]), ops[|ops| - 1])
  }

  /** The same as events: the start of a call, and its end if it was admitted. */
  function EventsOf(c: Config, zeroTime: Time, ops: seq<Op>): seq<Event> {
    if ops == [] then []
    else
      var before, op := EventsOf(c, zeroTime, ops[..|ops| - 1]), ops[|ops| - 1];
      if op.Restore? then before + [Reset]
      else if Admits(c, Run(c, zeroTime, before), op.call.start)
      then before + [Start(op.call.start)] + [End(op.call.outcome, op.call.end)]
      else before + [Start(op.call.start)]
  }

  lemma {:induction false} RunOfOneMore(c: Config, zeroTime: Time, events: seq<Event>, e: Event)
    ensures Run(c, zeroTime, events + [e]) == Next(c, Run(c, zeroTime, events), e)
  {
    assert (events + [e])[..|events|] == events;
  }

  /** Calls one at a time are an interleaving like any other. */
  lemma {:induction false} OneAtATimeIsARun(c: Config, zeroTime: Time, ops: seq<Op>)
    ensures RunOps(c, zeroTime, ops) == Run(c, zeroTime, EventsOf(c, zeroTime, ops))
  {
    if ops == [] {
    } else {
      var before, op := EventsOf(c, zeroTime, ops[..|ops| - 1]), ops[|ops| - 1];
      OneAtATimeIsARun(c, zeroTime, ops[..|ops| - 1]);
      match op
      case Restore => RunOfOneMore(c, zeroTime, before, Reset);
      case Do(call) =>
        RunOfOneMore(c, zeroTime, before, Start(call.start));
        RunOfOneMore(c, zeroTime, before + [Start(call.start)], End(call.outcome, call.end));
    }
  }

  /** The calls that succeeded in half-open since it was last entered. */
  function TrialSuccesses(c: Config, zeroTime: Time, ops: seq<Op>): nat {
    if ops == [] then 0
    else
      var before, op := ops[..|ops| - 1], ops[|ops| - 1];
      var b := RunOps(c, zeroTime, before);
      if op.Restore? then 0
      else if !Admits(c, b, op.call.start) then TrialSuccesses(c, zeroTime, before)
      else if Started(c, b, op.call.start).state != HalfOpen then 0
      else (if b.state == HalfOpen then TrialSuccesses(c, zeroTime, before) else 0)
           + if op.call.outcome == Succeeded then 1 else 0
  }

  lemma {:induction false} HalfOpenCountsTrials(c: Config, zeroTime: Time, ops: seq<Op>)
    requires c.Valid()
    ensures var b := RunOps(c, zeroTime, ops);
            && (b.state == Open ==> b.successes == 0)
            && (b.state == HalfOpen ==> b.successes == TrialSuccesses(c, zeroTime, ops) < c.successThreshold)
  {
    if ops == [] {
    } else {
      HalfOpenCountsTrials(c, zeroTime, ops[..|ops| - 1]);
    }
  }

  /** When calls do not overlap and nobody forces the breaker open, it closes again exactly at Reset or with the call that
      makes successThreshold successes in half-open. */
  lemma {:induction false} ClosesExactlyAfterTheTrials(c: Config, zeroTime: Time, ops: seq<Op>, op: Op)
    requires c.Valid() && RunOps(c, zeroTime, ops).state != Closed
    ensures RunOps(c, zeroTime, ops + [op]).state == Closed <==>
            op.Restore?
            || (&& Admits(c, RunOps(c, zeroTime, ops), op.call.start) && op.call.outcome == Succeeded
                && TrialSuccesses(c, zeroTime, ops + [op]) == c.successThreshold)
  {
    assert (ops + [op])[..|ops|] == ops;
    HalfOpenCountsTrials(c, zeroTime, ops);
  }

  // ---------------------------------------------------------------------
  // Calls that overlap, and ForceOpen
  // ---------------------------------------------------------------------

  function Repeat(e: Event, n: nat): seq<Event> {
    seq(n, _ => e)
  }

  lemma {:induction false} LateSuccessesAreCounted(c: Config, zeroTime: Time, events: seq<Event>, n: nat, now: Time)
    requires Run(c, zeroTime, events).state == Open
    ensures var b := Run(c, zeroTime, events);
            Run(c, zeroTime, events + Repeat(End(Succeeded, now), n)) == b.(successes := b.successes + n)
  {
    if n == 0 {
      assert events + Repeat(End(Succeeded, now), 0) == events;
    } else {
      var all := events + Repeat(End(Succeeded, now), n);
      assert all[..|all| - 1] == events + Repeat(End(Succeeded, now), n - 1);
      LateSuccessesAreCounted(c, zeroTime, events, n - 1, now);
    }
  }

  /** Calls admitted earlier that succeed while the breaker is open shorten the trial, whatever came before: after n of them
      it closes with the first success in half-open exactly when these, with the successes in a row before them, reach the
      threshold. */
  lemma {:induction false} LateSuccessesShortenTheTrial(c: Config, zeroTime: Time, events: seq<Event>, n: nat, now: Time,
                                                        later: Time, end: Time)
    requires c.Valid() && Run(c, zeroTime, events).state == Open
    requires later - Run(c, zeroTime, events).lastFailTime > c.timeout
    ensures var half := Run(c, zeroTime, events + Repeat(End(Succeeded, now), n) + [Start(later)]);
            && half.state == HalfOpen
            && (Next(c, half, End(Succeeded, end)).state == Closed <==> SuccessesInARow(events) + n + 1 >= c.successThreshold)
  {
    var late := events + Repeat(End(Succeeded, now), n);
    LateSuccessesAreCounted(c, zeroTime, events, n, now);
    CountersAreTheHistory(c, zeroTime, events);
    assert (late + [Start(later)])[..|late|] == late;
  }

  /** Such calls there can be: of n + failureThreshold calls under way at once, the failures open the breaker, and n are left
      to succeed late. */
  lemma {:induction false} CallsCanBeLate(c: Config, zeroTime: Time, n: nat, now: Time)
    requires c.Valid()
    ensures var starts := Repeat(Start(now), n + c.failureThreshold);
            var b := Run(c, zeroTime, starts + Repeat(End(Failed, now), c.failureThreshold));
            && Run(c, zeroTime, starts) == New(zeroTime)
            && b.state == Open && b.successes == 0 && b.lastFailTime == now
  {
    StartsChangeNothing(c, zeroTime, n + c.failureThreshold, now);
    FailuresCount(c, zeroTime, n + c.failureThreshold, c.failureThreshold, now);
  }

  lemma {:induction false} StartsChangeNothing(c: Config, zeroTime: Time, n: nat, now: Time)
    ensures Run(c, zeroTime, Repeat(Start(now), n)) == New(zeroTime)
  {
    if n == 0 {
    } else {
      assert Repeat(Start(now), n)[..n - 1] == Repeat(Start(now), n - 1);
      StartsChangeNothing(c, zeroTime, n - 1, now);
    }
  }

  lemma {:induction false} FailuresCount(c: Config, zeroTime: Time, starts: nat, k: nat, now: Time)
    requires c.Valid() && k <= c.failureThreshold
    ensures Run(c, zeroTime, Repeat(Start(now), starts) + Repeat(End(Failed, now), k))
         == if k == 0 then New(zeroTime) else Breaker(if k < c.failureThreshold then Closed else Open, k, 0, now)
  {
    if k == 0 {
      assert Repeat(Start(now), starts) + Repeat(End(Failed, now), 0) == Repeat(Start(now), starts);
      StartsChangeNothing(c, zeroTime, starts, now);
    } else {
      var all := Repeat(Start(now), starts) + Repeat(End(Failed, now), k);
      assert all[..|all| - 1] == Repeat(Start(now), starts) + Repeat(End(Failed, now), k - 1);
      FailuresCount(c, zeroTime, starts, k - 1, now);
    }
  }

  /** ForceOpen keeps the successes counted while closed, so one success in half-open closes a breaker that had
      successThreshold - 1 of them in a row before. */
  lemma {:induction false} ForceOpenSkipsTheTrial(c: Config, zeroTime: Time, events: seq<Event>, now: Time, later: Time, end: Time)
    requires c.Valid() && Run(c, zeroTime, events).state == Closed && later - now > c.timeout
    ensures var half := Next(c, Next(c, Run(c, zeroTime, events), ForceOpen(now)), Start(later));
            && half.state == HalfOpen
            && (Next(c, half, End(Succeeded, end)).state == Closed <==> SuccessesInARow(events) + 1 >= c.successThreshold)
  {
    CountersAreTheHistory(c, zeroTime, events);
  }
}
