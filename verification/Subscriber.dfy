/** internal/blockchain/subscriber.go: the stream of blocks over reconnects, gaps and switches between WebSocket and HTTP. */
module Subscribers {
  import opened Wrappers

  /** In nanoseconds. */
  type Time = int

  const DEFAULT_MAX_WS_FAILURES := 3
  const DEFAULT_MESSAGE_TIMEOUT: Time := 60_000_000_000

  datatype Cause = NoPool | BackfillFailed | PolledOver

  /** Block numbers from up to but not including to that were not fetched, and why. */
  datatype Gap = Gap(from: nat, to: nat, cause: Cause)

  /** The loop's mode, the fields it works on, the blocks it sent and those it went past. */
  datatype Stream = Stream(ws: bool, connected: bool, failures: nat, last: nat, delivered: seq<nat>, skipped: seq<Gap>)

  datatype Config = Config(hasPool: bool, maxWSFailures: int, messageTimeout: Time) {
    function WithDefaults(): (c: Config)
      ensures c.hasPool == hasPool
      ensures c.maxWSFailures == 3 <==> maxWSFailures in {0, 3}
      ensures c.messageTimeout == 60_000_000_000 <==> messageTimeout in {0, 60_000_000_000}
      ensures maxWSFailures != 0 ==> c.maxWSFailures == maxWSFailures
      ensures messageTimeout != 0 ==> c.messageTimeout == messageTimeout
    {
      this.(maxWSFailures := if maxWSFailures == 0 then DEFAULT_MAX_WS_FAILURES else maxWSFailures,
            messageTimeout := if messageTimeout == 0 then DEFAULT_MESSAGE_TIMEOUT else messageTimeout)
    }
  }

  function Range(from: nat, to: nat): (r: seq<nat>)
    requires from <= to
  {
    seq(to - from, i requires 0 <= i => from + i)
  }

  /** What the outside does: a header arrives, and in case of a gap that many blocks can be fetched; a session ends and
      the reconnection succeeds or not; a poll sees a block; a poll fails and a connection can be had or not. */
  datatype Event =
    | Head(number: nat, fetches: nat)
    | SessionEnds(reconnects: bool)
    | Poll(number: nat)
    | PollFails(connects: bool)

  predicate HasGap(s: Stream, number: nat) {
    s.last > 0 && number > s.last + 1
  }

  /** The first missing block that is not backfilled. */
  function Reached(c: Config, s: Stream, number: nat, fetches: nat): (reached: nat)
    requires HasGap(s, number)
    ensures s.last + 1 <= reached <= number
  {
    if !c.hasPool then s.last + 1 else if fetches < number - s.last - 1 then s.last + 1 + fetches else number
  }

  function AfterHead(c: Config, s: Stream, number: nat, fetches: nat): Stream {
    if !HasGap(s, number) then s.(last := number, delivered := s.delivered + [number])
    else
      var reached := Reached(c, s, number, fetches);
      s.(last := number,
         delivered := s.delivered + Range(s.last + 1, reached) + [number],
         skipped := s.skipped + if reached < number
                                then [Gap(reached, number, if c.hasPool then BackfillFailed else NoPool)] else [])
  }

  function AfterPoll(s: Stream, number: nat): Stream {
    s.(last := number,
       delivered := s.delivered + [number],
       skipped := s.skipped + if HasGap(s, number) then [Gap(s.last + 1, number, PolledOver)] else [])
  }

  function AfterSession(c: Config, s: Stream, reconnects: bool): Stream {
    if c.hasPool && s.failures + 1 >= c.maxWSFailures then s.(ws := false, failures := s.failures + 1)
    else s.(connected := reconnects, failures := if reconnects then 0 else s.failures + 1)
  }

  function AfterPollFailure(s: Stream, connects: bool): Stream {
    if s.failures > 1 then s.(failures := s.failures - 1)
    else if connects then s.(ws := true, connected := true, failures := 0)
    else s.(failures := 1)
  }

  /** Headers come only over an open subscription, polls only happen in HTTP mode; a header without a number is dropped. */
  function Next(c: Config, s: Stream, e: Event): Stream {
    match e
    case Head(number, fetches) => if s.ws && s.connected && number > 0 then AfterHead(c, s, number, fetches) else s
    case SessionEnds(reconnects) => if s.ws then AfterSession(c, s, reconnects) else s
    case Poll(number) => if !s.ws && number > s.last then AfterPoll(s, number) else s
    case PollFails(connects) => if !s.ws then AfterPollFailure(s, connects) else s
  }

  /** The stream with what watches over its connection: the mark that a connection is up, when the last header came, when
      the session at hand heard from its server last, the errors that sessions ended with, and a health check under way. */
  datatype Watch = Watch(stream: Stream, isConnected: bool, lastMessage: Time, heard: Time, errors: nat, checking: bool)

  /** What the outside does, at its time: like the events above, but a session ends either with an error or when its timer
      finds that nothing has come for too long; and health checks begin and end in between. A session that comes after
      the signal opens at the given time. */
  datatype Signal =
    | Header(number: nat, fetches: nat, now: Time)
    | SubscriptionError(reconnects: bool, openedAt: Time)
    | Timer(now: Time, reconnects: bool, openedAt: Time)
    | Polled(number: nat)
    | PollError(connects: bool, openedAt: Time)
    | CheckBegins
    | CheckEnds(answered: bool, now: Time)

  predicate InSession(w: Watch) {
    w.stream.ws && w.stream.connected
  }

  /** What the loop makes of a signal; a health check is nothing to it. */
  function LoopEvent(c: Config, w: Watch, signal: Signal): Option<Event> {
    match signal
    case Header(number, fetches, _) => Some(Head(number, fetches))
    case SubscriptionError(reconnects, _) => Some(SessionEnds(reconnects))
    case Timer(now, reconnects, _) =>
      if InSession(w) && now - w.heard > c.messageTimeout then Some(SessionEnds(reconnects)) else None
    case Polled(number) => Some(Poll(number))
    case PollError(connects, _) => Some(PollFails(connects))
    case _ => None
  }

  /** After a session: the mark falls with the connection and rises with the next. */
  function AfterEnd(c: Config, w: Watch, reconnects: bool, openedAt: Time): Watch {
    var t := w.(stream := AfterSession(c, w.stream, reconnects), errors := w.errors + 1);
    if t.stream.ws then t.(isConnected := reconnects, heard := if reconnects then openedAt else w.heard) else t
  }

  /** The health check ends without an answer, and the last header is too long ago. */
  predicate Marks(c: Config, w: Watch, signal: Signal) {
    signal.CheckEnds? && w.checking && !signal.answered && signal.now - w.lastMessage > c.messageTimeout
  }

  function AfterSignal(c: Config, w: Watch, signal: Signal): Watch {
    match signal
    case Header(number, fetches, now) =>
      if InSession(w) then w.(stream := Next(c, w.stream, Head(number, fetches)), lastMessage := now, heard := now) else w
    case SubscriptionError(reconnects, openedAt) => if w.stream.ws then AfterEnd(c, w, reconnects, openedAt) else w
    case Timer(now, reconnects, openedAt) =>
      if InSession(w) && now - w.heard > c.messageTimeout then AfterEnd(c, w, reconnects, openedAt) else w
    case Polled(number) => w.(stream := Next(c, w.stream, Poll(number)))
    case PollError(connects, openedAt) =>
      var t := w.(stream := Next(c, w.stream, PollFails(connects)));
      if !w.stream.ws && t.stream.ws then t.(isConnected := true, heard := openedAt) else t
    case CheckBegins => w.(checking := w.checking || (w.isConnected && w.stream.connected))
    case CheckEnds(_, _) => w.(checking := false, isConnected := w.isConnected && !Marks(c, w, signal))
  }

  class Subscriber {
    const config: Config
    var wsMode: bool
    var connected: bool          // there is a client
    var isConnected: bool
    var wsFailureCount: nat
    var lastBlockNumber: nat
    var lastMessageTime: Time
    var sessionHeard: Time       // subscribeToBlocks' own copy
    var checking: bool
    var delivered: seq<nat>
    ghost var skipped: seq<Gap>
    ghost var errors: nat

    ghost function Value(): Stream
      reads this
    {
      Stream(wsMode, connected, wsFailureCount, lastBlockNumber, delivered, skipped)
    }

    ghost function Watched(): Watch
      reads this
    {
      Watch(Value(), isConnected, lastMessageTime, sessionHeard, errors, checking)
    }

    /** The state in which the loop starts, in the mode that the first connection allows. */
    constructor (config: Config, connects: bool, now: Time)
      ensures Watched() == StartWatch(connects, now) && this.config == config.WithDefaults()
      ensures Watched() == Watch(Stream(connects, connects, 0, 0, [], []), connects, now, now, 0, false)
    {
      this.config := config.WithDefaults();
      wsMode, connected, wsFailureCount, lastBlockNumber, delivered, skipped := connects, connects, 0, 0, [], [];
      isConnected, lastMessageTime, sessionHeard, errors, checking := connects, now, now, 0, false;
    }

    /** Fetches the missing blocks one by one and stops at the first that fails. */
    method Backfill(startBlock: nat, endBlock: nat, fetches: nat) returns (ok: bool)
      requires startBlock <= endBlock + 1
      modifies this`delivered
      ensures var reached := if fetches < endBlock + 1 - startBlock then startBlock + fetches else endBlock + 1;
              && delivered == old(delivered) + Range(startBlock, reached)
              && (ok <==> reached == endBlock + 1)
    {
      var blockNum := startBlock;
      while blockNum <= endBlock
        invariant startBlock <= blockNum <= endBlock + 1 && blockNum - startBlock <= fetches
        invariant delivered == old(delivered) + Range(startBlock, blockNum)
      {
        if blockNum - startBlock == fetches {
          return false;
        }
        delivered := delivered + [blockNum];
        blockNum := blockNum + 1;
        assert Range(startBlock, blockNum) == Range(startBlock, blockNum - 1) + [blockNum - 1];
      }
      ok := true;
    }

    method OnHeader(number: nat, fetches: nat, now: Time)
      requires wsMode && connected
      modifies this`delivered, this`lastBlockNumber, this`skipped, this`lastMessageTime, this`sessionHeard
      ensures Value() == Next(config, old(Value()), Head(number, fetches))
      ensures Watched() == AfterSignal(config, old(Watched()), Header(number, fetches, now))
    {
      sessionHeard := now;
      lastMessageTime := sessionHeard;
      if number == 0 {
        return;
      }
      if lastBlockNumber > 0 && number > lastBlockNumber + 1 {
        if config.hasPool {
          var ok := Backfill(lastBlockNumber + 1, number - 1, fetches);
          if !ok {
            skipped := skipped + [Gap(lastBlockNumber + 1 + fetches, number, BackfillFailed)];
          }
        } else {
          skipped := skipped + [Gap(lastBlockNumber + 1, number, NoPool)];
        }
      }
      lastBlockNumber := number;
      delivered := delivered + [number];
    }

    /** What subscriptionLoop does when a WebSocket session has ended, whatever it ended with. */
    method OnSessionEnd(reconnects: bool, openedAt: Time)
      requires wsMode
      modifies this`wsMode, this`connected, this`isConnected, this`wsFailureCount, this`sessionHeard, this`errors
      ensures Value() == Next(config, old(Value()), SessionEnds(reconnects))
      ensures Watched() == AfterSignal(config, old(Watched()), SubscriptionError(reconnects, openedAt))
    {
      errors := errors + 1;
      wsFailureCount := wsFailureCount + 1;
      var shouldSwitchToHTTP := config.hasPool && wsFailureCount >= config.maxWSFailures;
      if shouldSwitchToHTTP {
        wsMode := false;
        return;
      }
      connected, isConnected := false, false;
      if !reconnects {
        return;
      }
      connected, isConnected := true, true;
      wsFailureCount := 0;
      sessionHeard := openedAt;
    }

    /** The timer of an open session. */
    method OnTimer(now: Time, reconnects: bool, openedAt: Time)
      requires wsMode && connected
      modifies this`wsMode, this`connected, this`isConnected, this`wsFailureCount, this`sessionHeard, this`errors
      ensures Watched() == AfterSignal(config, old(Watched()), Timer(now, reconnects, openedAt))
    {
      var timeSinceLastMessage := now - sessionHeard;
      if timeSinceLastMessage > config.messageTimeout {
        OnSessionEnd(reconnects, openedAt);
      }
    }

    method OnPoll(number: nat)
      requires !wsMode
      modifies this`delivered, this`lastBlockNumber, this`skipped
      ensures Value() == Next(config, old(Value()), Poll(number))
      ensures Watched() == AfterSignal(config, old(Watched()), Polled(number))
    {
      if number > lastBlockNumber {
        if lastBlockNumber > 0 && number > lastBlockNumber + 1 {
          skipped := skipped + [Gap(lastBlockNumber + 1, number, PolledOver)];
        }
        lastBlockNumber := number;
        delivered := delivered + [number];
      }
    }

    /** What subscriptionLoop does when polling has ended, which it does only with an error. */
    method OnPollFailure(connects: bool, openedAt: Time)
      requires !wsMode
      modifies this`wsMode, this`connected, this`isConnected, this`wsFailureCount, this`sessionHeard
      ensures Value() == Next(config, old(Value()), PollFails(connects))
      ensures Watched() == AfterSignal(config, old(Watched()), PollError(connects, openedAt))
    {
      if wsFailureCount > 0 {
        wsFailureCount := wsFailureCount - 1;
      }
      if wsFailureCount == 0 {
        if !connects {
          wsFailureCount := 1;
        } else {
          connected, isConnected := true, true;
          wsMode := true;
          sessionHeard := openedAt;
        }
      }
    }

    /** The look at the mark and the client with which a health check begins. */
    method BeginHealthCheck()
      modifies this`checking
      ensures Watched() == AfterSignal(config, old(Watched()), CheckBegins)
    {
      if !isConnected || !connected {
        return;
      }
      checking := true;
    }

    /** The end of a health check, when the connection may be another one. */
    method EndHealthCheck(answered: bool, now: Time)
      requires checking
      modifies this`checking, this`isConnected
      ensures Watched() == AfterSignal(config, old(Watched()), CheckEnds(answered, now))
    {
      checking := false;
      if !answered {
        var timeSinceLastMessage := now - lastMessageTime;
        if timeSinceLastMessage > config.messageTimeout {
          isConnected := false;
        }
      }
    }
  }

  datatype Error = ConnectionFailed

  /** NewSubscriber and Subscribe: without a pool to fall back on the first connection must succeed. */
  method Subscribe(config: Config, connects: bool, now: Time) returns (r: Result<Subscriber, Error>)
    ensures r.Failure? <==> !config.hasPool && !connects
    ensures r.Success? ==> fresh(r.value) && r.value.Watched() == StartWatch(connects, now)
                           && r.value.config == config.WithDefaults()
  {
    if !connects && !config.hasPool {
      return Failure(ConnectionFailed);
    }
    var s := new Subscriber(config, connects, now);
    r := Success(s);
  }

  // ---------------------------------------------------------------------
  // What is delivered
  // ---------------------------------------------------------------------

  function Run(c: Config, s: Stream, events: seq<Event>): Stream {
    if events == [] then s else Next(c, Run(c, s, events[..|events| - 1]), events[|events| - 1])
  }

  function Start(connects: bool): Stream {
    Stream(connects, connects, 0, 0, [], [])
  }

  function StartWatch(connects: bool, now: Time): Watch {
    Watch(Start(connects), connects, now, now, 0, false)
  }

  ghost predicate Increasing(blocks: seq<nat>) {
    forall i, j :: 0 <= i < j < |blocks| ==> blocks[i] < blocks[j]
  }

  predicate InGap(n: nat, gap: Gap) {
    gap.from <= n < gap.to
  }

  /** The number was gone past: it lies in a recorded gap. */
  ghost predicate Skipped(s: Stream, n: nat) {
    exists i :: 0 <= i < |s.skipped| && InGap(n, s.skipped[i])
  }

  /** The event is not a header at or below the last block. */
  predicate Rises(s: Stream, e: Event) {
    e.Head? && s.ws && s.connected && e.number > 0 ==> e.number > s.last
  }

  ghost predicate HeadsRise(c: Config, s: Stream, events: seq<Event>) {
    forall i :: 0 <= i < |events| ==> Rises(Run(c, s, events[..i]), events[i])
  }

  /** The last number is the last one delivered. */
  ghost predicate AtTheEnd(s: Stream) {
    if s.delivered == [] then s.last == 0 && s.skipped == [] else s.last == s.delivered[|s.delivered| - 1] > 0
  }

  /** From the first block delivered to the last, every number was delivered or skipped, not both, and none twice. */
  ghost predicate Complete(s: Stream) {
    && AtTheEnd(s)
    && Increasing(s.delivered)
    && (s.delivered != [] ==> forall n: nat :: s.delivered[0] <= n <= s.last ==> (n in s.delivered <==> !Skipped(s, n)))
    && (forall i :: 0 <= i < |s.skipped| ==> s.delivered[0] < s.skipped[i].from <= s.skipped[i].to <= s.last)
  }

  /** Sending the blocks from the last one up to some point, then the new one, and recording the rest as a gap. */
  lemma {:induction false} DeliveryKeepsComplete(s: Stream, t: Stream, reached: nat, number: nat, cause: Cause)
    requires Complete(s) && s.delivered != [] && s.last < reached <= number
    requires t.last == number && t.delivered == s.delivered + Range(s.last + 1, reached) + [number]
    requires t.skipped == s.skipped + if reached < number then [Gap(reached, number, cause)] else []
    ensures Complete(t)
  {
    DeliveredNumbers(s, t, reached, number);
    SkippedNumbers(s, t, reached, number, cause);
    forall n: nat | t.delivered[0] <= n <= t.last ensures n in t.delivered <==> !Skipped(t, n) {
      if n <= s.last {
        assert n in s.delivered <==> !Skipped(s, n);
      } else {
        assert !Skipped(s, n);
        assert n !in s.delivered;
      }
    }
  }

  lemma {:induction false} DeliveredNumbers(s: Stream, t: Stream, reached: nat, number: nat)
    requires AtTheEnd(s) && Increasing(s.delivered) && s.delivered != [] && s.last < reached <= number
    requires t.delivered == s.delivered + Range(s.last + 1, reached) + [number]
    ensures Increasing(t.delivered) && t.delivered[0] == s.delivered[0] && t.delivered[|t.delivered| - 1] == number
    ensures forall n: nat :: n in t.delivered <==> n in s.delivered || s.last < n < reached || n == number
    ensures forall n: nat :: n in s.delivered ==> n <= s.last
  {
    IncreasesOn(s.delivered, s.last, reached, number, t.delivered);
    RangeMembers(s.last + 1, reached);
    forall n: nat | n in s.delivered ensures n <= s.last {
      var i :| 0 <= i < |s.delivered| && s.delivered[i] == n;
    }
  }

  lemma {:induction false} RangeMembers(from: nat, to: nat)
    requires from <= to
    ensures forall n: nat :: n in Range(from, to) <==> from <= n < to
  {
    forall n: nat | from <= n < to ensures n in Range(from, to) {
      assert Range(from, to)[n - from] == n;
    }
  }

  lemma {:induction false} IncreasesOn(blocks: seq<nat>, last: nat, reached: nat, number: nat, more: seq<nat>)
    requires blocks != [] && Increasing(blocks) && blocks[|blocks| - 1] == last && last < reached <= number
    requires more == blocks + Range(last + 1, reached) + [number]
    ensures Increasing(more) && more[0] == blocks[0] && more[|more| - 1] == number
  {
    forall i, j | 0 <= i < j < |more| ensures more[i] < more[j] {
      assert i < |blocks| ==> more[i] == blocks[i] <= last;
    }
  }

  lemma {:induction false} SkippedNumbers(s: Stream, t: Stream, reached: nat, number: nat, cause: Cause)
    requires Complete(s) && s.delivered != [] && s.last < reached <= number
    requires t.skipped == s.skipped + if reached < number then [Gap(reached, number, cause)] else []
    ensures forall n: nat :: Skipped(t, n) <==> Skipped(s, n) || reached <= n < number
    ensures forall n: nat :: Skipped(s, n) ==> n < s.last
  {
    forall n: nat ensures Skipped(t, n) <==> Skipped(s, n) || reached <= n < number {
      if Skipped(s, n) {
        var i :| 0 <= i < |s.skipped| && InGap(n, s.skipped[i]);
        assert t.skipped[i] == s.skipped[i];
      }
      if reached <= n < number {
        assert InGap(n, t.skipped[|s.skipped|]);
      }
    }
  }

  lemma {:induction false} FirstDeliveryIsComplete(s: Stream, t: Stream, number: nat)
    requires AtTheEnd(s) && s.delivered == [] && number > 0
    requires t.last == number && t.delivered == [number] && t.skipped == []
    ensures Complete(t)
  {
  }

  lemma {:induction false} HeadKeepsComplete(c: Config, s: Stream, number: nat, fetches: nat, t: Stream)
    requires Complete(s) && s.last < number && t == AfterHead(c, s, number, fetches)
    ensures Complete(t)
  {
    if s.delivered == [] {
      FirstDeliveryIsComplete(s, t, number);
    } else if HasGap(s, number) {
      DeliveryKeepsComplete(s, t, Reached(c, s, number, fetches), number, if c.hasPool then BackfillFailed else NoPool);
    } else {
      assert s.delivered + Range(s.last + 1, number) == s.delivered;
      DeliveryKeepsComplete(s, t, number, number, NoPool);
    }
  }

  lemma {:induction false} PollKeepsComplete(s: Stream, number: nat, t: Stream)
    requires Complete(s) && s.last < number && t == AfterPoll(s, number)
    ensures Complete(t)
  {
    if s.delivered == [] {
      FirstDeliveryIsComplete(s, t, number);
    } else {
      assert s.delivered + Range(s.last + 1, s.last + 1) == s.delivered;
      DeliveryKeepsComplete(s, t, s.last + 1, number, PolledOver);
    }
  }

  lemma {:induction false} SameBlocksAreComplete(s: Stream, t: Stream)
    requires Complete(s) && t.last == s.last && t.delivered == s.delivered && t.skipped == s.skipped
    ensures Complete(t)
  {
    forall n: nat ensures Skipped(t, n) <==> Skipped(s, n) {
    }
  }

  lemma {:induction false} StepKeepsComplete(c: Config, s: Stream, e: Event)
    requires Complete(s) && Rises(s, e)
    ensures Complete(Next(c, s, e))
  {
    if e.Head? && s.ws && s.connected && e.number > 0 {
      HeadKeepsComplete(c, s, e.number, e.fetches, Next(c, s, e));
    } else if e.Poll? && !s.ws && e.number > s.last {
      PollKeepsComplete(s, e.number, Next(c, s, e));
    } else {
      OtherEventsSendNothing(c, s, e);
      SameBlocksAreComplete(s, Next(c, s, e));
    }
  }

  lemma {:induction false} OtherEventsSendNothing(c: Config, s: Stream, e: Event)
    requires !(e.Head? && s.ws && s.connected && e.number > 0) && !(e.Poll? && !s.ws && e.number > s.last)
    ensures var t := Next(c, s, e); t.last == s.last && t.delivered == s.delivered && t.skipped == s.skipped
  {
  }

  lemma {:induction false} HeadsRisePrefix(c: Config, s: Stream, events: seq<Event>)
    requires HeadsRise(c, s, events) && events != []
    ensures HeadsRise(c, s, events[..|events| - 1])
    ensures Rises(Run(c, s, events[..|events| - 1]), events[|events| - 1])
  {
    var before := events[..|events| - 1];
    forall i | 0 <= i < |before| ensures Rises(Run(c, s, before[..i]), before[i]) {
      assert before[..i] == events[..i];
    }
  }

  /** As long as headers rise, over any reconnects and switches: what was delivered is strictly increasing, and every
      number from the first block on was delivered exactly once or lies in a gap that was polled over, had no pool to
      fetch it, or whose backfill failed. */
  lemma {:induction false} NothingIsLostSilently(c: Config, connects: bool, events: seq<Event>)
    requires HeadsRise(c, Start(connects), events)
    ensures Complete(Run(c, Start(connects), events))
  {
    if events == [] {
    } else {
      HeadsRisePrefix(c, Start(connects), events);
      NothingIsLostSilently(c, connects, events[..|events| - 1]);
      StepKeepsComplete(c, Run(c, Start(connects), events[..|events| - 1]), events[|events| - 1]);
    }
  }

  lemma {:induction false} StepKeepsEnd(c: Config, s: Stream, e: Event)
    requires if s.delivered == [] then s.last == 0 && s.skipped == [] else s.last == s.delivered[|s.delivered| - 1] > 0
    ensures AtTheEnd(Next(c, s, e))
    ensures Increasing(Next(c, s, e).delivered) ==> Increasing(s.delivered) && Rises(s, e)
  {
    var t := Next(c, s, e);
    if Increasing(t.delivered) {
      forall i, j | 0 <= i < j < |s.delivered| ensures s.delivered[i] < s.delivered[j] {
        assert t.delivered[i] == s.delivered[i] && t.delivered[j] == s.delivered[j];
      }
      if e.Head? && t != s && s.delivered != [] {
        assert t.delivered[|s.delivered| - 1] == s.last && t.delivered[|t.delivered| - 1] == e.number;
      }
    }
  }

  lemma {:induction false} IncreasingMeansHeadsRose(c: Config, connects: bool, events: seq<Event>)
    ensures AtTheEnd(Run(c, Start(connects), events))
    ensures Increasing(Run(c, Start(connects), events).delivered) ==> HeadsRise(c, Start(connects), events)
  {
    if events == [] {
    } else {
      var before, e := events[..|events| - 1], events[|events| - 1];
      IncreasingMeansHeadsRose(c, connects, before);
      StepKeepsEnd(c, Run(c, Start(connects), before), e);
      if Increasing(Run(c, Start(connects), events).delivered) {
        forall i | 0 <= i < |events| ensures Rises(Run(c, Start(connects), events[..i]), events[i]) {
          assert i < |before| ==> before[..i] == events[..i];
        }
      }
    }
  }

  /** Blocks are delivered in strictly increasing order exactly when no header is at or below the last block: such a
      header, as after a reorganisation, is delivered again and moves the last block back. */
  lemma {:induction false} IncreasingExactlyWhenHeadsRise(c: Config, connects: bool, events: seq<Event>)
    ensures Increasing(Run(c, Start(connects), events).delivered) <==> HeadsRise(c, Start(connects), events)
  {
    IncreasingMeansHeadsRose(c, connects, events);
    if HeadsRise(c, Start(connects), events) {
      NothingIsLostSilently(c, connects, events);
    }
  }

  // ---------------------------------------------------------------------
  // When nothing is missing
  // ---------------------------------------------------------------------

  /** The event goes past no block: a header's gap can be backfilled to its end, and a poll has no gap. */
  predicate Lossless(c: Config, s: Stream, e: Event) {
    match e
    case Head(number, fetches) => Next(c, s, e) == s || !HasGap(s, number) || (c.hasPool && fetches >= number - s.last - 1)
    case Poll(number) => Next(c, s, e) == s || !HasGap(s, number)
    case _ => true
  }

  ghost predicate AllLossless(c: Config, s: Stream, events: seq<Event>) {
    forall i :: 0 <= i < |events| ==> Lossless(c, Run(c, s, events[..i]), events[i])
  }

  lemma {:induction false} AllLosslessPrefix(c: Config, s: Stream, before: seq<Event>, e: Event)
    ensures AllLossless(c, s, before + [e]) <==> AllLossless(c, s, before) && Lossless(c, Run(c, s, before), e)
  {
    var all := before + [e];
    assert all[..|before|] == before;
    forall i: nat | i < |before| ensures all[..i] == before[..i] && all[i] == before[i] {
    }
  }

  lemma {:induction false} StepSkipsNothing(c: Config, s: Stream, e: Event)
    ensures Next(c, s, e).skipped == [] <==> s.skipped == [] && Lossless(c, s, e)
  {
  }

  lemma {:induction false} NothingSkippedExactlyWhenLossless(c: Config, s: Stream, events: seq<Event>)
    requires s.skipped == []
    ensures Run(c, s, events).skipped == [] <==> AllLossless(c, s, events)
  {
    if events == [] {
    } else {
      var before, e := events[..|events| - 1], events[|events| - 1];
      NothingSkippedExactlyWhenLossless(c, s, before);
      StepSkipsNothing(c, Run(c, s, before), e);
      AllLosslessPrefix(c, s, before, e);
      assert events == before + [e];
    }
  }

  ghost predicate Contiguous(s: Stream) {
    s.delivered != [] ==> s.delivered[0] <= s.last && s.delivered == Range(s.delivered[0], s.last + 1)
  }

  lemma {:induction false} CompleteWithoutGapsIsContiguous(s: Stream, i: nat)
    requires Complete(s) && s.skipped == [] && i < |s.delivered|
    ensures s.delivered[i] == s.delivered[0] + i
  {
    if i == 0 {
    } else {
      CompleteWithoutGapsIsContiguous(s, i - 1);
      var n := s.delivered[0] + i;
      assert !Skipped(s, n);
      assert s.delivered[i - 1] < s.delivered[i];
      assert i == |s.delivered| - 1 || s.delivered[i] < s.delivered[|s.delivered| - 1];
      assert n in s.delivered;
      var j :| 0 <= j < |s.delivered| && s.delivered[j] == n;
    }
  }

  lemma {:induction false} LengthOfContiguous(s: Stream)
    requires Complete(s) && s.skipped == [] && s.delivered != []
    ensures s.delivered == Range(s.delivered[0], s.last + 1)
  {
    CompleteWithoutGapsIsContiguous(s, |s.delivered| - 1);
    var r := Range(s.delivered[0], s.last + 1);
    forall i | 0 <= i < |s.delivered| ensures s.delivered[i] == r[i] {
      CompleteWithoutGapsIsContiguous(s, i);
    }
  }

  /** The delivered blocks are contiguous exactly when every gap of a header was backfilled to its end and no gap was
      polled over; over WebSocket alone with a pool that answers they always are. */
  lemma {:induction false} ContiguousExactlyWhenLossless(c: Config, connects: bool, events: seq<Event>)
    requires HeadsRise(c, Start(connects), events)
    ensures Contiguous(Run(c, Start(connects), events)) <==> AllLossless(c, Start(connects), events)
  {
    var s := Run(c, Start(connects), events);
    NothingIsLostSilently(c, connects, events);
    NothingSkippedExactlyWhenLossless(c, Start(connects), events);
    if s.skipped == [] && s.delivered != [] {
      LengthOfContiguous(s);
    }
    if s.skipped != [] {
      GapsAreNotEmpty(c, connects, events);
      var n := s.skipped[0].from;
      assert InGap(n, s.skipped[0]) && Skipped(s, n);
      assert Range(s.delivered[0], s.last + 1)[n - s.delivered[0]] == n;
    }
  }

  lemma {:induction false} GapsAreNotEmpty(c: Config, connects: bool, events: seq<Event>)
    ensures forall i :: 0 <= i < |Run(c, Start(connects), events).skipped| ==>
              Run(c, Start(connects), events).skipped[i].from < Run(c, Start(connects), events).skipped[i].to
  {
    if events == [] {
    } else {
      GapsAreNotEmpty(c, connects, events[..|events| - 1]);
    }
  }

  // ---------------------------------------------------------------------
  // The mode
  // ---------------------------------------------------------------------

  /** The failures that make the loop switch, at least one. */
  function Limit(c: Config): nat {
    if c.maxWSFailures < 1 then 1 else c.maxWSFailures
  }

  /** HTTP mode needs a pool, and the failure count is below the limit while on WebSocket and never above it. */
  lemma {:induction false} ModeInvariant(c: Config, connects: bool, events: seq<Event>)
    requires c.hasPool || connects
    ensures var s := Run(c, Start(connects), events);
            && (!s.ws ==> c.hasPool && s.failures <= Limit(c))
            && (s.ws && c.hasPool ==> s.failures < Limit(c))
  {
    if events == [] {
    } else {
      ModeInvariant(c, connects, events[..|events| - 1]);
    }
  }

  function Repeat(e: Event, n: nat): seq<Event> {
    seq(n, _ => e)
  }

  lemma {:induction false} FailedSessions(c: Config, s: Stream, k: nat)
    requires s.ws && s.failures == 0
    ensures var t := Run(c, s, Repeat(SessionEnds(false), k));
            && (t.ws <==> !(c.hasPool && k >= Limit(c)))
            && t.failures == (if t.ws then k else Limit(c))
            && (t.ws && k > 0 ==> !t.connected)
            && t.delivered == s.delivered
  {
    if k == 0 {
    } else {
      assert Repeat(SessionEnds(false), k)[..k - 1] == Repeat(SessionEnds(false), k - 1);
      FailedSessions(c, s, k - 1);
    }
  }

  /** A session that ends and reconnects never counts towards the switch, unless one failure is enough for it. */
  lemma {:induction false} FlappingSwitchesExactlyWhen(c: Config, s: Stream, k: nat)
    requires s.ws && s.failures == 0 && k > 0
    ensures Run(c, s, Repeat(SessionEnds(true), k)).ws <==> !(c.hasPool && Limit(c) == 1)
    ensures var t := Run(c, s, Repeat(SessionEnds(true), k)); if t.ws then t.connected && t.failures == 0 else t.failures == 1
  {
    var all := Repeat(SessionEnds(true), k);
    assert all[..k - 1] == Repeat(SessionEnds(true), k - 1);
    if k == 1 {
    } else {
      FlappingSwitchesExactlyWhen(c, s, k - 1);
    }
  }

  /** HTTP mode lasts for as long as polling works, however long that is. */
  lemma {:induction false} StaysOnHTTPWhilePollingWorks(c: Config, s: Stream, events: seq<Event>)
    requires !s.ws && forall i :: 0 <= i < |events| ==> !events[i].PollFails?
    ensures var t := Run(c, s, events); !t.ws && t.failures == s.failures
  {
    if events == [] {
    } else {
      StaysOnHTTPWhilePollingWorks(c, s, events[..|events| - 1]);
    }
  }

  /** It takes as many polling failures as there were session failures to try WebSocket again. */
  lemma {:induction false} ReturnsExactlyAfter(c: Config, s: Stream, k: nat)
    requires !s.ws
    ensures var t := Run(c, s, Repeat(PollFails(true), k));
            && (t.ws <==> k > 0 && k >= s.failures)
            && (!t.ws ==> t.failures == s.failures - k)
            && (k > 0 && k <= s.failures + 1 && t.ws ==> t.connected && t.failures == 0)
  {
    if k == 0 {
    } else {
      assert Repeat(PollFails(true), k)[..k - 1] == Repeat(PollFails(true), k - 1);
      ReturnsExactlyAfter(c, s, k - 1);
    }
  }

  lemma {:induction false} RunsCompose(c: Config, s: Stream, first: seq<Event>, second: seq<Event>)
    ensures Run(c, s, first + second) == Run(c, Run(c, s, first), second)
  {
    if second == [] {
      assert first + second == first;
    } else {
      var n := |second| - 1;
      assert (first + second)[..|first| + n] == first + second[..n];
      RunsCompose(c, s, first, second[..n]);
    }
  }

  /** Sessions that fail without a reconnect, as many as the limit, and then polling errors: the loop is back on WebSocket,
      with a connection and nothing counted, exactly after as many errors as the limit. */
  lemma {:induction false} ThereAndBack(c: Config, s: Stream, k: nat)
    requires s.ws && s.failures == 0 && c.hasPool
    ensures var t := Run(c, s, Repeat(SessionEnds(false), Limit(c)) + Repeat(PollFails(true), k));
            && (t.ws <==> k >= Limit(c))
            && (k == Limit(c) ==> t.connected && t.failures == 0)
  {
    FailedSessions(c, s, Limit(c));
    RunsCompose(c, s, Repeat(SessionEnds(false), Limit(c)), Repeat(PollFails(true), k));
    ReturnsExactlyAfter(c, Run(c, s, Repeat(SessionEnds(false), Limit(c))), k);
  }

  /** While there is no connection to be had, errors of polling count down to one, and from there on every further error is
      another try. */
  lemma {:induction false} TriesAtEveryFurtherError(c: Config, s: Stream, k: nat)
    requires !s.ws
    ensures var t := Run(c, s, Repeat(PollFails(false), k));
            && !t.ws
            && t.failures == (if k == 0 then s.failures else if k < s.failures then s.failures - k else 1)
    ensures Run(c, s, Repeat(PollFails(false), k) + [PollFails(true)]).ws <==> k + 1 >= s.failures
  {
    var errors := Repeat(PollFails(false), k);
    assert (errors + [PollFails(true)])[..k] == errors;
    if k == 0 {
    } else {
      assert errors[..k - 1] == Repeat(PollFails(false), k - 1);
      TriesAtEveryFurtherError(c, s, k - 1);
    }
  }

  // ---------------------------------------------------------------------
  // The health check
  // ---------------------------------------------------------------------

  function RunSignals(c: Config, w: Watch, signals: seq<Signal>): Watch {
    if signals == [] then w
    else AfterSignal(c, RunSignals(c, w, signals[..|signals| - 1]), signals[|signals| - 1])
  }

  /** What the loop makes of the signals. */
  function LoopEvents(c: Config, w: Watch, signals: seq<Signal>): seq<Event> {
    if signals == [] then []
    else
      var before, signal := signals[..|signals| - 1], signals[|signals| - 1];
      LoopEvents(c, w, before) + match LoopEvent(c, RunSignals(c, w, before), signal) case Some(e) => [e] case None => []
  }

  function WithoutChecks(signals: seq<Signal>): seq<Signal> {
    if signals == [] then []
    else
      var before, signal := signals[..|signals| - 1], signals[|signals| - 1];
      WithoutChecks(before) + if signal.CheckBegins? || signal.CheckEnds? then [] else [signal]
  }

  lemma {:induction false} SignalOnStream(c: Config, w: Watch, signal: Signal)
    ensures AfterSignal(c, w, signal).stream
         == match LoopEvent(c, w, signal) case Some(e) => Next(c, w.stream, e) case None => w.stream
  {
  }

  /** The stream under watch is a run of the loop alone. */
  lemma {:induction false} StreamIsARunOfTheLoop(c: Config, w: Watch, signals: seq<Signal>)
    ensures RunSignals(c, w, signals).stream == Run(c, w.stream, LoopEvents(c, w, signals))
  {
    if signals == [] {
    } else {
      var before, signal := signals[..|signals| - 1], signals[|signals| - 1];
      StreamIsARunOfTheLoop(c, w, before);
      var v, events := RunSignals(c, w, before), LoopEvents(c, w, before);
      SignalOnStream(c, v, signal);
      match LoopEvent(c, v, signal)
      case None => assert events + [] == events;
      case Some(e) => assert (events + [e])[..|events|] == events;
    }
  }

  /** When the latest header of a session came, if there was one. */
  function LatestHeader(c: Config, w: Watch, signals: seq<Signal>): Time {
    if signals == [] then w.lastMessage
    else
      var before, signal := signals[..|signals| - 1], signals[|signals| - 1];
      if signal.Header? && InSession(RunSignals(c, w, before)) then signal.now else LatestHeader(c, w, before)
  }

  /** A check began on a marked connection and has not ended. */
  ghost predicate CheckIsUnderWay(c: Config, w: Watch, signals: seq<Signal>) {
    exists i :: 0 <= i < |signals| && signals[i].CheckBegins? && CanCheck(RunSignals(c, w, signals[..i]))
                && forall j :: i < j < |signals| ==> !signals[j].CheckEnds?
  }

  predicate CanCheck(w: Watch) {
    w.isConnected && w.stream.connected
  }

  lemma {:induction false} CheckIsUnderWayStep(c: Config, w: Watch, before: seq<Signal>, signal: Signal)
    ensures CheckIsUnderWay(c, w, before + [signal])
       <==> !signal.CheckEnds? && (CheckIsUnderWay(c, w, before) || (signal.CheckBegins? && CanCheck(RunSignals(c, w, before))))
  {
    var all, n := before + [signal], |before|;
    assert all[..n] == before && all[n] == signal;
    forall i: nat | i < n ensures all[i] == before[i] && all[..i] == before[..i] {
    }
    if CheckIsUnderWay(c, w, before) && !signal.CheckEnds? {
      var i :| 0 <= i < n && before[i].CheckBegins? && CanCheck(RunSignals(c, w, before[..i]))
               && forall j :: i < j < n ==> !before[j].CheckEnds?;
      assert all[i].CheckBegins? && CanCheck(RunSignals(c, w, all[..i]));
    }
    if CheckIsUnderWay(c, w, all) {
      var i :| 0 <= i < |all| && all[i].CheckBegins? && CanCheck(RunSignals(c, w, all[..i]))
               && forall j :: i < j < |all| ==> !all[j].CheckEnds?;
      assert i == n || before[i].CheckBegins?;
    }
  }

  lemma {:induction false} SignalToTheWatch(c: Config, w: Watch, signal: Signal)
    ensures var v := AfterSignal(c, w, signal);
            && v.lastMessage == (if signal.Header? && InSession(w) then signal.now else w.lastMessage)
            && (v.checking <==> !signal.CheckEnds? && (w.checking || (signal.CheckBegins? && CanCheck(w))))
  {
  }

  /** Over any run: the time of the last message is that of the latest header of a session, and a check is under way exactly
      when one began on a marked connection with a client and has not ended. */
  lemma {:induction false} WatchIsTheHistory(c: Config, w: Watch, signals: seq<Signal>)
    requires !w.checking
    ensures RunSignals(c, w, signals).lastMessage == LatestHeader(c, w, signals)
    ensures RunSignals(c, w, signals).checking <==> CheckIsUnderWay(c, w, signals)
  {
    if signals == [] {
    } else {
      var before, signal := signals[..|signals| - 1], signals[|signals| - 1];
      assert signals == before + [signal];
      WatchIsTheHistory(c, w, before);
      SignalToTheWatch(c, RunSignals(c, w, before), signal);
      CheckIsUnderWayStep(c, w, before, signal);
    }
  }

  /** A signal takes the mark down, in no other way than with its session, exactly when it is the unanswered end of a check
      under way and the latest header is longer ago than the message timeout. */
  lemma {:induction false} ACheckTakesTheMarkDownExactlyWhen(c: Config, w: Watch, signals: seq<Signal>, signal: Signal)
    requires !w.checking
    ensures var before, after := RunSignals(c, w, signals), RunSignals(c, w, signals + [signal]);
            before.isConnected && !after.isConnected && after.errors == before.errors <==>
              && before.isConnected && signal.CheckEnds? && !signal.answered && CheckIsUnderWay(c, w, signals)
              && signal.now > LatestHeader(c, w, signals) + c.messageTimeout
  {
    WatchIsTheHistory(c, w, signals);
    assert (signals + [signal])[..|signals|] == signals;
  }

  /** The session opens with this signal: the one before it ended, or there was none. */
  predicate Opens(w: Watch, v: Watch) {
    InSession(v) && (v.errors > w.errors || !w.stream.ws)
  }

  /** A session that opens puts the mark up and counts its silence from there; one that ends takes the mark down, unless the
      loop switches to HTTP and leaves the connection as it is. Nothing else but a header in a session is heard. */
  lemma {:induction false} WhatOpeningAndEndingDo(c: Config, w: Watch, signal: Signal)
    ensures var v := AfterSignal(c, w, signal);
            && (Opens(w, v) ==> v.isConnected && (signal.SubscriptionError? || signal.Timer? || signal.PollError?)
                                && v.heard == signal.openedAt)
            && (!Opens(w, v) ==> v.heard == if signal.Header? && InSession(w) then signal.now else w.heard)
            && (v.errors > w.errors && !InSession(v) ==> v.isConnected == (w.isConnected && !v.stream.ws))
            && (w.stream.connected && !v.stream.connected ==> v.errors > w.errors && v.stream.ws)
  {
  }

  predicate SameButTheMark(w: Watch, v: Watch) {
    w == v.(isConnected := w.isConnected, checking := w.checking)
  }

  lemma {:induction false} SignalKeepsSame(c: Config, w: Watch, v: Watch, signal: Signal)
    requires SameButTheMark(w, v)
    ensures SameButTheMark(AfterSignal(c, w, signal), AfterSignal(c, v, signal))
    ensures signal.CheckBegins? || signal.CheckEnds? ==> SameButTheMark(AfterSignal(c, w, signal), v)
  {
  }

  /** Whatever health checks find, over any run: the blocks, the modes, the sessions and their errors are those of the run
      without the checks. Only the mark differs, so no check makes the loop reconnect. */
  lemma {:induction false} HealthChecksChangeOnlyTheMark(c: Config, w: Watch, signals: seq<Signal>)
    ensures SameButTheMark(RunSignals(c, w, signals), RunSignals(c, w, WithoutChecks(signals)))
  {
    if signals == [] {
    } else {
      var before, signal := signals[..|signals| - 1], signals[|signals| - 1];
      HealthChecksChangeOnlyTheMark(c, w, before);
      var kept := WithoutChecks(before);
      SignalKeepsSame(c, RunSignals(c, w, before), RunSignals(c, w, kept), signal);
      assert (kept + [signal])[..|kept|] == kept && kept + [] == kept;
    }
  }

  /** When the last of the headers came, if there was one. */
  function LastHeard(at: Time, signals: seq<Signal>): Time {
    if signals == [] then at
    else if signals[|signals| - 1].Header? then signals[|signals| - 1].now
    else LastHeard(at, signals[..|signals| - 1])
  }

  /** The signal is an error of the subscription, or its timer when the last header, or else the opening of the session, is
      longer ago than the message timeout. */
  predicate EndsSession(c: Config, heard: Time, signals: seq<Signal>, i: nat)
    requires i < |signals|
  {
    || signals[i].SubscriptionError?
    || (signals[i].Timer? && signals[i].now - LastHeard(heard, signals[..i]) > c.messageTimeout)
  }

  lemma {:induction false} SignalInSession(c: Config, w: Watch, signal: Signal)
    requires InSession(w)
    ensures var v := AfterSignal(c, w, signal);
            && (v.errors == w.errors <==> !(signal.SubscriptionError? || (signal.Timer? && signal.now - w.heard > c.messageTimeout)))
            && (v.errors == w.errors ==> InSession(v) && v.heard == if signal.Header? then signal.now else w.heard)
            && (v.errors == w.errors ==> (v.isConnected <==> w.isConnected && !Marks(c, w, signal)))
  {
  }

  lemma {:induction false} ErrorsOnlyRise(c: Config, w: Watch, signal: Signal)
    ensures AfterSignal(c, w, signal).errors >= w.errors
  {
  }

  /** An open session ends, with an error and the reconnect that follows, exactly at a subscription error or at a timer that
      has heard nothing for the message timeout; the mark and the checks are no part of the condition. */
  lemma {:induction false} SessionLastsExactlyUntil(c: Config, w: Watch, signals: seq<Signal>)
    requires InSession(w)
    ensures RunSignals(c, w, signals).errors >= w.errors
    ensures RunSignals(c, w, signals).errors == w.errors <==>
              forall i :: 0 <= i < |signals| ==> !EndsSession(c, w.heard, signals, i)
    ensures RunSignals(c, w, signals).errors == w.errors ==>
              InSession(RunSignals(c, w, signals)) && RunSignals(c, w, signals).heard == LastHeard(w.heard, signals)
  {
    if signals == [] {
    } else {
      var n := |signals| - 1;
      var before := signals[..n];
      SessionLastsExactlyUntil(c, w, before);
      forall i: nat | i < n ensures EndsSession(c, w.heard, signals, i) <==> EndsSession(c, w.heard, before, i) {
        assert before[..i] == signals[..i];
      }
      var v := RunSignals(c, w, before);
      ErrorsOnlyRise(c, v, signals[n]);
      if v.errors == w.errors {
        SignalInSession(c, v, signals[n]);
      }
      assert EndsSession(c, w.heard, signals, n) || !EndsSession(c, w.heard, signals, n);
    }
  }

  ghost predicate NoCheckMarks(c: Config, w: Watch, signals: seq<Signal>) {
    forall i :: 0 <= i < |signals| ==> !Marks(c, RunSignals(c, w, signals[..i]), signals[i])
  }

  lemma {:induction false} NoCheckMarksPrefix(c: Config, w: Watch, before: seq<Signal>, signal: Signal)
    ensures NoCheckMarks(c, w, before + [signal]) <==> NoCheckMarks(c, w, before) && !Marks(c, RunSignals(c, w, before), signal)
  {
    var all := before + [signal];
    assert all[..|before|] == before;
    forall i: nat | i < |before| ensures all[..i] == before[..i] && all[i] == before[i] {
    }
  }

  /** For as long as a session lasts its mark is down exactly when it was down or a check took it down: nothing puts it up
      again. */
  lemma {:induction false} MarkStaysDownForTheSession(c: Config, w: Watch, signals: seq<Signal>)
    requires InSession(w) && RunSignals(c, w, signals).errors == w.errors
    ensures RunSignals(c, w, signals).isConnected <==> w.isConnected && NoCheckMarks(c, w, signals)
  {
    if signals == [] {
    } else {
      var before, signal := signals[..|signals| - 1], signals[|signals| - 1];
      var v := RunSignals(c, w, before);
      SessionLastsExactlyUntil(c, w, before);
      ErrorsOnlyRise(c, v, signal);
      SignalInSession(c, v, signal);
      MarkStaysDownForTheSession(c, w, before);
      NoCheckMarksPrefix(c, w, before, signal);
      assert signals == before + [signal];
    }
  }

  lemma {:induction false} SignalKeepsMarked(c: Config, w: Watch, signal: Signal)
    requires w.isConnected ==> w.stream.connected
    ensures AfterSignal(c, w, signal).isConnected ==> AfterSignal(c, w, signal).stream.connected
  {
  }

  /** The mark is up only on a connection. */
  lemma {:induction false} MarkedMeansConnected(c: Config, connects: bool, now: Time, signals: seq<Signal>)
    ensures var v := RunSignals(c, StartWatch(connects, now), signals); v.isConnected ==> v.stream.connected
  {
    if signals == [] {
    } else {
      var v := RunSignals(c, StartWatch(connects, now), signals[..|signals| - 1]);
      MarkedMeansConnected(c, connects, now, signals[..|signals| - 1]);
      SignalKeepsMarked(c, v, signals[|signals| - 1]);
    }
  }

  lemma {:induction false} FourSignals(c: Config, w: Watch, a: Signal, b: Signal, d: Signal, e: Signal)
    ensures RunSignals(c, w, [a, b, d, e]) == AfterSignal(c, AfterSignal(c, AfterSignal(c, AfterSignal(c, w, a), b), d), e)
  {
    var one, two, three, four := [a], [a, b], [a, b, d], [a, b, d, e];
    assert one[..0] == [] && two[..1] == one && three[..2] == two && four[..3] == three;
    assert RunSignals(c, w, one) == AfterSignal(c, RunSignals(c, w, []), a);
    assert RunSignals(c, w, two) == AfterSignal(c, RunSignals(c, w, one), b);
    assert RunSignals(c, w, three) == AfterSignal(c, RunSignals(c, w, two), d);
  }

  /** The session opens at 100 with a timeout of 60 and its first health check, at 101, goes unanswered; the last header was
      before the session. The mark goes down, and the session delivers blocks from then on. */
  lemma {:induction false} AStaleSessionDelivers()
    ensures var c := Config(true, 3, 60);
            var signals := [SubscriptionError(true, 100), CheckBegins, CheckEnds(false, 101), Header(1, 0, 102)];
            var v := RunSignals(c, StartWatch(true, 0), signals);
            InSession(v) && !v.isConnected && v.errors == 1 && v.stream.delivered == [1]
  {
    var c, w := Config(true, 3, 60), StartWatch(true, 0);
    FourSignals(c, w, SubscriptionError(true, 100), CheckBegins, CheckEnds(false, 101), Header(1, 0, 102));
    var w1 := AfterSignal(c, w, SubscriptionError(true, 100));
    assert w1 == Watch(Start(true), true, 0, 100, 1, false);
    var w3 := AfterSignal(c, AfterSignal(c, w1, CheckBegins), CheckEnds(false, 101));
    assert w3 == w1.(isConnected := false);
  }
}
