/** internal/platform/cache/layered.go: a short-lived first layer in front of a persistent second one. */
module LayeredCaches {
  import opened Wrappers
  import RecencyList

  type Key = RecencyList.Key
  type Value = RecencyList.Value
  type Time = RecencyList.Time

  datatype Error = NotFound | Unavailable(layer: nat)

  /** A stored value; without a deadline it never expires. */
  datatype Stored = Stored(value: Value, deadline: Option<Time>)

  type Entries = map<Key, Stored>

  /** How one access to a layer goes; a call may also be carried out and still report an error. */
  datatype Fault = Works | Fails | FailsAfterwards

  const DEFAULT_L1_MAX_TTL: Time := 60_000_000_000

  function Live(entries: Entries, key: Key, now: Time): Option<Value> {
    if key in entries && (entries[key].deadline.None? || now <= entries[key].deadline.value)
    then Some(entries[key].value) else None
  }

  /** The in-memory layer takes any ttl as it is; for Redis a ttl that is not positive means no expiry. */
  function Put(entries: Entries, layer: nat, key: Key, value: Value, ttl: Time, now: Time): Entries {
    entries[key := Stored(value, if layer == 2 && ttl <= 0 then None else Some(now + ttl))]
  }

  /** One of the two caches behind the interface. */
  class Layer {
    const number: nat
    var entries: Entries

    constructor (number: nat)
      ensures this.number == number && entries == map[]
    {
      this.number, entries := number, map[];
    }

    method Get(key: Key, now: Time, fault: Fault) returns (r: Result<Value, Error>)
      ensures r == if fault != Works then Failure(Unavailable(number))
                   else if Live(entries, key, now).Some? then Success(Live(entries, key, now).value) else Failure(NotFound)
    {
      if fault != Works {
        return Failure(Unavailable(number));
      }
      var found := Live(entries, key, now);
      r := if found.Some? then Success(found.value) else Failure(NotFound);
    }

    method Set(key: Key, value: Value, ttl: Time, now: Time, fault: Fault) returns (err: Option<Error>)
      modifies this
      ensures entries == if fault == Fails then old(entries) else Put(old(entries), number, key, value, ttl, now)
      ensures err == if fault == Works then None else Some(Unavailable(number))
    {
      if fault != Fails {
        entries := Put(entries, number, key, value, ttl, now);
      }
      err := if fault == Works then None else Some(Unavailable(number));
    }

    method Delete(key: Key, fault: Fault) returns (err: Option<Error>)
      modifies this
      ensures entries == if fault == Fails then old(entries) else old(entries) - {key}
      ensures err == if fault == Works then None else Some(Unavailable(number))
    {
      if fault != Fails {
        entries := entries - {key};
      }
      err := if fault == Works then None else Some(Unavailable(number));
    }
  }

  // ---------------------------------------------------------------------
  // What a call does, as functions on the two layers
  // ---------------------------------------------------------------------

  /** The layers that are configured and what they hold. */
  datatype Layers = Layers(l1: Option<Entries>, l2: Option<Entries>)

  datatype Call =
    | Get(key: Key)
    | Set(key: Key, value: Value, ttl: Time)
    | Delete(key: Key)
    | InvalidateL1(key: Key)
    | Lose(first: set<Key>, second: set<Key>)   // evicted or lost by the layers themselves

  datatype Event = Event(call: Call, now: Time, f1: Fault, f2: Fault, backfill: Fault)

  function Hit1(s: Layers, key: Key, now: Time, f1: Fault): Option<Value> {
    if s.l1.Some? && f1 == Works then Live(s.l1.value, key, now) else None
  }

  function Hit2(s: Layers, key: Key, now: Time, f2: Fault): Option<Value> {
    if s.l2.Some? && f2 == Works then Live(s.l2.value, key, now) else None
  }

  /** What Get returns. */
  function GetReply(s: Layers, key: Key, now: Time, f1: Fault, f2: Fault): Result<Value, Error> {
    if Hit1(s, key, now, f1).Some? then Success(Hit1(s, key, now, f1).value)
    else if Hit2(s, key, now, f2).Some? then Success(Hit2(s, key, now, f2).value)
    else if s.l2.Some? && f2 != Works then Failure(Unavailable(2))
    else Failure(NotFound)
  }

  /** What Set returns: an error only if both layers report one. */
  function SetReply(s: Layers, f1: Fault, f2: Fault): Option<Error> {
    if s.l1.Some? && s.l2.Some? && f1 != Works && f2 != Works then Some(Unavailable(2)) else None
  }

  function Write(entries: Option<Entries>, layer: nat, key: Key, value: Value, ttl: Time, now: Time, f: Fault): Option<Entries> {
    if entries.Some? && f != Fails then Some(Put(entries.value, layer, key, value, ttl, now)) else entries
  }

  function Erase(entries: Option<Entries>, keys: set<Key>, f: Fault): Option<Entries> {
    if entries.Some? && f != Fails then Some(entries.value - keys) else entries
  }

  /** The layers after a call. */
  function After(s: Layers, l1MaxTTL: Time, e: Event): Layers {
    match e.call
    case Get(key) =>
      if Hit1(s, key, e.now, e.f1).None? && Hit2(s, key, e.now, e.f2).Some?
      then s.(l1 := Write(s.l1, 1, key, Hit2(s, key, e.now, e.f2).value, l1MaxTTL, e.now, e.backfill))
      else s
    case Set(key, value, ttl) =>
      Layers(Write(s.l1, 1, key, value, if ttl > l1MaxTTL then l1MaxTTL else ttl, e.now, e.f1),
             Write(s.l2, 2, key, value, ttl, e.now, e.f2))
    case Delete(key) => Layers(Erase(s.l1, {key}, e.f1), Erase(s.l2, {key}, e.f2))
    case InvalidateL1(key) => s.(l1 := Erase(s.l1, {key}, e.f1))
    case Lose(first, second) => Layers(Erase(s.l1, first, Works), Erase(s.l2, second, Works))
  }

  class LayeredCache {
    const l1: Layer?
    const l2: Layer?
    const l1MaxTTL: Time

    /** NewLayeredCacheWithConfig: a maximum of zero stands for the default. */
    constructor (l1: Layer?, l2: Layer?, l1MaxTTL: Time)
      requires l1 != null ==> l1.number == 1
      requires l2 != null ==> l2.number == 2
      ensures Valid() && this.l1 == l1 && this.l2 == l2
      ensures this.l1MaxTTL == if l1MaxTTL == 0 then DEFAULT_L1_MAX_TTL else l1MaxTTL
    {
      this.l1, this.l2 := l1, l2;
      this.l1MaxTTL := if l1MaxTTL == 0 then DEFAULT_L1_MAX_TTL else l1MaxTTL;
    }

    ghost predicate Valid() {
      (l1 != null ==> l1.number == 1) && (l2 != null ==> l2.number == 2)
    }

    ghost function State(): Layers
      reads this, l1, l2
    {
      Layers(if l1 == null then None else Some(l1.entries), if l2 == null then None else Some(l2.entries))
    }

    method Get(key: Key, now: Time, f1: Fault, f2: Fault, backfill: Fault) returns (r: Result<Value, Error>)
      requires Valid()
      modifies l1
      ensures r == GetReply(old(State()), key, now, f1, f2)
      ensures State() == After(old(State()), l1MaxTTL, Event(Call.Get(key), now, f1, f2, backfill))
    {
      if l1 != null {
        var first := l1.Get(key, now, f1);
        if first.Success? {
          return first;
        }
      }
      if l2 != null {
        var second := l2.Get(key, now, f2);
        if second.Success? {
          if l1 != null {
            var _ := l1.Set(key, second.value, l1MaxTTL, now, backfill);
          }
          return second;
        }
        if second.error != NotFound {
          return second;
        }
      }
      r := Failure(NotFound);
    }

    method Set(key: Key, value: Value, ttl: Time, now: Time, f1: Fault, f2: Fault) returns (err: Option<Error>)
      requires Valid()
      modifies l1, l2
      ensures err == SetReply(old(State()), f1, f2)
      ensures err == if l1 != null && l2 != null && f1 != Works && f2 != Works then Some(Unavailable(2)) else None
      ensures State() == After(old(State()), l1MaxTTL, Event(Call.Set(key, value, ttl), now, f1, f2, Works))
    {
      var l1Err, l2Err: Option<Error> := None, None;
      if l1 != null {
        var l1TTL := ttl;
        if ttl > l1MaxTTL {
          l1TTL := l1MaxTTL;
        }
        l1Err := l1.Set(key, value, l1TTL, now, f1);
      }
      if l2 != null {
        l2Err := l2.Set(key, value, ttl, now, f2);
      }
      if l1Err.Some? && l2Err.Some? {
        return l2Err;
      }
      err := None;
    }

    method Delete(key: Key, f1: Fault, f2: Fault, now: Time) returns (err: Option<Error>)
      requires Valid()
      modifies l1, l2
      ensures err == if l1 != null && f1 != Works then Some(Unavailable(1))
                     else if l2 != null && f2 != Works then Some(Unavailable(2)) else None
      ensures State() == After(old(State()), l1MaxTTL, Event(Call.Delete(key), now, f1, f2, Works))
    {
      var l1Err, l2Err: Option<Error> := None, None;
      if l1 != null {
        l1Err := l1.Delete(key, f1);
      }
      if l2 != null {
        l2Err := l2.Delete(key, f2);
      }
      err := if l1Err.Some? then l1Err else l2Err;
    }

    method InvalidateL1(key: Key, f1: Fault, now: Time) returns (err: Option<Error>)
      requires Valid()
      modifies l1
      ensures err == if l1 != null && f1 != Works then Some(Unavailable(1)) else None
      ensures State() == After(old(State()), l1MaxTTL, Event(Call.InvalidateL1(key), now, f1, Works, Works))
    {
      err := None;
      if l1 != null {
        err := l1.Delete(key, f1);
      }
    }
  }

  // ---------------------------------------------------------------------
  // What each answer of Get means
  // ---------------------------------------------------------------------

  /** The layer is configured and its read works, and it holds the value for the key, not past its deadline if it has one. */
  ghost predicate Gives(layer: Option<Entries>, fault: Fault, key: Key, value: Value, now: Time) {
    && layer.Some? && fault == Works && key in layer.value && layer.value[key].value == value
    && (layer.value[key].deadline.Some? ==> now <= layer.value[key].deadline.value)
  }

  ghost predicate GivesNothing(layer: Option<Entries>, fault: Fault, key: Key, now: Time) {
    forall value :: !Gives(layer, fault, key, value, now)
  }

  /** A value comes from the first layer, or from the second if the first gives none, read without fault or not; `not found`
      is the answer exactly when neither gives one and no read of the second failed, and otherwise its error is. */
  lemma {:induction false} GetReplyExactlyWhen(s: Layers, key: Key, now: Time, f1: Fault, f2: Fault, value: Value)
    ensures GetReply(s, key, now, f1, f2) == Success(value)
       <==> Gives(s.l1, f1, key, value, now) || (GivesNothing(s.l1, f1, key, now) && Gives(s.l2, f2, key, value, now))
    ensures GetReply(s, key, now, f1, f2) == Failure(NotFound)
       <==> GivesNothing(s.l1, f1, key, now) && (s.l2.None? || (f2 == Works && GivesNothing(s.l2, f2, key, now)))
    ensures GetReply(s, key, now, f1, f2) == Failure(Unavailable(2))
       <==> GivesNothing(s.l1, f1, key, now) && s.l2.Some? && f2 != Works
    ensures GetReply(s, key, now, f1, f2).Failure? ==> GetReply(s, key, now, f1, f2).error in {NotFound, Unavailable(2)}
  {
    if s.l1.Some? && key in s.l1.value {
      assert Gives(s.l1, f1, key, s.l1.value[key].value, now) || GivesNothing(s.l1, f1, key, now);
    }
    if s.l2.Some? && key in s.l2.value {
      assert Gives(s.l2, f2, key, s.l2.value[key].value, now) || GivesNothing(s.l2, f2, key, now);
    }
  }

  // ---------------------------------------------------------------------
  // Runs
  // ---------------------------------------------------------------------

  function Run(s: Layers, l1MaxTTL: Time, events: seq<Event>): Layers {
    if events == [] then s else After(Run(s, l1MaxTTL, events[..|events| - 1]), l1MaxTTL, events[|events| - 1])
  }

  ghost predicate Empty(s: Layers) {
    (s.l1.Some? ==> s.l1.value == map[]) && (s.l2.Some? ==> s.l2.value == map[])
  }

  function Allowance(l1MaxTTL: Time): Time {
    if l1MaxTTL < 0 then 0 else l1MaxTTL
  }

  // ---------------------------------------------------------------------
  // How old a value can be, whatever fails
  // ---------------------------------------------------------------------

  /** Some Set of this key and value lasts until the limit. */
  ghost predicate Backed(events: seq<Event>, key: Key, value: Value, limit: Time) {
    exists i :: 0 <= i < |events| && events[i].call.Set? && events[i].call.key == key && events[i].call.value == value
                && limit <= events[i].now + events[i].call.ttl
  }

  ghost predicate KeyBacked(entries: Option<Entries>, key: Key, events: seq<Event>, allowance: Time) {
    entries.Some? && key in entries.value ==>
      var stored := entries.value[key];
      stored.deadline.Some? && Backed(events, key, stored.value, stored.deadline.value - allowance)
  }

  /** The event is a Set of the key that reaches a second layer. */
  predicate SetsSecond(s: Layers, e: Event, key: Key) {
    s.l2.Some? && e.call.Set? && e.call.key == key && e.f2 != Fails
  }

  ghost predicate PositiveTTLs(s: Layers, events: seq<Event>, key: Key) {
    forall i :: 0 <= i < |events| && SetsSecond(s, events[i], key) ==> events[i].call.ttl > 0
  }

  lemma {:induction false} BackedLater(events: seq<Event>, e: Event, key: Key, value: Value, limit: Time, smaller: Time)
    requires Backed(events, key, value, limit) && smaller <= limit
    ensures Backed(events + [e], key, value, smaller)
  {
    var i :| 0 <= i < |events| && events[i].call.Set? && events[i].call.key == key && events[i].call.value == value
             && limit <= events[i].now + events[i].call.ttl;
    assert (events + [e])[i] == events[i];
  }

  lemma {:induction false} KeyBackedLater(entries: Option<Entries>, key: Key, events: seq<Event>, e: Event, allowance: Time)
    requires KeyBacked(entries, key, events, allowance)
    ensures KeyBacked(entries, key, events + [e], allowance)
  {
    if entries.Some? && key in entries.value {
      var limit := entries.value[key].deadline.value - allowance;
      BackedLater(events, e, key, entries.value[key].value, limit, limit);
    }
  }

  lemma {:induction false} SetIsBacked(events: seq<Event>, e: Event, limit: Time)
    requires e.call.Set? && limit <= e.now + e.call.ttl
    ensures Backed(events + [e], e.call.key, e.call.value, limit)
  {
    assert (events + [e])[|events|] == e;
  }

  lemma {:induction false} StepKeepsBacking(s: Layers, l1MaxTTL: Time, key: Key, events: seq<Event>, e: Event)
    requires KeyBacked(s.l1, key, events, Allowance(l1MaxTTL)) && KeyBacked(s.l2, key, events, 0)
    requires SetsSecond(s, e, key) ==> e.call.ttl > 0
    ensures KeyBacked(After(s, l1MaxTTL, e).l1, key, events + [e], Allowance(l1MaxTTL))
    ensures KeyBacked(After(s, l1MaxTTL, e).l2, key, events + [e], 0)
  {
    KeyBackedLater(s.l1, key, events, e, Allowance(l1MaxTTL));
    KeyBackedLater(s.l2, key, events, e, 0);
    if e.call == Call.Get(key) && Hit2(s, key, e.now, e.f2).Some? {
      var stored := s.l2.value[key];
      BackedLater(events, e, key, stored.value, stored.deadline.value, e.now + l1MaxTTL - Allowance(l1MaxTTL));
    } else if e.call.Set? && e.call.key == key {
      SetIsBacked(events, e, e.now + e.call.ttl);
      SetIsBacked(events, e, e.now + (if e.call.ttl > l1MaxTTL then l1MaxTTL else e.call.ttl) - Allowance(l1MaxTTL));
    }
  }

  lemma {:induction false} RunKeepsBacking(s: Layers, l1MaxTTL: Time, key: Key, events: seq<Event>)
    requires Empty(s) && PositiveTTLs(s, events, key)
    ensures KeyBacked(Run(s, l1MaxTTL, events).l1, key, events, Allowance(l1MaxTTL))
    ensures KeyBacked(Run(s, l1MaxTTL, events).l2, key, events, 0)
  {
    if events == [] {
    } else {
      var before, e := events[..|events| - 1], events[|events| - 1];
      RunKeepsBacking(s, l1MaxTTL, key, before);
      RunKeepsLayers(s, l1MaxTTL, before);
      StepKeepsBacking(Run(s, l1MaxTTL, before), l1MaxTTL, key, before, e);
      assert before + [e] == events;
    }
  }

  /** What a Get returns after a run was Set for its key, and no longer ago than its ttl and the first layer's maximum
      together. */
  ghost predicate NothingOlder(s: Layers, l1MaxTTL: Time, events: seq<Event>, key: Key, now: Time, f1: Fault, f2: Fault) {
    var r := GetReply(Run(s, l1MaxTTL, events), key, now, f1, f2);
    r.Success? ==> Backed(events, key, r.value, now - Allowance(l1MaxTTL))
  }

  /** Whatever fails or is lost in either layer, if the Sets of the key that reach the second layer have positive ttls: a
      backfill starts the first layer's ttl anew, but cannot chain. */
  lemma {:induction false} NothingOlderIsReturned(s: Layers, l1MaxTTL: Time, events: seq<Event>, key: Key, now: Time, f1: Fault, f2: Fault)
    requires Empty(s) && PositiveTTLs(s, events, key)
    ensures NothingOlder(s, l1MaxTTL, events, key, now, f1, f2)
  {
    RunKeepsBacking(s, l1MaxTTL, key, events);
    var end := Run(s, l1MaxTTL, events);
    var r := GetReply(end, key, now, f1, f2);
    if r.Success? {
      var limit := if Hit1(end, key, now, f1).Some? then end.l1.value[key].deadline.value - Allowance(l1MaxTTL)
                   else end.l2.value[key].deadline.value;
      var i :| 0 <= i < |events| && events[i].call.Set? && events[i].call.key == key && events[i].call.value == r.value
               && limit <= events[i].now + events[i].call.ttl;
    }
  }

  /** A ttl that is not positive has no bound at all: the second layer keeps such a value for ever. */
  lemma {:induction false} WithoutPositiveTTLNothingExpires(s: Layers, l1MaxTTL: Time, write: Event, now: Time)
    requires write.call.Set? && write.call.ttl <= 0 && s.l2.Some? && write.f2 != Fails
    ensures GetReply(After(s, l1MaxTTL, write), write.call.key, now, Fails, Works) == Success(write.call.value)
  {
  }

  /** When everything that was Set is over. */
  function LastLimit(events: seq<Event>): Time {
    if events == [] then 0
    else
      var before, e := LastLimit(events[..|events| - 1]), events[|events| - 1];
      if e.call.Set? && e.now + e.call.ttl > before then e.now + e.call.ttl else before
  }

  lemma {:induction false} LimitsAreBounded(events: seq<Event>, i: nat)
    requires i < |events| && events[i].call.Set?
    ensures events[i].now + events[i].call.ttl <= LastLimit(events)
  {
    if i == |events| - 1 {
    } else {
      LimitsAreBounded(events[..|events| - 1], i);
    }
  }

  lemma {:induction false} OlderAfterASetThatStays(s: Layers, l1MaxTTL: Time, events: seq<Event>, key: Key)
    requires Empty(s) && events != [] && SetsSecond(s, events[|events| - 1], key) && events[|events| - 1].call.ttl <= 0
    ensures !NothingOlder(s, l1MaxTTL, events, key, LastLimit(events) + Allowance(l1MaxTTL) + 1, Fails, Works)
  {
    var before, e := events[..|events| - 1], events[|events| - 1];
    var now := LastLimit(events) + Allowance(l1MaxTTL) + 1;
    RunKeepsLayers(s, l1MaxTTL, before);
    WithoutPositiveTTLNothingExpires(Run(s, l1MaxTTL, before), l1MaxTTL, e, now);
    forall i: nat | i < |events| && events[i].call.Set? ensures events[i].now + events[i].call.ttl < now - Allowance(l1MaxTTL) {
      LimitsAreBounded(events, i);
    }
  }

  /** Every Get at every point of a run meets that bound exactly when no Set of the key reaches the second layer with a ttl
      that is not positive. */
  lemma {:induction false} AgeIsBoundedExactlyWhen(s: Layers, l1MaxTTL: Time, events: seq<Event>, key: Key)
    requires Empty(s)
    ensures (forall n, now, f1, f2 :: 0 <= n <= |events| ==> NothingOlder(s, l1MaxTTL, events[..n], key, now, f1, f2))
       <==> PositiveTTLs(s, events, key)
  {
    if PositiveTTLs(s, events, key) {
      forall n, now, f1, f2 | 0 <= n <= |events| ensures NothingOlder(s, l1MaxTTL, events[..n], key, now, f1, f2) {
        NothingOlderIsReturned(s, l1MaxTTL, events[..n], key, now, f1, f2);
      }
    } else {
      var i: nat :| i < |events| && SetsSecond(s, events[i], key) && events[i].call.ttl <= 0;
      var upTo := events[..i + 1];
      OlderAfterASetThatStays(s, l1MaxTTL, upTo, key);
      assert !NothingOlder(s, l1MaxTTL, events[..i + 1], key, LastLimit(upTo) + Allowance(l1MaxTTL) + 1, Fails, Works);
    }
  }

  function At(call: Call, now: Time): Event {
    Event(call, now, Works, Works, Works)
  }

  /** The bound is reached without any failure: invalidate the first layer, read at the end of the ttl, and the
      backfilled value is still returned a whole first-layer maximum later. */
  lemma {:induction false} TheBoundIsReached(key: Key, value: Value, ttl: Time, l1MaxTTL: Time, start: Time)
    requires ttl > 0 && l1MaxTTL > 0
    ensures var s := Layers(Some(map[]), Some(map[]));
            var events := [At(Set(key, value, ttl), start), At(InvalidateL1(key), start), At(Get(key), start + ttl)];
            GetReply(Run(s, l1MaxTTL, events), key, start + ttl + l1MaxTTL, Works, Works) == Success(value)
  {
    var s := Layers(Some(map[]), Some(map[]));
    var first, second, third := At(Set(key, value, ttl), start), At(InvalidateL1(key), start), At(Get(key), start + ttl);
    var one, two, three := [first], [first, second], [first, second, third];
    assert one[..0] == [] && two[..1] == one && three[..2] == two;
    assert Run(s, l1MaxTTL, one) == After(s, l1MaxTTL, first);
    assert Run(s, l1MaxTTL, two) == After(Run(s, l1MaxTTL, one), l1MaxTTL, second);
    assert Run(s, l1MaxTTL, three) == After(Run(s, l1MaxTTL, two), l1MaxTTL, third);
  }

  // ---------------------------------------------------------------------
  // Without failures: always the latest value
  // ---------------------------------------------------------------------

  /** The latest value of each key that was not deleted since. */
  function Latest(events: seq<Event>): map<Key, Value> {
    if events == [] then map[]
    else
      var before, e := Latest(events[..|events| - 1]), events[|events| - 1];
      match e.call
      case Set(key, value, _) => before[key := value]
      case Delete(key) => before - {key}
      case _ => before
  }

  /** No write or delete failed to reach a layer; reads and backfills may fail. */
  ghost predicate WritesReachBoth(events: seq<Event>) {
    forall i :: 0 <= i < |events| && (events[i].call.Set? || events[i].call.Delete?) ==> events[i].f1 != Fails && events[i].f2 != Fails
  }

  ghost predicate HoldsOnlyLatest(entries: Option<Entries>, latest: map<Key, Value>) {
    entries.Some? ==> forall k :: k in entries.value ==> k in latest && entries.value[k].value == latest[k]
  }

  lemma {:induction false} RunHoldsOnlyLatest(s: Layers, l1MaxTTL: Time, events: seq<Event>)
    requires Empty(s) && WritesReachBoth(events)
    ensures HoldsOnlyLatest(Run(s, l1MaxTTL, events).l1, Latest(events))
    ensures HoldsOnlyLatest(Run(s, l1MaxTTL, events).l2, Latest(events))
  {
    if events == [] {
    } else {
      RunHoldsOnlyLatest(s, l1MaxTTL, events[..|events| - 1]);
    }
  }

  /** As long as every Set and Delete reaches both layers, a hit is the value of the latest Set since the last Delete,
      whatever is evicted, invalidated or cannot be read. */
  lemma {:induction false} HitIsLatest(s: Layers, l1MaxTTL: Time, events: seq<Event>, key: Key, now: Time, f1: Fault, f2: Fault)
    requires Empty(s) && WritesReachBoth(events)
    ensures var r := GetReply(Run(s, l1MaxTTL, events), key, now, f1, f2);
            r.Success? ==> key in Latest(events) && r.value == Latest(events)[key]
  {
    RunHoldsOnlyLatest(s, l1MaxTTL, events);
  }

  // ---------------------------------------------------------------------
  // With failures: how long an old value can be seen
  // ---------------------------------------------------------------------

  ghost predicate InOrder(events: seq<Event>) {
    forall i, j :: 0 <= i <= j < |events| ==> events[i].now <= events[j].now
  }

  /** No first-layer entry outlives the maximum, counted from now. */
  ghost predicate ShortLived(s: Layers, l1MaxTTL: Time, now: Time) {
    s.l1.Some? ==> forall k :: k in s.l1.value ==>
                     s.l1.value[k].deadline.Some? && s.l1.value[k].deadline.value <= now + Allowance(l1MaxTTL)
  }

  lemma {:induction false} RunIsShortLived(s: Layers, l1MaxTTL: Time, events: seq<Event>, now: Time)
    requires Empty(s) && InOrder(events)
    requires forall i :: 0 <= i < |events| ==> events[i].now <= now
    ensures ShortLived(Run(s, l1MaxTTL, events), l1MaxTTL, now)
  {
    if events == [] {
    } else {
      RunIsShortLived(s, l1MaxTTL, events[..|events| - 1], events[|events| - 1].now);
    }
  }

  /** The event is a Set or Delete of another key, or neither. */
  predicate LeavesAlone(e: Event, key: Key) {
    match e.call
    case Set(k, _, _) => k != key
    case Delete(k) => k != key
    case _ => true
  }

  /** The second layer has nothing but the target for the key, and the first nothing else for long. */
  ghost predicate Settles(s: Layers, key: Key, target: Option<Value>, until: Time) {
    && s.l2.Some?
    && (key in s.l2.value ==> target == Some(s.l2.value[key].value))
    && (s.l1.Some? && key in s.l1.value && target != Some(s.l1.value[key].value) ==>
          s.l1.value[key].deadline.Some? && s.l1.value[key].deadline.value <= until)
  }

  lemma {:induction false} RunStaysSettled(s: Layers, l1MaxTTL: Time, events: seq<Event>, key: Key, target: Option<Value>, until: Time)
    requires Settles(s, key, target, until)
    requires forall i :: 0 <= i < |events| ==> LeavesAlone(events[i], key)
    ensures Settles(Run(s, l1MaxTTL, events), key, target, until)
  {
    if events == [] {
    } else {
      RunStaysSettled(s, l1MaxTTL, events[..|events| - 1], key, target, until);
    }
  }

  /** What a Set or Delete leaves for its key in a layer it reaches. */
  function Target(write: Event): Option<Value>
    requires write.call.Set? || write.call.Delete?
  {
    if write.call.Set? then Some(write.call.value) else None
  }

  /** Once a Set or Delete has reached the second layer, later than the first layer's maximum after it no other value is
      returned for its key, even if it never reached the first layer and whatever else fails. */
  lemma {:induction false} OldValuesAreGoneAfterTheMaximum(s: Layers, l1MaxTTL: Time, before: seq<Event>, write: Event,
                                                           after: seq<Event>, key: Key, now: Time, f1: Fault, f2: Fault)
    requires Empty(s) && s.l2.Some? && InOrder(before + [write])
    requires (write.call.Set? || write.call.Delete?) && write.call.key == key && write.f2 != Fails
    requires forall i :: 0 <= i < |after| ==> LeavesAlone(after[i], key)
    requires now > write.now + Allowance(l1MaxTTL)
    ensures var r := GetReply(Run(After(Run(s, l1MaxTTL, before), l1MaxTTL, write), l1MaxTTL, after), key, now, f1, f2);
            r.Success? ==> Target(write) == Some(r.value)
  {
    var written := After(Run(s, l1MaxTTL, before), l1MaxTTL, write);
    forall i, j | 0 <= i <= j < |before| ensures before[i].now <= before[j].now {
      assert (before + [write])[i].now <= (before + [write])[j].now;
    }
    forall i | 0 <= i < |before| ensures before[i].now <= write.now {
      assert (before + [write])[i].now <= (before + [write])[|before|].now;
    }
    RunIsShortLived(s, l1MaxTTL, before, write.now);
    RunKeepsLayers(s, l1MaxTTL, before);
    RunStaysSettled(written, l1MaxTTL, after, key, Target(write), write.now + Allowance(l1MaxTTL));
  }

  lemma {:induction false} RunKeepsLayers(s: Layers, l1MaxTTL: Time, events: seq<Event>)
    ensures Run(s, l1MaxTTL, events).l1.Some? <==> s.l1.Some?
    ensures Run(s, l1MaxTTL, events).l2.Some? <==> s.l2.Some?
  {
    if events == [] {
    } else {
      RunKeepsLayers(s, l1MaxTTL, events[..|events| - 1]);
    }
  }

  /** What a readable first layer answers for the key of a Set after it. */
  function FirstAnswer(s: Layers, l1MaxTTL: Time, write: Event, now: Time): Option<Value>
    requires write.call.Set?
  {
    if s.l1.None? then None
    else if write.f1 == Fails then Live(s.l1.value, write.call.key, now)
    else if now - write.now <= write.call.ttl && now - write.now <= l1MaxTTL then Some(write.call.value) else None
  }

  /** A readable second layer does not answer with the value of a Set after it: there is none, or the Set did not reach it
      and it holds no such value, or its ttl is over. */
  predicate SecondMisses(s: Layers, write: Event, now: Time)
    requires write.call.Set?
  {
    || s.l2.None?
    || if write.f2 == Fails then Live(s.l2.value, write.call.key, now) != Some(write.call.value)
       else 0 < write.call.ttl < now - write.now
  }

  /** Whichever layers there are, whatever failed and whatever the ttl: the next Get does not answer with what a Set stored
      exactly when a first layer answers with something else, or has no answer and the second misses. */
  lemma {:induction false} NextGetMissesTheSetExactlyWhen(s: Layers, l1MaxTTL: Time, write: Event, now: Time)
    requires write.call.Set?
    ensures var first := FirstAnswer(s, l1MaxTTL, write, now);
            GetReply(After(s, l1MaxTTL, write), write.call.key, now, Works, Works) != Success(write.call.value) <==>
              if first.Some? then first != Some(write.call.value) else SecondMisses(s, write, now)
  {
  }

  /** Without a first layer there is no second either or it failed; a first layer that failed is alone or hides what reached
      the second behind its old value; one that did not fail let a negative ttl lapse, and the second did not get the value. */
  predicate LosesSilently(s: Layers, l1MaxTTL: Time, write: Event)
    requires write.call.Set?
  {
    if s.l1.None? then s.l2.None? || write.f2 == Fails
    else if write.f1 == Fails then s.l2.None? || (write.f2 == Works && Live(s.l1.value, write.call.key, write.now).Some?)
    else (write.call.ttl < 0 || l1MaxTTL < 0) && (s.l2.None? || (write.f1 == Works && write.f2 == Fails))
  }

  /** A Set of a value that is new to both layers reports success although a Get at once does not find it exactly so. */
  lemma {:induction false} SuccessIsLostExactlyWhen(s: Layers, l1MaxTTL: Time, write: Event)
    requires write.call.Set?
    requires s.l1.Some? ==> Live(s.l1.value, write.call.key, write.now) != Some(write.call.value)
    requires s.l2.Some? ==> Live(s.l2.value, write.call.key, write.now) != Some(write.call.value)
    ensures SetReply(s, write.f1, write.f2) == None
            && GetReply(After(s, l1MaxTTL, write), write.call.key, write.now, Works, Works) != Success(write.call.value)
       <==> LosesSilently(s, l1MaxTTL, write)
  {
    NextGetMissesTheSetExactlyWhen(s, l1MaxTTL, write, write.now);
  }

  /** With the second layer alone, a Set that fails reports success and nothing is stored. */
  lemma {:induction false} ASingleLayerLosesSilently(l1MaxTTL: Time, write: Event, now: Time)
    requires write.call.Set? && write.f2 == Fails
    ensures var s := Layers(None, Some(map[]));
            && SetReply(s, write.f1, write.f2) == None
            && GetReply(After(s, l1MaxTTL, write), write.call.key, now, Works, Works) == Failure(NotFound)
  {
  }

  /** A Set that reached only the first layer reports success and is read back, until the first layer drops it and the
      value before it comes back. */
  lemma {:induction false} AnOldValueCanComeBack(s: Layers, l1MaxTTL: Time, write: Event, previous: Value, now: Time, later: Time)
    requires s.l1.Some? && s.l2.Some? && write.call.Set? && write.f1 == Works && write.f2 == Fails
    requires now == write.now && write.call.ttl >= 0 && l1MaxTTL >= 0 && later > now + l1MaxTTL
    requires Live(s.l2.value, write.call.key, later) == Some(previous)
    ensures var written := After(s, l1MaxTTL, write);
            && SetReply(s, write.f1, write.f2) == None
            && GetReply(written, write.call.key, now, Works, Works) == Success(write.call.value)
            && GetReply(written, write.call.key, later, Works, Works) == Success(previous)
  {
  }
}
