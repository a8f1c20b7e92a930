/** What overlapping calls of the layered cache do (internal/platform/cache/layered.go:69-169): every access to a layer is a
    step of its own, so that a Get can backfill what it read from the second layer after other calls have gone by. */
module OverlappingLayers {
  import opened Wrappers
  import opened LayeredCaches

  /** One access to a layer, at the time its clock reads, and how it goes. A number names a Get that the first layer did not
      answer. */
  datatype Access =
    | Fetch(id: nat, key: Key, now: Time, f: Fault)
    | Backfill(id: nat, now: Time, f: Fault)
    | Put1(key: Key, value: Value, ttl: Time, now: Time, f: Fault)
    | Put2(key: Key, value: Value, ttl: Time, now: Time, f: Fault)
    | Drop1(key: Key, now: Time, f: Fault)
    | Drop2(key: Key, now: Time, f: Fault)
    | Lost(first: set<Key>, second: set<Key>, now: Time)

  /** What a Get has read from the second layer, and when. */
  datatype Pending = Pending(key: Key, value: Value, since: Time)

  datatype System = System(layers: Layers, pending: map<nat, Pending>)

  function Step(s: System, l1MaxTTL: Time, a: Access): System {
    var l1, l2 := s.layers.l1, s.layers.l2;
    match a
    case Fetch(id, key, now, f) =>
      if id in s.pending || Hit2(s.layers, key, now, f).None? then s
      else s.(pending := s.pending[id := Pending(key, Hit2(s.layers, key, now, f).value, now)])
    case Backfill(id, now, f) =>
      if id !in s.pending then s
      else
        var p := s.pending[id];
        System(Layers(Write(l1, 1, p.key, p.value, l1MaxTTL, now, f), l2), s.pending - {id})
    case Put1(key, value, ttl, now, f) =>
      s.(layers := Layers(Write(l1, 1, key, value, if ttl > l1MaxTTL then l1MaxTTL else ttl, now, f), l2))
    case Put2(key, value, ttl, now, f) => s.(layers := Layers(l1, Write(l2, 2, key, value, ttl, now, f)))
    case Drop1(key, _, f) => s.(layers := Layers(Erase(l1, {key}, f), l2))
    case Drop2(key, _, f) => s.(layers := Layers(l1, Erase(l2, {key}, f)))
    case Lost(first, second, _) => s.(layers := Layers(Erase(l1, first, Works), Erase(l2, second, Works)))
  }

  function Perform(s: System, l1MaxTTL: Time, accesses: seq<Access>): System {
    if accesses == [] then s
    else Step(Perform(s, l1MaxTTL, accesses[..|accesses| - 1]), l1MaxTTL, accesses[|accesses| - 1])
  }

  lemma {:induction false} PerformOneMore(s: System, l1MaxTTL: Time, accesses: seq<Access>, a: Access)
    ensures Perform(s, l1MaxTTL, accesses + [a]) == Step(Perform(s, l1MaxTTL, accesses), l1MaxTTL, a)
  {
    assert (accesses + [a])[..|accesses|] == accesses;
  }

  /** A Get that reads either layer at this time is answered with this value. */
  predicate Readable(s: Layers, key: Key, value: Value, now: Time) {
    Hit1(s, key, now, Works) == Some(value) || Hit2(s, key, now, Works) == Some(value)
  }

  // ---------------------------------------------------------------------
  // Whole calls
  // ---------------------------------------------------------------------

  /** The accesses of a call. */
  function AccessesOf(s: Layers, e: Event): seq<Access> {
    match e.call
    case Get(key) => if Hit1(s, key, e.now, e.f1).Some? then [] else [Fetch(0, key, e.now, e.f2), Backfill(0, e.now, e.backfill)]
    case Set(key, value, ttl) => [Put1(key, value, ttl, e.now, e.f1), Put2(key, value, ttl, e.now, e.f2)]
    case Delete(key) => [Drop1(key, e.now, e.f1), Drop2(key, e.now, e.f2)]
    case InvalidateL1(key) => [Drop1(key, e.now, e.f1)]
    case Lose(first, second) => [Lost(first, second, e.now)]
  }

  lemma {:induction false} TwoAccesses(s: System, l1MaxTTL: Time, a: Access, b: Access)
    ensures Perform(s, l1MaxTTL, [a]) == Step(s, l1MaxTTL, a)
    ensures Perform(s, l1MaxTTL, [a, b]) == Step(Step(s, l1MaxTTL, a), l1MaxTTL, b)
  {
    assert [a][..0] == [] && [a, b][..1] == [a];
  }

  /** A call whose accesses are not interrupted does what it does as a whole. */
  lemma {:induction false} WholeCallsAreAccesses(s: Layers, l1MaxTTL: Time, e: Event)
    ensures Perform(System(s, map[]), l1MaxTTL, AccessesOf(s, e)) == System(After(s, l1MaxTTL, e), map[])
  {
    var start, accesses := System(s, map[]), AccessesOf(s, e);
    if |accesses| == 2 {
      TwoAccesses(start, l1MaxTTL, accesses[0], accesses[1]);
      assert accesses == [accesses[0], accesses[1]];
      assert map[0 := Pending(Key.Key(""), 0, 0)] - {0} == map[];
    } else if |accesses| == 1 {
      TwoAccesses(start, l1MaxTTL, accesses[0], accesses[0]);
    }
  }

  // ---------------------------------------------------------------------
  // How old a value can be
  // ---------------------------------------------------------------------

  predicate IsPut(a: Access, key: Key, value: Value) {
    (a.Put1? || a.Put2?) && a.key == key && a.value == value
  }

  /** Some write of this key and value lasts until the limit. */
  ghost predicate Lasts(accesses: seq<Access>, key: Key, value: Value, limit: Time) {
    exists i :: 0 <= i < |accesses| && IsPut(accesses[i], key, value) && limit <= accesses[i].now + accesses[i].ttl
  }

  /** Every backfill comes at most so long after the fetch. */
  ghost predicate Prompt(s: System, l1MaxTTL: Time, accesses: seq<Access>, delay: Time) {
    forall i :: 0 <= i < |accesses| ==> PromptAt(Perform(s, l1MaxTTL, accesses[..i]), accesses[i], delay)
  }

  predicate PromptAt(s: System, a: Access, delay: Time) {
    a.Backfill? && a.id in s.pending ==> a.now - s.pending[a.id].since <= delay
  }

  /** The writes of the key that reach a second layer have positive ttls. */
  ghost predicate PositivePuts(s: Layers, accesses: seq<Access>, key: Key) {
    forall i :: 0 <= i < |accesses| && accesses[i].Put2? && accesses[i].key == key && accesses[i].f != Fails && s.l2.Some? ==>
                  accesses[i].ttl > 0
  }

  /** What a layer holds for the key was written, and lasts no longer than that and the allowance. */
  ghost predicate EntryLasts(entries: Option<Entries>, key: Key, accesses: seq<Access>, allowance: Time) {
    entries.Some? && key in entries.value ==>
      var stored := entries.value[key];
      stored.deadline.Some? && Lasts(accesses, key, stored.value, stored.deadline.value - allowance)
  }

  /** What was fetched was still good then. */
  ghost predicate FetchedLasts(p: Pending, key: Key, accesses: seq<Access>) {
    p.key == key ==> Lasts(accesses, key, p.value, p.since)
  }

  ghost predicate AllLast(s: System, l1MaxTTL: Time, key: Key, accesses: seq<Access>, delay: Time) {
    && EntryLasts(s.layers.l1, key, accesses, Allowance(l1MaxTTL) + delay)
    && EntryLasts(s.layers.l2, key, accesses, 0)
    && forall id :: id in s.pending ==> FetchedLasts(s.pending[id], key, accesses)
  }

  lemma {:induction false} LastsLater(accesses: seq<Access>, a: Access, key: Key, value: Value, limit: Time, smaller: Time)
    requires Lasts(accesses, key, value, limit) && smaller <= limit
    ensures Lasts(accesses + [a], key, value, smaller)
  {
    var i :| 0 <= i < |accesses| && IsPut(accesses[i], key, value) && limit <= accesses[i].now + accesses[i].ttl;
    assert (accesses + [a])[i] == accesses[i];
  }

  lemma {:induction false} PutLasts(accesses: seq<Access>, a: Access, limit: Time)
    requires (a.Put1? || a.Put2?) && limit <= a.now + a.ttl
    ensures Lasts(accesses + [a], a.key, a.value, limit)
  {
    assert (accesses + [a])[|accesses|] == a;
  }

  lemma {:induction false} EntryLastsLater(entries: Option<Entries>, key: Key, accesses: seq<Access>, a: Access, allowance: Time)
    requires EntryLasts(entries, key, accesses, allowance)
    ensures EntryLasts(entries, key, accesses + [a], allowance)
  {
    if entries.Some? && key in entries.value {
      var limit := entries.value[key].deadline.value - allowance;
      LastsLater(accesses, a, key, entries.value[key].value, limit, limit);
    }
  }

  lemma {:induction false} StepKeepsFirst(s: System, l1MaxTTL: Time, key: Key, accesses: seq<Access>, a: Access, delay: Time)
    requires AllLast(s, l1MaxTTL, key, accesses, delay) && PromptAt(s, a, delay) && delay >= 0
    ensures EntryLasts(Step(s, l1MaxTTL, a).layers.l1, key, accesses + [a], Allowance(l1MaxTTL) + delay)
  {
    EntryLastsLater(s.layers.l1, key, accesses, a, Allowance(l1MaxTTL) + delay);
    if a.Put1? && a.key == key {
      PutLasts(accesses, a, a.now + (if a.ttl > l1MaxTTL then l1MaxTTL else a.ttl) - Allowance(l1MaxTTL) - delay);
    } else if a.Backfill? && a.id in s.pending && s.pending[a.id].key == key {
      var p := s.pending[a.id];
      assert FetchedLasts(p, key, accesses);
      LastsLater(accesses, a, key, p.value, p.since, a.now + l1MaxTTL - Allowance(l1MaxTTL) - delay);
    }
  }

  lemma {:induction false} StepKeepsSecond(s: System, l1MaxTTL: Time, key: Key, accesses: seq<Access>, a: Access)
    requires EntryLasts(s.layers.l2, key, accesses, 0)
    requires a.Put2? && a.key == key && a.f != Fails && s.layers.l2.Some? ==> a.ttl > 0
    ensures EntryLasts(Step(s, l1MaxTTL, a).layers.l2, key, accesses + [a], 0)
  {
    EntryLastsLater(s.layers.l2, key, accesses, a, 0);
    if a.Put2? && a.key == key {
      PutLasts(accesses, a, a.now + a.ttl);
    }
  }

  lemma {:induction false} StepKeepsFetched(s: System, l1MaxTTL: Time, key: Key, accesses: seq<Access>, a: Access, delay: Time, id: nat)
    requires AllLast(s, l1MaxTTL, key, accesses, delay) && id in Step(s, l1MaxTTL, a).pending
    ensures FetchedLasts(Step(s, l1MaxTTL, a).pending[id], key, accesses + [a])
  {
    if id in s.pending {
      assert FetchedLasts(s.pending[id], key, accesses);
      if s.pending[id].key == key {
        LastsLater(accesses, a, key, s.pending[id].value, s.pending[id].since, s.pending[id].since);
      }
    } else if a.key == key {
      var stored := s.layers.l2.value[key];
      LastsLater(accesses, a, key, stored.value, stored.deadline.value, a.now);
    }
  }

  lemma {:induction false} StepKeepsAllLast(s: System, l1MaxTTL: Time, key: Key, accesses: seq<Access>, a: Access, delay: Time)
    requires AllLast(s, l1MaxTTL, key, accesses, delay) && PromptAt(s, a, delay) && delay >= 0
    requires a.Put2? && a.key == key && a.f != Fails && s.layers.l2.Some? ==> a.ttl > 0
    ensures AllLast(Step(s, l1MaxTTL, a), l1MaxTTL, key, accesses + [a], delay)
  {
    StepKeepsFirst(s, l1MaxTTL, key, accesses, a, delay);
    StepKeepsSecond(s, l1MaxTTL, key, accesses, a);
    forall id | id in Step(s, l1MaxTTL, a).pending ensures FetchedLasts(Step(s, l1MaxTTL, a).pending[id], key, accesses + [a]) {
      StepKeepsFetched(s, l1MaxTTL, key, accesses, a, delay, id);
    }
  }

  lemma {:induction false} PromptPrefix(s: System, l1MaxTTL: Time, before: seq<Access>, a: Access, delay: Time)
    requires Prompt(s, l1MaxTTL, before + [a], delay)
    ensures Prompt(s, l1MaxTTL, before, delay) && PromptAt(Perform(s, l1MaxTTL, before), a, delay)
  {
    var all := before + [a];
    assert all[..|before|] == before && all[|before|] == a;
    forall i | 0 <= i < |before| ensures PromptAt(Perform(s, l1MaxTTL, before[..i]), before[i], delay) {
      assert all[..i] == before[..i] && all[i] == before[i];
    }
  }

  lemma {:induction false} LayersStay(s: System, l1MaxTTL: Time, accesses: seq<Access>)
    ensures Perform(s, l1MaxTTL, accesses).layers.l1.Some? <==> s.layers.l1.Some?
    ensures Perform(s, l1MaxTTL, accesses).layers.l2.Some? <==> s.layers.l2.Some?
  {
    if accesses == [] {
    } else {
      LayersStay(s, l1MaxTTL, accesses[..|accesses| - 1]);
    }
  }

  lemma {:induction false} RunKeepsAllLast(s: Layers, l1MaxTTL: Time, key: Key, accesses: seq<Access>, delay: Time)
    requires Empty(s) && PositivePuts(s, accesses, key) && delay >= 0
    requires Prompt(System(s, map[]), l1MaxTTL, accesses, delay)
    ensures AllLast(Perform(System(s, map[]), l1MaxTTL, accesses), l1MaxTTL, key, accesses, delay)
  {
    if accesses == [] {
    } else {
      var before, a := accesses[..|accesses| - 1], accesses[|accesses| - 1];
      assert before + [a] == accesses;
      PromptPrefix(System(s, map[]), l1MaxTTL, before, a, delay);
      LayersStay(System(s, map[]), l1MaxTTL, before);
      RunKeepsAllLast(s, l1MaxTTL, key, before, delay);
      StepKeepsAllLast(Perform(System(s, map[]), l1MaxTTL, before), l1MaxTTL, key, before, a, delay);
    }
  }

  /** However calls overlap, fail and lose entries: a value that can be read was written for its key, and no longer ago than
      its ttl, the first layer's maximum and the longest delay of a backfill together. */
  lemma {:induction false} NothingOlderThanTheDelay(s: Layers, l1MaxTTL: Time, accesses: seq<Access>, delay: Time, key: Key,
                                                    value: Value, now: Time)
    requires Empty(s) && PositivePuts(s, accesses, key) && delay >= 0
    requires Prompt(System(s, map[]), l1MaxTTL, accesses, delay)
    requires Readable(Perform(System(s, map[]), l1MaxTTL, accesses).layers, key, value, now)
    ensures Lasts(accesses, key, value, now - Allowance(l1MaxTTL) - delay)
  {
    RunKeepsAllLast(s, l1MaxTTL, key, accesses, delay);
    var end := Perform(System(s, map[]), l1MaxTTL, accesses).layers;
    var limit := if Hit1(end, key, now, Works) == Some(value) then end.l1.value[key].deadline.value - Allowance(l1MaxTTL) - delay
                 else end.l2.value[key].deadline.value;
    assert Lasts(accesses, key, value, limit);
    var i :| 0 <= i < |accesses| && IsPut(accesses[i], key, value) && limit <= accesses[i].now + accesses[i].ttl;
  }

  // ---------------------------------------------------------------------
  // How long an old value can be seen
  // ---------------------------------------------------------------------

  ghost predicate AllBy(accesses: seq<Access>, now: Time) {
    forall i :: 0 <= i < |accesses| ==> accesses[i].now <= now
  }

  /** What the first layer holds for the key does not outlive the maximum, nor was anything fetched later than now. */
  ghost predicate Short(s: System, l1MaxTTL: Time, key: Key, now: Time) {
    && (s.layers.l1.Some? && key in s.layers.l1.value ==>
          var stored := s.layers.l1.value[key];
          stored.deadline.Some? && stored.deadline.value <= now + Allowance(l1MaxTTL))
    && forall id :: id in s.pending ==> s.pending[id].since <= now
  }

  lemma {:induction false} RunIsShort(s: Layers, l1MaxTTL: Time, key: Key, accesses: seq<Access>, now: Time)
    requires Empty(s) && AllBy(accesses, now)
    ensures Short(Perform(System(s, map[]), l1MaxTTL, accesses), l1MaxTTL, key, now)
  {
    if accesses == [] {
    } else {
      var before, a := accesses[..|accesses| - 1], accesses[|accesses| - 1];
      RunIsShort(s, l1MaxTTL, key, before, now);
      StepIsShort(Perform(System(s, map[]), l1MaxTTL, before), l1MaxTTL, key, a, now);
    }
  }

  lemma {:induction false} StepIsShort(s: System, l1MaxTTL: Time, key: Key, a: Access, now: Time)
    requires Short(s, l1MaxTTL, key, now) && a.now <= now
    ensures Short(Step(s, l1MaxTTL, a), l1MaxTTL, key, now)
  {
  }

  /** The access writes nothing else for the key. */
  predicate WritesOnly(a: Access, key: Key, target: Option<Value>) {
    (a.Put1? || a.Put2?) && a.key == key ==> Some(a.value) == target
  }

  /** The second layer has nothing but the target for the key, the first nothing else for long, and what else was fetched was
      fetched by some time. */
  ghost predicate Settling(s: System, key: Key, target: Option<Value>, from: Time, until: Time) {
    && (s.layers.l2.Some? && key in s.layers.l2.value ==> target == Some(s.layers.l2.value[key].value))
    && (s.layers.l1.Some? && key in s.layers.l1.value && target != Some(s.layers.l1.value[key].value) ==>
          var stored := s.layers.l1.value[key];
          stored.deadline.Some? && stored.deadline.value <= until)
    && forall id :: id in s.pending && s.pending[id].key == key && Some(s.pending[id].value) != target ==> s.pending[id].since <= from
  }

  lemma {:induction false} StepKeepsSettling(s: System, l1MaxTTL: Time, a: Access, key: Key, target: Option<Value>, from: Time,
                                             delay: Time, until: Time)
    requires Settling(s, key, target, from, until) && WritesOnly(a, key, target) && PromptAt(s, a, delay)
    requires until == from + delay + Allowance(l1MaxTTL)
    ensures Settling(Step(s, l1MaxTTL, a), key, target, from, until)
  {
  }

  lemma {:induction false} RunKeepsSettling(s: System, l1MaxTTL: Time, accesses: seq<Access>, key: Key, target: Option<Value>,
                                            from: Time, delay: Time, until: Time)
    requires Settling(s, key, target, from, until) && Prompt(s, l1MaxTTL, accesses, delay)
    requires until == from + delay + Allowance(l1MaxTTL)
    requires forall i :: 0 <= i < |accesses| ==> WritesOnly(accesses[i], key, target)
    ensures Settling(Perform(s, l1MaxTTL, accesses), key, target, from, until)
  {
    if accesses == [] {
    } else {
      var before, a := accesses[..|accesses| - 1], accesses[|accesses| - 1];
      assert before + [a] == accesses;
      PromptPrefix(s, l1MaxTTL, before, a, delay);
      RunKeepsSettling(s, l1MaxTTL, before, key, target, from, delay, until);
      StepKeepsSettling(Perform(s, l1MaxTTL, before), l1MaxTTL, a, key, target, from, delay, until);
    }
  }

  function TargetOf(a: Access): Option<Value>
    requires a.Put2? || a.Drop2?
  {
    if a.Put2? then Some(a.value) else None
  }

  /** Once a write or delete has reached the second layer, no other value of its key can be read later than the first layer's
      maximum and the longest delay of a backfill after it, however calls overlap and whatever fails. */
  lemma {:induction false} OldValuesAreGoneAfterTheDelay(s: Layers, l1MaxTTL: Time, before: seq<Access>, a: Access, after: seq<Access>,
                                                         delay: Time, value: Value, now: Time)
    requires Empty(s) && delay >= 0 && (a.Put2? || a.Drop2?) && a.f != Fails && AllBy(before, a.now)
    requires var written := Step(Perform(System(s, map[]), l1MaxTTL, before), l1MaxTTL, a);
             && Prompt(written, l1MaxTTL, after, delay)
             && Readable(Perform(written, l1MaxTTL, after).layers, a.key, value, now)
    requires forall i :: 0 <= i < |after| ==> WritesOnly(after[i], a.key, TargetOf(a))
    ensures TargetOf(a) == Some(value) || now <= a.now + delay + Allowance(l1MaxTTL)
  {
    var written := Step(Perform(System(s, map[]), l1MaxTTL, before), l1MaxTTL, a);
    RunIsShort(s, l1MaxTTL, a.key, before, a.now);
    StepIsShort(Perform(System(s, map[]), l1MaxTTL, before), l1MaxTTL, a.key, a, a.now);
    RunKeepsSettling(written, l1MaxTTL, after, a.key, TargetOf(a), a.now, delay, a.now + delay + Allowance(l1MaxTTL));
  }

  /** Without any failure a Get that fetched before a Set backfills after it, and the old value is read for as long as both
      bounds allow, although the Set has long reached both layers. */
  lemma {:induction false} ABackfillOutlivesASet(key: Key, older: Value, newer: Value, ttl: Time, l1MaxTTL: Time, start: Time,
                                                 delay: Time, fetched: Time)
    requires older != newer && ttl > 0 && l1MaxTTL > 0 && delay >= 0 && fetched == start + ttl
    ensures var s := System(Layers(Some(map[]), Some(map[])), map[]);
            var before := [Put2(key, older, ttl, start, Works)] + [Fetch(0, key, fetched, Works)] + [Put1(key, newer, ttl, fetched, Works)];
            var all := before + [Put2(key, newer, ttl, fetched, Works)] + [Backfill(0, fetched + delay, Works)];
            var end := Perform(s, l1MaxTTL, all).layers;
            && Prompt(s, l1MaxTTL, all, delay)
            && Hit1(end, key, fetched + delay + l1MaxTTL, Works) == Some(older)
            && Hit2(end, key, fetched + ttl, Works) == Some(newer)
  {
    var s := System(Layers(Some(map[]), Some(map[])), map[]);
    var a, b, c := Put2(key, older, ttl, start, Works), Fetch(0, key, fetched, Works), Put1(key, newer, ttl, fetched, Works);
    var write, fill := Put2(key, newer, ttl, fetched, Works), Backfill(0, fetched + delay, Works);
    var two, three, four := [a] + [b], [a] + [b] + [c], [a] + [b] + [c] + [write];
    TwoAccesses(s, l1MaxTTL, a, b);
    PerformOneMore(s, l1MaxTTL, [a], b);
    PerformOneMore(s, l1MaxTTL, two, c);
    PerformOneMore(s, l1MaxTTL, three, write);
    PerformOneMore(s, l1MaxTTL, four, fill);
    assert Perform(s, l1MaxTTL, two).pending == map[0 := Pending(key, older, fetched)];
    assert Perform(s, l1MaxTTL, four).pending == map[0 := Pending(key, older, fetched)];
    var all := four + [fill];
    forall i | 0 <= i < |all| ensures PromptAt(Perform(s, l1MaxTTL, all[..i]), all[i], delay) {
      if i == 4 {
        assert all[..4] == four;
      }
    }
  }
}
