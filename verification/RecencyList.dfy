/** What internal/platform/cache/memory.go promises, as functions on a recency list (most recent first). */
module RecencyList {
  import opened Wrappers

  datatype Key = Key(text: string)
  type Value = int
  type Time = int

  datatype Entry = Entry(key: Key, value: Value, deadline: Time)

  datatype Op =
    | Get(key: Key)
    | Set(key: Key, value: Value, ttl: Time)
    | Delete(key: Key)
    | Cleanup

  /** An operation at the time its clock reads. */
  datatype Event = Event(op: Op, now: Time)

  predicate Has(list: seq<Entry>, key: Key) {
    exists i :: 0 <= i < |list| && list[i].key == key
  }

  ghost predicate NoDuplicates(list: seq<Entry>) {
    forall i, j :: 0 <= i < j < |list| ==> list[i].key != list[j].key
  }

  function Lookup(list: seq<Entry>, key: Key): Option<Entry> {
    if list == [] then None else if list[0].key == key then Some(list[0]) else Lookup(list[1..], key)
  }

  function Without(list: seq<Entry>, key: Key): seq<Entry> {
    if list == [] then [] else if list[0].key == key then Without(list[1..], key) else [list[0]] + Without(list[1..], key)
  }

  function Fresh(list: seq<Entry>, now: Time): seq<Entry> {
    if list == [] then [] else if now > list[0].deadline then Fresh(list[1..], now) else [list[0]] + Fresh(list[1..], now)
  }

  function AfterGet(list: seq<Entry>, key: Key, now: Time): seq<Entry> {
    match Lookup(list, key)
    case None => list
    case Some(e) => if now > e.deadline then Without(list, key) else [e] + Without(list, key)
  }

  function AfterSet(list: seq<Entry>, maxSize: nat, entry: Entry): seq<Entry> {
    var pushed := [entry] + Without(list, entry.key);
    if |pushed| > maxSize then pushed[..|pushed| - 1] else pushed
  }

  /** The list after one event of a cache that holds at most maxSize entries. */
  function After(list: seq<Entry>, maxSize: nat, e: Event): seq<Entry> {
    match e.op
    case Get(key) => AfterGet(list, key, e.now)
    case Set(key, value, ttl) => AfterSet(list, maxSize, Entry(key, value, e.now + ttl))
    case Delete(key) => Without(list, key)
    case Cleanup => Fresh(list, e.now)
  }

  /** What a Get at this point returns. */
  function Hit(list: seq<Entry>, key: Key, now: Time): Option<Value> {
    match Lookup(list, key)
    case None => None
    case Some(e) => if now > e.deadline then None else Some(e.value)
  }

  function Run(list: seq<Entry>, maxSize: nat, events: seq<Event>): seq<Entry>
    decreases |events|
  {
    if events == [] then list else Run(After(list, maxSize, events[0]), maxSize, events[1..])
  }

  // ---------------------------------------------------------------------
  // Sub-lists
  // ---------------------------------------------------------------------

  /** a is b with some entries left out, in the same order. */
  ghost predicate Sub(a: seq<Entry>, b: seq<Entry>) {
    a == [] || (b != [] && ((a[0] == b[0] && Sub(a[1..], b[1..])) || Sub(a, b[1..])))
  }

  lemma {:induction false} SubMembers(a: seq<Entry>, b: seq<Entry>)
    requires Sub(a, b)
    ensures |a| <= |b|
    ensures forall e :: e in a ==> e in b
  {
    if a == [] {
    } else {
      if a[0] == b[0] && Sub(a[1..], b[1..]) {
        SubMembers(a[1..], b[1..]);
        assert a == [a[0]] + a[1..];
      } else {
        SubMembers(a, b[1..]);
      }
    }
  }

  lemma {:induction false} SubReflexive(a: seq<Entry>)
    ensures Sub(a, a)
  {
    if a == [] {
    } else {
      SubReflexive(a[1..]);
    }
  }

  lemma {:induction false} WithoutIsSub(list: seq<Entry>, key: Key)
    ensures Sub(Without(list, key), list)
    ensures !Has(Without(list, key), key)
    ensures !Has(list, key) ==> Without(list, key) == list
  {
    if list == [] {
    } else {
      WithoutIsSub(list[1..], key);
      var rest := Without(list[1..], key);
      assert Has(list, key) <==> list[0].key == key || Has(list[1..], key) by {
        HasSplit(list, key);
      }
      if list[0].key != key {
        assert Without(list, key)[1..] == rest;
        HasSplit(Without(list, key), key);
      } else if rest != [] {
        assert Sub(rest, list[1..]);
      }
    }
  }

  lemma {:induction false} HasSplit(list: seq<Entry>, key: Key)
    requires list != []
    ensures Has(list, key) <==> list[0].key == key || Has(list[1..], key)
  {
    if Has(list[1..], key) {
      var i :| 0 <= i < |list[1..]| && list[1..][i].key == key;
      assert list[i + 1].key == key;
    }
  }

  lemma {:induction false} SubWithout(a: seq<Entry>, b: seq<Entry>, key: Key)
    requires Sub(a, b)
    ensures Sub(Without(a, key), Without(b, key))
  {
    if a == [] {
    } else {
      if a[0] == b[0] && Sub(a[1..], b[1..]) {
        SubWithout(a[1..], b[1..], key);
        if a[0].key != key {
          assert Without(a, key)[1..] == Without(a[1..], key) && Without(b, key)[1..] == Without(b[1..], key);
        }
      } else {
        SubWithout(a, b[1..], key);
        if b[0].key != key {
          assert Without(b, key)[1..] == Without(b[1..], key);
        }
      }
    }
  }

  lemma {:induction false} SubFresh(a: seq<Entry>, b: seq<Entry>, now: Time)
    requires Sub(a, b)
    ensures Sub(Fresh(a, now), Fresh(b, now))
    ensures |a| - |Fresh(a, now)| <= |b| - |Fresh(b, now)|
  {
    if a == [] {
      FreshIsSub(b, now);
      SubMembers(Fresh(b, now), b);
    } else if a[0] == b[0] && Sub(a[1..], b[1..]) {
      SubFresh(a[1..], b[1..], now);
      if now <= a[0].deadline {
        assert Fresh(a, now)[1..] == Fresh(a[1..], now) && Fresh(b, now)[1..] == Fresh(b[1..], now);
      }
    } else {
      SubFresh(a, b[1..], now);
      if now <= b[0].deadline {
        assert Fresh(b, now)[1..] == Fresh(b[1..], now);
      }
    }
  }

  lemma {:induction false} FreshIsSub(list: seq<Entry>, now: Time)
    ensures Sub(Fresh(list, now), list)
    ensures forall e :: e in Fresh(list, now) <==> e in list && now <= e.deadline
  {
    if list == [] {
    } else {
      FreshIsSub(list[1..], now);
      if now <= list[0].deadline {
        assert Fresh(list, now)[1..] == Fresh(list[1..], now);
      }
    }
  }

  lemma {:induction false} SubDropLast(a: seq<Entry>, b: seq<Entry>)
    requires Sub(a, b) && a != []
    ensures b != []
    ensures Sub(a[..|a| - 1], b[..|b| - 1])
    ensures Sub(a[..|a| - 1], b)
  {
    var c, d := a[..|a| - 1], b[..|b| - 1];
    if a[0] == b[0] && Sub(a[1..], b[1..]) {
      if |a| > 1 {
        SubMembers(a[1..], b[1..]);
        SubDropLast(a[1..], b[1..]);
        assert c[1..] == a[1..][..|a| - 2] && d[1..] == b[1..][..|b| - 2];
      }
    } else {
      SubDropLast(a, b[1..]);
      assert d[1..] == b[1..][..|b| - 2];
    }
  }

  lemma {:induction false} DropLastIsSub(list: seq<Entry>)
    requires list != []
    ensures Sub(list[..|list| - 1], list)
  {
    SubReflexive(list);
    SubDropLast(list, list);
  }

  lemma {:induction false} SubNoDuplicates(a: seq<Entry>, b: seq<Entry>)
    requires Sub(a, b) && NoDuplicates(b)
    ensures NoDuplicates(a)
  {
    if a == [] {
    } else {
      if a[0] == b[0] && Sub(a[1..], b[1..]) {
        SubNoDuplicates(a[1..], b[1..]);
        SubMembers(a[1..], b[1..]);
        forall i | 0 < i < |a| ensures a[i].key != a[0].key {
          assert a[i] == a[1..][i - 1] && a[i] in b[1..];
        }
      } else {
        SubNoDuplicates(a, b[1..]);
      }
    }
  }

  // ---------------------------------------------------------------------
  // The shape of the list
  // ---------------------------------------------------------------------

  ghost predicate WellFormed(list: seq<Entry>, maxSize: nat) {
    maxSize > 0 && NoDuplicates(list) && |list| <= maxSize
  }

  lemma {:induction false} WithoutLength(list: seq<Entry>, key: Key)
    requires NoDuplicates(list)
    ensures |Without(list, key)| == |list| - if Has(list, key) then 1 else 0
  {
    if list == [] {
    } else {
      HasSplit(list, key);
      WithoutLength(list[1..], key);
      if list[0].key == key {
        assert !Has(list[1..], key);
      }
    }
  }

  lemma {:induction false} LookupMeaning(list: seq<Entry>, key: Key)
    ensures match Lookup(list, key)
            case None => !Has(list, key)
            case Some(e) => e.key == key && e in list && Has(list, key)
  {
    if list == [] {
    } else {
      HasSplit(list, key);
      LookupMeaning(list[1..], key);
    }
  }

  lemma {:induction false} LookupIsUnique(list: seq<Entry>, e: Entry)
    requires NoDuplicates(list) && e in list
    ensures Lookup(list, e.key) == Some(e)
  {
    LookupMeaning(list, e.key);
    var i :| 0 <= i < |list| && list[i] == e;
    assert Has(list, e.key);
    var f := Lookup(list, e.key).value;
    var j :| 0 <= j < |list| && list[j] == f;
  }

  lemma {:induction false} WithoutAt(list: seq<Entry>, at: nat)
    requires NoDuplicates(list) && at < |list|
    ensures Without(list, list[at].key) == list[..at] + list[at + 1..]
  {
    var key, rest := list[at].key, list[1..];
    if at == 0 {
      assert !Has(rest, key);
      WithoutIsSub(rest, key);
    } else {
      WithoutAt(rest, at - 1);
      assert list[..at] == [list[0]] + rest[..at - 1] && list[at + 1..] == rest[at..];
    }
  }

  /** What each operation does to the entry at some position: a Get returns its value and moves it to the front, or returns
      nothing and takes it out if it is past its deadline; a Set puts its own in front instead; a Delete takes it out. All
      other entries stay in their order. */
  lemma {:induction false} WhatHappensToAnEntry(list: seq<Entry>, maxSize: nat, at: nat, e: Entry, others: seq<Entry>,
                                                value: Value, ttl: Time, now: Time)
    requires WellFormed(list, maxSize) && at < |list| && e == list[at] && others == list[..at] + list[at + 1..]
    ensures now <= e.deadline ==> Hit(list, e.key, now) == Some(e.value)
                                  && After(list, maxSize, Event(Get(e.key), now)) == [e] + others
    ensures now > e.deadline ==> Hit(list, e.key, now) == None && After(list, maxSize, Event(Get(e.key), now)) == others
    ensures After(list, maxSize, Event(Set(e.key, value, ttl), now)) == [Entry(e.key, value, now + ttl)] + others
    ensures After(list, maxSize, Event(Delete(e.key), now)) == others
  {
    LookupIsUnique(list, e);
    WithoutAt(list, at);
  }

  /** What they do for a key that is not there: a Get and a Delete nothing, and a Set puts its entry in front, at the expense of
      the last one if the list is full. */
  lemma {:induction false} WhatHappensToAMissingKey(list: seq<Entry>, maxSize: nat, key: Key, value: Value, ttl: Time, now: Time)
    requires WellFormed(list, maxSize) && forall i :: 0 <= i < |list| ==> list[i].key != key
    ensures Hit(list, key, now) == None
    ensures After(list, maxSize, Event(Get(key), now)) == After(list, maxSize, Event(Delete(key), now)) == list
    ensures After(list, maxSize, Event(Set(key, value, ttl), now))
         == [Entry(key, value, now + ttl)] + if |list| < maxSize then list else list[..|list| - 1]
  {
    LookupMeaning(list, key);
    WithoutIsSub(list, key);
    assert Without(list, key) == list;
  }

  lemma {:induction false} WithoutIgnoresTheRemoved(a: seq<Entry>, b: seq<Entry>, at: nat)
    requires NoDuplicates(a) && NoDuplicates(b) && |a| == |b| && at < |a| && a[at].key == b[at].key
    requires forall i :: 0 <= i < |a| && i != at ==> a[i] == b[i]
    ensures Without(a, a[at].key) == Without(b, a[at].key)
  {
    WithoutAt(a, at);
    WithoutAt(b, at);
    assert a[..at] == b[..at] && a[at + 1..] == b[at + 1..];
  }

  lemma {:induction false} WithoutLast(list: seq<Entry>)
    requires NoDuplicates(list) && list != []
    ensures Without(list, list[|list| - 1].key) == list[..|list| - 1]
  {
    WithoutAt(list, |list| - 1);
  }

  /** The list without each of some keys in turn, as the loop of the cleanup leaves it. */
  function WithoutAll(list: seq<Entry>, keys: seq<Key>): seq<Entry> {
    if keys == [] then list else Without(WithoutAll(list, keys[..|keys| - 1]), keys[|keys| - 1])
  }

  lemma {:induction false} WithoutAllSplits(list: seq<Entry>, keys: seq<Key>)
    requires list != []
    ensures WithoutAll(list, keys) == (if list[0].key in keys then [] else [list[0]]) + WithoutAll(list[1..], keys)
  {
    if keys == [] {
      assert list == [list[0]] + list[1..];
    } else {
      var before, last := keys[..|keys| - 1], keys[|keys| - 1];
      var rest := WithoutAll(list[1..], before);
      assert keys == before + [last];
      WithoutAllSplits(list, before);
      assert ([list[0]] + rest)[1..] == rest && [] + rest == rest;
      assert [] + Without(rest, last) == Without(rest, last);
    }
  }

  lemma {:induction false} WithoutAllOfNothing(keys: seq<Key>)
    ensures WithoutAll([], keys) == []
  {
    if keys == [] {
    } else {
      WithoutAllOfNothing(keys[..|keys| - 1]);
    }
  }

  /** Removing the expired keys one by one, in whatever order, leaves the entries that are fresh. */
  lemma {:induction false} WithoutTheExpiredIsFresh(list: seq<Entry>, keys: seq<Key>, now: Time)
    requires forall i :: 0 <= i < |list| ==> (list[i].key in keys <==> now > list[i].deadline)
    ensures WithoutAll(list, keys) == Fresh(list, now)
  {
    if list == [] {
      WithoutAllOfNothing(keys);
    } else {
      WithoutAllSplits(list, keys);
      WithoutTheExpiredIsFresh(list[1..], keys, now);
    }
  }

  lemma {:induction false} PushIsWellFormed(list: seq<Entry>, e: Entry)
    requires NoDuplicates(list)
    ensures NoDuplicates([e] + Without(list, e.key))
  {
    WithoutIsSub(list, e.key);
    SubNoDuplicates(Without(list, e.key), list);
  }

  /** Every event keeps the keys distinct and the size within the bound. */
  lemma {:induction false} AfterIsWellFormed(list: seq<Entry>, maxSize: nat, e: Event)
    requires WellFormed(list, maxSize)
    ensures WellFormed(After(list, maxSize, e), maxSize)
  {
    match e.op {
      case Get(key) =>
        LookupMeaning(list, key);
        WithoutLength(list, key);
        WithoutIsSub(list, key);
        SubNoDuplicates(Without(list, key), list);
        if Lookup(list, key).Some? {
          PushIsWellFormed(list, Lookup(list, key).value);
        }
      case Set(key, value, ttl) =>
        var entry := Entry(key, value, e.now + ttl);
        PushIsWellFormed(list, entry);
        WithoutLength(list, key);
        DropLastIsSub([entry] + Without(list, key));
      case Delete(key) =>
        WithoutIsSub(list, key);
        WithoutLength(list, key);
        SubNoDuplicates(Without(list, key), list);
      case Cleanup =>
        FreshIsSub(list, e.now);
        SubMembers(Fresh(list, e.now), list);
        SubNoDuplicates(Fresh(list, e.now), list);
    }
  }

  lemma {:induction false} RunIsWellFormed(list: seq<Entry>, maxSize: nat, events: seq<Event>)
    requires WellFormed(list, maxSize)
    ensures WellFormed(Run(list, maxSize, events), maxSize)
    decreases |events|
  {
    if events == [] {
    } else {
      AfterIsWellFormed(list, maxSize, events[0]);
      RunIsWellFormed(After(list, maxSize, events[0]), maxSize, events[1..]);
    }
  }

  // ---------------------------------------------------------------------
  // A larger cache holds everything a smaller one holds
  // ---------------------------------------------------------------------

  ghost predicate Includes(small: seq<Entry>, m: nat, large: seq<Entry>, n: nat) {
    && m <= n && WellFormed(small, m) && WellFormed(large, n)
    && Sub(small, large) && |large| - |small| <= n - m
  }

  lemma {:induction false} PushKeepsSub(small: seq<Entry>, large: seq<Entry>, e: Entry)
    requires Sub(small, large)
    ensures Sub([e] + Without(small, e.key), [e] + Without(large, e.key))
  {
    SubWithout(small, large, e.key);
    var a, b := [e] + Without(small, e.key), [e] + Without(large, e.key);
    assert a[1..] == Without(small, e.key) && b[1..] == Without(large, e.key);
  }

  lemma {:induction false} SubHas(small: seq<Entry>, large: seq<Entry>, key: Key)
    requires Sub(small, large)
    ensures Has(small, key) ==> Has(large, key)
  {
    SubMembers(small, large);
    if Has(small, key) {
      var i :| 0 <= i < |small| && small[i].key == key;
      assert small[i] in large;
    }
  }

  lemma {:induction false} GetKeepsInclusion(small: seq<Entry>, m: nat, large: seq<Entry>, n: nat, key: Key, now: Time)
    requires Includes(small, m, large, n)
    ensures var a, b := AfterGet(small, key, now), AfterGet(large, key, now);
            Sub(a, b) && |b| - |a| <= n - m
  {
    LookupMeaning(small, key);
    LookupMeaning(large, key);
    SubHas(small, large, key);
    SubMembers(small, large);
    WithoutLength(small, key);
    WithoutLength(large, key);
    SubWithout(small, large, key);
    WithoutIsSub(small, key);
    if Has(small, key) {
      LookupIsUnique(large, Lookup(small, key).value);
      PushKeepsSub(small, large, Lookup(small, key).value);
    } else if Has(large, key) {
      var b := [Lookup(large, key).value] + Without(large, key);
      assert b[1..] == Without(large, key);
    }
  }

  lemma {:induction false} SetKeepsInclusion(small: seq<Entry>, m: nat, large: seq<Entry>, n: nat, e: Entry)
    requires Includes(small, m, large, n)
    ensures var a, b := AfterSet(small, m, e), AfterSet(large, n, e);
            Sub(a, b) && |b| - |a| <= n - m
  {
    var a, b := [e] + Without(small, e.key), [e] + Without(large, e.key);
    PushKeepsSub(small, large, e);
    SubDropLast(a, b);
    WithoutLength(small, e.key);
    WithoutLength(large, e.key);
    SubHas(small, large, e.key);
    SubMembers(small, large);
  }

  lemma {:induction false} EventKeepsInclusion(small: seq<Entry>, m: nat, large: seq<Entry>, n: nat, e: Event)
    requires Includes(small, m, large, n)
    ensures Includes(After(small, m, e), m, After(large, n, e), n)
  {
    AfterIsWellFormed(small, m, e);
    AfterIsWellFormed(large, n, e);
    match e.op {
      case Get(key) => GetKeepsInclusion(small, m, large, n, key, e.now);
      case Set(key, value, ttl) => SetKeepsInclusion(small, m, large, n, Entry(key, value, e.now + ttl));
      case Delete(key) =>
        SubWithout(small, large, key);
        SubHas(small, large, key);
        WithoutLength(small, key);
        WithoutLength(large, key);
      case Cleanup => SubFresh(small, large, e.now);
    }
  }

  lemma {:induction false} RunKeepsInclusion(small: seq<Entry>, m: nat, large: seq<Entry>, n: nat, events: seq<Event>)
    requires Includes(small, m, large, n)
    ensures Includes(Run(small, m, events), m, Run(large, n, events), n)
    decreases |events|
  {
    if events == [] {
    } else {
      EventKeepsInclusion(small, m, large, n, events[0]);
      RunKeepsInclusion(After(small, m, events[0]), m, After(large, n, events[0]), n, events[1..]);
    }
  }

  /** After the same events, every entry of a smaller cache is in a larger one, with the same value and deadline,
      and whatever hits in the smaller one hits in the larger one with the same value. */
  lemma {:induction false} LargerCacheIncludesSmaller(m: nat, n: nat, events: seq<Event>, key: Key, now: Time)
    requires 0 < m <= n
    ensures var small, large := Run([], m, events), Run([], n, events);
            && (forall e :: e in small ==> e in large)
            && (Hit(small, key, now).Some? ==> Hit(large, key, now) == Hit(small, key, now))
  {
    var small, large := Run([], m, events), Run([], n, events);
    RunKeepsInclusion([], m, [], n, events);
    SubMembers(small, large);
    LookupMeaning(small, key);
    if Lookup(small, key).Some? {
      LookupIsUnique(large, Lookup(small, key).value);
    }
  }

  // ---------------------------------------------------------------------
  // Agreement with a plain timed map
  // ---------------------------------------------------------------------

  /** The latest Set of each key that was not deleted since. */
  function Latest(events: seq<Event>): map<Key, Entry> {
    if events == [] then map[]
    else
      var before, e := Latest(events[..|events| - 1]), events[|events| - 1];
      match e.op
      case Set(key, value, ttl) => before[key := Entry(key, value, e.now + ttl)]
      case Delete(key) => before - {key}
      case _ => before
  }

  ghost predicate Agrees(list: seq<Entry>, latest: map<Key, Entry>) {
    forall e :: e in list ==> e.key in latest && latest[e.key] == e
  }

  lemma {:induction false} SubAgrees(a: seq<Entry>, b: seq<Entry>, latest: map<Key, Entry>)
    requires Sub(a, b) && Agrees(b, latest)
    ensures Agrees(a, latest)
  {
    SubMembers(a, b);
  }

  lemma {:induction false} RunAppend(list: seq<Entry>, maxSize: nat, events: seq<Event>, last: Event)
    ensures Run(list, maxSize, events + [last]) == After(Run(list, maxSize, events), maxSize, last)
    decreases |events|
  {
    var all := events + [last];
    if events == [] {
      assert all[1..] == [];
    } else {
      assert all[0] == events[0] && all[1..] == events[1..] + [last];
      RunAppend(After(list, maxSize, events[0]), maxSize, events[1..], last);
    }
  }

  lemma {:induction false} EventKeepsAgreement(list: seq<Entry>, maxSize: nat, before: seq<Event>, e: Event)
    requires WellFormed(list, maxSize) && Agrees(list, Latest(before))
    ensures Agrees(After(list, maxSize, e), Latest(before + [e]))
  {
    var latest := Latest(before + [e]);
    assert (before + [e])[..|before|] == before;
    match e.op {
      case Get(key) =>
        WithoutIsSub(list, key);
        LookupMeaning(list, key);
        SubAgrees(Without(list, key), list, latest);
      case Set(key, value, ttl) =>
        KeysSurvive(list, key, Latest(before), latest);
        var pushed := [Entry(key, value, e.now + ttl)] + Without(list, key);
        DropLastIsSub(pushed);
        SubAgrees(pushed[..|pushed| - 1], pushed, latest);
      case Delete(key) =>
        KeysSurvive(list, key, Latest(before), latest);
      case Cleanup =>
        FreshIsSub(list, e.now);
        SubAgrees(Fresh(list, e.now), list, latest);
    }
  }

  lemma {:induction false} KeysSurvive(list: seq<Entry>, key: Key, before: map<Key, Entry>, latest: map<Key, Entry>)
    requires Agrees(list, before)
    requires forall k :: k in before && k != key ==> k in latest && latest[k] == before[k]
    ensures Agrees(Without(list, key), latest)
  {
    WithoutIsSub(list, key);
    SubMembers(Without(list, key), list);
    forall e | e in Without(list, key) ensures e.key != key {
      var i :| 0 <= i < |Without(list, key)| && Without(list, key)[i] == e;
      assert !Has(Without(list, key), key);
    }
  }

  lemma {:induction false} RunAgrees(maxSize: nat, events: seq<Event>)
    requires maxSize > 0
    ensures Agrees(Run([], maxSize, events), Latest(events))
  {
    if events == [] {
    } else {
      var before, e := events[..|events| - 1], events[|events| - 1];
      assert before + [e] == events;
      RunAgrees(maxSize, before);
      RunIsWellFormed([], maxSize, before);
      RunAppend([], maxSize, before, e);
      EventKeepsAgreement(Run([], maxSize, before), maxSize, before, e);
    }
  }

  /** A hit is always the value of the latest Set of its key, not deleted since and not past its deadline. */
  lemma {:induction false} HitIsLatestSet(maxSize: nat, events: seq<Event>, key: Key, now: Time)
    requires maxSize > 0
    ensures var hit := Hit(Run([], maxSize, events), key, now);
            hit.Some? ==> key in Latest(events) && now <= Latest(events)[key].deadline && hit == Some(Latest(events)[key].value)
  {
    RunAgrees(maxSize, events);
    LookupMeaning(Run([], maxSize, events), key);
  }

  // ---------------------------------------------------------------------
  // Which entry is evicted
  // ---------------------------------------------------------------------

  /** Whether an event makes a key the most recently used: it is Set, or a Get of it hits. */
  predicate Touches(list: seq<Entry>, e: Event, key: Key) {
    match e.op
    case Get(k) => k == key && Hit(list, key, e.now).Some?
    case Set(k, _, _) => k == key
    case _ => false
  }

  /** The index of the last event that touched a key, counted from 1; 0 if none did. */
  ghost function LastTouch(maxSize: nat, events: seq<Event>, key: Key): nat {
    if events == [] then 0
    else
      var before := events[..|events| - 1];
      if Touches(Run([], maxSize, before), events[|events| - 1], key) then |events| else LastTouch(maxSize, before, key)
  }

  ghost predicate OrderedByTouch(list: seq<Entry>, maxSize: nat, events: seq<Event>) {
    forall i, j :: 0 <= i < j < |list| ==> LastTouch(maxSize, events, list[i].key) > LastTouch(maxSize, events, list[j].key)
  }

  lemma {:induction false} SubKeepsOrder(a: seq<Entry>, b: seq<Entry>, maxSize: nat, events: seq<Event>)
    requires Sub(a, b) && OrderedByTouch(b, maxSize, events)
    ensures OrderedByTouch(a, maxSize, events)
  {
    if a == [] {
    } else {
      if a[0] == b[0] && Sub(a[1..], b[1..]) {
        SubKeepsOrder(a[1..], b[1..], maxSize, events);
        SubMembers(a[1..], b[1..]);
        forall j | 0 < j < |a| ensures LastTouch(maxSize, events, a[0].key) > LastTouch(maxSize, events, a[j].key) {
          assert a[j] == a[1..][j - 1] && a[j] in b[1..];
        }
        assert a == [a[0]] + a[1..];
      } else {
        SubKeepsOrder(a, b[1..], maxSize, events);
      }
    }
  }

  lemma {:induction false} TouchIsBounded(maxSize: nat, events: seq<Event>, key: Key)
    ensures LastTouch(maxSize, events, key) <= |events|
  {
    if events == [] {
    } else {
      TouchIsBounded(maxSize, events[..|events| - 1], key);
    }
  }

  /** Entries whose keys an event does not touch keep their order. */
  lemma {:induction false} UntouchedKeepOrder(rest: seq<Entry>, list: seq<Entry>, maxSize: nat, before: seq<Event>, e: Event)
    requires Sub(rest, list) && OrderedByTouch(list, maxSize, before)
    requires forall x :: x in rest ==> !Touches(Run([], maxSize, before), e, x.key)
    ensures OrderedByTouch(rest, maxSize, before + [e])
    ensures forall x :: x in rest ==> LastTouch(maxSize, before + [e], x.key) <= |before|
  {
    assert (before + [e])[..|before|] == before;
    SubKeepsOrder(rest, list, maxSize, before);
    forall x | x in rest
      ensures LastTouch(maxSize, before + [e], x.key) == LastTouch(maxSize, before, x.key) <= |before| {
      TouchIsBounded(maxSize, before, x.key);
    }
    forall i, j | 0 <= i < j < |rest|
      ensures LastTouch(maxSize, before + [e], rest[i].key) > LastTouch(maxSize, before + [e], rest[j].key) {
      assert rest[i] in rest && rest[j] in rest;
    }
  }

  lemma {:induction false} NotInWithout(list: seq<Entry>, key: Key)
    ensures forall x :: x in Without(list, key) ==> x.key != key
  {
    WithoutIsSub(list, key);
    forall x | x in Without(list, key) ensures x.key != key {
      var i :| 0 <= i < |Without(list, key)| && Without(list, key)[i] == x;
    }
  }

  lemma {:induction false} PushKeepsOrder(first: Entry, rest: seq<Entry>, maxSize: nat, before: seq<Event>, e: Event)
    requires OrderedByTouch(rest, maxSize, before + [e])
    requires forall x :: x in rest ==> LastTouch(maxSize, before + [e], x.key) <= |before|
    requires Touches(Run([], maxSize, before), e, first.key)
    ensures OrderedByTouch([first] + rest, maxSize, before + [e])
  {
    assert (before + [e])[..|before|] == before;
    assert LastTouch(maxSize, before + [e], first.key) == |before| + 1;
    forall j | 0 < j < |[first] + rest|
      ensures LastTouch(maxSize, before + [e], first.key) > LastTouch(maxSize, before + [e], ([first] + rest)[j].key) {
      assert ([first] + rest)[j] == rest[j - 1] && rest[j - 1] in rest;
    }
  }

  lemma {:induction false} GetKeepsOrder(list: seq<Entry>, maxSize: nat, before: seq<Event>, key: Key, now: Time)
    requires list == Run([], maxSize, before) && OrderedByTouch(list, maxSize, before)
    ensures OrderedByTouch(AfterGet(list, key, now), maxSize, before + [Event(Get(key), now)])
  {
    var e := Event(Get(key), now);
    LookupMeaning(list, key);
    if Lookup(list, key).None? {
      SubReflexive(list);
      UntouchedKeepOrder(list, list, maxSize, before, e);
    } else {
      WithoutIsSub(list, key);
      NotInWithout(list, key);
      UntouchedKeepOrder(Without(list, key), list, maxSize, before, e);
      if now <= Lookup(list, key).value.deadline {
        PushKeepsOrder(Lookup(list, key).value, Without(list, key), maxSize, before, e);
      }
    }
  }

  lemma {:induction false} SetKeepsOrder(list: seq<Entry>, maxSize: nat, before: seq<Event>, e: Event, first: Entry)
    requires list == Run([], maxSize, before) && OrderedByTouch(list, maxSize, before)
    requires e.op.Set? && first == Entry(e.op.key, e.op.value, e.now + e.op.ttl)
    ensures OrderedByTouch(AfterSet(list, maxSize, first), maxSize, before + [e])
  {
    var rest := Without(list, first.key);
    var pushed := [first] + rest;
    assert OrderedByTouch(pushed, maxSize, before + [e]) by {
      WithoutIsSub(list, first.key);
      NotInWithout(list, first.key);
      UntouchedKeepOrder(rest, list, maxSize, before, e);
      PushKeepsOrder(first, rest, maxSize, before, e);
    }
    if |pushed| > maxSize {
      DropLastIsSub(pushed);
      SubKeepsOrder(pushed[..|pushed| - 1], pushed, maxSize, before + [e]);
    }
  }

  lemma {:induction false} EventKeepsOrder(list: seq<Entry>, maxSize: nat, before: seq<Event>, e: Event)
    requires list == Run([], maxSize, before) && OrderedByTouch(list, maxSize, before)
    ensures OrderedByTouch(After(list, maxSize, e), maxSize, before + [e])
  {
    match e.op {
      case Get(key) => GetKeepsOrder(list, maxSize, before, key, e.now);
      case Set(key, value, ttl) => SetKeepsOrder(list, maxSize, before, e, Entry(key, value, e.now + ttl));
      case Delete(key) =>
        WithoutIsSub(list, key);
        UntouchedKeepOrder(Without(list, key), list, maxSize, before, e);
      case Cleanup =>
        FreshIsSub(list, e.now);
        UntouchedKeepOrder(Fresh(list, e.now), list, maxSize, before, e);
    }
  }

  lemma {:induction false} RunIsOrdered(maxSize: nat, events: seq<Event>)
    ensures OrderedByTouch(Run([], maxSize, events), maxSize, events)
  {
    if events == [] {
    } else {
      var before, e := events[..|events| - 1], events[|events| - 1];
      assert before + [e] == events;
      RunIsOrdered(maxSize, before);
      RunAppend([], maxSize, before, e);
      EventKeepsOrder(Run([], maxSize, before), maxSize, before, e);
    }
  }

  /** A Set of a new key in a full cache removes exactly the least recently touched entry. */
  lemma {:induction false} EvictsLeastRecentlyTouched(maxSize: nat, events: seq<Event>, entry: Entry)
    requires maxSize > 0
    requires var list := Run([], maxSize, events); |list| == maxSize && !Has(list, entry.key)
    ensures var list := Run([], maxSize, events);
            var victim := list[maxSize - 1];
            && AfterSet(list, maxSize, entry) == [entry] + list[..maxSize - 1]
            && forall x :: x in list && x != victim ==>
                 LastTouch(maxSize, events, victim.key) < LastTouch(maxSize, events, x.key)
  {
    var list := Run([], maxSize, events);
    RunIsOrdered(maxSize, events);
    FullListPushesOut(list, maxSize, entry);
    TheLastIsTheOldest(list, maxSize, events);
  }

  lemma {:induction false} FullListPushesOut(list: seq<Entry>, maxSize: nat, entry: Entry)
    requires |list| == maxSize > 0 && !Has(list, entry.key)
    ensures AfterSet(list, maxSize, entry) == [entry] + list[..maxSize - 1]
  {
    WithoutIsSub(list, entry.key);
    assert ([entry] + list)[..maxSize] == [entry] + list[..maxSize - 1];
  }

  lemma {:induction false} TheLastIsTheOldest(list: seq<Entry>, maxSize: nat, events: seq<Event>)
    requires list != [] && OrderedByTouch(list, maxSize, events)
    ensures var last := list[|list| - 1];
            forall x :: x in list && x != last ==> LastTouch(maxSize, events, last.key) < LastTouch(maxSize, events, x.key)
  {
  }

  // ---------------------------------------------------------------------
  // What is certain to hit
  // ---------------------------------------------------------------------

  /** e is in the list, and only entries of the given keys are in front of it. */
  ghost predicate Near(list: seq<Entry>, e: Entry, keys: set<Key>) {
    list != [] && (list[0] == e || (list[0].key in keys && Near(list[1..], e, keys)))
  }

  lemma {:induction false} NearWithout(list: seq<Entry>, e: Entry, keys: set<Key>, key: Key)
    requires Near(list, e, keys) && key != e.key
    ensures Near(Without(list, key), e, keys)
  {
    if list[0] == e {
    } else {
      NearWithout(list[1..], e, keys, key);
    }
    if list[0].key != key {
      assert Without(list, key)[1..] == Without(list[1..], key);
    }
  }

  lemma {:induction false} NearFresh(list: seq<Entry>, e: Entry, keys: set<Key>, now: Time)
    requires Near(list, e, keys) && now <= e.deadline
    ensures Near(Fresh(list, now), e, keys)
  {
    if list[0] == e {
    } else {
      NearFresh(list[1..], e, keys, now);
    }
    if now <= list[0].deadline {
      assert Fresh(list, now)[1..] == Fresh(list[1..], now);
    }
  }

  lemma {:induction false} NearWeaken(list: seq<Entry>, e: Entry, keys: set<Key>, more: set<Key>)
    requires Near(list, e, keys)
    requires forall i :: 0 <= i < |list| && list[i].key in keys ==> list[i].key in more
    ensures Near(list, e, more)
  {
    if list[0] == e {
    } else {
      NearWeaken(list[1..], e, keys, more);
    }
  }

  lemma {:induction false} NearDropLast(list: seq<Entry>, e: Entry, keys: set<Key>)
    requires Near(list, e, keys) && NoDuplicates(list) && |list| > |keys| + 1
    ensures Near(list[..|list| - 1], e, keys)
  {
    var shorter := list[..|list| - 1];
    if list[0] == e {
    } else {
      var rest := keys - {list[0].key};
      NearWeaken(list[1..], e, keys, rest);
      NearDropLast(list[1..], e, rest);
      assert shorter[1..] == list[1..][..|list| - 2];
      NearWeaken(shorter[1..], e, rest, keys);
    }
  }

  lemma {:induction false} NearLookup(list: seq<Entry>, e: Entry, keys: set<Key>)
    requires Near(list, e, keys) && e.key !in keys
    ensures Lookup(list, e.key) == Some(e)
  {
    if list[0] == e {
    } else {
      NearLookup(list[1..], e, keys);
    }
  }

  /** The keys other than `key` that events Set or Get. */
  ghost function Others(events: seq<Event>, key: Key): set<Key> {
    if events == [] then {}
    else Others(events[..|events| - 1], key) + (Mentioned(events[|events| - 1]) - {key})
  }

  ghost function Mentioned(e: Event): set<Key> {
    match e.op
    case Get(k) => {k}
    case Set(k, _, _) => {k}
    case _ => {}
  }

  /** An event that neither overwrites nor deletes the key, at a time when the entry has not expired. */
  ghost predicate LeavesAlone(e: Event, entry: Entry) {
    e.now <= entry.deadline && !(e.op.Set? && e.op.key == entry.key) && !(e.op.Delete? && e.op.key == entry.key)
  }

  lemma {:induction false} GetKeepsNear(list: seq<Entry>, entry: Entry, keys: set<Key>, key: Key, now: Time)
    requires NoDuplicates(list) && Near(list, entry, keys) && entry.key !in keys
    requires now <= entry.deadline && (key == entry.key || key in keys)
    ensures Near(AfterGet(list, key, now), entry, keys)
  {
    NearLookup(list, entry, keys);
    LookupMeaning(list, key);
    if key != entry.key && Lookup(list, key).Some? {
      NearWithout(list, entry, keys, key);
      var pushed := [Lookup(list, key).value] + Without(list, key);
      assert pushed[1..] == Without(list, key);
    }
  }

  lemma {:induction false} SetKeepsNear(list: seq<Entry>, maxSize: nat, entry: Entry, keys: set<Key>, first: Entry)
    requires WellFormed(list, maxSize) && Near(list, entry, keys)
    requires first.key in keys && first.key != entry.key && |keys| < maxSize
    ensures Near(AfterSet(list, maxSize, first), entry, keys)
  {
    var pushed := [first] + Without(list, first.key);
    NearWithout(list, entry, keys, first.key);
    assert pushed[1..] == Without(list, first.key);
    PushIsWellFormed(list, first);
    if |pushed| > maxSize {
      NearDropLast(pushed, entry, keys);
    }
  }

  lemma {:induction false} EventKeepsNear(list: seq<Entry>, maxSize: nat, e: Event, entry: Entry, keys: set<Key>, more: set<Key>)
    requires WellFormed(list, maxSize) && Near(list, entry, keys) && entry.key !in keys
    requires LeavesAlone(e, entry)
    requires more == keys + (Mentioned(e) - {entry.key}) && |more| < maxSize
    ensures Near(After(list, maxSize, e), entry, more)
  {
    NearWeaken(list, entry, keys, more);
    match e.op {
      case Get(key) => GetKeepsNear(list, entry, more, key, e.now);
      case Set(key, value, ttl) => SetKeepsNear(list, maxSize, entry, more, Entry(key, value, e.now + ttl));
      case Delete(key) => NearWithout(list, entry, more, key);
      case Cleanup => NearFresh(list, entry, more, e.now);
    }
  }

  lemma {:induction false} RunKeepsNear(list: seq<Entry>, maxSize: nat, events: seq<Event>, entry: Entry)
    requires WellFormed(list, maxSize) && Near(list, entry, {})
    requires forall i :: 0 <= i < |events| ==> LeavesAlone(events[i], entry)
    requires |Others(events, entry.key)| < maxSize
    ensures Near(Run(list, maxSize, events), entry, Others(events, entry.key))
    ensures entry.key !in Others(events, entry.key)
  {
    if events == [] {
    } else {
      var before, e := events[..|events| - 1], events[|events| - 1];
      assert before + [e] == events;
      SmallerSubset(Others(before, entry.key), Others(events, entry.key));
      RunKeepsNear(list, maxSize, before, entry);
      RunIsWellFormed(list, maxSize, before);
      RunAppend(list, maxSize, before, e);
      EventKeepsNear(Run(list, maxSize, before), maxSize, e, entry, Others(before, entry.key), Others(events, entry.key));
    }
  }

  lemma {:induction false} SmallerSubset<T>(a: set<T>, b: set<T>)
    requires a <= b
    ensures |a| <= |b|
  {
    assert b == a + (b - a);
  }

  /** A value that was Set is certain to hit until its deadline as long as it is not overwritten or deleted and
      fewer than maxSize other keys are Set or asked for. */
  lemma {:induction false} HitsUntilDeadlineIfFewOthers(list: seq<Entry>, maxSize: nat, write: Event, events: seq<Event>, now: Time)
    requires WellFormed(list, maxSize) && write.op.Set?
    requires var entry := Entry(write.op.key, write.op.value, write.now + write.op.ttl);
             && (forall i :: 0 <= i < |events| ==> LeavesAlone(events[i], entry))
             && |Others(events, entry.key)| < maxSize
             && now <= entry.deadline
    ensures Hit(Run(After(list, maxSize, write), maxSize, events), write.op.key, now) == Some(write.op.value)
  {
    var entry := Entry(write.op.key, write.op.value, write.now + write.op.ttl);
    var first := After(list, maxSize, write);
    AfterIsWellFormed(list, maxSize, write);
    assert first[0] == entry;
    RunKeepsNear(first, maxSize, events, entry);
    NearLookup(Run(first, maxSize, events), entry, Others(events, entry.key));
  }
}
