/** The memory cache under overlapping calls: each section of a Get and each other call, on the shared map, list and items,
    does what OverlappingGets says. */
module CacheInterleaving {
  import opened Wrappers
  import opened RecencyList
  import opened MemoryCaches
  import opened OverlappingGets

  /** A Get in progress with the list element it found. */
  datatype Pending = Pending(element: CacheItem, stage: Stage, start: nat, checked: nat)

  /** What an element of the shared heap is to the Get that found it. */
  ghost function Seen(lru: seq<CacheItem>, x: CacheItem): Element
    reads x
  {
    if x in lru then Listed(x.key) else Gone(Entry(x.key, x.value, x.expiration))
  }

  ghost function SeenBy(lru: seq<CacheItem>, p: Pending): Reader
    reads p.element
  {
    Reader(Seen(lru, p.element), p.stage, p.start, p.checked)
  }

  ghost function SeenByAll(lru: seq<CacheItem>, pending: map<nat, Pending>): map<nat, Reader>
    reads set id | id in pending :: pending[id].element
  {
    map id | id in pending :: SeenBy(lru, pending[id])
  }

  class Interleaving {
    const cache: MemoryCache
    var pending: map<nat, Pending>
    var answers: seq<Answer>
    var steps: nat

    constructor (maxSize: int)
      ensures fresh(cache) && cache.Valid() && cache.lru == []
      ensures cache.maxSize == (if maxSize <= 0 then 1000 else maxSize)
      ensures Value() == Initial()
    {
      cache := new MemoryCache(maxSize);
      pending, answers, steps := map[], [], 0;
    }

    ghost function Value(): System
      reads this, cache, cache.lru, set id | id in pending :: pending[id].element
    {
      System(cache.Contents(), SeenByAll(cache.lru, pending), answers, steps)
    }

    /** What a change to the cache does to the elements that were listed: they stay, or they leave as they are and their
        keys with them; it lists no element that had left. */
    ghost predicate Settled(lru: seq<CacheItem>, before: seq<Entry>)
      reads this, cache, lru
    {
      && (forall x :: x in lru && x !in cache.lru ==>
            x.key !in cache.items && Lookup(before, x.key) == Some(Entry(x.key, x.value, x.expiration)))
      && (forall id :: id in pending && pending[id].element in cache.lru ==> pending[id].element in lru)
    }

    lemma {:induction false} ListedIsFound()
      requires cache.Valid()
      ensures forall x :: x in cache.lru ==> Lookup(cache.Contents(), x.key) == Some(Entry(x.key, x.value, x.expiration))
    {
      forall x | x in cache.lru ensures Lookup(cache.Contents(), x.key) == Some(Entry(x.key, x.value, x.expiration)) {
        cache.LookupIsMapped(x.key);
      }
    }

    /** After such a change every Get in progress sees its element as the specification follows it. */
    lemma {:induction false} ChangeIsFollowed(s: System, lru: seq<CacheItem>, list: seq<Entry>)
      requires cache.Valid() && Settled(lru, s.list) && Remembered(s, lru) && list == cache.Contents()
      ensures SeenByAll(cache.lru, pending) == FollowedAll(s.readers, s.list, list)
    {
      forall id | id in pending
        ensures SeenBy(cache.lru, pending[id]) == s.readers[id].(element := Followed(s.readers[id].element, s.list, list)) {
        cache.LookupIsMapped(pending[id].element.key);
      }
    }

    /** The Gets in progress as they were when the list was lru. */
    ghost predicate Remembered(s: System, lru: seq<CacheItem>)
      reads this, set id | id in pending :: pending[id].element
    {
      && s.readers.Keys == pending.Keys && s.answers == answers && s.steps == steps
      && (forall x :: x in lru ==> Lookup(s.list, x.key).Some?)
      && (forall id :: id in pending ==> s.readers[id] == SeenBy(lru, pending[id]))
    }

    lemma {:induction false} ListIsReplaced(s: System, lru: seq<CacheItem>, list: seq<Entry>)
      requires cache.Valid() && Settled(lru, s.list) && Remembered(s, lru) && list == cache.Contents()
      ensures Value() == WithList(s, list)
    {
      ChangeIsFollowed(s, lru, list);
    }

    method Count()
      modifies this`steps
      ensures Value() == old(Value()).(steps := old(steps) + 1)
    {
      steps := steps + 1;
    }

    /** A Get in progress takes a step. */
    method Advance(id: nat, p: Pending)
      modifies this`pending
      ensures Value() == old(Value()).(readers := old(Value()).readers[id := SeenBy(cache.lru, p)])
    {
      pending := pending[id := p];
    }

    /** A Get ends with an answer. */
    method Reply(a: Answer)
      modifies this`pending, this`answers
      ensures Value() == Answered(old(Value()), a)
    {
      pending := pending - {a.id};
      answers := answers + [a];
    }

    method Write(key: Key, value: Value, ttl: Time, now: Time)
      requires cache.Valid()
      modifies this`steps, cache`items, cache`lru, cache.lru
      ensures cache.Valid() && Value() == Next(old(Value()), cache.maxSize, Action.Write(key, value, ttl, now))
      ensures forall x :: x in cache.lru ==> x in old(cache.lru) || fresh(x)
    {
      ghost var s := Value();
      SetEntry(key, value, ttl, now, s, Effect(s, cache.maxSize, Action.Write(key, value, ttl, now)));
      Count();
    }

    /** Delete. */
    method Erase(key: Key)
      requires cache.Valid()
      modifies this`steps, cache`items, cache`lru
      ensures cache.Valid() && Value() == Next(old(Value()), cache.maxSize, Action.Erase(key))
      ensures forall x :: x in cache.lru ==> x in old(cache.lru)
    {
      ghost var s := Value();
      RemoveEntry(key, s, Effect(s, cache.maxSize, Action.Erase(key)));
      Count();
    }

    method Sweep(now: Time)
      requires cache.Valid()
      modifies this`steps, cache`items, cache`lru
      ensures cache.Valid() && Value() == Next(old(Value()), cache.maxSize, Action.Sweep(now))
      ensures forall x :: x in cache.lru ==> x in old(cache.lru)
    {
      ghost var s := Value();
      RemoveExpired(now, s, Effect(s, cache.maxSize, Action.Sweep(now)));
      Count();
    }

    /** Get's lookup, under the read lock. */
    method Begin(id: nat, key: Key)
      requires cache.Valid()
      modifies this`steps, this`pending, this`answers
      ensures Value() == Next(old(Value()), cache.maxSize, Action.Begin(id, key))
    {
      if id !in pending {
        LookUp(id, key);
      }
      Count();
    }

    method LookUp(id: nat, key: Key)
      requires cache.Valid() && id !in pending
      modifies this`pending, this`answers
      ensures Value() == Begun(old(Value()), id, key)
    {
      ghost var t := Begun(Value(), id, key);
      var element := cache.Find(key);
      if element == null {
        assert t == Answered(Value(), Answer(id, key, None, None, steps, steps, steps));
        Reply(Answer(id, key, None, None, steps, steps, steps));
      } else {
        assert Seen(cache.lru, element) == Listed(key);
        assert t == Value().(readers := Value().readers[id := Reader(Listed(key), Found, steps, steps)]);
        Advance(id, Pending(element, Found, steps, steps));
      }
    }

    /** Get's look at the deadline, without a lock. */
    method Check(id: nat, now: Time)
      requires cache.Valid()
      modifies this`steps, this`pending
      ensures Value() == Next(old(Value()), cache.maxSize, Action.Check(id, now))
    {
      if id in pending && pending[id].stage.Found? {
        var p := pending[id];
        ListedIsFound();
        Advance(id, p.(stage := if now > p.element.expiration then Expired(now) else Live(now), checked := steps));
      }
      Count();
    }

    /** Get's remove or move to front, under the lock. */
    method Finish(id: nat)
      requires cache.Valid()
      modifies this`steps, this`pending, this`answers, cache`items, cache`lru
      ensures cache.Valid() && Value() == Next(old(Value()), cache.maxSize, Action.Finish(id))
      ensures forall x :: x in cache.lru ==> x in old(cache.lru)
    {
      if id in pending {
        match pending[id].stage
        case Expired(now) => FinishExpired(id, now);
        case Live(now) => FinishLive(id, now);
        case _ =>
      }
      Count();
    }

    /** The remove is by key, whatever the key holds by now. */
    method FinishExpired(id: nat, now: Time)
      requires cache.Valid() && id in pending
      modifies this`pending, this`answers, cache`items, cache`lru
      ensures cache.Valid() && Value() == FinishedExpired(old(Value()), id, now)
      ensures forall x :: x in cache.lru ==> x in old(cache.lru)
    {
      ghost var s := Value();
      var p := pending[id];
      RemoveEntry(p.element.key, s, WithList(s, Without(s.list, p.element.key)));
      Reply(Answer(id, p.element.key, None, Some(now), p.start, p.checked, steps));
    }

    /** The move to front does nothing for an element that was removed meanwhile. */
    method FinishLive(id: nat, now: Time)
      requires cache.Valid() && id in pending
      modifies this`pending, cache`lru
      ensures cache.Valid() && Value() == FinishedLive(old(Value()), id, now)
      ensures forall x :: x in cache.lru ==> x in old(cache.lru)
    {
      ghost var s, lru := Value(), cache.lru;
      var p := pending[id];
      ghost var list := MovedToFront(s.list, Seen(lru, p.element));
      MoveAndRemember(p.element, s, list);
      ListIsReplaced(s, lru, list);
      Advance(id, p.(stage := Moved(now)));
    }

    /** Get's read of the value, without a lock. */
    method Return(id: nat)
      requires cache.Valid()
      modifies this`steps, this`pending, this`answers
      ensures Value() == Next(old(Value()), cache.maxSize, Action.Return(id))
    {
      if id in pending && pending[id].stage.Moved? {
        var p := pending[id];
        ListedIsFound();
        Reply(Answer(id, p.element.key, Some(p.element.value), Some(p.stage.now), p.start, p.checked, steps));
      }
      Count();
    }

    /** One action of the schedule. */
    method Step(action: Action)
      requires cache.Valid()
      modifies this`steps, this`pending, this`answers, cache`items, cache`lru, cache.lru
      ensures cache.Valid() && Value() == Next(old(Value()), cache.maxSize, action)
      ensures forall x :: x in cache.lru ==> x in old(cache.lru) || fresh(x)
    {
      match action
      case Begin(id, key) => Begin(id, key);
      case Check(id, now) => Check(id, now);
      case Finish(id) => Finish(id);
      case Return(id) => Return(id);
      case Write(key, value, ttl, now) => Write(key, value, ttl, now);
      case Erase(key) => Erase(key);
      case Sweep(now) => Sweep(now);
    }

    // The changes to the cache, and what they leave of the Gets in progress.

    method SetEntry(key: Key, value: Value, ttl: Time, now: Time, ghost s: System, ghost t: System)
      requires cache.Valid() && s == Value() && t == WithList(s, AfterSet(s.list, cache.maxSize, Entry(key, value, now + ttl)))
      modifies cache`items, cache`lru, cache.lru
      ensures cache.Valid() && Value() == t
      ensures forall x :: x in cache.lru ==> x in old(cache.lru) || fresh(x)
    {
      ghost var lru, list := cache.lru, AfterSet(s.list, cache.maxSize, Entry(key, value, now + ttl));
      SetAndRemember(key, value, ttl, now, s, list);
      ListIsReplaced(s, lru, list);
    }

    method RemoveEntry(key: Key, ghost s: System, ghost t: System)
      requires cache.Valid() && s == Value() && t == WithList(s, Without(s.list, key))
      modifies cache`items, cache`lru
      ensures cache.Valid() && Value() == t
      ensures forall x :: x in cache.lru ==> x in old(cache.lru)
    {
      ghost var lru := cache.lru;
      RemoveAndRemember(key, s);
      ListIsReplaced(s, lru, Without(s.list, key));
    }

    method RemoveExpired(now: Time, ghost s: System, ghost t: System)
      requires cache.Valid() && s == Value() && t == WithList(s, Fresh(s.list, now))
      modifies cache`items, cache`lru
      ensures cache.Valid() && Value() == t
      ensures forall x :: x in cache.lru ==> x in old(cache.lru)
    {
      ghost var lru := cache.lru;
      SweepAndRemember(now, s);
      ListIsReplaced(s, lru, Fresh(s.list, now));
    }

    method SetAndRemember(key: Key, value: Value, ttl: Time, now: Time, ghost s: System, ghost list: seq<Entry>)
      requires cache.Valid() && s == Value() && list == AfterSet(s.list, cache.maxSize, Entry(key, value, now + ttl))
      modifies cache`items, cache`lru, cache.lru
      ensures cache.Valid() && cache.Contents() == list
      ensures Settled(old(cache.lru), s.list) && Remembered(s, old(cache.lru))
      ensures forall x :: x in cache.lru ==> x in old(cache.lru) || fresh(x)
    {
      ListedIsFound();
      SetAndKeep(key, value, ttl, now, s, list);
    }

    /** What leaves the list is unchanged, and so is what had left it. */
    method SetAndKeep(key: Key, value: Value, ttl: Time, now: Time, ghost s: System, ghost list: seq<Entry>)
      requires cache.Valid() && s == Value() && list == AfterSet(s.list, cache.maxSize, Entry(key, value, now + ttl))
      modifies cache`items, cache`lru, cache.lru
      ensures cache.Valid() && cache.Contents() == list
      ensures forall x :: x in cache.lru ==> x in old(cache.lru) || fresh(x)
      ensures forall x :: x in old(cache.lru) && x !in cache.lru ==>
                x.key !in cache.items && x.value == old(x.value) && x.expiration == old(x.expiration)
      ensures forall id :: id in pending ==> s.readers[id] == SeenBy(old(cache.lru), pending[id])
    {
      cache.Set(key, value, ttl, now);
    }

    method RemoveAndRemember(key: Key, ghost s: System)
      requires cache.Valid() && s == Value()
      modifies cache`items, cache`lru
      ensures cache.Valid() && cache.Contents() == Without(s.list, key)
      ensures Settled(old(cache.lru), s.list) && Remembered(s, old(cache.lru))
      ensures forall x :: x in cache.lru ==> x in old(cache.lru)
    {
      ListedIsFound();
      cache.Delete(key);
    }

    method SweepAndRemember(now: Time, ghost s: System)
      requires cache.Valid() && s == Value()
      modifies cache`items, cache`lru
      ensures cache.Valid() && cache.Contents() == Fresh(s.list, now)
      ensures Settled(old(cache.lru), s.list) && Remembered(s, old(cache.lru))
      ensures forall x :: x in cache.lru ==> x in old(cache.lru)
    {
      ListedIsFound();
      cache.CleanupExpired(now);
    }

    method MoveAndRemember(element: CacheItem, ghost s: System, ghost list: seq<Entry>)
      requires cache.Valid() && s == Value() && list == MovedToFront(s.list, Seen(cache.lru, element))
      modifies cache`lru
      ensures cache.Valid() && cache.Contents() == list
      ensures Settled(old(cache.lru), s.list) && Remembered(s, old(cache.lru))
      ensures forall x :: x in cache.lru ==> x in old(cache.lru)
    {
      ListedIsFound();
      cache.MoveToFront(element);
    }
  }

  /** However calls overlap, the map and list stay in bijection within the bound, and the contents and the answers of all
      Gets are what OverlappingGets says. */
  method Interleave(maxSize: int, actions: seq<Action>) returns (cache: MemoryCache, answers: seq<Answer>)
    ensures cache.Valid() && cache.maxSize == (if maxSize <= 0 then 1000 else maxSize)
    ensures cache.Contents() == OverlappingGets.Run(Initial(), cache.maxSize, actions).list
    ensures answers == OverlappingGets.Run(Initial(), cache.maxSize, actions).answers
  {
    var run := new Interleaving(maxSize);
    for i := 0 to |actions|
      invariant run.cache.Valid() && run.cache.maxSize == (if maxSize <= 0 then 1000 else maxSize)
      invariant run.Value() == OverlappingGets.Run(Initial(), run.cache.maxSize, actions[..i])
      invariant fresh(run) && fresh(run.cache) && forall x :: x in run.cache.lru ==> fresh(x)
    {
      run.Step(actions[i]);
      assert actions[..i + 1][..i] == actions[..i];
    }
    assert actions[..|actions|] == actions;
    cache, answers := run.cache, run.answers;
  }
}
