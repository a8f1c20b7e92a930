/** internal/platform/cache/memory.go: the map, the recency list and the items they share. */
module MemoryCaches {
  import opened Wrappers
  import opened RecencyList

  /** What a list element holds; Set updates the value and the deadline in place. */
  class CacheItem {
    const key: Key
    var value: Value
    var expiration: Time

    constructor (key: Key, value: Value, expiration: Time)
      ensures this.key == key && this.value == value && this.expiration == expiration
    {
      this.key, this.value, this.expiration := key, value, expiration;
    }
  }

  ghost function EntriesOf(lru: seq<CacheItem>): (list: seq<Entry>)
    reads lru
    ensures |list| == |lru|
    ensures forall i :: 0 <= i < |lru| ==> list[i] == Entry(lru[i].key, lru[i].value, lru[i].expiration)
  {
    seq(|lru|, i requires 0 <= i < |lru| reads lru => Entry(lru[i].key, lru[i].value, lru[i].expiration))
  }

  lemma {:induction false} EntriesCut(lru: seq<CacheItem>, at: nat)
    requires NoDuplicates(EntriesOf(lru)) && at < |lru|
    ensures EntriesOf(lru[..at] + lru[at + 1..]) == Without(EntriesOf(lru), lru[at].key)
  {
    WithoutAt(EntriesOf(lru), at);
  }

  lemma {:induction false} EntriesPush(item: CacheItem, lru: seq<CacheItem>)
    ensures EntriesOf([item] + lru) == [Entry(item.key, item.value, item.expiration)] + EntriesOf(lru)
  {
  }

  ghost predicate Distinct(lru: seq<CacheItem>) {
    forall i, j :: 0 <= i < j < |lru| ==> lru[i] != lru[j]
  }

  /** Every mapped item is in the list once, under its own key, and every list element is mapped. */
  ghost predicate Bijection(items: map<Key, CacheItem>, lru: seq<CacheItem>) {
    && Distinct(lru)
    && (forall x :: x in lru ==> x.key in items && items[x.key] == x)
    && (forall k :: k in items ==> items[k] in lru && items[k].key == k)
  }

  lemma {:induction false} CutMembers(lru: seq<CacheItem>, at: nat)
    requires Distinct(lru) && at < |lru|
    ensures Distinct(lru[..at] + lru[at + 1..])
    ensures forall x :: x in lru[..at] + lru[at + 1..] <==> x in lru && x != lru[at]
  {
    var rest := lru[..at] + lru[at + 1..];
    forall x | x in lru && x != lru[at] ensures x in rest {
      var i :| 0 <= i < |lru| && lru[i] == x;
      assert x == rest[if i < at then i else i - 1];
    }
    forall x | x in rest ensures x in lru && x != lru[at] {
      var i :| 0 <= i < |rest| && rest[i] == x;
      assert x == lru[if i < at then i else i + 1];
    }
  }

  lemma {:induction false} PushMembers(lru: seq<CacheItem>, item: CacheItem)
    requires Distinct(lru) && item !in lru
    ensures Distinct([item] + lru)
    ensures forall x :: x in [item] + lru <==> x in lru || x == item
  {
  }

  lemma {:induction false} CutKeepsBijection(items: map<Key, CacheItem>, lru: seq<CacheItem>, at: nat)
    requires Bijection(items, lru) && at < |lru|
    ensures var rest := lru[..at] + lru[at + 1..];
            && Bijection(items - {lru[at].key}, rest)
            && (forall x :: x in rest <==> x in lru && x != lru[at])
  {
    CutMembers(lru, at);
  }

  lemma {:induction false} PushKeepsBijection(items: map<Key, CacheItem>, lru: seq<CacheItem>, item: CacheItem)
    requires Bijection(items, lru) && item.key !in items
    ensures Bijection(items[item.key := item], [item] + lru)
    ensures forall x :: x in [item] + lru <==> x in lru || x == item
  {
    PushMembers(lru, item);
  }

  lemma {:induction false} MoveKeepsBijection(items: map<Key, CacheItem>, lru: seq<CacheItem>, at: nat)
    requires Bijection(items, lru) && at < |lru|
    ensures Bijection(items, [lru[at]] + (lru[..at] + lru[at + 1..]))
    ensures forall x :: x in [lru[at]] + (lru[..at] + lru[at + 1..]) <==> x in lru
  {
    var item, rest := lru[at], lru[..at] + lru[at + 1..];
    CutKeepsBijection(items, lru, at);
    PushKeepsBijection(items - {item.key}, rest, item);
    assert (items - {item.key})[item.key := item] == items;
  }

  /** Every method but Get runs under one acquisition of the lock; Get is Find and then Remove or MoveToFront. */
  class MemoryCache {
    const maxSize: nat
    var items: map<Key, CacheItem>
    var lru: seq<CacheItem>

    ghost predicate Linked()
      reads this
    {
      Bijection(items, lru)
    }

    ghost predicate Valid()
      reads this
    {
      Linked() && 0 < maxSize && |lru| <= maxSize
    }

    ghost function Contents(): (list: seq<Entry>)
      reads this, lru
      ensures |list| == |lru|
      ensures forall i :: 0 <= i < |lru| ==> list[i] == Entry(lru[i].key, lru[i].value, lru[i].expiration)
    {
      EntriesOf(lru)
    }

    constructor (maxSize: int)
      ensures Valid() && lru == [] && Contents() == []
      ensures this.maxSize == if maxSize <= 0 then 1000 else maxSize
    {
      this.maxSize := if maxSize <= 0 then 1000 else maxSize;
      items, lru := map[], [];
    }

    /** The map finds exactly what a search of the list finds. */
    lemma {:induction false} KeysAreDistinct()
      requires Linked()
      ensures NoDuplicates(Contents())
    {
      forall i, j | 0 <= i < j < |lru| ensures lru[i].key != lru[j].key {
        assert items[lru[i].key] == lru[i] && items[lru[j].key] == lru[j];
      }
    }

    lemma {:induction false} LookupIsMapped(key: Key)
      requires Linked()
      ensures NoDuplicates(Contents())
      ensures key in items <==> Has(Contents(), key)
      ensures Lookup(Contents(), key) == if key in items
                                         then Some(Entry(key, items[key].value, items[key].expiration)) else None
    {
      KeysAreDistinct();
      LookupMeaning(Contents(), key);
      if key in items {
        var i :| 0 <= i < |lru| && lru[i] == items[key];
        assert Contents()[i] in Contents() && Contents()[i].key == key;
        LookupIsUnique(Contents(), Contents()[i]);
      }
    }

    /** The read-locked lookup of Get. */
    method Find(key: Key) returns (element: CacheItem?)
      requires Valid()
      ensures element == null ==> Lookup(Contents(), key) == None
      ensures element != null ==> element in lru && element.key == key
                                  && Lookup(Contents(), key) == Some(Entry(key, element.value, element.expiration))
    {
      LookupIsMapped(key);
      element := if key in items then items[key] else null;
    }

    /** list.MoveToFront: an element that is no longer in the list is left alone. */
    method MoveToFront(element: CacheItem)
      requires Valid()
      modifies this`lru
      ensures Valid()
      ensures forall x :: x in lru <==> x in old(lru)
      ensures element !in old(lru) ==> lru == old(lru)
      ensures element in old(lru) ==>
                Contents() == [Entry(element.key, element.value, element.expiration)] + Without(old(Contents()), element.key)
    {
      if element in lru {
        var at :| 0 <= at < |lru| && lru[at] == element;
        LookupIsMapped(element.key);
        var rest := lru[..at] + lru[at + 1..];
        EntriesCut(lru, at);
        EntriesPush(element, rest);
        MoveKeepsBijection(items, lru, at);
        lru := [element] + rest;
      }
    }

    /** Remove by key, with the lock held. */
    method Remove(key: Key)
      requires Linked()
      modifies this`items, this`lru
      ensures Linked()
      ensures Contents() == Without(old(Contents()), key)
      ensures forall x :: x in lru <==> x in old(lru) && x.key != key
      ensures key !in items && |lru| <= |old(lru)|
    {
      LookupIsMapped(key);
      WithoutIsSub(Contents(), key);
      if key in items {
        var at :| 0 <= at < |lru| && lru[at] == items[key];
        EntriesCut(lru, at);
        CutKeepsBijection(items, lru, at);
        lru := lru[..at] + lru[at + 1..];
        items := items - {key};
      } else {
        assert forall x :: x in lru ==> x.key in items;
      }
    }

    method Delete(key: Key)
      requires Valid()
      modifies this`items, this`lru
      ensures Valid()
      ensures Contents() == Without(old(Contents()), key)
      ensures forall x :: x in lru ==> x in old(lru)
      ensures forall x :: x in old(lru) && x !in lru ==> x.key !in items
    {
      Remove(key);
    }

    /** Removes the element at the back. */
    method EvictOldest()
      requires Linked()
      modifies this`items, this`lru
      ensures Linked()
      ensures old(lru) != [] ==> Contents() == old(Contents())[..|old(lru)| - 1]
      ensures old(lru) == [] ==> lru == []
      ensures forall x :: x in lru ==> x in old(lru)
      ensures forall x :: x in old(lru) && x !in lru ==> x.key !in items
    {
      if |lru| > 0 {
        var back := lru[|lru| - 1];
        LookupIsMapped(back.key);
        WithoutLast(Contents());
        Remove(back.key);
      }
    }

    method Set(key: Key, value: Value, ttl: Time, now: Time)
      requires Valid()
      modifies this`items, this`lru, lru
      ensures Valid()
      ensures Contents() == AfterSet(old(Contents()), maxSize, Entry(key, value, now + ttl))
      ensures forall x :: x in lru ==> x in old(lru) || fresh(x)
      ensures forall x :: x in old(lru) && x !in lru ==>
                x.key !in items && x.value == old(x.value) && x.expiration == old(x.expiration)
    {
      ghost var after := AfterSet(Contents(), maxSize, Entry(key, value, now + ttl));
      if key in items {
        UpdateInPlace(items[key], value, now + ttl, after);
      } else {
        InsertNew(key, value, now + ttl, after);
      }
    }

    /** The branch of Set for a key that is present. */
    method UpdateInPlace(item: CacheItem, value: Value, expiration: Time, ghost after: seq<Entry>)
      requires Valid() && item in lru && after == AfterSet(Contents(), maxSize, Entry(item.key, value, expiration))
      modifies this`lru, item
      ensures Valid()
      ensures Contents() == after
      ensures forall x :: x in lru <==> x in old(lru)
    {
      ghost var before, at := Contents(), 0;
      at :| 0 <= at < |lru| && lru[at] == item;
      LookupIsMapped(item.key);
      WithoutLength(before, item.key);
      item.value := value;
      item.expiration := expiration;
      LookupIsMapped(item.key);
      WithoutIgnoresTheRemoved(before, Contents(), at);
      MoveToFront(item);
    }

    /** The branch of Set for a new key: push, then evict if that is one too many. */
    method InsertNew(key: Key, value: Value, expiration: Time, ghost after: seq<Entry>)
      requires Valid() && key !in items && after == AfterSet(Contents(), maxSize, Entry(key, value, expiration))
      modifies this`items, this`lru
      ensures Valid()
      ensures Contents() == after
      ensures forall x :: x in lru ==> x in old(lru) || fresh(x)
      ensures forall x :: x in old(lru) && x !in lru ==> x.key !in items
    {
      LookupIsMapped(key);
      WithoutIsSub(Contents(), key);
      PushFront(key, value, expiration);
      if |lru| > maxSize {
        EvictOldest();
      }
    }

    method PushFront(key: Key, value: Value, expiration: Time)
      requires Linked() && key !in items
      modifies this`items, this`lru
      ensures Linked()
      ensures Contents() == [Entry(key, value, expiration)] + old(Contents())
      ensures |lru| == |old(lru)| + 1
      ensures forall x :: x in lru ==> x in old(lru) || fresh(x)
      ensures forall x :: x in old(lru) ==> x in lru
    {
      var item := new CacheItem(key, value, expiration);
      PushKeepsBijection(items, lru, item);
      EntriesPush(item, lru);
      lru := [item] + lru;
      items := items[key := item];
    }

    method Get(key: Key, now: Time) returns (hit: Option<Value>)
      requires Valid()
      modifies this`items, this`lru
      ensures Valid()
      ensures hit == Hit(old(Contents()), key, now)
      ensures Contents() == AfterGet(old(Contents()), key, now)
    {
      ghost var list := Contents();
      var element := Find(key);
      if element == null {
        return None;
      }
      assert Lookup(list, key) == Some(Entry(key, element.value, element.expiration));
      if now > element.expiration {
        Remove(key);
        return None;
      }
      MoveToFront(element);
      hit := Some(element.value);
    }

    /** The first loop of the cleanup, in the map's arbitrary order. */
    method ExpiredKeys(now: Time) returns (expired: seq<Key>)
      requires Linked()
      ensures forall x :: x in lru ==> (x.key in expired <==> now > x.expiration)
    {
      expired := [];
      var keys := items.Keys;
      while keys != {}
        invariant keys <= items.Keys
        invariant forall x :: x in lru && x.key !in keys ==> (x.key in expired <==> now > x.expiration)
        invariant forall k :: k in expired ==> k in items && k !in keys
      {
        var key :| key in keys;
        keys := keys - {key};
        if now > items[key].expiration {
          expired := expired + [key];
        }
      }
    }

    method CleanupExpired(now: Time)
      requires Valid()
      modifies this`items, this`lru
      ensures Valid()
      ensures Contents() == Fresh(old(Contents()), now)
      ensures forall x :: x in lru ==> x in old(lru)
      ensures forall x :: x in old(lru) && x !in lru ==> x.key !in items
    {
      var toRemove := ExpiredKeys(now);
      assert forall i :: 0 <= i < |lru| ==> Contents()[i].key == lru[i].key && lru[i] in lru;
      ghost var before := Contents();
      WithoutTheExpiredIsFresh(before, toRemove, now);
      for i := 0 to |toRemove|
        invariant Valid()
        invariant Contents() == WithoutAll(before, toRemove[..i])
        invariant forall x :: x in lru ==> x in old(lru)
        invariant forall x :: x in old(lru) && x !in lru ==> x.key !in items
      {
        assert toRemove[..i + 1][..i] == toRemove[..i];
        Remove(toRemove[i]);
      }
      assert toRemove[..|toRemove|] == toRemove;
    }
  }
}
