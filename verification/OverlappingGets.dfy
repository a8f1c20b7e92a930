/** What overlapping calls of the memory cache do (internal/platform/cache/memory.go:46-177): a Get is a read-locked lookup,
    an unlocked look at the deadline, a write-locked remove or move to front and an unlocked read of the value, and other
    calls may run in between. */
module OverlappingGets {
  import opened Wrappers
  import opened RecencyList

  /** What one goroutine does next; a number names a Get in progress. */
  datatype Action =
    | Begin(id: nat, key: Key)
    | Check(id: nat, now: Time)
    | Finish(id: nat)
    | Return(id: nat)
    | Write(key: Key, value: Value, ttl: Time, now: Time)
    | Erase(key: Key)
    | Sweep(now: Time)

  /** The list element that a Get found: it is listed under its key, or it has left the list, holding what it held then. */
  datatype Element = Listed(key: Key) | Gone(entry: Entry) {
    function Name(): Key {
      if Listed? then key else entry.key
    }
  }

  /** How far a Get is: it has found its element, has seen it live or expired, has moved it to the front. */
  datatype Stage = Found | Live(now: Time) | Expired(now: Time) | Moved(now: Time)

  /** A Get in progress, with the number of actions before it began and before it looked at the deadline. */
  datatype Reader = Reader(element: Element, stage: Stage, start: nat, checked: nat)

  /** What a Get returned; it read the clock unless it found nothing at all. */
  datatype Answer = Answer(id: nat, key: Key, value: Option<Value>, now: Option<Time>, start: nat, checked: nat, end: nat)

  datatype System = System(list: seq<Entry>, readers: map<nat, Reader>, answers: seq<Answer>, steps: nat)

  function Initial(): System {
    System([], map[], [], 0)
  }

  /** What an element holds. */
  function Held(list: seq<Entry>, x: Element): Option<Entry> {
    if x.Listed? then Lookup(list, x.key) else Some(x.entry)
  }

  /** An element whose key is no longer listed has left the list with what it held. */
  function Followed(x: Element, before: seq<Entry>, after: seq<Entry>): Element {
    if x.Listed? && Lookup(after, x.key).None? && Lookup(before, x.key).Some? then Gone(Lookup(before, x.key).value) else x
  }

  function FollowedAll(readers: map<nat, Reader>, before: seq<Entry>, after: seq<Entry>): map<nat, Reader> {
    map id | id in readers :: readers[id].(element := Followed(readers[id].element, before, after))
  }

  function WithList(s: System, list: seq<Entry>): System {
    s.(list := list, readers := FollowedAll(s.readers, s.list, list))
  }

  function WithStage(s: System, id: nat, stage: Stage): System
    requires id in s.readers
  {
    s.(readers := s.readers[id := s.readers[id].(stage := stage)])
  }

  function Answered(s: System, a: Answer): System {
    s.(readers := s.readers - {a.id}, answers := s.answers + [a])
  }

  function Begun(s: System, id: nat, key: Key): System {
    if Lookup(s.list, key).None? then Answered(s, Answer(id, key, None, None, s.steps, s.steps, s.steps))
    else s.(readers := s.readers[id := Reader(Listed(key), Found, s.steps, s.steps)])
  }

  function Checked(s: System, id: nat, now: Time): System
    requires id in s.readers
  {
    match Held(s.list, s.readers[id].element)
    case None => s
    case Some(e) =>
      s.(readers := s.readers[id := s.readers[id].(stage := if now > e.deadline then Expired(now) else Live(now), checked := s.steps)])
  }

  /** Moving an element to the front; one that has left the list is left alone. */
  function MovedToFront(list: seq<Entry>, x: Element): seq<Entry> {
    if x.Listed? && Lookup(list, x.key).Some? then [Lookup(list, x.key).value] + Without(list, x.key) else list
  }

  function FinishedLive(s: System, id: nat, now: Time): System
    requires id in s.readers
  {
    WithStage(WithList(s, MovedToFront(s.list, s.readers[id].element)), id, Moved(now))
  }

  /** The remove is by key, whatever the key holds by then. */
  function FinishedExpired(s: System, id: nat, now: Time): System
    requires id in s.readers
  {
    var r := s.readers[id];
    Answered(WithList(s, Without(s.list, r.element.Name())),
             Answer(id, r.element.Name(), None, Some(now), r.start, r.checked, s.steps))
  }

  function Returned(s: System, id: nat, now: Time): System
    requires id in s.readers
  {
    var r := s.readers[id];
    match Held(s.list, r.element)
    case None => s
    case Some(e) => Answered(s, Answer(id, e.key, Some(e.value), Some(now), r.start, r.checked, s.steps))
  }

  /** A Get takes its own steps in order: an action that is not its next does nothing. */
  function Effect(s: System, maxSize: nat, a: Action): System {
    match a
    case Write(key, value, ttl, now) => WithList(s, AfterSet(s.list, maxSize, Entry(key, value, now + ttl)))
    case Erase(key) => WithList(s, Without(s.list, key))
    case Sweep(now) => WithList(s, Fresh(s.list, now))
    case Begin(id, key) => if id in s.readers then s else Begun(s, id, key)
    case Check(id, now) => if id in s.readers && s.readers[id].stage.Found? then Checked(s, id, now) else s
    case Finish(id) =>
      if id !in s.readers then s
      else (match s.readers[id].stage
            case Live(now) => FinishedLive(s, id, now)
            case Expired(now) => FinishedExpired(s, id, now)
            case _ => s)
    case Return(id) => if id in s.readers && s.readers[id].stage.Moved? then Returned(s, id, s.readers[id].stage.now) else s
  }

  function Next(s: System, maxSize: nat, a: Action): System {
    Effect(s, maxSize, a).(steps := s.steps + 1)
  }

  function Run(s: System, maxSize: nat, actions: seq<Action>): System {
    if actions == [] then s else Next(Run(s, maxSize, actions[..|actions| - 1]), maxSize, actions[|actions| - 1])
  }

  /** The contents before the first action, after the first, after the second and so on. */
  function Trace(maxSize: nat, actions: seq<Action>): (trace: seq<seq<Entry>>)
    ensures |trace| == |actions| + 1
    ensures trace[|actions|] == Run(Initial(), maxSize, actions).list
  {
    (if actions == [] then [] else Trace(maxSize, actions[..|actions| - 1])) + [Run(Initial(), maxSize, actions).list]
  }

  // ---------------------------------------------------------------------
  // The shape of every reachable state
  // ---------------------------------------------------------------------

  /** The list is well formed, and the listed elements of Gets in progress are listed. */
  ghost predicate Sound(s: System, maxSize: nat) {
    && WellFormed(s.list, maxSize)
    && forall id :: id in s.readers ==> Held(s.list, s.readers[id].element).Some?
  }

  lemma {:induction false} WithListIsSound(s: System, maxSize: nat, list: seq<Entry>)
    requires Sound(s, maxSize) && WellFormed(list, maxSize)
    ensures Sound(WithList(s, list), maxSize)
  {
  }

  lemma {:induction false} MovingIsWellFormed(list: seq<Entry>, maxSize: nat, x: Element)
    requires WellFormed(list, maxSize)
    ensures WellFormed(MovedToFront(list, x), maxSize)
  {
    if x.Listed? && Lookup(list, x.key).Some? {
      LookupMeaning(list, x.key);
      WithoutLength(list, x.key);
      PushIsWellFormed(list, Lookup(list, x.key).value);
    }
  }

  lemma {:induction false} RemovingIsWellFormed(list: seq<Entry>, maxSize: nat, key: Key)
    requires WellFormed(list, maxSize)
    ensures WellFormed(Without(list, key), maxSize)
  {
    AfterIsWellFormed(list, maxSize, Event(Delete(key), 0));
  }

  lemma {:induction false} StepIsSound(s: System, maxSize: nat, a: Action)
    requires Sound(s, maxSize)
    ensures Sound(Next(s, maxSize, a), maxSize)
  {
    match a
    case Write(key, value, ttl, now) =>
      AfterIsWellFormed(s.list, maxSize, Event(Set(key, value, ttl), now));
      WithListIsSound(s, maxSize, AfterSet(s.list, maxSize, Entry(key, value, now + ttl)));
    case Erase(key) =>
      RemovingIsWellFormed(s.list, maxSize, key);
      WithListIsSound(s, maxSize, Without(s.list, key));
    case Sweep(now) =>
      AfterIsWellFormed(s.list, maxSize, Event(Cleanup, now));
      WithListIsSound(s, maxSize, Fresh(s.list, now));
    case Finish(id) =>
      if id in s.readers {
        var x := s.readers[id].element;
        MovingIsWellFormed(s.list, maxSize, x);
        RemovingIsWellFormed(s.list, maxSize, x.Name());
        WithListIsSound(s, maxSize, MovedToFront(s.list, x));
        WithListIsSound(s, maxSize, Without(s.list, x.Name()));
      }
    case _ =>
  }

  /** However calls overlap, the list keeps its keys distinct and its size within the bound. */
  lemma {:induction false} RunIsSound(maxSize: nat, actions: seq<Action>)
    requires maxSize > 0
    ensures Sound(Run(Initial(), maxSize, actions), maxSize)
    ensures Run(Initial(), maxSize, actions).steps == |actions|
  {
    if actions == [] {
    } else {
      RunIsSound(maxSize, actions[..|actions| - 1]);
      StepIsSound(Run(Initial(), maxSize, actions[..|actions| - 1]), maxSize, actions[|actions| - 1]);
    }
  }

  // ---------------------------------------------------------------------
  // How an action changes what a key holds
  // ---------------------------------------------------------------------

  lemma {:induction false} LookupWithout(list: seq<Entry>, gone: Key, key: Key)
    ensures Lookup(Without(list, gone), key) == if key == gone then None else Lookup(list, key)
  {
    if list == [] {
    } else {
      LookupWithout(list[1..], gone, key);
    }
  }

  lemma {:induction false} LookupFresh(list: seq<Entry>, now: Time, key: Key)
    requires NoDuplicates(list)
    ensures Lookup(Fresh(list, now), key) == match Lookup(list, key)
                                             case None => None
                                             case Some(e) => if now > e.deadline then None else Some(e)
  {
    if list == [] {
    } else {
      LookupFresh(list[1..], now, key);
      if list[0].key == key {
        assert !Has(list[1..], key);
        LookupMeaning(list[1..], key);
      }
    }
  }

  lemma {:induction false} LookupDropLast(list: seq<Entry>, key: Key)
    requires list != []
    ensures Lookup(list[..|list| - 1], key) == None || Lookup(list[..|list| - 1], key) == Lookup(list, key)
    ensures |list| > 1 && list[0].key == key ==> Lookup(list[..|list| - 1], key) == Some(list[0])
  {
    if |list| == 1 {
      assert list[..0] == [];
    } else {
      assert list[..|list| - 1][1..] == list[1..][..|list| - 2];
      LookupDropLast(list[1..], key);
    }
  }

  lemma {:induction false} LookupAfterSet(list: seq<Entry>, maxSize: nat, e: Entry, key: Key)
    requires maxSize > 0
    ensures var found := Lookup(AfterSet(list, maxSize, e), key);
            if key == e.key then found == Some(e) else found == None || found == Lookup(list, key)
  {
    var pushed := [e] + Without(list, e.key);
    assert pushed[1..] == Without(list, e.key);
    LookupWithout(list, e.key, key);
    LookupDropLast(pushed, key);
  }

  lemma {:induction false} LookupMoved(list: seq<Entry>, x: Element, key: Key)
    ensures Lookup(MovedToFront(list, x), key) == Lookup(list, key)
  {
    if x.Listed? && Lookup(list, x.key).Some? {
      LookupMeaning(list, x.key);
      LookupWithout(list, x.key, key);
      assert MovedToFront(list, x)[1..] == Without(list, x.key);
    }
  }

  /** The entry that a Set stores. */
  function Stored(a: Action): Entry
    requires a.Write?
  {
    Entry(a.key, a.value, a.now + a.ttl)
  }

  /** Only a Set of a key gives it a new entry; every other action leaves its entry or takes it away. */
  lemma {:induction false} StepLookup(s: System, maxSize: nat, a: Action, key: Key)
    requires Sound(s, maxSize)
    ensures var found := Lookup(Next(s, maxSize, a).list, key);
            if a.Write? && a.key == key then found == Some(Stored(a)) else found == None || found == Lookup(s.list, key)
  {
    match a
    case Write(_, _, _, _) => LookupAfterSet(s.list, maxSize, Stored(a), key);
    case Erase(k) => LookupWithout(s.list, k, key);
    case Sweep(now) => LookupFresh(s.list, now, key);
    case Finish(id) =>
      if id in s.readers {
        LookupMoved(s.list, s.readers[id].element, key);
        LookupWithout(s.list, s.readers[id].element.Name(), key);
      }
    case _ =>
  }

  /** A Set, a Delete and a cleanup do to the list what they do when nothing overlaps. */
  lemma {:induction false} WholeWritesAreOperations(s: System, maxSize: nat, key: Key, value: Value, ttl: Time, now: Time)
    ensures Next(s, maxSize, Write(key, value, ttl, now)).list == RecencyList.After(s.list, maxSize, Event(Set(key, value, ttl), now))
    ensures Next(s, maxSize, Erase(key)).list == RecencyList.After(s.list, maxSize, Event(Delete(key), now))
    ensures Next(s, maxSize, Sweep(now)).list == RecencyList.After(s.list, maxSize, Event(Cleanup, now))
  {
  }

  /** The four sections of a Get. */
  function WholeGet(s: System, maxSize: nat, id: nat, key: Key, now: Time): System {
    Next(Next(Next(Next(s, maxSize, Begin(id, key)), maxSize, Check(id, now)), maxSize, Finish(id)), maxSize, Return(id))
  }

  /** A Get whose sections nothing comes between is undivided: it answers once, as a Get does at that clock reading, leaves the
      list as that does and is no longer in progress. */
  lemma {:induction false} WholeGetIsAnOperation(s: System, maxSize: nat, id: nat, key: Key, now: Time)
    requires id !in s.readers
    ensures var t := WholeGet(s, maxSize, id, key, now);
            && t.list == RecencyList.After(s.list, maxSize, Event(Get(key), now))
            && id !in t.readers && t.readers.Keys == s.readers.Keys
            && |t.answers| == |s.answers| + 1 && t.answers[..|s.answers|] == s.answers
            && var a := t.answers[|s.answers|];
               a.id == id && a.key == key && a.value == Hit(s.list, key, now)
  {
    LookupMeaning(s.list, key);
    var begun := Next(s, maxSize, Begin(id, key));
    if Lookup(s.list, key).Some? {
      var e, checked := Lookup(s.list, key).value, Next(begun, maxSize, Check(id, now));
      var finished := Next(checked, maxSize, Finish(id));
      if now > e.deadline {
        assert checked.readers[id].stage == Expired(now);
        assert id !in finished.readers;
      } else {
        assert checked.readers[id].stage == Live(now);
        LookupMoved(s.list, Listed(key), key);
        assert finished.readers[id].stage == Moved(now);
      }
    }
  }

  // ---------------------------------------------------------------------
  // What is known of a Get in progress
  // ---------------------------------------------------------------------

  /** The entry was listed in state i and its key was not in the next. */
  ghost predicate LeftAt(trace: seq<seq<Entry>>, e: Entry, i: nat) {
    i + 1 < |trace| && Lookup(trace[i], e.key) == Some(e) && Lookup(trace[i + 1], e.key) == None
  }

  /** The entry was stored by a Set in a stretch of the run. */
  ghost predicate SetBetween(actions: seq<Action>, from: nat, to: nat, e: Entry) {
    exists j :: from <= j < to && j < |actions| && actions[j].Write? && Stored(actions[j]) == e
  }

  ghost predicate MissedSince(trace: seq<seq<Entry>>, from: nat, key: Key, now: Time) {
    exists i :: from <= i < |trace| && Hit(trace[i], key, now) == None
  }

  ghost predicate ElementKnown(trace: seq<seq<Entry>>, r: Reader) {
    r.element.Gone? ==> exists i :: r.start <= i && LeftAt(trace, r.element.entry, i)
  }

  /** Before the look at the deadline nothing more is known; after it the element was live or missing at its clock, and a
      live one holds an entry that is still good at that clock or was Set since. */
  ghost predicate StageKnown(actions: seq<Action>, trace: seq<seq<Entry>>, list: seq<Entry>, id: nat, r: Reader) {
    r.stage.Found?
    || (&& r.start < r.checked < |actions| && actions[r.checked] == Check(id, r.stage.now)
        && if r.stage.Expired? then MissedSince(trace, r.start, r.element.Name(), r.stage.now)
           else match Held(list, r.element)
                case None => false
                case Some(e) => r.stage.now <= e.deadline || SetBetween(actions, r.checked, |actions|, e))
  }

  ghost predicate ReaderKnown(actions: seq<Action>, trace: seq<seq<Entry>>, list: seq<Entry>, id: nat, r: Reader) {
    && r.start < |actions| && actions[r.start] == Begin(id, r.element.Name())
    && r.start <= r.checked
    && ElementKnown(trace, r)
    && StageKnown(actions, trace, list, id, r)
  }

  ghost predicate AllKnown(actions: seq<Action>, trace: seq<seq<Entry>>, s: System) {
    forall id :: id in s.readers ==> ReaderKnown(actions, trace, s.list, id, s.readers[id])
  }

  lemma {:induction false} KnownLater(actions: seq<Action>, trace: seq<seq<Entry>>, s: System, maxSize: nat, a: Action, id: nat, r: Reader)
    requires Sound(s, maxSize) && id in s.readers && r == s.readers[id]
    requires |trace| == |actions| + 1 && trace[|actions|] == s.list
    requires ReaderKnown(actions, trace, s.list, id, r)
    ensures var list := Next(s, maxSize, a).list;
            ReaderKnown(actions + [a], trace + [list], list, id, r.(element := Followed(r.element, s.list, list)))
  {
    var t := Next(s, maxSize, a);
    var more, longer, x := actions + [a], trace + [t.list], Followed(r.element, s.list, t.list);
    StepLookup(s, maxSize, a, r.element.Name());
    if r.element.Gone? {
      var i :| r.start <= i && LeftAt(trace, r.element.entry, i);
      assert LeftAt(longer, r.element.entry, i);
    } else if x.Gone? {
      LookupMeaning(s.list, r.element.key);
      assert LeftAt(longer, x.entry, |actions|);
    }
    if r.stage.Expired? {
      var i :| r.start <= i < |trace| && Hit(trace[i], r.element.Name(), r.stage.now) == None;
      assert longer[i] == trace[i];
    } else if !r.stage.Found? {
      var e := Held(s.list, r.element).value;
      if SetBetween(actions, r.checked, |actions|, e) {
        var j :| r.checked <= j < |actions| && actions[j].Write? && Stored(actions[j]) == e;
        assert more[j] == actions[j];
      }
      assert more[|actions|] == a;
    }
  }

  lemma {:induction false} CheckIsKnown(actions: seq<Action>, trace: seq<seq<Entry>>, s: System, maxSize: nat, id: nat, now: Time)
    requires Sound(s, maxSize) && id in s.readers && s.readers[id].stage.Found? && s.steps == |actions|
    requires |trace| == |actions| + 1 && trace[|actions|] == s.list
    requires ReaderKnown(actions, trace, s.list, id, s.readers[id])
    ensures var t := Next(s, maxSize, Check(id, now));
            ReaderKnown(actions + [Check(id, now)], trace + [t.list], t.list, id, t.readers[id])
  {
    var r, longer := s.readers[id], trace + [s.list];
    KnownLater(actions, trace, s, maxSize, Check(id, now), id, r);
    LookupMeaning(s.list, r.element.Name());
    if now > Held(s.list, r.element).value.deadline {
      if r.element.Listed? {
        assert Hit(longer[|actions|], r.element.key, now) == None;
      } else {
        var i :| r.start <= i && LeftAt(trace, r.element.entry, i);
        assert Hit(longer[i + 1], r.element.entry.key, now) == None;
      }
    }
  }

  lemma {:induction false} StepKeepsKnown(actions: seq<Action>, trace: seq<seq<Entry>>, s: System, maxSize: nat, a: Action)
    requires Sound(s, maxSize) && AllKnown(actions, trace, s) && s.steps == |actions|
    requires |trace| == |actions| + 1 && trace[|actions|] == s.list
    ensures AllKnown(actions + [a], trace + [Next(s, maxSize, a).list], Next(s, maxSize, a))
  {
    var t := Next(s, maxSize, a);
    forall id | id in t.readers ensures ReaderKnown(actions + [a], trace + [t.list], t.list, id, t.readers[id]) {
      if id in s.readers {
        KnownLater(actions, trace, s, maxSize, a, id, s.readers[id]);
        if a.Check? && a.id == id && s.readers[id].stage.Found? {
          CheckIsKnown(actions, trace, s, maxSize, id, a.now);
        } else {
          FollowedIs(s, maxSize, a, id);
        }
      }
    }
  }

  /** A Get in progress that does not look at its deadline keeps what it is, but for its element and for having moved it. */
  lemma {:induction false} FollowedIs(s: System, maxSize: nat, a: Action, id: nat)
    requires id in s.readers && !(a.Check? && a.id == id && s.readers[id].stage.Found?)
    ensures var t := Next(s, maxSize, a);
            id in t.readers ==>
              var r := s.readers[id].(element := Followed(s.readers[id].element, s.list, t.list));
              t.readers[id] == r || (r.stage.Live? && t.readers[id] == r.(stage := Moved(r.stage.now)))
  {
  }

  // ---------------------------------------------------------------------
  // Answers
  // ---------------------------------------------------------------------

  /** A Get that ran all at once on these contents, at the same clock reading, would have given this answer. */
  predicate RightFor(list: seq<Entry>, a: Answer) {
    if a.now.None? then Lookup(list, a.key) == None && a.value == None else Hit(list, a.key, a.now.value) == a.value
  }

  ghost predicate RightAtSomeInstant(trace: seq<seq<Entry>>, a: Answer) {
    exists i :: a.start <= i <= a.end < |trace| && RightFor(trace[i], a)
  }

  /** The answered value was listed in state i, good at the clock reading of the Get or Set after that reading. */
  ghost predicate GivenAt(actions: seq<Action>, trace: seq<seq<Entry>>, a: Answer, i: nat) {
    && i < |trace| && a.now.Some? && Lookup(trace[i], a.key).Some?
    && var e := Lookup(trace[i], a.key).value;
       && e.key == a.key && a.value == Some(e.value)
       && (a.now.value <= e.deadline || SetBetween(actions, a.checked, a.end, e))
  }

  ghost predicate AnswerKnown(actions: seq<Action>, trace: seq<seq<Entry>>, a: Answer) {
    && a.start <= a.checked <= a.end < |actions| && actions[a.start] == Begin(a.id, a.key)
    && (a.now.Some? ==> a.checked < a.end && actions[a.checked] == Check(a.id, a.now.value))
    && if a.value.None? then RightAtSomeInstant(trace, a) else exists i :: a.start <= i <= a.end && GivenAt(actions, trace, a, i)
  }

  ghost predicate AllAnswersKnown(actions: seq<Action>, trace: seq<seq<Entry>>, answers: seq<Answer>) {
    forall a :: a in answers ==> AnswerKnown(actions, trace, a)
  }

  lemma {:induction false} AnswerKnownLater(actions: seq<Action>, trace: seq<seq<Entry>>, a: Answer, last: Action, list: seq<Entry>)
    requires AnswerKnown(actions, trace, a) && |trace| == |actions| + 1
    ensures AnswerKnown(actions + [last], trace + [list], a)
  {
    var more, longer := actions + [last], trace + [list];
    if a.value.None? {
      var i :| a.start <= i <= a.end < |trace| && RightFor(trace[i], a);
      assert longer[i] == trace[i];
    } else {
      var i :| a.start <= i <= a.end && GivenAt(actions, trace, a, i);
      var e := Lookup(trace[i], a.key).value;
      if SetBetween(actions, a.checked, a.end, e) {
        var j :| a.checked <= j < a.end && j < |actions| && actions[j].Write? && Stored(actions[j]) == e;
        assert more[j] == actions[j];
      }
      assert longer[i] == trace[i];
      assert GivenAt(more, longer, a, i);
    }
  }

  lemma {:induction false} ReturnedIsKnown(actions: seq<Action>, trace: seq<seq<Entry>>, s: System, id: nat, e: Entry, a: Answer)
    requires id in s.readers && s.readers[id].stage.Moved? && ReaderKnown(actions, trace, s.list, id, s.readers[id])
    requires |trace| == |actions| + 1 && trace[|actions|] == s.list
    requires var r := s.readers[id];
             && Held(s.list, r.element) == Some(e)
             && a == Answer(id, e.key, Some(e.value), Some(r.stage.now), r.start, r.checked, |actions|)
    ensures AnswerKnown(actions + [Return(id)], trace + [s.list], a)
  {
    var r, more, longer := s.readers[id], actions + [Return(id)], trace + [s.list];
    LookupMeaning(s.list, r.element.Name());
    var i := |actions|;
    if r.element.Gone? {
      i :| r.start <= i && LeftAt(trace, e, i);
    }
    assert longer[i] == trace[i] && Lookup(trace[i], e.key) == Some(e);
    if SetBetween(actions, r.checked, |actions|, e) {
      var j :| r.checked <= j < |actions| && actions[j].Write? && Stored(actions[j]) == e;
      assert more[j] == actions[j];
    }
    assert GivenAt(more, longer, a, i);
  }

  lemma {:induction false} StepKeepsAnswersKnown(actions: seq<Action>, trace: seq<seq<Entry>>, s: System, maxSize: nat, last: Action)
    requires Sound(s, maxSize) && AllKnown(actions, trace, s) && s.steps == |actions|
    requires |trace| == |actions| + 1 && trace[|actions|] == s.list
    requires AllAnswersKnown(actions, trace, s.answers)
    ensures AllAnswersKnown(actions + [last], trace + [Next(s, maxSize, last).list], Next(s, maxSize, last).answers)
  {
    var t := Next(s, maxSize, last);
    forall a | a in t.answers ensures AnswerKnown(actions + [last], trace + [t.list], a) {
      if a in s.answers {
        AnswerKnownLater(actions, trace, a, last, t.list);
      } else {
        NewAnswerIsKnown(actions, trace, s, maxSize, last, a);
      }
    }
  }

  lemma {:induction false} NewAnswerIsKnown(actions: seq<Action>, trace: seq<seq<Entry>>, s: System, maxSize: nat, last: Action, a: Answer)
    requires Sound(s, maxSize) && AllKnown(actions, trace, s) && s.steps == |actions|
    requires |trace| == |actions| + 1 && trace[|actions|] == s.list
    requires a in Next(s, maxSize, last).answers && a !in s.answers
    ensures AnswerKnown(actions + [last], trace + [Next(s, maxSize, last).list], a)
  {
    var t := Next(s, maxSize, last);
    var longer := trace + [t.list];
    match last
    case Begin(id, key) => assert RightFor(longer[|actions|], a);
    case Finish(id) =>
      var r := s.readers[id];
      var i :| r.start <= i < |trace| && Hit(trace[i], r.element.Name(), r.stage.now) == None;
      assert RightFor(longer[i], a);
    case Return(id) => ReturnedIsKnown(actions, trace, s, id, Held(s.list, s.readers[id].element).value, a);
    case _ =>
  }

  lemma {:induction false} RunIsKnown(maxSize: nat, actions: seq<Action>)
    requires maxSize > 0
    ensures AllKnown(actions, Trace(maxSize, actions), Run(Initial(), maxSize, actions))
    ensures AllAnswersKnown(actions, Trace(maxSize, actions), Run(Initial(), maxSize, actions).answers)
  {
    if actions == [] {
    } else {
      var before, last := actions[..|actions| - 1], actions[|actions| - 1];
      var s := Run(Initial(), maxSize, before);
      assert before + [last] == actions;
      RunIsKnown(maxSize, before);
      RunIsSound(maxSize, before);
      StepKeepsKnown(before, Trace(maxSize, before), s, maxSize, last);
      StepKeepsAnswersKnown(before, Trace(maxSize, before), s, maxSize, last);
    }
  }

  /** A miss is always right: at some instant of the Get its key was missing, or expired at its clock reading. */
  lemma {:induction false} MissesAreRight(maxSize: nat, actions: seq<Action>, a: Answer)
    requires maxSize > 0 && a in Run(Initial(), maxSize, actions).answers && a.value.None?
    ensures RightAtSomeInstant(Trace(maxSize, actions), a)
  {
    RunIsKnown(maxSize, actions);
  }

  // ---------------------------------------------------------------------
  // When a returned value is right
  // ---------------------------------------------------------------------

  /** Every listed entry was stored by some Set of the run. */
  lemma {:induction false} ListedWereSet(maxSize: nat, actions: seq<Action>, i: nat, key: Key)
    requires maxSize > 0 && i <= |actions|
    ensures var found := Lookup(Trace(maxSize, actions)[i], key);
            found.Some? ==> found.value.key == key && SetBetween(actions, 0, i, found.value)
    decreases |actions|
  {
    var trace := Trace(maxSize, actions);
    LookupMeaning(trace[i], key);
    if actions == [] {
    } else {
      var before, last := actions[..|actions| - 1], actions[|actions| - 1];
      if i < |actions| {
        ListedWereSet(maxSize, before, i, key);
        SetBetweenLater(actions, 0, i, Lookup(trace[i], key));
      } else {
        RunIsSound(maxSize, before);
        StepLookup(Run(Initial(), maxSize, before), maxSize, last, key);
        ListedWereSet(maxSize, before, i - 1, key);
        SetBetweenLater(actions, 0, i - 1, Lookup(trace[i - 1], key));
      }
    }
  }

  lemma {:induction false} SetBetweenLater(actions: seq<Action>, from: nat, to: nat, found: Option<Entry>)
    requires actions != []
    ensures found.Some? && SetBetween(actions[..|actions| - 1], from, to, found.value) ==>
              SetBetween(actions, from, to, found.value) && SetBetween(actions, from, to + 1, found.value)
  {
    var before := actions[..|actions| - 1];
    if found.Some? && SetBetween(before, from, to, found.value) {
      var j :| from <= j < to && j < |before| && before[j].Write? && Stored(before[j]) == found.value;
      assert actions[j] == before[j];
    }
  }

  /** A Set of the answered value and key, after the Get looked at the deadline and before it answered, that was already
      past its own deadline at the Get's clock reading. */
  ghost predicate SetAlreadyLapsed(actions: seq<Action>, a: Answer) {
    exists j :: a.checked < j < a.end && j < |actions| && actions[j].Write? && actions[j].key == a.key
                && a.value == Some(actions[j].value) && a.now.Some? && actions[j].now + actions[j].ttl < a.now.value
  }

  /** No two Sets of the run store the same value under the same key. */
  ghost predicate ValuesAreDistinct(actions: seq<Action>) {
    forall i, j :: 0 <= i < j < |actions| && actions[i].Write? && actions[j].Write? ==>
      actions[i].key != actions[j].key || actions[i].value != actions[j].value
  }

  lemma {:induction false} ValuesAreRightUnlessLapsed(maxSize: nat, actions: seq<Action>, a: Answer)
    requires maxSize > 0 && a in Run(Initial(), maxSize, actions).answers && a.value.Some?
    requires !SetAlreadyLapsed(actions, a)
    ensures RightAtSomeInstant(Trace(maxSize, actions), a)
  {
    var trace := Trace(maxSize, actions);
    RunIsKnown(maxSize, actions);
    assert AnswerKnown(actions, trace, a);
    var i :| a.start <= i <= a.end && GivenAt(actions, trace, a, i);
    var e := Lookup(trace[i], a.key).value;
    forall j | a.checked <= j < a.end && j < |actions| && actions[j].Write? && Stored(actions[j]) == e
      ensures a.now.value <= e.deadline {
      assert actions[a.checked].Check?;
    }
    assert a.now.value <= e.deadline;
    assert RightFor(trace[i], a);
  }

  /** Every value that a Get returns is the one an undivided Get at the same clock reading would have returned at some
      instant between its start and its end, unless a Set between its look at the deadline and its answer stored that value
      already past its deadline; where values tell the Sets apart, exactly unless. */
  lemma {:induction false} ValuesAreRightExactlyWhen(maxSize: nat, actions: seq<Action>, a: Answer)
    requires maxSize > 0 && a in Run(Initial(), maxSize, actions).answers && a.value.Some?
    requires ValuesAreDistinct(actions)
    ensures RightAtSomeInstant(Trace(maxSize, actions), a) <==> !SetAlreadyLapsed(actions, a)
  {
    var trace := Trace(maxSize, actions);
    if !SetAlreadyLapsed(actions, a) {
      ValuesAreRightUnlessLapsed(maxSize, actions, a);
    } else {
      var j :| a.checked < j < a.end && j < |actions| && actions[j].Write? && actions[j].key == a.key
               && a.value == Some(actions[j].value) && a.now.Some? && actions[j].now + actions[j].ttl < a.now.value;
      forall i | a.start <= i <= a.end < |trace| ensures !RightFor(trace[i], a) {
        ListedWereSet(maxSize, actions, i, a.key);
        if Lookup(trace[i], a.key).Some? && Some(Lookup(trace[i], a.key).value.value) == a.value {
          var e := Lookup(trace[i], a.key).value;
          var k :| 0 <= k < i && k < |actions| && actions[k].Write? && Stored(actions[k]) == e;
          assert k == j;
        }
      }
    }
  }

  predicate HasClock(a: Action) {
    a.Check? || a.Write? || a.Sweep?
  }

  /** The clock never runs backwards. */
  ghost predicate ClockIsMonotone(actions: seq<Action>) {
    forall i, j :: 0 <= i < j < |actions| && HasClock(actions[i]) && HasClock(actions[j]) ==> actions[i].now <= actions[j].now
  }

  /** With a clock that never runs backwards and no negative ttl, every answer of every Get is the one an undivided Get at
      the same clock reading would have given at some instant between its start and its end. */
  lemma {:induction false} AnswersAreRight(maxSize: nat, actions: seq<Action>, a: Answer)
    requires maxSize > 0 && a in Run(Initial(), maxSize, actions).answers
    requires ClockIsMonotone(actions)
    requires forall j :: 0 <= j < |actions| && actions[j].Write? ==> actions[j].ttl >= 0
    ensures RightAtSomeInstant(Trace(maxSize, actions), a)
  {
    RunIsKnown(maxSize, actions);
    assert AnswerKnown(actions, Trace(maxSize, actions), a);
    if a.value.None? {
      MissesAreRight(maxSize, actions, a);
    } else {
      var i :| a.start <= i <= a.end && GivenAt(actions, Trace(maxSize, actions), a, i);
      assert HasClock(actions[a.checked]);
      forall j | a.checked < j < a.end && actions[j].Write? ensures a.now.value <= actions[j].now + actions[j].ttl {
        assert HasClock(actions[j]);
      }
      ValuesAreRightUnlessLapsed(maxSize, actions, a);
    }
  }

  // ---------------------------------------------------------------------
  // Every Get that takes its steps is answered
  // ---------------------------------------------------------------------

  /** How many of its steps a Get has taken. */
  function Taken(stage: Stage): nat {
    match stage
    case Found => 1
    case Live(_) => 2
    case Expired(_) => 2
    case Moved(_) => 3
  }

  /** The Get that began at some point has been answered. */
  predicate AnsweredIn(answers: seq<Answer>, id: nat, key: Key, start: nat) {
    answers != []
    && var a := answers[|answers| - 1];
       (a.id == id && a.key == key && a.start == start) || AnsweredIn(answers[..|answers| - 1], id, key, start)
  }

  /** It has been answered, or has taken at least so many steps. */
  predicate Advanced(s: System, id: nat, key: Key, start: nat, steps: nat) {
    || AnsweredIn(s.answers, id, key, start)
    || (id in s.readers && s.readers[id].start == start && s.readers[id].element.Name() == key && Taken(s.readers[id].stage) >= steps)
  }

  /** The action is the step that a Get takes after so many. */
  predicate IsStep(a: Action, id: nat, steps: nat) {
    (a.Check? && a.id == id && steps == 1) || (a == Finish(id) && steps == 2) || (a == Return(id) && steps == 3)
  }

  /** The action is the last step of the Get. */
  predicate Ends(a: Action, id: nat, stage: Stage) {
    (a == Finish(id) && stage.Expired?) || (a == Return(id) && stage.Moved?)
  }

  lemma {:induction false} ReaderAdvances(s: System, maxSize: nat, a: Action, id: nat)
    requires Sound(s, maxSize) && id in s.readers && !Ends(a, id, s.readers[id].stage)
    ensures var t, r := Next(s, maxSize, a), s.readers[id];
            && id in t.readers && t.readers[id].start == r.start && t.readers[id].element.Name() == r.element.Name()
            && Taken(t.readers[id].stage) >= Taken(r.stage)
            && (IsStep(a, id, Taken(r.stage)) ==> Taken(t.readers[id].stage) > Taken(r.stage))
  {
    LookupMeaning(s.list, s.readers[id].element.Name());
  }

  lemma {:induction false} LastStepAnswers(s: System, maxSize: nat, a: Action, id: nat)
    requires Sound(s, maxSize) && id in s.readers && Ends(a, id, s.readers[id].stage)
    ensures var t, r := Next(s, maxSize, a), s.readers[id];
            && |t.answers| == |s.answers| + 1
            && var last := t.answers[|s.answers|]; last.id == id && last.key == r.element.Name() && last.start == r.start
  {
    LookupMeaning(s.list, s.readers[id].element.Name());
  }

  lemma {:induction false} AnswersOnlyGrow(s: System, maxSize: nat, a: Action)
    ensures var before, after := s.answers, Next(s, maxSize, a).answers;
            after == before || (|after| == |before| + 1 && after[..|before|] == before)
  {
  }

  lemma {:induction false} StepAdvances(s: System, maxSize: nat, a: Action, id: nat, key: Key, start: nat, steps: nat)
    requires Sound(s, maxSize) && Advanced(s, id, key, start, steps)
    ensures Advanced(Next(s, maxSize, a), id, key, start, steps)
    ensures IsStep(a, id, steps) ==> Advanced(Next(s, maxSize, a), id, key, start, steps + 1)
  {
    AnswersOnlyGrow(s, maxSize, a);
    if !AnsweredIn(s.answers, id, key, start) {
      if Ends(a, id, s.readers[id].stage) {
        LastStepAnswers(s, maxSize, a, id);
      } else {
        ReaderAdvances(s, maxSize, a, id);
      }
    }
  }

  lemma {:induction false} OneMore(maxSize: nat, actions: seq<Action>, n: nat)
    requires n < |actions|
    ensures Run(Initial(), maxSize, actions[..n + 1]) == Next(Run(Initial(), maxSize, actions[..n]), maxSize, actions[n])
  {
    assert actions[..n + 1][..n] == actions[..n];
  }

  lemma {:induction false} AdvancesAt(maxSize: nat, actions: seq<Action>, n: nat, id: nat, key: Key, start: nat, steps: nat)
    requires maxSize > 0 && n < |actions| && AdvancedAt(maxSize, actions, n, id, key, start, steps)
    ensures AdvancedAt(maxSize, actions, n + 1, id, key, start, if IsStep(actions[n], id, steps) then steps + 1 else steps)
  {
    OneMore(maxSize, actions, n);
    RunIsSound(maxSize, actions[..n]);
    StepAdvances(Run(Initial(), maxSize, actions[..n]), maxSize, actions[n], id, key, start, steps);
  }

  lemma {:induction false} AdvancesWeaken(maxSize: nat, actions: seq<Action>, n: nat, id: nat, key: Key, start: nat, steps: nat)
    requires AdvancedAt(maxSize, actions, n, id, key, start, steps + 1)
    ensures AdvancedAt(maxSize, actions, n, id, key, start, steps)
  {
  }

  lemma {:induction false} StaysAdvanced(maxSize: nat, actions: seq<Action>, from: nat, until: nat, id: nat, key: Key, start: nat, steps: nat)
    requires maxSize > 0 && from <= until <= |actions| && AdvancedAt(maxSize, actions, from, id, key, start, steps)
    ensures AdvancedAt(maxSize, actions, until, id, key, start, steps)
    decreases until
  {
    if from == until {
    } else {
      StaysAdvanced(maxSize, actions, from, until - 1, id, key, start, steps);
      AdvancesAt(maxSize, actions, until - 1, id, key, start, steps);
      if IsStep(actions[until - 1], id, steps) {
        AdvancesWeaken(maxSize, actions, until, id, key, start, steps);
      }
    }
  }

  lemma {:induction false} AdvancesThrough(maxSize: nat, actions: seq<Action>, from: nat, n: nat, id: nat, key: Key, start: nat, steps: nat)
    requires maxSize > 0 && from <= n < |actions| && AdvancedAt(maxSize, actions, from, id, key, start, steps)
    requires IsStep(actions[n], id, steps)
    ensures AdvancedAt(maxSize, actions, n + 1, id, key, start, steps + 1)
  {
    StaysAdvanced(maxSize, actions, from, n, id, key, start, steps);
    AdvancesAt(maxSize, actions, n, id, key, start, steps);
  }

  ghost predicate AdvancedAt(maxSize: nat, actions: seq<Action>, n: nat, id: nat, key: Key, start: nat, steps: nat) {
    n <= |actions| && Advanced(Run(Initial(), maxSize, actions[..n]), id, key, start, steps)
  }

  lemma {:induction false} AdvancesToTheEnd(maxSize: nat, actions: seq<Action>, id: nat, key: Key,
                                            begin: nat, check: nat, finish: nat, ret: nat)
    requires maxSize > 0 && begin < check < finish < ret < |actions|
    requires AdvancedAt(maxSize, actions, begin + 1, id, key, begin, 1)
    requires actions[check].Check? && actions[check].id == id && actions[finish] == Finish(id) && actions[ret] == Return(id)
    ensures AdvancedAt(maxSize, actions, ret + 1, id, key, begin, 4)
  {
    AdvancesToTheLast(maxSize, actions, id, key, begin, check, finish);
    AdvancesThrough(maxSize, actions, finish + 1, ret, id, key, begin, 3);
  }

  lemma {:induction false} AdvancesToTheLast(maxSize: nat, actions: seq<Action>, id: nat, key: Key, begin: nat, check: nat, finish: nat)
    requires maxSize > 0 && begin < check < finish < |actions|
    requires AdvancedAt(maxSize, actions, begin + 1, id, key, begin, 1)
    requires actions[check].Check? && actions[check].id == id && actions[finish] == Finish(id)
    ensures AdvancedAt(maxSize, actions, finish + 1, id, key, begin, 3)
  {
    AdvancesThrough(maxSize, actions, begin + 1, check, id, key, begin, 1);
    AdvancesThrough(maxSize, actions, check + 1, finish, id, key, begin, 2);
  }

  /** A Get that begins and takes its three further steps in order is answered, for its own key. */
  lemma {:induction false} EveryGetIsAnswered(maxSize: nat, actions: seq<Action>, id: nat, key: Key,
                                              begin: nat, check: nat, finish: nat, ret: nat)
    requires maxSize > 0 && begin < check < finish < ret < |actions|
    requires actions[begin] == Begin(id, key) && id !in Run(Initial(), maxSize, actions[..begin]).readers
    requires actions[check].Check? && actions[check].id == id && actions[finish] == Finish(id) && actions[ret] == Return(id)
    ensures exists a :: a in Run(Initial(), maxSize, actions).answers && a.id == id && a.key == key && a.start == begin
  {
    BeginAdvances(maxSize, actions, begin);
    AdvancesToTheEnd(maxSize, actions, id, key, begin, check, finish, ret);
    StaysAdvanced(maxSize, actions, ret + 1, |actions|, id, key, begin, 4);
    assert actions[..|actions|] == actions;
    FourStepsAreAnswered(Run(Initial(), maxSize, actions), id, key, begin);
  }

  lemma {:induction false} FourStepsAreAnswered(s: System, id: nat, key: Key, start: nat)
    requires Advanced(s, id, key, start, 4)
    ensures exists a :: a in s.answers && a.id == id && a.key == key && a.start == start
  {
    AnsweredMeansIn(s.answers, id, key, start);
  }

  lemma {:induction false} AnsweredMeansIn(answers: seq<Answer>, id: nat, key: Key, start: nat)
    ensures AnsweredIn(answers, id, key, start) <==> exists a :: a in answers && a.id == id && a.key == key && a.start == start
  {
    if answers == [] {
    } else {
      AnsweredMeansIn(answers[..|answers| - 1], id, key, start);
      assert answers == answers[..|answers| - 1] + [answers[|answers| - 1]];
    }
  }

  lemma {:induction false} BeginAdvances(maxSize: nat, actions: seq<Action>, n: nat)
    requires maxSize > 0 && n < |actions| && actions[n].Begin? && actions[n].id !in Run(Initial(), maxSize, actions[..n]).readers
    ensures Advanced(Run(Initial(), maxSize, actions[..n + 1]), actions[n].id, actions[n].key, n, 1)
  {
    OneMore(maxSize, actions, n);
    RunIsSound(maxSize, actions[..n]);
    var s, t := Run(Initial(), maxSize, actions[..n]), Run(Initial(), maxSize, actions[..n + 1]);
    assert actions[n].id !in t.readers ==> t.answers[|s.answers|].key == actions[n].key;
  }

  // ---------------------------------------------------------------------
  // A Get that removes a value Set meanwhile
  // ---------------------------------------------------------------------

  /** The key holds what the Set at j stored, ever since, up to some point of the run. */
  ghost predicate StandsSince(actions: seq<Action>, trace: seq<seq<Entry>>, j: nat, to: nat, key: Key) {
    && j < to <= |actions| && to < |trace| && actions[j].Write? && actions[j].key == key
    && (forall i :: j < i <= to ==> Lookup(trace[i], key) == Some(Stored(actions[j])))
    && (forall i :: j < i < to ==> !(actions[i].Write? && actions[i].key == key))
  }

  lemma {:induction false} StandsLater(actions: seq<Action>, trace: seq<seq<Entry>>, j: nat, key: Key, last: Action, list: seq<Entry>)
    requires |trace| == |actions| + 1 && StandsSince(actions, trace, j, |actions|, key)
    requires !(last.Write? && last.key == key) && Lookup(list, key) == Lookup(trace[|actions|], key)
    ensures StandsSince(actions + [last], trace + [list], j, |actions| + 1, key)
  {
    forall i | j < i <= |actions| + 1 ensures Lookup((trace + [list])[i], key) == Some(Stored(actions[j])) {
      assert i <= |actions| ==> (trace + [list])[i] == trace[i];
    }
  }

  /** Whatever a key holds was stored by the latest Set of it, and was not removed since. */
  lemma {:induction false} ListedStands(maxSize: nat, actions: seq<Action>, key: Key)
    requires maxSize > 0 && Lookup(Run(Initial(), maxSize, actions).list, key).Some?
    ensures exists j: nat :: StandsSince(actions, Trace(maxSize, actions), j, |actions|, key)
  {
    if actions == [] {
    } else {
      var before, last := actions[..|actions| - 1], actions[|actions| - 1];
      assert before + [last] == actions;
      RunIsSound(maxSize, before);
      StepLookup(Run(Initial(), maxSize, before), maxSize, last, key);
      if last.Write? && last.key == key {
        assert StandsSince(actions, Trace(maxSize, actions), |before|, |actions|, key);
      } else {
        ListedStands(maxSize, before, key);
        StillStands(maxSize, before, last, actions, key);
      }
    }
  }

  lemma {:induction false} StillStands(maxSize: nat, before: seq<Action>, last: Action, actions: seq<Action>, key: Key)
    requires exists j: nat :: StandsSince(before, Trace(maxSize, before), j, |before|, key)
    requires actions == before + [last] && !(last.Write? && last.key == key)
    requires Lookup(Run(Initial(), maxSize, actions).list, key) == Lookup(Run(Initial(), maxSize, before).list, key)
    ensures exists j: nat :: StandsSince(actions, Trace(maxSize, actions), j, |actions|, key)
  {
    var j: nat :| StandsSince(before, Trace(maxSize, before), j, |before|, key);
    var list := Run(Initial(), maxSize, actions).list;
    assert actions[..|before|] == before;
    assert Trace(maxSize, actions) == Trace(maxSize, before) + [list];
    StandsLater(before, Trace(maxSize, before), j, key, last, list);
    assert StandsSince(actions, Trace(maxSize, actions), j, |actions|, key);
  }

  /** If the key was not Set since the Get began, then it holds nothing, or what the Get's element holds, which is past its
      deadline if the Get saw it expired. */
  ghost predicate ExpiryKnown(actions: seq<Action>, list: seq<Entry>, r: Reader) {
    NotSetSince(actions, r.start, r.element.Name()) ==> NothingNew(list, r)
  }

  ghost predicate NotSetSince(actions: seq<Action>, from: nat, key: Key) {
    forall j :: from <= j < |actions| ==> !(actions[j].Write? && actions[j].key == key)
  }

  predicate NothingNew(list: seq<Entry>, r: Reader) {
    var found := Lookup(list, r.element.Name());
    found.None? || (r.element.Listed? && (r.stage.Expired? ==> r.stage.now > found.value.deadline))
  }

  lemma {:induction false} NotSetBefore(actions: seq<Action>, a: Action, from: nat, key: Key)
    requires from <= |actions| && NotSetSince(actions + [a], from, key)
    ensures NotSetSince(actions, from, key) && !(a.Write? && a.key == key)
  {
    var more := actions + [a];
    forall j | from <= j < |actions| ensures !(actions[j].Write? && actions[j].key == key) {
      assert more[j] == actions[j];
    }
    assert more[|actions|] == a;
  }

  lemma {:induction false} StepBringsNothingNew(s: System, maxSize: nat, a: Action, id: nat)
    requires Sound(s, maxSize) && id in s.readers && id in Next(s, maxSize, a).readers
    requires NothingNew(s.list, s.readers[id]) && !(a.Write? && a.key == s.readers[id].element.Name())
    ensures NothingNew(Next(s, maxSize, a).list, Next(s, maxSize, a).readers[id])
  {
    var key := s.readers[id].element.Name();
    StepLookup(s, maxSize, a, key);
    LookupMeaning(s.list, key);
    if !(a.Check? && a.id == id && s.readers[id].stage.Found?) {
      FollowedIs(s, maxSize, a, id);
    }
  }

  lemma {:induction false} ReaderKeepsItsKey(s: System, maxSize: nat, a: Action, id: nat)
    requires Sound(s, maxSize) && id in s.readers && id in Next(s, maxSize, a).readers
    ensures var r := Next(s, maxSize, a).readers[id];
            r.element.Name() == s.readers[id].element.Name() && r.start == s.readers[id].start
  {
    LookupMeaning(s.list, s.readers[id].element.Name());
    if !(a.Check? && a.id == id && s.readers[id].stage.Found?) {
      FollowedIs(s, maxSize, a, id);
    }
  }

  lemma {:induction false} StepKeepsExpiryKnown(actions: seq<Action>, s: System, maxSize: nat, a: Action, id: nat)
    requires Sound(s, maxSize) && s.steps == |actions|
    requires id in s.readers ==> s.readers[id].start < |actions| && ExpiryKnown(actions, s.list, s.readers[id])
    requires id in Next(s, maxSize, a).readers
    ensures ExpiryKnown(actions + [a], Next(s, maxSize, a).list, Next(s, maxSize, a).readers[id])
  {
    var r := Next(s, maxSize, a).readers[id];
    if id in s.readers && NotSetSince(actions + [a], r.start, r.element.Name()) {
      ReaderKeepsItsKey(s, maxSize, a, id);
      NotSetBefore(actions, a, r.start, r.element.Name());
      StepBringsNothingNew(s, maxSize, a, id);
    }
  }

  lemma {:induction false} RunKeepsExpiryKnown(maxSize: nat, actions: seq<Action>, id: nat)
    requires maxSize > 0 && id in Run(Initial(), maxSize, actions).readers
    ensures ExpiryKnown(actions, Run(Initial(), maxSize, actions).list, Run(Initial(), maxSize, actions).readers[id])
  {
    if actions == [] {
    } else {
      var before, last := actions[..|actions| - 1], actions[|actions| - 1];
      assert before + [last] == actions;
      RunIsSound(maxSize, before);
      RunIsKnown(maxSize, before);
      var s := Run(Initial(), maxSize, before);
      if id in s.readers {
        assert ReaderKnown(before, Trace(maxSize, before), s.list, id, s.readers[id]);
        RunKeepsExpiryKnown(maxSize, before, id);
      }
      StepKeepsExpiryKnown(before, s, maxSize, last, id);
    }
  }

  /** The latest Set of the key was made at or after a point of the run, still stands and is good at a time. */
  ghost predicate LiveSetStands(actions: seq<Action>, trace: seq<seq<Entry>>, from: nat, key: Key, now: Time) {
    exists j: nat :: from <= j && StandsSince(actions, trace, j, |actions|, key) && now <= actions[j].now + actions[j].ttl
  }

  lemma {:induction false} LiveMeansSetSince(maxSize: nat, actions: seq<Action>, id: nat, r: Reader)
    requires maxSize > 0 && id in Run(Initial(), maxSize, actions).readers
    requires r == Run(Initial(), maxSize, actions).readers[id] && r.stage.Expired?
    requires Hit(Run(Initial(), maxSize, actions).list, r.element.Name(), r.stage.now).Some?
    ensures LiveSetStands(actions, Trace(maxSize, actions), r.start, r.element.Name(), r.stage.now)
  {
    var key := r.element.Name();
    ListedStands(maxSize, actions, key);
    var j: nat :| StandsSince(actions, Trace(maxSize, actions), j, |actions|, key);
    RunKeepsExpiryKnown(maxSize, actions, id);
    var k :| r.start <= k < |actions| && actions[k].Write? && actions[k].key == key;
    assert k <= j;
  }

  /** The remove of a Get that saw its key expired takes away an entry that is still good at its clock reading exactly when
      such an entry was Set since that Get began and has not been overwritten or removed since. */
  lemma {:induction false} FinishRemovesALiveEntryExactlyWhen(maxSize: nat, actions: seq<Action>, id: nat, s: System, r: Reader)
    requires maxSize > 0 && s == Run(Initial(), maxSize, actions)
    requires id in s.readers && r == s.readers[id] && r.stage.Expired?
    ensures Lookup(Next(s, maxSize, Finish(id)).list, r.element.Name()) == None
    ensures Hit(s.list, r.element.Name(), r.stage.now).Some? <==>
            LiveSetStands(actions, Trace(maxSize, actions), r.start, r.element.Name(), r.stage.now)
  {
    LookupWithout(s.list, r.element.Name(), r.element.Name());
    if Hit(s.list, r.element.Name(), r.stage.now).Some? {
      LiveMeansSetSince(maxSize, actions, id, r);
    }
  }

  // ---------------------------------------------------------------------
  // What is certain to hit in spite of overlapping Gets
  // ---------------------------------------------------------------------

  /** The keys that an action puts at the front of the list. */
  ghost function PutInFront(s: System, a: Action): set<Key> {
    match a
    case Write(key, _, _, _) => {key}
    case Finish(id) => if id in s.readers && s.readers[id].stage.Live? then {s.readers[id].element.Name()} else {}
    case _ => {}
  }

  /** The keys other than one that a run puts at the front. */
  ghost function OthersInFront(s: System, maxSize: nat, actions: seq<Action>, key: Key): set<Key> {
    if actions == [] then {}
    else
      var before := actions[..|actions| - 1];
      OthersInFront(s, maxSize, before, key) + (PutInFront(Run(s, maxSize, before), actions[|actions| - 1]) - {key})
  }

  /** The action neither overwrites nor deletes the entry, nor sweeps it away, nor is the remove of a Get that saw its key
      expired. */
  ghost predicate Spares(s: System, a: Action, entry: Entry) {
    match a
    case Write(key, _, _, _) => key != entry.key
    case Erase(key) => key != entry.key
    case Sweep(now) => now <= entry.deadline
    case Finish(id) => id in s.readers && s.readers[id].stage.Expired? ==> s.readers[id].element.Name() != entry.key
    case _ => true
  }

  ghost predicate AllSpare(s: System, maxSize: nat, actions: seq<Action>, entry: Entry) {
    actions == []
    || (AllSpare(s, maxSize, actions[..|actions| - 1], entry)
        && Spares(Run(s, maxSize, actions[..|actions| - 1]), actions[|actions| - 1], entry))
  }

  lemma {:induction false} MovingKeepsNear(list: seq<Entry>, x: Element, entry: Entry, keys: set<Key>)
    requires NoDuplicates(list) && Near(list, entry, keys) && entry.key !in keys
    requires x.Name() == entry.key || x.Name() in keys
    ensures Near(MovedToFront(list, x), entry, keys)
  {
    NearLookup(list, entry, keys);
    LookupMeaning(list, x.Name());
    if x.Listed? && x.key != entry.key && Lookup(list, x.key).Some? {
      NearWithout(list, entry, keys, x.key);
      assert MovedToFront(list, x)[1..] == Without(list, x.key);
    }
  }

  lemma {:induction false} StepKeepsNear(s: System, maxSize: nat, a: Action, entry: Entry, keys: set<Key>, more: set<Key>)
    requires Sound(s, maxSize) && Near(s.list, entry, keys) && entry.key !in keys && Spares(s, a, entry)
    requires more == keys + (PutInFront(s, a) - {entry.key}) && |more| < maxSize
    ensures Near(Next(s, maxSize, a).list, entry, more)
  {
    NearWeaken(s.list, entry, keys, more);
    match a
    case Write(_, _, _, _) => SetKeepsNear(s.list, maxSize, entry, more, Stored(a));
    case Erase(key) => NearWithout(s.list, entry, more, key);
    case Sweep(now) => NearFresh(s.list, entry, more, now);
    case Finish(id) =>
      if id in s.readers && s.readers[id].stage.Live? {
        MovingKeepsNear(s.list, s.readers[id].element, entry, more);
      } else if id in s.readers && s.readers[id].stage.Expired? {
        NearWithout(s.list, entry, more, s.readers[id].element.Name());
      }
    case _ =>
  }

  lemma {:induction false} RunKeepsNearInFront(s: System, maxSize: nat, actions: seq<Action>, entry: Entry)
    requires Sound(s, maxSize) && Near(s.list, entry, {}) && AllSpare(s, maxSize, actions, entry)
    requires |OthersInFront(s, maxSize, actions, entry.key)| < maxSize
    ensures Sound(Run(s, maxSize, actions), maxSize)
    ensures Near(Run(s, maxSize, actions).list, entry, OthersInFront(s, maxSize, actions, entry.key))
    ensures entry.key !in OthersInFront(s, maxSize, actions, entry.key)
  {
    if actions == [] {
    } else {
      var before, a := actions[..|actions| - 1], actions[|actions| - 1];
      var t := Run(s, maxSize, before);
      var keys, more := OthersInFront(s, maxSize, before, entry.key), OthersInFront(s, maxSize, actions, entry.key);
      SmallerSubset(keys, more);
      RunKeepsNearInFront(s, maxSize, before, entry);
      StepIsSound(t, maxSize, a);
      StepKeepsNear(t, maxSize, a, entry, keys, more);
    }
  }

  /** A value that was Set is certain to hit until its deadline, however calls overlap, if it is not overwritten or deleted,
      fewer than maxSize other keys are put in front, and no Get of its key removes it after having seen it expired. */
  lemma {:induction false} HitsUntilDeadlineUnlessRemovedByAGet(maxSize: nat, before: seq<Action>, write: Action, after: seq<Action>,
                                                                s: System, now: Time)
    requires maxSize > 0 && write.Write? && s == Next(Run(Initial(), maxSize, before), maxSize, write)
    requires AllSpare(s, maxSize, after, Stored(write)) && |OthersInFront(s, maxSize, after, write.key)| < maxSize
    requires now <= write.now + write.ttl
    ensures Hit(Run(s, maxSize, after).list, write.key, now) == Some(write.value)
  {
    RunIsSound(maxSize, before);
    StepIsSound(Run(Initial(), maxSize, before), maxSize, write);
    RunKeepsNearInFront(s, maxSize, after, Stored(write));
    NearLookup(Run(s, maxSize, after).list, Stored(write), OthersInFront(s, maxSize, after, write.key));
  }

  // ---------------------------------------------------------------------
  // Runs in which dividing Get shows
  // ---------------------------------------------------------------------

  lemma {:induction false} Appended(maxSize: nat, actions: seq<Action>, last: Action)
    ensures Run(Initial(), maxSize, actions + [last]) == Next(Run(Initial(), maxSize, actions), maxSize, last)
  {
    assert (actions + [last])[..|actions|] == actions;
  }

  /** A Set, and a Get that looks at its deadline. */
  function SetAndCheck(key: Key, value: Value, ttl: Time, start: Time, now: Time): seq<Action> {
    [Write(key, value, ttl, start)] + [Begin(0, key)] + [Check(0, now)]
  }

  lemma {:induction false} AfterSetAndCheck(maxSize: nat, key: Key, value: Value, ttl: Time, start: Time, now: Time)
    requires maxSize > 0
    ensures Run(Initial(), maxSize, SetAndCheck(key, value, ttl, start, now))
         == System([Entry(key, value, start + ttl)],
                   map[0 := Reader(Listed(key), if now > start + ttl then Expired(now) else Live(now), 1, 2)], [], 3)
  {
    var one := [Write(key, value, ttl, start)];
    assert one[..0] == [];
    assert Run(Initial(), maxSize, one).list == [Entry(key, value, start + ttl)];
    Appended(maxSize, one, Begin(0, key));
    Appended(maxSize, one + [Begin(0, key)], Check(0, now));
  }

  /** A value Set after a Get saw the one before it expired, and before it removes: the new value would hit until its own
      deadline, however far, and the Get's remove takes it away. */
  lemma {:induction false} GetRemovesAValueSetMeanwhile(maxSize: nat, key: Key, value: Value, ttl: Time, start: Time, now: Time,
                                                        newer: Value, newerTTL: Time, later: Time)
    requires maxSize > 0 && start + ttl < now
    ensures var actions := SetAndCheck(key, value, ttl, start, now) + [Write(key, newer, newerTTL, later)];
            && (forall t :: t <= later + newerTTL ==> Hit(Run(Initial(), maxSize, actions).list, key, t) == Some(newer))
            && (forall t :: Hit(Run(Initial(), maxSize, actions + [Finish(0)]).list, key, t) == None)
  {
    var first := SetAndCheck(key, value, ttl, start, now);
    AfterSetAndCheck(maxSize, key, value, ttl, start, now);
    Appended(maxSize, first, Write(key, newer, newerTTL, later));
    var s := Run(Initial(), maxSize, first + [Write(key, newer, newerTTL, later)]);
    assert Without([Entry(key, value, start + ttl)], key) == [];
    assert s.list == [Entry(key, newer, later + newerTTL)];
    Appended(maxSize, first + [Write(key, newer, newerTTL, later)], Finish(0));
    LookupWithout(s.list, key, key);
  }

  /** A Set with a negative ttl between a Get's look at the deadline and its answer: the Get returns the lapsed value, which
      no undivided Get at its clock reading would have returned at any instant. */
  lemma {:induction false} GetReturnsALapsedValue(maxSize: nat, key: Key, value: Value, ttl: Time, start: Time, now: Time,
                                                  newer: Value, negative: Time, later: Time)
    requires maxSize > 0 && start <= now <= later && now <= start + ttl && later + negative < now && newer != value
    ensures var actions := SetAndCheck(key, value, ttl, start, now) + [Write(key, newer, negative, later)] + [Finish(0)] + [Return(0)];
            var a := Answer(0, key, Some(newer), Some(now), 1, 2, 5);
            && Run(Initial(), maxSize, actions).answers == [a]
            && ClockIsMonotone(actions)
            && !RightAtSomeInstant(Trace(maxSize, actions), a)
  {
    var actions := SetAndCheck(key, value, ttl, start, now) + [Write(key, newer, negative, later)] + [Finish(0)] + [Return(0)];
    var a := Answer(0, key, Some(newer), Some(now), 1, 2, 5);
    LapsedValueIsReturned(maxSize, key, value, ttl, start, now, newer, negative, later);
    assert a in Run(Initial(), maxSize, actions).answers;
    LapsedMeanwhile(key, value, ttl, start, now, newer, negative, later, actions, a);
    ValuesAreRightExactlyWhen(maxSize, actions, a);
  }

  lemma {:induction false} LapsedMeanwhile(key: Key, value: Value, ttl: Time, start: Time, now: Time, newer: Value, negative: Time,
                                           later: Time, actions: seq<Action>, a: Answer)
    requires start <= now <= later && later + negative < now && newer != value
    requires actions == [Write(key, value, ttl, start), Begin(0, key), Check(0, now), Write(key, newer, negative, later), Finish(0), Return(0)]
    requires a == Answer(0, key, Some(newer), Some(now), 1, 2, 5)
    ensures ClockIsMonotone(actions) && ValuesAreDistinct(actions) && SetAlreadyLapsed(actions, a)
  {
    assert actions[3] == Write(key, newer, negative, later);
    assert forall i :: 0 <= i < |actions| && HasClock(actions[i]) ==> i == 0 || i == 2 || i == 3;
  }

  lemma {:induction false} LapsedValueIsReturned(maxSize: nat, key: Key, value: Value, ttl: Time, start: Time, now: Time,
                                                 newer: Value, negative: Time, later: Time)
    requires maxSize > 0 && now <= start + ttl
    ensures var actions := SetAndCheck(key, value, ttl, start, now) + [Write(key, newer, negative, later)] + [Finish(0)] + [Return(0)];
            Run(Initial(), maxSize, actions).answers == [Answer(0, key, Some(newer), Some(now), 1, 2, 5)]
  {
    var first := SetAndCheck(key, value, ttl, start, now);
    var second := first + [Write(key, newer, negative, later)];
    var third := second + [Finish(0)];
    AfterSetAndCheck(maxSize, key, value, ttl, start, now);
    Appended(maxSize, first, Write(key, newer, negative, later));
    assert Without([Entry(key, value, start + ttl)], key) == [];
    assert Run(Initial(), maxSize, second).list == [Entry(key, newer, later + negative)];
    Appended(maxSize, second, Finish(0));
    assert Without([Entry(key, newer, later + negative)], key) == [];
    assert Run(Initial(), maxSize, third).list == [Entry(key, newer, later + negative)];
    Appended(maxSize, third, Return(0));
  }
}
