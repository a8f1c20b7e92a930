/** internal/platform/worker/pool.go: SubmitAndWait on a pool of its own, as a step relation over its goroutines. */
module Pools {
  import opened Wrappers

  /** A job, which stands for its result too: running it always gives one. */
  type Job = int

  /** A call of SubmitAndWait with the blocking policy and the size of the pool. */
  datatype Call = Call(jobs: seq<Job>, workers: nat, queueSize: nat) {
    predicate Valid() {
      workers > 0
    }
  }

  function NewPoolCall(jobs: seq<Job>, workers: int, queueSize: int): (c: Call)
    ensures c.Valid() && c.jobs == jobs
    ensures if workers >= 1 then c.workers == workers else c.workers == 1
    ensures if queueSize >= 0 then c.queueSize == queueSize else c.queueSize == 0
  {
    Call(jobs, if workers <= 0 then 1 else workers, if queueSize < 0 then 0 else queueSize)
  }

  /** The jobs submitted so far, the two channels, the jobs that workers are running, the results dropped and collected,
      and whether the caller is blocked receiving a result. */
  datatype State = State(next: nat, queue: seq<Job>, running: seq<Job>, results: seq<Job>, dropped: seq<Job>,
                         collected: seq<Job>, parked: bool)

  datatype Action =
    | Submit             // into the buffer of the queue
    | HandOff            // to a worker that is waiting, when the queue has no buffer
    | Take
    | Finish(w: nat)
    | Collect
    | Park

  function Initial(): State {
    State(0, [], [], [], [], [], false)
  }

  predicate Collecting(call: Call, s: State) {
    s.next == |call.jobs| && |s.collected| < s.next
  }

  predicate Enabled(call: Call, s: State, a: Action) {
    match a
    case Submit => s.next < |call.jobs| && |s.queue| < call.queueSize
    case HandOff => s.next < |call.jobs| && call.queueSize == 0 && |s.running| < call.workers
    case Take => s.queue != [] && |s.running| < call.workers
    case Finish(w) => w < |s.running|
    case Collect => Collecting(call, s) && s.results != []
    case Park => Collecting(call, s) && s.results == [] && !s.parked
  }

  /** The send of a result never blocks: it goes to the waiting caller, else into the buffer, else it is dropped. */
  function Finished(call: Call, s: State, w: nat): State
    requires w < |s.running|
  {
    var job, rest := s.running[w], s.running[..w] + s.running[w + 1..];
    if s.parked then s.(running := rest, collected := s.collected + [job], parked := false)
    else if |s.results| < call.queueSize then s.(running := rest, results := s.results + [job])
    else s.(running := rest, dropped := s.dropped + [job])
  }

  function Apply(call: Call, s: State, a: Action): State
    requires Enabled(call, s, a)
  {
    match a
    case Submit => s.(next := s.next + 1, queue := s.queue + [call.jobs[s.next]])
    case HandOff => s.(next := s.next + 1, running := s.running + [call.jobs[s.next]])
    case Take => s.(queue := s.queue[1..], running := s.running + [s.queue[0]])
    case Finish(w) => Finished(call, s, w)
    case Collect => s.(results := s.results[1..], collected := s.collected + [s.results[0]])
    case Park => s.(parked := true)
  }

  ghost predicate IsRun(call: Call, from: State, actions: seq<Action>, to: State)
    decreases |actions|
  {
    if actions == [] then from == to
    else Enabled(call, from, actions[0]) && IsRun(call, Apply(call, from, actions[0]), actions[1..], to)
  }

  /** SubmitAndWait has returned. */
  predicate Returned(call: Call, s: State) {
    s.next == |call.jobs| == |s.collected|
  }

  /** Nothing can move any more, and SubmitAndWait has not returned. */
  ghost predicate WaitsForever(call: Call, s: State) {
    !Returned(call, s) && forall a :: !Enabled(call, s, a)
  }

  // ---------------------------------------------------------------------
  // What every step keeps
  // ---------------------------------------------------------------------

  /** In how many places a job is. */
  ghost function Places(s: State, job: Job): nat {
    multiset(s.queue)[job] + multiset(s.running)[job] + multiset(s.results)[job] + multiset(s.dropped)[job]
    + multiset(s.collected)[job]
  }

  ghost predicate Shape(call: Call, s: State) {
    && s.next <= |call.jobs| && |s.queue| <= call.queueSize && |s.running| <= call.workers && |s.results| <= call.queueSize
    && s.next == |s.queue| + |s.running| + |s.results| + |s.dropped| + |s.collected|
    && (s.parked ==> Collecting(call, s) && s.results == [])
    && (s.collected != [] ==> s.next == |call.jobs|)
  }

  /** Every submitted job is in one place, and nothing else is. */
  ghost predicate Conserved(call: Call, s: State)
    requires s.next <= |call.jobs|
  {
    forall job :: Places(s, job) == multiset(call.jobs[..s.next])[job]
  }

  ghost predicate Inv(call: Call, s: State) {
    Shape(call, s) && Conserved(call, s)
  }

  lemma {:induction false} StepKeepsShape(call: Call, s: State, a: Action)
    requires Shape(call, s) && Enabled(call, s, a)
    ensures Shape(call, Apply(call, s, a))
  {
  }

  lemma {:induction false} CutCounts(list: seq<Job>, w: nat, job: Job)
    requires w < |list|
    ensures multiset(list)[job] == multiset(list[..w] + list[w + 1..])[job] + if list[w] == job then 1 else 0
  {
    assert list == list[..w] + [list[w]] + list[w + 1..];
  }

  lemma {:induction false} TailCounts(list: seq<Job>, job: Job)
    requires list != []
    ensures multiset(list)[job] == multiset(list[1..])[job] + if list[0] == job then 1 else 0
  {
    assert list == [list[0]] + list[1..];
  }

  lemma {:induction false} PushCounts(list: seq<Job>, last: Job, job: Job)
    ensures multiset(list + [last])[job] == multiset(list)[job] + if last == job then 1 else 0
  {
  }

  lemma {:induction false} TakeMoves(call: Call, s: State, job: Job)
    requires Enabled(call, s, Take)
    ensures Places(Apply(call, s, Take), job) == Places(s, job)
  {
    TailCounts(s.queue, job);
    PushCounts(s.running, s.queue[0], job);
  }

  lemma {:induction false} CollectMoves(call: Call, s: State, job: Job)
    requires Enabled(call, s, Collect)
    ensures Places(Apply(call, s, Collect), job) == Places(s, job)
  {
    TailCounts(s.results, job);
    PushCounts(s.collected, s.results[0], job);
  }

  lemma {:induction false} FinishMoves(call: Call, s: State, w: nat, job: Job)
    requires w < |s.running|
    ensures Places(Finished(call, s, w), job) == Places(s, job)
  {
    CutCounts(s.running, w, job);
    if s.parked {
      PushCounts(s.collected, s.running[w], job);
    } else if |s.results| < call.queueSize {
      PushCounts(s.results, s.running[w], job);
    } else {
      PushCounts(s.dropped, s.running[w], job);
    }
  }

  lemma {:induction false} StepMoves(call: Call, s: State, a: Action, job: Job)
    requires Enabled(call, s, a)
    ensures Places(Apply(call, s, a), job) ==
            Places(s, job) + if (a.Submit? || a.HandOff?) && call.jobs[s.next] == job then 1 else 0
  {
    match a {
      case Submit => PushCounts(s.queue, call.jobs[s.next], job);
      case HandOff => PushCounts(s.running, call.jobs[s.next], job);
      case Take => TakeMoves(call, s, job);
      case Finish(w) => FinishMoves(call, s, w, job);
      case Collect => CollectMoves(call, s, job);
      case Park =>
    }
  }

  lemma {:induction false} PrefixCounts(jobs: seq<Job>, n: nat, job: Job)
    requires n < |jobs|
    ensures multiset(jobs[..n + 1])[job] == multiset(jobs[..n])[job] + if jobs[n] == job then 1 else 0
  {
    assert jobs[..n + 1] == jobs[..n] + [jobs[n]];
    PushCounts(jobs[..n], jobs[n], job);
  }

  lemma {:induction false} StepKeepsPlaces(call: Call, s: State, a: Action, job: Job)
    requires Enabled(call, s, a) && s.next <= |call.jobs| && Apply(call, s, a).next <= |call.jobs|
    requires Places(s, job) == multiset(call.jobs[..s.next])[job]
    ensures Places(Apply(call, s, a), job) == multiset(call.jobs[..Apply(call, s, a).next])[job]
  {
    StepMoves(call, s, a, job);
    if a.Submit? || a.HandOff? {
      PrefixCounts(call.jobs, s.next, job);
    }
  }

  lemma {:induction false} StepKeepsInv(call: Call, s: State, a: Action)
    requires Inv(call, s) && Enabled(call, s, a)
    ensures Inv(call, Apply(call, s, a))
  {
    StepKeepsShape(call, s, a);
    forall job ensures Places(Apply(call, s, a), job) == multiset(call.jobs[..Apply(call, s, a).next])[job] {
      assert Places(s, job) == multiset(call.jobs[..s.next])[job];
      StepKeepsPlaces(call, s, a, job);
    }
  }

  lemma {:induction false} RunKeepsInv(call: Call, from: State, actions: seq<Action>, to: State)
    requires Inv(call, from) && IsRun(call, from, actions, to)
    ensures Inv(call, to)
    ensures from.dropped <= to.dropped
    decreases |actions|
  {
    if actions == [] {
    } else {
      StepKeepsInv(call, from, actions[0]);
      RunKeepsInv(call, Apply(call, from, actions[0]), actions[1..], to);
    }
  }

  // ---------------------------------------------------------------------
  // Every run ends
  // ---------------------------------------------------------------------

  ghost function Measure(call: Call, s: State): int {
    4 * (|call.jobs| - s.next) + 3 * |s.queue| + 2 * |s.running| + |s.results| + if s.parked then 0 else 1
  }

  lemma {:induction false} StepDecreasesMeasure(call: Call, s: State, a: Action)
    requires Shape(call, s) && Enabled(call, s, a)
    ensures 0 <= Measure(call, Apply(call, s, a)) < Measure(call, s)
  {
    StepKeepsShape(call, s, a);
  }

  /** In no interleaving can the goroutines take more steps than four for each job, and one. */
  lemma {:induction false} EveryRunIsFinite(call: Call, from: State, actions: seq<Action>, to: State)
    requires Inv(call, from) && IsRun(call, from, actions, to)
    ensures |actions| <= Measure(call, from) - Measure(call, to)
    ensures from == Initial() ==> |actions| <= 4 * |call.jobs| + 1
    decreases |actions|
  {
    RunKeepsInv(call, from, actions, to);
    if actions == [] {
    } else {
      StepKeepsInv(call, from, actions[0]);
      StepDecreasesMeasure(call, from, actions[0]);
      EveryRunIsFinite(call, Apply(call, from, actions[0]), actions[1..], to);
    }
  }

  // ---------------------------------------------------------------------
  // How a run ends
  // ---------------------------------------------------------------------

  /** As long as no result was dropped, something can move until the call returns. */
  lemma {:induction false} SomethingMoves(call: Call, s: State)
    requires call.Valid() && Inv(call, s) && !Returned(call, s) && s.dropped == []
    ensures exists a :: Enabled(call, s, a)
  {
    if s.running != [] {
      assert Enabled(call, s, Finish(0));
    } else if s.queue != [] {
      assert Enabled(call, s, Take);
    } else if s.next < |call.jobs| {
      assert Enabled(call, s, if call.queueSize > 0 then Submit else HandOff);
    } else {
      assert Enabled(call, s, Collect);
    }
  }

  lemma {:induction false} ReturnedHasEveryResult(call: Call, s: State)
    requires Inv(call, s) && Returned(call, s)
    ensures multiset(s.collected) == multiset(call.jobs) && s.dropped == []
    ensures forall a :: !Enabled(call, s, a)
  {
    assert call.jobs[..s.next] == call.jobs;
    forall job ensures multiset(s.collected)[job] == multiset(call.jobs)[job] {
      assert Places(s, job) == multiset(call.jobs)[job];
    }
  }

  /** A call that has come to rest has returned, with exactly one result for each job, if no result was dropped, and
      waits forever otherwise. */
  lemma {:induction false} ReturnsExactlyWhenNothingWasDropped(call: Call, actions: seq<Action>, to: State)
    requires call.Valid() && IsRun(call, Initial(), actions, to) && forall a :: !Enabled(call, to, a)
    ensures Returned(call, to) <==> to.dropped == []
    ensures Returned(call, to) ==> multiset(to.collected) == multiset(call.jobs)
  {
    RunKeepsInv(call, Initial(), actions, to);
    if Returned(call, to) {
      ReturnedHasEveryResult(call, to);
    } else if to.dropped == [] {
      SomethingMoves(call, to);
    }
  }

  /** With no more jobs than the queue holds, no worker ever finds the results full, and no policy ever finds the queue full. */
  lemma {:induction false} NothingIsFull(call: Call, from: State, actions: seq<Action>, to: State)
    requires call.Valid() && Inv(call, from) && from.dropped == [] && IsRun(call, from, actions, to)
    requires |call.jobs| <= call.queueSize
    ensures to.dropped == []
    ensures to.running != [] ==> |to.results| < call.queueSize
    ensures to.next < |call.jobs| ==> |to.queue| < call.queueSize
    decreases |actions|
  {
    if actions == [] {
    } else {
      StepKeepsInv(call, from, actions[0]);
      NothingIsFull(call, Apply(call, from, actions[0]), actions[1..], to);
    }
  }

  // ---------------------------------------------------------------------
  // More jobs than the queue holds
  // ---------------------------------------------------------------------

  lemma {:induction false} RunsCompose(call: Call, a: State, first: seq<Action>, b: State, second: seq<Action>, c: State)
    requires IsRun(call, a, first, b) && IsRun(call, b, second, c)
    ensures IsRun(call, a, first + second, c)
    decreases |first|
  {
    if first == [] {
      assert first + second == second;
    } else {
      assert (first + second)[1..] == first[1..] + second;
      RunsCompose(call, Apply(call, a, first[0]), first[1..], b, second, c);
    }
  }

  /** Any state can be run on until nothing moves. */
  lemma {:induction false} RunToRest(call: Call, s: State) returns (actions: seq<Action>, to: State)
    requires Inv(call, s)
    ensures IsRun(call, s, actions, to) && forall a :: !Enabled(call, to, a)
    decreases Measure(call, s)
  {
    if a :| Enabled(call, s, a) {
      StepKeepsInv(call, s, a);
      StepDecreasesMeasure(call, s, a);
      var rest, end := RunToRest(call, Apply(call, s, a));
      actions, to := [a] + rest, end;
    } else {
      actions, to := [], s;
    }
  }

  /** Each job is run to its end before the next is submitted, so that only the first queueSize results fit. */
  function AfterRounds(call: Call, i: nat): State
    requires i <= |call.jobs|
  {
    var kept := if i < call.queueSize then i else call.queueSize;
    State(i, [], [], call.jobs[..kept], call.jobs[kept..i], [], false)
  }

  lemma {:induction false} Rounds(call: Call, i: nat) returns (actions: seq<Action>)
    requires call.Valid() && i <= |call.jobs|
    ensures IsRun(call, Initial(), actions, AfterRounds(call, i))
  {
    if i == 0 {
      actions := [];
    } else {
      var before := Rounds(call, i - 1);
      var s := AfterRounds(call, i - 1);
      var round := (if call.queueSize > 0 then [Submit] + [Take] else [HandOff]) + [Finish(0)];
      OneRound(call, i, round);
      RunsCompose(call, Initial(), before, s, round, AfterRounds(call, i));
      actions := before + round;
    }
  }

  lemma {:induction false} RunOfOne(call: Call, s: State, a: Action)
    requires Enabled(call, s, a)
    ensures IsRun(call, s, [a], Apply(call, s, a))
  {
    assert [a][1..] == [];
  }

  lemma {:induction false} LastOfRound(call: Call, i: nat)
    requires 0 < i <= |call.jobs|
    ensures Finished(call, AfterRounds(call, i - 1).(next := i, running := [call.jobs[i - 1]]), 0) == AfterRounds(call, i)
  {
    var job := call.jobs[i - 1];
    assert [job][..0] + [job][1..] == [];
    if i - 1 < call.queueSize {
      assert call.jobs[..i] == call.jobs[..i - 1] + [job];
      assert call.jobs[i..i] == [] && call.jobs[i - 1..i - 1] == [];
    } else {
      assert call.jobs[call.queueSize..i] == call.jobs[call.queueSize..i - 1] + [job];
    }
  }

  lemma {:induction false} OneRound(call: Call, i: nat, round: seq<Action>)
    requires call.Valid() && 0 < i <= |call.jobs|
    requires round == (if call.queueSize > 0 then [Submit] + [Take] else [HandOff]) + [Finish(0)]
    ensures IsRun(call, AfterRounds(call, i - 1), round, AfterRounds(call, i))
  {
    var s, job := AfterRounds(call, i - 1), call.jobs[i - 1];
    var held := s.(next := i, running := [job]);
    if call.queueSize > 0 {
      var queued := s.(next := i, queue := [job]);
      RunOfOne(call, s, Submit);
      RunOfOne(call, queued, Take);
      RunsCompose(call, s, [Submit], queued, [Take], held);
    } else {
      RunOfOne(call, s, HandOff);
    }
    LastOfRound(call, i);
    RunOfOne(call, held, Finish(0));
    RunsCompose(call, s, if call.queueSize > 0 then [Submit] + [Take] else [HandOff], held, [Finish(0)], AfterRounds(call, i));
  }

  ghost predicate CanWaitForever(call: Call) {
    exists actions, to :: IsRun(call, Initial(), actions, to) && WaitsForever(call, to)
  }

  lemma {:induction false} WaitingRun(call: Call) returns (actions: seq<Action>, to: State)
    requires call.Valid() && |call.jobs| > call.queueSize
    ensures IsRun(call, Initial(), actions, to) && WaitsForever(call, to)
  {
    var first := Rounds(call, |call.jobs|);
    var full := AfterRounds(call, |call.jobs|);
    RunKeepsInv(call, Initial(), first, full);
    var second, end := RunToRest(call, full);
    actions, to := first + second, end;
    RunsCompose(call, Initial(), first, full, second, to);
    RunKeepsInv(call, full, second, to);
    assert |full.dropped| > 0;
    ReturnsExactlyWhenNothingWasDropped(call, actions, to);
  }

  lemma {:induction false} NeverWaits(call: Call, actions: seq<Action>, to: State)
    requires call.Valid() && |call.jobs| <= call.queueSize && IsRun(call, Initial(), actions, to)
    ensures !WaitsForever(call, to)
  {
    NothingIsFull(call, Initial(), actions, to);
    RunKeepsInv(call, Initial(), actions, to);
    if !Returned(call, to) {
      SomethingMoves(call, to);
    }
  }

  /** SubmitAndWait can wait forever exactly when there are more jobs than the queue holds: it collects nothing before it
      has submitted everything, so results that come too early are dropped. */
  lemma {:induction false} CanWaitForeverExactlyWhen(call: Call)
    requires call.Valid()
    ensures CanWaitForever(call) <==> |call.jobs| > call.queueSize
  {
    if |call.jobs| > call.queueSize {
      var actions, to := WaitingRun(call);
    } else if CanWaitForever(call) {
      var actions, to :| IsRun(call, Initial(), actions, to) && WaitsForever(call, to);
      NeverWaits(call, actions, to);
    }
  }

  // ---------------------------------------------------------------------
  // When it can return
  // ---------------------------------------------------------------------

  ghost predicate CanReturn(call: Call) {
    exists actions, to :: IsRun(call, Initial(), actions, to) && Returned(call, to)
  }

  /** If everything was submitted and nothing dropped, it fitted into the two channels and the workers. */
  ghost predicate FitsIfKept(call: Call, s: State) {
    s.next == |call.jobs| && s.dropped == [] ==> |call.jobs| <= 2 * call.queueSize + call.workers
  }

  /** Until everything is submitted nothing is collected, so all that was not dropped is in a channel or with a worker. */
  lemma {:induction false} StepFitsIfKept(call: Call, s: State, a: Action)
    requires Shape(call, s) && Enabled(call, s, a) && FitsIfKept(call, s)
    ensures FitsIfKept(call, Apply(call, s, a))
  {
    StepKeepsShape(call, s, a);
  }

  lemma {:induction false} RunFitsIfKept(call: Call, from: State, actions: seq<Action>, to: State)
    requires Shape(call, from) && FitsIfKept(call, from) && IsRun(call, from, actions, to)
    ensures FitsIfKept(call, to)
    decreases |actions|
  {
    if actions == [] {
    } else {
      StepKeepsShape(call, from, actions[0]);
      StepFitsIfKept(call, from, actions[0]);
      RunFitsIfKept(call, Apply(call, from, actions[0]), actions[1..], to);
    }
  }

  /** As much as possible is done with the first i jobs before anything is collected: results, then workers, then the queue. */
  function AfterFilling(call: Call, i: nat): State
    requires i <= |call.jobs|
  {
    var r := if i < call.queueSize then i else call.queueSize;
    var w := if i < r + call.workers then i else r + call.workers;
    State(i, call.jobs[w..i], call.jobs[r..w], call.jobs[..r], [], [], false)
  }

  lemma {:induction false} Filling(call: Call, i: nat) returns (actions: seq<Action>)
    requires call.Valid() && i <= |call.jobs| && i <= 2 * call.queueSize + call.workers
    ensures IsRun(call, Initial(), actions, AfterFilling(call, i))
  {
    if i == 0 {
      assert AfterFilling(call, 0) == Initial();
      actions := [];
    } else {
      var before := Filling(call, i - 1);
      var more := FillOne(call, i);
      RunsCompose(call, Initial(), before, AfterFilling(call, i - 1), more, AfterFilling(call, i));
      actions := before + more;
    }
  }

  lemma {:induction false} FillOne(call: Call, i: nat) returns (actions: seq<Action>)
    requires call.Valid() && 0 < i <= |call.jobs| && i <= 2 * call.queueSize + call.workers
    ensures IsRun(call, AfterFilling(call, i - 1), actions, AfterFilling(call, i))
  {
    var s, job := AfterFilling(call, i - 1), call.jobs[i - 1];
    if i - 1 < call.queueSize {
      actions := FillResult(call, i, job);
    } else if i - 1 < call.queueSize + call.workers {
      actions := FillHeld(call, i, job);
    } else {
      RunOfOne(call, s, Submit);
      var w := call.queueSize + call.workers;
      assert call.jobs[w..i] == call.jobs[w..i - 1] + [job];
      actions := [Submit];
    }
  }

  lemma {:induction false} FillHeld(call: Call, i: nat, job: Job) returns (actions: seq<Action>)
    requires call.Valid() && call.queueSize < i <= |call.jobs| && i <= call.queueSize + call.workers && job == call.jobs[i - 1]
    ensures IsRun(call, AfterFilling(call, i - 1), actions, AfterFilling(call, i))
  {
    var s, q := AfterFilling(call, i - 1), call.queueSize;
    assert s == State(i - 1, [], call.jobs[q..i - 1], call.jobs[..q], [], [], false);
    actions := FillWorker(call, s, job);
    assert call.jobs[q..i] == call.jobs[q..i - 1] + [job];
    assert AfterFilling(call, i) == State(i, [], call.jobs[q..i], call.jobs[..q], [], [], false);
  }

  lemma {:induction false} FillResult(call: Call, i: nat, job: Job) returns (actions: seq<Action>)
    requires call.Valid() && 0 < i <= |call.jobs| && i <= call.queueSize && job == call.jobs[i - 1]
    ensures IsRun(call, AfterFilling(call, i - 1), actions, AfterFilling(call, i))
  {
    var s := AfterFilling(call, i - 1);
    assert s == State(i - 1, [], [], call.jobs[..i - 1], [], [], false);
    var first := FillWorker(call, s, job);
    var held := s.(next := i, running := [job]);
    assert s.running + [job] == [job];
    RunOfOne(call, held, Finish(0));
    assert [job][..0] + [job][1..] == [] && call.jobs[..i] == call.jobs[..i - 1] + [job];
    assert AfterFilling(call, i) == State(i, [], [], call.jobs[..i], [], [], false);
    RunsCompose(call, s, first, held, [Finish(0)], AfterFilling(call, i));
    actions := first + [Finish(0)];
  }

  lemma {:induction false} FillWorker(call: Call, s: State, job: Job) returns (actions: seq<Action>)
    requires s.next < |call.jobs| && job == call.jobs[s.next] && s.queue == [] && |s.running| < call.workers
    ensures IsRun(call, s, actions, s.(next := s.next + 1, running := s.running + [job]))
  {
    if call.queueSize == 0 {
      RunOfOne(call, s, HandOff);
      actions := [HandOff];
    } else {
      var queued := s.(next := s.next + 1, queue := [job]);
      RunOfOne(call, s, Submit);
      RunOfOne(call, queued, Take);
      RunsCompose(call, s, [Submit], queued, [Take], s.(next := s.next + 1, running := s.running + [job]));
      actions := [Submit] + [Take];
    }
  }

  /** Once everything is submitted, collecting first keeps every further result. */
  lemma {:induction false} Draining(call: Call, s: State) returns (actions: seq<Action>, to: State)
    requires call.Valid() && Inv(call, s) && s.next == |call.jobs| && s.dropped == []
    ensures IsRun(call, s, actions, to) && Returned(call, to)
    decreases Measure(call, s)
  {
    if Returned(call, s) {
      actions, to := [], s;
    } else {
      var a := if s.results != [] then Collect else if s.running == [] then Take
               else if s.parked || call.queueSize > 0 then Finish(0) else Park;
      StepKeepsInv(call, s, a);
      StepDecreasesMeasure(call, s, a);
      var rest;
      rest, to := Draining(call, Apply(call, s, a));
      actions := [a] + rest;
    }
  }

  /** There is an interleaving that returns exactly when no more was submitted than both channels and the workers hold. */
  lemma {:induction false} CanReturnExactlyWhen(call: Call)
    requires call.Valid()
    ensures CanReturn(call) <==> |call.jobs| <= 2 * call.queueSize + call.workers
  {
    if |call.jobs| <= 2 * call.queueSize + call.workers {
      var full := AfterFilling(call, |call.jobs|);
      var first := Filling(call, |call.jobs|);
      RunKeepsInv(call, Initial(), first, full);
      var second, end := Draining(call, full);
      RunsCompose(call, Initial(), first, full, second, end);
    } else if CanReturn(call) {
      var actions, to :| IsRun(call, Initial(), actions, to) && Returned(call, to);
      RunKeepsInv(call, Initial(), actions, to);
      ReturnedHasEveryResult(call, to);
      RunFitsIfKept(call, Initial(), actions, to);
    }
  }

  predicate CanMove(call: Call, s: State) {
    s.running != [] || Enabled(call, s, Submit) || Enabled(call, s, HandOff) || Enabled(call, s, Take)
    || Enabled(call, s, Collect) || Enabled(call, s, Park)
  }

  lemma {:induction false} CanMoveMeansEnabled(call: Call, s: State)
    ensures CanMove(call, s) <==> exists a :: Enabled(call, s, a)
  {
    if s.running != [] {
      assert Enabled(call, s, Finish(0));
    }
  }

  /** SubmitAndWait under any scheduler; no value means that it has come to wait forever. */
  method SubmitAndWait(jobs: seq<Job>, workers: int, queueSize: int) returns (results: Option<seq<Job>>)
    ensures results.Some? ==> multiset(results.value) == multiset(jobs)
    ensures |jobs| <= queueSize || jobs == [] ==> results.Some?
    ensures results.Some? ==> |jobs| <= 2 * (if queueSize < 0 then 0 else queueSize) + (if workers < 1 then 1 else workers)
  {
    var call := NewPoolCall(jobs, workers, queueSize);
    var s := Initial();
    while CanMove(call, s)
      invariant Inv(call, s)
      invariant |jobs| <= call.queueSize ==> s.dropped == []
      invariant FitsIfKept(call, s)
      decreases Measure(call, s)
    {
      CanMoveMeansEnabled(call, s);
      var a: Action :| Enabled(call, s, a);
      StepKeepsInv(call, s, a);
      StepDecreasesMeasure(call, s, a);
      StepFitsIfKept(call, s, a);
      s := Apply(call, s, a);
    }
    CanMoveMeansEnabled(call, s);
    if Returned(call, s) {
      ReturnedHasEveryResult(call, s);
      results := Some(s.collected);
    } else {
      if s.dropped == [] {
        SomethingMoves(call, s);
      }
      results := None;
    }
  }
}
