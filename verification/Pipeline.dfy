/** internal/arbitrage/pipeline.go: how many sizes one call of Process can take, and the call itself. */
module Pipeline {
  import opened Opportunities
  import opened PipelineStages
  import opened Wrappers

  /** The most sizes that can never fill every buffer while the caller is still feeding. */
  function SafeBatch(config: Config): int {
    3 * config.bufferSize + config.concurrency + 1
  }

  /** A worker that is not at its send can move, unless it is waiting for an input that may still come. */
  lemma {:induction false} StuckWorkers(call: Call, s: State, w: nat)
    requires Shape(call, s) && Closing(call, s) && Stuck(call, s) && w < |s.workers|
    ensures s.workers[w] == Exited
            || (s.workers[w].Sending? && !s.cancelled && |s.prices.buffer| == call.config.bufferSize)
            || (s.workers[w] == Receiving && s.input.buffer == [] && s.caller == Feeding)
  {
    assert !Enabled(call, s, Receive(w));
    assert !Enabled(call, s, Exit(w));
    assert !Enabled(call, s, Fetch(w));
    assert !Enabled(call, s, Send(w));
    assert !Enabled(call, s, Quit(w));
  }

  lemma {:induction false} StuckAnalyser(call: Call, s: State)
    requires Shape(call, s) && Closing(call, s) && Stuck(call, s)
    ensures s.analyser == Finished ==> s.output.closed
    ensures s.analyser == Waiting ==> s.prices.buffer == [] && !s.prices.closed
    ensures s.analyser.Emitting? ==> !s.cancelled && |s.output.buffer| == 2 * call.config.bufferSize
    ensures AllExited(s.workers) ==> s.prices.closed
  {
    assert !Enabled(call, s, CloseOutput);
    assert !Enabled(call, s, Analyse);
    assert !Enabled(call, s, FinishAnalysis);
    assert !Enabled(call, s, Emit);
    assert !Enabled(call, s, QuitAnalysis);
    assert !Enabled(call, s, ClosePrices);
  }

  /** The only way to be stuck: the caller has more to feed, and every buffer, worker and the analyser are full. */
  lemma {:induction false} StuckMeansFull(call: Call, s: State)
    requires Shape(call, s) && Closing(call, s) && Stuck(call, s) && !AllDone(s)
    ensures s.caller == Feeding && !s.cancelled && s.fed < |call.batch|
    ensures |s.input.buffer| == |s.prices.buffer| == call.config.bufferSize
    ensures forall w :: 0 <= w < |s.workers| ==> s.workers[w].Sending?
    ensures s.analyser.Emitting? && |s.output.buffer| == 2 * call.config.bufferSize
  {
    forall w | 0 <= w < |s.workers|
      ensures s.workers[w] == Exited
              || (s.workers[w].Sending? && !s.cancelled && |s.prices.buffer| == call.config.bufferSize)
              || (s.workers[w] == Receiving && s.input.buffer == [] && s.caller == Feeding)
    {
      StuckWorkers(call, s, w);
    }
    StuckAnalyser(call, s);
    assert !Enabled(call, s, Feed);
    assert !Enabled(call, s, FinishFeeding);
    assert !Enabled(call, s, AbandonFeeding);
    assert !Enabled(call, s, Collect);
    assert !Enabled(call, s, Return);
    assert s.workers[0] == s.workers[0];
  }

  // ---------------------------------------------------------------------
  // How many sizes a call can take
  // ---------------------------------------------------------------------

  ghost predicate IsPart(call: Call, part: seq<Item>) {
    multiset(part) <= multiset(call.batch)
  }

  /** The sizes that are not in the two stage channels and at the workers when all these are full, nor still to be fed. */
  function Excess(call: Call): int {
    |call.batch| - 2 * call.config.bufferSize - call.config.concurrency - 1
  }

  /** The output channel holds all that these sizes yield. */
  ghost predicate Fits(call: Call, part: seq<Item>) {
    TotalYield(part, call.emit) <= 2 * call.config.bufferSize
  }

  /** No choice of so many sizes overfills the output channel. */
  ghost predicate Roomy(call: Call) {
    forall part :: IsPart(call, part) && |part| <= Excess(call) ==> Fits(call, part)
  }

  /** Every choice of so many sizes does. */
  ghost predicate Congested(call: Call) {
    forall part :: IsPart(call, part) && |part| >= Excess(call) ==> !Fits(call, part)
  }

  lemma {:induction false} YieldSize(items: seq<Item>, emit: Analysis, n: nat)
    requires forall item :: |emit(item)| <= 2
    ensures TotalYield(items, emit) <= 2 * |items|
    ensures (forall item :: item in items ==> |emit(item)| == n) ==> TotalYield(items, emit) == n * |items|
  {
    if items == [] {
    } else {
      YieldSize(items[1..], emit, n);
      OneMore(n, |items| - 1);
    }
  }

  lemma {:induction false} OneMore(n: nat, k: nat)
    ensures n + n * k == n * (k + 1)
  {
  }

  lemma {:induction false} WithoutOne(items: seq<Item>, i: nat, emit: Analysis) returns (rest: seq<Item>)
    requires i < |items|
    ensures |rest| + 1 == |items| && multiset(rest) + multiset{items[i]} == multiset(items)
    ensures TotalYield(items, emit) == TotalYield(rest, emit) + |emit(items[i])|
  {
    rest := items[..i] + items[i + 1..];
    assert items == items[..i] + [items[i]] + items[i + 1..];
    TotalOfConcat(items[..i] + [items[i]], items[i + 1..], emit);
    TotalOfConcat(items[..i], [items[i]], emit);
    TotalOfConcat(items[..i], items[i + 1..], emit);
    assert [items[i]][1..] == [];
  }

  /** What a batch holds besides some of its sizes, and what that yields. */
  lemma {:induction false} LessOfRest<T>(some: multiset<T>, x: T, rest: multiset<T>, all: multiset<T>)
    requires multiset{x} + some <= all && rest + multiset{x} == all
    ensures some <= rest <= all
  {
    forall y ensures some[y] <= rest[y] <= all[y] {
      assert (multiset{x} + some)[y] <= all[y] == (rest + multiset{x})[y];
    }
  }

  /** What a batch holds besides some of its sizes, and what that yields. */
  lemma {:induction false} Others(items: seq<Item>, some: seq<Item>, emit: Analysis) returns (others: seq<Item>)
    requires multiset(some) <= multiset(items)
    ensures multiset(others) <= multiset(items)
    ensures |others| + |some| == |items|
    ensures TotalYield(others, emit) + TotalYield(some, emit) == TotalYield(items, emit)
    decreases |some|
  {
    if some == [] {
      others := items;
    } else {
      var i := FindIn(items, some);
      var rest := WithoutOne(items, i, emit);
      LessOfRest(multiset(some[1..]), some[0], multiset(rest), multiset(items));
      others := Others(rest, some[1..], emit);
    }
  }

  lemma {:induction false} FindIn(items: seq<Item>, some: seq<Item>) returns (i: nat)
    requires some != [] && multiset(some) <= multiset(items)
    ensures i < |items| && items[i] == some[0]
    ensures multiset{some[0]} + multiset(some[1..]) <= multiset(items)
  {
    assert some == [some[0]] + some[1..];
    assert some[0] in multiset(some);
    i :| i < |items| && items[i] == some[0];
  }

  lemma {:induction false} PlacedIsPart(call: Call, s: State)
    requires Shape(call, s) && Placed(call, s)
    ensures IsPart(call, Underway(call, s) + Current(s.analyser)) && IsPart(call, Underway(call, s))
  {
    forall item ensures multiset(Underway(call, s))[item] <= multiset(Underway(call, s) + Current(s.analyser))[item]
                        <= multiset(call.batch)[item] {
      CountsOfUnderway(call, s, item);
    }
  }

  lemma {:induction false} CountsOfUnderway(call: Call, s: State, item: Item)
    requires s.fed <= |call.batch|
    ensures multiset(Underway(call, s))[item] == UnderwayOf(call, s, item)
    ensures multiset(Underway(call, s) + Current(s.analyser))[item] == UnderwayOf(call, s, item) + CurrentOf(s.analyser, item)
  {
    assert multiset(Current(s.analyser))[item] == CurrentOf(s.analyser, item);
  }

  /** What is under way and what was produced make up the batch's yield. */
  lemma {:induction false} YieldIsAccounted(call: Call, s: State)
    requires Inv(call, s) && !s.cancelled
    ensures TotalYield(call.batch, call.emit) == Produced(s) + TotalYield(Underway(call, s), call.emit)
  {
    var all := s.collected + s.output.buffer + Pending(s.analyser) + Sequential(Underway(call, s), call.emit);
    forall o ensures multiset(all)[o] == multiset(Sequential(call.batch, call.emit))[o] {
      EachIsAccounted(call, s, o);
    }
    SameCountsSameLength(all, Sequential(call.batch, call.emit));
    SequentialTotals(call.batch, call.emit);
    SequentialTotals(Underway(call, s), call.emit);
  }

  lemma {:induction false} SameCountsSameLength<T>(a: seq<T>, b: seq<T>)
    requires forall x :: multiset(a)[x] == multiset(b)[x]
    ensures |a| == |b|
  {
    assert multiset(a) == multiset(b);
    assert |multiset(a)| == |a| && |multiset(b)| == |b|;
  }

  lemma {:induction false} SequentialTotals(items: seq<Item>, emit: Analysis)
    ensures |Sequential(items, emit)| == TotalYield(items, emit)
  {
    if items == [] {
    } else {
      SequentialTotals(items[1..], emit);
    }
  }

  lemma {:induction false} EachIsAccounted(call: Call, s: State, o: Opportunity)
    requires Inv(call, s) && !s.cancelled
    ensures multiset(s.collected + s.output.buffer + Pending(s.analyser) + Sequential(Underway(call, s), call.emit))[o]
         == multiset(Sequential(call.batch, call.emit))[o]
  {
    var e := call.emit;
    assert Account(call, s, o) == Yield(call.batch, e, o);
    YieldOfConcat(s.prices.buffer + Held(s.workers) + s.input.buffer, call.batch[s.fed..], e, o);
    YieldOfConcat(s.prices.buffer + Held(s.workers), s.input.buffer, e, o);
    YieldOfConcat(s.prices.buffer, Held(s.workers), e, o);
    YieldIsSequential(Underway(call, s), e, o);
    YieldIsSequential(call.batch, e, o);
  }

  /** A stuck call has analysed so few sizes, and they have filled the output channel and the analyser's hands. */
  lemma {:induction false} StuckHasOverfilled(call: Call, s: State) returns (analysed: seq<Item>)
    requires Inv(call, s) && Stuck(call, s) && !AllDone(s)
    ensures IsPart(call, analysed) && |analysed| <= Excess(call) && !Fits(call, analysed)
  {
    StuckMeansFull(call, s);
    HeldBound(s.workers);
    YieldIsAccounted(call, s);
    PlacedIsPart(call, s);
    analysed := Others(call.batch, Underway(call, s), call.emit);
  }

  lemma {:induction false} SafeBatchIsRoomy(call: Call)
    requires call.Valid()
    requires |call.batch| <= SafeBatch(call.config) || |Sequential(call.batch, call.emit)| <= 2 * call.config.bufferSize
    ensures Roomy(call)
  {
    forall part | IsPart(call, part) && |part| <= Excess(call) ensures Fits(call, part) {
      YieldSize(part, call.emit, 0);
      SequentialTotals(call.batch, call.emit);
      var others := Others(call.batch, part, call.emit);
    }
  }

  /** In every interleaving a call that is roomy, as are those of at most SafeBatch sizes or with few opportunities, or that
      is cancelled at some point, moves until all its goroutines have returned. */
  lemma {:induction false} NeverStuck(call: Call, actions: seq<Action>, to: State)
    requires call.Valid() && IsRun(call, Initial(call), actions, to)
    requires Roomy(call) || to.cancelled
    ensures Stuck(call, to) ==> AllDone(to)
  {
    InitialInv(call);
    RunKeepsInv(call, Initial(call), actions, to);
    if Stuck(call, to) && !AllDone(to) {
      StuckMeansFull(call, to);
      var analysed := StuckHasOverfilled(call, to);
    }
  }

  lemma {:induction false} CancelledStays(call: Call, from: State, actions: seq<Action>, to: State)
    requires from.cancelled && IsRun(call, from, actions, to)
    ensures to.cancelled
    decreases |actions|
  {
    if actions == [] {
    } else {
      CancelledStays(call, Apply(call, from, actions[0]), actions[1..], to);
    }
  }

  /** A call can be cancelled at any time, also where it is stuck, and then every interleaving ends with all goroutines done,
      whatever the batch. */
  lemma {:induction false} CancellingEndsTheCall(call: Call, before: seq<Action>, s: State, actions: seq<Action>, to: State)
    requires call.Valid() && IsRun(call, Initial(call), before, s) && !s.cancelled
    ensures Enabled(call, s, Cancel) && Apply(call, s, Cancel) == s.(cancelled := true)
    ensures IsRun(call, s.(cancelled := true), actions, to) && Stuck(call, to) ==> AllDone(to)
  {
    InitialInv(call);
    RunKeepsInv(call, Initial(call), before, s);
    if IsRun(call, s.(cancelled := true), actions, to) && Stuck(call, to) {
      StepKeepsInv(call, s, Cancel);
      RunKeepsInv(call, s.(cancelled := true), actions, to);
      CancelledStays(call, s.(cancelled := true), actions, to);
      if !AllDone(to) {
        StuckMeansFull(call, to);
      }
    }
  }

  /** Ending the feeding takes so many sizes analysed to the end, and what they yield in the output channel. */
  lemma {:induction false} FedMeansFits(call: Call, s: State) returns (analysed: seq<Item>)
    requires Inv(call, s) && !s.cancelled && s.caller == Feeding && s.fed == |call.batch|
    ensures IsPart(call, analysed) && |analysed| >= Excess(call) && Fits(call, analysed)
  {
    var current := Current(s.analyser);
    var busy := Underway(call, s) + current;
    HeldBound(s.workers);
    YieldIsAccounted(call, s);
    TotalOfConcat(Underway(call, s), current, call.emit);
    assert s.analyser.Emitting? ==> current[1..] == [];
    PlacedIsPart(call, s);
    analysed := Others(call.batch, busy, call.emit);
  }

  /** No step of a congested call ends its feeding. */
  lemma {:induction false} CongestedKeepsFeeding(call: Call, s: State, a: Action)
    requires Inv(call, s) && !s.cancelled && s.caller == Feeding && Congested(call)
    requires Enabled(call, s, a) && a != Cancel
    ensures Apply(call, s, a).caller == Feeding && !Apply(call, s, a).cancelled
  {
    if a.FinishFeeding? {
      var analysed := FedMeansFits(call, s);
    }
  }

  /** A congested call never returns unless it is cancelled. */
  lemma {:induction false} CongestedNeverReturns(call: Call, from: State, actions: seq<Action>, to: State)
    requires Inv(call, from) && !from.cancelled && from.caller == Feeding && Congested(call)
    requires IsRun(call, from, actions, to) && Cancel !in actions
    ensures to.caller == Feeding
    decreases |actions|
  {
    if actions == [] {
    } else {
      CongestedKeepsFeeding(call, from, actions[0]);
      StepKeepsInv(call, from, actions[0]);
      CongestedNeverReturns(call, Apply(call, from, actions[0]), actions[1..], to);
    }
  }

  ghost predicate EveryItemYields(call: Call, n: nat) {
    forall item :: item in call.batch ==> |call.emit(item)| == n
  }

  lemma {:induction false} UniformIsEither(call: Call, n: nat)
    requires call.Valid() && EveryItemYields(call, n)
    ensures if n * Excess(call) <= 2 * call.config.bufferSize then Roomy(call) else Congested(call)
  {
    forall part | IsPart(call, part) ensures TotalYield(part, call.emit) == n * |part| {
      forall item | item in part ensures item in call.batch {
        assert item in multiset(part);
      }
      YieldSize(part, call.emit, n);
    }
    forall k: nat ensures k <= Excess(call) ==> n * k <= n * Excess(call) {
      MoreYieldMore(n, k, Excess(call));
    }
    forall k: nat ensures k >= Excess(call) ==> n * k >= n * Excess(call) {
      MoreYieldMore(n, Excess(call), k);
    }
  }

  lemma {:induction false} MoreYieldMore(n: nat, k: int, m: int)
    ensures k <= m ==> n * k <= n * m
  {
  }

  lemma {:induction false} ExcessFits(call: Call, n: nat)
    ensures n == 2 ==> (n * Excess(call) <= 2 * call.config.bufferSize <==> |call.batch| <= SafeBatch(call.config))
    ensures n == 1 ==> (n * Excess(call) <= 2 * call.config.bufferSize
                        <==> |call.batch| <= 4 * call.config.bufferSize + call.config.concurrency + 1)
  {
  }

  /** When every size yields the same number of opportunities, an uncancelled call that can move no further has finished
      exactly when the excess yields no more than the output channel holds: for two each, at the default configuration, up
      to 53 sizes, for one each up to 69, and without any opportunity always. */
  lemma {:induction false} ProgressBoundIsExact(call: Call, n: nat, actions: seq<Action>, to: State)
    requires call.Valid() && EveryItemYields(call, n)
    requires IsRun(call, Initial(call), actions, to) && Cancel !in actions
    requires Stuck(call, to)
    ensures AllDone(to) <==> n * Excess(call) <= 2 * call.config.bufferSize
    ensures n == 2 ==> (AllDone(to) <==> |call.batch| <= SafeBatch(call.config))
    ensures n == 2 && call.config == NewPipeline(0, 0) ==> (AllDone(to) <==> |call.batch| <= 53)
    ensures n == 1 && call.config == NewPipeline(0, 0) ==> (AllDone(to) <==> |call.batch| <= 69)
  {
    InitialInv(call);
    UniformIsEither(call, n);
    ExcessFits(call, n);
    if n * Excess(call) <= 2 * call.config.bufferSize {
      NeverStuck(call, actions, to);
    } else {
      CongestedNeverReturns(call, Initial(call), actions, to);
    }
  }

  // ---------------------------------------------------------------------
  // The call itself
  // ---------------------------------------------------------------------

  const CALL_STEPS: seq<Action> :=
    [Feed, FinishFeeding, AbandonFeeding, Collect, Return, ClosePrices, Analyse, Emit, FinishAnalysis, DropAnalysis,
     QuitAnalysis, CloseOutput]

  /** Every action but the cancellation, for a number of workers. */
  function Steps(workers: nat): seq<Action> {
    CALL_STEPS + WorkerSteps(workers)
  }

  function WorkerSteps(workers: nat): seq<Action> {
    if workers == 0 then []
    else
      var w := workers - 1;
      WorkerSteps(w) + [Receive(w), Exit(w), Fetch(w), Send(w), Quit(w)]
  }

  lemma {:induction false} WorkerStepsAreAll(workers: nat, a: Action)
    ensures a in WorkerSteps(workers) <==> OfWorker(a) && a.w < workers
  {
    if workers == 0 {
    } else {
      WorkerStepsAreAll(workers - 1, a);
      var w := workers - 1;
      var last := [Receive(w), Exit(w), Fetch(w), Send(w), Quit(w)];
      assert a in last <==> a == last[0] || a == last[1] || a == last[2] || a == last[3] || a == last[4];
    }
  }

  lemma {:induction false} CallStepsAreAll(a: Action)
    ensures a in CALL_STEPS <==> !OfWorker(a) && a != Cancel
  {
    var c := CALL_STEPS;
    assert c[0] == Feed && c[1] == FinishFeeding && c[2] == AbandonFeeding && c[3] == Collect && c[4] == Return;
    assert c[5] == ClosePrices && c[6] == Analyse && c[7] == Emit && c[8] == FinishAnalysis && c[9] == DropAnalysis;
    assert c[10] == QuitAnalysis && c[11] == CloseOutput;
  }

  lemma {:induction false} StepsAreAll(call: Call, s: State, a: Action)
    requires Enabled(call, s, a)
    ensures a in Steps(|s.workers|) <==> a != Cancel
  {
    WorkerStepsAreAll(|s.workers|, a);
    CallStepsAreAll(a);
  }

  predicate CanMove(call: Call, s: State) {
    exists a :: a in Steps(|s.workers|) && Enabled(call, s, a)
  }

  lemma {:induction false} NotMovingIsStuck(call: Call, s: State)
    requires !CanMove(call, s)
    ensures Stuck(call, s)
  {
    forall a | Enabled(call, s, a) ensures a == Cancel {
      StepsAreAll(call, s, a);
    }
  }

  /** What one step of the scheduler keeps. */
  lemma {:induction false} ProcessGoesOn(call: Call, s: State, a: Action)
    requires Inv(call, s) && !s.cancelled && a in Steps(|s.workers|) && Enabled(call, s, a)
    requires Congested(call) ==> s.caller == Feeding
    ensures var t := Apply(call, s, a);
            && Inv(call, t) && !t.cancelled
            && (Congested(call) ==> t.caller == Feeding)
            && Measure(call, t) < Measure(call, s)
  {
    StepsAreAll(call, s, a);
    StepKeepsInv(call, s, a);
    StepDecreasesMeasure(call, s, a);
    if Congested(call) {
      CongestedKeepsFeeding(call, s, a);
    }
  }

  /** What a call of Process is, at a price of ether. */
  function CallOf(config: Config, batch: seq<Item>, ethPrice: real): (call: Call)
    ensures config.concurrency > 0 && config.bufferSize > 0 ==> call.Valid()
  {
    Call(config, batch, AnalysisAt(ethPrice))
  }

  lemma {:induction false} ReturnsWhatIsEarned(batch: seq<Item>, ethPrice: real, result: seq<Opportunity>)
    requires multiset(result) == multiset(Sequential(batch, AnalysisAt(ethPrice)))
    ensures forall o :: o in result <==> exists item :: item in batch && Earns(item, o, ethPrice)
  {
    forall o ensures o in result <==> exists item :: item in batch && Earns(item, o, ethPrice) {
      WhatABatchEarns(batch, ethPrice, o);
      assert o in multiset(result) <==> o in multiset(Sequential(batch, AnalysisAt(ethPrice)));
    }
  }

  /** Process without a cancellation under any scheduler: whichever goroutine moves next, it either returns the sequential
      result, which is what the sizes earn, or, which no value stands for, blocks forever. */
  method Process(config: Config, batch: seq<Item>, ethPrice: real) returns (result: Option<seq<Opportunity>>)
    requires config.concurrency > 0 && config.bufferSize > 0
    ensures result.Some? ==> multiset(result.value) == multiset(Sequential(batch, AnalysisAt(ethPrice)))
    ensures result.Some? ==> forall o :: o in result.value <==> exists item :: item in batch && Earns(item, o, ethPrice)
    ensures Roomy(CallOf(config, batch, ethPrice)) ==> result.Some?
    ensures Congested(CallOf(config, batch, ethPrice)) ==> result.None?
  {
    var call := CallOf(config, batch, ethPrice);
    if |batch| == 0 {
      assert Congested(call) ==> !Fits(call, []);
      return Some([]);
    }
    var s := Initial(call);
    InitialInv(call);
    while !s.caller.Returned? && CanMove(call, s)
      invariant Inv(call, s) && !s.cancelled
      invariant Congested(call) ==> s.caller == Feeding
      decreases Measure(call, s)
    {
      var a: Action :| a in Steps(|s.workers|) && Enabled(call, s, a);
      ProcessGoesOn(call, s, a);
      s := Apply(call, s, a);
    }
    if s.caller.Returned? {
      result := Some(s.caller.result);
      ReturnedIsSequential(call, s);
      ReturnsWhatIsEarned(batch, ethPrice, s.caller.result);
    } else {
      result := None;
      NotMovingIsStuck(call, s);
      var analysed := StuckHasOverfilled(call, s);
    }
  }
}
