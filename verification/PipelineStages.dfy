/** internal/arbitrage/pipeline.go: one call of Process as a system of goroutines and bounded channels. */
module PipelineStages {
  import opened Opportunities
  import opened Wrappers

  datatype Config = Config(concurrency: int, bufferSize: int)

  /** NewPipeline: what is not positive stands for a default. */
  function NewPipeline(concurrency: int, bufferSize: int): (config: Config)
    ensures if concurrency > 0 then config.concurrency == concurrency else config.concurrency == 4
    ensures if bufferSize > 0 then config.bufferSize == bufferSize else config.bufferSize == 16
  {
    Config(if concurrency <= 0 then 4 else concurrency, if bufferSize <= 0 then 16 else bufferSize)
  }

  /** One call: the configuration, the sizes with the answers their fetches will get, and what the analysis makes of them. */
  datatype Call = Call(config: Config, batch: seq<Item>, emit: Analysis) {
    ghost predicate Valid() {
      config.concurrency > 0 && config.bufferSize > 0 && forall item :: |emit(item)| <= 2
    }
  }

  datatype Channel<T> = Channel(buffer: seq<T>, closed: bool)

  /** A price-fetch goroutine: at the range receive, fetching, at the send, or returned. */
  datatype Worker = Receiving | Fetching(item: Item) | Sending(item: Item) | Exited

  /** The analysis goroutine: at the range receive, with opportunities of a size still to send, or returned. */
  datatype Analyser = Waiting | Emitting(item: Item, pending: seq<Opportunity>) | Finished

  /** The calling goroutine: feeding sizes, draining the output, or returned. */
  datatype Caller = Feeding | Collecting | Returned(result: seq<Opportunity>)

  datatype State = State(
    cancelled: bool,
    fed: nat,
    input: Channel<Item>,
    workers: seq<Worker>,
    prices: Channel<Item>,
    analyser: Analyser,
    output: Channel<Opportunity>,
    caller: Caller,
    collected: seq<Opportunity>)

  /** One atomic step of one goroutine, or the cancellation of the context. Where a select has both its branches
      ready, both are actions. */
  datatype Action =
    | Cancel
    | Feed | FinishFeeding | AbandonFeeding | Collect | Return
    | Receive(w: nat) | Exit(w: nat) | Fetch(w: nat) | Send(w: nat) | Quit(w: nat)
    | ClosePrices
    | Analyse | Emit | FinishAnalysis | DropAnalysis | QuitAnalysis
    | CloseOutput

  predicate OfWorker(a: Action) {
    a.Receive? || a.Exit? || a.Fetch? || a.Send? || a.Quit?
  }

  predicate OfAnalyser(a: Action) {
    a.Analyse? || a.Emit? || a.FinishAnalysis? || a.DropAnalysis? || a.QuitAnalysis?
  }

  function Initial(call: Call): State
    requires call.config.concurrency > 0
  {
    State(false, 0, Channel([], false), seq(call.config.concurrency, _ => Receiving), Channel([], false),
          Waiting, Channel([], false), Feeding, [])
  }

  predicate AllExited(workers: seq<Worker>) {
    forall w :: 0 <= w < |workers| ==> workers[w] == Exited
  }

  predicate Enabled(call: Call, s: State, a: Action) {
    var b := call.config.bufferSize;
    match a
    case Cancel => !s.cancelled
    case Feed => s.caller == Feeding && s.fed < |call.batch| && |s.input.buffer| < b && !s.input.closed
    case FinishFeeding => s.caller == Feeding && s.fed == |call.batch| && !s.input.closed
    case AbandonFeeding => s.caller == Feeding && s.fed < |call.batch| && s.cancelled && !s.input.closed
    case Collect => s.caller == Collecting && s.output.buffer != []
    case Return => s.caller == Collecting && s.output.buffer == [] && s.output.closed
    case Receive(w) => w < |s.workers| && s.workers[w] == Receiving && s.input.buffer != []
    case Exit(w) => w < |s.workers| && s.workers[w] == Receiving && s.input.buffer == [] && s.input.closed
    case Fetch(w) => w < |s.workers| && s.workers[w].Fetching?
    case Send(w) => w < |s.workers| && s.workers[w].Sending? && |s.prices.buffer| < b && !s.prices.closed
    case Quit(w) => w < |s.workers| && (s.workers[w].Fetching? || s.workers[w].Sending?) && s.cancelled
    case ClosePrices => AllExited(s.workers) && !s.prices.closed
    case Analyse => s.analyser == Waiting && s.prices.buffer != []
    case Emit => s.analyser.Emitting? && s.analyser.pending != [] && |s.output.buffer| < 2 * b && !s.output.closed
    case FinishAnalysis => s.analyser == Waiting && s.prices.buffer == [] && s.prices.closed
    case DropAnalysis => s.analyser == Waiting && s.prices.buffer != [] && s.cancelled
    case QuitAnalysis => s.analyser.Emitting? && s.cancelled
    case CloseOutput => s.analyser == Finished && !s.output.closed
  }

  function AfterEmitting(item: Item, pending: seq<Opportunity>): Analyser {
    if pending == [] then Waiting else Emitting(item, pending)
  }

  function Apply(call: Call, s: State, a: Action): State
    requires Enabled(call, s, a)
  {
    match a
    case Cancel => s.(cancelled := true)
    case Feed => s.(fed := s.fed + 1, input := s.input.(buffer := s.input.buffer + [call.batch[s.fed]]))
    case FinishFeeding => s.(input := s.input.(closed := true), caller := Collecting)
    case AbandonFeeding => s.(input := s.input.(closed := true), caller := Returned([]))
    case Collect =>
      s.(output := s.output.(buffer := s.output.buffer[1..]), collected := s.collected + [s.output.buffer[0]])
    case Return => s.(caller := Returned(s.collected))
    case Receive(w) =>
      s.(input := s.input.(buffer := s.input.buffer[1..]), workers := s.workers[w := Fetching(s.input.buffer[0])])
    case Exit(w) => s.(workers := s.workers[w := Exited])
    case Fetch(w) => s.(workers := s.workers[w := Sending(s.workers[w].item)])
    case Send(w) =>
      s.(prices := s.prices.(buffer := s.prices.buffer + [s.workers[w].item]), workers := s.workers[w := Receiving])
    case Quit(w) => s.(workers := s.workers[w := Exited])
    case ClosePrices => s.(prices := s.prices.(closed := true))
    case Analyse =>
      s.(prices := s.prices.(buffer := s.prices.buffer[1..]),
         analyser := AfterEmitting(s.prices.buffer[0], call.emit(s.prices.buffer[0])))
    case Emit =>
      s.(output := s.output.(buffer := s.output.buffer + [s.analyser.pending[0]]),
         analyser := AfterEmitting(s.analyser.item, s.analyser.pending[1..]))
    case FinishAnalysis => s.(analyser := Finished)
    case DropAnalysis => s.(prices := s.prices.(buffer := s.prices.buffer[1..]), analyser := Finished)
    case QuitAnalysis => s.(analyser := Finished)
    case CloseOutput => s.(output := s.output.(closed := true))
  }

  /** A send on a closed channel, or a second close, would panic. */
  ghost predicate AboutToPanic(call: Call, s: State) {
    || (s.caller == Feeding && s.input.closed)
    || (exists w :: 0 <= w < |s.workers| && s.workers[w].Sending? && s.prices.closed)
    || (s.analyser.Emitting? && s.output.closed)
  }

  /** Every goroutine of the call has returned. */
  ghost predicate AllDone(s: State) {
    s.caller.Returned? && AllExited(s.workers) && s.prices.closed && s.analyser == Finished && s.output.closed
  }

  /** Nothing can move any more, short of cancelling. */
  ghost predicate Stuck(call: Call, s: State) {
    forall a :: Enabled(call, s, a) ==> a == Cancel
  }

  ghost predicate IsRun(call: Call, from: State, actions: seq<Action>, to: State)
    decreases |actions|
  {
    if actions == [] then from == to
    else Enabled(call, from, actions[0]) && IsRun(call, Apply(call, from, actions[0]), actions[1..], to)
  }

  // ---------------------------------------------------------------------
  // Sums over the workers
  // ---------------------------------------------------------------------

  ghost function Holds(w: Worker): seq<Item> {
    match w
    case Fetching(item) => [item]
    case Sending(item) => [item]
    case _ => []
  }

  /** The sizes that workers hold. */
  ghost function Held(workers: seq<Worker>): seq<Item> {
    if workers == [] then [] else Holds(workers[0]) + Held(workers[1..])
  }

  ghost function WorkerWeight(w: Worker): nat {
    match w
    case Receiving => 1
    case Fetching(_) => 9
    case Sending(_) => 8
    case Exited => 0
  }

  ghost function WorkersWeight(workers: seq<Worker>): nat {
    if workers == [] then 0 else WorkerWeight(workers[0]) + WorkersWeight(workers[1..])
  }

  ghost function HeldYield(workers: seq<Worker>, emit: Analysis, o: Opportunity): nat {
    Yield(Held(workers), emit, o)
  }

  lemma {:induction false} HeldSplit(workers: seq<Worker>, w: nat)
    requires w < |workers|
    ensures Held(workers) == Held(workers[..w]) + Holds(workers[w]) + Held(workers[w + 1..])
    ensures WorkersWeight(workers) == WorkersWeight(workers[..w]) + WorkerWeight(workers[w]) + WorkersWeight(workers[w + 1..])
  {
    if w == 0 {
      assert workers[..0] == [] && Held(workers[..0]) == [];
    } else {
      HeldSplit(workers[1..], w - 1);
      assert workers[1..][..w - 1] == workers[..w][1..];
      assert workers[1..][w..] == workers[w + 1..];
    }
  }

  lemma {:induction false} YieldSplit(before: seq<Item>, item: seq<Item>, after: seq<Item>, emit: Analysis, o: Opportunity)
    ensures Yield(before + item + after, emit, o)
         == Yield(before, emit, o) + Yield(item, emit, o) + Yield(after, emit, o)
  {
    YieldOfConcat(before + item, after, emit, o);
    YieldOfConcat(before, item, emit, o);
  }

  /** Moving one worker changes the sums by what that worker holds and weighs. */
  lemma {:induction false} MoveWorker(workers: seq<Worker>, w: nat, to: Worker)
    requires w < |workers|
    ensures var moved := workers[w := to];
            && |Held(moved)| + |Holds(workers[w])| == |Held(workers)| + |Holds(to)|
            && WorkersWeight(moved) + WorkerWeight(workers[w]) == WorkersWeight(workers) + WorkerWeight(to)
  {
    var moved := workers[w := to];
    HeldSplit(workers, w);
    HeldSplit(moved, w);
    assert moved[..w] == workers[..w] && moved[w + 1..] == workers[w + 1..];
  }

  ghost function WorkerYield(w: Worker, emit: Analysis, o: Opportunity): nat {
    match w
    case Fetching(item) => multiset(emit(item))[o]
    case Sending(item) => multiset(emit(item))[o]
    case _ => 0
  }

  lemma {:induction false} WorkerYieldIsYieldOfHolds(w: Worker, emit: Analysis, o: Opportunity)
    ensures Yield(Holds(w), emit, o) == WorkerYield(w, emit, o)
  {
    if w.Fetching? || w.Sending? {
      YieldOfOne(w.item, emit, o);
    }
  }

  lemma {:induction false} MoveWorkerYield(workers: seq<Worker>, w: nat, to: Worker, emit: Analysis, o: Opportunity)
    requires w < |workers|
    ensures HeldYield(workers[w := to], emit, o) + WorkerYield(workers[w], emit, o)
         == HeldYield(workers, emit, o) + WorkerYield(to, emit, o)
  {
    var moved := workers[w := to];
    HeldSplit(workers, w);
    HeldSplit(moved, w);
    assert moved[..w] == workers[..w] && moved[w + 1..] == workers[w + 1..];
    YieldSplit(Held(workers[..w]), Holds(workers[w]), Held(workers[w + 1..]), emit, o);
    YieldSplit(Held(workers[..w]), Holds(to), Held(workers[w + 1..]), emit, o);
    WorkerYieldIsYieldOfHolds(workers[w], emit, o);
    WorkerYieldIsYieldOfHolds(to, emit, o);
  }

  lemma {:induction false} FreshWorkers(n: nat)
    ensures var workers := seq(n, _ => Receiving);
            Held(workers) == [] && WorkersWeight(workers) == n
  {
    if n == 0 {
    } else {
      var workers := seq(n, _ => Receiving);
      assert workers[1..] == seq(n - 1, _ => Receiving);
      FreshWorkers(n - 1);
    }
  }

  lemma {:induction false} HeldBound(workers: seq<Worker>)
    ensures |Held(workers)| <= |workers|
    ensures AllExited(workers) ==> Held(workers) == []
    ensures (forall w :: 0 <= w < |workers| ==> workers[w].Sending?) ==> |Held(workers)| == |workers|
  {
    if workers == [] {
    } else {
      HeldBound(workers[1..]);
    }
  }

  // ---------------------------------------------------------------------
  // What every reachable state keeps
  // ---------------------------------------------------------------------

  ghost function Pending(a: Analyser): seq<Opportunity> {
    if a.Emitting? then a.pending else []
  }

  /** How often the call has produced an opportunity, or will still produce it from what it has not lost. */
  ghost function Account(call: Call, s: State, o: Opportunity): nat
    requires s.fed <= |call.batch|
  {
    multiset(s.collected)[o] + multiset(s.output.buffer)[o] + multiset(Pending(s.analyser))[o]
    + Yield(s.prices.buffer, call.emit, o) + HeldYield(s.workers, call.emit, o) + Yield(s.input.buffer, call.emit, o)
    + Yield(call.batch[s.fed..], call.emit, o)
  }

  /** The sizes that have not reached the analyser. */
  ghost function Underway(call: Call, s: State): seq<Item>
    requires s.fed <= |call.batch|
  {
    s.prices.buffer + Held(s.workers) + s.input.buffer + call.batch[s.fed..]
  }

  ghost function Produced(s: State): nat {
    |s.collected| + |s.output.buffer| + |Pending(s.analyser)|
  }

  ghost predicate Shape(call: Call, s: State) {
    && call.Valid()
    && |s.workers| == call.config.concurrency
    && s.fed <= |call.batch|
    && |s.input.buffer| <= call.config.bufferSize
    && |s.prices.buffer| <= call.config.bufferSize
    && |s.output.buffer| <= 2 * call.config.bufferSize
    && (s.analyser.Emitting? ==> 1 <= |s.analyser.pending| <= 2)
    && (s.caller == Feeding ==> s.collected == [])
  }

  /** Who may still be running when a channel is closed, and what a returned goroutine left behind. */
  ghost predicate Closing(call: Call, s: State) {
    && (s.input.closed <==> s.caller != Feeding)
    && (s.prices.closed ==> AllExited(s.workers))
    && (s.output.closed ==> s.analyser == Finished)
    && (s.caller.Returned? && !s.cancelled ==> s.output.closed && s.output.buffer == [] && s.caller.result == s.collected)
    && (s.caller.Returned? ==> s.caller.result == [] || s.caller.result == s.collected)
    && (!s.cancelled ==>
        && (s.caller != Feeding ==> s.fed == |call.batch|)
        && (s.analyser == Finished ==> s.prices.closed && s.prices.buffer == [])
        && (forall w :: 0 <= w < |s.workers| && s.workers[w] == Exited ==> s.input.closed && s.input.buffer == []))
  }

  /** Nothing is invented, and nothing is lost without a cancellation. */
  ghost predicate Conserved(call: Call, s: State)
    requires s.fed <= |call.batch|
  {
    forall o :: Account(call, s, o) <= Yield(call.batch, call.emit, o)
                && (!s.cancelled ==> Account(call, s, o) == Yield(call.batch, call.emit, o))
  }

  /** How often a size is under way. */
  ghost function UnderwayOf(call: Call, s: State, item: Item): nat
    requires s.fed <= |call.batch|
  {
    multiset(s.prices.buffer)[item] + multiset(Held(s.workers))[item] + multiset(s.input.buffer)[item]
    + multiset(call.batch[s.fed..])[item]
  }

  /** The size that the analyser is at. */
  ghost function Current(a: Analyser): seq<Item> {
    if a.Emitting? then [a.item] else []
  }

  ghost function CurrentOf(a: Analyser, item: Item): nat {
    if a.Emitting? && a.item == item then 1 else 0
  }

  /** What is under way and the size that the analyser is at are part of the batch. */
  ghost predicate Placed(call: Call, s: State)
    requires s.fed <= |call.batch|
  {
    && (s.analyser.Emitting? ==> |s.analyser.pending| <= |call.emit(s.analyser.item)|)
    && forall item :: UnderwayOf(call, s, item) + CurrentOf(s.analyser, item) <= multiset(call.batch)[item]
  }

  ghost predicate Inv(call: Call, s: State) {
    Shape(call, s) && Closing(call, s) && Conserved(call, s) && Placed(call, s)
  }

  lemma {:induction false} InitialInv(call: Call)
    requires call.Valid()
    ensures Inv(call, Initial(call))
  {
    FreshWorkers(call.config.concurrency);
    assert call.batch[0..] == call.batch;
  }

  // Each kind of step loses nothing unless the context was cancelled.

  lemma {:induction false} FeedKeepsAccount(call: Call, s: State, o: Opportunity)
    requires Shape(call, s) && Enabled(call, s, Feed)
    ensures Account(call, Apply(call, s, Feed), o) == Account(call, s, o)
  {
    var item, left := call.batch[s.fed], call.batch[s.fed..];
    assert left[0] == item && left[1..] == call.batch[s.fed + 1..];
    YieldOfAppend(s.input.buffer, item, call.emit, o);
  }

  lemma {:induction false} CallerKeepsAccount(call: Call, s: State, a: Action, o: Opportunity)
    requires Shape(call, s) && Enabled(call, s, a)
    requires !OfWorker(a) && !OfAnalyser(a)
    ensures Account(call, Apply(call, s, a), o) == Account(call, s, o)
  {
    if a.Feed? {
      FeedKeepsAccount(call, s, o);
    } else if a.Collect? {
      assert s.output.buffer == [s.output.buffer[0]] + s.output.buffer[1..];
    }
  }

  lemma {:induction false} ReceiveKeepsAccount(call: Call, s: State, w: nat, o: Opportunity)
    requires Shape(call, s) && Enabled(call, s, Receive(w))
    ensures Account(call, Apply(call, s, Receive(w)), o) == Account(call, s, o)
  {
    var item := s.input.buffer[0];
    MoveWorkerYield(s.workers, w, Fetching(item), call.emit, o);
  }

  lemma {:induction false} SendKeepsAccount(call: Call, s: State, w: nat, o: Opportunity)
    requires Shape(call, s) && Enabled(call, s, Send(w))
    ensures Account(call, Apply(call, s, Send(w)), o) == Account(call, s, o)
  {
    var item := s.workers[w].item;
    MoveWorkerYield(s.workers, w, Receiving, call.emit, o);
    YieldOfAppend(s.prices.buffer, item, call.emit, o);
  }

  lemma {:induction false} ReplacingWorkerKeepsAccount(call: Call, s: State, w: nat, to: Worker, o: Opportunity)
    requires Shape(call, s) && w < |s.workers|
    ensures Account(call, s.(workers := s.workers[w := to]), o) + WorkerYield(s.workers[w], call.emit, o)
         == Account(call, s, o) + WorkerYield(to, call.emit, o)
  {
    MoveWorkerYield(s.workers, w, to, call.emit, o);
  }

  lemma {:induction false} AnalyserKeepsAccount(call: Call, s: State, a: Action, o: Opportunity)
    requires Shape(call, s) && Enabled(call, s, a)
    requires OfAnalyser(a) && !a.Emit?
    ensures Account(call, Apply(call, s, a), o) <= Account(call, s, o)
    ensures !s.cancelled ==> Account(call, Apply(call, s, a), o) == Account(call, s, o)
  {
  }

  lemma {:induction false} EmitKeepsAccount(call: Call, s: State, o: Opportunity)
    requires Shape(call, s) && Enabled(call, s, Emit)
    ensures Account(call, Apply(call, s, Emit), o) == Account(call, s, o)
  {
    assert s.analyser.pending == [s.analyser.pending[0]] + s.analyser.pending[1..];
  }

  lemma {:induction false} OwnMoveKeepsAccount(call: Call, s: State, a: Action, o: Opportunity)
    requires Shape(call, s) && Enabled(call, s, a) && (a.Exit? || a.Fetch? || a.Quit?)
    ensures Account(call, Apply(call, s, a), o) <= Account(call, s, o)
    ensures !s.cancelled ==> Account(call, Apply(call, s, a), o) == Account(call, s, o)
  {
    ReplacingWorkerKeepsAccount(call, s, a.w, if a.Fetch? then Sending(s.workers[a.w].item) else Exited, o);
  }

  lemma {:induction false} WorkerKeepsAccount(call: Call, s: State, a: Action, o: Opportunity)
    requires Shape(call, s) && Enabled(call, s, a) && OfWorker(a)
    ensures Account(call, Apply(call, s, a), o) <= Account(call, s, o)
    ensures !s.cancelled ==> Account(call, Apply(call, s, a), o) == Account(call, s, o)
  {
    if a.Receive? {
      ReceiveKeepsAccount(call, s, a.w, o);
    } else if a.Send? {
      SendKeepsAccount(call, s, a.w, o);
    } else {
      OwnMoveKeepsAccount(call, s, a, o);
    }
  }

  lemma {:induction false} StepKeepsAccount(call: Call, s: State, a: Action, o: Opportunity)
    requires Shape(call, s) && Enabled(call, s, a)
    ensures Apply(call, s, a).fed <= |call.batch|
    ensures Account(call, Apply(call, s, a), o) <= Account(call, s, o)
    ensures !s.cancelled ==> Account(call, Apply(call, s, a), o) == Account(call, s, o)
  {
    StepKeepsShape(call, s, a);
    if OfWorker(a) {
      WorkerKeepsAccount(call, s, a, o);
    } else if a.Emit? {
      EmitKeepsAccount(call, s, o);
    } else if OfAnalyser(a) {
      AnalyserKeepsAccount(call, s, a, o);
    } else {
      CallerKeepsAccount(call, s, a, o);
    }
  }

  lemma {:induction false} WorkerKeepsShape(call: Call, s: State, a: Action)
    requires Shape(call, s) && Enabled(call, s, a) && OfWorker(a)
    ensures Shape(call, Apply(call, s, a))
  {
  }

  lemma {:induction false} StepKeepsShape(call: Call, s: State, a: Action)
    requires Shape(call, s) && Enabled(call, s, a)
    ensures Shape(call, Apply(call, s, a))
  {
    if OfWorker(a) {
      WorkerKeepsShape(call, s, a);
    }
  }

  lemma {:induction false} WorkerKeepsClosing(call: Call, s: State, a: Action)
    requires Shape(call, s) && Closing(call, s) && Enabled(call, s, a) && OfWorker(a)
    ensures Closing(call, Apply(call, s, a))
  {
  }

  lemma {:induction false} StepKeepsClosing(call: Call, s: State, a: Action)
    requires Shape(call, s) && Closing(call, s) && Enabled(call, s, a)
    ensures Closing(call, Apply(call, s, a))
  {
    if OfWorker(a) {
      WorkerKeepsClosing(call, s, a);
    }
  }

  ghost function HoldsOf(w: Worker, item: Item): nat {
    if (w.Fetching? || w.Sending?) && w.item == item then 1 else 0
  }

  lemma {:induction false} HoldsOfIsCount(w: Worker, item: Item)
    ensures multiset(Holds(w))[item] == HoldsOf(w, item)
  {
    if w.Fetching? || w.Sending? {
      assert multiset([w.item])[item] == HoldsOf(w, item);
    }
  }

  lemma {:induction false} MoveWorkerHolds(workers: seq<Worker>, w: nat, to: Worker, item: Item)
    requires w < |workers|
    ensures multiset(Held(workers[w := to]))[item] + HoldsOf(workers[w], item)
         == multiset(Held(workers))[item] + HoldsOf(to, item)
  {
    var moved := workers[w := to];
    HeldSplit(workers, w);
    HeldSplit(moved, w);
    assert moved[..w] == workers[..w] && moved[w + 1..] == workers[w + 1..];
    HoldsOfIsCount(workers[w], item);
    HoldsOfIsCount(to, item);
  }

  lemma {:induction false} ReplacingWorkerKeepsUnderway(call: Call, s: State, w: nat, to: Worker, item: Item)
    requires Shape(call, s) && w < |s.workers|
    ensures UnderwayOf(call, s.(workers := s.workers[w := to]), item) + HoldsOf(s.workers[w], item)
         == UnderwayOf(call, s, item) + HoldsOf(to, item)
  {
    MoveWorkerHolds(s.workers, w, to, item);
  }

  lemma {:induction false} CountOfFirst(items: seq<Item>, item: Item)
    requires items != []
    ensures multiset(items)[item] == multiset(items[1..])[item] + if items[0] == item then 1 else 0
  {
    assert items == [items[0]] + items[1..];
    assert multiset([items[0]])[item] == if items[0] == item then 1 else 0;
  }

  lemma {:induction false} CountOfLast(items: seq<Item>, last: Item, item: Item)
    ensures multiset(items + [last])[item] == multiset(items)[item] + if last == item then 1 else 0
  {
    assert multiset([last])[item] == if last == item then 1 else 0;
  }

  lemma {:induction false} ReceiveKeepsUnderway(call: Call, s: State, w: nat, item: Item)
    requires Shape(call, s) && Enabled(call, s, Receive(w))
    ensures UnderwayOf(call, Apply(call, s, Receive(w)), item) == UnderwayOf(call, s, item)
  {
    MoveWorkerHolds(s.workers, w, Fetching(s.input.buffer[0]), item);
    CountOfFirst(s.input.buffer, item);
  }

  lemma {:induction false} SendingMovesOne(prices: seq<Item>, workers: seq<Worker>, w: nat, item: Item)
    requires w < |workers| && workers[w].Sending?
    ensures multiset(prices + [workers[w].item])[item] + multiset(Held(workers[w := Receiving]))[item]
         == multiset(prices)[item] + multiset(Held(workers))[item]
  {
    MoveWorkerHolds(workers, w, Receiving, item);
    CountOfLast(prices, workers[w].item, item);
  }

  lemma {:induction false} SendKeepsUnderway(call: Call, s: State, w: nat, item: Item)
    requires Shape(call, s) && Enabled(call, s, Send(w))
    ensures UnderwayOf(call, Apply(call, s, Send(w)), item) == UnderwayOf(call, s, item)
  {
    SendingMovesOne(s.prices.buffer, s.workers, w, item);
  }

  lemma {:induction false} OwnMoveKeepsUnderway(call: Call, s: State, a: Action, item: Item)
    requires Shape(call, s) && Enabled(call, s, a) && (a.Exit? || a.Fetch? || a.Quit?)
    ensures UnderwayOf(call, Apply(call, s, a), item) <= UnderwayOf(call, s, item)
  {
    ReplacingWorkerKeepsUnderway(call, s, a.w, if a.Fetch? then Sending(s.workers[a.w].item) else Exited, item);
  }

  lemma {:induction false} WorkerKeepsUnderway(call: Call, s: State, a: Action, item: Item)
    requires Shape(call, s) && Enabled(call, s, a) && OfWorker(a)
    ensures UnderwayOf(call, Apply(call, s, a), item) <= UnderwayOf(call, s, item)
  {
    if a.Receive? {
      ReceiveKeepsUnderway(call, s, a.w, item);
    } else if a.Send? {
      SendKeepsUnderway(call, s, a.w, item);
    } else {
      OwnMoveKeepsUnderway(call, s, a, item);
    }
  }

  lemma {:induction false} FeedKeepsUnderway(call: Call, s: State, item: Item)
    requires Shape(call, s) && Enabled(call, s, Feed)
    ensures UnderwayOf(call, Apply(call, s, Feed), item) == UnderwayOf(call, s, item)
  {
    CountOfFirst(call.batch[s.fed..], item);
    CountOfLast(s.input.buffer, call.batch[s.fed], item);
  }

  lemma {:induction false} OthersKeepUnderway(call: Call, s: State, a: Action, item: Item)
    requires Shape(call, s) && Enabled(call, s, a) && !OfWorker(a) && !a.Analyse?
    ensures Apply(call, s, a).fed <= |call.batch|
    ensures UnderwayOf(call, Apply(call, s, a), item) <= UnderwayOf(call, s, item)
  {
    if a.Feed? {
      FeedKeepsUnderway(call, s, item);
    } else if a.DropAnalysis? {
      CountOfFirst(s.prices.buffer, item);
    }
  }

  lemma {:induction false} AnalyseTakesFirst(call: Call, s: State, item: Item)
    requires Shape(call, s) && Enabled(call, s, Analyse)
    ensures var t := Apply(call, s, Analyse);
            UnderwayOf(call, t, item) + CurrentOf(t.analyser, item) <= UnderwayOf(call, s, item)
  {
    CountOfFirst(s.prices.buffer, item);
  }

  /** But for the analysis of another size, the analyser stays at its size or leaves it. */
  lemma {:induction false} AnalyserStays(call: Call, s: State, a: Action)
    requires Enabled(call, s, a) && !a.Analyse?
    ensures var t := Apply(call, s, a).analyser;
            t.Emitting? ==> s.analyser.Emitting? && t.item == s.analyser.item && |t.pending| <= |s.analyser.pending|
  {
  }

  lemma {:induction false} StepKeepsPlaced(call: Call, s: State, a: Action)
    requires Shape(call, s) && Placed(call, s) && Enabled(call, s, a)
    ensures Apply(call, s, a).fed <= |call.batch|
    ensures Placed(call, Apply(call, s, a))
  {
    var t := Apply(call, s, a);
    forall item ensures t.fed <= |call.batch| && UnderwayOf(call, t, item) + CurrentOf(t.analyser, item) <= multiset(call.batch)[item] {
      assert UnderwayOf(call, s, item) + CurrentOf(s.analyser, item) <= multiset(call.batch)[item];
      if a.Analyse? {
        AnalyseTakesFirst(call, s, item);
      } else {
        AnalyserStays(call, s, a);
        if OfWorker(a) {
          WorkerKeepsUnderway(call, s, a, item);
        } else {
          OthersKeepUnderway(call, s, a, item);
        }
      }
    }
    if !a.Analyse? {
      AnalyserStays(call, s, a);
    }
  }

  lemma {:induction false} StepKeepsInv(call: Call, s: State, a: Action)
    requires Inv(call, s) && Enabled(call, s, a)
    ensures Inv(call, Apply(call, s, a))
  {
    StepKeepsShape(call, s, a);
    StepKeepsClosing(call, s, a);
    StepKeepsPlaced(call, s, a);
    forall o ensures Account(call, Apply(call, s, a), o) <= Account(call, s, o)
                     && (!s.cancelled ==> Account(call, Apply(call, s, a), o) == Account(call, s, o)) {
      StepKeepsAccount(call, s, a, o);
    }
  }

  lemma {:induction false} RunKeepsInv(call: Call, from: State, actions: seq<Action>, to: State)
    requires Inv(call, from) && IsRun(call, from, actions, to)
    ensures Inv(call, to)
    decreases |actions|
  {
    if actions == [] {
    } else {
      StepKeepsInv(call, from, actions[0]);
      RunKeepsInv(call, Apply(call, from, actions[0]), actions[1..], to);
    }
  }

  // ---------------------------------------------------------------------
  // Every run ends
  // ---------------------------------------------------------------------

  /** Strictly decreases with every step of every goroutine. */
  ghost function Measure(call: Call, s: State): nat
    requires s.fed <= |call.batch|
  {
    (if s.cancelled then 0 else 1)
    + (match s.caller case Feeding => 2 case Collecting => 1 case Returned(_) => 0)
    + 10 * (|call.batch| - s.fed) + 9 * |s.input.buffer| + WorkersWeight(s.workers)
    + 6 * |s.prices.buffer| + 2 * |Pending(s.analyser)| + |s.output.buffer|
    + (if s.analyser == Finished then 0 else 1) + (if s.prices.closed then 0 else 1) + (if s.output.closed then 0 else 1)
  }

  lemma {:induction false} WorkerDecreasesMeasure(call: Call, s: State, a: Action)
    requires Shape(call, s) && Enabled(call, s, a) && OfWorker(a)
    ensures Measure(call, Apply(call, s, a)) < Measure(call, s)
  {
    MoveWorker(s.workers, a.w, Apply(call, s, a).workers[a.w]);
  }

  lemma {:induction false} AnalyserDecreasesMeasure(call: Call, s: State, a: Action)
    requires Shape(call, s) && Enabled(call, s, a)
    requires OfAnalyser(a)
    ensures Measure(call, Apply(call, s, a)) < Measure(call, s)
  {
  }

  lemma {:induction false} CallDecreasesMeasure(call: Call, s: State, a: Action)
    requires Shape(call, s) && Enabled(call, s, a) && !OfWorker(a)
    requires !OfAnalyser(a)
    ensures Apply(call, s, a).fed <= |call.batch|
    ensures Measure(call, Apply(call, s, a)) < Measure(call, s)
  {
  }

  lemma {:induction false} StepDecreasesMeasure(call: Call, s: State, a: Action)
    requires Shape(call, s) && Enabled(call, s, a)
    ensures Apply(call, s, a).fed <= |call.batch|
    ensures Measure(call, Apply(call, s, a)) < Measure(call, s)
  {
    StepKeepsShape(call, s, a);
    if OfWorker(a) {
      WorkerDecreasesMeasure(call, s, a);
    } else if OfAnalyser(a) {
      AnalyserDecreasesMeasure(call, s, a);
    } else {
      CallDecreasesMeasure(call, s, a);
    }
  }

  lemma {:induction false} RunDecreasesMeasure(call: Call, from: State, actions: seq<Action>, to: State)
    requires Inv(call, from) && IsRun(call, from, actions, to)
    ensures Inv(call, to) && Measure(call, to) + |actions| <= Measure(call, from)
    decreases |actions|
  {
    if actions == [] {
    } else {
      StepKeepsInv(call, from, actions[0]);
      StepDecreasesMeasure(call, from, actions[0]);
      RunDecreasesMeasure(call, Apply(call, from, actions[0]), actions[1..], to);
    }
  }

  /** No interleaving has more than ten steps for each size, one for each worker and six more. */
  lemma {:induction false} EveryRunIsFinite(call: Call, actions: seq<Action>, to: State)
    requires call.Valid() && IsRun(call, Initial(call), actions, to)
    ensures |actions| <= 10 * |call.batch| + call.config.concurrency + 6
  {
    InitialInv(call);
    FreshWorkers(call.config.concurrency);
    RunDecreasesMeasure(call, Initial(call), actions, to);
  }

  /** No reachable state sends on a closed channel or closes one twice, cancelled or not. */
  lemma {:induction false} NeverPanics(call: Call, actions: seq<Action>, to: State)
    requires call.Valid() && IsRun(call, Initial(call), actions, to)
    ensures !AboutToPanic(call, to)
  {
    InitialInv(call);
    RunKeepsInv(call, Initial(call), actions, to);
  }

  // ---------------------------------------------------------------------
  // What a finished call returns
  // ---------------------------------------------------------------------

  lemma {:induction false} EachReturnedAsOften(call: Call, to: State, o: Opportunity)
    requires Inv(call, to) && to.caller.Returned? && !to.cancelled
    ensures multiset(to.caller.result)[o] == Yield(call.batch, call.emit, o)
  {
    HeldBound(to.workers);
    assert call.batch[|call.batch|..] == [];
    assert Account(call, to, o) == multiset(to.collected)[o];
  }

  lemma {:induction false} ReturnedIsSequential(call: Call, to: State)
    requires Inv(call, to) && to.caller.Returned? && !to.cancelled
    ensures multiset(to.caller.result) == multiset(Sequential(call.batch, call.emit))
  {
    forall o ensures multiset(to.caller.result)[o] == multiset(Sequential(call.batch, call.emit))[o] {
      EachReturnedAsOften(call, to, o);
      YieldIsSequential(call.batch, call.emit, o);
    }
  }

  /** The caller collects only once it has fed everything; it has returned nothing, cancelled before that, or else all it
      collected until the closed output was empty. */
  ghost predicate ReturnsOrderly(call: Call, s: State) {
    match s.caller
    case Feeding => s.collected == []
    case Collecting => s.fed == |call.batch|
    case Returned(result) =>
      || (s.cancelled && s.fed < |call.batch| && result == [])
      || (s.fed == |call.batch| && s.output == Channel([], true) && result == s.collected)
  }

  lemma {:induction false} StepReturnsOrderly(call: Call, s: State, a: Action)
    requires Shape(call, s) && ReturnsOrderly(call, s) && Enabled(call, s, a)
    ensures ReturnsOrderly(call, Apply(call, s, a))
  {
  }

  /** In every interleaving, cancelled or not, the caller feeds, collects and returns in that order: nothing is returned by a
      call that gave up feeding, which takes a cancellation and a size still to feed, and by any other all that was sent. */
  lemma {:induction false} RunReturnsOrderly(call: Call, from: State, actions: seq<Action>, to: State)
    requires call.Valid() && Inv(call, from) && ReturnsOrderly(call, from) && IsRun(call, from, actions, to)
    ensures ReturnsOrderly(call, to)
    decreases |actions|
  {
    if actions == [] {
    } else {
      StepKeepsInv(call, from, actions[0]);
      StepReturnsOrderly(call, from, actions[0]);
      RunReturnsOrderly(call, Apply(call, from, actions[0]), actions[1..], to);
    }
  }

  /** A call that returns without having been cancelled returns, as a multiset, exactly what analysing each size
      once in order gives, whatever the interleaving. */
  lemma {:induction false} ReturnsTheSequentialResult(call: Call, actions: seq<Action>, to: State)
    requires call.Valid() && IsRun(call, Initial(call), actions, to)
    requires to.caller.Returned? && !to.cancelled
    ensures multiset(to.caller.result) == multiset(Sequential(call.batch, call.emit))
    ensures AllDone(to)
  {
    InitialInv(call);
    RunKeepsInv(call, Initial(call), actions, to);
    ReturnedIsSequential(call, to);
  }

  /** A cancelled call returns only opportunities of the sequential result, none more often than there. */
  lemma {:induction false} CancelledCallReturnsAPart(call: Call, actions: seq<Action>, to: State)
    requires call.Valid() && IsRun(call, Initial(call), actions, to)
    requires to.caller.Returned?
    ensures multiset(to.caller.result) <= multiset(Sequential(call.batch, call.emit))
  {
    InitialInv(call);
    RunKeepsInv(call, Initial(call), actions, to);
    forall o ensures multiset(to.caller.result)[o] <= multiset(Sequential(call.batch, call.emit))[o] {
      assert Account(call, to, o) <= Yield(call.batch, call.emit, o);
      YieldIsSequential(call.batch, call.emit, o);
    }
  }
}
