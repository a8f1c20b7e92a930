/** internal/pricing/orderbook.go: executing a size against the levels of one side of a book. */
module Orderbooks {
  import opened Wrappers
  import opened Reals

  datatype Level = Level(price: real, volume: real)

  datatype Error = InvalidSize | EmptyBook | InsufficientLiquidity(filled: real)

  datatype ExecutionResult = ExecutionResult(effectivePrice: real, slippage: real, totalCost: real, totalFilled: real)

  /** Positive prices and volumes that are not negative. */
  ghost predicate ValidLevels(levels: seq<Level>) {
    forall i :: 0 <= i < |levels| ==> levels[i].price > 0.0 && levels[i].volume >= 0.0
  }

  /** p is at least as good as q for a buyer or a seller. */
  predicate AtLeastAsGood(p: real, q: real, isBuy: bool) {
    if isBuy then p <= q else p >= q
  }

  /** Asks ascend and bids descend. */
  ghost predicate BestFirst(levels: seq<Level>, isBuy: bool) {
    forall i, j :: 0 <= i < j < |levels| ==> AtLeastAsGood(levels[i].price, levels[j].price, isBuy)
  }

  function TotalVolume(levels: seq<Level>): real {
    if levels == [] then 0.0 else levels[0].volume + TotalVolume(levels[1..])
  }

  /** How much is taken from each level when `size` is taken from the levels in order. */
  function GreedyFills(levels: seq<Level>, size: real): seq<real> {
    if levels == [] then []
    else
      var fill := if size <= 0.0 then 0.0 else Min(size, levels[0].volume);
      [fill] + GreedyFills(levels[1..], size - fill)
  }

  function Sum(alloc: seq<real>): real {
    if alloc == [] then 0.0 else alloc[0] + Sum(alloc[1..])
  }

  function CostOf(levels: seq<Level>, alloc: seq<real>): real
    requires |alloc| == |levels|
  {
    if alloc == [] then 0.0 else alloc[0] * levels[0].price + CostOf(levels[1..], alloc[1..])
  }

  lemma {:induction false} FillsPerLevel(levels: seq<Level>, size: real)
    ensures |GreedyFills(levels, size)| == |levels|
  {
    if levels == [] {
    } else {
      var fill := GreedyFills(levels, size)[0];
      FillsPerLevel(levels[1..], size - fill);
    }
  }

  function GreedyCost(levels: seq<Level>, size: real): real {
    FillsPerLevel(levels, size);
    CostOf(levels, GreedyFills(levels, size))
  }

  /** One level of the greedy walk. */
  lemma {:induction false} GreedyCostStep(levels: seq<Level>, size: real, fill: real)
    requires levels != [] && fill == if size <= 0.0 then 0.0 else Min(size, levels[0].volume)
    ensures GreedyCost(levels, size) == fill * levels[0].price + GreedyCost(levels[1..], size - fill)
  {
    var fills := GreedyFills(levels, size);
    FillsPerLevel(levels, size);
    assert fills[0] == fill && fills[1..] == GreedyFills(levels[1..], size - fill);
  }

  lemma {:induction false} NothingCostsNothing(levels: seq<Level>)
    ensures GreedyCost(levels, 0.0) == 0.0
  {
    if levels != [] {
      GreedyCostStep(levels, 0.0, 0.0);
      NothingCostsNothing(levels[1..]);
    } else {
      assert GreedyFills(levels, 0.0) == [];
    }
  }

  /** A way of taking volume: how much from each level. */
  ghost predicate IsAllocation(levels: seq<Level>, alloc: seq<real>) {
    |alloc| == |levels| && forall i :: 0 <= i < |alloc| ==> 0.0 <= alloc[i] <= levels[i].volume
  }

  /** Some way of buying the size costs that, and none costs less. */
  ghost predicate IsLeastCost(levels: seq<Level>, size: real, cost: real) {
    && (exists alloc :: IsAllocation(levels, alloc) && Sum(alloc) == size && CostOf(levels, alloc) == cost)
    && (forall alloc :: IsAllocation(levels, alloc) && Sum(alloc) == size ==> cost <= CostOf(levels, alloc))
  }

  /** Some way of selling the size brings that, and none brings more. */
  ghost predicate IsGreatestProceeds(levels: seq<Level>, size: real, proceeds: real) {
    && (exists alloc :: IsAllocation(levels, alloc) && Sum(alloc) == size && CostOf(levels, alloc) == proceeds)
    && (forall alloc :: IsAllocation(levels, alloc) && Sum(alloc) == size ==> CostOf(levels, alloc) <= proceeds)
  }

  /** The volume of the asks up to the first one above some price. */
  ghost predicate DepthOfAsks(asks: seq<Level>, most: real, volume: real) {
    exists k: nat :: k <= |asks| && volume == TotalVolume(asks[..k])
                     && (forall i :: 0 <= i < k ==> asks[i].price <= most) && (k < |asks| ==> asks[k].price > most)
  }

  /** The volume of the bids down to the first one below some price. */
  ghost predicate DepthOfBids(bids: seq<Level>, least: real, volume: real) {
    exists k: nat :: k <= |bids| && volume == TotalVolume(bids[..k])
                     && (forall i :: 0 <= i < k ==> bids[i].price >= least) && (k < |bids| ==> bids[k].price < least)
  }

  /** The effective price is the cost of one unit on average, and the slippage how much worse than the best price that is,
      in percent. */
  ghost predicate IsAverage(r: ExecutionResult, bestPrice: real, isBuy: bool) {
    && r.effectivePrice * r.totalFilled == r.totalCost
    && r.slippage * bestPrice == if isBuy then (r.effectivePrice - bestPrice) * 100.0 else (bestPrice - r.effectivePrice) * 100.0
  }

  datatype Orderbook = Orderbook(bids: seq<Level>, asks: seq<Level>) {
    ghost predicate Valid() {
      && ValidLevels(bids) && ValidLevels(asks)
      && BestFirst(asks, true) && BestFirst(bids, false)
    }

    /** A buyer takes the asks and a seller the bids. Fails exactly when the size is not positive, that side is empty or its
        volume is less than the size; otherwise fills exactly the size, at the greedy cost. On a valid book no other way of
        buying the size costs less, and none of selling it brings more. */
    method CalculateExecution(size: real, isBuy: bool) returns (result: Result<ExecutionResult, Error>)
      requires ValidLevels(if isBuy then asks else bids)
      ensures var levels := if isBuy then asks else bids;
              && (result.Success? <==> size > 0.0 && levels != [] && size <= TotalVolume(levels))
              && (result == Failure(InvalidSize) <==> size <= 0.0)
              && (result == Failure(EmptyBook) <==> size > 0.0 && levels == [])
              && (result.Failure? && size > 0.0 && levels != [] ==> result.error == InsufficientLiquidity(TotalVolume(levels)))
      ensures result.Success? ==>
                var r, levels := result.value, if isBuy then asks else bids;
                && r.totalFilled == size
                && r.totalCost == GreedyCost(levels, size)
                && IsAverage(r, levels[0].price, isBuy)
      ensures Valid() && isBuy && result.Success? ==> IsLeastCost(asks, size, result.value.totalCost)
      ensures Valid() && !isBuy && result.Success? ==> IsGreatestProceeds(bids, size, result.value.totalCost)
    {
      if size <= 0.0 {
        return Failure(InvalidSize);
      }
      var levels := if isBuy then asks else bids;
      if |levels| == 0 {
        return Failure(EmptyBook);
      }
      var remainingSize, totalCost, totalFilled := WalkLevels(levels, size);
      if remainingSize > 0.0 {
        return Failure(InsufficientLiquidity(totalFilled));
      }
      BestOfAll(levels, size, isBuy);
      var execution := PriceAndSlippage(totalCost, totalFilled, levels[0].price, isBuy);
      return Success(execution);
    }

    /** The volume priced within a fraction of the best price: above it for the asks that a buyer takes, below it for bids.
        Stopping at the first level out of range misses nothing on a sorted side. */
    method GetDepth(priceRange: real, isBuy: bool) returns (totalVolume: real)
      ensures isBuy ==> if asks == [] then totalVolume == 0.0
                        else DepthOfAsks(asks, Limit(asks[0].price, priceRange, true), totalVolume)
      ensures !isBuy ==> if bids == [] then totalVolume == 0.0
                         else DepthOfBids(bids, Limit(bids[0].price, priceRange, false), totalVolume)
      ensures isBuy && asks != [] && BestFirst(asks, true)
              ==> totalVolume == VolumeWithin(asks, Limit(asks[0].price, priceRange, true), true)
      ensures !isBuy && bids != [] && BestFirst(bids, false)
              ==> totalVolume == VolumeWithin(bids, Limit(bids[0].price, priceRange, false), false)
    {
      var levels := if isBuy then asks else bids;
      if |levels| == 0 {
        return 0.0;
      }
      var bestPrice := levels[0].price;
      totalVolume := VolumeUpTo(levels, Limit(bestPrice, priceRange, isBuy), isBuy);
    }

    method GetTotalBidVolume() returns (total: real)
      ensures total == TotalVolume(bids)
    {
      total := 0.0;
      assert bids[0..] == bids;
      for i := 0 to |bids|
        invariant total + TotalVolume(bids[i..]) == TotalVolume(bids)
      {
        assert bids[i..][1..] == bids[i + 1..];
        total := total + bids[i].volume;
      }
    }

    method GetTotalAskVolume() returns (total: real)
      ensures total == TotalVolume(asks)
    {
      total := 0.0;
      assert asks[0..] == asks;
      for i := 0 to |asks|
        invariant total + TotalVolume(asks[i..]) == TotalVolume(asks)
      {
        assert asks[i..][1..] == asks[i + 1..];
        total := total + asks[i].volume;
      }
    }
  }

  /** Summing the levels up to the first one out of range. */
  method VolumeUpTo(levels: seq<Level>, maxPrice: real, isBuy: bool) returns (totalVolume: real)
    ensures isBuy ==> DepthOfAsks(levels, maxPrice, totalVolume)
    ensures !isBuy ==> DepthOfBids(levels, maxPrice, totalVolume)
    ensures BestFirst(levels, isBuy) ==> totalVolume == VolumeWithin(levels, maxPrice, isBuy)
  {
    totalVolume := 0.0;
    assert levels[..0] == [] && levels[0..] == levels;
    for i := 0 to |levels|
      invariant totalVolume == TotalVolume(levels[..i])
      invariant forall j :: 0 <= j < i ==> AtLeastAsGood(levels[j].price, maxPrice, isBuy)
      invariant totalVolume + VolumeWithin(levels[i..], maxPrice, isBuy) == VolumeWithin(levels, maxPrice, isBuy)
    {
      assert levels[..i + 1] == levels[..i] + [levels[i]] && levels[i..][1..] == levels[i + 1..];
      if !AtLeastAsGood(levels[i].price, maxPrice, isBuy) {
        if BestFirst(levels, isBuy) {
          NothingWithin(levels[i..], maxPrice, isBuy);
        }
        return;
      }
      TotalVolumeOfAppend(levels[..i], levels[i]);
      totalVolume := totalVolume + levels[i].volume;
    }
    assert levels[..|levels|] == levels;
  }

  lemma {:induction false} TotalVolumeOfAppend(levels: seq<Level>, last: Level)
    ensures TotalVolume(levels + [last]) == TotalVolume(levels) + last.volume
  {
    if levels == [] {
      assert levels + [last] == [last] && [last][1..] == [];
    } else {
      assert (levels + [last])[0] == levels[0] && (levels + [last])[1..] == levels[1..] + [last];
      TotalVolumeOfAppend(levels[1..], last);
    }
  }

  function Quotient(a: real, b: real): (q: real)
    requires b > 0.0
    ensures q * b == a
  {
    a / b
  }

  /** Walking the levels in order until the size is used up or the levels end. */
  method WalkLevels(levels: seq<Level>, size: real) returns (remainingSize: real, totalCost: real, totalFilled: real)
    requires ValidLevels(levels) && size > 0.0
    ensures if size <= TotalVolume(levels) then remainingSize == 0.0 else totalFilled == TotalVolume(levels)
    ensures remainingSize >= 0.0 && totalFilled == size - remainingSize
    ensures totalCost == GreedyCost(levels, size)
  {
    remainingSize, totalCost, totalFilled := size, 0.0, 0.0;
    assert levels[0..] == levels;
    for i := 0 to |levels|
      invariant remainingSize >= 0.0
      invariant totalFilled == size - remainingSize
      invariant totalCost + GreedyCost(levels[i..], remainingSize) == GreedyCost(levels, size)
      invariant remainingSize > 0.0 ==> totalFilled + TotalVolume(levels[i..]) == TotalVolume(levels)
      invariant remainingSize == 0.0 ==> size <= TotalVolume(levels)
    {
      if remainingSize <= 0.0 {
        NothingCostsNothing(levels[i..]);
        break;
      }
      var level := levels[i];
      var fillAmount := if remainingSize <= level.volume then remainingSize else level.volume;
      assert levels[i..][0] == level && levels[i..][1..] == levels[i + 1..];
      TotalVolumeIsNonNegative(levels[i + 1..]);
      GreedyCostStep(levels[i..], remainingSize, fillAmount);
      totalCost := totalCost + fillAmount * level.price;
      totalFilled := totalFilled + fillAmount;
      remainingSize := remainingSize - fillAmount;
    }
    NothingCostsNothing([]);
  }

  method PriceAndSlippage(totalCost: real, totalFilled: real, bestPrice: real, isBuy: bool) returns (r: ExecutionResult)
    requires totalFilled > 0.0 && bestPrice > 0.0
    ensures r.totalCost == totalCost && r.totalFilled == totalFilled
    ensures IsAverage(r, bestPrice, isBuy)
  {
    var effectivePrice := Quotient(totalCost, totalFilled);
    var relative := Quotient(effectivePrice - bestPrice, bestPrice);
    var slippage := relative * 100.0;
    assert slippage * bestPrice == relative * bestPrice * 100.0;
    if !isBuy {
      slippage := -slippage;
    }
    r := ExecutionResult(effectivePrice, slippage, totalCost, totalFilled);
  }

  lemma {:induction false} TotalVolumeIsNonNegative(levels: seq<Level>)
    requires ValidLevels(levels)
    ensures TotalVolume(levels) >= 0.0
  {
    if levels == [] {
    } else {
      TotalVolumeIsNonNegative(levels[1..]);
    }
  }

  function Limit(bestPrice: real, priceRange: real, isBuy: bool): real {
    bestPrice * if isBuy then 1.0 + priceRange else 1.0 - priceRange
  }

  /** The range reaches up from the best ask and down from the best bid, by that fraction of the price. */
  lemma {:induction false} LimitIsBeyondTheBest(bestPrice: real, priceRange: real)
    ensures Limit(bestPrice, priceRange, true) == bestPrice + bestPrice * priceRange
    ensures Limit(bestPrice, priceRange, false) == bestPrice - bestPrice * priceRange
    ensures bestPrice > 0.0 && priceRange >= 0.0
            ==> Limit(bestPrice, priceRange, false) <= bestPrice <= Limit(bestPrice, priceRange, true)
  {
    if bestPrice > 0.0 && priceRange >= 0.0 {
      RealProductSign(bestPrice, priceRange);
    }
  }

  function VolumeWithin(levels: seq<Level>, limit: real, isBuy: bool): real {
    if levels == [] then 0.0
    else (if AtLeastAsGood(levels[0].price, limit, isBuy) then levels[0].volume else 0.0)
         + VolumeWithin(levels[1..], limit, isBuy)
  }

  lemma {:induction false} NothingWithin(levels: seq<Level>, limit: real, isBuy: bool)
    requires BestFirst(levels, isBuy)
    requires levels != [] ==> !AtLeastAsGood(levels[0].price, limit, isBuy)
    ensures VolumeWithin(levels, limit, isBuy) == 0.0
  {
    if |levels| <= 1 {
    } else {
      assert AtLeastAsGood(levels[0].price, levels[1].price, isBuy);
      NothingWithin(levels[1..], limit, isBuy);
    }
  }

  // ---------------------------------------------------------------------
  // Taking the best levels first is optimal
  // ---------------------------------------------------------------------

  lemma {:induction false} AllocationFits(levels: seq<Level>, alloc: seq<real>)
    requires IsAllocation(levels, alloc)
    ensures 0.0 <= Sum(alloc) <= TotalVolume(levels)
  {
    if alloc == [] {
    } else {
      AllocationFits(levels[1..], alloc[1..]);
    }
  }

  /** Taking x instead of y from a level priced p is a change towards the price q: more only at a price at least
      as good as q, and less only at one that is no better than q. */
  ghost predicate Towards(x: real, y: real, p: real, q: real, isBuy: bool) {
    x == y || (x > y && AtLeastAsGood(p, q, isBuy)) || (x < y && AtLeastAsGood(q, p, isBuy))
  }

  ghost predicate AllTowards(levels: seq<Level>, alloc: seq<real>, other: seq<real>, q: real, isBuy: bool) {
    && |alloc| == |other| == |levels|
    && forall i :: 0 <= i < |levels| ==> Towards(alloc[i], other[i], levels[i].price, q, isBuy)
  }

  lemma {:induction false} AllTowardsTail(levels: seq<Level>, alloc: seq<real>, other: seq<real>, q: real, isBuy: bool)
    requires AllTowards(levels, alloc, other, q, isBuy) && levels != []
    ensures AllTowards(levels[1..], alloc[1..], other[1..], q, isBuy)
    ensures Towards(alloc[0], other[0], levels[0].price, q, isBuy)
  {
    forall i | 0 <= i < |levels[1..]| ensures Towards(alloc[1..][i], other[1..][i], levels[1..][i].price, q, isBuy) {
      assert Towards(alloc[i + 1], other[i + 1], levels[i + 1].price, q, isBuy);
    }
  }

  /** What some volumes are worth at the price q, less others. */
  function WorthAt(alloc: seq<real>, other: seq<real>, q: real): real
    requires |alloc| == |other|
  {
    if alloc == [] then 0.0 else (alloc[0] - other[0]) * q + WorthAt(alloc[1..], other[1..], q)
  }

  lemma {:induction false} WorthIsOfTheSum(alloc: seq<real>, other: seq<real>, q: real, added: real)
    requires |alloc| == |other| && added == Sum(alloc) - Sum(other)
    ensures WorthAt(alloc, other, q) == added * q
  {
    if alloc == [] {
    } else {
      var added1 := Sum(alloc[1..]) - Sum(other[1..]);
      WorthIsOfTheSum(alloc[1..], other[1..], q, added1);
      AddWorth(alloc[0] - other[0], added1, q);
    }
  }

  lemma {:induction false} AddWorth(x: real, y: real, q: real)
    ensures x * q + y * q == (x + y) * q
  {
  }

  /** Such a change is worth it at the price q. */
  lemma {:induction false} CostsAreTowards(levels: seq<Level>, alloc: seq<real>, other: seq<real>, q: real, isBuy: bool)
    requires AllTowards(levels, alloc, other, q, isBuy)
    ensures AtLeastAsGood(CostOf(levels, alloc) - CostOf(levels, other), WorthAt(alloc, other, q), isBuy)
  {
    if levels == [] {
    } else {
      var x, y, p := alloc[0], other[0], levels[0].price;
      AllTowardsTail(levels, alloc, other, q, isBuy);
      CostsAreTowards(levels[1..], alloc[1..], other[1..], q, isBuy);
      Shifted(x, y, p, q, x * p, y * p, (x - y) * q, isBuy);
    }
  }

  /** Such a change is worth it at the price q for the volume it adds. */
  lemma {:induction false} ChangingIsWorthIt(levels: seq<Level>, alloc: seq<real>, other: seq<real>, q: real, added: real,
                                             costX: real, costY: real, isBuy: bool) returns (worth: real)
    requires AllTowards(levels, alloc, other, q, isBuy)
    requires added == Sum(alloc) - Sum(other) && costX == CostOf(levels, alloc) && costY == CostOf(levels, other)
    ensures worth == added * q && AtLeastAsGood(costX - costY, worth, isBuy)
  {
    CostsAreTowards(levels, alloc, other, q, isBuy);
    WorthIsOfTheSum(alloc, other, q, added);
    worth := WorthAt(alloc, other, q);
  }

  lemma {:induction false} Shifted(x: real, y: real, p: real, q: real, xp: real, yp: real, worth: real, isBuy: bool)
    requires Towards(x, y, p, q, isBuy) && xp == x * p && yp == y * p && worth == (x - y) * q
    ensures AtLeastAsGood(xp - yp, worth, isBuy)
  {
    Distribute(x, y, p);
    if x > y {
      ScaleOrder(p, q, x - y, isBuy);
    } else if x < y {
      ScaleOrder(q, p, y - x, isBuy);
      Distribute(y, x, p);
      Distribute(y, x, q);
      Distribute(x, y, q);
    }
  }

  lemma {:induction false} Distribute(x: real, y: real, z: real)
    ensures (x - y) * z == x * z - y * z
  {
  }

  lemma {:induction false} SameProduct(x: real, y: real, z: real)
    requires x == y
    ensures x * z == y * z
  {
  }

  lemma {:induction false} ScaleOrder(p: real, q: real, x: real, isBuy: bool)
    requires x >= 0.0 && AtLeastAsGood(p, q, isBuy)
    ensures AtLeastAsGood(x * p, x * q, isBuy)
  {
    if isBuy {
      RealProductSign(q - p, x);
      Distribute(q, p, x);
    } else {
      RealProductSign(p - q, x);
      Distribute(p, q, x);
    }
  }

  lemma {:induction false} RealProductSign(x: real, y: real)
    requires x >= 0.0 && y >= 0.0
    ensures x * y >= 0.0
  {
  }

  lemma {:induction false} RealProductPositive(x: real, y: real)
    requires x > 0.0 && y > 0.0
    ensures x * y > 0.0
  {
  }

  lemma {:induction false} NegatedProduct(x: real, y: real)
    ensures (-x) * y == -(x * y)
  {
  }

  /** Greedy fills are an allocation of the whole size: full levels, then at most one partly used level, then unused ones. */
  lemma {:induction false} GreedyFillsShape(levels: seq<Level>, size: real) returns (last: nat)
    requires ValidLevels(levels) && 0.0 <= size <= TotalVolume(levels)
    ensures var fills := GreedyFills(levels, size);
            && IsAllocation(levels, fills) && Sum(fills) == size
            && last <= |levels|
            && (forall i :: 0 <= i < last ==> fills[i] == levels[i].volume)
            && (forall i :: last < i < |levels| ==> fills[i] == 0.0)
  {
    last := 0;
    if levels == [] || size <= 0.0 {
      NothingFillsNothing(levels);
    } else if size < levels[0].volume {
      NothingFillsNothing(levels[1..]);
      assert GreedyFills(levels, size) == [size] + GreedyFills(levels[1..], 0.0);
    } else {
      var v, rest := levels[0].volume, levels[1..];
      last := GreedyFillsShape(rest, size - v);
      var fills := GreedyFills(levels, size);
      assert fills == [v] + GreedyFills(rest, size - v) && fills[1..] == GreedyFills(rest, size - v);
      forall i | 0 < i < |levels| ensures fills[i] == GreedyFills(rest, size - v)[i - 1] && levels[i] == rest[i - 1] {
      }
      last := last + 1;
    }
  }

  lemma {:induction false} NothingFillsNothing(levels: seq<Level>)
    ensures var fills := GreedyFills(levels, 0.0);
            && |fills| == |levels| && Sum(fills) == 0.0
            && forall i :: 0 <= i < |levels| ==> fills[i] == 0.0
  {
    if levels == [] {
    } else {
      NothingFillsNothing(levels[1..]);
      assert GreedyFills(levels, 0.0) == [0.0] + GreedyFills(levels[1..], 0.0);
    }
  }

  /** No other way of taking the same size from a sorted side costs a buyer less or brings a seller more. */
  lemma {:induction false} GreedyIsOptimal(levels: seq<Level>, alloc: seq<real>, size: real, isBuy: bool)
    requires ValidLevels(levels) && BestFirst(levels, isBuy)
    requires IsAllocation(levels, alloc) && Sum(alloc) == size
    ensures AtLeastAsGood(GreedyCost(levels, size), CostOf(levels, alloc), isBuy)
  {
    var q := GreedyIsTowards(levels, alloc, size, isBuy);
    var fills := GreedyFills(levels, size);
    var worth := ChangingIsWorthIt(levels, fills, alloc, q, 0.0, CostOf(levels, fills), CostOf(levels, alloc), isBuy);
  }

  /** The greedy cost is that of a way of taking the size, and the best of all. */
  lemma {:induction false} BestOfAll(levels: seq<Level>, size: real, isBuy: bool)
    requires ValidLevels(levels) && 0.0 <= size <= TotalVolume(levels)
    ensures BestFirst(levels, isBuy) && isBuy ==> IsLeastCost(levels, size, GreedyCost(levels, size))
    ensures BestFirst(levels, isBuy) && !isBuy ==> IsGreatestProceeds(levels, size, GreedyCost(levels, size))
  {
    var last := GreedyFillsShape(levels, size);
    assert IsAllocation(levels, GreedyFills(levels, size));
    forall alloc | BestFirst(levels, isBuy) && IsAllocation(levels, alloc) && Sum(alloc) == size
      ensures AtLeastAsGood(GreedyCost(levels, size), CostOf(levels, alloc), isBuy) {
      GreedyIsOptimal(levels, alloc, size, isBuy);
    }
  }

  /** Against any other allocation, greedy changes towards the price of its last used level. */
  lemma {:induction false} GreedyIsTowards(levels: seq<Level>, alloc: seq<real>, size: real, isBuy: bool) returns (q: real)
    requires ValidLevels(levels) && BestFirst(levels, isBuy)
    requires IsAllocation(levels, alloc) && Sum(alloc) == size
    ensures AllTowards(levels, GreedyFills(levels, size), alloc, q, isBuy)
    ensures Sum(GreedyFills(levels, size)) == size
  {
    AllocationFits(levels, alloc);
    var last := GreedyFillsShape(levels, size);
    if levels == [] {
      return 0.0;
    }
    var at := if last < |levels| then last else |levels| - 1;
    ChangesTowardsTheLast(levels, GreedyFills(levels, size), alloc, at, isBuy);
    return levels[at].price;
  }

  lemma {:induction false} ChangesTowardsTheLast(levels: seq<Level>, fills: seq<real>, alloc: seq<real>, at: nat, isBuy: bool)
    requires BestFirst(levels, isBuy) && IsAllocation(levels, alloc) && IsAllocation(levels, fills)
    requires at < |levels|
    requires forall i :: 0 <= i < at ==> fills[i] == levels[i].volume
    requires forall i :: at < i < |levels| ==> fills[i] == 0.0
    ensures AllTowards(levels, fills, alloc, levels[at].price, isBuy)
  {
  }

  // ---------------------------------------------------------------------
  // Consequences
  // ---------------------------------------------------------------------

  /** An allocation scaled down by a fraction k. */
  lemma {:induction false} ScaleDown(levels: seq<Level>, alloc: seq<real>, k: real, sum: real, cost: real)
      returns (scaled: seq<real>, scaledSum: real, scaledCost: real)
    requires IsAllocation(levels, alloc) && 0.0 <= k <= 1.0 && sum == Sum(alloc) && cost == CostOf(levels, alloc)
    ensures IsAllocation(levels, scaled) && Sum(scaled) == scaledSum && CostOf(levels, scaled) == scaledCost
    ensures scaledSum == sum * k && scaledCost == cost * k
  {
    if alloc == [] {
      scaled, scaledSum, scaledCost := [], 0.0, 0.0;
    } else {
      var x, p, sum1, cost1 := alloc[0], levels[0].price, Sum(alloc[1..]), CostOf(levels[1..], alloc[1..]);
      var rest, restSum, restCost := ScaleDown(levels[1..], alloc[1..], k, sum1, cost1);
      var y := ShrinkBy(x, k);
      scaledSum, scaledCost := DistributeScale(x, p, k, sum1, cost1, sum, cost, y, restSum, restCost);
      scaled := Prepend(levels, y, rest);
    }
  }

  lemma {:induction false} Prepend(levels: seq<Level>, y: real, rest: seq<real>) returns (alloc: seq<real>)
    requires levels != [] && IsAllocation(levels[1..], rest) && 0.0 <= y <= levels[0].volume
    ensures IsAllocation(levels, alloc)
    ensures Sum(alloc) == y + Sum(rest) && CostOf(levels, alloc) == y * levels[0].price + CostOf(levels[1..], rest)
  {
    alloc := [y] + rest;
    assert alloc[1..] == rest;
    forall i | 0 < i < |alloc| ensures 0.0 <= alloc[i] <= levels[i].volume {
      assert 0.0 <= rest[i - 1] <= levels[1..][i - 1].volume;
    }
  }

  lemma {:induction false} DistributeScale(x: real, p: real, k: real, sum1: real, cost1: real, sum: real, cost: real,
                                           y: real, restSum: real, restCost: real) returns (scaledSum: real, scaledCost: real)
    requires y == x * k && restSum == sum1 * k && restCost == cost1 * k
    requires sum == x + sum1 && cost == x * p + cost1
    ensures scaledSum == y + restSum == sum * k
    ensures scaledCost == y * p + restCost == cost * k
  {
    scaledSum, scaledCost := y + restSum, y * p + restCost;
    assert y * p == x * p * k;
  }

  lemma {:induction false} ShrinkBy(x: real, k: real) returns (y: real)
    requires x >= 0.0 && 0.0 <= k <= 1.0
    ensures y == x * k && 0.0 <= y <= x
  {
    y := x * k;
    RealProductSign(x, k);
    RealProductSign(1.0 - k, x);
    Distribute(1.0, k, x);
  }

  /** The average price never improves with size. */
  lemma {:induction false} AveragePriceWorsensWithSize(levels: seq<Level>, small: real, large: real, smallPrice: real, largePrice: real, isBuy: bool)
    requires ValidLevels(levels) && BestFirst(levels, isBuy)
    requires 0.0 < small <= large <= TotalVolume(levels)
    requires smallPrice * small == GreedyCost(levels, small) && largePrice * large == GreedyCost(levels, large)
    ensures AtLeastAsGood(smallPrice, largePrice, isBuy)
  {
    var k := Quotient(small, large);
    RatioBounds(k, small, large);
    var cost, scaled := GreedyCost(levels, large), GreedyCost(levels, small);
    ScaledDownIsNoBetter(levels, small, large, k, cost, isBuy);
    CompareAverages(scaled, cost, k, small, large, smallPrice, largePrice, isBuy);
  }

  lemma {:induction false} CompareAverages(s: real, l: real, k: real, small: real, large: real, smallPrice: real, largePrice: real, isBuy: bool)
    requires small > 0.0 && large * k == small && AtLeastAsGood(s, l * k, isBuy)
    requires smallPrice * small == s && largePrice * large == l
    ensures AtLeastAsGood(smallPrice, largePrice, isBuy)
  {
    assert l * k == largePrice * (large * k);
    var d := if isBuy then smallPrice - largePrice else largePrice - smallPrice;
    assert d * small == if isBuy then s - l * k else l * k - s;
    if d > 0.0 {
      RealProductPositive(d, small);
    }
  }

  lemma {:induction false} ScaledDownIsNoBetter(levels: seq<Level>, small: real, large: real, k: real, cost: real, isBuy: bool)
    requires ValidLevels(levels) && BestFirst(levels, isBuy)
    requires 0.0 <= large <= TotalVolume(levels) && 0.0 <= k <= 1.0 && small == large * k
    requires cost == GreedyCost(levels, large)
    ensures AtLeastAsGood(GreedyCost(levels, small), cost * k, isBuy)
  {
    var last := GreedyFillsShape(levels, large);
    var scaled, scaledSum, scaledCost := ScaleDown(levels, GreedyFills(levels, large), k, large, cost);
    GreedyIsOptimal(levels, scaled, small, isBuy);
  }

  lemma {:induction false} RatioBounds(k: real, small: real, large: real)
    requires 0.0 < small <= large && k * large == small
    ensures 0.0 <= k <= 1.0 && large * k == small
  {
    if k > 1.0 {
      RealProductPositive(k - 1.0, large);
      assert (k - 1.0) * large == k * large - large;
    }
    if k < 0.0 {
      RealProductPositive(-k, large);
      NegatedProduct(k, large);
    }
  }

  lemma {:induction false} ZeroAllocation(levels: seq<Level>) returns (zeros: seq<real>)
    ensures |zeros| == |levels| && (forall i :: 0 <= i < |zeros| ==> zeros[i] == 0.0)
    ensures Sum(zeros) == 0.0 && CostOf(levels, zeros) == 0.0
  {
    zeros := [];
    if levels == [] {
    } else {
      var rest := ZeroAllocation(levels[1..]);
      zeros := [0.0] + rest;
      assert zeros[1..] == rest;
    }
  }

  lemma {:induction false} NeverBetterThanBest(levels: seq<Level>, size: real, atBest: real, isBuy: bool)
    requires ValidLevels(levels) && BestFirst(levels, isBuy) && levels != []
    requires 0.0 <= size <= TotalVolume(levels) && atBest == size * levels[0].price
    ensures AtLeastAsGood(atBest, GreedyCost(levels, size), isBuy)
  {
    var zeros := ZeroAllocation(levels);
    var best := levels[0].price;
    NothingIsTowardsTheBest(levels, size, zeros, isBuy);
    var added := -size;
    var worth := ChangingIsWorthIt(levels, zeros, GreedyFills(levels, size), best, added, 0.0, GreedyCost(levels, size), isBuy);
    FlipShift(GreedyCost(levels, size), size, added, best, atBest, isBuy);
  }

  lemma {:induction false} NothingIsTowardsTheBest(levels: seq<Level>, size: real, zeros: seq<real>, isBuy: bool)
    requires ValidLevels(levels) && BestFirst(levels, isBuy) && levels != []
    requires 0.0 <= size <= TotalVolume(levels)
    requires |zeros| == |levels| && forall i :: 0 <= i < |zeros| ==> zeros[i] == 0.0
    ensures AllTowards(levels, zeros, GreedyFills(levels, size), levels[0].price, isBuy)
    ensures Sum(GreedyFills(levels, size)) == size
  {
    var last := GreedyFillsShape(levels, size);
  }

  lemma {:induction false} FlipShift(cost: real, size: real, added: real, best: real, atBest: real, isBuy: bool)
    requires added == -size && AtLeastAsGood(0.0 - cost, added * best, isBuy) && atBest == size * best
    ensures AtLeastAsGood(atBest, cost, isBuy)
  {
    NegatedProduct(size, best);
  }

  /** An execution never beats the best price, so its slippage is never negative. */
  lemma {:induction false} SlippageIsNeverNegative(levels: seq<Level>, size: real, effectivePrice: real, slippage: real, isBuy: bool)
    requires ValidLevels(levels) && BestFirst(levels, isBuy) && levels != []
    requires 0.0 < size <= TotalVolume(levels) && effectivePrice * size == GreedyCost(levels, size)
    requires var best := levels[0].price;
             slippage * best == (if isBuy then effectivePrice - best else best - effectivePrice) * 100.0
    ensures AtLeastAsGood(levels[0].price, effectivePrice, isBuy) && slippage >= 0.0
  {
    var best := levels[0].price;
    NeverBetterThanBest(levels, size, size * best, isBuy);
    CompareAverages(best * size, effectivePrice * size, 1.0, size, size, best, effectivePrice, isBuy);
    if slippage < 0.0 {
      RealProductPositive(-slippage, best);
      NegatedProduct(slippage, best);
    }
  }

  lemma {:induction false} WorthAtBoth(p: real, q: real, size: real) returns (atP: real, atQ: real)
    requires p <= q && size >= 0.0
    ensures atP == size * p && atQ == size * q && atP <= atQ
  {
    atP, atQ := size * p, size * q;
    ScaleOrder(p, q, size, true);
  }

  /** On a book that is not crossed, selling what was just bought never brings more than it cost. */
  lemma {:induction false} RoundTripNeverGains(book: Orderbook, size: real)
    requires book.Valid() && book.asks != [] && book.bids != []
    requires book.bids[0].price <= book.asks[0].price
    requires 0.0 <= size <= TotalVolume(book.asks) && size <= TotalVolume(book.bids)
    ensures GreedyCost(book.bids, size) <= GreedyCost(book.asks, size)
  {
    var atBid, atAsk := WorthAtBoth(book.bids[0].price, book.asks[0].price, size);
    NeverBetterThanBest(book.asks, size, atAsk, true);
    NeverBetterThanBest(book.bids, size, atBid, false);
  }

  /** Whatever fits in the depth of a price range executes, at an average price inside the range. */
  lemma {:induction false} DepthBoundsTheAveragePrice(levels: seq<Level>, limit: real, size: real, isBuy: bool)
    requires ValidLevels(levels) && BestFirst(levels, isBuy)
    requires 0.0 <= size <= VolumeWithin(levels, limit, isBuy)
    ensures size <= TotalVolume(levels)
    ensures AtLeastAsGood(GreedyCost(levels, size), size * limit, isBuy)
  {
    WithinIsPartOfTotal(levels, limit, isBuy);
    var zeros := ZeroAllocation(levels);
    FillsAreTowardsTheLimit(levels, limit, size, zeros, isBuy);
    var worth := ChangingIsWorthIt(levels, GreedyFills(levels, size), zeros, limit, size, GreedyCost(levels, size), 0.0, isBuy);
  }

  lemma {:induction false} FillsAreTowardsTheLimit(levels: seq<Level>, limit: real, size: real, zeros: seq<real>, isBuy: bool)
    requires ValidLevels(levels) && BestFirst(levels, isBuy)
    requires 0.0 <= size <= VolumeWithin(levels, limit, isBuy) <= TotalVolume(levels)
    requires |zeros| == |levels| && forall i :: 0 <= i < |zeros| ==> zeros[i] == 0.0
    ensures AllTowards(levels, GreedyFills(levels, size), zeros, limit, isBuy)
    ensures Sum(GreedyFills(levels, size)) == size
  {
    var last := GreedyFillsShape(levels, size);
    FillsStayWithin(levels, limit, size, isBuy);
  }

  lemma {:induction false} FillsStayWithin(levels: seq<Level>, limit: real, size: real, isBuy: bool)
    requires ValidLevels(levels) && BestFirst(levels, isBuy)
    requires 0.0 <= size <= VolumeWithin(levels, limit, isBuy)
    ensures var fills := GreedyFills(levels, size);
            |fills| == |levels|
            && forall i :: 0 <= i < |levels| && fills[i] != 0.0 ==> AtLeastAsGood(levels[i].price, limit, isBuy)
  {
    if levels == [] {
    } else {
      if AtLeastAsGood(levels[0].price, limit, isBuy) {
        var fill := if size <= 0.0 then 0.0 else Min(size, levels[0].volume);
        WithinIsPartOfTotal(levels[1..], limit, isBuy);
        FillsStayWithin(levels[1..], limit, size - fill, isBuy);
        assert GreedyFills(levels, size) == [fill] + GreedyFills(levels[1..], size - fill);
      } else {
        NothingWithin(levels, limit, isBuy);
        NothingFillsNothing(levels);
      }
    }
  }

  lemma {:induction false} WithinIsPartOfTotal(levels: seq<Level>, limit: real, isBuy: bool)
    requires ValidLevels(levels)
    ensures 0.0 <= VolumeWithin(levels, limit, isBuy) <= TotalVolume(levels)
  {
    if levels == [] {
    } else {
      WithinIsPartOfTotal(levels[1..], limit, isBuy);
    }
  }
}
