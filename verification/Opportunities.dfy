/** internal/arbitrage/pipeline.go: what the two stages compute for one trade size. */
module Opportunities {
  import opened Wrappers

  /** A provider's answer: the amount out when it is known, and the gas cost in wei when there is one. */
  datatype Price = Price(amountOut: Option<real>, gasCost: Option<int>)

  /** A trade size with the four answers its fetch gets; None is a nil price. */
  datatype Item = Item(tradeSize: int, cexBuy: Option<Price>, cexSell: Option<Price>, dexBuy: Option<Price>, dexSell: Option<Price>)

  datatype Direction = CEXToDEX | DEXToCEX

  datatype Opportunity = Opportunity(tradeSize: int, direction: Direction, grossProfit: real, netProfit: real)

  function GasCostUSD(gasCost: Option<int>, ethPrice: real): real {
    match gasCost
    case None => 0.0
    case Some(wei) => wei as real / 1000000000000000000.0 * ethPrice
  }

  /** One direction: None when an amount out is missing or a negative gas cost makes net exceed gross. */
  function Analyze(tradeSize: int, direction: Direction, cexPrice: Price, dexPrice: Price, ethPrice: real): Option<Opportunity> {
    if cexPrice.amountOut.None? || dexPrice.amountOut.None? then None
    else
      var cex, dex := cexPrice.amountOut.value, dexPrice.amountOut.value;
      var gross := if direction == CEXToDEX then dex - cex else cex - dex;
      var net := gross - GasCostUSD(dexPrice.gasCost, ethPrice);
      if net > gross then None else Some(Opportunity(tradeSize, direction, gross, net))
  }

  function OptionToSeq<T>(o: Option<T>): seq<T> {
    match o
    case None => []
    case Some(v) => [v]
  }

  /** What the analysis stage sends for one fetched size, in order. */
  function Emissions(item: Item, ethPrice: real): (opps: seq<Opportunity>)
    ensures |opps| <= 2
    ensures item.dexBuy.None? || item.dexSell.None? ==> opps == []
    ensures forall o :: o in opps ==> o.tradeSize == item.tradeSize && o.netProfit <= o.grossProfit
  {
    if item.dexBuy.None? || item.dexSell.None? then []
    else
      (if item.cexBuy.None? then []
       else OptionToSeq(Analyze(item.tradeSize, CEXToDEX, item.cexBuy.value, item.dexSell.value, ethPrice)))
      + (if item.cexSell.None? then []
         else OptionToSeq(Analyze(item.tradeSize, DEXToCEX, item.cexSell.value, item.dexBuy.value, ethPrice)))
  }

  ghost predicate HasAmounts(p: Option<Price>) {
    p.Some? ==> p.value.amountOut.Some? && (p.value.gasCost.Some? ==> p.value.gasCost.value >= 0)
  }

  lemma {:induction false} GasIsNonNegative(gasCost: Option<int>, ethPrice: real)
    requires ethPrice >= 0.0 && (gasCost.Some? ==> gasCost.value >= 0)
    ensures GasCostUSD(gasCost, ethPrice) >= 0.0
  {
    if gasCost.Some? {
      var ether := gasCost.value as real / 1000000000000000000.0;
      assert ether >= 0.0;
      assert ether * ethPrice >= 0.0;
    }
  }

  /** With complete prices, a size whose DEX answers are both present yields exactly one opportunity for each
      CEX answer that is present. */
  lemma {:induction false} OneOpportunityPerCexQuote(item: Item, ethPrice: real)
    requires ethPrice >= 0.0
    requires HasAmounts(item.cexBuy) && HasAmounts(item.cexSell) && HasAmounts(item.dexBuy) && HasAmounts(item.dexSell)
    requires item.dexBuy.Some? && item.dexSell.Some?
    ensures |Emissions(item, ethPrice)| == (if item.cexBuy.Some? then 1 else 0) + (if item.cexSell.Some? then 1 else 0)
    ensures item.cexBuy.Some? ==> Emissions(item, ethPrice)[0].direction == CEXToDEX
  {
    GasIsNonNegative(item.dexBuy.value.gasCost, ethPrice);
    GasIsNonNegative(item.dexSell.value.gasCost, ethPrice);
  }

  /** A cost and a revenue that are both known, and a gas cost that is not negative. */
  ghost predicate Tradable(cost: Option<Price>, revenue: Option<Price>, gasCost: Option<int>, ethPrice: real) {
    && cost.Some? && cost.value.amountOut.Some?
    && revenue.Some? && revenue.value.amountOut.Some?
    && (gasCost.Some? ==> gasCost.value as real * ethPrice >= 0.0)
  }

  /** The profit is the revenue less the cost, and net of gas that of so many wei at 10^18 to one ether. */
  ghost predicate IsProfit(o: Opportunity, cost: Price, revenue: Price, gasCost: Option<int>, ethPrice: real)
    requires cost.amountOut.Some? && revenue.amountOut.Some?
  {
    && o.grossProfit == revenue.amountOut.value - cost.amountOut.value
    && o.netProfit == o.grossProfit - (if gasCost.Some? then gasCost.value as real * ethPrice / 1000000000000000000.0 else 0.0)
  }

  /** What a fetched size earns in some direction: bought at one place and sold at the other, with the gas cost of the DEX
      quote that was used. */
  ghost predicate Earns(item: Item, o: Opportunity, ethPrice: real) {
    && o.tradeSize == item.tradeSize
    && item.dexBuy.Some? && item.dexSell.Some?
    && if o.direction == CEXToDEX then
         var gasCost := item.dexSell.value.gasCost;
         Tradable(item.cexBuy, item.dexSell, gasCost, ethPrice) && IsProfit(o, item.cexBuy.value, item.dexSell.value, gasCost, ethPrice)
       else
         var gasCost := item.dexBuy.value.gasCost;
         Tradable(item.dexBuy, item.cexSell, gasCost, ethPrice) && IsProfit(o, item.dexBuy.value, item.cexSell.value, gasCost, ethPrice)
  }

  lemma {:induction false} GasCostInEther(wei: int, ethPrice: real, cost: real)
    requires cost == wei as real / 1000000000000000000.0 * ethPrice
    ensures cost == wei as real * ethPrice / 1000000000000000000.0
    ensures cost >= 0.0 <==> wei as real * ethPrice >= 0.0
  {
  }

  lemma {:induction false} AnalyzeEarns(tradeSize: int, direction: Direction, cexPrice: Price, dexPrice: Price, ethPrice: real)
    ensures var (cost, revenue) := if direction == CEXToDEX then (cexPrice, dexPrice) else (dexPrice, cexPrice);
            var r := Analyze(tradeSize, direction, cexPrice, dexPrice, ethPrice);
            && (r.Some? <==> Tradable(Some(cost), Some(revenue), dexPrice.gasCost, ethPrice))
            && (r.Some? ==> r.value.tradeSize == tradeSize && r.value.direction == direction
                            && IsProfit(r.value, cost, revenue, dexPrice.gasCost, ethPrice))
  {
    if dexPrice.gasCost.Some? {
      GasCostInEther(dexPrice.gasCost.value, ethPrice, GasCostUSD(dexPrice.gasCost, ethPrice));
    }
  }

  /** Selling on the DEX what was bought on the CEX earns the former amount less the latter, and the other way around; net
      profit is less the gas cost of that DEX quote. A direction is there, once, exactly when both DEX quotes and both of its
      amounts are there and that cost is not negative. */
  lemma {:induction false} WhatASizeEarns(item: Item, ethPrice: real)
    ensures var opps := Emissions(item, ethPrice);
            && (forall o :: o in opps <==> Earns(item, o, ethPrice))
            && (|opps| == 2 ==> opps[0].direction == CEXToDEX && opps[1].direction == DEXToCEX)
    ensures item.dexBuy.Some? && item.dexSell.Some? ==>
              |Emissions(item, ethPrice)|
                == (if Tradable(item.cexBuy, item.dexSell, item.dexSell.value.gasCost, ethPrice) then 1 else 0)
                 + (if Tradable(item.dexBuy, item.cexSell, item.dexBuy.value.gasCost, ethPrice) then 1 else 0)
  {
    if item.dexBuy.Some? && item.dexSell.Some? {
      if item.cexBuy.Some? {
        AnalyzeEarns(item.tradeSize, CEXToDEX, item.cexBuy.value, item.dexSell.value, ethPrice);
      }
      if item.cexSell.Some? {
        AnalyzeEarns(item.tradeSize, DEXToCEX, item.cexSell.value, item.dexBuy.value, ethPrice);
      }
    }
  }

  /** What the analysis stage sends for each fetched size: at a price of ether, or whatever else it may be. */
  type Analysis = Item -> seq<Opportunity>

  function AnalysisAt(ethPrice: real): (emit: Analysis)
    ensures forall item :: emit(item) == Emissions(item, ethPrice) && |emit(item)| <= 2
  {
    item => Emissions(item, ethPrice)
  }

  /** The opportunities of a batch, sizes analysed once each, one after the other. */
  function Sequential(items: seq<Item>, emit: Analysis): seq<Opportunity> {
    if items == [] then [] else emit(items[0]) + Sequential(items[1..], emit)
  }

  /** How often sizes yield an opportunity, with the order forgotten. */
  ghost function Yield(items: seq<Item>, emit: Analysis, o: Opportunity): nat {
    if items == [] then 0 else multiset(emit(items[0]))[o] + Yield(items[1..], emit, o)
  }

  /** How many opportunities they yield. */
  function TotalYield(items: seq<Item>, emit: Analysis): nat {
    if items == [] then 0 else |emit(items[0])| + TotalYield(items[1..], emit)
  }

  lemma {:induction false} YieldIsSequential(items: seq<Item>, emit: Analysis, o: Opportunity)
    ensures multiset(Sequential(items, emit))[o] == Yield(items, emit, o)
  {
    if items == [] {
    } else {
      YieldIsSequential(items[1..], emit, o);
    }
  }

  /** A batch yields exactly what its sizes earn. */
  lemma {:induction false} WhatABatchEarns(items: seq<Item>, ethPrice: real, o: Opportunity)
    ensures o in Sequential(items, AnalysisAt(ethPrice)) <==> exists item :: item in items && Earns(item, o, ethPrice)
  {
    if items == [] {
    } else {
      WhatASizeEarns(items[0], ethPrice);
      WhatABatchEarns(items[1..], ethPrice, o);
      assert forall item :: item in items <==> item == items[0] || item in items[1..];
    }
  }

  lemma {:induction false} YieldOfConcat(a: seq<Item>, b: seq<Item>, emit: Analysis, o: Opportunity)
    ensures Yield(a + b, emit, o) == Yield(a, emit, o) + Yield(b, emit, o)
  {
    if a == [] {
      assert a + b == b;
    } else {
      assert (a + b)[0] == a[0] && (a + b)[1..] == a[1..] + b;
      YieldOfConcat(a[1..], b, emit, o);
    }
  }

  lemma {:induction false} TotalOfConcat(a: seq<Item>, b: seq<Item>, emit: Analysis)
    ensures TotalYield(a + b, emit) == TotalYield(a, emit) + TotalYield(b, emit)
  {
    if a == [] {
      assert a + b == b;
    } else {
      assert (a + b)[0] == a[0] && (a + b)[1..] == a[1..] + b;
      TotalOfConcat(a[1..], b, emit);
    }
  }

  lemma {:induction false} YieldOfOne(item: Item, emit: Analysis, o: Opportunity)
    ensures Yield([item], emit, o) == multiset(emit(item))[o]
  {
    assert [item][1..] == [];
  }

  lemma {:induction false} YieldOfAppend(items: seq<Item>, item: Item, emit: Analysis, o: Opportunity)
    ensures Yield(items + [item], emit, o) == Yield(items, emit, o) + multiset(emit(item))[o]
  {
    YieldOfConcat(items, [item], emit, o);
    YieldOfOne(item, emit, o);
  }
}
