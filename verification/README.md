# A model of the arbitrage bot's core, with proofs

The bot watches new blocks, asks a centralised and a decentralised exchange for prices of several trade sizes and reports
where they differ. This project models the parts of it whose behaviour is hard to see from one function, in Dafny, and
proves what they guarantee, where they fall short of what their comments say, and the exact condition in each such case.
`dafny verify dfyconfig.toml` checks everything.

Three kinds of code are covered.

**Concurrent stages.** `PipelineStages.dfy` and `Pool.dfy` give one call of `Pipeline.Process` and of `Pool.SubmitAndWait`
as step relations over goroutines and bounded channels; their theorems hold in every interleaving. `Pipeline.dfy` says how
many sizes a call can take. `Subscriber.dfy` is the block stream over reconnects, gaps and mode switches.
`CircuitBreaker.dfy` takes its events in any order, so that calls overlap freely.

**Fixed-point swap arithmetic.** `SqrtPriceMath.dfy`, `RangeSplitting.dfy`, `SwapMath.dfy` and `TickBitmap.dfy` follow the
integer code term by term; `big.Int`'s `Div` and `Mod` are Dafny's `/` and `%`, and the 8, 16 and 32-bit conversions of the
bitmap search are written out. The theory is that of sections 6.2.3 and 6.2.4 of the Uniswap v3 Core whitepaper.

**Stores, limiters and the order book.** `RecencyList.dfy` says what an LRU cache with deadlines should do, on plain
sequences; `MemoryCache.dfy` is the class with its map, its list and the items they share, proved equal to it.
`OverlappingGets.dfy` takes its `Get` apart into its separate sections and says what any overlap of them with other calls
does, and `CacheInterleaving.dfy` runs those sections on the shared heap, step for step as that says. `LayeredCache.dfy`
puts a short-lived layer before a persistent one and lets either fail at any point, and `OverlappingLayers.dfy` lets other
calls in between any two accesses to them. `RateLimiter.dfy` and `AdaptiveLimiter.dfy` are over exact reals with an explicit
clock, and `Orderbook.dfy` is over exact reals too.

A function that says what a piece of code does is never its own witness: lemmas over the inputs' own fields fix each of its
results, in every branch, and methods are proved equal to it.

Where the code and its comments differ, the model follows the code:

* swap_math.go:80 announces a fee of ceil(amountIn * feePips / (10^6 - feePips)) for exact input, but line 81 keeps the whole
  remainder. `FeeAccounting` says when the two agree, and `AFeeAboveTheDocumentedOne` is a step in which they do not.
* sqrt_price_math.go:59 gives the formula of the whitepaper, but line 60 divides before it adds, so the price rises where it
  should fall. `AddToken0RisesExactlyWhen`, `AddToken0MeetsPurposeExactlyWhen` and `PriceStaysInRangeExactlyWhen` give the
  exact conditions, `AddingToken0CanRaiseThePrice` and `AMissThatRaisesThePrice` the inputs.
* tick_bitmap.go:28 adds 1 to a `uint8`, so that a search to the left from the last position of a word sees nothing; since
  every miss to the left returns such a position, a walk to the left never leaves its first word. A walk to the right skips
  the first position of every word after the first, because a miss returns that position and the next search starts after it:
  it finds the nearest initialised position exactly when that is not such a first position (`RightWalkFindsNearestExactlyWhen`).
* memory.go:46-72: a `Get` that saw its key expired removes whatever the key holds by the time it has the lock, also a value
  that was Set in between: `FinishRemovesALiveEntryExactlyWhen`. A value that is Set with a negative ttl between a `Get`'s look
  at the deadline and its answer is returned although it is past its deadline: `ValuesAreRightExactlyWhen`.
* layered.go:140: an error is reported only if both layers report one, so with a single layer configured `Set` never fails
  (`ASingleLayerLosesSilently`); `SuccessIsLostExactlyWhen` says when a Set that reports success is lost, and
  `NextGetMissesTheSetExactlyWhen` when a later Get does not see it.
* circuit_breaker.go: the successes are not set to zero on the way to half-open, so late successes of calls admitted earlier,
  and successes before `ForceOpen`, count as trials (`LateSuccessesShortenTheTrial`, `ForceOpenSkipsTheTrial`).
* subscriber.go:405 says that the switch back to WebSocket is tried periodically; it is tried only after a polling error
  (`StaysOnHTTPWhilePollingWorks`).
* subscriber.go:220-226 marks a stale connection as disconnected to make it reconnect, but the loop never looks at that mark:
  a session lasts exactly until a subscription error or its own timer (`SessionLastsExactlyUntil`), whatever the health checks
  find (`HealthChecksChangeOnlyTheMark`). A new session does not renew the time that they look at (`AStaleSessionDelivers`).

## Model

| member | source | states |
|---|---|---|
| Opportunities.Emissions | internal/arbitrage/pipeline.go:322-395 | a fetched size gives at most two opportunities, none if a DEX quote is nil, each for that size and with net profit at most gross profit |
| Opportunities.OneOpportunityPerCexQuote | internal/arbitrage/pipeline.go:332-388 | with complete prices and both DEX quotes there is exactly one opportunity for each CEX quote, the CEX-to-DEX one first |
| Opportunities.AnalyzeEarns | internal/arbitrage/calculator.go:52-86 | in each direction gross profit is what the place sold at pays less what the place bought at costs, net profit is less wei * price of ether / 10^18 of the DEX quote, and there is none exactly when an amount is missing or that cost is negative |
| Opportunities.WhatASizeEarns | internal/arbitrage/pipeline.go:322-456 | a size bought on the CEX is sold at its DEX sell quote and the other way around, each direction once, and exactly if both DEX quotes and both of its amounts are there and the gas cost of its DEX quote is not negative |
| Opportunities.WhatABatchEarns | internal/arbitrage/pipeline.go:322-456 | analysing a batch gives exactly the opportunities that some size of it earns |
| Opportunities.YieldIsSequential | internal/arbitrage/pipeline.go:322-395 | analysing sizes one after the other gives, with the order forgotten, the sum of what each gives |
| PipelineStages.NewPipeline | internal/arbitrage/pipeline.go:75-97 | a concurrency or buffer size that is not positive stands for 4 or 16, and any other is kept |
| PipelineStages.StepKeepsInv | internal/arbitrage/pipeline.go:132-190 | every step of every goroutine keeps the channel bounds, the close order and the account of every opportunity, which loses nothing unless the context was cancelled |
| PipelineStages.StepDecreasesMeasure | internal/arbitrage/pipeline.go:132-190 | a weight of sizes, results and open channels falls with every step |
| PipelineStages.EveryRunIsFinite | internal/arbitrage/pipeline.go:106-191 | no interleaving has more than ten steps for each size, one for each worker and six more |
| PipelineStages.NeverPanics | internal/arbitrage/pipeline.go:139-181 | in no reachable state, cancelled or not, is a goroutine about to send on a closed channel or to close one twice |
| PipelineStages.ReturnsTheSequentialResult | internal/arbitrage/pipeline.go:106-191 | a finished uncancelled call returns, as a multiset, exactly what analysing each size once in order gives, and all its goroutines have returned |
| PipelineStages.CancelledCallReturnsAPart | internal/arbitrage/pipeline.go:163-190 | a call that was cancelled returns only opportunities of the sequential result, none more often than there |
| PipelineStages.RunReturnsOrderly | internal/arbitrage/pipeline.go:163-190 | a call that gives up feeding, for which it must be cancelled with a size still to feed, returns nothing, and any other returns all it collected until the closed output was empty |
| Pipeline.StuckMeansFull | internal/arbitrage/pipeline.go:163-188 | the only way to be stuck: the caller is still feeding and both stage channels, the output, every worker and the analyser are full |
| Pipeline.StuckHasOverfilled | internal/arbitrage/pipeline.go:132-188 | a stuck call has analysed no more sizes than there are beyond the two stage channels, the workers and the one at the feed, and these yield more than the output channel holds |
| Pipeline.SafeBatchIsRoomy | internal/arbitrage/pipeline.go:132-188 | with at most 3 * bufferSize + concurrency + 1 sizes, or no more opportunities than the output channel holds, no choice of so many sizes yields more |
| Pipeline.NeverStuck | internal/arbitrage/pipeline.go:132-188 | if no choice of so many sizes of the batch yields more than the output channel holds, or the call is cancelled, every interleaving moves until all goroutines have returned |
| Pipeline.CancellingEndsTheCall | internal/arbitrage/pipeline.go:132-190 | a call can be cancelled at any time, also where it is stuck, and then every interleaving ends with all goroutines done, whatever the batch |
| Pipeline.CongestedKeepsFeeding | internal/arbitrage/pipeline.go:163-181 | if every choice of at least so many sizes yields more, no step ends the feeding |
| Pipeline.CongestedNeverReturns | internal/arbitrage/pipeline.go:132-188 | and no uncancelled run of such a call returns |
| Pipeline.ProgressBoundIsExact | internal/arbitrage/pipeline.go:132-188 | when every size yields the same number of opportunities, a call that can move no further has finished exactly when the sizes beyond those that can be under way yield no more than the output channel holds: at the defaults up to 53 sizes for two each and 69 for one each |
| Pipeline.Process | internal/arbitrage/pipeline.go:106-191 | under an arbitrary scheduler it returns the sequential result, which is exactly what sizes of the batch earn, if no choice of so many sizes overfills the output channel, and blocks forever if every one does |
| Rounding.FloorGalois | internal/pricing/uniswapv3/sqrt_price_math.go:29 | rounding down is the right adjoint of multiplication |
| Rounding.CeilGalois | internal/pricing/uniswapv3/sqrt_price_math.go:135-146 | rounding up is the left adjoint of multiplication |
| SqrtPriceMath.ScaleIs2ToThe96 | internal/pricing/uniswapv3/sqrt_price_math.go:22-46 | the one value of the scale type is 2^96 |
| SqrtPriceMath.Amount0DownMeaning | internal/pricing/uniswapv3/sqrt_price_math.go:17-30 | the nested floors of the amount0 delta are one division by the product of the prices |
| SqrtPriceMath.Amount0UpMeaning | internal/pricing/uniswapv3/sqrt_price_math.go:17-30 | the nested ceilings are one division too |
| SqrtPriceMath.Amount1DownMeaning | internal/pricing/uniswapv3/sqrt_price_math.go:35-47 | an amount is within the rounded-down delta exactly when its exact value is |
| SqrtPriceMath.Amount1UpMeaning | internal/pricing/uniswapv3/sqrt_price_math.go:35-47 | an amount covers the rounded-up delta exactly when it covers the exact value |
| SqrtPriceMath.RemoveToken0IsAdjoint | internal/pricing/uniswapv3/sqrt_price_math.go:67-75 | removing token0 gives the least price at or above the start whose rounded-down delta covers the amount, and fails exactly when there is none |
| SqrtPriceMath.AddToken1IsAdjoint | internal/pricing/uniswapv3/sqrt_price_math.go:81-86 | adding token1 gives the greatest price whose rounded-up delta the amount pays for |
| SqrtPriceMath.RemoveToken1IsAdjoint | internal/pricing/uniswapv3/sqrt_price_math.go:88-97 | removing token1 gives the greatest price at or below the start whose rounded-down delta covers the amount, and 0 when the whole range does not |
| SqrtPriceMath.AddToken0RisesExactlyWhen | internal/pricing/uniswapv3/sqrt_price_math.go:58-65 | adding token0 as written raises the price exactly when floor(L * 2^96 / P) + amount is below L * 2^96 |
| SqrtPriceMath.AddToken0IsLeast | internal/pricing/uniswapv3/sqrt_price_math.go:58-65 | risen or not, the price ends at the least x with L * 2^96 * P at most x * (floor(L * 2^96 / P) + amount) |
| SqrtPriceMath.LargeDenominatorPaysForEverything | internal/pricing/uniswapv3/sqrt_price_math.go:58-65 | where it does not rise, the amount already pays for the move down to price 1 |
| SqrtPriceMath.AddToken0MeetsPurposeExactlyWhen | internal/pricing/uniswapv3/sqrt_price_math.go:51-65 | as written it gives the least price that the amount pays for exactly when nothing is added, the price is 1, or the amount reaches L * 2^96 * P less the quotient |
| SqrtPriceMath.AddingToken0CanRaiseThePrice | internal/pricing/uniswapv3/sqrt_price_math.go:58-65 | such an input: at price 20 and liquidity 100, adding 1 raises the price, although it would pay for a fall to 19 |
| RangeSplitting.DeltaRoundsExact | internal/pricing/uniswapv3/sqrt_price_math.go:17-47 | each delta is the exact real amount rounded down or up by less than one unit |
| RangeSplitting.ExactDeltaIsAdditive | internal/pricing/uniswapv3/sqrt_price_math.go:17-47 | the exact amounts of adjacent ranges add up |
| RangeSplitting.SplittingARange | internal/pricing/uniswapv3/sqrt_price_math.go:17-47 | over any chain of k intermediate prices, rounded-down deltas sum to at most the whole and rounded-up ones to at least the whole, each off by at most k |
| SwapMath.ComputeSwapStep | internal/pricing/uniswapv3/swap_math.go:18-134 | filled in branch by branch, the result is the specified step; the discarded errors are never raised and the fee clamp is never taken |
| SwapMath.ExactInputZeroForOne | internal/pricing/uniswapv3/swap_math.go:35-83 | it pays the greatest amount of token1 for the way the price moves, down or up, and either reaches the target and takes the least amount that covers the move, if the part after the fee does, or takes all of that part and ends where adding it as token0 leads |
| SwapMath.ExactInputOneForZero | internal/pricing/uniswapv3/swap_math.go:35-83 | it pays the greatest amount of token0 for the rise, and either reaches the target at the least amount that covers the move or ends at the greatest price that the part after the fee pays for |
| SwapMath.ExactOutputZeroForOne | internal/pricing/uniswapv3/swap_math.go:86-130 | it pays the smaller of the request and the greatest amount for the whole move, ends at the target if the request reaches that and else at the greatest price below which the request is covered, and takes the least amount of token0 for the move and the documented fee |
| SwapMath.ExactOutputOneForZero | internal/pricing/uniswapv3/swap_math.go:86-130 | the same upwards, with the least price up to which the request is covered |
| SwapMath.FallsToTheTargetExactlyWhen | internal/pricing/uniswapv3/swap_math.go:98-111 | a zero-for-one exact output ends at the target exactly when the request reaches the amount available or is not covered one unit of price short of the target |
| SwapMath.RisesToTheTargetExactlyWhen | internal/pricing/uniswapv3/swap_math.go:98-111 | the same of a one-for-zero exact output |
| SwapMath.ShortOfTheAmountAtTheTarget | internal/pricing/uniswapv3/swap_math.go:98-111 | the latter: a request of 3 where 4 are available that ends at the target |
| SwapMath.NextPriceStaysInRange | internal/pricing/uniswapv3/swap_math.go:32-111 | outside the one bad branch the discarded errors are not raised, also without liquidity, and the next price lies between current and target |
| SwapMath.MissThroughToken0RaisesThePrice | internal/pricing/uniswapv3/swap_math.go:52-61 | a zero-for-one exact input that misses its target raises no error but always raises the price |
| SwapMath.AMissThatRaisesThePrice | internal/pricing/uniswapv3/swap_math.go:52-61 | such a step: from price 20 towards 10 with liquidity 100 and 1 to sell, the price rises past a million |
| SwapMath.PriceStaysInRangeExactlyWhen | internal/pricing/uniswapv3/swap_math.go:32-111 | the price ends between current and target exactly when the step is not such a miss |
| SwapMath.StepNeverOverpays | internal/pricing/uniswapv3/swap_math.go:35-126 | in every other step the pool receives at least the rounded-up and pays at most the rounded-down delta of the actual move |
| SwapMath.FeeIsLeastGrossUp | internal/pricing/uniswapv3/swap_math.go:128-130 | input plus fee is the least amount whose part after the fee covers the input |
| SwapMath.FeeAccounting | internal/pricing/uniswapv3/swap_math.go:80-83 | exact input loses nothing, the fee is never below the documented one, equals it for exact output, and for exact input exactly when one unit less, after the fee, would be below both the input after the fee and the amount to the target |
| SwapMath.FeeExcessWhenMissing | internal/pricing/uniswapv3/swap_math.go:52-83 | an exact input that misses overpays the documented fee by less than the units that leave one after the fee: by nothing without a fee, by at most one for fees up to half |
| SwapMath.TheFeeExcessIsReached | internal/pricing/uniswapv3/swap_math.go:80-83 | that bound is reached at every fee, price and target |
| SwapMath.AFeeAboveTheDocumentedOne | internal/pricing/uniswapv3/swap_math.go:80-83 | a step without a fee rate that is charged 4000, where the documented fee is nothing |
| SwapMath.ExactOutputCostsNoMore | internal/pricing/uniswapv3/swap_math.go:35-130 | one-for-zero, pricing what an exact input delivered costs no more in price, input or fee than that input did, unless it snaps to the target |
| SwapMath.ExactOutputCostsNoMoreExactlyWhen | internal/pricing/uniswapv3/swap_math.go:35-130 | one-for-zero, pricing what an exact input delivered moves the price no further exactly when it costs no more in input and fee, and exactly when the input reached the target or the request stays short of it |
| SwapMath.SnappingToTheTargetCostsMore | internal/pricing/uniswapv3/swap_math.go:98-101 | such a request: 700 buys 4, and asking for 4 snaps to the target and costs 900 |
| SwapMath.SimulateSwapIsAMissingStep | internal/pricing/uniswapv3/swap_math.go:139-179 | a whole swap is the step towards any target that it does not reach |
| SwapMath.WhatASwapAmountsTo | internal/pricing/uniswapv3/swap_math.go:139-179 | a whole swap fails exactly without a price or liquidity; in both directions the amount out is the greatest for the way the price moves, and the price is where adding what is left after the fee leads |
| SwapMath.SimulateSwapDirections | internal/pricing/uniswapv3/swap_math.go:139-179 | a whole one-for-zero swap moves up to the greatest price that its input after the fee pays for; a whole zero-for-one swap raises the price exactly under the add-token0 condition |
| TickBitmap.Compress | internal/pricing/uniswapv3/tick_bitmap.go:17-20 | truncated division with its correction is floor division, also for negative ticks |
| TickBitmap.LeastSignificantBit | internal/pricing/uniswapv3/tick_bitmap.go:86-99 | the loop finds the lowest set bit of a word |
| TickBitmap.MaskAtOrBelow | internal/pricing/uniswapv3/tick_bitmap.go:28-36 | mask and highest bit are the downward scan, except that at position 255 the mask is empty |
| TickBitmap.NextInitializedTickWithinOneWord | internal/pricing/uniswapv3/tick_bitmap.go:11-70 | the search is a linear scan of the word, except to the left from its last position, and returns the scanned position's tick without wrap-around for all valid ticks |
| TickBitmap.LeftSearchIsScanExactlyWhen | internal/pricing/uniswapv3/tick_bitmap.go:22-43 | to the left the search is the scan exactly when it does not start at the last position or the word is empty |
| TickBitmap.ASearchThatIsBlind | internal/pricing/uniswapv3/tick_bitmap.go:27-43 | a search to the left from the last position, which is itself initialised, that finds nothing |
| TickBitmap.LeftSearchFindsNearest | internal/pricing/uniswapv3/tick_bitmap.go:22-43 | otherwise it finds the nearest initialised position at or below the start, or there is none down to the returned one |
| TickBitmap.RightSearchFindsNearest | internal/pricing/uniswapv3/tick_bitmap.go:44-68 | to the right it finds the nearest initialised position after the start, or there is none before the returned one |
| TickBitmap.LeftWalkNeverLeavesItsWord | internal/pricing/uniswapv3/tick_bitmap.go:39-43 | searching on from each miss to the left finds nothing beyond the first word, whatever the bitmaps hold |
| TickBitmap.TickWalkIsWalk | internal/pricing/uniswapv3/tick_bitmap.go:11-70 | searching on from each returned tick is the walk over positions, in both directions |
| TickBitmap.RightWalkFindsTheFirstVisible | internal/pricing/uniswapv3/tick_bitmap.go:44-68 | searching on to the right finds the first initialised position that is next to the start or not the first of its word, and when it finds nothing there was none on its way |
| TickBitmap.RightWalkFindsNearestExactlyWhen | internal/pricing/uniswapv3/tick_bitmap.go:44-68 | a walk long enough finds the nearest initialised position after the start exactly when it is next to the start or not the first of its word |
| TickBitmap.AWalkThatSkips | internal/pricing/uniswapv3/tick_bitmap.go:64-67 | a walk to the right that passes over an initialised first position |
| Orderbooks.Orderbook.CalculateExecution | internal/pricing/orderbook.go:33-105 | a buyer takes the asks and a seller the bids; it fails exactly for a size that is not positive, an empty side or too little volume, naming the volume filled, and otherwise fills exactly the size; on a valid book the cost is the least of any way of buying it from the asks and the proceeds the greatest of any way of selling it to the bids; average price and slippage are those of that cost |
| Orderbooks.WalkLevels | internal/pricing/orderbook.go:51-76 | the loop takes the greedy fills and leaves nothing exactly when the volume suffices |
| Orderbooks.Orderbook.GetDepth | internal/pricing/orderbook.go:162-206 | the volume of the asks up to the first one above the range over the best ask, or of the bids down to the first one below the range under the best bid, which on a sorted side is all volume within it |
| Orderbooks.LimitIsBeyondTheBest | internal/pricing/orderbook.go:178-183 | the range reaches that fraction of the price above the best ask and below the best bid |
| Orderbooks.Orderbook.GetTotalBidVolume | internal/pricing/orderbook.go:226-232 | sums the volumes of the bids |
| Orderbooks.Orderbook.GetTotalAskVolume | internal/pricing/orderbook.go:235-241 | sums the volumes of the asks |
| Orderbooks.GreedyFillsShape | internal/pricing/orderbook.go:56-76 | the fills are an allocation of the whole size: full levels, at most one in part, then none |
| Orderbooks.GreedyIsOptimal | internal/pricing/orderbook.go:33-105 | no other allocation of the size within the level volumes costs a buyer less or brings a seller more |
| Orderbooks.AveragePriceWorsensWithSize | internal/pricing/orderbook.go:84-85 | the average price never improves with size |
| Orderbooks.SlippageIsNeverNegative | internal/pricing/orderbook.go:87-97 | an execution never beats the best price, so slippage is never negative on either side |
| Orderbooks.RoundTripNeverGains | internal/pricing/orderbook.go:33-105 | on a book that is not crossed, selling what was bought never brings more than it cost |
| Orderbooks.DepthBoundsTheAveragePrice | internal/pricing/orderbook.go:162-206 | whatever fits in the depth of a range executes, at an average price inside the range |
| RecencyList.AfterIsWellFormed | internal/platform/cache/memory.go:46-140 | every operation keeps the keys distinct and the size within the bound |
| RecencyList.WhatHappensToAnEntry | internal/platform/cache/memory.go:46-131 | position by position: a Get returns a live entry and moves it to the front, or takes out one past its deadline, a Set puts its own in front instead and a Delete takes it out, and all others keep their order |
| RecencyList.WhatHappensToAMissingKey | internal/platform/cache/memory.go:46-140 | a Get and a Delete of a missing key do nothing, and a Set puts its entry in front, at the expense of the last one exactly if the list is full |
| RecencyList.EventKeepsInclusion | internal/platform/cache/memory.go:46-140 | one operation on a smaller and a larger cache keeps the smaller list a sub-list of the larger, which has at most n - m more |
| RecencyList.LargerCacheIncludesSmaller | internal/platform/cache/memory.go:46-140 | after any trace of operations every entry of a smaller cache is in a larger one with its value and deadline, and its hits are hits there |
| RecencyList.HitIsLatestSet | internal/platform/cache/memory.go:46-117 | over any run a hit is the value of the latest Set of its key, not deleted since and not past its deadline |
| RecencyList.RunIsOrdered | internal/platform/cache/memory.go:66-99 | the list is always ordered by when its keys were last Set or hit |
| RecencyList.EvictsLeastRecentlyTouched | internal/platform/cache/memory.go:98-105 | a new key in a full cache pushes out exactly the least recently touched entry |
| RecencyList.HitsUntilDeadlineIfFewOthers | internal/platform/cache/memory.go:46-140 | a value that was Set hits until its deadline if it is not overwritten or deleted and fewer than maxSize other keys are Set or asked for |
| RecencyList.WithoutTheExpiredIsFresh | internal/platform/cache/memory.go:162-176 | removing the expired keys one by one in any order leaves exactly the fresh entries |
| MemoryCaches.MemoryCache.constructor | internal/platform/cache/memory.go:27-43 | an empty cache, of size 1000 unless a positive size is asked for |
| MemoryCaches.MemoryCache.LookupIsMapped | internal/platform/cache/memory.go:18-21 | the map finds exactly what a search of the list finds |
| MemoryCaches.MemoryCache.MoveToFront | internal/platform/cache/memory.go:66-69 | moves a listed element to the front and leaves the list alone for one that was removed |
| MemoryCaches.MemoryCache.Remove | internal/platform/cache/memory.go:126-131 | takes the key out of map and list together |
| MemoryCaches.MemoryCache.EvictOldest | internal/platform/cache/memory.go:134-140 | takes out the last entry |
| MemoryCaches.MemoryCache.Get | internal/platform/cache/memory.go:46-72 | undivided, it answers as the recency list does and leaves the contents as that says |
| MemoryCaches.MemoryCache.Set | internal/platform/cache/memory.go:75-108 | updates in place or pushes and evicts, in both cases as the recency list does, and changes no item that leaves the list |
| MemoryCaches.MemoryCache.Delete | internal/platform/cache/memory.go:111-117 | the contents without the key |
| MemoryCaches.MemoryCache.ExpiredKeys | internal/platform/cache/memory.go:162-171 | collects exactly the keys past their deadlines, in whatever order the map gives them |
| MemoryCaches.MemoryCache.CleanupExpired | internal/platform/cache/memory.go:158-177 | leaves exactly the fresh entries |
| OverlappingGets.RunIsSound | internal/platform/cache/memory.go:46-177 | however calls overlap, the keys stay distinct, the size within the bound, and the listed elements of Gets in progress listed |
| OverlappingGets.StepLookup | internal/platform/cache/memory.go:46-177 | only a Set of a key gives it a new entry, every other section of any call leaves its entry or takes it away |
| OverlappingGets.WholeWritesAreOperations | internal/platform/cache/memory.go:75-177 | a Set, a Delete and a cleanup do to the list what they do when nothing overlaps |
| OverlappingGets.WholeGetIsAnOperation | internal/platform/cache/memory.go:46-72 | a Get whose sections nothing comes between answers once, as an undivided Get at its clock reading, and leaves the list as that does |
| OverlappingGets.EveryGetIsAnswered | internal/platform/cache/memory.go:46-72 | a Get that begins and takes its further steps is answered, for its own key, whatever runs in between |
| OverlappingGets.MissesAreRight | internal/platform/cache/memory.go:46-72 | at some instant of a Get that answers with a miss its key was missing, or expired at its clock reading |
| OverlappingGets.ValuesAreRightExactlyWhen | internal/platform/cache/memory.go:55-71 | a returned value is one that an undivided Get at the same clock reading would have returned at some instant exactly when it was not Set, already lapsed, after the look at the deadline; for any overlap in which values tell the Sets apart |
| OverlappingGets.ValuesAreRightUnlessLapsed | internal/platform/cache/memory.go:55-71 | one half of that holds for all values |
| OverlappingGets.AnswersAreRight | internal/platform/cache/memory.go:46-72 | with a clock that does not run backwards and no negative ttl every answer of every Get is the one an undivided Get would have given at some instant between its start and end |
| OverlappingGets.GetReturnsALapsedValue | internal/platform/cache/memory.go:55-71 | a run with a negative ttl in which the answer is right at no instant |
| OverlappingGets.ListedStands | internal/platform/cache/memory.go:46-177 | whatever a key holds was stored by the latest Set of it and has been there since |
| OverlappingGets.FinishRemovesALiveEntryExactlyWhen | internal/platform/cache/memory.go:57-64 | the remove of a Get that saw its key expired takes away an entry still good at its clock reading exactly when such an entry was Set since the Get began and still stands |
| OverlappingGets.GetRemovesAValueSetMeanwhile | internal/platform/cache/memory.go:57-63 | a run in which a Set value would hit until its deadline and the remove of a Get takes it away |
| OverlappingGets.HitsUntilDeadlineUnlessRemovedByAGet | internal/platform/cache/memory.go:46-177 | under any overlap a Set value hits until its deadline if it is not overwritten or deleted, fewer than maxSize other keys come to the front, and no Get of its key removes it after having seen it expired |
| CacheInterleaving.Interleaving.Begin | internal/platform/cache/memory.go:47-53 | the lookup is the specified one: a miss is answered at once, and otherwise the Get is in progress with the element it found |
| CacheInterleaving.Interleaving.Check | internal/platform/cache/memory.go:55-59 | the look at the deadline of the element that was found, listed or not, is the specified one |
| CacheInterleaving.Interleaving.FinishExpired | internal/platform/cache/memory.go:58-64 | removes whatever the key holds by then, answers with a miss, and lets all other Gets keep their elements |
| CacheInterleaving.Interleaving.FinishLive | internal/platform/cache/memory.go:66-69 | moves the element to the front, or nothing if it was removed meanwhile, and the Get goes on |
| CacheInterleaving.Interleaving.Return | internal/platform/cache/memory.go:71 | answers with the value that the element holds by now, listed or not |
| CacheInterleaving.Interleaving.Write | internal/platform/cache/memory.go:75-108 | a Set between sections of Gets, which see its value if they hold its element, and keep theirs if it is evicted |
| CacheInterleaving.Interleaving.Erase | internal/platform/cache/memory.go:111-117 | a Delete between sections of Gets |
| CacheInterleaving.Interleaving.Sweep | internal/platform/cache/memory.go:158-177 | a cleanup between sections of Gets |
| CacheInterleaving.Interleave | internal/platform/cache/memory.go:46-177 | under every interleaving of Get's sections with Set, Delete and cleanup the map and list stay in bijection within the bound, and the contents and the answers of all Gets are exactly the specified ones |
| LayeredCaches.LayeredCache.constructor | internal/platform/cache/layered.go:50-61 | a maximum ttl of zero stands for one minute |
| LayeredCaches.LayeredCache.Get | internal/platform/cache/layered.go:69-112 | first-layer hit, else second-layer hit with backfill, else the second layer's error, else not found; for every pattern of failures of the three accesses |
| LayeredCaches.GetReplyExactlyWhen | internal/platform/cache/layered.go:69-112 | over entries, deadlines and faults: which value is returned, that it is not found exactly when no readable first layer has a live entry and the second is absent or was read without fault and has none, and that the error of the second is returned exactly when its read failed instead |
| LayeredCaches.LayeredCache.Set | internal/platform/cache/layered.go:115-146 | writes both layers, the first with the capped ttl, and reports the second layer's error only if both failed |
| LayeredCaches.LayeredCache.Delete | internal/platform/cache/layered.go:149-169 | deletes from both layers and reports the first error |
| LayeredCaches.LayeredCache.InvalidateL1 | internal/platform/cache/layered.go:195-200 | deletes from the first layer only |
| LayeredCaches.StepKeepsBacking | internal/platform/cache/layered.go:69-146 | every call keeps a key's second-layer entry within the ttl of some Set and its first-layer entry within that plus the maximum |
| LayeredCaches.NothingOlderIsReturned | internal/platform/cache/layered.go:69-146 | over whole runs with arbitrary failures and losses, a value returned at t was Set for that key at some s with t at most s + ttl + maximum, if the Sets of the key that reach the second layer have positive ttls |
| LayeredCaches.TheBoundIsReached | internal/platform/cache/layered.go:91-96 | the bound is attained without any failure |
| LayeredCaches.WithoutPositiveTTLNothingExpires | internal/platform/cache/redis.go:135-167 | a ttl that is not positive is kept by the second layer for ever |
| LayeredCaches.AgeIsBoundedExactlyWhen | internal/platform/cache/layered.go:69-146 | every Get at every point of a run meets that bound exactly when no Set of the key reaches the second layer with a ttl that is not positive |
| LayeredCaches.HitIsLatest | internal/platform/cache/layered.go:69-169 | if every Set and Delete reaches both layers, a hit is the latest value since the last Delete, whatever is evicted or cannot be read |
| LayeredCaches.OldValuesAreGoneAfterTheMaximum | internal/platform/cache/layered.go:63-169 | once a Set or Delete has reached the second layer, no other value is returned for the key later than the maximum after it, whatever fails |
| LayeredCaches.NextGetMissesTheSetExactlyWhen | internal/platform/cache/layered.go:115-146 | for every ttl, time and pattern of failures, with both layers, one or none: the next Get answers with something else than what was Set exactly when a first layer does, or has no answer and the second misses |
| LayeredCaches.SuccessIsLostExactlyWhen | internal/platform/cache/layered.go:115-146 | which failures make a Set of a new value report success although a Get at once does not find it, in both directions and for any configured layers |
| LayeredCaches.ASingleLayerLosesSilently | internal/platform/cache/layered.go:128-145 | with the second layer alone, a Set that fails reports success and nothing is stored |
| LayeredCaches.AnOldValueCanComeBack | internal/platform/cache/layered.go:140-146 | a Set that reached only the first layer reports success, is read back, and later the value before it returns |
| OverlappingLayers.WholeCallsAreAccesses | internal/platform/cache/layered.go:69-200 | a call whose accesses to the layers are not interrupted does what it does as a whole |
| OverlappingLayers.NothingOlderThanTheDelay | internal/platform/cache/layered.go:69-146 | however the accesses of calls overlap, fail and are lost, a value that can be read was written for its key no longer ago than its ttl, the maximum and the longest delay between a fetch and its backfill together |
| OverlappingLayers.OldValuesAreGoneAfterTheDelay | internal/platform/cache/layered.go:63-169 | once a write or delete has reached the second layer, no other value of its key can be read later than the maximum and that delay after it |
| OverlappingLayers.ABackfillOutlivesASet | internal/platform/cache/layered.go:89-103 | without any failure a Get that fetched before a Set backfills after it, and the old value is read until both bounds |
| RateLimiters.RateLimiter.constructor | internal/platform/resilience/rate_limiter.go:27-41 | defaults, among them a burst that is the rate rounded down, and a full bucket |
| RateLimiters.RateLimiter.Refill | internal/platform/resilience/rate_limiter.go:88-102 | adds the elapsed time at the current rate, up to the burst |
| RateLimiters.RateLimiter.Allow | internal/platform/resilience/rate_limiter.go:50-64 | admits exactly when a whole token is there after the refill, and takes it |
| RateLimiters.RateLimiter.AllowN | internal/platform/resilience/rate_limiter.go:129-147 | the same for n tokens; asking for none does not refill |
| RateLimiters.RateLimiter.SetRate | internal/platform/resilience/rate_limiter.go:150-155 | changes nothing but the rate |
| RateLimiters.RateLimiter.SetBurst | internal/platform/resilience/rate_limiter.go:158-168 | changes the burst and caps the tokens |
| RateLimiters.RateLimiter.Reset | internal/platform/resilience/rate_limiter.go:180-186 | fills the bucket |
| RateLimiters.RateLimiter.Wait | internal/platform/resilience/rate_limiter.go:67-126 | the polling loop gets its token no earlier than the bucket has one and at most 10 ms later, or gives up when the context ends, and from a bucket that cannot fill to a whole token it never gets one |
| RateLimiters.RequestsAtOnce | internal/platform/resilience/rate_limiter.go:129-147 | of k requests for n tokens each at one instant, exactly as many are admitted as there are tokens for |
| RateLimiters.WholePartIsAdmitted | internal/platform/resilience/rate_limiter.go:50-64 | of n requests at one instant exactly the smaller of n and the whole part of the tokens is admitted, none from a bucket in debt, and from a full limiter its burst |
| RateLimiters.TokensAreConserved | internal/platform/resilience/rate_limiter.go:50-155 | over any run of requests and changes of the rate, tokens left, granted and spilled over the burst are those at the start and what the time from refill to refill was worth |
| RateLimiters.EveryTokenIsGrantedOrLeft | internal/platform/resilience/rate_limiter.go:50-147 | at one rate and below the burst, tokens at the end and tokens granted are those at the start and rate times elapsed time |
| RateLimiters.RefillTowardsFull | internal/platform/resilience/rate_limiter.go:88-102 | refilling in pieces does not move the instant at which there is a whole token |
| RateLimiters.WindowBound | internal/platform/resilience/rate_limiter.go:50-186 | in any window at most the burst, once more for every Reset, and the refill at the highest rate is admitted, although a new rate also applies to time already passed |
| RateLimiters.CanEverAdmitExactlyWhen | internal/platform/resilience/rate_limiter.go:31-33 | n tokens can ever be had exactly when n is within the burst, so a rate below 1 with the default burst admits nothing |
| AdaptiveLimiters.Completed | internal/platform/resilience/adaptive_limiter.go:70-103 | whatever is configured, the completed configuration has ordered positive rates and usable factors, and a valid one is kept |
| AdaptiveLimiters.CompletedFieldByField | internal/platform/resilience/adaptive_limiter.go:70-103 | a field that can be used is kept, the outer rates up to the base rate, and any other gets its default |
| AdaptiveLimiters.AdaptiveLimiter.constructor | internal/platform/resilience/adaptive_limiter.go:105-116 | starts at the base rate, in the inner limiter too |
| AdaptiveLimiters.AdaptiveLimiter.RecordSuccess | internal/platform/resilience/adaptive_limiter.go:141-152 | counts, and at the end of the window tries to recover |
| AdaptiveLimiters.AdaptiveLimiter.RecordRateLimitError | internal/platform/resilience/adaptive_limiter.go:156-162 | counts the failure and backs off by as many steps |
| AdaptiveLimiters.AdaptiveLimiter.RecordError | internal/platform/resilience/adaptive_limiter.go:166-168 | another error clears the count of successes and changes nothing else |
| AdaptiveLimiters.AdaptiveLimiter.Backoff | internal/platform/resilience/adaptive_limiter.go:171-198 | the loop multiplies the rate by the factor to the power of the failures, at most five, down to the floor, and changes the inner rate with it |
| AdaptiveLimiters.AdaptiveLimiter.TryRecover | internal/platform/resilience/adaptive_limiter.go:201-230 | raises the rate below the ceiling and a second after the last change, and only then |
| AdaptiveLimiters.AdaptiveLimiter.Reset | internal/platform/resilience/adaptive_limiter.go:250-260 | back to the base rate with cleared counters |
| AdaptiveLimiters.RateStaysWithinLimits | internal/platform/resilience/adaptive_limiter.go:139-260 | over any run of answers and resets the rate stays between its limits and is the inner limiter's |
| AdaptiveLimiters.AdaptiveWindowBound | internal/platform/resilience/adaptive_limiter.go:134-260 | in any window of length d, however the rate changes, at most burst + maxRate * d is admitted |
| AdaptiveLimiters.ErrorsInARow | internal/platform/resilience/adaptive_limiter.go:156-198 | k rate-limit errors without a success give the larger of minRate and r * f to the power of min(1,5) + ... + min(k,5) |
| AdaptiveLimiters.CutsInClosedForm | internal/platform/resilience/adaptive_limiter.go:173-183 | that power is k(k+1)/2 up to five errors and 5k - 10 beyond |
| AdaptiveLimiters.RisesAreSpaced | internal/platform/resilience/adaptive_limiter.go:201-230 | without Reset the rate rises at most once a second and each time by at most the recovery factor |
| AdaptiveLimiters.CountersAreTheHistory | internal/platform/resilience/adaptive_limiter.go:141-230 | the counters are the successes and the rate-limit errors in a row, the former counted anew after each window, and the time of adjustment is that of the last change or Reset |
| AdaptiveLimiters.CountedIsRemainder | internal/platform/resilience/adaptive_limiter.go:146-151 | so counted, the successes are back at zero exactly after whole windows |
| AdaptiveLimiters.RisesExactlyWhen | internal/platform/resilience/adaptive_limiter.go:141-230 | the rate rises exactly at a success that completes a window of successes in a row, below the ceiling and a second or more after the last change, and then to the smaller of itself times the factor and the ceiling |
| CircuitBreakers.Config.WithDefaults | internal/platform/resilience/circuit_breaker.go:65-74 | thresholds and timeout are positive: a field that is not gets 5, 2 or one minute, and any other is kept |
| CircuitBreakers.CircuitBreaker.BeforeRequest | internal/platform/resilience/circuit_breaker.go:122-148 | admits unless open within the timeout, and then goes to half-open |
| CircuitBreakers.CircuitBreaker.AfterRequest | internal/platform/resilience/circuit_breaker.go:151-191 | counts and moves between the states as the specification says; cancelled calls count for nothing |
| CircuitBreakers.CircuitBreaker.Execute | internal/platform/resilience/circuit_breaker.go:87-100 | one undivided call, with its error |
| CircuitBreakers.CircuitBreaker.Reset | internal/platform/resilience/circuit_breaker.go:223-230 | closed with cleared counters, the last failure time kept |
| CircuitBreakers.CircuitBreaker.ForceOpen | internal/platform/resilience/circuit_breaker.go:233-239 | open as of now, the counters kept |
| CircuitBreakers.CountersAreTheHistory | internal/platform/resilience/circuit_breaker.go:122-239 | whatever overlaps: closed means fewer failures than the threshold, and the counters are the failures and successes in a row and the time of the last trouble in the history |
| CircuitBreakers.OpensExactlyWhen | internal/platform/resilience/circuit_breaker.go:161-169 | a closed breaker opens exactly at ForceOpen or at the failure that makes threshold in a row |
| CircuitBreakers.LeavesOpenExactlyWhen | internal/platform/resilience/circuit_breaker.go:131-139 | from open a call is admitted exactly when more than the timeout has passed since the latest failure or ForceOpen |
| CircuitBreakers.LeavesHalfOpenExactlyWhen | internal/platform/resilience/circuit_breaker.go:170-188 | half-open closes exactly at Reset or a success that makes enough in a row over all states, and opens at a failure |
| CircuitBreakers.RejectsUntilTheTimeout | internal/platform/resilience/circuit_breaker.go:131-139 | once open every call within the timeout is rejected, whatever calls under way report |
| CircuitBreakers.OneAtATimeIsARun | internal/platform/resilience/circuit_breaker.go:87-100 | calls one at a time are an interleaving like any other, with an end for each call that was admitted |
| CircuitBreakers.ClosesExactlyAfterTheTrials | internal/platform/resilience/circuit_breaker.go:122-190 | for calls one at a time, with Resets anywhere and no ForceOpen, it closes from half-open exactly with a Reset or the call that makes successThreshold successes in half-open |
| CircuitBreakers.LateSuccessesShortenTheTrial | internal/platform/resilience/circuit_breaker.go:174-187 | after any history that left it open, n late successes and one in half-open close it exactly when these and the successes in a row before them reach the threshold |
| CircuitBreakers.CallsCanBeLate | internal/platform/resilience/circuit_breaker.go:122-191 | a run that leaves it open with n calls under way |
| CircuitBreakers.ForceOpenSkipsTheTrial | internal/platform/resilience/circuit_breaker.go:233-239 | after ForceOpen one success closes it exactly when with those before it makes the threshold |
| Subscribers.Config.WithDefaults | internal/blockchain/subscriber.go:103-114 | a limit of zero stands for 3 failures and a timeout of zero for one minute, and any other is kept |
| Subscribers.Subscribe | internal/blockchain/subscriber.go:136-167 | fails exactly when the first connection fails and there is no pool to fall back on |
| Subscribers.Subscriber.Backfill | internal/blockchain/subscriber.go:623-698 | delivers the missing blocks in order up to the first that cannot be fetched, and succeeds exactly when there is none |
| Subscribers.Subscriber.OnHeader | internal/blockchain/subscriber.go:466-545 | a header: renew both times of the last message, backfill its gap if there is a pool, then deliver it and make it the last block |
| Subscribers.Subscriber.OnSessionEnd | internal/blockchain/subscriber.go:316-372 | counts the failure, switches to HTTP at the limit, else disconnects and reconnects |
| Subscribers.Subscriber.OnPoll | internal/blockchain/subscriber.go:716-795 | delivers a newer block and goes past the gap before it |
| Subscribers.Subscriber.OnPollFailure | internal/blockchain/subscriber.go:405-424 | lowers the count and tries WebSocket when it reaches zero |
| Subscribers.Subscriber.OnTimer | internal/blockchain/subscriber.go:547-556 | the timer ends the session exactly when it has heard nothing for longer than the message timeout |
| Subscribers.Subscriber.BeginHealthCheck | internal/blockchain/subscriber.go:186-194 | a check begins only on a connection that is marked as up |
| Subscribers.Subscriber.EndHealthCheck | internal/blockchain/subscriber.go:205-229 | a check without an answer takes the mark down, on whatever connection there is by then, when the last header is longer ago than the message timeout, and changes nothing else |
| Subscribers.StepKeepsComplete | internal/blockchain/subscriber.go:490-545 | every event but a header at or below the last block keeps the account of all numbers from the first block on |
| Subscribers.NothingIsLostSilently | internal/blockchain/subscriber.go:286-794 | over any reconnects and switches with rising headers: delivery is strictly increasing, and every number from the first block to the last was delivered exactly once or lies in a gap polled over, without a pool, or with a failed backfill |
| Subscribers.IncreasingExactlyWhenHeadsRise | internal/blockchain/subscriber.go:495-528 | delivery is strictly increasing exactly when no header is at or below the last block |
| Subscribers.ContiguousExactlyWhenLossless | internal/blockchain/subscriber.go:490-545 | the blocks are contiguous exactly when every gap of a header was backfilled to its end and none was polled over |
| Subscribers.ModeInvariant | internal/blockchain/subscriber.go:286-428 | HTTP mode needs a pool, and the failure count stays below the limit on WebSocket and never passes it |
| Subscribers.FailedSessions | internal/blockchain/subscriber.go:316-363 | k sessions that fail and do not reconnect switch to HTTP exactly when there is a pool and k reaches the limit, with as many failures counted |
| Subscribers.FlappingSwitchesExactlyWhen | internal/blockchain/subscriber.go:316-372 | sessions that fail and reconnect never switch, unless one failure is the limit |
| Subscribers.StaysOnHTTPWhilePollingWorks | internal/blockchain/subscriber.go:375-424 | without a polling error HTTP mode lasts for ever |
| Subscribers.ReturnsExactlyAfter | internal/blockchain/subscriber.go:405-424 | it takes as many polling errors as there were failures, and at least one, to be back on WebSocket |
| Subscribers.ThereAndBack | internal/blockchain/subscriber.go:316-424 | after sessions that failed up to the limit it takes exactly as many polling errors to be back on WebSocket |
| Subscribers.TriesAtEveryFurtherError | internal/blockchain/subscriber.go:405-424 | while no connection is to be had the count falls to one and stays there, and every further polling error is another try |
| Subscribers.StreamIsARunOfTheLoop | internal/blockchain/subscriber.go:169-559 | with timers and health checks the stream is a run of the loop alone, so that all of the above holds of it |
| Subscribers.HealthChecksChangeOnlyTheMark | internal/blockchain/subscriber.go:169-241 | taking all health checks out of a run changes no block, mode, session or error, so that none makes the loop reconnect |
| Subscribers.SessionLastsExactlyUntil | internal/blockchain/subscriber.go:455-558 | an open session ends exactly at a subscription error or when its timer finds the last header, or else its opening, longer ago than the message timeout |
| Subscribers.WhatOpeningAndEndingDo | internal/blockchain/subscriber.go:316-424 | a session that opens puts the mark up and counts its silence from there, one that ends takes the mark down unless the loop switches to HTTP, and only a header of a session is heard |
| Subscribers.WatchIsTheHistory | internal/blockchain/subscriber.go:186-229 | the time of the last message is that of the latest header of a session, and a check is under way exactly when one began on a marked connection and has not ended |
| Subscribers.ACheckTakesTheMarkDownExactlyWhen | internal/blockchain/subscriber.go:205-229 | a signal that ends no session takes the mark down exactly when it is the unanswered end of a check under way and the latest header is longer ago than the message timeout |
| Subscribers.MarkStaysDownForTheSession | internal/blockchain/subscriber.go:192-226 | during a session the mark is down exactly when it was down before or a check took it down, and nothing puts it up again |
| Subscribers.MarkedMeansConnected | internal/blockchain/subscriber.go:271-272 | the mark is up only with a client |
| Subscribers.AStaleSessionDelivers | internal/blockchain/subscriber.go:214-226 | a run in which a session just opened is marked as disconnected and goes on delivering blocks |
| Pools.NewPoolCall | internal/platform/worker/pool.go:98-104 | at least one worker and a queue of at least nothing, whatever is asked for, and otherwise as asked |
| Pools.StepKeepsInv | internal/platform/worker/pool.go:127-149 | every step keeps the channel bounds and every submitted job in exactly one place |
| Pools.EveryRunIsFinite | internal/platform/worker/pool.go:127-258 | no interleaving has more than four steps for each job and one |
| Pools.ReturnsExactlyWhenNothingWasDropped | internal/platform/worker/pool.go:234-258 | a call at rest has returned, with exactly one result for each job, if no result was dropped, and otherwise waits forever |
| Pools.NothingIsFull | internal/platform/worker/pool.go:142-211 | with no more jobs than the queue holds, no worker drops a result and no submission finds the queue full, so that the other policies never act |
| Pools.CanWaitForeverExactlyWhen | internal/platform/worker/pool.go:234-258 | there is an interleaving that waits forever exactly when there are more jobs than the queue holds |
| Pools.CanReturnExactlyWhen | internal/platform/worker/pool.go:234-258 | there is an interleaving that returns exactly when there are no more jobs than both channels and the workers hold |
| Pools.SubmitAndWait | internal/platform/worker/pool.go:234-258 | under an arbitrary scheduler it returns exactly one result for each job or waits forever; it returns when the queue holds all jobs, and waits when both channels and the workers do not |

## Left out

- RateLimiters.RateLimiter.Wait: one waiter alone, as another one may take the token.
- Orderbooks.Orderbook.CalculateExecution: for positive prices and volumes that are not negative, over exact reals; the rounding of `big.Float` is not modelled.
- Subscribers.Subscriber.Backfill: the provider's header is taken to have the number it was asked for; block numbers do not wrap around.
- AdaptiveLimiters.AdaptiveLimiter.RecordRateLimitError: counting and backing off are one step, although the code takes the lock in between.
- OverlappingLayers.NothingOlderThanTheDelay: the age of a value counts from its write to a layer, not from the start of its Set, which may come before by as long as the access takes.
- Pools.SubmitAndWait: the blocking policy, exclusive use and no cancellation; a job's own result and error are not distinguished.
- internal/pricing/uniswapv3/tick_math.go: its tables are parsed in base 10 and its sign branch is reversed, so there is no tick and price round trip to state.
- `updateLevel` of the adaptive limiter, a display value that divides by zero when base and minimum rate agree.
- The four fetches of one size inside a pipeline worker are one step, and the quote limiter they share is part of how long that step takes; the answers of providers are given with the call.
- Execution steps, risk factors and the other display fields of an opportunity; profit metrics beyond gross and net.
- The unlocked reads in the memory cache's `Get` are taken to be atomic; the Go memory model gives such a race no meaning.
- `Close` of caches and pools, the state-change callback of the breaker, and the pool's results channel in other use than `SubmitAndWait`.
- Reconnect delays and their jitter (the time at which the next session opens is given) and full error channels.
- go-redis treats a ttl that is not positive as no expiry; other traits of Redis, such as rounding a ttl to milliseconds or the KEEPTTL constant, are not modelled.
- Networking, Redis itself, SNS, configuration, tracing, metrics and logging.
- `ClientPool`, retry loops, fee-tier selection, money arithmetic and the token registry would add only easy members; `CalculateBreakEven` and `CalculateMaxProfitableSize` search over an amount that is the same for every size.
