/** internal/pricing/uniswapv3/swap_math.go: one step of a swap inside a price range of constant liquidity. */
module SwapMath {
  import opened Wrappers
  import opened Rounding
  import opened SqrtPriceMath

  const PIPS := 1000000

  datatype SwapStepResult = SwapStepResult(sqrtRatioNext: int, amountIn: int, amountOut: int, feeAmount: int)

  /** The domain of a step: positive prices, liquidity that may be zero, and a fee below 100%. */
  ghost predicate StepInput(current: int, target: int, liquidity: int, feePips: int) {
    current > 0 && target > 0 && liquidity >= 0 && 0 <= feePips < PIPS
  }

  /** The part of an input left after the fee. */
  function LessFee(amount: int, feePips: int): int {
    amount * (PIPS - feePips) / PIPS
  }

  /** The token the pool receives when the price moves from a to b. */
  function InDelta(a: int, b: int, liquidity: int, zeroForOne: bool): int
    requires a > 0 && b > 0
  {
    if zeroForOne then GetAmount0Delta(b, a, liquidity, true) else GetAmount1Delta(a, b, liquidity, true)
  }

  /** The token the pool pays out when the price moves from a to b. */
  function OutDelta(a: int, b: int, liquidity: int, zeroForOne: bool): int
    requires a > 0 && b > 0
  {
    if zeroForOne then GetAmount1Delta(b, a, liquidity, false) else GetAmount0Delta(a, b, liquidity, false)
  }

  /** Where the price ends; Failure is the error that ComputeSwapStep discards. */
  ghost function NextPrice(current: int, target: int, liquidity: int, amountRemaining: int, feePips: int): Result<int, Error>
    requires StepInput(current, target, liquidity, feePips)
  {
    var zeroForOne := current >= target;
    if amountRemaining >= 0 then
      LessFeeBounds(amountRemaining, feePips);
      var lessFee := LessFee(amountRemaining, feePips);
      if lessFee >= InDelta(current, target, liquidity, zeroForOne) then Success(target)
      else GetNextSqrtPriceFromInput(current, liquidity, lessFee, zeroForOne)
    else if -amountRemaining >= OutDelta(current, target, liquidity, zeroForOne) then
      Success(target)
    else
      GetNextSqrtPriceFromOutput(current, liquidity, -amountRemaining, zeroForOne)
  }

  /** The one kind of step that goes through the add-token0 formula with something to add. */
  ghost predicate MissesThroughToken0(current: int, target: int, liquidity: int, amountRemaining: int, feePips: int)
    requires StepInput(current, target, liquidity, feePips)
  {
    && current >= target
    && amountRemaining >= 0
    && 0 < LessFee(amountRemaining, feePips) < InDelta(current, target, liquidity, true)
  }

  ghost predicate Between(x: int, a: int, b: int) {
    a <= x <= b || b <= x <= a
  }

  ghost function Step(current: int, target: int, liquidity: int, amountRemaining: int, feePips: int): SwapStepResult
    requires StepInput(current, target, liquidity, feePips)
  {
    assert NextPrice(current, target, liquidity, amountRemaining, feePips).Success?
           && NextPrice(current, target, liquidity, amountRemaining, feePips).value > 0 by {
      if MissesThroughToken0(current, target, liquidity, amountRemaining, feePips) {
        MissThroughToken0RaisesThePrice(current, target, liquidity, amountRemaining, feePips);
      } else {
        NextPriceStaysInRange(current, target, liquidity, amountRemaining, feePips);
      }
    }
    var next := NextPrice(current, target, liquidity, amountRemaining, feePips).value;
    var zeroForOne := current >= target;
    if amountRemaining >= 0 then
      var lessFee, toTarget := LessFee(amountRemaining, feePips), InDelta(current, target, liquidity, zeroForOne);
      var amountIn := if lessFee >= toTarget then toTarget else lessFee;
      SwapStepResult(next, amountIn, OutDelta(current, next, liquidity, zeroForOne), amountRemaining - amountIn)
    else
      var toTarget := OutDelta(current, target, liquidity, zeroForOne);
      var amountIn := InDelta(current, next, liquidity, zeroForOne);
      SwapStepResult(next, amountIn, if -amountRemaining >= toTarget then toTarget else -amountRemaining, Fee(amountIn, feePips))
  }

  /** The fee the code documents: the amount times feePips / (10^6 - feePips), rounded up. */
  function Fee(amountIn: int, feePips: int): int
    requires 0 <= feePips < PIPS
  {
    MulDivRoundingUp(amountIn * feePips, 1, PIPS - feePips)
  }

  /** The step as the code performs it: the fields are filled branch by branch, and the fee of an exact input
      is clamped at zero. The discarded errors are never raised, and the result is `Step`. */
  method ComputeSwapStep(current: int, target: int, liquidity: int, amountRemaining: int, feePips: int)
    returns (result: SwapStepResult)
    requires StepInput(current, target, liquidity, feePips)
    ensures result == Step(current, target, liquidity, amountRemaining, feePips)
  {
    result := SwapStepResult(0, 0, 0, 0);
    var zeroForOne := current >= target;
    if MissesThroughToken0(current, target, liquidity, amountRemaining, feePips) {
      MissThroughToken0RaisesThePrice(current, target, liquidity, amountRemaining, feePips);
    } else {
      NextPriceStaysInRange(current, target, liquidity, amountRemaining, feePips);
    }
    if amountRemaining >= 0 {
      LessFeeBounds(amountRemaining, feePips);
      var amountRemainingLessFee := LessFee(amountRemaining, feePips);
      var amountIn := if zeroForOne then GetAmount0Delta(target, current, liquidity, true)
                      else GetAmount1Delta(current, target, liquidity, true);
      if amountRemainingLessFee >= amountIn {
        result := result.(sqrtRatioNext := target, amountIn := amountIn);
      } else {
        var next := GetNextSqrtPriceFromInput(current, liquidity, amountRemainingLessFee, zeroForOne);
        result := result.(sqrtRatioNext := next.value, amountIn := amountRemainingLessFee);
      }
      result := result.(amountOut := if zeroForOne then GetAmount1Delta(result.sqrtRatioNext, current, liquidity, false)
                                     else GetAmount0Delta(current, result.sqrtRatioNext, liquidity, false));
      result := result.(feeAmount := amountRemaining - result.amountIn);
      if result.feeAmount < 0 {
        assert false;
        result := result.(feeAmount := 0);
      }
    } else {
      var amountOut := if zeroForOne then GetAmount1Delta(target, current, liquidity, false)
                       else GetAmount0Delta(current, target, liquidity, false);
      if -amountRemaining >= amountOut {
        result := result.(sqrtRatioNext := target, amountOut := amountOut);
      } else {
        var next := GetNextSqrtPriceFromOutput(current, liquidity, -amountRemaining, zeroForOne);
        result := result.(sqrtRatioNext := next.value, amountOut := -amountRemaining);
      }
      result := result.(amountIn := if zeroForOne then GetAmount0Delta(result.sqrtRatioNext, current, liquidity, true)
                                    else GetAmount1Delta(current, result.sqrtRatioNext, liquidity, true));
      result := result.(feeAmount := MulDivRoundingUp(result.amountIn * feePips, 1, PIPS - feePips));
    }
  }

  // ---------------------------------------------------------------------
  // Where the price goes
  // ---------------------------------------------------------------------

  lemma {:induction false} LessFeeBounds(amount: int, feePips: int)
    requires amount >= 0 && 0 <= feePips < PIPS
    ensures 0 <= LessFee(amount, feePips) <= amount
  {
    var kept := amount * (PIPS - feePips);
    assert kept == amount * PIPS - amount * feePips;
    assert amount * feePips >= 0;
    assert kept >= 0;
  }

  lemma {:induction false} DeltasAreNonNegative(a: int, b: int, liquidity: int, zeroForOne: bool)
    requires a > 0 && b > 0 && liquidity >= 0
    ensures InDelta(a, b, liquidity, zeroForOne) >= 0 && OutDelta(a, b, liquidity, zeroForOne) >= 0
    ensures liquidity == 0 ==> InDelta(a, b, liquidity, zeroForOne) == 0 && OutDelta(a, b, liquidity, zeroForOne) == 0
  {
    var lo, hi := if a > b then b else a, if a > b then a else b;
    Amount0IsNonNegative(lo, hi, liquidity);
    Amount1IsNonNegative(lo, hi, liquidity);
  }

  lemma {:induction false} Amount0IsNonNegative(lo: int, hi: int, liquidity: int)
    requires 0 < lo <= hi && liquidity >= 0
    ensures GetAmount0Delta(lo, hi, liquidity, true) >= 0 && GetAmount0Delta(lo, hi, liquidity, false) >= 0
    ensures liquidity == 0 ==> GetAmount0Delta(lo, hi, liquidity, true) == GetAmount0Delta(lo, hi, liquidity, false) == 0
  {
    ProductSign(liquidity * Q96, hi - lo);
    ProductSign(lo, hi);
    Amount0UpMeaning(lo, hi, liquidity, -1);
    Amount0DownMeaning(lo, hi, liquidity, 0);
  }

  lemma {:induction false} Amount1IsNonNegative(lo: int, hi: int, liquidity: int)
    requires lo <= hi && liquidity >= 0
    ensures GetAmount1Delta(lo, hi, liquidity, true) >= 0 && GetAmount1Delta(lo, hi, liquidity, false) >= 0
    ensures liquidity == 0 ==> GetAmount1Delta(lo, hi, liquidity, true) == GetAmount1Delta(lo, hi, liquidity, false) == 0
  {
    ProductSign(liquidity, hi - lo);
    Amount1UpMeaning(lo, hi, liquidity, -1);
    Amount1DownMeaning(lo, hi, liquidity, 0);
  }

  lemma {:induction false} ProductSign(x: int, y: int)
    requires x >= 0 && y >= 0
    ensures x * y >= 0
    ensures x > 0 && y > 0 ==> x * y > 0
  {
  }

  /** In every step but one the discarded error is not raised, for any liquidity down to zero, and the price stays between
      current and target. */
  lemma {:induction false} NextPriceStaysInRange(current: int, target: int, liquidity: int, amountRemaining: int, feePips: int)
    requires StepInput(current, target, liquidity, feePips)
    requires !MissesThroughToken0(current, target, liquidity, amountRemaining, feePips)
    ensures var r := NextPrice(current, target, liquidity, amountRemaining, feePips);
            r.Success? && Between(r.value, current, target)
  {
    var zeroForOne := current >= target;
    DeltasAreNonNegative(current, target, liquidity, zeroForOne);
    if amountRemaining >= 0 {
      LessFeeBounds(amountRemaining, feePips);
      var lessFee := LessFee(amountRemaining, feePips);
      if !zeroForOne && lessFee < InDelta(current, target, liquidity, zeroForOne) {
        AddToken1IsAdjoint(current, liquidity, lessFee, target);
      }
    } else if -amountRemaining < OutDelta(current, target, liquidity, zeroForOne) {
      if zeroForOne {
        RemoveToken1IsAdjoint(current, liquidity, -amountRemaining, target);
        assert GetAmount1Delta(target, current, liquidity, false) >= -amountRemaining;
      } else {
        RemoveToken0IsAdjoint(current, liquidity, -amountRemaining, target);
      }
    }
  }

  /** A zero-for-one exact input that misses the target always raises the price, away from its target. */
  lemma {:induction false} MissThroughToken0RaisesThePrice(current: int, target: int, liquidity: int, amountRemaining: int, feePips: int)
    requires StepInput(current, target, liquidity, feePips)
    requires MissesThroughToken0(current, target, liquidity, amountRemaining, feePips)
    ensures var r := NextPrice(current, target, liquidity, amountRemaining, feePips);
            r.Success? && r.value > current
  {
    var lessFee := LessFee(amountRemaining, feePips);
    DeltasAreNonNegative(current, target, liquidity, true);
    AddToken0RisesExactlyWhen(current, liquidity, lessFee);
    if liquidity * Q96 / current + lessFee >= liquidity * Q96 {
      LargeDenominatorPaysForEverything(current, liquidity, lessFee);
      PaidPriceMeaning(current, liquidity, lessFee, 1);
      PaidPriceMeaning(current, liquidity, lessFee, target);
      MulLe(1, target, liquidity * Q96 + lessFee * current);
      assert false;
    }
  }

  /** One unit of token0, without a fee, at liquidity 100 raises a price of 20 beyond 1000000, on its way down to 10. */
  lemma {:induction false} AMissThatRaisesThePrice()
    ensures MissesThroughToken0(20 * Q96, 10 * Q96, 100, 1, 0)
    ensures var r := NextPrice(20 * Q96, 10 * Q96, 100, 1, 0); r.Success? && r.value > 1000000 * Q96
  {
    ScaleIs2ToThe96();
  }

  /** The price ends between current and target in every step except a zero-for-one exact input that misses. */
  lemma {:induction false} PriceStaysInRangeExactlyWhen(current: int, target: int, liquidity: int, amountRemaining: int, feePips: int)
    requires StepInput(current, target, liquidity, feePips)
    ensures Between(Step(current, target, liquidity, amountRemaining, feePips).sqrtRatioNext, current, target)
       <==> !MissesThroughToken0(current, target, liquidity, amountRemaining, feePips)
  {
    if MissesThroughToken0(current, target, liquidity, amountRemaining, feePips) {
      MissThroughToken0RaisesThePrice(current, target, liquidity, amountRemaining, feePips);
    } else {
      NextPriceStaysInRange(current, target, liquidity, amountRemaining, feePips);
    }
  }

  /** In every step that stays in range, the pool receives at least what the price move is worth rounded up,
      and pays at most what it is worth rounded down. */
  lemma {:induction false} StepNeverOverpays(current: int, target: int, liquidity: int, amountRemaining: int, feePips: int)
    requires StepInput(current, target, liquidity, feePips)
    requires !MissesThroughToken0(current, target, liquidity, amountRemaining, feePips)
    ensures var r := Step(current, target, liquidity, amountRemaining, feePips);
            var zeroForOne := current >= target;
            && r.sqrtRatioNext > 0
            && InDelta(current, r.sqrtRatioNext, liquidity, zeroForOne) <= r.amountIn
            && r.amountOut <= OutDelta(current, r.sqrtRatioNext, liquidity, zeroForOne)
  {
    var zeroForOne := current >= target;
    var next := Step(current, target, liquidity, amountRemaining, feePips).sqrtRatioNext;
    DeltasAreNonNegative(current, target, liquidity, zeroForOne);
    NextPriceStaysInRange(current, target, liquidity, amountRemaining, feePips);
    if amountRemaining >= 0 {
      LessFeeBounds(amountRemaining, feePips);
      var lessFee := LessFee(amountRemaining, feePips);
      if lessFee < InDelta(current, target, liquidity, zeroForOne) {
        if zeroForOne {
          Amount0UpMeaning(current, current, liquidity, 0);
        } else {
          AddToken1IsAdjoint(current, liquidity, lessFee, next);
        }
      }
    } else if -amountRemaining < OutDelta(current, target, liquidity, zeroForOne) {
      if zeroForOne {
        RemoveToken1IsAdjoint(current, liquidity, -amountRemaining, target);
        RemoveToken1IsAdjoint(current, liquidity, -amountRemaining, next);
      } else {
        RemoveToken0IsAdjoint(current, liquidity, -amountRemaining, next);
        RemoveToken0IsAdjoint(current, liquidity, -amountRemaining, target);
      }
    }
  }

  // ---------------------------------------------------------------------
  // What a step amounts to, in plain arithmetic
  // ---------------------------------------------------------------------

  /** m is what is left of an amount after the fee, rounded down. */
  ghost predicate IsLessFee(m: int, amount: int, feePips: int) {
    m * 1000000 <= amount * (1000000 - feePips) < (m + 1) * 1000000
  }

  lemma {:induction false} LessFeeIsOne(m: int, amount: int, feePips: int)
    requires IsLessFee(m, amount, feePips)
    ensures LessFee(amount, feePips) == m
  {
    FloorGalois(amount * (1000000 - feePips), 1000000, m);
    FloorGalois(amount * (1000000 - feePips), 1000000, m + 1);
  }

  /** A zero-for-one exact input, for any x: it pays out the greatest amount of token1 within liquidity times the way the price
      moves, rising or falling. It reaches the target if the part after the fee covers that move, and takes the least amount
      that does; otherwise it takes all of that part, and the price ends where adding it as token0 leads. */
  lemma {:induction false} ExactInputZeroForOne(current: int, target: int, liquidity: int, amountRemaining: int, feePips: int,
                                                m: int, x: int)
    requires StepInput(current, target, liquidity, feePips) && current >= target && amountRemaining >= 0
    requires IsLessFee(m, amountRemaining, feePips)
    ensures var r := Step(current, target, liquidity, amountRemaining, feePips);
            var moved := if r.sqrtRatioNext <= current then current - r.sqrtRatioNext else r.sqrtRatioNext - current;
            && (x <= r.amountOut <==> x * Q96 <= liquidity * moved)
            && r.amountIn + r.feeAmount == amountRemaining
    ensures var r := Step(current, target, liquidity, amountRemaining, feePips);
            var n := liquidity * Q96;
            if n * (current - target) <= m * (target * current) then
              r.sqrtRatioNext == target && (r.amountIn <= x <==> n * (current - target) <= x * (target * current))
            else
              && r.amountIn == m
              && if m == 0 then r.sqrtRatioNext == current
                 else r.sqrtRatioNext <= x <==> n * current <= x * (n / current + m)
  {
    var next := Step(current, target, liquidity, amountRemaining, feePips).sqrtRatioNext;
    LessFeeIsOne(m, amountRemaining, feePips);
    LessFeeBounds(amountRemaining, feePips);
    Amount0UpMeaning(target, current, liquidity, m);
    Amount0UpMeaning(target, current, liquidity, x);
    Amount1DownMeaning(if next <= current then next else current, if next <= current then current else next, liquidity, x);
    if m > 0 && m < InDelta(current, target, liquidity, true) {
      DeltasAreNonNegative(current, target, liquidity, true);
      AddToken0IsLeast(current, liquidity, m, x);
    }
  }

  /** A one-for-zero exact input, for any x: it pays out the greatest amount of token0 for the rise, and ends at the target if
      the part after the fee covers that move, taking the least amount that does, and otherwise at the greatest price that
      the part after the fee pays for. */
  lemma {:induction false} ExactInputOneForZero(current: int, target: int, liquidity: int, amountRemaining: int, feePips: int,
                                                m: int, x: int)
    requires StepInput(current, target, liquidity, feePips) && current < target && amountRemaining >= 0
    requires IsLessFee(m, amountRemaining, feePips)
    ensures var r := Step(current, target, liquidity, amountRemaining, feePips);
            && current <= r.sqrtRatioNext <= target
            && (x <= r.amountOut <==> x * (current * r.sqrtRatioNext) <= liquidity * Q96 * (r.sqrtRatioNext - current))
            && r.amountIn + r.feeAmount == amountRemaining
    ensures var r := Step(current, target, liquidity, amountRemaining, feePips);
            if liquidity * (target - current) <= m * Q96 then
              r.sqrtRatioNext == target && (r.amountIn <= x <==> liquidity * (target - current) <= x * Q96)
            else
              r.amountIn == m && (x <= r.sqrtRatioNext <==> liquidity * (x - current) <= m * Q96)
  {
    var next := Step(current, target, liquidity, amountRemaining, feePips).sqrtRatioNext;
    LessFeeIsOne(m, amountRemaining, feePips);
    LessFeeBounds(amountRemaining, feePips);
    NextPriceStaysInRange(current, target, liquidity, amountRemaining, feePips);
    Amount1UpMeaning(current, target, liquidity, m);
    Amount1UpMeaning(current, target, liquidity, x);
    Amount0DownMeaning(current, next, liquidity, x);
    if m < InDelta(current, target, liquidity, false) {
      DeltasAreNonNegative(current, target, liquidity, false);
      AddToken1IsGreatest(current, liquidity, m, x);
    }
  }

  lemma {:induction false} AddToken1IsGreatest(price: int, liquidity: int, amount: int, x: int)
    requires liquidity > 0
    ensures x <= GetNextSqrtPriceFromAmount1RoundingDown(price, liquidity, amount, true) <==> liquidity * (x - price) <= amount * Q96
  {
    FloorGalois(amount * Q96, liquidity, x - price);
    Commutes(x - price, liquidity);
  }

  /** A zero-for-one exact output, for any x: it pays the request or, if that is less, the greatest amount for the whole move;
      the price ends at the target if the request reaches that amount, and otherwise at the greatest price from which the way
      down covers the request. It takes the least amount of token0 that covers the move, and the documented fee. */
  lemma {:induction false} ExactOutputZeroForOne(current: int, target: int, liquidity: int, request: int, feePips: int, x: int)
    requires StepInput(current, target, liquidity, feePips) && current >= target && request > 0
    ensures var r := Step(current, target, liquidity, -request, feePips);
            && 0 < r.sqrtRatioNext <= current
            && (x <= r.amountOut <==> x <= request && x * Q96 <= liquidity * (current - target))
            && (r.amountIn <= x <==> liquidity * Q96 * (current - r.sqrtRatioNext) <= x * (r.sqrtRatioNext * current))
            && (r.feeAmount <= x <==> r.amountIn * feePips <= x * (1000000 - feePips))
    ensures var r := Step(current, target, liquidity, -request, feePips);
            if (request + 1) * Q96 > liquidity * (current - target) then r.sqrtRatioNext == target
            else 0 <= x <= current ==> (x <= r.sqrtRatioNext <==> request * Q96 <= liquidity * (current - x))
  {
    var r := Step(current, target, liquidity, -request, feePips);
    NextPriceStaysInRange(current, target, liquidity, -request, feePips);
    Amount1DownMeaning(target, current, liquidity, x);
    Amount1DownMeaning(target, current, liquidity, request + 1);
    Amount0UpMeaning(r.sqrtRatioNext, current, liquidity, x);
    CeilGalois(r.amountIn * feePips, 1000000 - feePips, x);
    if request < OutDelta(current, target, liquidity, true) && 0 <= x <= current {
      DeltasAreNonNegative(current, target, liquidity, true);
      RemoveToken1IsAdjoint(current, liquidity, request, target);
      RemoveToken1IsAdjoint(current, liquidity, request, x);
      Amount1DownMeaning(x, current, liquidity, request);
    }
  }

  /** A one-for-zero exact output, for any x, in the same way; the price ends at the least one up to which the rise covers the
      request if that does not reach the amount available. */
  lemma {:induction false} ExactOutputOneForZero(current: int, target: int, liquidity: int, request: int, feePips: int, x: int)
    requires StepInput(current, target, liquidity, feePips) && current < target && request > 0
    ensures var r := Step(current, target, liquidity, -request, feePips);
            && current <= r.sqrtRatioNext <= target
            && (x <= r.amountOut <==> x <= request && x * (current * target) <= liquidity * Q96 * (target - current))
            && (r.amountIn <= x <==> liquidity * (r.sqrtRatioNext - current) <= x * Q96)
            && (r.feeAmount <= x <==> r.amountIn * feePips <= x * (1000000 - feePips))
    ensures var r := Step(current, target, liquidity, -request, feePips);
            if (request + 1) * (current * target) > liquidity * Q96 * (target - current) then r.sqrtRatioNext == target
            else current <= x ==> (r.sqrtRatioNext <= x <==> request * (current * x) <= liquidity * Q96 * (x - current))
  {
    var r := Step(current, target, liquidity, -request, feePips);
    NextPriceStaysInRange(current, target, liquidity, -request, feePips);
    Amount0DownMeaning(current, target, liquidity, x);
    Amount0DownMeaning(current, target, liquidity, request + 1);
    Amount1UpMeaning(current, r.sqrtRatioNext, liquidity, x);
    CeilGalois(r.amountIn * feePips, 1000000 - feePips, x);
    if request < OutDelta(current, target, liquidity, false) && current <= x {
      DeltasAreNonNegative(current, target, liquidity, false);
      RemoveToken0IsAdjoint(current, liquidity, request, target);
      RemoveToken0IsAdjoint(current, liquidity, request, x);
      Amount0DownMeaning(current, x, liquidity, request);
    }
  }

  /** A zero-for-one exact output ends at the target exactly when the request reaches the amount available, or does not but is
      not covered down to one unit of price short of the target. */
  lemma {:induction false} FallsToTheTargetExactlyWhen(current: int, target: int, liquidity: int, request: int, feePips: int, short: int)
    requires StepInput(current, target, liquidity, feePips) && current >= target && request > 0 && short == target + 1
    ensures Step(current, target, liquidity, -request, feePips).sqrtRatioNext == target
       <==> (request + 1) * Q96 > liquidity * (current - target) || short > current || request * Q96 > liquidity * (current - short)
  {
    NextPriceStaysInRange(current, target, liquidity, -request, feePips);
    ExactOutputZeroForOne(current, target, liquidity, request, feePips, short);
  }

  /** The same of a one-for-zero exact output. */
  lemma {:induction false} RisesToTheTargetExactlyWhen(current: int, target: int, liquidity: int, request: int, feePips: int, short: int)
    requires StepInput(current, target, liquidity, feePips) && current < target && request > 0 && short == target - 1
    ensures Step(current, target, liquidity, -request, feePips).sqrtRatioNext == target
       <==> || (request + 1) * (current * target) > liquidity * Q96 * (target - current)
            || request * (current * short) > liquidity * Q96 * (short - current)
  {
    NextPriceStaysInRange(current, target, liquidity, -request, feePips);
    ExactOutputOneForZero(current, target, liquidity, request, feePips, short);
  }

  /** With liquidity above 2^96 a unit of price is worth more than one token1: from 12 to 10 at twice that 4 are available, and
      a request of 3 ends at 10 too. */
  lemma {:induction false} ShortOfTheAmountAtTheTarget()
    ensures OutDelta(12, 10, 2 * Q96, true) == 4
    ensures Step(12, 10, 2 * Q96, -3, 0).sqrtRatioNext == 10 && Step(12, 10, 2 * Q96, -3, 0).amountOut == 3
  {
    ScaleIs2ToThe96();
  }

  // ---------------------------------------------------------------------
  // Fees
  // ---------------------------------------------------------------------

  /** amountIn plus its documented fee is the least amount whose part after the fee covers amountIn. */
  lemma {:induction false} FeeIsLeastGrossUp(amountIn: int, feePips: int, gross: int)
    requires 0 <= feePips < PIPS
    ensures amountIn <= LessFee(gross, feePips) <==> amountIn + Fee(amountIn, feePips) <= gross
  {
    var keep := PIPS - feePips;
    FloorGalois(gross * keep, PIPS, amountIn);
    CeilGalois(amountIn * feePips, keep, gross - amountIn);
    assert amountIn * PIPS == amountIn * feePips + amountIn * keep;
    assert (gross - amountIn) * keep == gross * keep - amountIn * keep;
  }

  /** Fees of both kinds of step: nothing of an exact input is lost, the fee never falls below the documented
      one, and that of an exact input is the documented one exactly when one unit less would pay, after the fee, for less:
      neither for the move to the target nor for as much as the input does. */
  lemma {:induction false} FeeAccounting(current: int, target: int, liquidity: int, amountRemaining: int, feePips: int)
    requires StepInput(current, target, liquidity, feePips)
    ensures var r := Step(current, target, liquidity, amountRemaining, feePips);
            && Fee(r.amountIn, feePips) <= r.feeAmount
            && (amountRemaining >= 0 ==> r.amountIn + r.feeAmount == amountRemaining)
            && (amountRemaining < 0 ==> r.feeAmount == Fee(r.amountIn, feePips))
            && (amountRemaining >= 0 ==>
                (r.feeAmount == Fee(r.amountIn, feePips) <==>
                   && LessFee(amountRemaining - 1, feePips) < LessFee(amountRemaining, feePips)
                   && LessFee(amountRemaining - 1, feePips) < InDelta(current, target, liquidity, current >= target)))
  {
    var r := Step(current, target, liquidity, amountRemaining, feePips);
    FeeIsLeastGrossUp(r.amountIn, feePips, amountRemaining);
    FeeIsLeastGrossUp(r.amountIn, feePips, amountRemaining - 1);
  }

  /** Beyond the target all of the rest is kept: moving from 10 to 20 at liquidity 100 takes 1000, and of 5000 without any fee
      the other 4000 are charged as one. */
  lemma {:induction false} AFeeAboveTheDocumentedOne()
    ensures var r := Step(10 * Q96, 20 * Q96, 100, 5000, 0);
            r.amountIn == 1000 && r.feeAmount == 4000 && Fee(r.amountIn, 0) == 0
  {
    ScaleIs2ToThe96();
  }

  /** The least number of units of which, after the fee, one is left. */
  function UnitsForOne(feePips: int): int
    requires 0 <= feePips < PIPS
  {
    CeilDiv(PIPS, PIPS - feePips)
  }

  /** An exact input that misses the target overpays the documented fee by less than that: by nothing without a fee, by at
      most one unit for fees up to 50%. */
  lemma {:induction false} FeeExcessWhenMissing(current: int, target: int, liquidity: int, amountRemaining: int, feePips: int)
    requires StepInput(current, target, liquidity, feePips)
    requires amountRemaining >= 0
    requires LessFee(amountRemaining, feePips) < InDelta(current, target, liquidity, current >= target)
    ensures var r := Step(current, target, liquidity, amountRemaining, feePips);
            && r.feeAmount < Fee(r.amountIn, feePips) + UnitsForOne(feePips)
            && (feePips <= 500000 ==> r.feeAmount <= Fee(r.amountIn, feePips) + 1)
  {
    var m, k := LessFee(amountRemaining, feePips), UnitsForOne(feePips);
    CeilGalois(PIPS, PIPS - feePips, 2);
    FeeIsLeastGrossUp(m, feePips, amountRemaining - k);
    LessForLess(amountRemaining, feePips, k);
  }

  lemma {:induction false} LessForLess(amount: int, feePips: int, k: int)
    requires 0 <= feePips < PIPS && k == UnitsForOne(feePips)
    ensures LessFee(amount - k, feePips) < LessFee(amount, feePips)
  {
    var keep, m := PIPS - feePips, LessFee(amount, feePips);
    CeilGalois(PIPS, keep, k);
    FloorGalois((amount - k) * keep, PIPS, m);
    FloorGalois(amount * keep, PIPS, m + 1);
    assert (amount - k) * keep == amount * keep - k * keep;
  }

  /** The bound is reached, whatever the fee: one unit less than that is all kept as a fee, where the documented fee is
      nothing. */
  lemma {:induction false} TheFeeExcessIsReached(current: int, target: int, liquidity: int, feePips: int)
    requires StepInput(current, target, liquidity, feePips)
    requires 0 < InDelta(current, target, liquidity, current >= target)
    ensures var r := Step(current, target, liquidity, UnitsForOne(feePips) - 1, feePips);
            r.feeAmount == UnitsForOne(feePips) - 1 && Fee(r.amountIn, feePips) == 0
  {
    OneUnitLessLeavesNothing(feePips, UnitsForOne(feePips));
    FeeAccounting(current, target, liquidity, UnitsForOne(feePips) - 1, feePips);
  }

  lemma {:induction false} OneUnitLessLeavesNothing(feePips: int, k: int)
    requires 0 <= feePips < PIPS && k == UnitsForOne(feePips)
    ensures k >= 1 && LessFee(k - 1, feePips) == 0 && Fee(0, feePips) == 0
  {
    var keep := PIPS - feePips;
    var kept := (k - 1) * keep;
    CeilGalois(PIPS, keep, k - 1);
    CeilGalois(PIPS, keep, 0);
    FloorGalois(kept, PIPS, 0);
    FloorGalois(kept, PIPS, 1);
    ProductSign(k - 1, keep);
  }

  // ---------------------------------------------------------------------
  // Exact output against exact input
  // ---------------------------------------------------------------------

  /** One-for-zero: asking for exactly what an exact input delivered never costs more than that input did,
      unless the request alone already reaches the target while the input did not. */
  lemma {:induction false} ExactOutputCostsNoMore(current: int, target: int, liquidity: int, amountRemaining: int, feePips: int)
    requires StepInput(current, target, liquidity, feePips)
    requires current < target && amountRemaining >= 0
    requires var bought := Step(current, target, liquidity, amountRemaining, feePips);
             && 0 < bought.amountOut
             && (bought.sqrtRatioNext == target || bought.amountOut < OutDelta(current, target, liquidity, false))
    ensures var bought := Step(current, target, liquidity, amountRemaining, feePips);
            var priced := Step(current, target, liquidity, -bought.amountOut, feePips);
            && priced.amountOut == bought.amountOut
            && priced.sqrtRatioNext <= bought.sqrtRatioNext
            && priced.amountIn + priced.feeAmount <= bought.amountIn + bought.feeAmount
  {
    var bought := Step(current, target, liquidity, amountRemaining, feePips);
    var priced := Step(current, target, liquidity, -bought.amountOut, feePips);
    StepNeverOverpays(current, target, liquidity, amountRemaining, feePips);
    NextPriceStaysInRange(current, target, liquidity, amountRemaining, feePips);
    NextPriceStaysInRange(current, target, liquidity, -bought.amountOut, feePips);
    DeltasAreNonNegative(current, target, liquidity, false);
    if bought.sqrtRatioNext != target {
      RemoveToken0IsAdjoint(current, liquidity, bought.amountOut, bought.sqrtRatioNext);
    }
    Amount1UpIsMonotone(current, priced.sqrtRatioNext, bought.sqrtRatioNext, liquidity);
    FeeAccounting(current, target, liquidity, amountRemaining, feePips);
    FeeIsLeastGrossUp(bought.amountIn, feePips, amountRemaining);
    FeeIsLeastGrossUp(priced.amountIn, feePips, amountRemaining);
  }

  lemma {:induction false} Amount1UpIsMonotone(lo: int, mid: int, hi: int, liquidity: int)
    requires lo <= mid <= hi && liquidity >= 0
    ensures GetAmount1Delta(lo, mid, liquidity, true) <= GetAmount1Delta(lo, hi, liquidity, true)
  {
    var u := GetAmount1Delta(lo, hi, liquidity, true);
    Amount1UpMeaning(lo, hi, liquidity, u);
    Amount1UpMeaning(lo, mid, liquidity, u);
    ProductSign(liquidity, hi - mid);
    Distribute(liquidity, mid - lo, hi - mid);
  }

  lemma {:induction false} Distribute(x: int, y: int, z: int)
    ensures x * (y + z) == x * y + x * z
  {
  }

  /** Asking for what an exact input delivered already reaches the target, which the input did not. */
  lemma {:induction false} SnappingCostsMore(current: int, target: int, liquidity: int, amountRemaining: int, feePips: int)
    requires StepInput(current, target, liquidity, feePips)
    requires current < target && amountRemaining >= 0
    requires var bought := Step(current, target, liquidity, amountRemaining, feePips);
             && 0 < bought.amountOut
             && bought.sqrtRatioNext != target && bought.amountOut >= OutDelta(current, target, liquidity, false)
    ensures var bought := Step(current, target, liquidity, amountRemaining, feePips);
            var priced := Step(current, target, liquidity, -bought.amountOut, feePips);
            && priced.sqrtRatioNext == target > bought.sqrtRatioNext
            && priced.amountIn + priced.feeAmount > bought.amountIn + bought.feeAmount
  {
    var bought := Step(current, target, liquidity, amountRemaining, feePips);
    var priced := Step(current, target, liquidity, -bought.amountOut, feePips);
    NextPriceStaysInRange(current, target, liquidity, amountRemaining, feePips);
    FeeAccounting(current, target, liquidity, amountRemaining, feePips);
    FeeAccounting(current, target, liquidity, -bought.amountOut, feePips);
    FeeIsLeastGrossUp(priced.amountIn, feePips, amountRemaining);
  }

  /** One-for-zero: asking for exactly what an exact input delivered moves the price no further, and costs no more, than that
      input did exactly when the input reached the target too or the request stays short of it. */
  lemma {:induction false} ExactOutputCostsNoMoreExactlyWhen(current: int, target: int, liquidity: int, amountRemaining: int, feePips: int)
    requires StepInput(current, target, liquidity, feePips)
    requires current < target && amountRemaining >= 0
    requires Step(current, target, liquidity, amountRemaining, feePips).amountOut > 0
    ensures var bought := Step(current, target, liquidity, amountRemaining, feePips);
            var priced := Step(current, target, liquidity, -bought.amountOut, feePips);
            var staysShort := bought.sqrtRatioNext == target || bought.amountOut < OutDelta(current, target, liquidity, false);
            && (priced.sqrtRatioNext <= bought.sqrtRatioNext <==> staysShort)
            && (priced.amountIn + priced.feeAmount <= bought.amountIn + bought.feeAmount <==> staysShort)
  {
    var bought := Step(current, target, liquidity, amountRemaining, feePips);
    if bought.sqrtRatioNext == target || bought.amountOut < OutDelta(current, target, liquidity, false) {
      ExactOutputCostsNoMore(current, target, liquidity, amountRemaining, feePips);
    } else {
      SnappingCostsMore(current, target, liquidity, amountRemaining, feePips);
    }
  }

  /** A request that snaps to the target: 700 buys 4, but asking for 4 snaps to the target and costs 900. */
  lemma {:induction false} SnappingToTheTargetCostsMore()
    ensures var bought := Step(10 * Q96, 19 * Q96, 100, 700, 0);
            var priced := Step(10 * Q96, 19 * Q96, 100, -bought.amountOut, 0);
            && bought.amountOut == 4 == priced.amountOut
            && bought.amountIn == 700 && bought.feeAmount == 0
            && priced.amountIn == 900 && priced.sqrtRatioNext == 19 * Q96
  {
    ScaleIs2ToThe96();
    assert NextPrice(10 * Q96, 19 * Q96, 100, 700, 0) == Success(17 * Q96);
  }

  // ---------------------------------------------------------------------
  // A whole swap without crossing ticks
  // ---------------------------------------------------------------------

  datatype SwapOutcome = SwapOutcome(amountOut: int, sqrtPriceNext: int)

  function SimulateSwap(price: int, liquidity: int, amountIn: int, zeroForOne: bool, feePips: int): Result<SwapOutcome, Error>
    requires amountIn >= 0 && 0 <= feePips < PIPS
  {
    LessFeeBounds(amountIn, feePips);
    match GetNextSqrtPriceFromInput(price, liquidity, LessFee(amountIn, feePips), zeroForOne)
    case Failure(e) => Failure(e)
    case Success(next) =>
      NextFromInputIsPositive(price, liquidity, LessFee(amountIn, feePips), zeroForOne);
      Success(SwapOutcome(OutDelta(price, next, liquidity, zeroForOne), next))
  }

  lemma {:induction false} NextFromInputIsPositive(price: int, liquidity: int, amountIn: int, zeroForOne: bool)
    requires amountIn >= 0
    ensures var r := GetNextSqrtPriceFromInput(price, liquidity, amountIn, zeroForOne);
            r.Success? ==> price > 0 && liquidity > 0 && r.value > 0
  {
    if price > 0 && liquidity > 0 {
      if zeroForOne && amountIn > 0 {
        assert liquidity * Q96 * price > 0;
        CeilGalois(liquidity * Q96 * price, liquidity * Q96 / price + amountIn, 0);
      } else if !zeroForOne {
        AddToken1IsAdjoint(price, liquidity, amountIn, price);
      }
    }
  }

  /** A whole swap is the step towards any target it does not reach. */
  lemma {:induction false} SimulateSwapIsAMissingStep(price: int, target: int, liquidity: int, amountIn: int, feePips: int)
    requires StepInput(price, target, liquidity, feePips) && amountIn >= 0
    requires LessFee(amountIn, feePips) < InDelta(price, target, liquidity, price >= target)
    ensures var r := Step(price, target, liquidity, amountIn, feePips);
            SimulateSwap(price, liquidity, amountIn, price >= target, feePips)
              == Success(SwapOutcome(r.amountOut, r.sqrtRatioNext))
  {
    DeltasAreNonNegative(price, target, liquidity, price >= target);
    LessFeeBounds(amountIn, feePips);
  }

  /** A whole swap fails exactly without a price or without liquidity. Otherwise, for any x, it pays out the greatest amount for
      the way that the price moves, and the price ends where adding what is left of the input after the fee leads: to the
      greatest price that it pays for, or, zero-for-one, to the least that covers liquidity * price with the denominator. */
  lemma {:induction false} WhatASwapAmountsTo(price: int, liquidity: int, amountIn: int, feePips: int, m: int, x: int)
    requires amountIn >= 0 && 0 <= feePips < PIPS && IsLessFee(m, amountIn, feePips)
    ensures forall zeroForOne :: SimulateSwap(price, liquidity, amountIn, zeroForOne, feePips).Success? <==> price > 0 && liquidity > 0
    ensures price <= 0 ==> forall zeroForOne :: SimulateSwap(price, liquidity, amountIn, zeroForOne, feePips) == Failure(InvalidPrice)
    ensures liquidity <= 0 < price
            ==> forall zeroForOne :: SimulateSwap(price, liquidity, amountIn, zeroForOne, feePips) == Failure(InvalidLiquidity)
    ensures price > 0 && liquidity > 0 ==>
              var n, down := liquidity * Q96, SimulateSwap(price, liquidity, amountIn, true, feePips).value;
              var moved := if down.sqrtPriceNext <= price then price - down.sqrtPriceNext else down.sqrtPriceNext - price;
              && (x <= down.amountOut <==> x * Q96 <= liquidity * moved)
              && (if m == 0 then down.sqrtPriceNext == price
                  else down.sqrtPriceNext <= x <==> n * price <= x * (n / price + m))
    ensures price > 0 && liquidity > 0 ==>
              var n, up := liquidity * Q96, SimulateSwap(price, liquidity, amountIn, false, feePips).value;
              && price <= up.sqrtPriceNext
              && (x <= up.amountOut <==> x * (price * up.sqrtPriceNext) <= n * (up.sqrtPriceNext - price))
              && (x <= up.sqrtPriceNext <==> liquidity * (x - price) <= m * Q96)
  {
    LessFeeIsOne(m, amountIn, feePips);
    LessFeeBounds(amountIn, feePips);
    if price > 0 && liquidity > 0 {
      var down := SimulateSwap(price, liquidity, amountIn, true, feePips).value;
      var up := SimulateSwap(price, liquidity, amountIn, false, feePips).value;
      Amount1DownMeaning(if down.sqrtPriceNext <= price then down.sqrtPriceNext else price,
                         if down.sqrtPriceNext <= price then price else down.sqrtPriceNext, liquidity, x);
      if m > 0 {
        AddToken0IsLeast(price, liquidity, m, x);
      }
      AddToken1IsAdjoint(price, liquidity, m, price);
      AddToken1IsGreatest(price, liquidity, m, x);
      Amount0DownMeaning(price, up.sqrtPriceNext, liquidity, x);
    }
  }

  /** A whole one-for-zero swap ends at the greatest price that its input, after the fee, pays for; a whole zero-for-one
      swap raises the price, which it should lower, exactly when liquidity/price plus the input after the fee
      is below liquidity * 2^96. */
  lemma {:induction false} SimulateSwapDirections(price: int, liquidity: int, amountIn: int, feePips: int)
    requires price > 0 && liquidity > 0 && amountIn >= 0 && 0 <= feePips < PIPS
    ensures var up := SimulateSwap(price, liquidity, amountIn, false, feePips);
            && up.Success? && up.value.sqrtPriceNext >= price
            && (forall x :: price <= x ==>
                  (GetAmount1Delta(price, x, liquidity, true) <= LessFee(amountIn, feePips) <==> x <= up.value.sqrtPriceNext))
            && up.value.amountOut == GetAmount0Delta(price, up.value.sqrtPriceNext, liquidity, false)
    ensures var lessFee := LessFee(amountIn, feePips);
            var down := SimulateSwap(price, liquidity, amountIn, true, feePips);
            && down.Success?
            && (down.value.sqrtPriceNext > price
                <==> lessFee > 0 && liquidity * Q96 / price + lessFee < liquidity * Q96)
  {
    var lessFee := LessFee(amountIn, feePips);
    LessFeeBounds(amountIn, feePips);
    AddToken1IsAdjoint(price, liquidity, lessFee, price);
    forall x | price <= x
      ensures GetAmount1Delta(price, x, liquidity, true) <= lessFee <==>
              x <= GetNextSqrtPriceFromAmount1RoundingDown(price, liquidity, lessFee, true) {
      AddToken1IsAdjoint(price, liquidity, lessFee, x);
    }
    if lessFee > 0 {
      AddToken0RisesExactlyWhen(price, liquidity, lessFee);
    }
  }
}
