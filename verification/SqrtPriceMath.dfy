/** Integer division facts used by the fixed-point price arithmetic. */
module Rounding {
  /** n / d rounded towards positive infinity. */
  function CeilDiv(n: int, d: int): (q: int)
    requires d > 0
    ensures (q - 1) * d < n <= q * d
  {
    n / d + if n % d > 0 then 1 else 0
  }

  lemma {:induction false} MulLe(x: int, y: int, d: int)
    requires d > 0
    ensures x <= y <==> x * d <= y * d
  {
    assert y * d - x * d == (y - x) * d;
    MulSign(y - x, d);
  }

  lemma {:induction false} MulSign(x: int, d: int)
    requires d > 0
    ensures x >= 0 <==> x * d >= 0
  {
  }

  /** Floor division is the right adjoint of multiplication. */
  lemma {:induction false} FloorGalois(n: int, d: int, q: int)
    requires d > 0
    ensures q <= n / d <==> q * d <= n
  {
    if q <= n / d {
      MulLe(q, n / d, d);
    } else {
      MulLe(n / d + 1, q, d);
    }
  }

  /** Ceiling division is the left adjoint of multiplication. */
  lemma {:induction false} CeilGalois(n: int, d: int, q: int)
    requires d > 0
    ensures CeilDiv(n, d) <= q <==> n <= q * d
  {
    var c := CeilDiv(n, d);
    if c <= q {
      MulLe(c, q, d);
    } else {
      MulLe(q, c - 1, d);
    }
  }
}

/** internal/pricing/uniswapv3/sqrt_price_math.go: sqrt prices are integers scaled by 2^96. */
module SqrtPriceMath {
  import opened Bits
  import opened Wrappers
  import opened Rounding

  predicate IsPowerOf2(q: int, n: nat)
    decreases q
  {
    q > 0 && if n == 0 then q == 1 else q % 2 == 0 && IsPowerOf2(q / 2, n - 1)
  }

  /** The scale of a sqrt price. Its only value is 2^96, but proofs that do not need the numeral do not see it. */
  type Scale = q: int | IsPowerOf2(q, 96) witness (Pow2IsAPowerOf2(96); Pow2(96))

  const Q96: Scale

  lemma {:induction false} PowersAreUnique(q: int, r: int, n: nat)
    requires IsPowerOf2(q, n) && IsPowerOf2(r, n)
    ensures q == r
    decreases n
  {
    if n == 0 {
    } else {
      PowersAreUnique(q / 2, r / 2, n - 1);
    }
  }

  lemma {:induction false} Pow2IsAPowerOf2(n: nat)
    ensures IsPowerOf2(Pow2(n), n)
  {
    if n == 0 {
    } else {
      Pow2IsAPowerOf2(n - 1);
    }
  }

  lemma {:induction false} Doubled(x: int, y: int, xy: int, doubled: int)
    requires xy == x * y && doubled == (2 * x) * y
    ensures doubled == 2 * xy
  {
  }

  lemma {:induction false} DoublePower(h: int, n: nat, d: int)
    requires IsPowerOf2(h, n) && d == 2 * h
    ensures IsPowerOf2(d, n + 1)
  {
  }

  lemma {:induction false} PowersMultiply(q: int, r: int, qr: int, m: nat, n: nat)
    requires IsPowerOf2(q, m) && IsPowerOf2(r, n) && qr == q * r
    ensures IsPowerOf2(qr, m + n)
    decreases m
  {
    if m == 0 {
    } else {
      var h := q / 2;
      var hr := h * r;
      PowersMultiply(h, r, hr, m - 1, n);
      Doubled(h, r, hr, qr);
      DoublePower(hr, m - 1 + n, qr);
    }
  }

  lemma {:induction false} ScaleIs2ToThe96()
    ensures Q96 == 0x1_0000_0000_0000_0000_0000_0000
  {
    assert IsPowerOf2(1, 0) && IsPowerOf2(2, 1);
    PowersMultiply(2, 2, 4, 1, 1);
    PowersMultiply(4, 2, 8, 2, 1);
    PowersMultiply(8, 8, 64, 3, 3);
    PowersMultiply(64, 64, 0x1000, 6, 6);
    PowersMultiply(0x1000, 0x1000, 0x100_0000, 12, 12);
    PowersMultiply(0x100_0000, 0x100_0000, 0x1_0000_0000_0000, 24, 24);
    PowersMultiply(0x1_0000_0000_0000, 0x1_0000_0000_0000, 0x1_0000_0000_0000_0000_0000_0000, 48, 48);
    PowersAreUnique(Q96, 0x1_0000_0000_0000_0000_0000_0000, 96);
  }

  datatype Error = InvalidLiquidity | InvalidPrice | InsufficientLiquidity

  function MulDivRoundingUp(a: int, b: int, denominator: int): int
    requires denominator != 0
  {
    var product := a * b;
    product / denominator + if product % denominator > 0 then 1 else 0
  }

  function GetAmount0Delta(a: int, b: int, liquidity: int, roundUp: bool): int
    requires a > 0 && b > 0
  {
    var lo := if a > b then b else a;
    var hi := if a > b then a else b;
    var numerator1 := liquidity * Q96;
    var numerator2 := hi - lo;
    if roundUp then
      MulDivRoundingUp(MulDivRoundingUp(numerator1, numerator2, hi), 1, lo)
    else
      numerator1 * numerator2 / hi / lo
  }

  function GetAmount1Delta(a: int, b: int, liquidity: int, roundUp: bool): int {
    var lo := if a > b then b else a;
    var hi := if a > b then a else b;
    if roundUp then
      MulDivRoundingUp(liquidity, hi - lo, Q96)
    else
      liquidity * (hi - lo) / Q96
  }

  function GetNextSqrtPriceFromAmount0RoundingUp(price: int, liquidity: int, amount: int, add: bool): Result<int, Error>
    requires price > 0
    requires add && amount != 0 ==> liquidity * Q96 / price + amount != 0
  {
    if amount == 0 then
      Success(price)
    else
      var numerator1 := liquidity * Q96;
      if add then
        Success(MulDivRoundingUp(numerator1, price, numerator1 / price + amount))
      else
        var denominator := numerator1 - amount * price;
        if denominator <= 0 then
          Failure(InsufficientLiquidity)
        else
          Success(MulDivRoundingUp(numerator1, price, denominator))
  }

  function GetNextSqrtPriceFromAmount1RoundingDown(price: int, liquidity: int, amount: int, add: bool): int
    requires liquidity != 0
  {
    if add then
      price + amount * Q96 / liquidity
    else
      var result := price - MulDivRoundingUp(amount * Q96, 1, liquidity);
      if result < 0 then 0 else result
  }

  function GetNextSqrtPriceFromInput(price: int, liquidity: int, amountIn: int, zeroForOne: bool): Result<int, Error>
    requires amountIn >= 0
  {
    if price <= 0 then
      Failure(InvalidPrice)
    else if liquidity <= 0 then
      Failure(InvalidLiquidity)
    else if zeroForOne then
      assert liquidity * Q96 / price >= 0;
      GetNextSqrtPriceFromAmount0RoundingUp(price, liquidity, amountIn, true)
    else
      Success(GetNextSqrtPriceFromAmount1RoundingDown(price, liquidity, amountIn, true))
  }

  function GetNextSqrtPriceFromOutput(price: int, liquidity: int, amountOut: int, zeroForOne: bool): Result<int, Error> {
    if price <= 0 then
      Failure(InvalidPrice)
    else if liquidity <= 0 then
      Failure(InvalidLiquidity)
    else if zeroForOne then
      Success(GetNextSqrtPriceFromAmount1RoundingDown(price, liquidity, amountOut, false))
    else
      GetNextSqrtPriceFromAmount0RoundingUp(price, liquidity, amountOut, false)
  }

  // ---------------------------------------------------------------------
  // What the two deltas mean
  // ---------------------------------------------------------------------

  /** The nested floors of the amount0 delta are one division by lo * hi. */
  lemma {:induction false} Amount0DownMeaning(lo: int, hi: int, liquidity: int, amount: int)
    requires 0 < lo <= hi
    ensures amount <= GetAmount0Delta(lo, hi, liquidity, false) <==> amount * (lo * hi) <= liquidity * Q96 * (hi - lo)
  {
    var x := liquidity * Q96 * (hi - lo);
    FloorGalois(x / hi, lo, amount);
    FloorGalois(x, hi, amount * lo);
    assert amount * lo * hi == amount * (lo * hi);
  }

  /** The nested ceilings of the amount0 delta are one division by lo * hi. */
  lemma {:induction false} Amount0UpMeaning(lo: int, hi: int, liquidity: int, amount: int)
    requires 0 < lo <= hi
    ensures GetAmount0Delta(lo, hi, liquidity, true) <= amount <==> liquidity * Q96 * (hi - lo) <= amount * (lo * hi)
  {
    var x := liquidity * Q96 * (hi - lo);
    CeilGalois(CeilDiv(x, hi), lo, amount);
    CeilGalois(x, hi, amount * lo);
    assert amount * lo * hi == amount * (lo * hi);
  }

  lemma {:induction false} Amount1DownMeaning(lo: int, hi: int, liquidity: int, amount: int)
    requires lo <= hi
    ensures amount <= GetAmount1Delta(lo, hi, liquidity, false) <==> amount * Q96 <= liquidity * (hi - lo)
  {
    FloorGalois(liquidity * (hi - lo), Q96, amount);
  }

  lemma {:induction false} Amount1UpMeaning(lo: int, hi: int, liquidity: int, amount: int)
    requires lo <= hi
    ensures GetAmount1Delta(lo, hi, liquidity, true) <= amount <==> liquidity * (hi - lo) <= amount * Q96
  {
    CeilGalois(liquidity * (hi - lo), Q96, amount);
  }

  // ---------------------------------------------------------------------
  // Next-price functions are adjoint to the deltas
  // ---------------------------------------------------------------------

  /** Removing token0 gives the least price at or above `price` whose rounded-down delta covers the amount;
      it fails exactly when no price covers it. */
  lemma {:induction false} RemoveToken0IsAdjoint(price: int, liquidity: int, amount: int, x: int)
    requires 0 < price <= x && liquidity >= 0 && amount >= 0
    ensures var r := GetNextSqrtPriceFromAmount0RoundingUp(price, liquidity, amount, false);
            && (amount <= GetAmount0Delta(price, x, liquidity, false) <==> r.Success? && r.value <= x)
            && (r.Success? ==> price <= r.value)
  {
    var n := liquidity * Q96;
    var covered := n * (x - price);
    var d := n - amount * price;
    Amount0DownMeaning(price, x, liquidity, amount);
    if amount == 0 {
      MulSign(x - price, n + 1);
    } else if d <= 0 {
      RemovingTooMuch(n, price, amount, x);
    } else {
      RemovingSome(n, price, amount, x, d);
    }
  }

  lemma {:induction false} RemovingTooMuch(n: int, price: int, amount: int, x: int)
    requires 0 < price <= x && n >= 0 && amount > 0 && n - amount * price <= 0
    ensures amount * (price * x) > n * (x - price)
  {
    ReorderRemoval(n, price, amount, x);
    NoPriceCovers(n, price, amount, x);
  }

  lemma {:induction false} RemovingSome(n: int, price: int, amount: int, x: int, d: int)
    requires 0 < price <= x && n >= 0 && amount > 0 && d == n - amount * price && d > 0
    ensures var r := MulDivRoundingUp(n, price, d);
            price <= r && (r <= x <==> amount * (price * x) <= n * (x - price))
  {
    var np := n * price;
    CeilGalois(np, d, x);
    CeilGalois(np, d, price - 1);
    RemovalRaises(n, price, amount);
    ReorderRemoval(n, price, amount, x);
    assert MulDivRoundingUp(n, price, d) == CeilDiv(np, d);
  }

  lemma {:induction false} ReorderRemoval(n: int, price: int, amount: int, x: int)
    ensures amount * (price * x) <= n * (x - price) <==> n * price <= x * (n - amount * price)
  {
    assert amount * (price * x) == x * (amount * price);
    assert n * (x - price) == x * n - n * price;
    assert x * (n - amount * price) == x * n - x * (amount * price);
  }

  lemma {:induction false} NoPriceCovers(n: int, price: int, amount: int, x: int)
    requires n >= 0 && price > 0 && amount > 0 && x > 0 && n <= amount * price
    ensures x * (n - amount * price) < n * price
  {
    if n == 0 {
      assert amount * price > 0;
      assert x * (amount * price) > 0;
    } else {
      assert n * price > 0;
      assert x * (amount * price - n) >= 0;
    }
  }

  lemma {:induction false} RemovalRaises(n: int, price: int, amount: int)
    requires n >= 0 && price > 0 && amount > 0 && n - amount * price > 0
    ensures (price - 1) * (n - amount * price) < n * price
  {
    var d := n - amount * price;
    assert amount * price > 0;
    MulLe(d, n, price);
    assert (price - 1) * d == d * price - d;
  }

  /** Adding token1 gives the greatest price at or above `price` whose rounded-up delta the amount pays for. */
  lemma {:induction false} AddToken1IsAdjoint(price: int, liquidity: int, amount: int, x: int)
    requires price <= x && liquidity > 0 && amount >= 0
    ensures var r := GetNextSqrtPriceFromAmount1RoundingDown(price, liquidity, amount, true);
            && (GetAmount1Delta(price, x, liquidity, true) <= amount <==> x <= r)
            && price <= r
  {
    Amount1UpMeaning(price, x, liquidity, amount);
    FloorGalois(amount * Q96, liquidity, x - price);
    FloorGalois(amount * Q96, liquidity, 0);
  }

  /** Removing token1 gives the greatest price at or below `price` whose rounded-down delta covers the amount,
      and 0 when the whole range down to 0 does not cover it. */
  lemma {:induction false} RemoveToken1IsAdjoint(price: int, liquidity: int, amount: int, x: int)
    requires 0 <= x <= price && liquidity > 0 && amount >= 0
    ensures var r := GetNextSqrtPriceFromAmount1RoundingDown(price, liquidity, amount, false);
            && (amount <= GetAmount1Delta(x, price, liquidity, false) <==> x <= r && amount * Q96 <= liquidity * price)
            && (amount * Q96 > liquidity * price ==> r == 0)
            && 0 <= r <= price
  {
    Amount1DownMeaning(x, price, liquidity, amount);
    CeilGalois(amount * Q96, liquidity, price - x);
    CeilGalois(amount * Q96, liquidity, price);
    CeilGalois(amount * Q96, liquidity, -1);
    Commutes(price - x, liquidity);
    Commutes(price, liquidity);
  }

  lemma {:induction false} Commutes(x: int, y: int)
    ensures x * y == y * x
  {
  }

  // ---------------------------------------------------------------------
  // Adding token0, as written
  // ---------------------------------------------------------------------

  /** What adding token0 is for: the least price whose rounded-up delta down from `price` the amount pays for. */
  ghost predicate IsLeastPaidPrice(price: int, liquidity: int, amount: int, x: int)
    requires price > 0
  {
    && 0 < x <= price
    && GetAmount0Delta(x, price, liquidity, true) <= amount
    && forall y :: 0 < y <= price && GetAmount0Delta(y, price, liquidity, true) <= amount ==> x <= y
  }

  lemma {:induction false} PaidPriceMeaning(price: int, liquidity: int, amount: int, x: int)
    requires 0 < x <= price
    ensures GetAmount0Delta(x, price, liquidity, true) <= amount
       <==> liquidity * Q96 * price <= x * (liquidity * Q96 + amount * price)
  {
    Amount0UpMeaning(x, price, liquidity, amount);
    ReorderAddition(liquidity * Q96, price, amount, x);
  }

  lemma {:induction false} ReorderAddition(n: int, price: int, amount: int, x: int)
    ensures n * (price - x) <= amount * (x * price) <==> n * price <= x * (n + amount * price)
  {
    assert n * (price - x) == n * price - x * n;
    assert amount * (x * price) == x * (amount * price);
    assert x * (n + amount * price) == x * n + x * (amount * price);
  }

  /** If the code's denominator reaches liquidity * 2^96, the amount already pays for the move down to price 1. */
  lemma {:induction false} LargeDenominatorPaysForEverything(price: int, liquidity: int, amount: int)
    requires price > 0 && liquidity > 0 && amount > 0
    requires liquidity * Q96 <= liquidity * Q96 / price + amount
    ensures GetAmount0Delta(1, price, liquidity, true) <= amount
  {
    var n := liquidity * Q96;
    PaidPriceMeaning(price, liquidity, amount, 1);
    MulLe(n, n / price + amount, price);
    FloorGalois(n, price, n / price);
    assert (n / price + amount) * price == n / price * price + amount * price;
  }

  /** The written denominator is liquidity/price + amount, so the price rises past `price` exactly when that sum
      is below liquidity * 2^96. */
  lemma {:induction false} AddToken0RisesExactlyWhen(price: int, liquidity: int, amount: int)
    requires price > 0 && liquidity > 0 && amount > 0
    ensures var n := liquidity * Q96;
            var r := GetNextSqrtPriceFromAmount0RoundingUp(price, liquidity, amount, true);
            && r.Success?
            && (r.value > price <==> n / price + amount < n)
  {
    var n := liquidity * Q96;
    var d := n / price + amount;
    CeilGalois(n * price, d, price);
    MulLe(n, d, price);
  }

  /** Where the price ends after adding token0 as written, risen or not: at the least price that covers liquidity * price when
      multiplied with liquidity/price + amount. */
  lemma {:induction false} AddToken0IsLeast(price: int, liquidity: int, amount: int, x: int)
    requires price > 0 && liquidity > 0 && amount > 0
    ensures var n := liquidity * Q96;
            var r := GetNextSqrtPriceFromAmount0RoundingUp(price, liquidity, amount, true);
            r.Success? && (r.value <= x <==> n * price <= x * (n / price + amount))
  {
    var n := liquidity * Q96;
    CeilGalois(n * price, n / price + amount, x);
  }

  /** Adding one unit of token0 at a price of 20 and liquidity 100 raises the price, where it could fall. */
  lemma {:induction false} AddingToken0CanRaiseThePrice()
    ensures GetNextSqrtPriceFromAmount0RoundingUp(20 * Q96, 100, 1, true).value > 20 * Q96
    ensures GetAmount0Delta(19 * Q96, 20 * Q96, 100, true) <= 1
  {
    ScaleIs2ToThe96();
    assert 100 * Q96 / (20 * Q96) == 5;
  }

  /** Adding token0 as written meets its purpose exactly when nothing is added, or the price is already 1,
      or the amount is so large that the price falls to 1. */
  lemma {:induction false} AddToken0MeetsPurposeExactlyWhen(price: int, liquidity: int, amount: int)
    requires price > 0 && liquidity > 0 && amount >= 0
    ensures var n := liquidity * Q96;
            assert n / price >= 0;
            var r := GetNextSqrtPriceFromAmount0RoundingUp(price, liquidity, amount, true);
            && r.Success?
            && (IsLeastPaidPrice(price, liquidity, amount, r.value)
                <==> amount == 0 || price == 1 || n * price <= n / price + amount)
  {
    var n := liquidity * Q96;
    assert n / price >= 0;
    var c := GetNextSqrtPriceFromAmount0RoundingUp(price, liquidity, amount, true).value;
    if amount == 0 {
      forall y | 0 < y <= price ensures GetAmount0Delta(y, price, liquidity, true) <= amount <==> price <= y {
        PaidPriceMeaning(price, liquidity, 0, y);
        MulLe(price, y, n);
      }
    } else {
      AddToken0ConditionIsNecessary(price, liquidity, amount, c);
      AddToken0ConditionIsSufficient(price, liquidity, amount, c);
    }
  }

  lemma {:induction false} AddToken0ConditionIsNecessary(price: int, liquidity: int, amount: int, c: int)
    requires price > 0 && liquidity > 0 && amount > 0
    requires liquidity * Q96 / price >= 0
    requires c == GetNextSqrtPriceFromAmount0RoundingUp(price, liquidity, amount, true).value
    ensures IsLeastPaidPrice(price, liquidity, amount, c)
            ==> liquidity * Q96 * price <= liquidity * Q96 / price + amount || price == 1
  {
    var n := liquidity * Q96;
    if IsLeastPaidPrice(price, liquidity, amount, c) {
      AddToken0RisesExactlyWhen(price, liquidity, amount);
      LargeDenominatorPaysForEverything(price, liquidity, amount);
      assert c <= 1;
      CeilGalois(n * price, n / price + amount, 1);
    }
  }

  lemma {:induction false} AddToken0ConditionIsSufficient(price: int, liquidity: int, amount: int, c: int)
    requires price > 0 && liquidity > 0 && amount > 0
    requires liquidity * Q96 / price >= 0
    requires c == GetNextSqrtPriceFromAmount0RoundingUp(price, liquidity, amount, true).value
    ensures liquidity * Q96 * price <= liquidity * Q96 / price + amount || price == 1
            ==> IsLeastPaidPrice(price, liquidity, amount, c)
  {
    assert liquidity * Q96 * price > 0;
    if liquidity * Q96 * price <= liquidity * Q96 / price + amount {
      LargeAmountReachesOne(price, liquidity, amount, c);
    } else if price == 1 {
      OneIsTheLeast(liquidity, amount, c);
    }
  }

  lemma {:induction false} LargeAmountReachesOne(price: int, liquidity: int, amount: int, c: int)
    requires price > 0 && liquidity > 0 && amount > 0
    requires 0 < liquidity * Q96 * price <= liquidity * Q96 / price + amount
    requires c == GetNextSqrtPriceFromAmount0RoundingUp(price, liquidity, amount, true).value
    ensures IsLeastPaidPrice(price, liquidity, amount, c)
  {
    var n := liquidity * Q96;
    CeilGalois(n * price, n / price + amount, 1);
    CeilGalois(n * price, n / price + amount, 0);
    MulLe(1, price, n);
    LargeDenominatorPaysForEverything(price, liquidity, amount);
  }

  lemma {:induction false} OneIsTheLeast(liquidity: int, amount: int, c: int)
    requires liquidity > 0 && amount > 0
    requires liquidity * Q96 >= 0
    requires c == GetNextSqrtPriceFromAmount0RoundingUp(1, liquidity, amount, true).value
    ensures IsLeastPaidPrice(1, liquidity, amount, c)
  {
    var n := liquidity * Q96;
    CeilGalois(n, n + amount, 1);
    CeilGalois(n, n + amount, 0);
    PaidPriceMeaning(1, liquidity, amount, 1);
  }
}
