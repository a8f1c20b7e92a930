/** Splitting a price range: how the deltas of consecutive sub-ranges add up to the delta of the whole range. */
module RangeSplitting {
  import opened SqrtPriceMath

  datatype Token = Token0 | Token1

  function Delta(token: Token, lo: int, hi: int, liquidity: int, roundUp: bool): int
    requires 0 < lo && 0 < hi
  {
    match token
    case Token0 => GetAmount0Delta(lo, hi, liquidity, roundUp)
    case Token1 => GetAmount1Delta(lo, hi, liquidity, roundUp)
  }

  /** The amounts of section 6.2.3 of the Uniswap v3 Core whitepaper, before rounding. */
  ghost function ExactDelta(token: Token, lo: int, hi: int, liquidity: int): real
    requires 0 < lo && 0 < hi
  {
    match token
    case Token0 => (liquidity * Q96) as real / lo as real - (liquidity * Q96) as real / hi as real
    case Token1 => (liquidity as real * hi as real - liquidity as real * lo as real) / Q96 as real
  }

  lemma {:induction false} DivLe(a: real, n: real, d: real)
    requires d > 0.0
    ensures a <= n / d <==> a * d <= n
    ensures n / d <= a <==> n <= a * d
  {
    var q := n / d;
    assert q * d == n;
    assert (a - q) * d == a * d - n;
  }

  lemma {:induction false} ExactIsOneFraction(lo: real, hi: real, n: real)
    requires 0.0 < lo && 0.0 < hi && 0.0 < lo * hi
    ensures n / lo - n / hi == n * (hi - lo) / (lo * hi)
  {
    var a, b := n / lo, n / hi;
    assert a * lo == n && b * hi == n;
    assert (a - b) * (lo * hi) == n * hi - n * lo by {
      assert a * (lo * hi) == n * hi;
      assert b * (lo * hi) == n * lo;
    }
    assert n * (hi - lo) == n * hi - n * lo;
    DivLe(a - b, n * (hi - lo), lo * hi);
  }

  /** Every delta is its exact amount rounded down or up to the next integer. */
  lemma {:induction false} DeltaRoundsExact(token: Token, lo: int, hi: int, liquidity: int)
    requires 0 < lo <= hi
    ensures var e := ExactDelta(token, lo, hi, liquidity);
            var down := Delta(token, lo, hi, liquidity, false);
            var up := Delta(token, lo, hi, liquidity, true);
            && down as real <= e < (down + 1) as real
            && (up - 1) as real < e <= up as real
  {
    var e := ExactDelta(token, lo, hi, liquidity);
    var down := Delta(token, lo, hi, liquidity, false);
    var up := Delta(token, lo, hi, liquidity, true);
    DeltaVersusExact(token, lo, hi, liquidity, down);
    DeltaVersusExact(token, lo, hi, liquidity, down + 1);
    DeltaVersusExact(token, lo, hi, liquidity, up);
    DeltaVersusExact(token, lo, hi, liquidity, up - 1);
  }

  lemma {:induction false} DeltaVersusExact(token: Token, lo: int, hi: int, liquidity: int, a: int)
    requires 0 < lo <= hi
    ensures a <= Delta(token, lo, hi, liquidity, false) <==> a as real <= ExactDelta(token, lo, hi, liquidity)
    ensures Delta(token, lo, hi, liquidity, true) <= a <==> ExactDelta(token, lo, hi, liquidity) <= a as real
  {
    match token
    case Token0 => Delta0VersusExact(lo, hi, liquidity, a);
    case Token1 => Delta1VersusExact(lo, hi, liquidity, a);
  }

  lemma {:induction false} Delta0VersusExact(lo: int, hi: int, liquidity: int, a: int)
    requires 0 < lo <= hi
    ensures a <= GetAmount0Delta(lo, hi, liquidity, false) <==> a as real <= ExactDelta(Token0, lo, hi, liquidity)
    ensures GetAmount0Delta(lo, hi, liquidity, true) <= a <==> ExactDelta(Token0, lo, hi, liquidity) <= a as real
  {
    var e := ExactDelta(Token0, lo, hi, liquidity);
    FractionVersusExact0(lo, hi, liquidity, a, e);
    Amount0DownMeaning(lo, hi, liquidity, a);
    Amount0UpMeaning(lo, hi, liquidity, a);
  }

  lemma {:induction false} FractionVersusExact0(lo: int, hi: int, liquidity: int, a: int, e: real)
    requires 0 < lo <= hi
    requires e == ExactDelta(Token0, lo, hi, liquidity)
    ensures a * (lo * hi) <= liquidity * Q96 * (hi - lo) <==> a as real <= e
    ensures liquidity * Q96 * (hi - lo) <= a * (lo * hi) <==> e <= a as real
  {
    RealProduct(lo, hi);
    CompareWithFraction(a, liquidity * Q96, hi - lo, lo * hi);
    ExactDelta0IsOneFraction(lo, hi, liquidity);
  }

  lemma {:induction false} ExactDelta0IsOneFraction(lo: int, hi: int, liquidity: int)
    requires 0 < lo && 0 < hi && 0 < lo * hi
    ensures ExactDelta(Token0, lo, hi, liquidity)
         == (liquidity * Q96) as real * (hi - lo) as real / (lo * hi) as real
  {
    RealProduct(lo, hi);
    ExactIsOneFraction(lo as real, hi as real, (liquidity * Q96) as real);
  }

  lemma {:induction false} Delta1VersusExact(lo: int, hi: int, liquidity: int, a: int)
    requires 0 < lo <= hi
    ensures a <= GetAmount1Delta(lo, hi, liquidity, false) <==> a as real <= ExactDelta(Token1, lo, hi, liquidity)
    ensures GetAmount1Delta(lo, hi, liquidity, true) <= a <==> ExactDelta(Token1, lo, hi, liquidity) <= a as real
  {
    Amount1DownMeaning(lo, hi, liquidity, a);
    Amount1UpMeaning(lo, hi, liquidity, a);
    var l, d := liquidity as real, (hi - lo) as real;
    assert l * (hi as real) - l * (lo as real) == l * d;
    CompareWithFraction(a, liquidity, hi - lo, Q96);
  }

  lemma {:induction false} RealProduct(x: int, y: int)
    requires x > 0 && y > 0
    ensures x * y > 0 && (x * y) as real == x as real * y as real
  {
  }

  lemma {:induction false} CompareWithFraction(a: int, n: int, m: int, d: int)
    requires d > 0
    ensures a * d <= n * m <==> a as real <= n as real * m as real / d as real
    ensures n * m <= a * d <==> n as real * m as real / d as real <= a as real
  {
    DivLe(a as real, n as real * m as real, d as real);
    assert a as real * d as real == (a * d) as real;
    assert n as real * m as real == (n * m) as real;
  }

  lemma {:induction false} ExactDeltaIsAdditive(token: Token, lo: int, mid: int, hi: int, liquidity: int)
    requires 0 < lo && 0 < mid && 0 < hi
    ensures ExactDelta(token, lo, mid, liquidity) + ExactDelta(token, mid, hi, liquidity) == ExactDelta(token, lo, hi, liquidity)
  {
  }

  ghost predicate IsChain(prices: seq<int>) {
    && |prices| >= 2
    && prices[0] > 0
    && forall i, j :: 0 <= i < j < |prices| ==> prices[i] <= prices[j]
  }

  function SumOfDeltas(token: Token, prices: seq<int>, liquidity: int, roundUp: bool): int
    requires forall i :: 0 <= i < |prices| ==> prices[i] > 0
  {
    if |prices| < 2 then 0
    else Delta(token, prices[0], prices[1], liquidity, roundUp) + SumOfDeltas(token, prices[1..], liquidity, roundUp)
  }

  /** With k intermediate prices, rounding down loses at most k units and rounding up adds at most k units. */
  lemma {:induction false} SplittingARange(token: Token, prices: seq<int>, liquidity: int)
    requires IsChain(prices)
    ensures var lo, hi, k := prices[0], prices[|prices| - 1], |prices| - 2;
            && Delta(token, lo, hi, liquidity, false) - k <= SumOfDeltas(token, prices, liquidity, false)
                 <= Delta(token, lo, hi, liquidity, false)
            && Delta(token, lo, hi, liquidity, true) <= SumOfDeltas(token, prices, liquidity, true)
                 <= Delta(token, lo, hi, liquidity, true) + k
  {
    var lo, mid, hi := prices[0], prices[1], prices[|prices| - 1];
    if |prices| == 2 {
      assert SumOfDeltas(token, prices[1..], liquidity, false) == 0;
      assert SumOfDeltas(token, prices[1..], liquidity, true) == 0;
    } else {
      SplittingARange(token, prices[1..], liquidity);
      DeltaRoundsExact(token, lo, mid, liquidity);
      DeltaRoundsExact(token, mid, hi, liquidity);
      DeltaRoundsExact(token, lo, hi, liquidity);
      ExactDeltaIsAdditive(token, lo, mid, hi, liquidity);
    }
  }
}
