/** Natural numbers as sets of bits. */
module Bits {
  function Pow2(n: nat): (p: nat)
    ensures p > 0
  {
    if n == 0 then 1 else 2 * Pow2(n - 1)
  }

  predicate Bit(x: nat, i: nat) {
    if i == 0 then x % 2 == 1 else Bit(x / 2, i - 1)
  }

  function And(x: nat, y: nat): nat {
    if x == 0 || y == 0 then 0
    else 2 * And(x / 2, y / 2) + if x % 2 == 1 && y % 2 == 1 then 1 else 0
  }

  function BitLen(x: nat): nat {
    if x == 0 then 0 else 1 + BitLen(x / 2)
  }

  lemma {:induction false} Pow2IsMonotone(k: nat, m: nat)
    requires k <= m
    ensures 0 < Pow2(k) <= Pow2(m)
  {
    if k < m {
      Pow2IsMonotone(k, m - 1);
    } else if k > 0 {
      Pow2IsMonotone(k - 1, m - 1);
    }
  }

  lemma {:induction false} ZeroHasNoBits(i: nat)
    ensures !Bit(0, i)
  {
    if i == 0 {
    } else {
      ZeroHasNoBits(i - 1);
    }
  }

  lemma {:induction false} BitOfAnd(x: nat, y: nat, i: nat)
    ensures Bit(And(x, y), i) <==> Bit(x, i) && Bit(y, i)
  {
    if x == 0 || y == 0 {
      ZeroHasNoBits(i);
    } else if i > 0 {
      BitOfAnd(x / 2, y / 2, i - 1);
      assert And(x, y) / 2 == And(x / 2, y / 2);
    }
  }

  /** 2^m - 2^k has exactly the bits k, ..., m - 1. */
  lemma {:induction false} BitOfRange(m: nat, k: nat, i: nat)
    requires k <= m
    ensures Pow2(k) <= Pow2(m)
    ensures Bit(Pow2(m) - Pow2(k), i) <==> k <= i < m
  {
    Pow2IsMonotone(k, m);
    if m == 0 {
      ZeroHasNoBits(i);
    } else if k > 0 {
      assert (Pow2(m) - Pow2(k)) / 2 == Pow2(m - 1) - Pow2(k - 1);
      if i > 0 {
        BitOfRange(m - 1, k - 1, i - 1);
      }
    } else if i > 0 {
      assert (Pow2(m) - 1) / 2 == Pow2(m - 1) - 1;
      BitOfRange(m - 1, 0, i - 1);
    }
  }

  /** The highest bit of a positive number is just below its length. */
  lemma {:induction false} HighestBit(x: nat, i: nat)
    requires x > 0
    ensures BitLen(x) > 0 && Bit(x, BitLen(x) - 1)
    ensures i >= BitLen(x) ==> !Bit(x, i)
  {
    if x == 1 {
      assert BitLen(1) == 1 + BitLen(0);
      if i > 0 {
        ZeroHasNoBits(i - 1);
      }
    } else if i > 0 {
      HighestBit(x / 2, i - 1);
    } else {
      HighestBit(x / 2, 0);
    }
  }
}

/** internal/pricing/uniswapv3/tick_bitmap.go: search for an initialized tick inside one 256-bit word. */
module TickBitmap {
  import opened Bits
  import opened Rounding
  import opened Wrappers

  // Go's integer operations and conversions.

  function TruncDiv(a: int, b: int): int
    requires b > 0
  {
    if a >= 0 then a / b else -(-a / b)
  }

  function TruncMod(a: int, b: int): int
    requires b > 0
  {
    a - TruncDiv(a, b) * b
  }

  function ToInt16(x: int): (r: int)
    ensures -0x8000 <= r < 0x8000 && (x - r) % 0x1_0000 == 0
  {
    if -0x8000 <= x < 0x8000 then x else (x + 0x8000) % 0x1_0000 - 0x8000
  }

  function ToInt32(x: int): (r: int)
    ensures -0x8000_0000 <= r < 0x8000_0000 && (x - r) % 0x1_0000_0000 == 0
  {
    if -0x8000_0000 <= x < 0x8000_0000 then x else (x + 0x8000_0000) % 0x1_0000_0000 - 0x8000_0000
  }

  function ToUint8(x: int): (r: nat)
    ensures r < 256 && (x - r) % 256 == 0
  {
    x % 256
  }

  const MAX_TICK := 887272
  const MAX_TICK_SPACING := 16384

  /** The ticks of section 6.1 of the Uniswap v3 Core whitepaper and the spacings that pools use. */
  ghost predicate TickDomain(tick: int, tickSpacing: int) {
    -MAX_TICK <= tick <= MAX_TICK && 0 < tickSpacing <= MAX_TICK_SPACING
  }

  /** Compression rounds towards negative infinity. */
  method Compress(tick: int, tickSpacing: int) returns (compressed: int)
    requires tickSpacing > 0
    ensures compressed == tick / tickSpacing
    ensures compressed * tickSpacing <= tick < (compressed + 1) * tickSpacing
  {
    compressed := TruncDiv(tick, tickSpacing);
    TruncVersusFloor(tick, tickSpacing);
    FloorBounds(tick, tickSpacing);
    if tick < 0 && TruncMod(tick, tickSpacing) != 0 {
      compressed := compressed - 1;
    }
  }

  lemma {:induction false} FloorBounds(tick: int, tickSpacing: int)
    requires tickSpacing > 0
    ensures tick / tickSpacing * tickSpacing <= tick < (tick / tickSpacing + 1) * tickSpacing
  {
  }

  lemma {:induction false} TruncVersusFloor(tick: int, tickSpacing: int)
    requires tickSpacing > 0
    ensures tick / tickSpacing
         == TruncDiv(tick, tickSpacing) - if tick < 0 && TruncMod(tick, tickSpacing) != 0 then 1 else 0
  {
    if tick < 0 {
      var q, r := -tick / tickSpacing, -tick % tickSpacing;
      assert -tick == q * tickSpacing + r;
      assert TruncMod(tick, tickSpacing) == tick - (-q) * tickSpacing == -r;
      if r == 0 {
        QuotientIsUnique(tick, tickSpacing, -q, 0);
      } else {
        QuotientIsUnique(tick, tickSpacing, -q - 1, tickSpacing - r);
      }
    }
  }

  lemma {:induction false} QuotientIsUnique(n: int, d: int, q: int, r: int)
    requires d > 0 && 0 <= r < d && n == q * d + r
    ensures n / d == q
  {
    FloorGalois(n, d, q);
    FloorGalois(n, d, q + 1);
    assert (q + 1) * d == q * d + d;
  }

  function MostSignificantBit(x: nat): nat {
    if x == 0 then 0 else ToUint8(BitLen(x) - 1)
  }

  method LeastSignificantBit(x: nat) returns (lsb: nat)
    ensures lsb < 256
    ensures forall i: nat :: i < 256 && Bit(x, i) ==> lsb <= i && Bit(x, lsb)
    ensures (forall i: nat :: i < 256 ==> !Bit(x, i)) ==> lsb == 0
  {
    if x == 0 {
      forall i: nat ensures !Bit(x, i) {
        ZeroHasNoBits(i);
      }
      return 0;
    }
    for i := 0 to 256
      invariant forall j: nat :: j < i ==> !Bit(x, j)
    {
      if Bit(x, i) {
        return i;
      }
    }
    return 0;
  }

  // ---------------------------------------------------------------------
  // The linear scans that the search replaces
  // ---------------------------------------------------------------------

  /** The first set bit at or below `from`. */
  ghost function ScanDown(bitmap: nat, from: int): Option<int>
    decreases from + 1
  {
    if from < 0 then None
    else if Bit(bitmap, from) then Some(from)
    else ScanDown(bitmap, from - 1)
  }

  /** The first set bit at or above `from`, in a word of `wordBits` bits. */
  ghost function ScanUp(bitmap: nat, from: nat, wordBits: nat): Option<int>
    decreases wordBits - from
  {
    if from >= wordBits then None
    else if Bit(bitmap, from) then Some(from)
    else ScanUp(bitmap, from + 1, wordBits)
  }

  lemma {:induction false} ScanDownFinds(bitmap: nat, from: int)
    ensures match ScanDown(bitmap, from)
            case Some(p) => 0 <= p <= from && Bit(bitmap, p) && forall q :: p < q <= from ==> !Bit(bitmap, q)
            case None => forall q :: 0 <= q <= from ==> !Bit(bitmap, q)
    decreases from + 1
  {
    if from < 0 || Bit(bitmap, from) {
    } else {
      ScanDownFinds(bitmap, from - 1);
    }
  }

  lemma {:induction false} ScanUpFinds(bitmap: nat, from: nat, wordBits: nat)
    ensures match ScanUp(bitmap, from, wordBits)
            case Some(p) => from <= p < wordBits && Bit(bitmap, p) && forall q :: from <= q < p ==> !Bit(bitmap, q)
            case None => forall q :: from <= q < wordBits ==> !Bit(bitmap, q)
    decreases wordBits - from
  {
    if from >= wordBits || Bit(bitmap, from) {
    } else {
      ScanUpFinds(bitmap, from + 1, wordBits);
    }
  }

  /** A position in units of the tick spacing, and whether it was found initialized. */
  datatype Found = Found(position: int, initialized: bool)

  /** Scanning the word of a position downwards from it; a miss reports the position before the word. */
  ghost function ScanLeft(bitmap: nat, compressed: int): Found {
    var first := compressed / 256 * 256;
    match ScanDown(bitmap, compressed % 256)
    case Some(p) => Found(first + p, true)
    case None => Found(first - 1, false)
  }

  /** Scanning the word of a position upwards from it; a miss reports the first position of the next word. */
  ghost function ScanRight(bitmap: nat, compressed: int): Found {
    var first := compressed / 256 * 256;
    match ScanUp(bitmap, compressed % 256, 256)
    case Some(p) => Found(first + p, true)
    case None => Found(first + 256, false)
  }

  /** What the search does: it scans, except that leftwards from the last position of a word it always misses. */
  ghost function Search(bitmap: nat, compressed: int, lte: bool): Found {
    if !lte then ScanRight(bitmap, compressed + 1)
    else if compressed % 256 != 255 then ScanLeft(bitmap, compressed)
    else Found(compressed / 256 * 256 - 1, false)
  }

  method NextInitializedTickWithinOneWord(tick: int, tickSpacing: int, lte: bool, tickBitmap: nat)
    returns (next: int, initialized: bool)
    requires tickSpacing > 0
    ensures var found := Search(tickBitmap, tick / tickSpacing, lte);
            && initialized == found.initialized
            && (TickDomain(tick, tickSpacing) ==> next == found.position * tickSpacing)
  {
    var compressed := Compress(tick, tickSpacing);
    ghost var inDomain := TickDomain(tick, tickSpacing);
    if inDomain {
      DomainOfPosition(tick, tickSpacing);
    }
    if lte {
      next, initialized := SearchLeftOf(compressed, tickSpacing, tickBitmap, inDomain);
    } else {
      next, initialized := SearchRightOf(compressed, tickSpacing, tickBitmap, inDomain);
    }
  }

  /** The branch for ticks at or below the start. */
  method SearchLeftOf(compressed: int, tickSpacing: int, tickBitmap: nat, ghost inDomain: bool)
    returns (next: int, initialized: bool)
    requires inDomain ==> PositionDomain(compressed, tickSpacing)
    ensures var found := Search(tickBitmap, compressed, true);
            && initialized == found.initialized
            && (inDomain ==> next == found.position * tickSpacing)
  {
    ghost var position := Search(tickBitmap, compressed, true).position;
    var wordPos, bitPos := WordAndBitPosition(compressed);
    var masked := MaskAtOrBelow(tickBitmap, bitPos);
    initialized := masked != 0;
    if initialized {
      var msb := MostSignificantBit(masked);
      next := TickAt(wordPos, msb, tickSpacing, compressed, position, inDomain);
    } else {
      next := TickAt(wordPos, 0, tickSpacing, compressed, position + 1, inDomain);
      next := StepBack(next, tickSpacing, compressed, position, inDomain);
    }
  }

  /** The bits of the word at or below a bit position. */
  method MaskAtOrBelow(tickBitmap: nat, bitPos: nat) returns (masked: nat)
    requires bitPos < 256
    ensures if bitPos == 255 then masked == 0
            else if masked == 0 then ScanDown(tickBitmap, bitPos) == None
            else 0 <= BitLen(masked) - 1 <= bitPos && ScanDown(tickBitmap, bitPos) == Some(BitLen(masked) - 1)
  {
    // The 8-bit sum wraps to 0 when bitPos is 255: the mask is then empty.
    var shift := ToUint8(bitPos + 1);
    var mask := Pow2(shift) - 1;
    masked := And(tickBitmap, mask);
    if bitPos != 255 {
      assert shift == bitPos + 1;
      MaskedLeft(tickBitmap, bitPos, mask);
    } else {
      assert shift == 0 && mask == 0;
    }
  }

  /** The branch for ticks above the start. */
  method SearchRightOf(compressed: int, tickSpacing: int, tickBitmap: nat, ghost inDomain: bool)
    returns (next: int, initialized: bool)
    requires inDomain ==> PositionDomain(compressed, tickSpacing)
    ensures var found := Search(tickBitmap, compressed, false);
            && initialized == found.initialized
            && (inDomain ==> next == found.position * tickSpacing)
  {
    ghost var position := Search(tickBitmap, compressed, false).position;
    var wordPos, bitPos := WordAndBitPosition(compressed + 1);
    var wordBits := 256;
    Pow2IsMonotone(bitPos, wordBits);
    var mask := Pow2(wordBits) - Pow2(bitPos);
    var masked := And(tickBitmap, mask);
    MaskedRight(tickBitmap, bitPos, wordBits, mask);
    initialized := masked != 0;
    if initialized {
      var lsb := LeastSignificantBit(masked);
      LowestMaskedBit(tickBitmap, bitPos, wordBits, masked, lsb);
      next := TickAt(wordPos, lsb, tickSpacing, compressed, position, inDomain);
    } else {
      next := TickAt(ToInt16(wordPos + 1), 0, tickSpacing, compressed, position, inDomain);
    }
  }

  /** The int32 tick of a bit of a word; inside the domain it does not wrap around. */
  method TickAt(wordPos: int, bit: int, tickSpacing: int, ghost compressed: int, ghost position: int, ghost inDomain: bool)
    returns (tick: int)
    requires inDomain ==> PositionDomain(compressed, tickSpacing) && compressed - 512 <= position <= compressed + 512
    requires inDomain ==> position == wordPos * 256 + bit
    ensures inDomain ==> tick == position * tickSpacing
  {
    tick := ToInt32((wordPos * 256 + bit) * tickSpacing);
    if inDomain {
      NoWrapAround(compressed, tickSpacing, position);
    }
  }

  /** One spacing below a tick; inside the domain it does not wrap around. */
  method StepBack(tick: int, tickSpacing: int, ghost compressed: int, ghost position: int, ghost inDomain: bool)
    returns (previous: int)
    requires inDomain ==> PositionDomain(compressed, tickSpacing) && compressed - 512 <= position <= compressed + 512
    requires inDomain ==> tick == (position + 1) * tickSpacing
    ensures inDomain ==> previous == position * tickSpacing
  {
    previous := ToInt32(tick - tickSpacing);
    if inDomain {
      NoWrapAround(compressed, tickSpacing, position);
      assert (position + 1) * tickSpacing == position * tickSpacing + tickSpacing;
    }
  }

  /** The int16 word index and the uint8 bit index of a position. */
  method WordAndBitPosition(compressed: int) returns (wordPos: int, bitPos: nat)
    ensures -MAX_TICK <= compressed <= MAX_TICK + 1 ==> wordPos == compressed / 256
    ensures bitPos == compressed % 256
  {
    wordPos := ToInt16(compressed / 256);
    bitPos := ToUint8(TruncMod(compressed, 256));
  }

  /** Positions of ticks in the domain. */
  ghost predicate PositionDomain(compressed: int, tickSpacing: int) {
    && 0 < tickSpacing <= MAX_TICK_SPACING
    && -MAX_TICK <= compressed <= MAX_TICK
    && -MAX_TICK - tickSpacing <= compressed * tickSpacing <= MAX_TICK
  }

  lemma {:induction false} DomainOfPosition(tick: int, tickSpacing: int)
    requires TickDomain(tick, tickSpacing)
    ensures PositionDomain(tick / tickSpacing, tickSpacing)
  {
    var c := tick / tickSpacing;
    FloorGalois(tick, tickSpacing, -MAX_TICK);
    FloorGalois(tick, tickSpacing, MAX_TICK + 1);
    FloorBounds(tick, tickSpacing);
    assert (c + 1) * tickSpacing == c * tickSpacing + tickSpacing;
  }

  lemma {:induction false} NoWrapAround(compressed: int, tickSpacing: int, position: int)
    requires PositionDomain(compressed, tickSpacing)
    requires compressed - 512 <= position <= compressed + 512
    ensures ToInt32(position * tickSpacing) == position * tickSpacing
  {
    var offset := position - compressed;
    Scale(offset, 512, tickSpacing);
    Scale(-512, offset, tickSpacing);
    assert (compressed + offset) * tickSpacing == compressed * tickSpacing + offset * tickSpacing;
  }

  lemma {:induction false} Scale(x: int, y: int, d: int)
    requires x <= y && d >= 0
    ensures x * d <= y * d
  {
    assert (y - x) * d >= 0;
  }

  /** The left mask keeps the bits up to the position. */
  lemma {:induction false} MaskedLeft(bitmap: nat, bitPos: nat, mask: nat)
    requires mask == Pow2(bitPos + 1) - 1
    ensures var masked := And(bitmap, mask);
            if masked == 0 then ScanDown(bitmap, bitPos) == None
            else 0 <= BitLen(masked) - 1 <= bitPos && ScanDown(bitmap, bitPos) == Some(BitLen(masked) - 1)
  {
    var masked := And(bitmap, mask);
    forall i: nat ensures Bit(masked, i) <==> Bit(bitmap, i) && i <= bitPos {
      BitOfRange(bitPos + 1, 0, i);
      BitOfAnd(bitmap, mask, i);
    }
    ScanDownFinds(bitmap, bitPos);
    if masked == 0 {
      forall i: nat ensures !Bit(masked, i) {
        ZeroHasNoBits(i);
      }
    } else {
      var m := BitLen(masked) - 1;
      HighestBit(masked, 0);
      forall i: nat | m < i ensures !Bit(masked, i) {
        HighestBit(masked, i);
      }
      assert Bit(masked, m);
    }
  }

  /** The right mask of a word of `wordBits` bits keeps the bits from the position on. */
  lemma {:induction false} MaskedRight(bitmap: nat, bitPos: nat, wordBits: nat, mask: nat)
    requires bitPos < wordBits && mask == Pow2(wordBits) - Pow2(bitPos)
    ensures forall i: nat :: Bit(And(bitmap, mask), i) <==> Bit(bitmap, i) && bitPos <= i < wordBits
    ensures And(bitmap, mask) == 0 <==> ScanUp(bitmap, bitPos, wordBits) == None
  {
    var masked := And(bitmap, mask);
    forall i: nat ensures Bit(masked, i) <==> Bit(bitmap, i) && bitPos <= i < wordBits {
      BitOfRange(wordBits, bitPos, i);
      BitOfAnd(bitmap, mask, i);
    }
    ScanUpFinds(bitmap, bitPos, wordBits);
    if masked == 0 {
      forall i: nat ensures !Bit(masked, i) {
        ZeroHasNoBits(i);
      }
    } else {
      HighestBit(masked, 0);
      assert Bit(masked, BitLen(masked) - 1);
    }
  }

  /** The lowest bit that the right mask keeps is where the upward scan stops. */
  lemma {:induction false} LowestMaskedBit(bitmap: nat, bitPos: nat, wordBits: nat, masked: nat, lsb: nat)
    requires forall i: nat :: Bit(masked, i) <==> Bit(bitmap, i) && bitPos <= i < wordBits
    requires ScanUp(bitmap, bitPos, wordBits).Some?
    requires forall i: nat :: i < wordBits && Bit(masked, i) ==> lsb <= i && Bit(masked, lsb)
    ensures ScanUp(bitmap, bitPos, wordBits) == Some(lsb)
  {
    ScanUpFinds(bitmap, bitPos, wordBits);
    var p := ScanUp(bitmap, bitPos, wordBits).value;
    assert Bit(masked, p);
  }

  // ---------------------------------------------------------------------
  // One search
  // ---------------------------------------------------------------------

  ghost predicate EmptyWord(bitmap: nat) {
    forall i :: 0 <= i < 256 ==> !Bit(bitmap, i)
  }

  /** Leftwards the search is the scan exactly when it does not start at the last position of its word,
      or the word is empty. */
  lemma {:induction false} LeftSearchIsScanExactlyWhen(bitmap: nat, compressed: int)
    ensures Search(bitmap, compressed, true) == ScanLeft(bitmap, compressed)
       <==> compressed % 256 != 255 || EmptyWord(bitmap)
  {
    WholeWordScan(bitmap);
  }

  lemma {:induction false} WholeWordScan(bitmap: nat)
    ensures ScanDown(bitmap, 255) == None <==> EmptyWord(bitmap)
  {
    ScanDownFinds(bitmap, 255);
  }

  ghost predicate Initialized(bitmaps: int -> nat, position: int) {
    Bit(bitmaps(position / 256), position % 256)
  }

  lemma {:induction false} WordAndBit(q: int, word: int)
    ensures word * 256 <= q < word * 256 + 256 <==> q / 256 == word
    ensures q / 256 == word ==> q % 256 == q - word * 256
  {
  }

  /** A leftward search that does not start at the last position of its word finds the nearest initialized
      position at or below its start, within the word. */
  lemma {:induction false} LeftSearchFindsNearest(bitmaps: int -> nat, compressed: int)
    requires compressed % 256 != 255
    ensures var word := compressed / 256;
            var found := Search(bitmaps(word), compressed, true);
            && found.position <= compressed
            && (if found.initialized then found.position / 256 == word && Initialized(bitmaps, found.position)
                else found.position == word * 256 - 1)
            && forall q :: found.position < q <= compressed ==> !Initialized(bitmaps, q)
  {
    var word := compressed / 256;
    var found := Search(bitmaps(word), compressed, true);
    ScanDownFinds(bitmaps(word), compressed % 256);
    forall q | found.position < q <= compressed ensures !Initialized(bitmaps, q) {
      WordAndBit(q, word);
    }
    WordAndBit(found.position, word);
  }

  /** A rightward search finds the nearest initialized position after its start, within the word. */
  lemma {:induction false} RightSearchFindsNearest(bitmaps: int -> nat, compressed: int)
    ensures var word := (compressed + 1) / 256;
            var found := Search(bitmaps(word), compressed, false);
            && compressed < found.position
            && (if found.initialized then found.position / 256 == word && Initialized(bitmaps, found.position)
                else found.position == (word + 1) * 256)
            && forall q :: compressed < q < found.position ==> !Initialized(bitmaps, q)
  {
    var word := (compressed + 1) / 256;
    var found := Search(bitmaps(word), compressed, false);
    ScanUpFinds(bitmaps(word), (compressed + 1) % 256, 256);
    forall q | compressed < q < found.position ensures !Initialized(bitmaps, q) {
      WordAndBit(q, word);
    }
    WordAndBit(found.position, word);
  }

  // ---------------------------------------------------------------------
  // Walking: each miss continues from the tick it returned
  // ---------------------------------------------------------------------

  /** A returned tick compresses to the position it stands for. */
  lemma {:induction false} ReturnedTickCompresses(position: int, tickSpacing: int)
    requires tickSpacing > 0
    ensures position * tickSpacing / tickSpacing == position
  {
    QuotientIsUnique(position * tickSpacing, tickSpacing, position, 0);
  }

  /** Up to `steps` further searches after the first one, each in the bitmap of the word it looks at. */
  ghost function Walk(bitmaps: int -> nat, compressed: int, lte: bool, steps: nat): Found
    decreases steps
  {
    var word := if lte then compressed / 256 else (compressed + 1) / 256;
    var found := Search(bitmaps(word), compressed, lte);
    if found.initialized || steps == 0 then found
    else Walk(bitmaps, found.position, lte, steps - 1)
  }

  /** A leftward walk is blind beyond its first word: every miss returns a last position, where the next search
      misses whatever its word holds. */
  lemma {:induction false} LeftWalkNeverLeavesItsWord(bitmaps: int -> nat, compressed: int, steps: nat)
    ensures var word := compressed / 256;
            var found := Search(bitmaps(word), compressed, true);
            Walk(bitmaps, compressed, true, steps)
              == if found.initialized then found else Found((word - steps) * 256 - 1, false)
    decreases steps
  {
    var word := compressed / 256;
    var found := Search(bitmaps(word), compressed, true);
    if found.initialized || steps == 0 {
    } else {
      WordAndBit(found.position, word - 1);
      LeftWalkNeverLeavesItsWord(bitmaps, found.position, steps - 1);
    }
  }

  /** What a rightward walk can see: the position after its start, and every position that is not the first of a word. */
  predicate Visible(compressed: int, q: int) {
    q == compressed + 1 || q % 256 != 0
  }

  /** A rightward walk stops at the first visible initialized position: after a miss the next search starts behind the first
      position of its word. */
  lemma {:induction false} RightWalkFindsTheFirstVisible(bitmaps: int -> nat, compressed: int, steps: nat)
    ensures var found := Walk(bitmaps, compressed, false, steps);
            && compressed < found.position
            && (if found.initialized then Initialized(bitmaps, found.position) && Visible(compressed, found.position)
                else found.position == ((compressed + 1) / 256 + 1 + steps) * 256)
            && found.position <= ((compressed + 1) / 256 + 1 + steps) * 256
            && forall q :: compressed < q < found.position && Visible(compressed, q) ==> !Initialized(bitmaps, q)
    decreases steps
  {
    var word := (compressed + 1) / 256;
    var found := Search(bitmaps(word), compressed, false);
    RightSearchFindsNearest(bitmaps, compressed);
    WordAndBit(compressed + 1, word);
    WordAndBit(found.position, word);
    if found.initialized || steps == 0 {
    } else {
      var next := (word + 1) * 256;
      RightWalkFindsTheFirstVisible(bitmaps, next, steps - 1);
      WordAndBit(next + 1, word + 1);
      WordAndBit(next, word + 1);
    }
  }

  /** Within the words it looks at, a rightward walk finds the nearest initialized position exactly when it can see it. */
  lemma {:induction false} RightWalkFindsNearestExactlyWhen(bitmaps: int -> nat, compressed: int, steps: nat, nearest: int)
    requires compressed < nearest < ((compressed + 1) / 256 + 1 + steps) * 256 && Initialized(bitmaps, nearest)
    requires forall q :: compressed < q < nearest ==> !Initialized(bitmaps, q)
    ensures Walk(bitmaps, compressed, false, steps) == Found(nearest, true) <==> Visible(compressed, nearest)
  {
    RightWalkFindsTheFirstVisible(bitmaps, compressed, steps);
  }

  /** The same walk on ticks: every search but the first is given the tick that the one before returned. */
  ghost function TickWalk(bitmaps: int -> nat, tick: int, tickSpacing: int, lte: bool, steps: nat): Found
    requires tickSpacing > 0
    decreases steps
  {
    var compressed := tick / tickSpacing;
    var found := Search(bitmaps(if lte then compressed / 256 else (compressed + 1) / 256), compressed, lte);
    if found.initialized || steps == 0 then found
    else TickWalk(bitmaps, found.position * tickSpacing, tickSpacing, lte, steps - 1)
  }

  lemma {:induction false} TickWalkIsWalk(bitmaps: int -> nat, tick: int, tickSpacing: int, lte: bool, steps: nat)
    requires tickSpacing > 0
    ensures TickWalk(bitmaps, tick, tickSpacing, lte, steps) == Walk(bitmaps, tick / tickSpacing, lte, steps)
    decreases steps
  {
    var compressed := tick / tickSpacing;
    var found := Search(bitmaps(if lte then compressed / 256 else (compressed + 1) / 256), compressed, lte);
    if found.initialized || steps == 0 {
    } else {
      ReturnedTickCompresses(found.position, tickSpacing);
      TickWalkIsWalk(bitmaps, found.position * tickSpacing, tickSpacing, lte, steps - 1);
    }
  }

  // ---------------------------------------------------------------------
  // Inputs at which the search is not a scan
  // ---------------------------------------------------------------------

  lemma {:induction false} BitOfPow2(k: nat)
    ensures Bit(Pow2(k), k)
  {
    if k == 0 {
    } else {
      BitOfPow2(k - 1);
      assert Pow2(k) / 2 == Pow2(k - 1);
    }
  }

  /** With only its last position initialized, a word searched to the left from that very position reports a miss. */
  lemma {:induction false} ASearchThatIsBlind(last: nat)
    requires last == 255
    ensures Bit(Pow2(last), 255)
    ensures Search(Pow2(last), 255, true) == Found(-1, false) && ScanLeft(Pow2(last), 255) == Found(255, true)
  {
    BitOfPow2(last);
  }

  /** With only position 256 initialized, a walk to the right from 0 passes over it and ends at 512. */
  lemma {:induction false} AWalkThatSkips(bitmaps: int -> nat)
    requires forall word :: bitmaps(word) == if word == 1 then 1 else 0
    ensures Initialized(bitmaps, 256) && Walk(bitmaps, 0, false, 1) == Found(512, false)
  {
    RightWalkFindsTheFirstVisible(bitmaps, 0, 1);
    var found := Walk(bitmaps, 0, false, 1);
    if found.initialized {
      NothingVisibleInOne(found.position % 256);
      ZeroHasNoBits(found.position % 256);
    }
  }

  lemma {:induction false} NothingVisibleInOne(i: nat)
    ensures Bit(1, i) <==> i == 0
  {
    if i > 0 {
      ZeroHasNoBits(i - 1);
    }
  }
}
