/** The v4 tick-bitmap searches, and the ordered set of initialised ticks they refine. */
module TickSearch {
  import opened Wrappers
  import opened WordMath
  import opened TickMath

  /** Stored bitmap words by word position. */
  type Bitmap = int -> U256

  /** Largest spacing for which no 24-bit product of the searches wraps. */
  const MAX_SPACING: int := 0x8000

  predicate Spacing(s: int) {
    0 < s <= MAX_SPACING
  }

  function Wrap8(x: int): nat {
    x % 256
  }

  // ---------- the set of initialised ticks ----------

  /** The bit of compressed tick `c` is set. */
  predicate SetAt(bm: Bitmap, c: int) {
    Bit(bm(c / 256), c % 256)
  }

  predicate IsInitialized(bm: Bitmap, s: int, t: int)
    requires s > 0
  {
    t % s == 0 && SetAt(bm, t / s)
  }

  // ---------- the code ----------

  /** Least set bit at or above `bit`, or 255. */
  function NextBitPosGte(word: U256, bit: nat): (bool, nat)
    requires bit < 256
  {
    var shifted := Shr(word, bit);
    var relative := if shifted == 0 then 256 else TrailingZeros(shifted);
    if relative != 256 then (true, Wrap8(Wrap8(relative) + bit)) else (false, 255)
  }

  /** Greatest set bit at or below `bit`, or 0. */
  function NextBitPosLte(word: U256, bit: nat): (bool, nat)
    requires bit < 256
  {
    var offset := 255 - bit;
    var shifted := Shl(word, offset);
    var relative := if shifted == 0 then 256 else 255 - LeadingZeros(shifted);
    if relative != 256 then
      (true, if Wrap8(relative) < offset then 0 else Wrap8(relative) - offset)
    else (false, 0)
  }

  function TickInitialized(bm: Bitmap, s: I24, tick: I24): bool
    requires s > 0
  {
    var (word, bit) := WordAndBit(CompressTick(tick, s));
    BitAnd(bm(word), Shl(1, bit)) != 0
  }

  predicate AtUpperBound(tick: int, s: int) {
    tick + Abs(s) >= MAX_TICK
  }

  predicate AtLowerBound(tick: int, s: int) {
    tick - Abs(s) <= MIN_TICK
  }

  function ProbeGt(bm: Bitmap, s: I24, tick: I24): (bool, I24)
    requires s > 0
  {
    var (word, bit) := WordAndBit(Add24(CompressTick(tick, s), 1));
    var (found, pos) := NextBitPosGte(bm(word), bit);
    (found, TickFromWordAndBit(word, pos, s))
  }

  function ProbeLt(bm: Bitmap, s: I24, tick: I24): (bool, I24)
    requires s > 0
  {
    var (word, bit) := WordAndBit(Add24(CompressTick(tick, s), -1));
    var (found, pos) := NextBitPosLte(bm(word), bit);
    (found, TickFromWordAndBit(word, pos, s))
  }

  function ProbeLe(bm: Bitmap, s: I24, tick: I24): (bool, I24)
    requires s > 0
  {
    var (word, bit) := WordAndBit(CompressTick(tick, s));
    var (found, pos) := NextBitPosLte(bm(word), bit);
    (found, TickFromWordAndBit(word, pos, s))
  }

  function NextTickGt(bm: Bitmap, s: I24, tick: I24, initializedOnly: bool): (bool, I24)
    requires Spacing(s)
    decreases if tick < MAX_TICK then MAX_TICK - tick else 0
  {
    if AtUpperBound(tick, s) then (false, tick)
    else
      ProbeGtAscends(bm, s, tick);
      hide ProbeGt;
      var (found, next) := ProbeGt(bm, s, tick);
      if !initializedOnly || found || Sub24(MAX_TICK, next) <= s then (found, next)
      else NextTickGt(bm, s, next, initializedOnly)
  }

  function NextTickLt(bm: Bitmap, s: I24, tick: I24, initializedOnly: bool): (bool, I24)
    requires Spacing(s)
    decreases if tick > MIN_TICK then tick - MIN_TICK else 0
  {
    if AtLowerBound(tick, s) then (false, tick)
    else
      ProbeLtDescends(bm, s, tick);
      hide ProbeLt;
      var (found, next) := ProbeLt(bm, s, tick);
      if !initializedOnly || found || Sub24(next, MIN_TICK) <= s then (found, next)
      else NextTickLt(bm, s, next, initializedOnly)
  }

  /** The code has no measure for this recursion, so calls beyond `fuel` are cut off. */
  function NextTickLe(bm: Bitmap, s: I24, tick: I24, initializedOnly: bool, fuel: nat): Option<(bool, I24)>
    requires s > 0
    decreases fuel
  {
    if fuel == 0 then None
    else if AtLowerBound(tick, s) then Some((false, tick))
    else
      hide ProbeLe;
      var (found, next) := ProbeLe(bm, s, tick);
      if !initializedOnly || found || Sub24(next, MIN_TICK) <= s then Some((found, next))
      else NextTickLe(bm, s, next, initializedOnly, fuel - 1)
  }

  // ---------- one word ----------

  lemma NextBitPosGteSpec(word: U256, bit: nat)
    requires bit < 256
    ensures var (found, pos) := NextBitPosGte(word, bit);
            && bit <= pos < 256
            && found == Bit(word, pos)
            && (!found ==> pos == 255)
            && forall i :: bit <= i < pos ==> !Bit(word, i)
  {
    hide Bit;
    hide Shr;
    if Shr(word, bit) == 0 {
      forall i | bit <= i < 256
        ensures !Bit(word, i)
      {
        BitShr(word, bit, i - bit);
        ZeroBits(i - bit);
      }
    } else {
      LowestShifted(word, bit);
    }
  }

  lemma LowestShifted(word: U256, bit: nat)
    requires Shr(word, bit) != 0
    ensures var low := LowestBit(Shr(word, bit));
            && low + bit < 256
            && Bit(word, low + bit)
            && forall i :: bit <= i < low + bit ==> !Bit(word, i)
  {
    hide Bit;
    hide Shr;
    var shifted := Shr(word, bit);
    var low := LowestBit(shifted);
    LowestBitSpec(shifted);
    BitShr(word, bit, low);
    WordSizeIsPow2(WORD_BITS);
    BitInWord(word, WORD_BITS, low + bit);
    forall i | bit <= i < low + bit
      ensures !Bit(word, i)
    {
      BitShr(word, bit, i - bit);
      assert !Bit(shifted, i - bit);
    }
  }

  lemma NextBitPosLteSpec(word: U256, bit: nat)
    requires bit < 256
    ensures var (found, pos) := NextBitPosLte(word, bit);
            && 0 <= pos <= bit
            && found == Bit(word, pos)
            && (!found ==> pos == 0)
            && forall i :: pos < i <= bit ==> !Bit(word, i)
  {
    hide Bit;
    hide Shl;
    var offset := 255 - bit;
    var shifted := Shl(word, offset);
    if shifted == 0 {
      forall i | 0 <= i <= bit
        ensures !Bit(word, i)
      {
        BitShl(word, offset, i + offset);
        ZeroBits(i + offset);
      }
    } else {
      var high := HighestBit(shifted);
      HighestBitSpec(shifted);
      BitShl(word, offset, high);
      forall i | high - offset < i <= bit
        ensures !Bit(word, i)
      {
        BitShl(word, offset, i + offset);
        assert !Bit(shifted, i + offset);
      }
    }
  }

  /** Testing a bit through a one-bit mask reads that bit. */
  lemma MaskTest(word: U256, bit: nat)
    requires bit < 256
    ensures (BitAnd(word, Shl(1, bit)) != 0) == Bit(word, bit)
  {
    hide Shl;
    var mask := Shl(1, bit);
    forall i: nat
      ensures Bit(BitAnd(word, mask), i) == (i == bit && Bit(word, i))
    {
      BitAndBit(word, mask, i);
      BitShl(1, bit, i);
      if bit <= i {
        OneBit(i - bit);
      }
    }
    if BitAnd(word, mask) != 0 {
      HighestBitSpec(BitAnd(word, mask));
    } else {
      ZeroBits(bit);
    }
  }

  /** Testing by mask reads the stored set; a tick off the spacing grid is answered for
      the grid point below it. */
  lemma TickInitializedSpec(bm: Bitmap, s: I24, tick: I24)
    requires s > 0
    ensures TickInitialized(bm, s, tick) == SetAt(bm, tick / s)
  {
    hide CompressTick;
    hide BitAnd;
    CompressIsFloor(tick, s);
    MaskTest(bm(tick / s / 256), tick / s % 256);
  }

  lemma OneBit(i: nat)
    ensures Bit(1, i) == (i == 0)
  {
    if i > 0 {
      ZeroBits(i - 1);
    }
  }

  // ---------- no 24-bit overflow ----------

  /** Between a compressed tick whose tick is in range and the upper edge of its word,
      no product with the spacing leaves 24 bits. */
  lemma UpwardFits(c: int, k: int, s: int)
    requires Spacing(s) && I24_MIN <= c * s < MAX_TICK
    requires c <= k <= c / 256 * 256 + 255
    ensures I24_MIN <= k * s <= I24_MAX
  {
    MulMono(c, k, s);
    if c < 256 {
      MulMono(k, 255, s);
    } else {
      MulMono(256, c, s);
      MulMono(k, c + 255, s);
      assert (c + 255) * s == c * s + 255 * s;
    }
  }

  lemma DownwardFits(c: int, k: int, s: int)
    requires Spacing(s) && MIN_TICK - s <= c * s <= I24_MAX
    requires c / 256 * 256 <= k <= c
    ensures I24_MIN <= k * s <= I24_MAX
  {
    MulMono(k, c, s);
    if c >= -256 {
      MulMono(-256, k, s);
    } else {
      MulMono(c, -257, s);
      MulMono(c - 255, k, s);
      assert (c - 255) * s == c * s - 255 * s;
    }
  }

  /** Every 24-bit value an upward probe can form is exact: the shifted compressed tick, the
      word's first tick, any bit of the word from the position up, its product with the
      spacing, and that product's distance to the top. */
  lemma GtNeverWraps(s: I24, tick: I24, pos: nat)
    requires Spacing(s) && MIN_TICK <= tick && !AtUpperBound(tick, s)
    requires (tick / s + 1) % 256 <= pos < 256
    ensures var c := tick / s + 1;
            var k := c / 256 * 256 + pos;
            && Add24(CompressTick(tick, s), 1) == c
            && Mul24(c / 256, 256) == c / 256 * 256
            && TickFromWordAndBit(c / 256, pos, s) == k * s > tick
            && Sub24(MAX_TICK, k * s) == MAX_TICK - k * s
  {
    hide CompressTick;
    hide Wrap24;
    CompressIsFloor(tick, s);
    FloorMultiple(tick, s);
    GridFits(tick, s);
    var c := tick / s + 1;
    var k := c / 256 * 256 + pos;
    UpwardFits(c, k, s);
    MulMono(c, k, s);
    TickFromSplit(c / 256, pos, s);
    WrapId(c);
    WrapId(c / 256 * 256);
    WrapId(MAX_TICK - k * s);
  }

  /** The same for a downward probe. */
  lemma LtNeverWraps(s: I24, tick: I24, pos: nat)
    requires Spacing(s) && tick <= MAX_TICK && !AtLowerBound(tick, s)
    requires pos <= (tick / s - 1) % 256
    ensures var c := tick / s - 1;
            var k := c / 256 * 256 + pos;
            && Add24(CompressTick(tick, s), -1) == c
            && Mul24(c / 256, 256) == c / 256 * 256
            && TickFromWordAndBit(c / 256, pos, s) == k * s < tick
            && Sub24(k * s, MIN_TICK) == k * s - MIN_TICK
  {
    hide CompressTick;
    hide Wrap24;
    CompressIsFloor(tick, s);
    FloorMultiple(tick, s);
    GridFits(tick, s);
    var c := tick / s - 1;
    var k := c / 256 * 256 + pos;
    DownwardFits(c, k, s);
    MulMono(k, c, s);
    TickFromSplit(c / 256, pos, s);
    WrapId(c);
    WrapId(c / 256 * 256);
    WrapId(k * s - MIN_TICK);
  }

  /** Past the spacing bound the searches do wrap: from tick 0 over an empty word, the downward
      probe's edge, below 24 bits, comes back as another tick; for the least such spacing, as one
      above 0. */
  lemma SpacingBoundIsTight(bm: Bitmap, s: I24)
    requires MAX_SPACING < s && bm(-1) == 0
    ensures -256 * s < I24_MIN
    ensures ProbeLt(bm, s, 0) == (false, Wrap24(-256 * s))
    ensures s == MAX_SPACING + 1 ==> ProbeLt(bm, s, 0).1 > 0
  {
    hide ProbeLt;
    hide Wrap24;
    EmptyWordBelowZero(bm, s);
    LeastWrappedEdge();
  }

  lemma LeastWrappedEdge()
    ensures Wrap24(-256 * (MAX_SPACING + 1)) == 0x7f_ff00
  {
  }

  lemma EmptyWordBelowZero(bm: Bitmap, s: I24)
    requires s > 0 && bm(-1) == 0
    ensures ProbeLt(bm, s, 0) == (false, Wrap24(-256 * s))
  {
    WrapId(-1);
    WrapId(-256);
    hide Wrap24;
    hide CompressTick;
    hide NextBitPosLte;
    CompressIsFloor(0, s);
    DivModUnique(0, s, 0, 0);
    NextBitPosLteSpec(0, 255);
    ZeroBits(NextBitPosLte(0, 255).1);
    hide Bit;
    assert WordAndBit(Add24(0, -1)) == (-1, 255);
    assert TickFromWordAndBit(-1, 0, s) == Wrap24(-256 * s);
  }

  lemma GridPoint(k: int, s: int)
    requires s > 0
    ensures k * s / s == k && k * s % s == 0
  {
    DivModUnique(k * s, s, k, 0);
  }

  /** Recombining a word and a bit is exact when the product fits. */
  lemma TickFromSplit(word: int, bit: nat, s: I24)
    requires -0x8000 <= word < 0x8000 && bit < 256
    requires I24_MIN <= (word * 256 + bit) * s <= I24_MAX
    ensures TickFromWordAndBit(word, bit, s) == (word * 256 + bit) * s
  {
    hide Wrap24;
    WrapId(word * 256);
    WrapId(word * 256 + bit);
    WrapId((word * 256 + bit) * s);
  }

  lemma GridFits(tick: I24, s: I24)
    requires s > 0
    ensures I24_MIN <= tick / s <= I24_MAX
    ensures !AtUpperBound(tick, s) ==> tick / s + 1 <= I24_MAX
    ensures !AtLowerBound(tick, s) ==> I24_MIN <= tick / s - 1
  {
    FloorMultiple(tick, s);
    if tick >= 0 {
      DivShrinks(tick, s);
    } else {
      var q := tick / s;
      NonPositiveProduct(s - 1, q + 1);
      assert (q + 1) * s == q + 1 + (s - 1) * (q + 1);
    }
  }

  lemma NonPositiveProduct(a: int, b: int)
    requires a >= 0 && b <= 0
    ensures a * b <= 0
  {
  }

  /** The bits of one word at or above a compressed tick, in compressed ticks. */
  lemma UpwardBits(bm: Bitmap, c: int)
    ensures var (found, pos) := NextBitPosGte(bm(c / 256), c % 256);
            var k := c / 256 * 256 + pos;
            && pos < 256
            && c <= k <= c / 256 * 256 + 255
            && found == SetAt(bm, k)
            && (!found ==> k % 256 == 255)
            && forall j :: c <= j < k ==> !SetAt(bm, j)
  {
    hide NextBitPosGte;
    NextBitPosGteSpec(bm(c / 256), c % 256);
    var k := c / 256 * 256 + NextBitPosGte(bm(c / 256), c % 256).1;
    forall j | c <= j < k
      ensures !SetAt(bm, j)
    {
      assert j / 256 == c / 256 && j % 256 == j - c / 256 * 256;
    }
  }

  /** The bits of one word at or below a compressed tick, in compressed ticks. */
  lemma DownwardBits(bm: Bitmap, c: int)
    ensures var (found, pos) := NextBitPosLte(bm(c / 256), c % 256);
            var k := c / 256 * 256 + pos;
            && pos < 256
            && c / 256 * 256 <= k <= c
            && found == SetAt(bm, k)
            && (!found ==> k % 256 == 0)
            && forall j :: k < j <= c ==> !SetAt(bm, j)
  {
    hide NextBitPosLte;
    NextBitPosLteSpec(bm(c / 256), c % 256);
    var k := c / 256 * 256 + NextBitPosLte(bm(c / 256), c % 256).1;
    forall j | k < j <= c
      ensures !SetAt(bm, j)
    {
      assert j / 256 == c / 256 && j % 256 == j - c / 256 * 256;
    }
  }

  lemma UpwardProbe(bm: Bitmap, s: I24, c: I24)
    requires Spacing(s) && I24_MIN <= c * s < MAX_TICK
    ensures var (word, bit) := WordAndBit(c);
            var pos := NextBitPosGte(bm(word), bit).1;
            && word == c / 256 && bit == c % 256
            && TickFromWordAndBit(word, pos, s) == (c / 256 * 256 + pos) * s
  {
    hide TickFromWordAndBit;
    hide NextBitPosGte;
    hide SetAt;
    UpwardBits(bm, c);
    var pos := NextBitPosGte(bm(c / 256), c % 256).1;
    UpwardFits(c, c / 256 * 256 + pos, s);
    TickFromSplit(c / 256, pos, s);
  }

  lemma DownwardProbe(bm: Bitmap, s: I24, c: I24)
    requires Spacing(s) && MIN_TICK - s <= c * s <= I24_MAX
    ensures var (word, bit) := WordAndBit(c);
            var pos := NextBitPosLte(bm(word), bit).1;
            && word == c / 256 && bit == c % 256
            && TickFromWordAndBit(word, pos, s) == (c / 256 * 256 + pos) * s
  {
    hide TickFromWordAndBit;
    hide NextBitPosLte;
    hide SetAt;
    DownwardBits(bm, c);
    var pos := NextBitPosLte(bm(c / 256), c % 256).1;
    DownwardFits(c, c / 256 * 256 + pos, s);
    TickFromSplit(c / 256, pos, s);
  }

  /** What one probe above a tick finds. */
  lemma ProbeGtSpec(bm: Bitmap, s: I24, tick: I24) returns (k: int)
    requires Spacing(s) && !AtUpperBound(tick, s)
    ensures ProbeGt(bm, s, tick).1 == k * s > tick
    ensures k * s / s == k && k * s % s == 0
    ensures tick / s < k <= (tick / s + 1) / 256 * 256 + 255
    ensures ProbeGt(bm, s, tick).0 == SetAt(bm, k)
    ensures !SetAt(bm, k) ==> k % 256 == 255
    ensures forall j :: tick / s < j < k ==> !SetAt(bm, j)
  {
    hide TickFromWordAndBit;
    hide NextBitPosGte;
    hide CompressTick;
    hide Wrap24;
    CompressIsFloor(tick, s);
    FloorMultiple(tick, s);
    GridFits(tick, s);
    var c := tick / s + 1;
    WrapId(c);
    UpwardProbe(bm, s, c);
    UpwardBits(bm, c);
    hide SetAt;
    k := c / 256 * 256 + NextBitPosGte(bm(c / 256), c % 256).1;
    GridPoint(k, s);
    MulMono(c, k, s);
  }

  /** What one probe strictly below the grid point of a tick finds. */
  lemma ProbeLtSpec(bm: Bitmap, s: I24, tick: I24) returns (k: int)
    requires Spacing(s) && !AtLowerBound(tick, s)
    ensures ProbeLt(bm, s, tick).1 == k * s < tick / s * s <= tick
    ensures k * s / s == k && k * s % s == 0
    ensures (tick / s - 1) / 256 * 256 <= k < tick / s
    ensures ProbeLt(bm, s, tick).0 == SetAt(bm, k)
    ensures !SetAt(bm, k) ==> k % 256 == 0
    ensures forall j :: k < j < tick / s ==> !SetAt(bm, j)
  {
    hide TickFromWordAndBit;
    hide NextBitPosLte;
    hide CompressTick;
    hide Wrap24;
    CompressIsFloor(tick, s);
    FloorMultiple(tick, s);
    GridFits(tick, s);
    var c := tick / s - 1;
    WrapId(c);
    DownwardProbe(bm, s, c);
    DownwardBits(bm, c);
    hide SetAt;
    k := c / 256 * 256 + NextBitPosLte(bm(c / 256), c % 256).1;
    GridPoint(k, s);
    MulMono(k, c, s);
  }

  /** What one probe at or below a tick finds. */
  lemma ProbeLeSpec(bm: Bitmap, s: I24, tick: I24) returns (k: int)
    requires Spacing(s) && !AtLowerBound(tick, s)
    ensures ProbeLe(bm, s, tick).1 == k * s <= tick / s * s <= tick
    ensures k * s / s == k && k * s % s == 0
    ensures tick / s / 256 * 256 <= k <= tick / s
    ensures ProbeLe(bm, s, tick).0 == SetAt(bm, k)
    ensures !SetAt(bm, k) ==> k % 256 == 0
    ensures forall j :: k < j <= tick / s ==> !SetAt(bm, j)
  {
    hide TickFromWordAndBit;
    hide NextBitPosLte;
    hide CompressTick;
    hide Wrap24;
    CompressIsFloor(tick, s);
    FloorMultiple(tick, s);
    GridFits(tick, s);
    var c := tick / s;
    DownwardProbe(bm, s, c);
    DownwardBits(bm, c);
    hide SetAt;
    k := c / 256 * 256 + NextBitPosLte(bm(c / 256), c % 256).1;
    GridPoint(k, s);
    MulMono(k, c, s);
  }

  lemma ProbeGtAscends(bm: Bitmap, s: I24, tick: I24)
    requires Spacing(s) && !AtUpperBound(tick, s)
    ensures ProbeGt(bm, s, tick).1 > tick
  {
    hide ProbeGt;
    var k := ProbeGtSpec(bm, s, tick);
  }

  lemma ProbeLtDescends(bm: Bitmap, s: I24, tick: I24)
    requires Spacing(s) && !AtLowerBound(tick, s)
    ensures ProbeLt(bm, s, tick).1 < tick
  {
    hide ProbeLt;
    var k := ProbeLtSpec(bm, s, tick);
  }
}
