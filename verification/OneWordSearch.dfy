/** The one-word searches of the v3 and v4 readers, which isolate the neighbouring bit
    with masks instead of shifts. */
module OneWordSearch {
  import opened WordMath
  import opened TickMath
  import opened TickSearch

  // ---------- v4: crates/uniswap-storage/src/v4/pool_manager/tick_bitmap.rs ----------

  function MostSignificantBit(x: U256): nat
    requires x > 0
  {
    Wrap8(255 - Wrap8(LeadingZeros(x)))
  }

  function LeastSignificantBit(x: U256): nat
    requires x > 0
  {
    Wrap8(TrailingZeros(x))
  }

  function V4MaskLte(bit: nat): U256
    requires bit < 256
  {
    ShrShrinks(WORD_SIZE - 1, 255 - bit);
    Shr(WORD_SIZE - 1, 255 - bit)
  }

  function MaskGte(bit: nat): U256
    requires bit < 256
  {
    BitNot((Shl(1, bit) - 1) % WORD_SIZE)
  }

  function Masked(word: U256, mask: U256): U256 {
    BitAndBound(word, mask);
    BitAnd(word, mask)
  }

  function V4NextWithinWord(bm: Bitmap, s: I24, tick: I24, lte: bool): (I24, bool)
    requires s > 0
  {
    if lte then
      var compressed := CompressTick(tick, s);
      var (word, bit) := WordAndBit(compressed);
      var masked := Masked(bm(word), V4MaskLte(bit));
      if masked != 0 then (Mul24(Sub24(compressed, Wrap8(bit - MostSignificantBit(masked))), s), true)
      else (Mul24(Sub24(compressed, bit), s), false)
    else
      var compressed := Add24(CompressTick(tick, s), 1);
      var (word, bit) := WordAndBit(compressed);
      var masked := Masked(bm(word), MaskGte(bit));
      if masked != 0 then (Mul24(Add24(compressed, LeastSignificantBit(masked) - bit), s), true)
      else (Mul24(Add24(compressed, Wrap8(255 - bit)), s), false)
  }

  // ---------- v3: crates/uniswap-storage/src/v3/{pool,utils}.rs ----------

  function V3Compress(tick: I24, s: I24): I24
    requires s > 0
  {
    var quotient := Wrap24(TruncDiv(tick, s));
    if tick < 0 && TruncRem(tick, s) != 0 then Sub24(quotient, 1) else quotient
  }

  function V3WordAndBit(c: int): (int, nat) {
    (Wrap16(c / 256), Wrap8(TruncRem(c, 256)))
  }

  function V3MaskLte(bit: nat): U256
    requires bit < 256
  {
    ((Shl(1, bit) - 1) % WORD_SIZE + Shl(1, bit)) % WORD_SIZE
  }

  function V3NextWithinWord(bm: Bitmap, s: I24, tick: I24, lte: bool): (I24, bool)
    requires s > 0
  {
    var compressed := V3Compress(tick, s);
    if lte then
      var (word, bit) := V3WordAndBit(compressed);
      var masked := Masked(bm(word), V3MaskLte(bit));
      if masked != 0 then (Mul24(Sub24(compressed, Wrap8(bit - MostSignificantBit(masked))), s), true)
      else (Mul24(Sub24(compressed, bit), s), false)
    else
      var (word, bit) := V3WordAndBit(Add24(compressed, 1));
      var masked := Masked(bm(word), MaskGte(bit));
      if masked != 0 then (Mul24(Add24(Add24(compressed, 1), LeastSignificantBit(masked) - bit), s), true)
      else (Mul24(Add24(Add24(compressed, 1), Wrap8(255 - bit)), s), false)
  }

  // ---------- masks ----------

  lemma {:induction false} ShrShrinks(w: nat, b: nat)
    ensures Shr(w, b) <= w
  {
    if b > 0 {
      ShrShrinks(w / 2, b - 1);
    }
  }

  lemma ShlOne(bit: nat)
    requires bit < 256
    ensures Shl(1, bit) == Pow2(bit) && 2 * Pow2(bit) <= WORD_SIZE
  {
    hide Pow2;
    hide Scale;
    ScaleIsMul(1, bit);
    Pow2InWord(bit);
  }

  /** Both lower masks keep exactly the bits up to `bit`. */
  lemma LowerMaskBits(bit: nat, i: nat)
    requires bit < 256
    ensures Bit(V4MaskLte(bit), i) == (i <= bit)
    ensures Bit(V3MaskLte(bit), i) == (i <= bit)
  {
    hide Pow2;
    hide Shl;
    var n := WORD_BITS;
    WordSizeIsPow2(n);
    BitShr(WORD_SIZE - 1, 255 - bit, i);
    OnesBit(n, i + (255 - bit));
    ShlOne(bit);
    Pow2InWord(bit);
    assert V3MaskLte(bit) == Pow2(bit + 1) - 1;
    OnesBit(bit + 1, i);
  }

  /** The upper mask keeps exactly the bits from `bit` up. */
  lemma UpperMaskBits(bit: nat, i: nat)
    requires bit < 256
    ensures Bit(MaskGte(bit), i) == (bit <= i < 256)
  {
    hide Pow2;
    hide Shl;
    var n := WORD_BITS;
    WordSizeIsPow2(n);
    ShlOne(bit);
    Pow2InWord(bit);
    HighOnesBit(n, bit, i);
  }

  /** Under a lower mask, the highest surviving bit is what the shift search finds. */
  lemma HighestUnderMask(word: U256, mask: U256, bit: nat)
    requires bit < 256 && forall i: nat :: Bit(mask, i) == (i <= bit)
    ensures (Masked(word, mask) != 0) == NextBitPosLte(word, bit).0
    ensures Masked(word, mask) != 0 ==> MostSignificantBit(Masked(word, mask)) == NextBitPosLte(word, bit).1
  {
    hide NextBitPosLte;
    NextBitPosLteSpec(word, bit);
    var pos := NextBitPosLte(word, bit).1;
    var masked := Masked(word, mask);
    forall i: nat
      ensures Bit(masked, i) == (i <= bit && Bit(word, i))
    {
      BitAndBit(word, mask, i);
    }
    if masked != 0 {
      HighestBitSpec(masked);
      assert Bit(masked, HighestBit(masked));
      assert Bit(masked, pos);
    } else {
      ZeroBits(pos);
      assert !Bit(masked, pos);
    }
  }

  /** Under an upper mask, the lowest surviving bit is what the shift search finds. */
  lemma LowestUnderMask(word: U256, mask: U256, bit: nat)
    requires bit < 256 && forall i: nat :: Bit(mask, i) == (bit <= i < 256)
    ensures (Masked(word, mask) != 0) == NextBitPosGte(word, bit).0
    ensures Masked(word, mask) != 0 ==> LeastSignificantBit(Masked(word, mask)) == NextBitPosGte(word, bit).1
  {
    hide NextBitPosGte;
    NextBitPosGteSpec(word, bit);
    var pos := NextBitPosGte(word, bit).1;
    var masked := Masked(word, mask);
    forall i: nat
      ensures Bit(masked, i) == (bit <= i < 256 && Bit(word, i))
    {
      BitAndBit(word, mask, i);
    }
    if masked != 0 {
      LowestBitSpec(masked);
      assert Bit(masked, LowestBit(masked));
      assert Bit(masked, pos);
    } else {
      ZeroBits(pos);
      assert !Bit(masked, pos);
    }
  }

  // ---------- agreement ----------

  /** Truncating the quotient and correcting it when the remainder is nonzero compresses a
      tick as v4 does. */
  lemma V3CompressAgrees(tick: I24, s: I24)
    requires s > 0
    ensures V3Compress(tick, s) == CompressTick(tick, s)
  {
    hide Wrap24;
    hide TruncDiv;
    hide TruncRem;
    TruncDivBound(tick, s);
    WrapId(TruncDiv(tick, s));
    WrapId(TruncDiv(tick, s) - 0);
    TruncRemSign(tick, s);
  }

  /** The cast of a truncating remainder names the same word and bit as v4's mask. */
  lemma V3PositionAgrees(c: I24)
    ensures V3WordAndBit(c) == WordAndBit(c)
  {
    if c < 0 {
      var m: int := Abs(c);
      assert TruncRem(c, 256) == -(m % 256);
    }
  }

  lemma TruncRemSign(tick: int, s: int)
    requires s > 0
    ensures tick >= 0 ==> TruncRem(tick, s) >= 0
    ensures tick < 0 ==> TruncRem(tick, s) <= 0
  {
    var n := Abs(tick);
    assert n == n / s * s + n % s;
    if tick < 0 {
      assert -(n / s) * s == -(n / s * s);
    }
  }

  /** Stepping from a compressed tick to another bit of its word gives that bit's tick. */
  lemma StepWithinWord(c: I24, pos: nat, s: I24)
    requires pos < 256
    ensures var (word, bit) := WordAndBit(c);
            && Add24(c, pos - bit) == c / 256 * 256 + pos
            && Sub24(c, bit - pos) == c / 256 * 256 + pos
            && Mul24(c / 256 * 256 + pos, s) == TickFromWordAndBit(word, pos, s)
  {
    hide Wrap24;
    WordAndBitSplit(c);
    WrapId(c / 256 * 256);
    WrapId(c / 256 * 256 + pos);
  }

  /** The v4 mask search at or below finds what the shift search at or below finds. */
  lemma V4LteIsProbe(bm: Bitmap, s: I24, tick: I24)
    requires s > 0
    ensures V4NextWithinWord(bm, s, tick, true) == (ProbeLe(bm, s, tick).1, ProbeLe(bm, s, tick).0)
  {
    hide CompressTick;
    hide Masked;
    hide NextBitPosLte;
    hide MostSignificantBit;
    hide V4MaskLte;
    hide Wrap24;
    hide Mul24;
    hide Sub24;
    hide Add24;
    hide TickFromWordAndBit;
    var c := CompressTick(tick, s);
    var word, bit := bm(c / 256), c % 256;
    forall i: nat
      ensures Bit(V4MaskLte(bit), i) == (i <= bit)
    {
      LowerMaskBits(bit, i);
    }
    HighestUnderMask(word, V4MaskLte(bit), bit);
    hide Bit;
    NextBitPosLteSpec(word, bit);
    StepWithinWord(c, NextBitPosLte(word, bit).1, s);
  }

  /** The v4 mask search above finds what the shift search above finds. */
  lemma V4GtIsProbe(bm: Bitmap, s: I24, tick: I24)
    requires s > 0
    ensures V4NextWithinWord(bm, s, tick, false) == (ProbeGt(bm, s, tick).1, ProbeGt(bm, s, tick).0)
  {
    hide CompressTick;
    hide Masked;
    hide NextBitPosGte;
    hide LeastSignificantBit;
    hide MaskGte;
    hide Wrap24;
    hide TickFromWordAndBit;
    var c := Add24(CompressTick(tick, s), 1);
    var word, bit := bm(c / 256), c % 256;
    forall i: nat
      ensures Bit(MaskGte(bit), i) == (bit <= i < 256)
    {
      UpperMaskBits(bit, i);
    }
    LowestUnderMask(word, MaskGte(bit), bit);
    NextBitPosGteSpec(word, bit);
    StepWithinWord(c, NextBitPosGte(word, bit).1, s);
  }

  /** The v3 and v4 mask searches agree on every bitmap, tick and positive spacing. */
  lemma V3AgreesWithV4(bm: Bitmap, s: I24, tick: I24, lte: bool)
    requires s > 0
    ensures V3NextWithinWord(bm, s, tick, lte) == V4NextWithinWord(bm, s, tick, lte)
  {
    hide CompressTick;
    hide V3Compress;
    hide V3WordAndBit;
    hide Masked;
    hide MaskGte;
    hide V4MaskLte;
    hide V3MaskLte;
    hide MostSignificantBit;
    hide LeastSignificantBit;
    hide Wrap24;
    V3CompressAgrees(tick, s);
    var c := CompressTick(tick, s);
    V3PositionAgrees(c);
    V3PositionAgrees(Add24(c, 1));
    if lte {
      var bit := c % 256;
      forall i: nat
        ensures Bit(V4MaskLte(bit), i) == Bit(V3MaskLte(bit), i)
      {
        LowerMaskBits(bit, i);
      }
      SameBits(V4MaskLte(bit), V3MaskLte(bit));
    }
  }

  lemma {:induction false} SameBits(a: nat, b: nat)
    requires forall i: nat :: Bit(a, i) == Bit(b, i)
    ensures a == b
  {
    if a > 0 || b > 0 {
      assert Bit(a, 0) == Bit(b, 0);
      forall i: nat
        ensures Bit(a / 2, i) == Bit(b / 2, i)
      {
        assert Bit(a, i + 1) == Bit(b, i + 1);
      }
      if a == 0 {
        NoBitsIsZero(b / 2) by {
          forall i: nat
            ensures !Bit(b / 2, i)
          {
            ZeroBits(i);
          }
        }
      } else {
        SameBits(a / 2, b / 2);
      }
    }
  }

  /** Away from the bounds, all the one-word searches give the same tick and the same flag. */
  lemma OneWordSearchesAgree(bm: Bitmap, s: I24, tick: I24, fuel: nat)
    requires Spacing(s) && fuel > 0
    ensures !AtUpperBound(tick, s) ==>
              var (found, next) := NextTickGt(bm, s, tick, false);
              V4NextWithinWord(bm, s, tick, false) == V3NextWithinWord(bm, s, tick, false) == (next, found)
    ensures !AtLowerBound(tick, s) ==>
              NextTickLe(bm, s, tick, false, fuel).Some? &&
              var (found, next) := NextTickLe(bm, s, tick, false, fuel).value;
              V4NextWithinWord(bm, s, tick, true) == V3NextWithinWord(bm, s, tick, true) == (next, found)
  {
    hide ProbeGt;
    hide ProbeLe;
    hide V3NextWithinWord;
    hide V4NextWithinWord;
    V4GtIsProbe(bm, s, tick);
    V4LteIsProbe(bm, s, tick);
    V3AgreesWithV4(bm, s, tick, true);
    V3AgreesWithV4(bm, s, tick, false);
  }
}
