/** Signed 24-bit tick arithmetic: compression, normalisation, and the split of a
    compressed tick into a bitmap word and a bit. */
module TickMath {
  import opened WordMath

  const MIN_TICK: int := -887272
  const MAX_TICK: int := 887272

  const I24_MIN: int := -0x80_0000
  const I24_MAX: int := 0x7f_ffff

  type I24 = x: int | I24_MIN <= x <= I24_MAX

  /** The result of a 24-bit operator whose exact value is `x`: release builds wrap. */
  function Wrap24(x: int): I24 {
    (x - I24_MIN) % 0x100_0000 + I24_MIN
  }

  lemma WrapId(x: int)
    requires I24_MIN <= x <= I24_MAX
    ensures Wrap24(x) == x
  {
  }

  function Add24(a: int, b: int): I24 { Wrap24(a + b) }

  function Sub24(a: int, b: int): I24 { Wrap24(a - b) }

  function Mul24(a: int, b: int): I24 { Wrap24(a * b) }

  function Abs(x: int): int {
    if x < 0 then -x else x
  }

  /** Division rounding toward zero, with the remainder that goes with it. */
  function TruncDiv(a: int, b: int): int
    requires b != 0
  {
    if (a >= 0) == (b > 0) then Abs(a) / Abs(b) else -(Abs(a) / Abs(b))
  }

  function TruncRem(a: int, b: int): int
    requires b != 0
  {
    a - TruncDiv(a, b) * b
  }

  function SaturatingDiv(a: I24, b: I24): I24
    requires b != 0
  {
    if a == I24_MIN && b == -1 then I24_MAX
    else
      TruncDivBound(a, b);
      TruncDiv(a, b)
  }

  lemma TruncDivBound(a: I24, b: I24)
    requires b != 0 && !(a == I24_MIN && b == -1)
    ensures I24_MIN <= TruncDiv(a, b) <= I24_MAX
  {
    var n: int, d: int := Abs(a), Abs(b);
    DivShrinks(n, d);
    if d >= 2 {
      DivHalves(n, d);
    }
  }

  lemma DivShrinks(n: int, d: int)
    requires n >= 0 && d > 0
    ensures 0 <= n / d <= n
  {
    QuotientBound(n, d, n / d, n % d);
  }

  lemma QuotientBound(n: int, d: int, q: int, r: int)
    requires n >= 0 && 0 <= r < d && n == q * d + r
    ensures 0 <= q <= n
    ensures d >= 2 ==> 2 * q <= n
  {
    MultipleSize(q, d);
    if q >= 1 {
      MulMono(1, d, q);
      if d >= 2 {
        MulMono(2, d, q);
      }
    }
  }

  lemma DivHalves(n: int, d: int)
    requires n >= 0 && d >= 2
    ensures 2 * (n / d) <= n
  {
    QuotientBound(n, d, n / d, n % d);
  }

  function CompressTick(tick: I24, spacing: I24): I24
    requires spacing != 0
  {
    Sub24(SaturatingDiv(tick, spacing), if TruncRem(tick, spacing) < 0 then 1 else 0)
  }

  /** For a positive spacing, compression is division rounding down, and it never wraps. */
  lemma CompressIsFloor(tick: I24, spacing: I24)
    requires spacing > 0
    ensures CompressTick(tick, spacing) == tick / spacing
  {
    if tick < 0 {
      var n: int := Abs(tick);
      var q, r := n / spacing, n % spacing;
      assert n == q * spacing + r;
      assert tick == -q * spacing - r;
      DivShrinks(n, spacing);
      if r == 0 {
        DivModUnique(tick, spacing, -q, 0);
      } else {
        assert (-q - 1) * spacing == -q * spacing - spacing;
        DivModUnique(tick, spacing, -q - 1, spacing - r);
        if spacing != 1 {
          DivHalves(n, spacing);
        }
      }
    } else {
      DivShrinks(tick, spacing);
    }
  }

  function MinValidTick(spacing: I24): I24
    requires spacing != 0
  {
    Mul24(TruncDiv(MIN_TICK, spacing), spacing)
  }

  function MaxValidTick(spacing: I24): I24
    requires spacing != 0
  {
    Mul24(TruncDiv(MAX_TICK, spacing), spacing)
  }

  /** The multiple of the spacing at or below `tick`. */
  function FloorTo(tick: int, spacing: int): int
    requires spacing > 0
  {
    tick / spacing * spacing
  }

  /** The valid ticks are the extreme multiples of the spacing within the tick range. */
  lemma ValidTickBounds(spacing: I24)
    requires spacing > 0
    ensures MinValidTick(spacing) == -MaxValidTick(spacing)
    ensures MaxValidTick(spacing) == FloorTo(MAX_TICK, spacing)
    ensures 0 <= MaxValidTick(spacing) <= MAX_TICK < MaxValidTick(spacing) + spacing
  {
    hide Wrap24;
    var q := MAX_TICK / spacing;
    QuotientBound(MAX_TICK, spacing, q, MAX_TICK % spacing);
    MulMono(0, q, spacing);
    assert -q * spacing == -(q * spacing);
    WrapId(q * spacing);
    WrapId(-(q * spacing));
  }

  function Clamp(x: int, lo: int, hi: int): int {
    if x < lo then lo else if x > hi then hi else x
  }

  /** How far a value lies outside the tick range. */
  function Excess(f: int): nat {
    if f < MIN_TICK then MIN_TICK - f else if f > MAX_TICK then f - MAX_TICK else 0
  }

  predicate Retry(tick: int, norm: int, spacing: int) {
    tick > norm + spacing || tick < norm - spacing || norm < MIN_TICK || norm > MAX_TICK
  }

  function NormalizeTick(tick: I24, spacing: I24): (r: I24)
    requires spacing > 0
    ensures r == Clamp(FloorTo(tick, spacing), MinValidTick(spacing), MaxValidTick(spacing))
    decreases Excess(FloorTo(tick, spacing))
  {
    NormalizeStep(tick, spacing, FloorTo(tick, spacing));
    var norm := Mul24(CompressTick(tick, spacing), spacing);
    if Retry(tick, norm, spacing) then
      if tick < 0 then NormalizeTick(Add24(tick, Abs(spacing)), spacing)
      else NormalizeTick(Sub24(tick, Abs(spacing)), spacing)
    else
      norm
  }

  lemma CompressedProduct(tick: I24, spacing: I24)
    requires spacing > 0
    ensures Mul24(CompressTick(tick, spacing), spacing) == Wrap24(FloorTo(tick, spacing))
  {
    hide CompressTick;
    hide Wrap24;
    CompressIsFloor(tick, spacing);
  }

  lemma FloorShift(tick: int, spacing: int)
    requires spacing > 0
    ensures FloorTo(tick, spacing) <= tick < FloorTo(tick, spacing) + spacing
    ensures FloorTo(tick + spacing, spacing) == FloorTo(tick, spacing) + spacing
    ensures FloorTo(tick - spacing, spacing) == FloorTo(tick, spacing) - spacing
    ensures FloorTo(tick, spacing) < 0 ==> FloorTo(tick, spacing) + spacing <= 0
  {
    FloorMultiple(tick, spacing);
  }

  /** Each retry moves the multiple at or below the tick one spacing toward the tick range. */
  lemma NormalizeStep(tick: I24, spacing: I24, f: int)
    requires spacing > 0 && f == FloorTo(tick, spacing)
    ensures Mul24(CompressTick(tick, spacing), spacing) == Wrap24(f)
    ensures Retry(tick, Wrap24(f), spacing) <==> (f < MIN_TICK || f > MAX_TICK)
    ensures !Retry(tick, Wrap24(f), spacing) ==>
              Wrap24(f) == f && MinValidTick(spacing) <= f <= MaxValidTick(spacing)
    ensures f < MIN_TICK ==>
              && tick < 0
              && Add24(tick, spacing) == tick + spacing
              && FloorTo(tick + spacing, spacing) == f + spacing <= MinValidTick(spacing)
              && Excess(f + spacing) < Excess(f)
    ensures f > MAX_TICK ==>
              && tick >= 0
              && Sub24(tick, spacing) == tick - spacing
              && FloorTo(tick - spacing, spacing) == f - spacing >= MaxValidTick(spacing)
              && Excess(f - spacing) < Excess(f)
    ensures MinValidTick(spacing) <= MaxValidTick(spacing)
    ensures MIN_TICK <= MinValidTick(spacing) && MaxValidTick(spacing) <= MAX_TICK
  {
    hide CompressTick;
    hide MinValidTick;
    hide MaxValidTick;
    hide FloorTo;
    hide Wrap24;
    CompressedProduct(tick, spacing);
    FloorShift(tick, spacing);
    ValidTickBounds(spacing);
    RetryMeansOutside(tick, f, spacing);
    FloorAgainstValid(tick, spacing);
    if f < MIN_TICK {
      WrapId(tick + spacing);
    } else if f > MAX_TICK {
      WrapId(tick - spacing);
    }
  }

  /** A tick lies within one spacing of the multiple below it. */
  lemma FloorMultiple(tick: int, spacing: int)
    requires spacing > 0
    ensures tick / spacing * spacing <= tick < tick / spacing * spacing + spacing
    ensures (tick + spacing) / spacing == tick / spacing + 1
    ensures (tick - spacing) / spacing == tick / spacing - 1
    ensures (tick / spacing + 1) * spacing == tick / spacing * spacing + spacing
    ensures (tick / spacing - 1) * spacing == tick / spacing * spacing - spacing
    ensures tick / spacing <= -1 ==> tick / spacing * spacing <= -spacing
    ensures tick / spacing >= 0 ==> tick / spacing * spacing >= 0
  {
    var c := tick / spacing;
    assert tick == c * spacing + tick % spacing;
    assert (c + 1) * spacing == c * spacing + spacing;
    assert (c - 1) * spacing == c * spacing - spacing;
    DivModUnique(tick + spacing, spacing, c + 1, tick % spacing);
    DivModUnique(tick - spacing, spacing, c - 1, tick % spacing);
    MultipleSize(c, spacing);
  }

  /** Two multiples of the spacing that differ are at least one spacing apart. */
  lemma MultiplesApart(a: int, b: int, spacing: int)
    requires spacing > 0
    ensures a * spacing < b * spacing <==> a < b
    ensures a < b ==> a * spacing + spacing <= b * spacing
  {
    MultipleSize(b - a, spacing);
    assert (b - a) * spacing == b * spacing - a * spacing;
  }

  /** The retry test sees a wrapped product exactly as it sees an out-of-range one. */
  lemma RetryMeansOutside(tick: I24, f: int, spacing: I24)
    requires spacing > 0 && f <= tick < f + spacing
    requires f < 0 ==> f + spacing <= 0
    ensures Retry(tick, Wrap24(f), spacing) <==> (f < MIN_TICK || f > MAX_TICK)
    ensures !Retry(tick, Wrap24(f), spacing) ==> Wrap24(f) == f
  {
  }

  /** Where the multiple at or below a tick lies with respect to the valid ticks. */
  lemma FloorAgainstValid(tick: int, spacing: I24)
    requires spacing > 0
    ensures var f := FloorTo(tick, spacing);
            && (f < MIN_TICK ==> f + spacing <= MinValidTick(spacing))
            && (f > MAX_TICK ==> f - spacing >= MaxValidTick(spacing))
            && (MIN_TICK <= f <= MAX_TICK ==> MinValidTick(spacing) <= f <= MaxValidTick(spacing))
  {
    ValidTickBounds(spacing);
    var c, q := tick / spacing, MAX_TICK / spacing;
    assert -q * spacing == -(q * spacing);
    MultiplesApart(c, -q, spacing);
    MultiplesApart(q, c, spacing);
    MultiplesApart(-q, c, spacing);
  }

  /** A compressed tick as a bitmap word (arithmetic shift by 8, cast to 16 bits) and
      the bit in that word. */
  function WordAndBit(compressed: I24): (int, nat) {
    (Wrap16(compressed / 256), compressed % 256)
  }

  function Wrap16(x: int): int {
    (x + 0x8000) % 0x1_0000 - 0x8000
  }

  function TickFromWordAndBit(word: int, bit: nat, spacing: I24): I24 {
    Mul24(Add24(Mul24(word, 256), bit), spacing)
  }

  /** Splitting never truncates the word, and the two parts name the compressed tick. */
  lemma WordAndBitSplit(compressed: I24)
    ensures var (word, bit) := WordAndBit(compressed);
            && word == compressed / 256
            && -0x8000 <= word < 0x8000
            && 0 <= bit < 256
            && compressed == word * 256 + bit
  {
  }
}
