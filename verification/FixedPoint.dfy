/** 128-bit fixed-point arithmetic through 512-bit intermediates. */
module FixedPoint {
  import opened Wrappers
  import opened WordMath

  /** 2^512 */
  const DOUBLE_SIZE: nat := WORD_SIZE * WORD_SIZE

  /** 1.0 in Q128.128. */
  const X128: nat := HALF_SIZE

  function Mul512(a: nat, b: nat): nat
  {
    MulNat(a, b);
    (a * b) % DOUBLE_SIZE
  }

  lemma MulNat(a: nat, b: nat)
    ensures a * b >= 0
  {
  }

  function Shl512(a: nat, b: nat): nat {
    Scale(a, b) % DOUBLE_SIZE
  }

  /** Narrowing to 256 bits panics on a value that does not fit. */
  function NarrowTo256(w: nat): Result<U256, string> {
    if w < WORD_SIZE then Ok(w) else Err("value too large for 256 bits")
  }

  function FlatDivX128(numerator: U256, denominator: U256): Result<U256, string> {
    if denominator == 0 then Ok(0)
    else NarrowTo256(Shl512(numerator, 128) / denominator)
  }

  function FullMulX128(x: U256, y: U256): Result<U256, string> {
    if x == 0 || y == 0 then Ok(0)
    else
      var shifted := Shr(Mul512(x, y), 128);
      if Shr(shifted, 256) != 0 then Err("the result overflows")
      else NarrowTo256(shifted)
  }

  function MulDiv(a: U256, b: U256, denominator: U256): Result<U256, string> {
    if denominator == 0 then Err("require(denominator != 0)")
    else
      hide Mul512;
      hide BitAnd;
      hide Shr;
      var product := Mul512(a, b);
      var prod0 := BitAnd(product, WORD_SIZE - 1);
      var prod1 := Shr(product, 256);
      if denominator <= prod1 then Err("require(denominator > prod1)")
      else if prod1 == 0 then NarrowTo256(prod0 / denominator)
      else NarrowTo256(product / denominator)
  }

  // ---------- intermediates are exact ----------

  lemma ProductBelow(a: nat, b: nat, m: nat, n: nat)
    requires a < m && b < n
    ensures 0 <= a * b < m * n
  {
    MulMono(a, m, n);
    if a > 0 {
      MulMono(b, n, a);
      assert b * a < n * a by { MulMono(b + 1, n, a); }
    }
  }

  lemma Mul512Exact(a: U256, b: U256)
    ensures Mul512(a, b) == a * b
  {
    ProductBelow(a, b, WORD_SIZE, WORD_SIZE);
  }

  lemma Shl512Exact(n: U256)
    ensures Shl512(n, 128) == n * X128
  {
    ScaleIsMul(n, 128);
    Pow2Of128(128);
  }

  lemma ShrWord(p: nat)
    ensures Shr(p, 256) == p / WORD_SIZE
    ensures Shr(p, 128) == p / X128
    ensures BitAnd(p, WORD_SIZE - 1) == p % WORD_SIZE
  {
    hide Pow2;
    hide Shr;
    hide BitAnd;
    var n := WORD_BITS;
    WordSizeIsPow2(n);
    Pow2Of128(128);
    ShrIsDiv(p, n);
    ShrIsDiv(p, 128);
    AndLowMask(p, n);
  }

  // ---------- what the operations compute ----------

  /** The quotient fits a word exactly when the divisor exceeds the product's high word. */
  lemma OverflowTest(p: nat, d: nat)
    requires d > 0
    ensures d > p / WORD_SIZE <==> p / d < WORD_SIZE
  {
    DivLess(p, WORD_SIZE, d);
    DivLess(p, d, WORD_SIZE);
  }

  /** `MulDiv` is exact floor division, and fails exactly on a zero divisor or a quotient
      beyond 256 bits. */
  lemma MulDivIsExact(a: U256, b: U256, d: U256)
    ensures MulDiv(a, b, d).Ok? <==> d != 0 && a * b / d < WORD_SIZE
    ensures MulDiv(a, b, d).Ok? ==> MulDiv(a, b, d).value == a * b / d
  {
    hide Mul512;
    hide Shr;
    hide BitAnd;
    if d != 0 {
      Mul512Exact(a, b);
      ProductBelow(a, b, WORD_SIZE, WORD_SIZE);
      var p := a * b;
      ShrWord(p);
      OverflowTest(p, d);
      assert p / WORD_SIZE == 0 ==> p % WORD_SIZE == p;
    }
  }

  /** `FullMulX128` is the exact floor of the scaled product, and fails exactly when that is
      beyond 256 bits. */
  lemma FullMulX128IsExact(x: U256, y: U256)
    ensures FullMulX128(x, y).Ok? <==> x * y / X128 < WORD_SIZE
    ensures FullMulX128(x, y).Ok? ==> FullMulX128(x, y).value == x * y / X128
  {
    hide Mul512;
    hide Shr;
    if x == 0 || y == 0 {
      assert x * y == 0;
    } else {
      Mul512Exact(x, y);
      ProductBelow(x, y, WORD_SIZE, WORD_SIZE);
      HighWordTest(x * y);
    }
  }

  lemma HighWordTest(p: nat)
    ensures Shr(p, 128) == p / X128
    ensures Shr(p / X128, 256) != 0 <==> p / X128 >= WORD_SIZE
  {
    hide Shr;
    ShrWord(p);
    ShrWord(p / X128);
  }

  /** The two agree, in value and in failure, at the fixed-point unit. */
  lemma FullMulX128IsMulDiv(x: U256, y: U256)
    ensures FullMulX128(x, y).Ok? <==> MulDiv(x, y, X128).Ok?
    ensures FullMulX128(x, y).Ok? ==> FullMulX128(x, y).value == MulDiv(x, y, X128).value
  {
    hide FullMulX128;
    hide MulDiv;
    FullMulX128IsExact(x, y);
    MulDivIsExact(x, y, X128);
  }

  /** `FlatDivX128` does not always fit: for a nonzero divisor it fails exactly when the numerator is
      at least the scaled divisor, and otherwise is exact floor division. By zero, it returns zero. */
  lemma FlatDivX128IsExact(n: U256, d: U256)
    ensures FlatDivX128(n, d).Ok? <==> d == 0 || n < d * X128
    ensures d != 0 && FlatDivX128(n, d).Ok? ==> FlatDivX128(n, d).value == n * X128 / d
    ensures d == 0 ==> FlatDivX128(n, d) == Ok(0)
  {
    if d != 0 {
      hide Shl512;
      Shl512Exact(n);
      DivLess(n * X128, d, WORD_SIZE);
      assert WORD_SIZE == X128 * X128;
      assert n < d * X128 <==> n * X128 < WORD_SIZE * d;
    }
  }

  /** The smallest numerator whose quotient by one does not fit. */
  lemma FlatDivX128CanOverflow()
    ensures FlatDivX128(X128, 1).Err?
  {
    hide FlatDivX128;
    FlatDivX128IsExact(X128, 1);
  }

  function CeilDiv(x: nat, d: nat): nat
    requires d > 0
  {
    (x + d - 1) / d
  }

  /** Multiplying a quotient that fits back by its divisor never fails, and loses the rounded-up
      share of the remainder: at most one unit when the divisor is at most the fixed-point unit. */
  lemma DivThenMul(n: U256, d: U256)
    requires d != 0 && FlatDivX128(n, d).Ok?
    ensures var back := FullMulX128(FlatDivX128(n, d).value, d);
            && back.Ok?
            && back.value == n - CeilDiv(n * X128 % d, X128)
            && (d <= X128 ==> n <= back.value + 1)
  {
    hide FlatDivX128;
    hide FullMulX128;
    FlatDivX128IsExact(n, d);
    var q := FlatDivX128(n, d).value;
    var r := n * X128 % d;
    assert q * d == n * X128 - r;
    FullMulX128IsExact(q, d);
    LostShare(n, r);
  }

  lemma LostShare(n: nat, r: nat)
    ensures (n * X128 - r) / X128 == n - CeilDiv(r, X128)
    ensures r <= X128 ==> CeilDiv(r, X128) <= 1
  {
  }
}
