/** Unsigned 256-bit words as natural numbers, with the shifts, masks and bit
    counts that the storage readers apply to them. */
module WordMath {

  function Pow2(n: nat): (p: nat)
    ensures p > 0
  {
    if n == 0 then 1 else 2 * Pow2(n - 1)
  }

  const WORD_BITS: nat := 256

  /** 2^256 */
  const WORD_SIZE: nat := 0x1_0000000000000000_0000000000000000_0000000000000000_0000000000000000

  /** 2^128 */
  const HALF_SIZE: nat := 0x1_0000000000000000_0000000000000000

  type U256 = w: nat | w < WORD_SIZE witness 0

  /** Bit `i` of `w`, counting from the least significant. */
  predicate Bit(w: nat, i: nat) {
    if i == 0 then w % 2 == 1 else Bit(w / 2, i - 1)
  }

  function Shr(w: nat, b: nat): nat {
    if b == 0 then w else Shr(w / 2, b - 1)
  }

  function Scale(w: nat, b: nat): nat {
    if b == 0 then w else 2 * Scale(w, b - 1)
  }

  /** Left shift of a 256-bit word: bits pushed past the top are lost. */
  function Shl(w: nat, b: nat): nat {
    Scale(w, b) % WORD_SIZE
  }

  function BitAnd(a: nat, b: nat): nat {
    if a == 0 || b == 0 then 0
    else (if a % 2 == 1 && b % 2 == 1 then 1 else 0) + 2 * BitAnd(a / 2, b / 2)
  }

  function BitOr(a: nat, b: nat): nat
    decreases a + b
  {
    if a == 0 && b == 0 then 0
    else (if a % 2 == 1 || b % 2 == 1 then 1 else 0) + 2 * BitOr(a / 2, b / 2)
  }

  /** Complement within 256 bits. */
  function BitNot(w: nat): nat
    requires w < WORD_SIZE
  {
    WORD_SIZE - 1 - w
  }

  /** Number of zero bits below the lowest set bit; 256 for the zero word. */
  function TrailingZeros(w: nat): nat {
    if w == 0 then WORD_BITS else LowestBit(w)
  }

  function LowestBit(w: nat): nat
    requires w > 0
  {
    if w % 2 == 1 then 0 else 1 + LowestBit(w / 2)
  }

  function HighestBit(w: nat): nat
    requires w > 0
  {
    if w == 1 then 0 else 1 + HighestBit(w / 2)
  }

  /** Number of zero bits above the highest set bit of a 256-bit word. */
  function LeadingZeros(w: nat): int {
    if w == 0 then WORD_BITS else WORD_BITS - 1 - HighestBit(w)
  }

  lemma {:induction false} Pow2Add(a: nat, b: nat)
    ensures Pow2(a + b) == Pow2(a) * Pow2(b)
  {
    if a == 0 {
    } else {
      Pow2Add(a - 1, b);
      assert Pow2(a + b) == 2 * Pow2(a - 1 + b);
      DoubleProduct(Pow2(a - 1), Pow2(b));
    }
  }

  lemma DoubleProduct(p: nat, q: nat)
    ensures 2 * p * q == 2 * (p * q)
  {
  }

  lemma {:induction false} Pow2Mono(a: nat, b: nat)
    requires a <= b
    ensures Pow2(a) <= Pow2(b)
  {
    if a < b {
      Pow2Mono(a, b - 1);
    }
  }

  /** The quotient and remainder of a division are determined by the division law. */
  lemma DivModUnique(n: int, d: int, q: int, r: int)
    requires d > 0 && 0 <= r < d && n == q * d + r
    ensures n / d == q && n % d == r
  {
    var k := q - n / d;
    assert k * d == q * d - n / d * d;
    assert n == n / d * d + n % d;
    MultipleSize(k, d);
  }

  lemma Pow2Double(n: nat, p: nat)
    requires Pow2(n) == p
    ensures Pow2(n + n) == p * p
  {
    Pow2Add(n, n);
  }

  lemma Pow2Of24And32()
    ensures Pow2(23) == 0x80_0000 && Pow2(24) == 0x100_0000 && Pow2(32) == 0x1_0000_0000
  {
    Pow2Double(8, 0x100);
    Pow2Double(16, 0x1_0000);
    Pow2Add(8, 16);
    Pow2Succ(23);
  }

  lemma Pow2Of64(n: nat)
    requires n == 64
    ensures Pow2(n) == 0x1_0000_0000_0000_0000
  {
    Pow2Double(8, 0x100);
    Pow2Double(16, 0x1_0000);
    Pow2Double(32, 0x1_0000_0000);
  }

  lemma Pow2Of128(n: nat)
    requires n == 128
    ensures Pow2(n) == HALF_SIZE
  {
    var h := n / 2;
    Pow2Of64(h);
    Pow2Double(h, Pow2(h));
  }

  lemma WordSizeIsPow2(n: nat)
    requires n == WORD_BITS
    ensures Pow2(n) == WORD_SIZE
  {
    var h := n / 2;
    Pow2Of128(h);
    Pow2Double(h, Pow2(h));
  }

  lemma Pow2Succ(n: nat)
    ensures Pow2(n + 1) == 2 * Pow2(n)
  {
  }

  /** Powers of two up to 2^256. */
  lemma Pow2InWord(b: nat)
    requires b < WORD_BITS
    ensures 2 * Pow2(b) == Pow2(b + 1) <= WORD_SIZE
  {
    hide Pow2;
    var n := WORD_BITS;
    WordSizeIsPow2(n);
    Pow2Mono(b + 1, n);
    Pow2Succ(b);
  }

  /** A nonzero multiple of `d` is at least `d` in size. */
  lemma MultipleSize(k: int, d: int)
    requires d > 0
    ensures k >= 1 ==> k * d >= d
    ensures k <= -1 ==> k * d <= -d
  {
    if k >= 1 {
      assert k * d == (k - 1) * d + d;
    } else if k <= -1 {
      assert k * d == (k + 1) * d - d;
    }
  }

  lemma MulMono(a: int, b: int, s: int)
    requires a <= b && s > 0
    ensures a * s <= b * s
  {
    assert (b - a) * s == b * s - a * s;
    MultipleSize(b - a, s);
  }

  /** A quotient is below a bound exactly when the dividend is below the scaled bound. */
  lemma DivLess(p: int, d: int, k: int)
    requires d > 0
    ensures p / d < k <==> p < k * d
  {
    QuotientLess(p, d, k, p / d, p % d);
  }

  lemma QuotientLess(p: int, d: int, k: int, q: int, r: int)
    requires 0 <= r < d && p == q * d + r
    ensures q < k <==> p < k * d
  {
    if q < k {
      MulMono(q + 1, k, d);
      assert (q + 1) * d == q * d + d;
    } else {
      MulMono(k, q, d);
    }
  }

  /** Dividing twice divides by the product. */
  lemma DivDiv(n: nat, a: nat, b: nat)
    requires a > 0 && b > 0
    ensures a * b > 0 && n / a / b == n / (a * b)
    ensures n % (a * b) == (n / a % b) * a + n % a
  {
    DivDivBy(n, a, b, n / a, n % a, n / a / b, n / a % b);
  }

  lemma DivDivBy(n: nat, a: nat, b: nat, q: nat, low: nat, q2: nat, r: nat)
    requires n == q * a + low && low < a
    requires q == q2 * b + r && r < b
    ensures a * b > 0 && n / (a * b) == q2 && n % (a * b) == r * a + low
  {
    NestedDivision(a, b, q2, r, low);
    DivModUnique(n, a * b, q2, r * a + low);
  }

  lemma NestedDivision(a: nat, b: nat, q: nat, r: nat, low: nat)
    requires r < b && low < a
    ensures 0 <= r * a + low < a * b
    ensures (q * b + r) * a + low == q * (a * b) + (r * a + low)
  {
    MulMono(r + 1, b, a);
    assert (r + 1) * a == r * a + a;
    assert (q * b + r) * a == q * b * a + r * a;
    assert q * b * a == q * (a * b);
  }

  /** A right shift divides by a power of two. */
  lemma {:induction false} ShrIsDiv(w: nat, b: nat)
    ensures Shr(w, b) == w / Pow2(b)
  {
    if b > 0 {
      ShrIsDiv(w / 2, b - 1);
      DivDiv(w, 2, Pow2(b - 1));
    }
  }

  lemma {:induction false} ScaleIsMul(w: nat, b: nat)
    ensures Scale(w, b) == w * Pow2(b)
  {
    if b > 0 {
      ScaleIsMul(w, b - 1);
      DoubleProduct(Pow2(b - 1), w);
    }
  }

  lemma {:induction false} ShrAdd(w: nat, a: nat, b: nat)
    ensures Shr(Shr(w, a), b) == Shr(w, a + b)
  {
    if a > 0 {
      ShrAdd(w / 2, a - 1, b);
    }
  }

  lemma {:induction false} BitShr(w: nat, b: nat, i: nat)
    ensures Bit(Shr(w, b), i) == Bit(w, i + b)
  {
    if b > 0 {
      BitShr(w / 2, b - 1, i);
    }
  }

  lemma {:induction false} BitScale(w: nat, b: nat, i: nat)
    ensures Bit(Scale(w, b), i) == (b <= i && Bit(w, i - b))
  {
    if b > 0 && i > 0 {
      assert Scale(w, b) / 2 == Scale(w, b - 1);
      BitScale(w, b - 1, i - 1);
    }
  }

  lemma ModStep(w: nat, n: nat)
    requires n > 0
    ensures w % Pow2(n) == 2 * (w / 2 % Pow2(n - 1)) + w % 2
  {
    DivDiv(w, 2, Pow2(n - 1));
  }

  lemma BitCons(high: nat, low: nat, i: nat)
    requires low < 2
    ensures Bit(2 * high + low, i) == if i == 0 then low == 1 else Bit(high, i - 1)
  {
    assert (2 * high + low) / 2 == high;
  }

  lemma {:induction false} BitMod(w: nat, n: nat, i: nat)
    ensures Bit(w % Pow2(n), i) == (i < n && Bit(w, i))
  {
    if n == 0 {
      assert w % Pow2(0) == 0;
      ZeroBits(i);
    } else {
      ModStep(w, n);
      BitCons(w / 2 % Pow2(n - 1), w % 2, i);
      if i > 0 {
        BitMod(w / 2, n - 1, i - 1);
      }
    }
  }

  lemma {:induction false} ZeroBits(i: nat)
    ensures !Bit(0, i)
  {
    if i > 0 {
      ZeroBits(i - 1);
    }
  }

  lemma BitShl(w: nat, b: nat, i: nat)
    ensures Bit(Shl(w, b), i) == (b <= i < WORD_BITS && Bit(w, i - b))
  {
    WordSizeIsPow2(WORD_BITS);
    BitMod(Scale(w, b), WORD_BITS, i);
    BitScale(w, b, i);
  }

  lemma {:induction false} BitAndBit(a: nat, b: nat, i: nat)
    ensures Bit(BitAnd(a, b), i) == (Bit(a, i) && Bit(b, i))
  {
    if a == 0 || b == 0 {
      ZeroBits(i);
    } else if i > 0 {
      var low := if a % 2 == 1 && b % 2 == 1 then 1 else 0;
      assert BitAnd(a, b) / 2 == BitAnd(a / 2, b / 2);
      BitAndBit(a / 2, b / 2, i - 1);
    }
  }

  lemma {:induction false} BitAndBound(a: nat, b: nat)
    ensures BitAnd(a, b) <= a && BitAnd(a, b) <= b
  {
    if a != 0 && b != 0 {
      BitAndBound(a / 2, b / 2);
    }
  }

  /** Masking with `2^n - 1` keeps the low `n` bits. */
  lemma {:induction false} AndLowMask(w: nat, n: nat)
    ensures BitAnd(w, Pow2(n) - 1) == w % Pow2(n)
  {
    if n == 0 {
      assert w % Pow2(0) == 0;
    } else {
      ModStep(w, n);
      AndLowMask(w / 2, n - 1);
      assert (Pow2(n) - 1) / 2 == Pow2(n - 1) - 1;
      assert (Pow2(n) - 1) % 2 == 1;
      if w == 0 {
        assert 0 % Pow2(n) == 0;
      }
    }
  }

  /** Or-ing a value below `2^n` into a multiple of `2^n` adds them. */
  lemma {:induction false} OrDisjoint(a: nat, h: nat, n: nat)
    requires a < Pow2(n)
    ensures BitOr(a, h * Pow2(n)) == a + h * Pow2(n)
  {
    if n == 0 {
      assert h * Pow2(0) == h;
      OrZero(h);
    } else {
      var half := h * Pow2(n - 1);
      assert h * Pow2(n) == 2 * half;
      OrDisjoint(a / 2, h, n - 1);
    }
  }

  lemma {:induction false} OrZero(h: nat)
    ensures BitOr(0, h) == h
  {
    if h > 0 {
      OrZero(h / 2);
    }
  }

  lemma {:induction false} OnesBit(n: nat, i: nat)
    ensures Bit(Pow2(n) - 1, i) == (i < n)
  {
    if n == 0 {
      ZeroBits(i);
    } else if i > 0 {
      assert (Pow2(n) - 1) / 2 == Pow2(n - 1) - 1;
      OnesBit(n - 1, i - 1);
    }
  }

  lemma {:induction false} HighOnesBit(n: nat, b: nat, i: nat)
    requires b <= n
    ensures Pow2(b) <= Pow2(n)
    ensures Bit(Pow2(n) - Pow2(b), i) == (b <= i < n)
  {
    Pow2Mono(b, n);
    if b == 0 {
      OnesBit(n, i);
    } else if i > 0 {
      HighOnesBit(n - 1, b - 1, i - 1);
      assert (Pow2(n) - Pow2(b)) / 2 == Pow2(n - 1) - Pow2(b - 1);
    } else {
      assert Pow2(n) - Pow2(b) == 2 * (Pow2(n - 1) - Pow2(b - 1));
    }
  }

  /** The lowest set bit is set and nothing below it is. */
  lemma {:induction false} LowestBitSpec(w: nat)
    requires w > 0
    ensures Bit(w, LowestBit(w))
    ensures forall i: nat :: i < LowestBit(w) ==> !Bit(w, i)
  {
    if w % 2 == 0 {
      LowestBitSpec(w / 2);
      forall i: nat | i < LowestBit(w)
        ensures !Bit(w, i)
      {
        if i > 0 {
          assert !Bit(w / 2, i - 1);
        }
      }
    }
  }

  /** The highest set bit is set, nothing above it is, and it bounds the word. */
  lemma {:induction false} HighestBitSpec(w: nat)
    requires w > 0
    ensures Bit(w, HighestBit(w))
    ensures forall i: nat :: HighestBit(w) < i ==> !Bit(w, i)
    ensures Pow2(HighestBit(w)) <= w < Pow2(HighestBit(w) + 1)
  {
    if w > 1 {
      HighestBitSpec(w / 2);
      forall i: nat | HighestBit(w) < i
        ensures !Bit(w, i)
      {
        assert !Bit(w / 2, i - 1);
      }
    } else {
      forall i: nat | 0 < i
        ensures !Bit(w, i)
      {
        ZeroBits(i - 1);
      }
    }
  }

  lemma BitInWord(w: nat, n: nat, i: nat)
    requires w < Pow2(n) && Bit(w, i)
    ensures i < n
  {
    assert w % Pow2(n) == w by { DivModUnique(w, Pow2(n), 0, w); }
    BitMod(w, n, i);
  }

  /** A word with no set bit is zero. */
  lemma NoBitsIsZero(w: nat)
    requires forall i: nat :: !Bit(w, i)
    ensures w == 0
  {
    if w > 0 {
      HighestBitSpec(w);
    }
  }
}
