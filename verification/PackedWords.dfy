/** Decoding of packed 256-bit storage words: the shift-and-mask readers, the byte-slice
    readers, and the layouts they agree on. */
module PackedWords {
  import opened Wrappers
  import opened WordMath

  type Byte = b: nat | b < 256

  // ---------- bit fields ----------

  /** The `width` bits of `w` that start at bit `offset`. */
  function Field(w: nat, offset: nat, width: nat): nat {
    Shr(w, offset) % Pow2(width)
  }

  lemma FieldBound(w: nat, offset: nat, width: nat)
    ensures Field(w, offset, width) < Pow2(width)
  {
  }

  /** Shifting right and masking reads a field. */
  lemma MaskReadsField(w: nat, offset: nat, width: nat)
    ensures BitAnd(Shr(w, offset), Pow2(width) - 1) == Field(w, offset, width)
  {
    AndLowMask(Shr(w, offset), width);
  }

  /** `low` below `high`, which starts at bit `n`. */
  function Join(low: nat, high: nat, n: nat): nat {
    low + Scale(high, n)
  }

  lemma JoinIsSum(low: nat, high: nat, n: nat)
    ensures Join(low, high, n) == low + high * Pow2(n)
  {
    ScaleIsMul(high, n);
  }

  /** A field is its low part joined with its high part. */
  lemma FieldSplit(w: nat, offset: nat, low: nat, high: nat)
    ensures Field(w, offset, low + high)
         == Join(Field(w, offset, low), Field(w, offset + low, high), low)
  {
    hide Shr;
    hide Pow2;
    hide Join;
    var n := Shr(w, offset);
    Pow2Add(low, high);
    DivDiv(n, Pow2(low), Pow2(high));
    ShrIsDiv(n, low);
    ShrAdd(w, offset, low);
    JoinIsSum(Field(w, offset, low), Field(w, offset + low, high), low);
  }

  /** Joining two parts can be undone. */
  lemma JoinParts(low: nat, high: nat, n: nat)
    requires low < Pow2(n)
    ensures Shr(Join(low, high, n), n) == high
    ensures Join(low, high, n) % Pow2(n) == low
  {
    JoinIsSum(low, high, n);
    ShrIsDiv(Join(low, high, n), n);
    DivModUnique(Join(low, high, n), Pow2(n), high, low);
  }

  lemma WholeField(w: nat, n: nat)
    requires w < Pow2(n)
    ensures Field(w, 0, n) == w
  {
    DivModUnique(w, Pow2(n), 0, w);
  }

  // ---------- bytes ----------

  function ToBeBytes(w: nat, n: nat): (bytes: seq<Byte>)
    ensures |bytes| == n
  {
    if n == 0 then [] else ToBeBytes(w / 256, n - 1) + [w % 256]
  }

  function FromBeBytes(bytes: seq<Byte>): nat {
    if bytes == [] then 0
    else FromBeBytes(bytes[..|bytes| - 1]) * 256 + bytes[|bytes| - 1]
  }

  lemma SliceFront(w: nat, n: nat, i: nat, j: nat)
    requires i <= j < n
    ensures ToBeBytes(w, n)[i..j] == ToBeBytes(w / 256, n - 1)[i..j]
  {
  }

  lemma SliceBack(w: nat, n: nat, i: nat)
    requires i < n
    ensures ToBeBytes(w, n)[i..n] == ToBeBytes(w / 256, n - 1)[i..n - 1] + [w % 256]
  {
  }

  lemma FromAppended(bytes: seq<Byte>, b: Byte)
    ensures FromBeBytes(bytes + [b]) == FromBeBytes(bytes) * 256 + b
  {
    assert (bytes + [b])[..|bytes|] == bytes;
  }

  /** A byte slice of a word is a bit field of it. */
  lemma {:induction false} SliceIsField(w: nat, n: nat, i: nat, j: nat)
    requires i <= j <= n
    ensures FromBeBytes(ToBeBytes(w, n)[i..j]) == Field(w, 8 * (n - j), 8 * (j - i))
    decreases n
  {
    hide Field;
    hide ToBeBytes;
    if i == j {
      EmptyField(w, 8 * (n - j));
    } else if j < n {
      hide FromBeBytes;
      SliceFront(w, n, i, j);
      SliceIsField(w / 256, n - 1, i, j);
      FieldAfterByte(w, 8 * (n - j), 8 * (j - i));
    } else {
      hide FromBeBytes;
      SliceBack(w, n, i);
      FromAppended(ToBeBytes(w / 256, n - 1)[i..j - 1], w % 256);
      SliceIsField(w / 256, n - 1, i, j - 1);
      FieldWithByte(w, 8 * (j - i));
    }
  }

  lemma EmptyField(w: nat, offset: nat)
    ensures Field(w, offset, 0) == 0
  {
    assert Pow2(0) == 1;
  }

  lemma FieldAfterByte(w: nat, offset: nat, width: nat)
    requires offset >= 8
    ensures Field(w, offset, width) == Field(w / 256, offset - 8, width)
  {
    ShrByte(w, offset);
  }

  lemma FieldWithByte(w: nat, width: nat)
    requires width >= 8
    ensures Field(w, 0, width) == Field(w / 256, 0, width - 8) * 256 + w % 256
  {
    FieldSplit(w, 0, 8, width - 8);
    JoinIsSum(Field(w, 0, 8), Field(w, 8, width - 8), 8);
    ShrByte(w, 8);
    assert Pow2(8) == 256;
  }

  lemma ShrByte(w: nat, b: nat)
    requires b >= 8
    ensures Shr(w, b) == Shr(w / 256, b - 8)
  {
    ShrAdd(w, 8, b - 8);
    ShrIsDiv(w, 8);
    assert Pow2(8) == 256;
  }

  // ---------- sign extension of 24-bit fields ----------

  /** The signed value of a two's-complement pattern of `n + 1` bits. */
  function Signed(raw: nat, n: nat): int {
    if raw < Pow2(n) then raw else raw - Pow2(n + 1)
  }

  function AsI32(x: int): int {
    (x + 0x8000_0000) % 0x1_0000_0000 - 0x8000_0000
  }

  /** `((raw << 8) as i32) >> 8` on an unsigned 32-bit value. */
  function ExtendUnsigned(raw: nat): int {
    AsI32(raw * 256 % 0x1_0000_0000) / 256
  }

  /** `((raw as i32) << 8) >> 8`. */
  function ExtendSigned(raw: nat): int {
    AsI32(AsI32(raw) * 256) / 256
  }

  /** Test bit 23 and fill the high byte. */
  function ExtendByTest(raw: nat): int {
    if Bit(raw, 23) then AsI32(BitOr(raw, 0xff00_0000)) else AsI32(raw)
  }

  lemma {:induction false} TopBit(raw: nat, n: nat)
    requires raw < Pow2(n + 1)
    ensures Bit(raw, n) == (raw >= Pow2(n))
  {
    if n > 0 {
      TopBit(raw / 2, n - 1);
    }
  }

  /** The three sign extensions all read a 24-bit pattern as two's complement. */
  lemma SignExtensionsAgree(raw: nat)
    requires raw < Pow2(24)
    ensures ExtendUnsigned(raw) == ExtendSigned(raw) == ExtendByTest(raw) == Signed(raw, 23)
  {
    hide Bit;
    hide BitOr;
    hide Pow2;
    hide ExtendUnsigned;
    hide ExtendSigned;
    Pow2Of24And32();
    ShiftExtensions(raw);
    TopBit(raw, 23);
    OrDisjoint(raw, 0xff, 24);
  }

  lemma ShiftExtensions(raw: nat)
    requires raw < 0x100_0000
    ensures ExtendUnsigned(raw) == ExtendSigned(raw) == if raw < 0x80_0000 then raw else raw - 0x100_0000
  {
  }

  // ---------- slot0: crates/uniswap-storage/src/v4/common.rs, v3/pool.rs ----------

  const MASK_24: nat := 0xff_ffff

  function Limb(w: nat, k: nat): nat {
    Field(w, 64 * k, 64)
  }

  datatype Slot0 = Slot0(sqrtPriceX96: nat, tick: int, protocolFee: nat, lpFee: nat)

  function UnpackSlot0(w: U256): Slot0 {
    Slot0(
      Join(Join(Limb(w, 0), Limb(w, 1), 64), BitAnd(Limb(w, 2), 0xffff_ffff), 128),
      ExtendUnsigned(BitAnd(Shr(w, 160), MASK_24)),
      BitAnd(Shr(w, 184), MASK_24),
      BitAnd(Shr(w, 208), MASK_24))
  }

  function V3SqrtPrice(w: U256): nat {
    BitAnd(w, Pow2(160) - 1)
  }

  function V3CurrentTick(w: U256): int {
    ExtendByTest(BitAnd(Shr(w, 160), MASK_24))
  }

  /** The layout: 160 bits of price, then three 24-bit fields, then 24 unused bits. */
  function PackSlot0(f: Slot0): nat {
    Join(f.sqrtPriceX96, Join(f.tick % 0x100_0000, Join(f.protocolFee, f.lpFee, 24), 24), 160)
  }

  predicate ValidSlot0(f: Slot0) {
    f.sqrtPriceX96 < Pow2(160) && -0x80_0000 <= f.tick < 0x80_0000
    && f.protocolFee < Pow2(24) && f.lpFee < Pow2(24)
  }

  lemma Mask24ReadsField(w: nat, offset: nat)
    ensures BitAnd(Shr(w, offset), MASK_24) == Field(w, offset, 24) < 0x100_0000
  {
    hide BitAnd;
    hide Shr;
    hide Pow2;
    Pow2Of24And32();
    MaskReadsField(w, offset, 24);
  }

  lemma SignedMod(raw: nat)
    requires raw < 0x100_0000
    ensures -0x80_0000 <= ExtendUnsigned(raw) < 0x80_0000
    ensures ExtendUnsigned(raw) % 0x100_0000 == raw
  {
  }

  lemma LimbsReadPrice(w: U256)
    ensures UnpackSlot0(w).sqrtPriceX96 == Field(w, 0, 160)
  {
    hide Field;
    hide Join;
    hide BitAnd;
    hide ExtendUnsigned;
    FieldSplit(w, 0, 128, 32);
    FieldSplit(w, 0, 64, 64);
    LowHalf(Limb(w, 2));
    SplitLow(w);
  }

  lemma LowHalf(x: nat)
    ensures BitAnd(x, 0xffff_ffff) == x % Pow2(32)
  {
    hide BitAnd;
    hide Pow2;
    Pow2Of24And32();
    AndLowMask(x, 32);
  }

  lemma SplitLow(w: nat)
    ensures Field(w, 128, 64) % Pow2(32) == Field(w, 128, 32)
  {
    hide Field;
    hide Pow2;
    FieldSplit(w, 128, 32, 32);
    FieldBound(w, 128, 32);
    JoinParts(Field(w, 128, 32), Field(w, 160, 32), 32);
  }

  /** Unpacking slot0 loses only its unused top bits, and the v3 readers return the same
      price and tick. */
  lemma Slot0Reassembles(w: U256)
    ensures ValidSlot0(UnpackSlot0(w))
    ensures PackSlot0(UnpackSlot0(w)) == w % Pow2(232)
    ensures V3SqrtPrice(w) == UnpackSlot0(w).sqrtPriceX96
    ensures V3CurrentTick(w) == UnpackSlot0(w).tick
  {
    hide Field;
    hide Pow2;
    hide Join;
    hide BitAnd;
    hide ExtendUnsigned;
    hide ExtendByTest;
    Pow2Of24And32();
    LimbsReadPrice(w);
    LowField(w, 160);
    LowField(w, 232);
    AndLowMask(w, 160);
    Mask24ReadsField(w, 160);
    Mask24ReadsField(w, 184);
    Mask24ReadsField(w, 208);
    SignedMod(Field(w, 160, 24));
    SignExtensionsAgree(Field(w, 160, 24));
    FieldBound(w, 0, 160);
    FieldSplit(w, 184, 24, 24);
    FieldSplit(w, 160, 24, 48);
    FieldSplit(w, 0, 160, 72);
  }

  lemma LowField(w: nat, n: nat)
    ensures Field(w, 0, n) == w % Pow2(n)
  {
  }

  /** Any valid fields survive packing and unpacking. */
  lemma Slot0RoundTrip(f: Slot0, w: U256)
    requires ValidSlot0(f) && w == PackSlot0(f)
    ensures UnpackSlot0(w) == f
  {
    hide Shr;
    hide BitAnd;
    hide ExtendUnsigned;
    hide Pow2;
    Pow2Of24And32();
    LimbsReadPrice(w);
    Mask24ReadsField(w, 160);
    Mask24ReadsField(w, 184);
    Mask24ReadsField(w, 208);
    hide Field;
    hide Join;
    var fees := Join(f.protocolFee, f.lpFee, 24);
    var raw := f.tick % 0x100_0000;
    JoinParts(f.sqrtPriceX96, Join(raw, fees, 24), 160);
    JoinParts(raw, fees, 24);
    JoinParts(f.protocolFee, f.lpFee, 24);
    ShrAdd(w, 160, 24);
    ShrAdd(w, 184, 24);
    FieldAt(w, 0, 160, w);
    FieldAt(w, 160, 24, Join(raw, fees, 24));
    FieldAt(w, 184, 24, fees);
    FieldAt(w, 208, 24, f.lpFee);
    WholeField(f.lpFee, 24);
    LowField(f.lpFee, 24);
    SignedModUnique(f.tick);
  }

  lemma FieldAt(w: nat, offset: nat, width: nat, shifted: nat)
    requires offset > 0 ==> Shr(w, offset) == shifted
    requires offset == 0 ==> w == shifted
    ensures Field(w, offset, width) == shifted % Pow2(width)
  {
  }

  lemma SignedModUnique(tick: int)
    requires -0x80_0000 <= tick < 0x80_0000
    ensures ExtendUnsigned(tick % 0x100_0000) == tick
  {
  }

  // ---------- position info: crates/uniswap-storage/src/v4/common.rs ----------

  datatype PositionInfo = PositionInfo(poolMapKey: seq<Byte>, tickLower: int, tickUpper: int)

  function UnpackPositionInfo(w: U256): PositionInfo {
    PositionInfo(
      ToBeBytes(Shr(w, 56), 32)[7..],
      ExtendUnsigned(BitAnd(Shr(w, 8), MASK_24)),
      ExtendUnsigned(BitAnd(Shr(w, 32), MASK_24)))
  }

  /** The layout: one flag byte, two 24-bit ticks, then the 25-byte pool key. */
  function PackPositionInfo(info: PositionInfo, flags: nat): nat {
    Join(flags, Join(info.tickLower % 0x100_0000,
                     Join(info.tickUpper % 0x100_0000, FromBeBytes(info.poolMapKey), 24), 24), 8)
  }

  lemma {:induction false} BytesRoundTrip(bytes: seq<Byte>)
    ensures ToBeBytes(FromBeBytes(bytes), |bytes|) == bytes
  {
    if bytes != [] {
      BytesRoundTrip(bytes[..|bytes| - 1]);
    }
  }

  lemma {:induction false} LowBytes(w: nat, n: nat, m: nat)
    ensures ToBeBytes(w, m + n)[m..] == ToBeBytes(w, n)
  {
    if n > 0 {
      LowBytes(w / 256, n - 1, m);
    }
  }

  lemma HighFieldIsShift(w: U256, offset: nat)
    requires offset <= WORD_BITS
    ensures Shr(w, offset) < Pow2(WORD_BITS - offset)
    ensures Field(w, offset, WORD_BITS - offset) == Shr(w, offset)
  {
    hide Pow2;
    var n := WORD_BITS;
    WordSizeIsPow2(n);
    Pow2Add(offset, n - offset);
    ShrIsDiv(w, offset);
    DivBelow(w, Pow2(offset), Pow2(n - offset));
    ShrIsDiv(w, 0);
    DivModUnique(Shr(w, offset), Pow2(n - offset), 0, Shr(w, offset));
  }

  lemma DivBelow(n: nat, d: nat, q: nat)
    requires d > 0 && n < d * q
    ensures n / d < q
  {
    assert n == n / d * d + n % d;
    if q <= n / d {
      MulMono(q, n / d, d);
    }
  }

  /** The unpacked fields and the flag byte are the whole word. */
  lemma PositionInfoReassembles(w: U256)
    ensures |UnpackPositionInfo(w).poolMapKey| == 25
    ensures PackPositionInfo(UnpackPositionInfo(w), w % 256) == w
  {
    hide Field;
    hide Pow2;
    hide Join;
    hide BitAnd;
    hide Shr;
    hide ExtendUnsigned;
    hide FromBeBytes;
    hide ToBeBytes;
    Mask24ReadsField(w, 8);
    Mask24ReadsField(w, 32);
    SignedMod(Field(w, 8, 24));
    SignedMod(Field(w, 32, 24));
    var key := Shr(w, 56);
    HighFieldIsShift(w, 56);
    SliceIsField(key, 32, 7, 32);
    assert ToBeBytes(key, 32)[7..] == ToBeBytes(key, 32)[7..32];
    WholeField(key, 200);
    FieldSplit(w, 32, 24, 200);
    FieldSplit(w, 8, 24, 224);
    FieldSplit(w, 0, 8, 248);
    HighFieldIsShift(w, 0);
    LowByte(w);
  }

  lemma LowByte(w: nat)
    ensures Field(w, 0, 8) == w % 256 && Shr(w, 0) == w
  {
    assert Pow2(8) == 256;
  }

  /** Any ticks and any 25-byte key survive packing and unpacking. */
  lemma PositionInfoRoundTrip(info: PositionInfo, flags: Byte, w: U256)
    requires |info.poolMapKey| == 25 && w == PackPositionInfo(info, flags)
    requires -0x80_0000 <= info.tickLower < 0x80_0000 && -0x80_0000 <= info.tickUpper < 0x80_0000
    ensures UnpackPositionInfo(w) == info
  {
    hide Field;
    hide Pow2;
    hide Join;
    hide BitAnd;
    hide Shr;
    hide ExtendUnsigned;
    hide FromBeBytes;
    hide ToBeBytes;
    var key := FromBeBytes(info.poolMapKey);
    var lower, upper := info.tickLower % 0x100_0000, info.tickUpper % 0x100_0000;
    Pow2Of24And32();
    Pow2Of8();
    JoinParts(flags, Join(lower, Join(upper, key, 24), 24), 8);
    JoinParts(lower, Join(upper, key, 24), 24);
    JoinParts(upper, key, 24);
    ShrAdd(w, 8, 24);
    ShrAdd(w, 32, 24);
    Mask24ReadsField(w, 8);
    Mask24ReadsField(w, 32);
    FieldAt(w, 8, 24, Join(lower, Join(upper, key, 24), 24));
    FieldAt(w, 32, 24, Join(upper, key, 24));
    SignedModUnique(info.tickLower);
    SignedModUnique(info.tickUpper);
    BytesRoundTrip(info.poolMapKey);
    LowBytes(key, 25, 7);
  }

  lemma Pow2Of8()
    ensures Pow2(8) == 256
  {
  }

  // ---------- pool keys: crates/uniswap-storage/src/v4/position_manager.rs,
  // ---------- crates/uniswap-storage/src/angstrom/l2/angstrom_l2.rs ----------

  datatype PoolKey = PoolKey(currency0: nat, currency1: nat, fee: nat, tickSpacing: int, hooks: nat)

  function I24FromBytes(bytes: seq<Byte>): int {
    Signed(FromBeBytes(bytes), 23)
  }

  function PoolKeyByBytes(w0: U256, w1: U256, w2: U256): PoolKey {
    var bytes := ToBeBytes(w0, 32) + ToBeBytes(w1, 32) + ToBeBytes(w2, 32);
    PoolKey(
      FromBeBytes(bytes[12..32]),
      FromBeBytes(bytes[44..64]),
      FromBeBytes(bytes[41..44]),
      I24FromBytes(bytes[38..41]),
      FromBeBytes(bytes[76..96]))
  }

  /** Narrowing to 160 bits panics on a value that does not fit. */
  function NarrowTo160(w: nat): Result<nat, string> {
    if w < Pow2(160) then Ok(w) else Err("value too large for 160 bits")
  }

  function PoolKeyByShifts(w0: U256, w1: U256, w2: U256): Result<PoolKey, string> {
    match (NarrowTo160(w0), NarrowTo160(BitAnd(w1, Pow2(160) - 1)), NarrowTo160(w2))
    case (Ok(currency0), Ok(currency1), Ok(hooks)) =>
      Ok(PoolKey(currency0, currency1, BitAnd(Shr(w1, 160), MASK_24),
                 ExtendSigned(BitAnd(Shr(w1, 184), MASK_24)), hooks))
    case _ => Err("value too large for 160 bits")
  }

  lemma WordSlice(w: U256, i: nat, j: nat)
    requires i <= j <= 32
    ensures FromBeBytes(ToBeBytes(w, 32)[i..j]) == Field(w, 8 * (32 - j), 8 * (j - i))
  {
    SliceIsField(w, 32, i, j);
  }

  lemma ConcatSlices(a: seq<Byte>, b: seq<Byte>, c: seq<Byte>, i: nat, j: nat)
    requires |a| == |b| == |c| == 32 && i <= j <= 32
    ensures (a + b + c)[i..j] == a[i..j]
    ensures (a + b + c)[32 + i..32 + j] == b[i..j]
    ensures (a + b + c)[64 + i..64 + j] == c[i..j]
  {
  }

  /** The shift-and-mask reader fails exactly when an address word has high bits set;
      otherwise it reads the key that the byte-slice reader reads. */
  lemma PoolKeyReadersAgree(w0: U256, w1: U256, w2: U256)
    ensures PoolKeyByShifts(w0, w1, w2).Ok? <==> w0 < Pow2(160) && w2 < Pow2(160)
    ensures PoolKeyByShifts(w0, w1, w2).Ok? ==> PoolKeyByShifts(w0, w1, w2).value == PoolKeyByBytes(w0, w1, w2)
  {
    hide Field;
    hide Pow2;
    hide BitAnd;
    hide Shr;
    hide ExtendSigned;
    hide ExtendUnsigned;
    hide ExtendByTest;
    hide FromBeBytes;
    hide ToBeBytes;
    var a, b, c := ToBeBytes(w0, 32), ToBeBytes(w1, 32), ToBeBytes(w2, 32);
    ConcatSlices(a, b, c, 12, 32);
    ConcatSlices(a, b, c, 9, 12);
    ConcatSlices(a, b, c, 6, 9);
    WordSlice(w0, 12, 32);
    WordSlice(w1, 12, 32);
    WordSlice(w1, 9, 12);
    WordSlice(w1, 6, 9);
    WordSlice(w2, 12, 32);
    LowField(w1, 160);
    AndLowMask(w1, 160);
    FieldBound(w1, 0, 160);
    Mask24ReadsField(w1, 160);
    Mask24ReadsField(w1, 184);
    FieldBound(w1, 184, 24);
    SignExtensionsAgree(Field(w1, 184, 24));
    if w0 < Pow2(160) && w2 < Pow2(160) {
      WholeField(w0, 160);
      WholeField(w2, 160);
    }
  }

  /** Which bits of which word each member is, for every three words: 160 bits of address from the low
      end of each, and above the second one's, 24 bits of fee and 24 of signed tick spacing. */
  lemma PoolKeyOfWords(w0: U256, w1: U256, w2: U256)
    ensures var key := PoolKeyByBytes(w0, w1, w2);
            && key.currency0 == w0 % Pow2(160)
            && key.currency1 == w1 % Pow2(160)
            && key.fee == w1 / Pow2(160) % Pow2(24)
            && key.tickSpacing % Pow2(24) == w1 / Pow2(184) % Pow2(24)
            && 0 <= key.tickSpacing + Pow2(23) < Pow2(24)
            && key.hooks == w2 % Pow2(160)
  {
    hide Pow2;
    hide Shr;
    var a, b, c := ToBeBytes(w0, 32), ToBeBytes(w1, 32), ToBeBytes(w2, 32);
    ConcatSlices(a, b, c, 12, 32);
    ConcatSlices(a, b, c, 9, 12);
    ConcatSlices(a, b, c, 6, 9);
    WordSlice(w0, 12, 32);
    WordSlice(w1, 12, 32);
    WordSlice(w1, 9, 12);
    WordSlice(w1, 6, 9);
    WordSlice(w2, 12, 32);
    LowField(w0, 160);
    LowField(w1, 160);
    LowField(w2, 160);
    ShrIsDiv(w1, 160);
    ShrIsDiv(w1, 184);
    FieldBound(w1, 184, 24);
    SignedRange(Field(w1, 184, 24), 23);
  }

  /** Two's complement keeps its pattern and its range. */
  lemma SignedRange(raw: nat, n: nat)
    requires raw < Pow2(n + 1)
    ensures 0 <= Signed(raw, n) + Pow2(n) < Pow2(n + 1)
    ensures Signed(raw, n) % Pow2(n + 1) == raw
  {
    Pow2Succ(n);
    hide Pow2;
    var m := n + 1;
    DivModUnique(raw, Pow2(m), 0, raw);
    DivModUnique(raw - Pow2(m), Pow2(m), -1, raw);
  }

  /** The least address word that the shift-and-mask reader refuses; the byte-slice reader
      accepts it as the zero address. */
  lemma DirtyAddressFails(w: U256)
    requires w == Pow2(160)
    ensures PoolKeyByShifts(w, 0, 0).Err?
    ensures PoolKeyByBytes(w, 0, 0).currency0 == 0
  {
    PoolKeyReadersAgree(w, 0, 0);
    hide Pow2;
    ConcatSlices(ToBeBytes(w, 32), ToBeBytes(0, 32), ToBeBytes(0, 32), 12, 32);
    WordSlice(w, 12, 32);
    LowField(w, 160);
    assert Pow2(160) % Pow2(160) == 0;
  }

  // ---------- tick liquidity: pool_tick_state.rs, v3/pool.rs ----------

  datatype Liquidity = Liquidity(net: int, gross: nat)

  function AsI128(x: nat): int {
    Signed(x, 127)
  }

  function LiquidityByBytes(w: U256): Liquidity {
    var bytes := ToBeBytes(w, 32);
    Liquidity(AsI128(FromBeBytes(bytes[..16])), FromBeBytes(bytes[16..]))
  }

  function LiquidityByShifts(w: U256): Liquidity {
    Liquidity(AsI128(BitAnd(Shr(w, 128), Pow2(128) - 1)), BitAnd(w, Pow2(128) - 1))
  }

  /** Both readers split a tick's liquidity word alike, and the halves are the word. */
  lemma LiquidityReadersAgree(w: U256)
    ensures LiquidityByBytes(w) == LiquidityByShifts(w)
    ensures var l := LiquidityByBytes(w);
            && Join(l.gross, l.net % Pow2(128), 128) == w
            && 0 <= l.net + Pow2(127) < Pow2(128)
            && l.gross < Pow2(128)
  {
    hide Field;
    hide Pow2;
    hide BitAnd;
    hide Shr;
    hide Join;
    hide FromBeBytes;
    hide ToBeBytes;
    var bytes := ToBeBytes(w, 32);
    assert bytes[..16] == bytes[0..16] && bytes[16..] == bytes[16..32];
    WordSlice(w, 0, 16);
    WordSlice(w, 16, 32);
    MaskReadsField(w, 128, 128);
    AndLowMask(w, 128);
    LowField(w, 128);
    FieldSplit(w, 0, 128, 128);
    HighFieldIsShift(w, 0);
    LowByte(w);
    FieldBound(w, 128, 128);
    SignedHalf(Field(w, 128, 128));
  }

  /** The same in plain arithmetic: the low half is the gross liquidity, the high half the net one in
      two's complement. */
  lemma LiquidityOfWord(w: U256)
    ensures var l := LiquidityByBytes(w);
            && l.gross == w % HALF_SIZE
            && l.net % HALF_SIZE == w / HALF_SIZE
            && 0 <= 2 * l.net + HALF_SIZE < 2 * HALF_SIZE
  {
    LiquidityReadersAgree(w);
    hide LiquidityByBytes;
    var l := LiquidityByBytes(w);
    Pow2Of128(128);
    Pow2Succ(127);
    JoinIsSum(l.gross, l.net % Pow2(128), 128);
    DivModUnique(w, HALF_SIZE, l.net % HALF_SIZE, l.gross);
  }

  lemma SignedHalf(x: nat)
    requires x < Pow2(128)
    ensures AsI128(x) % Pow2(128) == x
    ensures 0 <= AsI128(x) + Pow2(127) < Pow2(128)
  {
    SignedRange(x, 127);
  }
}
