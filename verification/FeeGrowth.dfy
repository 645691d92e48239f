/** Fee growth inside a tick range, read from accumulators that wrap modulo 2^256. */
module FeeGrowth {
  import opened WordMath

  /** 256-bit subtraction, wrapping below zero. */
  function Sub256(a: U256, b: U256): U256 {
    if b <= a then a - b else a - b + WORD_SIZE
  }

  /** 256-bit addition, wrapping past the top. */
  function Add256(a: U256, b: U256): U256 {
    if a + b < WORD_SIZE then a + b else a + b - WORD_SIZE
  }

  /** The two accumulators of a tick or of the pool, one a token. */
  datatype Growth = Growth(token0: U256, token1: U256)

  // ---------- the three readers ----------

  function V4GrowthInside(current: int, lower: int, upper: int,
                          global: Growth, outLower: Growth, outUpper: Growth): Growth {
    if current < lower then
      Growth(Sub256(outLower.token0, outUpper.token0), Sub256(outLower.token1, outUpper.token1))
    else if current >= upper then
      Growth(Sub256(outUpper.token0, outLower.token0), Sub256(outUpper.token1, outLower.token1))
    else
      Growth(Sub256(Sub256(global.token0, outLower.token0), outUpper.token0),
             Sub256(Sub256(global.token1, outLower.token1), outUpper.token1))
  }

  function AngstromGrowthInside(current: int, lower: int, upper: int,
                                global: U256, outLower: U256, outUpper: U256): U256 {
    if current < lower then Sub256(outLower, outUpper)
    else if current >= upper then Sub256(outUpper, outLower)
    else Sub256(Sub256(global, outLower), outUpper)
  }

  function AngstromL2GrowthInside(current: int, lower: int, upper: int,
                                  global: U256, outLower: U256, outUpper: U256): U256 {
    if current < lower then Sub256(outLower, outUpper)
    else if current >= upper then Sub256(outUpper, outLower)
    else Sub256(Sub256(global, outLower), outUpper)
  }

  // ---------- growth below a tick ----------

  /** The accumulators of a pool: the global one, and the outside one of every tick. */
  datatype Pool = Pool(current: int, global: Growth, outside: int -> Growth)

  /** One token's accumulators. */
  datatype Book = Book(current: int, global: U256, outside: int -> U256)

  function Token0(p: Pool): Book {
    Book(p.current, p.global.token0, t => p.outside(t).token0)
  }

  function Token1(p: Pool): Book {
    Book(p.current, p.global.token1, t => p.outside(t).token1)
  }

  /** Growth on the side of `t` that lies below it. */
  function Below(b: Book, t: int): U256 {
    if b.current >= t then b.outside(t) else Sub256(b.global, b.outside(t))
  }

  function Inside(b: Book, lower: int, upper: int): U256 {
    AngstromGrowthInside(b.current, lower, upper, b.global, b.outside(lower), b.outside(upper))
  }

  function V4Range(p: Pool, lower: int, upper: int): Growth {
    V4GrowthInside(p.current, lower, upper, p.global, p.outside(lower), p.outside(upper))
  }

  function L2Range(b: Book, lower: int, upper: int): U256 {
    AngstromL2GrowthInside(b.current, lower, upper, b.global, b.outside(lower), b.outside(upper))
  }

  /** 256-bit sums and differences are those of the integers modulo 2^256. */
  lemma ArithmeticIsModular(a: U256, b: U256)
    ensures Sub256(a, b) == (a - b) % WORD_SIZE
    ensures Add256(a, b) == (a + b) % WORD_SIZE
  {
  }

  /** The three readers compute the same value from the same words, for any ticks in any order. */
  lemma ReadersAgree(current: int, lower: int, upper: int, global: Growth, outLower: Growth, outUpper: Growth)
    ensures var v4 := V4GrowthInside(current, lower, upper, global, outLower, outUpper);
            && v4.token0 == AngstromGrowthInside(current, lower, upper, global.token0, outLower.token0, outUpper.token0)
            && v4.token1 == AngstromGrowthInside(current, lower, upper, global.token1, outLower.token1, outUpper.token1)
    ensures AngstromL2GrowthInside(current, lower, upper, global.token0, outLower.token0, outUpper.token0)
         == AngstromGrowthInside(current, lower, upper, global.token0, outLower.token0, outUpper.token0)
  {
  }

  /** Growth inside a range is growth below its top minus growth below its bottom; only for a reversed
      range around the current tick do the readers return something else. */
  lemma InsideIsDifference(b: Book, lower: int, upper: int)
    ensures Inside(b, lower, upper)
         == if upper <= b.current < lower then Sub256(b.outside(lower), b.outside(upper))
            else Sub256(Below(b, upper), Below(b, lower))
  {
    hide Sub256;
    DifferenceOfComplements(b.global, b.outside(upper), b.outside(lower));
    SubCommutes(b.global, b.outside(lower), b.outside(upper));
  }

  lemma DifferenceOfComplements(g: U256, x: U256, y: U256)
    ensures Sub256(Sub256(g, x), Sub256(g, y)) == Sub256(y, x)
  {
  }

  lemma SubCommutes(g: U256, x: U256, y: U256)
    ensures Sub256(Sub256(g, x), y) == Sub256(Sub256(g, y), x)
  {
  }

  lemma AddPassesSub(g: U256, d: U256, x: U256)
    ensures Sub256(Add256(g, d), x) == Add256(Sub256(g, x), d)
  {
  }

  // ---------- adjacent ranges ----------

  predicate Increasing(ticks: seq<int>) {
    forall i, j :: 0 <= i < j < |ticks| ==> ticks[i] < ticks[j]
  }

  /** The sum of the growth inside the ranges between neighbouring ticks. */
  function SumInside(b: Book, ticks: seq<int>): U256 {
    if |ticks| < 2 then 0
    else Add256(Inside(b, ticks[0], ticks[1]), SumInside(b, ticks[1..]))
  }

  lemma {:induction false} SumIsDifference(b: Book, ticks: seq<int>)
    requires |ticks| > 0 && Increasing(ticks)
    ensures SumInside(b, ticks) == Sub256(Below(b, ticks[|ticks| - 1]), Below(b, ticks[0]))
  {
    if |ticks| > 1 {
      SumIsDifference(b, ticks[1..]);
      InsideIsDifference(b, ticks[0], ticks[1]);
      ChainedDifferences(Below(b, ticks[|ticks| - 1]), Below(b, ticks[1]), Below(b, ticks[0]));
    }
  }

  lemma ChainedDifferences(top: U256, middle: U256, bottom: U256)
    ensures Add256(Sub256(middle, bottom), Sub256(top, middle)) == Sub256(top, bottom)
  {
  }

  /** Splitting a range at any ticks neither creates nor loses growth, wherever the current
      tick is and however the accumulators have wrapped. */
  lemma GrowthTelescopes(b: Book, ticks: seq<int>)
    requires |ticks| > 1 && Increasing(ticks)
    ensures SumInside(b, ticks) == Inside(b, ticks[0], ticks[|ticks| - 1])
  {
    SumIsDifference(b, ticks);
    InsideIsDifference(b, ticks[0], ticks[|ticks| - 1]);
  }

  /** Every reader telescopes: on each token the v4 reader, and the two Angstrom readers,
      return over the whole range the sum over its parts. */
  lemma ReadersTelescope(p: Pool, ticks: seq<int>)
    requires |ticks| > 1 && Increasing(ticks)
    ensures V4Range(p, ticks[0], ticks[|ticks| - 1])
         == Growth(SumInside(Token0(p), ticks), SumInside(Token1(p), ticks))
    ensures L2Range(Token0(p), ticks[0], ticks[|ticks| - 1]) == SumInside(Token0(p), ticks)
    ensures L2Range(Token1(p), ticks[0], ticks[|ticks| - 1]) == SumInside(Token1(p), ticks)
  {
    GrowthTelescopes(Token0(p), ticks);
    GrowthTelescopes(Token1(p), ticks);
  }

  /** New global growth is credited to a range exactly when the range holds the current tick. */
  lemma GrowthAccrues(b: Book, lower: int, upper: int, delta: U256)
    requires lower < upper
    ensures Inside(b.(global := Add256(b.global, delta)), lower, upper)
         == if lower <= b.current < upper then Add256(Inside(b, lower, upper), delta)
            else Inside(b, lower, upper)
  {
    hide Sub256;
    hide Add256;
    AddPassesSub(b.global, delta, b.outside(lower));
    AddPassesSub(Sub256(b.global, b.outside(lower)), delta, b.outside(upper));
  }

  /** Of the parts of a range that holds the current tick, the accrual is credited once. */
  lemma AccruesOnce(b: Book, ticks: seq<int>, delta: U256)
    requires |ticks| > 1 && Increasing(ticks) && ticks[0] <= b.current < ticks[|ticks| - 1]
    ensures SumInside(b.(global := Add256(b.global, delta)), ticks) == Add256(SumInside(b, ticks), delta)
  {
    var b' := b.(global := Add256(b.global, delta));
    GrowthTelescopes(b, ticks);
    GrowthTelescopes(b', ticks);
    GrowthAccrues(b, ticks[0], ticks[|ticks| - 1], delta);
  }
}
