/** The bitmap searches refine neighbour queries on the set of initialised ticks. */
module TickOrder {
  import opened Wrappers
  import opened WordMath
  import opened TickMath
  import opened TickSearch

  /** A tick the upward search halts at: an initialised tick, or the last tick of a word
      that lies within one spacing of the top. */
  predicate StopAbove(bm: Bitmap, s: int, u: int)
    requires s > 0
  {
    IsInitialized(bm, s, u) || (u % s == 0 && u / s % 256 == 255 && u + s >= MAX_TICK)
  }

  /** A tick the downward search halts at. */
  predicate StopBelow(bm: Bitmap, s: int, u: int)
    requires s > 0
  {
    IsInitialized(bm, s, u) || (u % s == 0 && u / s % 256 == 0 && u <= MIN_TICK + s)
  }

  predicate NoneBetween(bm: Bitmap, s: int, lo: int, hi: int)
    requires s > 0
  {
    forall u :: lo < u < hi ==> !IsInitialized(bm, s, u)
  }

  /** On the spacing grid, ticks are ordered as their compressed ticks. */
  lemma GridOrder(tick: int, u: int, s: int)
    requires s > 0 && u % s == 0
    ensures u == u / s * s
    ensures tick < u <==> tick / s < u / s
  {
    FloorMultiple(tick, s);
    var q, j := tick / s, u / s;
    assert u == j * s;
    MultiplesApart(q, j, s);
    MultiplesApart(j, q + 1, s);
  }

  // ---------- searching upward ----------

  /** One upward probe: nothing initialised or stop-worthy strictly before its answer. */
  lemma ProbeGtStops(bm: Bitmap, s: I24, tick: I24)
    requires Spacing(s) && !AtUpperBound(tick, s)
    ensures var (found, next) := ProbeGt(bm, s, tick);
            && next > tick
            && found == IsInitialized(bm, s, next)
            && (!found ==> next % s == 0 && next / s % 256 == 255)
            && forall u :: tick < u < next ==> !StopAbove(bm, s, u)
  {
    hide ProbeGt;
    hide SetAt;
    var k := ProbeGtSpec(bm, s, tick);
    var next := ProbeGt(bm, s, tick).1;
    forall u | tick < u < next
      ensures !StopAbove(bm, s, u)
    {
      if u % s == 0 {
        GridOrder(tick, u, s);
        GridOrder(u, next, s);
        assert !SetAt(bm, u / s);
      }
    }
  }

  /** The full upward search returns the next stop above its input. */
  lemma {:induction false} NextTickGtIsNextStop(bm: Bitmap, s: I24, tick: I24)
    requires Spacing(s) && MIN_TICK <= tick && !AtUpperBound(tick, s)
    ensures var (found, t) := NextTickGt(bm, s, tick, true);
            && t > tick
            && found == IsInitialized(bm, s, t)
            && StopAbove(bm, s, t)
            && forall u :: tick < u < t ==> !StopAbove(bm, s, u)
    decreases MAX_TICK - tick
  {
    hide ProbeGt;
    hide IsInitialized;
    ProbeGtStops(bm, s, tick);
    var (found, next) := ProbeGt(bm, s, tick);
    if !found && Sub24(MAX_TICK, next) > s {
      assert !StopAbove(bm, s, next);
      NextTickGtIsNextStop(bm, s, next);
    }
  }

  /** `(true, t)`: `t` is the least initialised tick above `tick`.
      `(false, t)`: nothing is initialised up to `t`, which is within one spacing of the top. */
  lemma NextTickGtRefinesSet(bm: Bitmap, s: I24, tick: I24)
    requires Spacing(s) && MIN_TICK <= tick
    ensures var (found, t) := NextTickGt(bm, s, tick, true);
            && (found ==> t > tick && IsInitialized(bm, s, t) && NoneBetween(bm, s, tick, t))
            && (!found ==> (t == tick || t % s == 0) && t >= tick && t + s >= MAX_TICK
                           && NoneBetween(bm, s, tick, t + 1))
  {
    hide IsInitialized;
    hide ProbeGt;
    hide Sub24;
    if !AtUpperBound(tick, s) {
      NextTickGtIsNextStop(bm, s, tick);
      var (found, t) := NextTickGt(bm, s, tick, true);
      forall u | tick < u < t
        ensures !IsInitialized(bm, s, u)
      {
        assert !StopAbove(bm, s, u);
      }
    }
  }

  // ---------- searching downward ----------

  lemma ProbeLtStops(bm: Bitmap, s: I24, tick: I24)
    requires Spacing(s) && !AtLowerBound(tick, s)
    ensures var (found, next) := ProbeLt(bm, s, tick);
            && next < FloorTo(tick, s) <= tick
            && found == IsInitialized(bm, s, next)
            && next % s == 0
            && (!found ==> next / s % 256 == 0)
            && forall u :: next < u < FloorTo(tick, s) ==> !StopBelow(bm, s, u)
  {
    hide ProbeLt;
    hide SetAt;
    var k := ProbeLtSpec(bm, s, tick);
    var next := ProbeLt(bm, s, tick).1;
    var floor := FloorTo(tick, s);
    GridPoint(tick / s, s);
    assert floor % s == 0 && floor / s == tick / s;
    assert next / s == k;
    hide FloorTo;
    forall u | next < u < floor
      ensures !StopBelow(bm, s, u)
    {
      if u % s == 0 {
        GridOrder(next, u, s);
        GridOrder(u, floor, s);
        assert !SetAt(bm, u / s);
      }
    }
  }

  lemma FloorOfGrid(u: int, s: int)
    requires s > 0 && u % s == 0
    ensures FloorTo(u, s) == u
  {
  }

  /** The full downward search returns the next stop below the grid point of its input. */
  lemma {:induction false} NextTickLtIsNextStop(bm: Bitmap, s: I24, tick: I24)
    requires Spacing(s) && tick <= MAX_TICK && !AtLowerBound(tick, s)
    ensures var (found, t) := NextTickLt(bm, s, tick, true);
            && t < FloorTo(tick, s) <= tick
            && found == IsInitialized(bm, s, t)
            && StopBelow(bm, s, t)
            && forall u :: t < u < FloorTo(tick, s) ==> !StopBelow(bm, s, u)
    decreases tick - MIN_TICK
  {
    hide ProbeLt;
    hide IsInitialized;
    hide FloorTo;
    ProbeLtStops(bm, s, tick);
    var (found, next) := ProbeLt(bm, s, tick);
    if !found && Sub24(next, MIN_TICK) > s {
      assert !StopBelow(bm, s, next);
      NextTickLtIsNextStop(bm, s, next);
      FloorOfGrid(next, s);
    }
  }

  /** `(true, t)`: `t` is the greatest initialised tick strictly below the grid point at or
      below `tick`. `(false, t)`: nothing from `t` up to that grid point is initialised, and
      `t` is within one spacing of the bottom. */
  lemma NextTickLtRefinesSet(bm: Bitmap, s: I24, tick: I24)
    requires Spacing(s) && tick <= MAX_TICK
    ensures var (found, t) := NextTickLt(bm, s, tick, true);
            && (found ==> t < FloorTo(tick, s) && IsInitialized(bm, s, t)
                          && NoneBetween(bm, s, t, FloorTo(tick, s)))
            && (!found ==> (t == tick || t % s == 0) && t <= tick && t <= MIN_TICK + s
                           && NoneBetween(bm, s, t - 1, FloorTo(tick, s)))
  {
    hide IsInitialized;
    hide FloorTo;
    hide ProbeLt;
    hide Sub24;
    FloorShift(tick, s);
    if !AtLowerBound(tick, s) {
      NextTickLtIsNextStop(bm, s, tick);
      var (found, t) := NextTickLt(bm, s, tick, true);
      forall u | t < u < FloorTo(tick, s)
        ensures !IsInitialized(bm, s, u)
      {
        assert !StopBelow(bm, s, u);
      }
    }
  }

  /** Between initialised ticks the two searches undo each other: going down undoes going up
      above the lowest tick, and going up undoes going down below the highest. */
  lemma GtLtInverse(bm: Bitmap, s: I24, a: I24, b: I24)
    requires Spacing(s) && MIN_TICK <= a <= MAX_TICK && MIN_TICK <= b <= MAX_TICK
    requires IsInitialized(bm, s, a) && IsInitialized(bm, s, b)
    ensures MIN_TICK < a && NextTickGt(bm, s, a, true) == (true, b) ==> NextTickLt(bm, s, b, true) == (true, a)
    ensures b < MAX_TICK && NextTickLt(bm, s, b, true) == (true, a) ==> NextTickGt(bm, s, a, true) == (true, b)
  {
    hide NextTickGt;
    hide NextTickLt;
    NextTickGtRefinesSet(bm, s, a);
    NextTickLtRefinesSet(bm, s, b);
    FloorOfGrid(b, s);
    GridGap(a, b, s);
    GridGap(b, a, s);
    var (up, t) := NextTickGt(bm, s, a, true);
    var (down, u) := NextTickLt(bm, s, b, true);
    if up && t == b && !down {
      GridGap(a, u, s);
    }
    if down && u == a && !up {
      GridGap(t, b, s);
    }
  }

  lemma GridGap(a: int, b: int, s: int)
    requires s > 0 && a % s == 0 && b % s == 0
    ensures a < b ==> a + s <= b
  {
    GridOrder(a, b, s);
    GridOrder(b, a, s);
    MultiplesApart(a / s, b / s, s);
  }

  // ---------- searching at or below ----------

  /** When the search at or below a tick has an answer: the tick is at the lower bound, its
      word holds a set bit at or below it, or its word starts within one spacing of the bottom. */
  ghost predicate LeAnswers(bm: Bitmap, s: int, tick: int)
    requires s > 0
  {
    var start := tick / s / 256 * 256;
    || AtLowerBound(tick, s)
    || (exists k :: start <= k <= tick / s && SetAt(bm, k))
    || start * s <= MIN_TICK + s
  }

  /** At an unset first tick of a word, away from the bottom, the recursive step goes nowhere. */
  lemma {:induction false} LeFixedPoint(bm: Bitmap, s: I24, tick: I24, fuel: nat)
    requires Spacing(s) && MIN_TICK + s < tick <= MAX_TICK
    requires tick % s == 0 && tick / s % 256 == 0 && !SetAt(bm, tick / s)
    ensures NextTickLe(bm, s, tick, true, fuel) == None
    decreases fuel
  {
    hide ProbeLe;
    hide SetAt;
    if fuel > 0 {
      var k := ProbeLeSpec(bm, s, tick);
      assert k == tick / s;
      GridOrder(tick, tick, s);
      LeFixedPoint(bm, s, tick, fuel - 1);
    }
  }

  /** Searching at or below returns exactly when `LeAnswers` holds, and then at once: more
      recursion never turns a missing answer into one, nor changes an answer. */
  lemma NextTickLeReturnsIff(bm: Bitmap, s: I24, tick: I24, fuel: nat)
    requires Spacing(s) && tick <= MAX_TICK && fuel > 0
    ensures NextTickLe(bm, s, tick, true, fuel).Some? <==> LeAnswers(bm, s, tick)
    ensures LeAnswers(bm, s, tick) ==> NextTickLe(bm, s, tick, true, fuel) == NextTickLe(bm, s, tick, true, 1)
  {
    hide ProbeLe;
    hide SetAt;
    hide Sub24;
    if !AtLowerBound(tick, s) {
      var k := ProbeLeSpec(bm, s, tick);
      var (found, next) := ProbeLe(bm, s, tick);
      SubMinExact(next);
      if !SetAt(bm, k) {
        assert k == tick / s / 256 * 256;
        if Sub24(next, MIN_TICK) > s {
          LeFixedPoint(bm, s, next, fuel - 1);
        }
      }
    }
  }

  lemma SubMinExact(next: I24)
    requires next <= MAX_TICK
    ensures Sub24(next, MIN_TICK) == next - MIN_TICK
  {
  }

  /** An answer at or below is the neighbour in the set: the greatest initialised tick not
      above the input, or a lower bound within one spacing of the bottom. */
  lemma NextTickLeRefinesSet(bm: Bitmap, s: I24, tick: I24, fuel: nat)
    requires Spacing(s) && tick <= MAX_TICK
    ensures NextTickLe(bm, s, tick, true, fuel).Some? ==>
              var (found, t) := NextTickLe(bm, s, tick, true, fuel).value;
              && t <= tick
              && (found ==> IsInitialized(bm, s, t) && NoneBetween(bm, s, t, tick + 1))
              && (!found ==> t <= MIN_TICK + s && (t == tick || NoneBetween(bm, s, t - 1, tick + 1)))
  {
    hide ProbeLe;
    hide SetAt;
    hide Sub24;
    if fuel > 0 {
      NextTickLeReturnsIff(bm, s, tick, fuel);
      if LeAnswers(bm, s, tick) && !AtLowerBound(tick, s) {
        var k := ProbeLeSpec(bm, s, tick);
        var t := ProbeLe(bm, s, tick).1;
        SubMinExact(t);
        forall u | t < u <= tick
          ensures !IsInitialized(bm, s, u)
        {
          if u % s == 0 {
            GridOrder(t, u, s);
            GridOrder(tick, u, s);
          }
        }
      }
    }
  }

  /** No number of recursive calls finds an answer at or below tick 0 of an empty pool. */
  lemma NextTickLeDiverges(fuel: nat)
    ensures NextTickLe(_ => 0, 1, 0, true, fuel) == None
  {
    ZeroBits(0);
    LeFixedPoint(_ => 0, 1, 0, fuel);
  }

  // ---------- which answers are right about the whole tick range ----------

  /** The only grid point within one spacing of the top is the highest valid tick. */
  lemma OnlyTop(u: int, s: I24)
    requires s > 0 && u % s == 0 && u <= MAX_TICK < u + s
    ensures u == MaxValidTick(s)
  {
    hide MaxValidTick;
    ValidTickBounds(s);
    GridPoint(MAX_TICK / s, s);
    GridGap(u, MaxValidTick(s), s);
    GridGap(MaxValidTick(s), u, s);
  }

  lemma OnlyBottom(u: int, s: I24)
    requires s > 0 && u % s == 0 && u - s < MIN_TICK <= u
    ensures u == MinValidTick(s)
  {
    hide MaxValidTick;
    hide MinValidTick;
    ValidTickBounds(s);
    NegatedGrid(u, s);
    OnlyTop(-u, s);
  }

  lemma NegatedGrid(u: int, s: int)
    requires s > 0 && u % s == 0
    ensures -u % s == 0
  {
    DivModUnique(-u, s, -(u / s), 0);
  }

  /** No word ends exactly one spacing below the top: the top is no multiple of 256. */
  lemma NoEdgeBelowTop(u: int, s: int)
    requires s > 0 && u % s == 0 && u / s % 256 == 255
    ensures u + s != MAX_TICK
  {
    var m := u / s / 256 + 1;
    assert u + s == 256 * (m * s);
  }

  /** No word starts exactly one spacing above the bottom: the quotient of the top by the spacing
      would be 1 modulo 256, and the top has no such divisor but itself. */
  lemma NoEdgeAboveBottom(u: int, s: int)
    requires Spacing(s) && u % s == 0 && u / s % 256 == 0
    ensures u - s != MIN_TICK
  {
    var m := -(u / s / 256);
    assert u == -256 * (m * s);
    if m > 0 {
      NoSuchFactor(s, m);
    } else {
      MulMono(m, 0, s);
    }
  }

  lemma NoSuchFactor(s: int, m: int)
    requires s > 0 && m > 0
    ensures s + 256 * (m * s) != MAX_TICK
  {
    hide NoDivisors;
    MulMono(1, m, s);
    DivModUnique(s + 256 * (m * s), s, 1 + 256 * m, 0);
    if 257 * s <= MAX_TICK && s % 256 == 232 {
      NoSuchDivisor(s);
    }
  }

  lemma NoSuchDivisor(s: int)
    requires 0 < s && 257 * s <= MAX_TICK && s % 256 == 232
    ensures MAX_TICK % s != 0
  {
    assert NoDivisors(14);
    hide NoDivisors;
    NoDivisorsBelow(s / 256, 14);
  }

  /** No `256 * k + 232` with `k < n` divides the top. */
  predicate NoDivisors(n: nat) {
    n == 0 || (MAX_TICK % (256 * (n - 1) + 232) != 0 && NoDivisors(n - 1))
  }

  lemma {:induction false} NoDivisorsBelow(k: nat, n: nat)
    requires k < n && NoDivisors(n)
    ensures MAX_TICK % (256 * k + 232) != 0
  {
    if k < n - 1 {
      NoDivisorsBelow(k, n - 1);
    }
  }

  /** The answer above `tick` is the next initialised tick, or that there is none up to the top. */
  predicate GtExact(bm: Bitmap, s: I24, tick: I24)
    requires Spacing(s)
  {
    var (found, t) := NextTickGt(bm, s, tick, true);
    NoneBetween(bm, s, tick, if found then t else MAX_TICK + 1)
  }

  /** It is wrong exactly when the search stops without looking while the highest valid tick,
      still ahead, is initialised. */
  lemma GtIsExactIff(bm: Bitmap, s: I24, tick: I24)
    requires Spacing(s) && MIN_TICK <= tick
    ensures GtExact(bm, s, tick)
       <==> !(AtUpperBound(tick, s) && tick < MaxValidTick(s) && IsInitialized(bm, s, MaxValidTick(s)))
  {
    hide ProbeGt;
    hide SetAt;
    hide MaxValidTick;
    ValidTickBounds(s);
    NextTickGtRefinesSet(bm, s, tick);
    var (found, t) := NextTickGt(bm, s, tick, true);
    if !found {
      if !AtUpperBound(tick, s) {
        NextTickGtIsNextStop(bm, s, tick);
        NoEdgeBelowTop(t, s);
      }
      hide NextTickGt;
      forall u | t < u <= MAX_TICK && IsInitialized(bm, s, u)
        ensures AtUpperBound(tick, s) && u == MaxValidTick(s)
      {
        if AtUpperBound(tick, s) {
          OnlyTop(u, s);
        } else {
          GridGap(t, u, s);
        }
      }
    }
  }

  /** The answer strictly below `tick` leaves no initialised tick out, unless `tick` is off the
      grid and the grid point below it is initialised. */
  lemma LtSkipsIff(bm: Bitmap, s: I24, tick: I24)
    requires Spacing(s) && tick <= MAX_TICK && !AtLowerBound(tick, s)
    ensures NoneBetween(bm, s, NextTickLt(bm, s, tick, true).1, tick)
       <==> tick % s == 0 || !IsInitialized(bm, s, FloorTo(tick, s))
  {
    hide NextTickLt;
    hide SetAt;
    NextTickLtIsNextStop(bm, s, tick);
    var t := NextTickLt(bm, s, tick, true).1;
    var floor := FloorTo(tick, s);
    FloorMultiple(tick, s);
    GridPoint(tick / s, s);
    assert floor < tick || tick % s == 0;
    hide FloorTo;
    forall u | t < u < tick && IsInitialized(bm, s, u)
      ensures u == floor
    {
      assert u < floor ==> !StopBelow(bm, s, u);
      GridGap(floor, u, s);
    }
  }

  predicate LtExact(bm: Bitmap, s: I24, tick: I24)
    requires Spacing(s)
  {
    var (found, t) := NextTickLt(bm, s, tick, true);
    NoneBetween(bm, s, if found then t else MIN_TICK - 1, tick)
  }

  /** The answer strictly below `tick` is right about the whole range except in two cases: at the
      lower bound with the lowest valid tick initialised, and off an initialised grid point. */
  lemma LtIsExactIff(bm: Bitmap, s: I24, tick: I24)
    requires Spacing(s) && tick <= MAX_TICK
    ensures LtExact(bm, s, tick)
       <==> if AtLowerBound(tick, s) then !(MinValidTick(s) < tick && IsInitialized(bm, s, MinValidTick(s)))
            else tick % s == 0 || !IsInitialized(bm, s, FloorTo(tick, s))
  {
    hide ProbeLt;
    hide SetAt;
    hide MinValidTick;
    ValidTickBounds(s);
    FloorMultiple(tick, s);
    hide FloorTo;
    var (found, t) := NextTickLt(bm, s, tick, true);
    if AtLowerBound(tick, s) {
      forall u | MIN_TICK <= u < tick && IsInitialized(bm, s, u)
        ensures u == MinValidTick(s)
      {
        OnlyBottom(u, s);
      }
    } else {
      LtSkipsIff(bm, s, tick);
      NextTickLtIsNextStop(bm, s, tick);
      hide NextTickLt;
      if !found {
        NoEdgeAboveBottom(t, s);
        forall u | MIN_TICK <= u <= t
          ensures !IsInitialized(bm, s, u)
        {
          if u % s == 0 {
            GridGap(u, t, s);
          }
        }
      }
    }
  }

  /** The answer at or below `tick` is the greatest initialised tick there, or that there is none
      down to the bottom. */
  predicate LeExact(bm: Bitmap, s: I24, tick: I24, fuel: nat)
    requires s > 0 && NextTickLe(bm, s, tick, true, fuel).Some?
  {
    var (found, t) := NextTickLe(bm, s, tick, true, fuel).value;
    NoneBetween(bm, s, if found then t else MIN_TICK - 1, tick + 1)
  }

  /** Away from the lower bound every answer is right; at the bound the answer is always that there
      is none. */
  lemma LeExactAwayFromBound(bm: Bitmap, s: I24, tick: I24, fuel: nat)
    requires Spacing(s) && tick <= MAX_TICK
    ensures NextTickLe(bm, s, tick, true, fuel).Some? ==>
              (LeExact(bm, s, tick, fuel) <==> !AtLowerBound(tick, s) || NoneBetween(bm, s, MIN_TICK - 1, tick + 1))
  {
    hide ProbeLe;
    hide SetAt;
    hide Sub24;
    NextTickLeRefinesSet(bm, s, tick, fuel);
    if fuel > 0 && !AtLowerBound(tick, s) {
      NextTickLeReturnsIff(bm, s, tick, fuel);
      var k := ProbeLeSpec(bm, s, tick);
      var (found, t) := ProbeLe(bm, s, tick);
      SubMinExact(t);
      if !found && LeAnswers(bm, s, tick) {
        NoEdgeAboveBottom(t, s);
        forall u | MIN_TICK <= u < t
          ensures !IsInitialized(bm, s, u)
        {
          if u % s == 0 {
            GridGap(u, t, s);
          }
        }
      }
    }
  }

  /** The answer at or below `tick`, where there is one, is wrong exactly when the search stops at
      the lower bound without looking, and `tick` itself or the lowest valid tick is initialised. */
  lemma LeIsExactIff(bm: Bitmap, s: I24, tick: I24, fuel: nat)
    requires Spacing(s) && tick <= MAX_TICK
    ensures NextTickLe(bm, s, tick, true, fuel).Some? ==>
              (LeExact(bm, s, tick, fuel)
               <==> !(AtLowerBound(tick, s) && MIN_TICK <= tick
                      && (IsInitialized(bm, s, tick)
                          || (MinValidTick(s) <= tick && IsInitialized(bm, s, MinValidTick(s))))))
  {
    LeExactAwayFromBound(bm, s, tick, fuel);
    hide NextTickLe;
    hide LeExact;
    hide SetAt;
    hide MinValidTick;
    ValidTickBounds(s);
    if AtLowerBound(tick, s) {
      forall u | MIN_TICK <= u <= tick && IsInitialized(bm, s, u)
        ensures u == tick || u == MinValidTick(s)
      {
        if u != tick {
          OnlyBottom(u, s);
        }
      }
    }
  }

  // ---------- one step of each search ----------

  /** Within one spacing of the end it moves toward, each search returns its input, unlooked at. */
  lemma BoundsReturnTheInput(bm: Bitmap, s: I24, tick: I24, initializedOnly: bool, fuel: nat)
    requires Spacing(s) && fuel > 0
    ensures tick + s >= MAX_TICK ==> NextTickGt(bm, s, tick, initializedOnly) == (false, tick)
    ensures tick - s <= MIN_TICK ==> NextTickLt(bm, s, tick, initializedOnly) == (false, tick)
    ensures tick - s <= MIN_TICK ==> NextTickLe(bm, s, tick, initializedOnly, fuel) == Some((false, tick))
  {
  }

  /** Elsewhere, asked for any tick, the search above returns the next initialised tick of the word
      after its input, or that word's last tick. */
  lemma NextTickGtWithinWord(bm: Bitmap, s: I24, tick: I24)
    requires Spacing(s) && tick + s < MAX_TICK
    ensures var (found, t) := NextTickGt(bm, s, tick, false);
            && t > tick && t % s == 0 && t / s / 256 == (tick / s + 1) / 256
            && found == IsInitialized(bm, s, t)
            && (!found ==> t / s % 256 == 255)
            && NoneBetween(bm, s, tick, t)
  {
    hide ProbeGt;
    hide SetAt;
    var k := ProbeGtSpec(bm, s, tick);
    ProbeGtStops(bm, s, tick);
    var next := ProbeGt(bm, s, tick).1;
    forall u | tick < u < next
      ensures !IsInitialized(bm, s, u)
    {
      assert !StopAbove(bm, s, u);
    }
  }

  /** The search strictly below, the previous one before its grid point, or the word's first tick. */
  lemma NextTickLtWithinWord(bm: Bitmap, s: I24, tick: I24)
    requires Spacing(s) && tick - s > MIN_TICK
    ensures var (found, t) := NextTickLt(bm, s, tick, false);
            && t < FloorTo(tick, s) && t % s == 0 && t / s / 256 == (tick / s - 1) / 256
            && found == IsInitialized(bm, s, t)
            && (!found ==> t / s % 256 == 0)
            && NoneBetween(bm, s, t, FloorTo(tick, s))
  {
    hide ProbeLt;
    hide SetAt;
    var k := ProbeLtSpec(bm, s, tick);
    ProbeLtStops(bm, s, tick);
    var next := ProbeLt(bm, s, tick).1;
    forall u | next < u < FloorTo(tick, s)
      ensures !IsInitialized(bm, s, u)
    {
      assert !StopBelow(bm, s, u);
    }
  }

  /** The search at or below, the nearest one up to its grid point, or the word's first tick. */
  lemma NextTickLeWithinWord(bm: Bitmap, s: I24, tick: I24, fuel: nat)
    requires Spacing(s) && tick - s > MIN_TICK && fuel > 0
    ensures NextTickLe(bm, s, tick, false, fuel).Some?
    ensures var (found, t) := NextTickLe(bm, s, tick, false, fuel).value;
            && t <= tick && t % s == 0 && t / s / 256 == tick / s / 256
            && found == IsInitialized(bm, s, t)
            && (!found ==> t / s % 256 == 0)
            && NoneBetween(bm, s, t, tick + 1)
  {
    hide ProbeLe;
    hide SetAt;
    var k := ProbeLeSpec(bm, s, tick);
    var t := ProbeLe(bm, s, tick).1;
    forall u | t < u <= tick
      ensures !IsInitialized(bm, s, u)
    {
      if u % s == 0 {
        GridOrder(t, u, s);
        GridOrder(tick, u, s);
      }
    }
  }

  // ---------- witnesses ----------

  /** One initialised tick, 887220, of spacing 60. */
  function TopTick(): Bitmap {
    w => if w == 57 then Shl(1, 195) else 0
  }

  /** From 887219 the search above does not see it. */
  lemma GtMissesTop()
    ensures IsInitialized(TopTick(), 60, 887220)
    ensures NextTickGt(TopTick(), 60, 887219, true) == (false, 887219)
  {
    BitShl(1, 195, 195);
    OneBit(0);
  }

  /** One initialised tick, 0. */
  function ZeroTick(): Bitmap {
    w => if w == 0 then 1 else 0
  }

  /** From 5, off the grid of spacing 10, the search strictly below does not see it. */
  lemma LtSkipsZero()
    ensures IsInitialized(ZeroTick(), 10, 0)
    ensures NextTickLt(ZeroTick(), 10, 5, true).1 < 0
  {
    hide NextTickLt;
    NextTickLtIsNextStop(ZeroTick(), 10, 5);
  }

  /** One initialised tick, MIN_TICK + 1, of spacing 1. */
  function BottomTick(): Bitmap {
    w => if w == -3466 then Shl(1, 25) else 0
  }

  /** From there the search at or below does not see it, nor is it the lowest valid tick. */
  lemma LeMissesItsInput()
    ensures IsInitialized(BottomTick(), 1, MIN_TICK + 1) && !IsInitialized(BottomTick(), 1, MIN_TICK)
    ensures NextTickLe(BottomTick(), 1, MIN_TICK + 1, true, 1) == Some((false, MIN_TICK + 1))
  {
    BitShl(1, 25, 25);
    BitShl(1, 25, 24);
    OneBit(0);
  }
}
