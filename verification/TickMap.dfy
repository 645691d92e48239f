/** Loading the data of every initialised tick of a range: the enumeration loop over the
    upward search, and the map filled in whatever order the reads complete. */
module TickMap {
  import opened Wrappers
  import opened WordMath
  import opened TickMath
  import opened TickSearch
  import opened TickOrder
  import opened PackedWords

  datatype TickWords = TickWords(liquidity: U256, feeGrowthOutside0: U256, feeGrowthOutside1: U256)

  /** The storage of one pool: its bitmap words, and the words of every tick. */
  datatype Pool = Pool(bitmap: Bitmap, tickWords: int -> TickWords)

  datatype TickData = TickData(
    tick: int, isInitialized: bool, liquidity: Liquidity,
    feeGrowthOutside0: U256, feeGrowthOutside1: U256)

  function LoadTickData(pool: Pool, s: I24, tick: I24): TickData
    requires s > 0
  {
    var words := pool.tickWords(tick);
    TickData(tick, TickInitialized(pool.bitmap, s, tick), LiquidityByBytes(words.liquidity),
             words.feeGrowthOutside0, words.feeGrowthOutside1)
  }

  function StartTick(start: Option<I24>, s: I24): I24
    requires s > 0
  {
    match start case Some(t) => NormalizeTick(t, s) case None => MinValidTick(s)
  }

  function EndTick(end: Option<I24>, s: I24): I24
    requires s > 0
  {
    match end case Some(t) => NormalizeTick(t, s) case None => MaxValidTick(s)
  }

  // ---------- when the enumeration loop returns ----------

  /** A tick the loop visits and cannot leave: it lies within the range and within one
      spacing of the top, and is the start of the loop or a stop of the upward search. */
  predicate StuckAt(bm: Bitmap, s: int, start: int, end: int, u: int)
    requires s > 0
  {
    start <= u <= end && AtUpperBound(u, s) && (u == start || StopAbove(bm, s, u))
  }

  ghost predicate Stuck(bm: Bitmap, s: int, start: int, end: int)
    requires s > 0
  {
    exists u :: StuckAt(bm, s, start, end, u)
  }

  lemma NotStuckAt(bm: Bitmap, s: int, start: int, end: int, u: int)
    requires s > 0 && !Stuck(bm, s, start, end)
    ensures !StuckAt(bm, s, start, end, u)
  {
  }

  /** The loop of the enumeration, cut off after `fuel` rounds. */
  function Enumerate(bm: Bitmap, s: I24, ct: I24, end: I24, fuel: nat): Option<seq<I24>>
    requires Spacing(s)
    decreases fuel
  {
    if ct > end then Some([])
    else if fuel == 0 then None
    else
      var tick := NextTickGt(bm, s, ct, true).1;
      match Enumerate(bm, s, tick, end, fuel - 1)
      case None => None
      case Some(rest) => Some([tick] + rest)
  }

  /** Moving the loop from one stop to the next neither creates nor removes a stuck tick. */
  lemma StuckMoves(bm: Bitmap, s: I24, ct: I24, end: I24)
    requires Spacing(s) && MIN_TICK <= ct <= end && !AtUpperBound(ct, s)
    ensures var t := NextTickGt(bm, s, ct, true).1; Stuck(bm, s, ct, end) == Stuck(bm, s, t, end)
  {
    hide NextTickGt;
    hide StopAbove;
    NextTickGtIsNextStop(bm, s, ct);
    var t := NextTickGt(bm, s, ct, true).1;
    if u :| StuckAt(bm, s, ct, end, u) {
      assert StuckAt(bm, s, t, end, u);
    }
    if u :| StuckAt(bm, s, t, end, u) {
      assert StuckAt(bm, s, ct, end, u);
    }
  }

  /** With a stuck tick in the range, no number of rounds ends the loop. */
  lemma {:induction false} EnumerateDiverges(bm: Bitmap, s: I24, ct: I24, end: I24, fuel: nat)
    requires Spacing(s) && MIN_TICK <= ct && Stuck(bm, s, ct, end)
    ensures Enumerate(bm, s, ct, end, fuel) == None
    decreases fuel
  {
    hide NextTickGt;
    hide StopAbove;
    var u :| StuckAt(bm, s, ct, end, u);
    if fuel > 0 {
      if AtUpperBound(ct, s) {
        StaysAtBound(bm, s, ct);
        EnumerateDiverges(bm, s, ct, end, fuel - 1);
      } else {
        StuckMoves(bm, s, ct, end);
        NextTickGtIsNextStop(bm, s, ct);
        EnumerateDiverges(bm, s, NextTickGt(bm, s, ct, true).1, end, fuel - 1);
      }
    }
  }

  lemma StaysAtBound(bm: Bitmap, s: I24, ct: I24)
    requires Spacing(s) && AtUpperBound(ct, s)
    ensures NextTickGt(bm, s, ct, true) == (false, ct)
  {
  }

  /** Without one, enough rounds end it. */
  lemma {:induction false} EnumerateReturns(bm: Bitmap, s: I24, ct: I24, end: I24, fuel: nat)
    requires Spacing(s) && MIN_TICK <= ct && !Stuck(bm, s, ct, end)
    requires fuel >= end - ct + 1
    ensures Enumerate(bm, s, ct, end, fuel).Some?
    decreases fuel
  {
    hide NextTickGt;
    hide StopAbove;
    if ct <= end {
      NotStuckAt(bm, s, ct, end, ct);
      StuckMoves(bm, s, ct, end);
      NextTickGtIsNextStop(bm, s, ct);
      EnumerateReturns(bm, s, NextTickGt(bm, s, ct, true).1, end, fuel - 1);
    }
  }

  /** The loop returns if and only if no tick of the range is stuck. */
  lemma EnumerateReturnsIff(bm: Bitmap, s: I24, start: I24, end: I24)
    requires Spacing(s) && MIN_TICK <= start
    ensures (exists fuel: nat :: Enumerate(bm, s, start, end, fuel).Some?) <==> !Stuck(bm, s, start, end)
  {
    hide Enumerate;
    if Stuck(bm, s, start, end) {
      forall fuel: nat
        ensures !Enumerate(bm, s, start, end, fuel).Some?
      {
        EnumerateDiverges(bm, s, start, end, fuel);
      }
    } else {
      var fuel: nat := if start <= end then end - start + 1 else 0;
      EnumerateReturns(bm, s, start, end, fuel);
      assert Enumerate(bm, s, start, end, fuel).Some?;
    }
  }

  /** A range that ends more than one spacing below the top has no stuck tick. */
  lemma LowRangeIsNotStuck(bm: Bitmap, s: I24, start: int, end: int)
    requires s > 0 && end + s < MAX_TICK
    ensures !Stuck(bm, s, start, end)
  {
  }

  /** A pool with liquidity at its highest usable tick cannot be loaded over the default range. */
  lemma FullRangePoolDiverges(bm: Bitmap, s: I24, start: Option<I24>, fuel: nat)
    requires Spacing(s)
    ensures IsInitialized(bm, s, MaxValidTick(s)) ==>
              Enumerate(bm, s, StartTick(start, s), EndTick(None, s), fuel) == None
  {
    hide IsInitialized;
    hide Enumerate;
    hide MaxValidTick;
    hide MinValidTick;
    ValidTickBounds(s);
    StartInRange(start, s);
    if IsInitialized(bm, s, MaxValidTick(s)) {
      assert StuckAt(bm, s, StartTick(start, s), EndTick(None, s), MaxValidTick(s));
      EnumerateDiverges(bm, s, StartTick(start, s), EndTick(None, s), fuel);
    }
  }

  /** For one: the pool whose only initialised tick is 887220, of spacing 60. */
  lemma TopTickDiverges(fuel: nat)
    ensures Enumerate(TopTick(), 60, StartTick(None, 60), EndTick(None, 60), fuel) == None
  {
    GtMissesTop();
    hide IsInitialized;
    hide Enumerate;
    FullRangePoolDiverges(TopTick(), 60, None, fuel);
  }

  lemma StartInRange(start: Option<I24>, s: I24)
    requires s > 0
    ensures MIN_TICK <= StartTick(start, s) <= MaxValidTick(s)
  {
    hide MaxValidTick;
    hide MinValidTick;
    ValidTickBounds(s);
  }

  // ---------- what it pushes ----------

  /** The stop that closes a listing: the least one beyond the end of the range. */
  ghost predicate Closes(bm: Bitmap, s: int, end: int, c: int)
    requires s > 0
  {
    end < c && StopAbove(bm, s, c) && forall u :: end < u < c ==> !StopAbove(bm, s, u)
  }

  /** `ticks` lists, in increasing order, exactly the initialised ticks of `(start, end]`,
      closed by the next stop beyond `end`. */
  ghost predicate ListsRange(bm: Bitmap, s: int, start: int, end: int, ticks: seq<I24>)
    requires s > 0
  {
    if start > end then ticks == []
    else
      && |ticks| > 0
      && (forall i, j :: 0 <= i < j < |ticks| ==> ticks[i] < ticks[j])
      && (forall u: I24 :: u <= end ==> (u in ticks <==> start < u && IsInitialized(bm, s, u)))
      && Closes(bm, s, end, ticks[|ticks| - 1])
      && (forall i :: 0 <= i < |ticks| - 1 ==> ticks[i] <= end)
  }

  /** A pushed prefix of the listing: all the stops of `(start, ct]`, in increasing order. */
  ghost predicate Pushed(bm: Bitmap, s: int, start: int, ct: int, ticks: seq<I24>)
    requires s > 0
  {
    && (ticks == [] ==> ct == start)
    && (ticks != [] ==> ticks[|ticks| - 1] == ct)
    && (forall i, j :: 0 <= i < j < |ticks| ==> ticks[i] < ticks[j])
    && (forall i :: 0 <= i < |ticks| ==> start < ticks[i] && StopAbove(bm, s, ticks[i]))
    && (forall u :: start < u <= ct && StopAbove(bm, s, u) ==> u in ticks)
  }

  lemma PushNext(bm: Bitmap, s: I24, start: int, ct: I24, ticks: seq<I24>)
    requires Spacing(s) && MIN_TICK <= start <= ct && !AtUpperBound(ct, s)
    requires Pushed(bm, s, start, ct, ticks)
    ensures var t := NextTickGt(bm, s, ct, true).1; t > ct && Pushed(bm, s, start, t, ticks + [t])
  {
    hide NextTickGt;
    hide StopAbove;
    NextTickGtIsNextStop(bm, s, ct);
    var t := NextTickGt(bm, s, ct, true).1;
    var ticks' := ticks + [t];
    forall i | 0 <= i < |ticks|
      ensures ticks[i] <= ct
    {
      assert ticks[i] <= ticks[|ticks| - 1];
    }
    forall u | start < u <= t && StopAbove(bm, s, u)
      ensures u in ticks'
    {
      if u <= ct {
        assert u in ticks;
      } else {
        assert ticks'[|ticks|] == t;
      }
    }
  }

  /** Once the loop is past the end of a range with no stuck tick, it has listed the range. */
  lemma PushedLists(bm: Bitmap, s: I24, start: int, end: int, ct: int, ticks: seq<I24>)
    requires Spacing(s) && start <= end < ct && !Stuck(bm, s, start, end)
    requires Pushed(bm, s, start, ct, ticks)
    requires forall i :: 0 <= i < |ticks| - 1 ==> ticks[i] <= end
    ensures ListsRange(bm, s, start, end, ticks)
  {
    hide IsInitialized;
    forall u: I24 | u <= end
      ensures u in ticks <==> start < u && IsInitialized(bm, s, u)
    {
      NotStuckAt(bm, s, start, end, u);
    }
  }

  /** Whenever the cut-off loop returns, it has listed the range. */
  lemma EnumerateLists(bm: Bitmap, s: I24, start: I24, end: I24, fuel: nat)
    requires Spacing(s) && MIN_TICK <= start && Enumerate(bm, s, start, end, fuel).Some?
    ensures ListsRange(bm, s, start, end, Enumerate(bm, s, start, end, fuel).value)
  {
    if Stuck(bm, s, start, end) {
      EnumerateDiverges(bm, s, start, end, fuel);
    } else if start <= end {
      EnumerateContinues(bm, s, start, start, end, [], fuel);
      var ticks := Enumerate(bm, s, start, end, fuel).value;
      assert [] + ticks == ticks;
    }
  }

  lemma {:induction false} EnumerateContinues(bm: Bitmap, s: I24, start: int, ct: I24, end: I24, pushed: seq<I24>,
                                              fuel: nat)
    requires Spacing(s) && MIN_TICK <= start <= ct && start <= end
    requires !Stuck(bm, s, start, end) && !Stuck(bm, s, ct, end)
    requires Pushed(bm, s, start, ct, pushed) && forall i :: 0 <= i < |pushed| - 1 ==> pushed[i] <= end
    requires Enumerate(bm, s, ct, end, fuel).Some?
    ensures ListsRange(bm, s, start, end, pushed + Enumerate(bm, s, ct, end, fuel).value)
    decreases fuel
  {
    hide NextTickGt;
    hide StopAbove;
    hide Stuck;
    hide ListsRange;
    if ct > end {
      assert pushed + [] == pushed;
      PushedLists(bm, s, start, end, ct, pushed);
    } else {
      NotStuckAt(bm, s, ct, end, ct);
      StuckMoves(bm, s, ct, end);
      PushNext(bm, s, start, ct, pushed);
      var t := NextTickGt(bm, s, ct, true).1;
      forall i | 0 <= i < |pushed|
        ensures pushed[i] <= end
      {
        assert pushed[i] <= pushed[|pushed| - 1];
      }
      EnumerateContinues(bm, s, start, t, end, pushed + [t], fuel - 1);
      var rest := Enumerate(bm, s, t, end, fuel - 1).value;
      assert pushed + [t] + rest == pushed + ([t] + rest);
    }
  }

  /** The enumeration loop, called where it returns. */
  method EnumerateTicks(bm: Bitmap, s: I24, start: I24, end: I24) returns (ticks: seq<I24>)
    requires Spacing(s) && MIN_TICK <= start && !Stuck(bm, s, start, end)
    ensures ListsRange(bm, s, start, end, ticks)
  {
    hide NextTickGt;
    hide StopAbove;
    var ct := start;
    ticks := [];
    while ct <= end
      invariant start <= ct
      invariant start > end ==> ticks == []
      invariant !Stuck(bm, s, ct, end)
      invariant Pushed(bm, s, start, ct, ticks)
      invariant forall i :: 0 <= i < |ticks| - 1 ==> ticks[i] <= end
      decreases end - ct
    {
      NotStuckAt(bm, s, ct, end, ct);
      StuckMoves(bm, s, ct, end);
      PushNext(bm, s, start, ct, ticks);
      var (_, tick) := NextTickGt(bm, s, ct, true);
      ticks := ticks + [tick];
      ct := tick;
    }
    if start <= end {
      PushedLists(bm, s, start, end, ct, ticks);
    }
  }

  // ---------- the requested range ----------

  predicate LowestValid(x: int, s: int)
    requires s > 0
  {
    x % s == 0 && MIN_TICK <= x < MIN_TICK + s
  }

  predicate HighestValid(x: int, s: int)
    requires s > 0
  {
    x % s == 0 && MAX_TICK - s < x <= MAX_TICK
  }

  /** The grid point at or below `t`, or the nearest one of the tick range. */
  predicate Nearest(x: int, t: int, s: int)
    requires s > 0
  {
    && x % s == 0
    && MIN_TICK <= x <= MAX_TICK
    && (x <= t < x + s || (t < x && LowestValid(x, s)) || (x + s <= t && HighestValid(x, s)))
  }

  predicate Starts(x: int, start: Option<I24>, s: int)
    requires s > 0
  {
    match start case Some(t) => Nearest(x, t, s) case None => LowestValid(x, s)
  }

  predicate Ends(x: int, end: Option<I24>, s: int)
    requires s > 0
  {
    match end case Some(t) => Nearest(x, t, s) case None => HighestValid(x, s)
  }

  /** The range loaded is the one requested: its ends are the requested ticks moved down to the grid
      and into the tick range, and where none is requested, the extreme grid points of that range. */
  lemma RangeIsAsRequested(start: Option<I24>, end: Option<I24>, s: I24)
    requires s > 0
    ensures Starts(StartTick(start, s), start, s)
    ensures Ends(EndTick(end, s), end, s)
  {
    hide MinValidTick;
    hide MaxValidTick;
    ExtremesAreValid(s);
    if start.Some? {
      NormalizedIsNearest(start.value, s);
    }
    if end.Some? {
      NormalizedIsNearest(end.value, s);
    }
  }

  lemma ExtremesAreValid(s: I24)
    requires s > 0
    ensures LowestValid(MinValidTick(s), s) && HighestValid(MaxValidTick(s), s)
  {
    hide MinValidTick;
    hide MaxValidTick;
    ValidTickBounds(s);
    GridPoint(MAX_TICK / s, s);
    NegatedGrid(MaxValidTick(s), s);
  }

  lemma NormalizedIsNearest(t: I24, s: I24)
    requires s > 0
    ensures Nearest(NormalizeTick(t, s), t, s)
  {
    hide MinValidTick;
    hide MaxValidTick;
    ExtremesAreValid(s);
    ValidTickBounds(s);
    FloorMultiple(t, s);
    GridPoint(t / s, s);
    ClampIsNearest(t, FloorTo(t, s), MinValidTick(s), MaxValidTick(s), s);
  }

  lemma ClampIsNearest(t: int, floor: int, lo: int, hi: int, s: int)
    requires s > 0 && floor % s == 0 && floor <= t < floor + s
    requires LowestValid(lo, s) && HighestValid(hi, s) && lo <= hi
    ensures Nearest(Clamp(floor, lo, hi), t, s)
  {
    GridGap(floor, lo, s);
    GridGap(hi, floor, s);
  }

  /** At most one tick starts, or ends, a requested range. */
  lemma RangeIsUnique(x: int, y: int, t: Option<I24>, s: int)
    requires s > 0
    ensures Starts(x, t, s) && Starts(y, t, s) ==> x == y
    ensures Ends(x, t, s) && Ends(y, t, s) ==> x == y
  {
    if x % s == 0 && y % s == 0 {
      GridGap(x, y, s);
      GridGap(y, x, s);
    }
  }

  // ---------- the loaded map ----------

  /** The words stored for tick `t`, read as its data. */
  ghost predicate IsDataOf(pool: Pool, s: int, t: int, data: TickData)
    requires s > 0
  {
    var words := pool.tickWords(t);
    && data.tick == t
    && data.isInitialized == IsInitialized(pool.bitmap, s, t)
    && data.feeGrowthOutside0 == words.feeGrowthOutside0
    && data.feeGrowthOutside1 == words.feeGrowthOutside1
    && data.liquidity.gross == words.liquidity % HALF_SIZE
    && 0 <= 2 * data.liquidity.net + HALF_SIZE < 2 * HALF_SIZE
    && data.liquidity.net % HALF_SIZE == words.liquidity / HALF_SIZE
  }

  lemma LoadsItsData(pool: Pool, s: I24, t: I24)
    requires s > 0 && t % s == 0
    ensures IsDataOf(pool, s, t, LoadTickData(pool, s, t))
  {
    hide TickInitialized;
    hide LiquidityByBytes;
    TickInitializedSpec(pool.bitmap, s, t);
    LiquidityOfWord(pool.tickWords(t).liquidity);
  }

  /** The map holds the data of exactly the listed ticks. */
  ghost predicate MapCovers(pool: Pool, s: I24, start: int, end: int, loaded: map<I24, TickData>)
    requires s > 0
  {
    && (forall t :: t in loaded ==>
          t % s == 0 && IsDataOf(pool, s, t, loaded[t]))
    && (forall t: I24 :: t <= end ==> (t in loaded <==> start < t && IsInitialized(pool.bitmap, s, t)))
    && (start > end ==> loaded == map[])
    && (start <= end ==>
          exists c :: c in loaded && Closes(pool.bitmap, s, end, c)
                      && forall t :: t in loaded && end < t ==> t == c)
  }

  /** The enumeration of the requested range returns. */
  ghost predicate Loadable(bm: Bitmap, s: I24, start: Option<I24>, end: Option<I24>)
    requires s > 0
  {
    !Stuck(bm, s, StartTick(start, s), EndTick(end, s))
  }

  /** Any requested end more than one spacing below the top is enough for that. */
  lemma LowEndIsLoadable(bm: Bitmap, s: I24, start: Option<I24>, end: I24)
    requires Spacing(s) && end + s < MAX_TICK
    ensures Loadable(bm, s, start, Some(end))
  {
    hide MaxValidTick;
    hide MinValidTick;
    ValidTickBounds(s);
    FloorMultiple(end, s);
    LowRangeIsNotStuck(bm, s, StartTick(start, s), EndTick(Some(end), s));
  }

  /** Loads the tick map. The reads of the listed ticks complete in any order. */
  method LoadTickMap(pool: Pool, s: I24, start: Option<I24>, end: Option<I24>) returns (loaded: map<I24, TickData>)
    requires Spacing(s) && Loadable(pool.bitmap, s, start, end)
    ensures MapCovers(pool, s, StartTick(start, s), EndTick(end, s), loaded)
    ensures exists lo, hi :: Starts(lo, start, s) && Ends(hi, end, s) && MapCovers(pool, s, lo, hi, loaded)
  {
    RangeIsAsRequested(start, end, s);
    hide LoadTickData;
    hide MapCovers;
    hide ListsRange;
    StartInRange(start, s);
    var ticks := EnumerateTicks(pool.bitmap, s, StartTick(start, s), EndTick(end, s));
    var reading := ticks;
    loaded := map[];
    while reading != []
      invariant forall t :: t in ticks <==> t in loaded || t in reading
      invariant forall t :: t in loaded ==> loaded[t] == LoadTickData(pool, s, t)
      decreases |reading|
    {
      var k :| 0 <= k < |reading|;
      var tick := reading[k];
      assert forall t :: t in reading <==> t in reading[..k] + reading[k + 1..] || t == tick;
      reading := reading[..k] + reading[k + 1..];
      loaded := loaded[tick := LoadTickData(pool, s, tick)];
    }
    ListingCovers(pool, s, StartTick(start, s), EndTick(end, s), ticks, loaded);
  }

  lemma ListingCovers(pool: Pool, s: I24, start: int, end: int, ticks: seq<I24>, loaded: map<I24, TickData>)
    requires s > 0 && ListsRange(pool.bitmap, s, start, end, ticks)
    requires loaded.Keys == set t | t in ticks
    requires forall t :: t in loaded ==> loaded[t] == LoadTickData(pool, s, t)
    ensures MapCovers(pool, s, start, end, loaded)
  {
    hide SetAt;
    hide LoadTickData;
    hide IsDataOf;
    forall t | t in loaded
      ensures t % s == 0 && IsDataOf(pool, s, t, loaded[t])
    {
      var i :| 0 <= i < |ticks| && ticks[i] == t;
      if i == |ticks| - 1 {
        assert StopAbove(pool.bitmap, s, t);
      }
      LoadsItsData(pool, s, t);
    }
    if start <= end {
      var c := ticks[|ticks| - 1];
      assert c in ticks;
      forall t | t in loaded && end < t
        ensures t == c
      {
        var i :| 0 <= i < |ticks| && ticks[i] == t;
      }
    }
  }
}
