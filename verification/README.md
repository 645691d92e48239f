# Tick bitmaps, ordered draining and runtime protocols

A Dafny model of two crates. From `uniswap-storage`: the tick-bitmap index of Uniswap v3 and v4
pools, the packed storage words, 512-bit fixed-point arithmetic, and fee growth inside a range.
From `exe-runners`: the ordered consumer of a parallel iterator, graceful shutdown, pool
broadcasts, and named workers with lazy handles.

`dafny verify dfyconfig.toml` checks everything.

| file | content |
|---|---|
| `WordMath.dfy`, `TickMath.dfy` | bits of words; 24-bit ticks, compression and normalisation |
| `TickSearch.dfy`, `TickOrder.dfy` | the shift-based searches, and their refinement of an ordered set |
| `OneWordSearch.dfy` | the mask-based searches of v3 and v4 |
| `TickMap.dfy` | the enumeration loop and the loaded map |
| `PackedWords.dfy`, `FixedPoint.dfy`, `FeeGrowth.dfy` | word layouts, fixed point, accumulators |
| `OrderedDrain.dfy`, `GracefulShutdown.dfy`, `Broadcast.dfy`, `NamedWorkers.dfy` | the protocols |

## How the model reads the code

Storage is a total function: a bitmap is a function from word positions to 256-bit words, and the
set of initialised ticks is the set of ticks on the spacing grid whose bit is set. 24-bit
operations wrap, as in a release build, and so do `+` and `-` on 256-bit words; conversions to a
narrower unsigned type panic when the value does not fit.

Each protocol is a step relation over program counters: one step for each operation on a mutex,
condition variable, atomic or channel, by any thread, in any order. An invariant holds in every
reachable state; where the protocol terminates, a rank bounds the length of every run. Beside it, a
class holds the shared fields that the source updates in place, and each of its methods is proved
to take the step. The assumptions about the platform are these.

- A mutex has one holder. `notify_one` wakes only a consumer that is parked, and is otherwise lost.
  A parked consumer may also wake for no reason.
- A parallel `for_each` returns or unwinds after all its jobs have ended; once one has unwound,
  others may never start.
- Every job that a parallel iterator starts gets a pool thread of its own to run on. Called from the
  only thread of a one-thread pool, the consumer of `ordered_impl` would block the job it waits for;
  the absence of deadlock is not claimed there.
- A pool broadcast runs its closure once on every thread of the pool.
- Channels are first-in first-out, joins wait, and a closed one-shot channel resolves its receiver.
- A relaxed load or a failed exchange may return any value that the counter has held, and a weak
  exchange may fail on the right value.
- A deadline is a moment chosen from outside. What a task's closure returns, or that it panics, is
  given with the task.
- A guard holds a counted reference, and the reference count aborts the process beyond 2^63-1; so
  the shutdown counter never wraps.
- A `get` is one step, taken when it can return: a call that has taken the receiver of an
  unfinished task makes the other calls on that handle wait.

## Where the code does less than it says

- `next_tick_le` recurses to bit 0 of the word it has just searched. When that bit is unset and the
  word does not start near the bottom, the call repeats itself forever.
  `TickOrder.NextTickLeReturnsIff` says exactly when it returns.
- `pool_manager_load_tick_map` loops while the tick is at most the end of the range, but the search
  returns its own input within one spacing of the top. `TickMap.EnumerateReturnsIff` says exactly
  when the loop ends; a pool initialised at its highest valid tick cannot be loaded over the default
  range (`TickMap.FullRangePoolDiverges`, and `TickMap.TopTickDiverges` for one). The start tick
  itself is never loaded, and the listing ends with one stop beyond the range, which need not be
  initialised.
- `flat_div_x128` calls its quotient guaranteed to fit. It fits if and only if the numerator is
  below the divisor times 2^128 (`FixedPoint.FlatDivX128IsExact`).
- The L2 pool-key reader panics on an address word with high bits that the byte-slice reader
  ignores (`PackedWords.PoolKeyReadersAgree`, and `PackedWords.DirtyAddressFails` for a word).
- `next_tick_lt` is strict with respect to the grid point at or below its input, so it skips an
  initialised grid point just below a tick that is off the grid (`TickOrder.LtSkipsIff`, and
  `TickOrder.LtSkipsZero` for a concrete case). Its test expects this (tick_bitmap.rs:467-496).
- Within one spacing of MIN_TICK or MAX_TICK the searches answer, without reading the bitmap, that
  there is nothing. Upward, that misses the highest valid tick if it is ahead and initialised;
  strictly downward, the lowest valid tick; at or below, the lowest valid tick or the input itself.
  This and the case above apart, every answer of a search is right about the whole tick range
  (`TickOrder.GtIsExactIff`, `TickOrder.LtIsExactIff`, `TickOrder.LeIsExactIff`; `GtMissesTop` and
  `LeMissesItsInput` are concrete misses).
- A `get` after a panicked task does not report the panic again: the second call reports the missing
  receiver and poisons the lock, and later calls report that (`NamedWorkers.GetKeepsLazy`, and
  `NamedWorkers.PanicIsReportedOnce` for a run).

## Model

| member | source | states |
|---|---|---|
| `TickMath.CompressIsFloor` | crates/uniswap-storage/src/v4/pool_manager/tick_bitmap.rs:13-15 | for every 24-bit tick and positive spacing, saturating division corrected by the sign of the remainder is floor division, and the correction never wraps |
| `TickMath.ValidTickBounds` | crates/uniswap-storage/src/v4/utils.rs:78-84 | the valid ticks are the extreme multiples of the spacing within [MIN_TICK, MAX_TICK], and mirror each other |
| `TickMath.NormalizeTick` | crates/uniswap-storage/src/v4/pool_manager/tick_bitmap.rs:27-43 | the recursion ends for every 24-bit tick and every positive spacing, and its result is the floor multiple clamped to the valid ticks |
| `TickMath.RetryMeansOutside` | crates/uniswap-storage/src/v4/pool_manager/tick_bitmap.rs:31-42 | the retry test holds exactly when the unwrapped multiple lies outside the tick range, so a product that wrapped modulo 2^24 is never returned |
| `TickMath.NormalizeStep` | crates/uniswap-storage/src/v4/pool_manager/tick_bitmap.rs:32-40 | each retry moves the floor multiple one spacing toward the range without wrapping, and never past the clamped result |
| `TickMath.WordAndBitSplit` | crates/uniswap-storage/src/v4/pool_manager/tick_bitmap.rs:45-51 | the cast to 16 bits never truncates, and word and bit name the compressed tick |
| `TickSearch.NextBitPosGteSpec` | crates/uniswap-storage/src/v4/pool_manager/tick_bitmap.rs:65-74 | shift and trailing zeros find the least set bit at or above the position, or report 255 exactly when there is none |
| `TickSearch.NextBitPosLteSpec` | crates/uniswap-storage/src/v4/pool_manager/tick_bitmap.rs:76-87 | shift and leading zeros find the greatest set bit at or below the position, or report 0 exactly when there is none |
| `TickSearch.MaskTest` | crates/uniswap-storage/src/v4/pool_manager/tick_bitmap.rs:61-63 | testing through a one-bit mask reads that bit and no other |
| `TickSearch.TickInitializedSpec` | crates/uniswap-storage/src/v4/pool_manager/tick_bitmap.rs:195-207 | the flag is membership of the stored set; a tick off the grid is answered for the grid point below it |
| `TickSearch.GtNeverWraps` | crates/uniswap-storage/src/v4/pool_manager/tick_bitmap.rs:218-236 | for spacings up to 32768, no 24-bit value that an upward probe forms, edge tick and bound test included, wraps |
| `TickSearch.LtNeverWraps` | crates/uniswap-storage/src/v4/pool_manager/tick_bitmap.rs:252-270 | the same for a downward probe |
| `TickSearch.SpacingBoundIsTight` | crates/uniswap-storage/src/v4/pool_manager/tick_bitmap.rs:53-55 | for every larger spacing the edge of the word below 0 leaves 24 bits, and the downward probe from 0 over it when empty returns that edge wrapped; at 32769, a tick above 0 |
| `TickSearch.ProbeGtSpec` | crates/uniswap-storage/src/v4/pool_manager/tick_bitmap.rs:218-223 | one upward probe returns the next set bit of the word as its tick, or the last tick of the word with everything before it unset |
| `TickSearch.ProbeLtSpec` | crates/uniswap-storage/src/v4/pool_manager/tick_bitmap.rs:252-257 | one downward probe returns the previous set bit of the word strictly below the grid point of the tick, or the first tick of the word |
| `TickSearch.ProbeLeSpec` | crates/uniswap-storage/src/v4/pool_manager/tick_bitmap.rs:286-291 | one probe at or below returns the set bit at or below the grid point of the tick, or the first tick of the word |
| `TickOrder.NextTickGtIsNextStop` | crates/uniswap-storage/src/v4/pool_manager/tick_bitmap.rs:209-241 | away from the top, the recursive upward search returns the least stop above its input: an initialised tick, or the last tick of a word within one spacing of the top |
| `TickOrder.NextTickGtRefinesSet` | crates/uniswap-storage/src/v4/pool_manager/tick_bitmap.rs:209-241 | (true, t): t is the least initialised tick above the input. (false, t): nothing above the input up to t is initialised, and t is within one spacing of the top |
| `TickOrder.NextTickLtIsNextStop` | crates/uniswap-storage/src/v4/pool_manager/tick_bitmap.rs:243-275 | away from the bottom, the recursive downward search returns the greatest stop below the grid point of its input |
| `TickOrder.NextTickLtRefinesSet` | crates/uniswap-storage/src/v4/pool_manager/tick_bitmap.rs:243-275 | (true, t): t is the greatest initialised tick strictly below the grid point at or below the input. (false, t): nothing from t to there is initialised, and t is within one spacing of the bottom |
| `TickOrder.GtLtInverse` | crates/uniswap-storage/src/v4/pool_manager/tick_bitmap.rs:209-275 | between initialised ticks, going down undoes going up above MIN_TICK, and going up undoes going down below MAX_TICK |
| `TickOrder.LeFixedPoint` | crates/uniswap-storage/src/v4/pool_manager/tick_bitmap.rs:286-304 | at an unset first tick of a word away from the bottom the recursive call repeats its own input, so no number of calls answers |
| `TickOrder.NextTickLeReturnsIff` | crates/uniswap-storage/src/v4/pool_manager/tick_bitmap.rs:277-309 | with initialised ticks only, the search returns if and only if the tick is at the lower bound, its word has a set bit at or below it, or its word starts within one spacing of the bottom; the answer never depends on the number of calls |
| `TickOrder.NextTickLeRefinesSet` | crates/uniswap-storage/src/v4/pool_manager/tick_bitmap.rs:277-309 | any (true, t) is the greatest initialised tick at or below the input; any (false, t) is within one spacing of the bottom with nothing initialised from t up, unless the input itself is at the bound |
| `TickOrder.NextTickLeDiverges` | crates/uniswap-storage/src/v4/pool_manager/tick_bitmap.rs:277-309 | a concrete input without an answer: tick 0, spacing 1, an empty pool |
| `TickOrder.GtIsExactIff` | crates/uniswap-storage/src/v4/pool_manager/tick_bitmap.rs:209-241 | the upward answer is right about the whole tick range unless the search stops at the bound without looking while the highest valid tick, still ahead, is initialised |
| `TickOrder.LtSkipsIff` | crates/uniswap-storage/src/v4/pool_manager/tick_bitmap.rs:243-275 | away from the bottom, the downward answer leaves no initialised tick below the input out if and only if the input is on the grid or the grid point below it is not initialised |
| `TickOrder.LtIsExactIff` | crates/uniswap-storage/src/v4/pool_manager/tick_bitmap.rs:243-275 | the downward answer is right about the whole tick range except in that case, and at the lower bound with the lowest valid tick below the input initialised |
| `TickOrder.LeIsExactIff` | crates/uniswap-storage/src/v4/pool_manager/tick_bitmap.rs:277-309 | an answer at or below is right about the whole tick range unless the search stops at the lower bound without looking while the input itself, in the range, or the lowest valid tick at or below it is initialised |
| `TickOrder.NoEdgeBelowTop` | crates/uniswap-storage/src/v4/pool_manager/tick_bitmap.rs:227 | no word ends exactly one spacing below MAX_TICK, so the stop condition between words never cuts off an initialised tick |
| `TickOrder.NoEdgeAboveBottom` | crates/uniswap-storage/src/v4/pool_manager/tick_bitmap.rs:261 | no word starts exactly one spacing above MIN_TICK, for any spacing the searches support |
| `TickOrder.GtMissesTop` | crates/uniswap-storage/src/v4/pool_manager/tick_bitmap.rs:218-220 | a concrete miss: spacing 60, from 887219, with 887220 initialised |
| `TickOrder.LeMissesItsInput` | crates/uniswap-storage/src/v4/pool_manager/tick_bitmap.rs:286-288 | a concrete miss: spacing 1, from MIN_TICK + 1, the only initialised tick |
| `TickOrder.LtSkipsZero` | crates/uniswap-storage/src/v4/pool_manager/tick_bitmap.rs:252-262 | a concrete skip: spacing 10, from 5, with 0 initialised |
| `TickOrder.BoundsReturnTheInput` | crates/uniswap-storage/src/v4/pool_manager/tick_bitmap.rs:218-220 | within one spacing of the end it moves toward, each search returns (false, input), whichever ticks it is asked for |
| `TickOrder.NextTickGtWithinWord` | crates/uniswap-storage/src/v4/pool_manager/tick_bitmap.rs:222-228 | elsewhere, asked for any tick, the upward search returns the next initialised tick of the word after its input, or that word's last tick, with nothing initialised before it |
| `TickOrder.NextTickLtWithinWord` | crates/uniswap-storage/src/v4/pool_manager/tick_bitmap.rs:256-262 | the downward search, the previous initialised tick of the word before its grid point, or that word's first tick |
| `TickOrder.NextTickLeWithinWord` | crates/uniswap-storage/src/v4/pool_manager/tick_bitmap.rs:290-296 | the search at or below, the nearest initialised tick of the word up to its grid point, or that word's first tick |
| `OneWordSearch.LowerMaskBits` | crates/uniswap-storage/src/v4/pool_manager/tick_bitmap.rs:110 | the v3 and v4 lower masks both keep exactly the bits up to the position |
| `OneWordSearch.UpperMaskBits` | crates/uniswap-storage/src/v4/pool_manager/tick_bitmap.rs:126 | the upper mask keeps exactly the bits from the position up |
| `OneWordSearch.V4LteIsProbe` | crates/uniswap-storage/src/v4/pool_manager/tick_bitmap.rs:98-122 | the v4 mask search at or below gives the tick and flag of the shift search, for every bitmap, tick and positive spacing, wrapping included |
| `OneWordSearch.V4GtIsProbe` | crates/uniswap-storage/src/v4/pool_manager/tick_bitmap.rs:123-142 | the v4 mask search above gives the tick and flag of the shift search |
| `OneWordSearch.V3CompressAgrees` | crates/uniswap-storage/src/v3/utils.rs:22-30 | truncating division with a conditional decrement compresses as v4 does |
| `OneWordSearch.V3PositionAgrees` | crates/uniswap-storage/src/v3/utils.rs:31-37 | the cast of a truncating remainder names the word and bit that the v4 mask names |
| `OneWordSearch.V3AgreesWithV4` | crates/uniswap-storage/src/v3/pool.rs:116-150 | the v3 and v4 mask searches return the same pair for every bitmap, tick, direction and positive spacing |
| `OneWordSearch.OneWordSearchesAgree` | crates/uniswap-storage/src/v4/pool_manager/tick_bitmap.rs:98-309 | away from the bounds, shift search, v4 mask search and v3 mask search all agree, in both directions |
| `TickMap.EnumerateReturnsIff` | crates/uniswap-storage/src/v4/pool_manager/pool_tick_state.rs:77-83 | the enumeration loop returns if and only if it visits no stuck tick: one within the range and within one spacing of the top |
| `TickMap.EnumerateDiverges` | crates/uniswap-storage/src/v4/pool_manager/pool_tick_state.rs:77-83 | with a stuck tick ahead, no number of rounds ends the loop |
| `TickMap.EnumerateReturns` | crates/uniswap-storage/src/v4/pool_manager/pool_tick_state.rs:77-83 | without one, the length of the range bounds the number of rounds |
| `TickMap.LowRangeIsNotStuck` | crates/uniswap-storage/src/v4/pool_manager/pool_tick_state.rs:77-83 | a range that ends more than one spacing below the top has no stuck tick, whatever the bitmap |
| `TickMap.LowEndIsLoadable` | crates/uniswap-storage/src/v4/pool_manager/pool_tick_state.rs:70-83 | for any bitmap and any start, a requested end more than one spacing below the top, before normalisation, makes the call return |
| `TickMap.FullRangePoolDiverges` | crates/uniswap-storage/src/v4/pool_manager/pool_tick_state.rs:70-83 | a pool initialised at its highest valid tick cannot be loaded over the default range, from any start |
| `TickMap.TopTickDiverges` | crates/uniswap-storage/src/v4/pool_manager/pool_tick_state.rs:70-83 | a concrete pool that cannot be loaded over the default range: spacing 60, only 887220 initialised |
| `TickMap.PushedLists` | crates/uniswap-storage/src/v4/pool_manager/pool_tick_state.rs:76-83 | once past the end of the range, the pushed stops are exactly its listing |
| `TickMap.EnumerateLists` | crates/uniswap-storage/src/v4/pool_manager/pool_tick_state.rs:76-83 | whenever the loop returns after some number of rounds, it has pushed exactly the listing of the range |
| `TickMap.EnumerateTicks` | crates/uniswap-storage/src/v4/pool_manager/pool_tick_state.rs:76-83 | where it returns, the loop pushes a strictly increasing list: exactly the initialised ticks of (start, end], then the one closing stop beyond end |
| `TickMap.RangeIsAsRequested` | crates/uniswap-storage/src/v4/pool_manager/pool_tick_state.rs:70-75 | the range loaded is the one requested: each end is the requested tick moved down to the grid and into the tick range, an absent start the lowest grid point of that range and an absent end the highest |
| `TickMap.RangeIsUnique` | crates/uniswap-storage/src/v4/pool_manager/pool_tick_state.rs:70-75 | no other ticks are such ends |
| `TickMap.LoadsItsData` | crates/uniswap-storage/src/v4/pool_manager/pool_tick_state.rs:104-140 | the data of a tick are its own words: both fee growths in order, the low half of the liquidity word as gross, the high half as signed net, and the flag of the stored set |
| `TickMap.LoadTickMap` | crates/uniswap-storage/src/v4/pool_manager/pool_tick_state.rs:61-102 | in whatever order the reads complete, the map holds exactly the listed ticks of the requested range, each with its own data |
| `TickMap.ListingCovers` | crates/uniswap-storage/src/v4/pool_manager/pool_tick_state.rs:85-140 | a map keyed by a listing covers the range: initialised entries are the set, the closing entry is the only one beyond the end |
| `OrderedDrain.StepKeepsInv` | crates/exe-runners/src/for_each_ordered.rs:68-127 | every step of every thread keeps: one holder a mutex; a written value is in its slot until removed; delivered is a prefix of the items; a parked consumer with something to wake for is owed a notification |
| `OrderedDrain.EveryRun` | crates/exe-runners/src/for_each_ordered.rs:68-127 | every interleaving delivers a prefix in index order, loses no wakeup, has at most 24n+10 steps plus five for each spurious wakeup, and stops only when it is over |
| `OrderedDrain.Outcome` | crates/exe-runners/src/for_each_ordered.rs:89-127 | at the end: without a panic every item was delivered; with one, exactly the items before the lowest index never written |
| `OrderedDrain.StepDescends` | crates/exe-runners/src/for_each_ordered.rs:68-127 | every step but a spurious wakeup lowers the rank; a spurious wakeup raises it by at most four |
| `OrderedDrain.Choose` | crates/exe-runners/src/for_each_ordered.rs:68-127 | no deadlock: until the run is over some thread has a step that is neither an unwinding nor a spurious wakeup |
| `OrderedDrain.WakingLooksAgain` | crates/exe-runners/src/for_each_ordered.rs:74-86 | a parked consumer is woken by a notification of its own slot only, or spuriously, and then locks that slot and looks again |
| `OrderedDrain.JobsMayFail` | crates/exe-runners/src/for_each_ordered.rs:106-111 | any job may unwind before it writes, and once one has, any other may never start |
| `OrderedDrain.Drain.constructor` | crates/exe-runners/src/for_each_ordered.rs:56-66 | all slots start empty and unlocked, and an empty iterator finishes at once |
| `OrderedDrain.Drain.StepWrite` | crates/exe-runners/src/for_each_ordered.rs:68-72 | lock, store, unlock and notify of a job, one at a time on the shared arrays |
| `OrderedDrain.Drain.StepConsume` | crates/exe-runners/src/for_each_ordered.rs:74-86 | one lock, take, flag check, wait or callback of the consumer |
| `OrderedDrain.Drain.StepDrive` | crates/exe-runners/src/for_each_ordered.rs:107-119 | the join, the raised flag, and the lock-and-notify loop over the slots before the panic is resumed |
| `OrderedDrain.Drain.Perform` | crates/exe-runners/src/for_each_ordered.rs:68-127 | any enabled step in place refines the step relation |
| `OrderedDrain.ForEachOrdered` | crates/exe-runners/src/for_each_ordered.rs:89-127 | for every schedule: all items in order if nothing unwound, otherwise exactly the items before the lowest index never written |
| `PackedWords.SliceIsField` | crates/uniswap-storage/src/v4/position_manager.rs:63-69 | a big-endian byte slice of a word is the bit field at the mirrored offset |
| `PackedWords.SignExtensionsAgree` | crates/uniswap-storage/src/v4/common.rs:83-87 | shifting an unsigned value, shifting a signed value, and testing bit 23 all read a 24-bit pattern as two's complement |
| `PackedWords.Slot0Reassembles` | crates/uniswap-storage/src/v4/common.rs:71-95 | the unpacked fields are in range and reassemble the low 232 bits of any word; the v3 readers return the same price and tick |
| `PackedWords.Slot0RoundTrip` | crates/uniswap-storage/src/v4/common.rs:71-95 | every valid price, tick and pair of fees survives packing and unpacking |
| `PackedWords.PositionInfoReassembles` | crates/uniswap-storage/src/v4/common.rs:119-143 | the unpacked key and ticks, with the flag byte, are the whole word |
| `PackedWords.PositionInfoRoundTrip` | crates/uniswap-storage/src/v4/common.rs:119-143 | every 25-byte key and pair of 24-bit ticks survives packing and unpacking, whatever the flag byte |
| `PackedWords.PoolKeyReadersAgree` | crates/uniswap-storage/src/angstrom/l2/angstrom_l2.rs:118-129 | the shift reader panics if and only if an address word has a bit above 160; otherwise it reads the key the byte-slice reader reads |
| `PackedWords.PoolKeyOfWords` | crates/uniswap-storage/src/v4/position_manager.rs:63-69 | which bits of which of the three words each member is, signed tick spacing included, also for words the shift reader refuses |
| `PackedWords.DirtyAddressFails` | crates/uniswap-storage/src/angstrom/l2/angstrom_l2.rs:118-129 | a concrete word, 2^160, that the shift reader refuses and the byte-slice reader reads as the zero address |
| `PackedWords.LiquidityReadersAgree` | crates/uniswap-storage/src/v4/pool_manager/pool_tick_state.rs:128-134 | byte-slice and mask readers split the liquidity word alike; its halves are the word, the net one in the signed and the gross one in the unsigned 128-bit range |
| `PackedWords.LiquidityOfWord` | crates/uniswap-storage/src/v4/pool_manager/pool_tick_state.rs:128-134 | gross is the word modulo 2^128, net the two's-complement value of the rest |
| `FixedPoint.OverflowTest` | crates/uniswap-storage/src/v4/utils.rs:65-68 | comparing the divisor with the high word decides exactly whether the quotient fits 256 bits |
| `FixedPoint.MulDivIsExact` | crates/uniswap-storage/src/v4/utils.rs:52-76 | exact floor of a*b/d, failing if and only if d = 0 or the quotient is at least 2^256 |
| `FixedPoint.FullMulX128IsExact` | crates/uniswap-storage/src/v4/utils.rs:36-50 | exact floor of x*y/2^128, failing if and only if it is at least 2^256 |
| `FixedPoint.FullMulX128IsMulDiv` | crates/uniswap-storage/src/v4/utils.rs:36-76 | the two agree in value and in failure at the unit 2^128 |
| `FixedPoint.FlatDivX128IsExact` | crates/uniswap-storage/src/v4/utils.rs:22-34 | for a nonzero divisor it fits if and only if n < d*2^128, and is then the exact floor; by zero it returns zero |
| `FixedPoint.FlatDivX128CanOverflow` | crates/uniswap-storage/src/v4/utils.rs:31-33 | a concrete input whose quotient does not fit: 2^128 by 1 |
| `FixedPoint.DivThenMul` | crates/uniswap-storage/src/v4/utils.rs:22-50 | multiplying a quotient that fits back never fails and returns n minus the rounded-up share of the remainder, at most one unit when d is at most 2^128 |
| `FeeGrowth.InsideIsDifference` | crates/uniswap-storage/src/angstrom/mainnet/angstrom.rs:37-43 | in all three branches, growth inside is growth below the top minus growth below the bottom, modulo 2^256; only a reversed range around the current tick differs, and how is stated |
| `FeeGrowth.ReadersAgree` | crates/uniswap-storage/src/v4/pool_manager/position_state.rs:46-61 | the three readers return the same growth from the same words, for any ticks in any order |
| `FeeGrowth.GrowthTelescopes` | crates/uniswap-storage/src/angstrom/mainnet/angstrom.rs:37-43 | over any increasing ticks, the growth of adjacent ranges sums to the growth of the whole, wherever the current tick is |
| `FeeGrowth.ReadersTelescope` | crates/uniswap-storage/src/v4/pool_manager/position_state.rs:46-61 | the v4 and L2 readers return, on each token, that same sum |
| `FeeGrowth.GrowthAccrues` | crates/uniswap-storage/src/angstrom/l2/angstrom_l2.rs:187-195 | new global growth is credited to a range exactly when it holds the current tick |
| `FeeGrowth.AccruesOnce` | crates/uniswap-storage/src/v4/pool_manager/position_state.rs:46-61 | of the parts of a range that holds the current tick, exactly one is credited |
| `GracefulShutdown.StepKeepsInv` | crates/exe-runners/src/shutdown.rs:23-110 | every step keeps: counter equals unreleased guards, no guard out before shutdown, the manager decided by its first event, and of every wait that returned true, however many calls wait: each guard made before its last read is released |
| `GracefulShutdown.EveryRun` | crates/exe-runners/src/shutdown.rs:23-82 | the same facts in every run from the start |
| `GracefulShutdown.SpawnMakesGuard` | crates/exe-runners/src/runtime.rs:512-515 | a spawned future is new and alive with a fresh guard; counter and unreleased guards rise by one and nothing older changes |
| `GracefulShutdown.CloneMakesGuard` | crates/exe-runners/src/shutdown.rs:52-62 | so is a clone, with a guard exactly when the original has one, counted exactly then |
| `GracefulShutdown.StepKeepsGuard` | crates/exe-runners/src/shutdown.rs:38-82 | a guard leaves its future only when that future is dropped, which releases it, or polled once shutdown has resolved, which hands it out |
| `GracefulShutdown.WaitCoversEveryTask` | crates/exe-runners/src/runtime.rs:503-579 | over any run between a spawn, or the clone of a future with a guard, and a wait that then returns true: that future was dropped, or it was polled and the guard it handed out was dropped |
| `GracefulShutdown.FirstEventDecides` | crates/exe-runners/src/lib.rs:211-224 | in every run the manager accepts exactly what was sent, in order, until it is gone; its result, once it has one, is that of the first event ever sent |
| `GracefulShutdown.SendersAreCounted` | crates/exe-runners/src/lib.rs:215-220 | with nothing sent, a poll completes the manager exactly when every sender made has been dropped |
| `GracefulShutdown.NothingBlocks` | crates/exe-runners/src/shutdown.rs:23-110 | no step of a future, a guard, a wait, a sender or the manager ever has to wait for another thread |
| `GracefulShutdown.WaitReturnsTrueIff` | crates/exe-runners/src/runtime.rs:566-579 | a read of the counter ends the wait with true if and only if every guard is released, and with false if and only if the deadline has passed and one is not |
| `GracefulShutdown.GuardHandedOutOnce` | crates/exe-runners/src/shutdown.rs:38-49 | after a future has handed its guard out, every later poll of it, in every run, panics |
| `GracefulShutdown.ResolvedStaysResolved` | crates/exe-runners/src/shutdown.rs:88-100 | a resolved shutdown future stays resolved in every run |
| `GracefulShutdown.ShutdownReachesEveryHandle` | crates/exe-runners/src/lib.rs:211-224 | a manager with an event to receive completes at its next poll and fires unless that event is a panic; whenever it is dropped after that, whatever happens in between, the channel has resolved, and in every run from there every future with a guard hands it out at its next poll |
| `GracefulShutdown.EndedManagerResolves` | crates/exe-runners/src/lib.rs:192-224 | the same from any state whose manager has completed without a panic, is stopping, or is gone |
| `GracefulShutdown.Runtime.SpawnGraceful` | crates/exe-runners/src/runtime.rs:503-543 | spawning adds a future with a fresh guard, counted, and changes nothing older |
| `GracefulShutdown.Runtime.InitiateGracefulShutdown` | crates/exe-runners/src/runtime.rs:545-553 | queues the request and adds and returns a future with a fresh guard, counted; changes nothing when the manager is gone |
| `GracefulShutdown.Runtime.CloneHandle` | crates/exe-runners/src/shutdown.rs:52-62 | a clone adds a future with a fresh guard, counted, exactly when the original still has one |
| `GracefulShutdown.Runtime.PollHandle` | crates/exe-runners/src/shutdown.rs:38-49 | pending before shutdown; then the guard, once; then a panic |
| `GracefulShutdown.Runtime.DropHandle` | crates/exe-runners/src/shutdown.rs:64-82 | dropping a future releases the guard it still holds |
| `GracefulShutdown.Runtime.DropGuard` | crates/exe-runners/src/shutdown.rs:78-82 | releases that guard and takes one from the counter |
| `GracefulShutdown.Runtime.PollManager` | crates/exe-runners/src/lib.rs:211-224 | an error if and only if the first event is a panic; otherwise the signal is fired |
| `GracefulShutdown.Runtime.DoGracefulShutdown` | crates/exe-runners/src/runtime.rs:566-579 | whatever the other threads do, waiting calls of their own included: true means no guard was unreleased at the read of the counter that ended the wait, false that the deadline had passed and one was; the request was queued unless the manager was gone |
| `GracefulShutdown.Runtime.DoManagerShutdown` | crates/exe-runners/src/lib.rs:192-208 | the same answer for the call on the manager, which drops the signal first and is gone when the call returns, and not before |
| `GracefulShutdown.Runtime.ReadCounter` | crates/exe-runners/src/runtime.rs:569-578 | one read of the counter ends the wait with true if and only if every guard is released, with false if and only if the deadline has passed and one is not, and otherwise not at all |
| `GracefulShutdown.Runtime.Perform` | crates/exe-runners/src/shutdown.rs:23-110 | any enabled step of any thread in place, waits included, refines the step relation |
| `GracefulShutdown.Runtime.AwaitGuards` | crates/exe-runners/src/runtime.rs:569-578 | the spin loop on the counter, with any steps of the other threads between two reads |
| `Broadcast.StepKeepsInv` | crates/exe-runners/src/pool.rs:157-178 | tickets left plus tickets taken is the number wanted, no thread saw a value never held, none left while tickets remained |
| `Broadcast.NoThreadBlocks` | crates/exe-runners/src/pool.rs:163-177 | at every point of its loop a thread can go on, whatever value held so far its load or failed exchange returns |
| `Broadcast.Outcome` | crates/exe-runners/src/pool.rs:157-178 | when all threads are done exactly min(wanted, pool size) ran the closure |
| `Broadcast.StepDescends` | crates/exe-runners/src/pool.rs:164-175 | every step but an exchange that failed and learned nothing lowers the rank |
| `Broadcast.EveryRun` | crates/exe-runners/src/pool.rs:157-178 | the outcome for every pool size, interleaving, stale load and spurious failure, with a bound on the length of the run |
| `Broadcast.TicketCounter.CompareExchangeWeak` | crates/exe-runners/src/pool.rs:170-173 | succeeds only on the current value and stores the next; on failure stores nothing |
| `Broadcast.TicketCounter.Perform` | crates/exe-runners/src/pool.rs:157-178 | any enabled step in place refines the step relation |
| `Broadcast.TicketCounter.Finish` | crates/exe-runners/src/pool.rs:163-177 | a thread left alone always ends, and disturbs no other |
| `Broadcast.RunBroadcast` | crates/exe-runners/src/pool.rs:157-178 | for every schedule, exactly min(wanted, pool size) threads ran the closure and all others left |
| `NamedWorkers.StepKeepsInv` | crates/exe-runners/src/worker_map.rs:25-88 | every step keeps: a worker ran a prefix of its submissions in order; a task has its own result exactly when its worker ran it; the calls of get so far returned what that task calls for |
| `NamedWorkers.RunKeepsInv` | crates/exe-runners/src/worker_map.rs:57-77 | a name keeps one worker for good: in every run it only adds to what was submitted and run |
| `NamedWorkers.EveryRun` | crates/exe-runners/src/worker_map.rs:25-88 | a name's worker ran a prefix of what was submitted under that name, strictly in submission order and so each task once, panicking or not, and all of it before it exited; every task was submitted to its own name's worker and has a result, its own, exactly when that worker ran it; each get returned what its task calls for. Tasks, names and workers are those the run submitted |
| `NamedWorkers.GetKeepsLazy` | crates/exe-runners/src/lazy.rs:50-63 | the k-th get returns the value of a task that returned; of a task that panicked, the first reports the panic, the second the missing receiver, later ones the poisoned lock |
| `NamedWorkers.IntoInnerReturns` | crates/exe-runners/src/lazy.rs:71-80 | the value for the last clone, the handle back for any other, and the panic of get for a panicked task |
| `NamedWorkers.ClonesAreCounted` | crates/exe-runners/src/lazy.rs:17-20 | in every run, the clones of a handle in hand are those made less those dropped or consumed, and every wait on it is one get |
| `NamedWorkers.IntoInnerByCount` | crates/exe-runners/src/lazy.rs:71-80 | so in every run try_into_inner on a task that returned yields its value if and only if no other clone is left, and gives the handle back otherwise |
| `NamedWorkers.GetWaitsForItsTask` | crates/exe-runners/src/lazy.rs:50-63 | a get returns at once if and only if its task has been run |
| `NamedWorkers.HandlesInHand` | crates/exe-runners/src/lazy.rs:17-80 | a handle can be cloned, dropped and waited on if and only if a clone of it is in hand, the last once its task has been run |
| `NamedWorkers.AllExitedDrains` | crates/exe-runners/src/worker_map.rs:79-88 | once every worker has exited, a task has its own outcome, and get on it does not wait |
| `NamedWorkers.EveryTaskDrained` | crates/exe-runners/src/worker_map.rs:79-88 | so has every task |
| `NamedWorkers.EveryDrainEnds` | crates/exe-runners/src/worker_map.rs:25-88 | once nothing more is submitted, under every interleaving: the workers take at most as many steps as their rank, exactly that many when and only when all have exited with every task's own result in place, and some worker can step until then |
| `NamedWorkers.PanicIsReportedOnce` | crates/exe-runners/src/lazy.rs:50-63 | a concrete run: three calls of get on a task that panicked report three different panics |
| `NamedWorkers.WorkerMap.SpawnBlockingNamed` | crates/exe-runners/src/runtime.rs:440-446 | queues the task at the end of its name's queue, making the worker on first use, and returns a handle on that task |
| `NamedWorkers.WorkerMap.RunNext` | crates/exe-runners/src/worker_map.rs:29-33 | takes the oldest task and runs it whatever comes of it; no other worker and no other result changes |
| `NamedWorkers.WorkerMap.Get` | crates/exe-runners/src/lazy.rs:50-63 | returns what is expected of this call, and leaves the receiver taken |
| `NamedWorkers.WorkerMap.TryIntoInner` | crates/exe-runners/src/lazy.rs:71-80 | consumes the handle for the value exactly when it is the last, gives it back otherwise, and panics for a panicked task |
| `NamedWorkers.WorkerMap.Exit` | crates/exe-runners/src/worker_map.rs:30-32 | a worker leaves its loop only with its channel closed and empty |
| `NamedWorkers.WorkerMap.Perform` | crates/exe-runners/src/worker_map.rs:25-88 | any enabled step but a submission, in place, refines the step relation |
| `NamedWorkers.WorkerMap.Drop` | crates/exe-runners/src/worker_map.rs:79-88 | however the steps of all workers and handle users interleave with the closing and joining, at the end every worker has run all it was sent, in order, and every task has its own result |

## Left out

- TickOrder: the searches are proved for spacings from 1 to 32768, beyond which they do wrap; for ticks from MIN_TICK up in the upward search and up to MAX_TICK in the downward ones. A zero spacing divides by zero; a negative one is not modelled.
- TickOrder.GtLtInverse: speaks of initialised ticks in the tick range only; within one spacing of MIN_TICK or MAX_TICK a search stops without looking, and TickOrder.GtIsExactIff and TickOrder.LtIsExactIff say what it then misses.
- TickMap.EnumerateTicks: is called only where the loop returns, since a Dafny method must end; TickMap.EnumerateReturnsIff gives that condition both ways on a cut-off form of the loop.
- OrderedDrain.ForEachOrdered: a panic of the consumer's callback is not modelled.
- Broadcast.EveryRun: what the closure does with the state of its thread is not modelled.
- NamedWorkers: a handle that is ready from the start, and closures that themselves spawn or wait.
- FeeGrowth: the contracts that write the accumulators, and so their update when a tick is crossed.
- PackedWords: the byte of a v3 tick that says whether it is initialised.
- Slot derivation, position keys and every other use of keccak: opaque hashes.
- Remote calls, slot fetchers and their errors, streams, builders, metrics and logging.
- The legacy slot fallback, the pool-key filter and the factory readers: sequential lookups.
- The Angstrom fee and reward readers beyond growth inside a range.
- Real time, thread priorities, and memory orderings weaker than those listed above.
