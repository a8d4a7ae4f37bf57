# Catheter flow-population engine, in Dafny

This project models the engine at the heart of catheter, the synthetic flow generator of
OpenNMS Nephron. A `FlowGenerator` keeps a population of `Flow`s whose configured rates
add up to a target `bytesPerSecond`. On every `tick(now)` it does three things, in order:

1. It splits the tick's byte budget across the ongoing flows.
2. It ends the flows that have run longer than a freshly drawn duration, and makes the
   flows past their active timeout report.
3. It spawns new flows to cover the rate that the ended flows left missing.

`shutdown(now)` makes every remaining flow report and empties the population. A `Flow`
accumulates transmitted bytes until it reports, and a `FlowReport` is the immutable
(start, end, bytes) record it emits. `Zufall` and `IntegerZufall` draw bounded samples
from a shared `java.util.Random`.

How the pieces are modelled:

- **Time.** Instants and durations are whole milliseconds (`int`).
- **Java numbers.** `long` and `int` are the subset types `JavaNum.Long` and `JavaNum.Int`.
  - Java's wrap-around subtraction is written out (`WrapLong`), and so is the narrowing
    `(int)` cast (`WrapInt`).
  - So are Java's truncating `/` and `%` (`Quot`, `Rem`) and `Math.abs` of
    `Long.MIN_VALUE` (`Abs`).
- **Randomness.** The shared random source is an oracle `draws: nat -> Long` with a
  cursor. `nextLong()` returns `draws(cursor)` and advances the cursor.
- **Imperative code.** `FlowGenerator`, `Flow` and `Zufall` are classes whose methods
  update their fields in place. Each method is proved against a specification function on
  values:
  - the `FlowGenerator` methods against `Distribute`, `EndFlows`, `SpawnStep`, `TickStep`
    and `InitStep` in module `GeneratorSpec`, and `Shutdown` against `ShutdownReports` and
    an emptied list;
  - the `Flow` methods against `NewFlow`, `ReportOf`, `AfterReport` and `Transmitted` in
    module `Flows`;
  - `Zufall.Random` against `Draw` in module `Zufall`.
- **Properties.** They are proved about those functions in module `GeneratorProperties`:
  - conservation of bytes within a tick and over any run;
  - the population invariant (rates sum to the target, at most `maxFlowCount` flows,
    every rate positive);
  - the order of the three phases;
  - determinism in the draws consumed;
  - the exact long-run rate when the per-tick budget is a whole number of bytes.
- **The `double` arithmetic of `tick`** is exact: a real-valued budget rounded half up,
  which is what `Math.round` does. `TickBytes` and `FlowShare` are the same roundings
  computed on integers (`RoundThousandths`), and `SharesAreRounded` proves them equal
  to the real-valued ones.
- **The division by zero in `spawnFlows`.** When the spawn count drawn is 0, which
  happens only for the draw `Long.MIN_VALUE`, `deficit / flowsToSpawn` throws
  `ArithmeticException`. The model returns this as `thrown` from `SpawnStep`, `TickStep`
  and the methods. The population properties assume that no draw is `Long.MIN_VALUE`
  (`NoMinValueDraws`). Under that assumption the division by zero cannot happen.

Behaviour of the code worth knowing, all of it modelled as written:

- **Budget split.** No rounding error is carried from flow to flow. Each flow's share is
  rounded on its own, for indices `size-1` down to 1. Index 0 gets the rounded remainder
  of the whole budget (`FlowGenerator.java:86-91`).
- **Zero or negative elapsed time.** `tick` has no guard against it. Such a tick still
  samples durations, ends flows and spawns. With a negative elapsed time the flows
  receive negative amounts.
- **Sample bounds.** `Zufall.random()` returns `start + |d| % range`. So for `range > 0`
  the samples lie in `[min, max)`, and the value `max` is never returned.
- **Duration samples.** Every ongoing flow draws a fresh duration on every tick. A flow
  has no fixed lifetime; instead, each tick compares its age with a new sample.
- **`maxFlowCount` of 0 (or a full population).** This does not prevent spawning. The
  count sampler then has range -1 and always returns 1 (`ZeroLimitStillSpawns`).

## Model

Source paths are relative to the repository root.

| member | source | states |
|---|---|---|
| Reports.FlowReport.GetDuration | src/main/java/org/opennms/nephron/catheter/FlowReport.java:64-66 | the duration is the span from start to end |
| Reports.FlowReport.Equals | src/main/java/org/opennms/nephron/catheter/FlowReport.java:68-76 | two reports are equal exactly when start, end and bytes all agree |
| Reports.GettersReturnArguments | src/main/java/org/opennms/nephron/catheter/FlowReport.java:44-66 | the getters give back the constructor's arguments, with no order or sign imposed |
| Reports.ReportedBytesConcat | src/test/java/org/opennms/nephron/catheter/FlowGeneratorTest.java:96 | the bytes of two lists of reports, concatenated, are the sum of their bytes |
| Flows.NewFlow | src/main/java/org/opennms/nephron/catheter/Flow.java:44-50 | a new flow has reported == start, the given rate and no bytes |
| Flows.ReportOf | src/main/java/org/opennms/nephron/catheter/Flow.java:60-65 | the report of a flow: from its last report to now, carrying the accumulated bytes; Flows.Flow.Report is proved to return it |
| Flows.AfterReport | src/main/java/org/opennms/nephron/catheter/Flow.java:67-69 | a flow after reporting: last reported now, no bytes, start and rate kept (Flows.StartAndRateAreFixed) |
| Flows.Transmitted | src/main/java/org/opennms/nephron/catheter/Flow.java:74-76 | a flow after transmit(b): bytes grow by b and nothing else changes; Flows.Flow.Transmit is proved to produce it |
| Flows.Flow.constructor | src/main/java/org/opennms/nephron/catheter/Flow.java:44-50 | the constructed object holds exactly the new-flow value |
| Flows.Flow.GetStart | src/main/java/org/opennms/nephron/catheter/Flow.java:52-54 | the start instant, a constant field fixed by the constructor (Flows.StartAndRateAreFixed for the value model) |
| Flows.Flow.GetBytesPerSecond | src/main/java/org/opennms/nephron/catheter/Flow.java:78-80 | the flow's rate, a constant field that transmit and report never change; the transmit loop and RateTotal read it |
| Flows.TimedOut | src/main/java/org/opennms/nephron/catheter/Flow.java:56-58 | a flow has timed out iff reported + timeout <= now (inclusive boundary) |
| Flows.Flow.CheckTimeout | src/main/java/org/opennms/nephron/catheter/Flow.java:56-58 | the same inclusive test on the object, reading and changing nothing else |
| Flows.Flow.Report | src/main/java/org/opennms/nephron/catheter/Flow.java:60-72 | returns (old reported, now, old bytes), then reported becomes now and bytes 0 |
| Flows.Flow.Transmit | src/main/java/org/opennms/nephron/catheter/Flow.java:74-76 | bytes grow by the amount; start, rate and reported are untouched |
| Flows.TransmitAllAdds | src/main/java/org/opennms/nephron/catheter/Flow.java:74-76 | a run of transmits adds the sum of its amounts and changes nothing else |
| Flows.ReportCollectsTransmits | src/main/java/org/opennms/nephron/catheter/Flow.java:60-76 | a report's bytes are the sum of every transmit since creation or the previous report |
| Flows.SecondReportIsEmpty | src/main/java/org/opennms/nephron/catheter/Flow.java:60-72 | a second report at the same instant is (now, now, 0) |
| Flows.NoTimeoutRightAfterReport | src/main/java/org/opennms/nephron/catheter/Flow.java:56-72 | right after report(now), no positive timeout has expired |
| Flows.StartAndRateAreFixed | src/main/java/org/opennms/nephron/catheter/Flow.java:39-40 | neither reporting nor transmitting changes start or rate |
| Zufall.RandomSource.NextLong | src/main/java/org/opennms/nephron/catheter/random/Zufall.java:49 | `nextLong()` yields the next draw of the oracle and consumes exactly one |
| Zufall.Zufall.constructor | src/main/java/org/opennms/nephron/catheter/random/Zufall.java:39-43 | start is toLong(min), range is toLong(max) - start with long wrap-around |
| Zufall.Draw | src/main/java/org/opennms/nephron/catheter/random/Zufall.java:45-51 | range 0 yields start and consumes no draw; otherwise exactly one draw is consumed |
| Zufall.Sample | src/main/java/org/opennms/nephron/catheter/random/Zufall.java:49 | `start + Math.abs(d) % range` in long arithmetic; its range facts are Zufall.SampleInRange, SampleNegativeRange, SampleOfMostNegativeDraw and UnitRangeYieldsStart |
| Zufall.Zufall.Random | src/main/java/org/opennms/nephron/catheter/random/Zufall.java:45-51 | the sample is fromLong of the drawn value, and the cursor advances as Draw says |
| Zufall.SampleInRange | src/main/java/org/opennms/nephron/catheter/random/Zufall.java:49 | for range > 0 and a draw other than Long.MIN_VALUE, the sample lies in [start, start + range), so max is never returned |
| Zufall.SampleNegativeRange | src/main/java/org/opennms/nephron/catheter/random/Zufall.java:49 | for range < 0 the sample lies in [start, start + abs(range)); range -1 always yields start |
| Zufall.SampleOfMostNegativeDraw | src/main/java/org/opennms/nephron/catheter/random/Zufall.java:49 | the draw Long.MIN_VALUE gives a sample at or below start (start - 2 when the range is 3 or -3) |
| Zufall.Zufall.Equals | src/main/java/org/opennms/nephron/catheter/random/Zufall.java:58-65 | samplers are equal iff start and range agree; the random source is not compared |
| Zufall.EqualSamplersDrawAlike | src/main/java/org/opennms/nephron/catheter/random/Zufall.java:45-65 | one `random()` call on each of two `equals` samplers, over sources at the same position of the same draws, returns the same value and leaves the sources at the same position |
| Zufall.UnitRangeYieldsStart | src/main/java/org/opennms/nephron/catheter/random/Zufall.java:49 | a range of 1 or -1 yields start for every draw, Long.MIN_VALUE included |
| IntegerZufall.ToLong | src/main/java/org/opennms/nephron/catheter/random/IntegerZufall.java:10-13 | widening an int to a long keeps its value |
| IntegerZufall.FromLong | src/main/java/org/opennms/nephron/catheter/random/IntegerZufall.java:15-18 | narrowing keeps every value that fits in an int |
| IntegerZufall.FromLongToLong | src/main/java/org/opennms/nephron/catheter/random/IntegerZufall.java:10-18 | narrowing undoes widening for every int |
| IntegerZufall.NewIntegerZufall | src/main/java/org/opennms/nephron/catheter/random/IntegerZufall.java:6-8 | an integer sampler has start min and range max - min, and narrows its samples |
| IntegerZufall.IntegerDrawInRange | src/main/java/org/opennms/nephron/catheter/random/IntegerZufall.java:6-18 | for min < max and any draw but Long.MIN_VALUE every sample lies in [min, max - 1] and is the long sample unchanged; min == max yields min for every draw, since none is consumed |
| JavaNum.WrapLong | src/main/java/org/opennms/nephron/catheter/random/Zufall.java:41 | long subtraction wraps: values in range are kept as they are |
| JavaNum.WrapInt | src/main/java/org/opennms/nephron/catheter/random/IntegerZufall.java:17 | the `(int)` cast keeps values that fit |
| JavaNum.WrapKeepsLowBits | src/main/java/org/opennms/nephron/catheter/random/IntegerZufall.java:17 | wrapping changes a value by a multiple of 2^64 (long) or 2^32 (int), keeping its low bits |
| JavaNum.Abs | src/main/java/org/opennms/nephron/catheter/random/Zufall.java:49 | `Math.abs` is the magnitude, except that Long.MIN_VALUE is returned unchanged |
| JavaNum.Rem | src/main/java/org/opennms/nephron/catheter/random/Zufall.java:49 | Java `%` takes the dividend's sign and stays below the divisor's magnitude |
| JavaNum.RemIsTruncating | src/main/java/org/opennms/nephron/catheter/random/Zufall.java:49 | Java `%` agrees with the mathematical remainder for a non-negative dividend and is its negation otherwise |
| JavaNum.Quot | src/main/java/org/opennms/nephron/catheter/FlowGenerator.java:132-137 | Java `/` is floor division on non-negative dividend and positive divisor, and non-negative when the signs agree |
| GeneratorSpec.RoundThousandths | src/main/java/org/opennms/nephron/catheter/FlowGenerator.java:88 | the rounded number of bytes is within half a byte of x / 1000, ties rounding up |
| GeneratorSpec.RoundThousandthsIsRoundHalfUp | src/main/java/org/opennms/nephron/catheter/FlowGenerator.java:83-88 | integer rounding of thousandths equals `Math.round` of the real quotient |
| GeneratorSpec.SharesAreRounded | src/main/java/org/opennms/nephron/catheter/FlowGenerator.java:83-90 | the tick budget, each flow's share and the remainder left for index 0 are the `Math.round` values of `tick` |
| GeneratorSpec.ReducedCount | src/main/java/org/opennms/nephron/catheter/FlowGenerator.java:132-134 | the reduce loop never goes below 1 nor above the drawn count, and leaves counts below 1 alone |
| GeneratorSpec.OverIsDiv | src/main/java/org/opennms/nephron/catheter/FlowGenerator.java:137 | the share computed by the spawn loop is deficit / k |
| GeneratorSpec.RateSumAtLeastCount | src/main/java/org/opennms/nephron/catheter/FlowGenerator.java:124 | with positive rates, the rate sum is at least the number of flows |
| GeneratorSpec.RateSum | src/main/java/org/opennms/nephron/catheter/FlowGenerator.java:124 | the sum of the ongoing flows' rates; RateTotal computes it, RateSumConcat splits it over a concatenation and RateSumAtLeastCount bounds it below by the number of flows |
| GeneratorSpec.RoundHalfUp | src/main/java/org/opennms/nephron/catheter/FlowGenerator.java:84-88 | `Math.round` on an exact value: the result is the integer within one half of x, a tie going up; RoundThousandthsIsRoundHalfUp ties it to the integer rounding of the budget and the shares |
| GeneratorSpec.Distribute | src/main/java/org/opennms/nephron/catheter/FlowGenerator.java:83-91 | the transmit loop on values: indices 1 and up get their own rounded share, index 0 the rounded remainder of the budget; its properties are DistributeShares, DistributeTotal and DistributeKeepsRates |
| GeneratorSpec.EndFlows | src/main/java/org/opennms/nephron/catheter/FlowGenerator.java:96-113 | the iterator pass on values: per flow, one duration draw, then end and report, or report on timeout and keep, or keep; related to Accounted by EndFlowsAccounted |
| GeneratorSpec.Accounted | src/main/java/org/opennms/nephron/catheter/FlowGenerator.java:96-113 | an independent description of the pass without the draws: every flow is reported and dropped, reported and kept, or kept, in order, never reported twice |
| GeneratorSpec.LoopRates | src/main/java/org/opennms/nephron/catheter/FlowGenerator.java:137-143 | the rates the spawn loop hands out: share each, taken off the remaining rate, and the remainder for the last flow; its length is the number of iterations |
| GeneratorSpec.SpawnBounds | src/main/java/org/opennms/nephron/catheter/FlowGenerator.java:128 | the bounds of `new IntegerZufall(random, 1, maxFlowCount - size)`: start 1, range (int)(maxFlowCount - size) - 1 |
| GeneratorSpec.SpawnStep | src/main/java/org/opennms/nephron/catheter/FlowGenerator.java:122-145 | spawnFlows on values: no deficit, no change; otherwise draw and reduce the count, then SpawnWithCount; its properties are SpawnFills, SpawnKeeps and SpawnCount |
| GeneratorSpec.SpawnWithCount | src/main/java/org/opennms/nephron/catheter/FlowGenerator.java:137-143 | a count of 0 throws at `deficit / k`, a negative count spawns nothing, and k > 0 appends k new flows with SpawnShares |
| GeneratorSpec.InitStep | src/main/java/org/opennms/nephron/catheter/FlowGenerator.java:54-67 | the constructor on values: no flows, lastTick = now, then one spawn pass; InitBalanced and ZeroLimitStillSpawns are about it |
| GeneratorSpec.TickStep | src/main/java/org/opennms/nephron/catheter/FlowGenerator.java:78-120 | tick on values: Distribute, then EndFlows, then SpawnStep, then lastTick = now; a throw leaves lastTick and returns no reports |
| GeneratorSpec.ShutdownReports | src/main/java/org/opennms/nephron/catheter/FlowGenerator.java:155-158 | one report per flow, in list order, all ending at now |
| GeneratorSpec.ShutdownStep | src/main/java/org/opennms/nephron/catheter/FlowGenerator.java:153-164 | shutdown on values: those reports, and an empty list; ShutdownDrains is about it |
| GeneratorSpec.Run | src/main/java/org/opennms/nephron/catheter/FlowGenerator.java:78-120 | a sequence of ticks, their reports concatenated, stopping at the first throw; RunBalanced, RunConserves and RunUsesOnlyItsDraws are about it |
| Generator.NewDurationZufall | src/main/java/org/opennms/nephron/catheter/FlowGenerator.java:57 | the duration sampler has start minimum, range max - min with wrap-around, and gives milliseconds back unchanged |
| Generator.FlowGenerator.Init | src/main/java/org/opennms/nephron/catheter/FlowGenerator.java:54-63 | the fields take the builder's values, no flows yet, lastTick = now |
| Generator.Build | src/main/java/org/opennms/nephron/catheter/FlowGenerator.java:54-67 | a built generator is in the state of the initial spawn pass, including a thrown division by zero |
| Generator.FlowGenerator.RateTotal | src/main/java/org/opennms/nephron/catheter/FlowGenerator.java:124 | the loop returns the sum of the ongoing flows' rates |
| Generator.FlowGenerator.SpawnFlows | src/main/java/org/opennms/nephron/catheter/FlowGenerator.java:122-145 | the new population, cursor and outcome are those of SpawnStep |
| Generator.FlowGenerator.SpawnDeficit | src/main/java/org/opennms/nephron/catheter/FlowGenerator.java:126-144 | with a positive deficit, the result is SpawnStep's |
| Generator.FlowGenerator.DrawFlowCount | src/main/java/org/opennms/nephron/catheter/FlowGenerator.java:128-134 | the count is the sample of [1, maxFlowCount - size) reduced by the share loop, consuming at most one draw |
| Generator.FlowGenerator.SpawnCounted | src/main/java/org/opennms/nephron/catheter/FlowGenerator.java:137-143 | a count of 0 throws; otherwise k flows with the loop's rates are appended at now |
| Generator.FlowGenerator.AppendFlows | src/main/java/org/opennms/nephron/catheter/FlowGenerator.java:138-143 | the list grows by new flows at now, with share for all but the last and the remaining deficit for the last |
| Generator.FlowGenerator.AddFlow | src/main/java/org/opennms/nephron/catheter/FlowGenerator.java:140-142 | one fresh flow is appended; the flows already present stay in place |
| Generator.FlowGenerator.Tick | src/main/java/org/opennms/nephron/catheter/FlowGenerator.java:78-120 | the new state and the reports are those of TickStep: transmit, then end/timeout, then spawn, then lastTick = now |
| Generator.FlowGenerator.SetLastTick | src/main/java/org/opennms/nephron/catheter/FlowGenerator.java:117 | only lastTick changes, to now |
| Generator.FlowGenerator.Transmit | src/main/java/org/opennms/nephron/catheter/FlowGenerator.java:79-91 | the flows hold Distribute of their old values |
| Generator.FlowGenerator.TransmitLoop | src/main/java/org/opennms/nephron/catheter/FlowGenerator.java:86-91 | the downward loop gives every flow its portion and leaves nothing else changed |
| Generator.FlowGenerator.TransmitAt | src/main/java/org/opennms/nephron/catheter/FlowGenerator.java:87-90 | index i > 0 gets its rounded share, index 0 the rounded remainder, and the carried budget stays consistent |
| Generator.FlowGenerator.TransmitFlow | src/main/java/org/opennms/nephron/catheter/FlowGenerator.java:89 | only the i-th flow changes, by the amount transmitted |
| Generator.FlowGenerator.EndFlowsPass | src/main/java/org/opennms/nephron/catheter/FlowGenerator.java:96-113 | kept flows, reports and cursor are those of EndFlows |
| Generator.FlowGenerator.VisitFlow | src/main/java/org/opennms/nephron/catheter/FlowGenerator.java:97-112 | one iteration extends the EndFlows prefix by one flow: end, timeout report or keep |
| Generator.FlowGenerator.ReportFlow | src/main/java/org/opennms/nephron/catheter/FlowGenerator.java:104-111 | the i-th flow reports and is reset, and no other flow changes |
| Generator.FlowGenerator.RemoveFlow | src/main/java/org/opennms/nephron/catheter/FlowGenerator.java:105 | the i-th flow leaves the list and the others keep their order |
| Generator.FlowGenerator.Shutdown | src/main/java/org/opennms/nephron/catheter/FlowGenerator.java:153-164 | the reports are one per flow in list order, ending at now, and the list is empty |
| GeneratorProperties.PendingAddShares | src/main/java/org/opennms/nephron/catheter/FlowGenerator.java:86-91 | giving every flow its own share adds exactly the sum of the shares |
| GeneratorProperties.DistributeShares | src/main/java/org/opennms/nephron/catheter/FlowGenerator.java:86-91 | index i > 0 gets round(tickMs * rate / 1000), index 0 the budget minus the others; nothing else changes |
| GeneratorProperties.DistributeAt | src/main/java/org/opennms/nephron/catheter/FlowGenerator.java:86-91 | the value at one index after the split, as above |
| GeneratorProperties.DistributeTotal | src/main/java/org/opennms/nephron/catheter/FlowGenerator.java:83-91 | a non-empty population receives exactly round(bytesPerSecond * tickMs / 1000) in total; an empty one receives nothing |
| GeneratorProperties.DistributeKeepsRates | src/main/java/org/opennms/nephron/catheter/FlowGenerator.java:86-91 | transmitting changes no rate and no count |
| GeneratorProperties.EndFlowsCursor | src/main/java/org/opennms/nephron/catheter/FlowGenerator.java:96-113 | every ongoing flow consumes exactly one duration draw per tick, or none when the range is 0 |
| GeneratorProperties.EndFlowsAccounted | src/main/java/org/opennms/nephron/catheter/FlowGenerator.java:96-113 | each flow is ended with a report, or reported and kept, or kept, in order, never reported twice |
| GeneratorProperties.AccountedConserves | src/main/java/org/opennms/nephron/catheter/FlowGenerator.java:96-113 | ending and reporting lose no bytes; the rate sum falls only when flows are removed; survivors keep positive rates |
| GeneratorProperties.EndFlowsFacts | src/main/java/org/opennms/nephron/catheter/FlowGenerator.java:96-113 | the end/timeout pass conserves bytes, bounds the counts and consumes one draw per flow |
| GeneratorProperties.ReducedCountStops | src/main/java/org/opennms/nephron/catheter/FlowGenerator.java:132-134 | after the reduce loop k == 1 or deficit / k >= 1000, and every larger count gave a share below 1000 |
| GeneratorProperties.LoopRatesFacts | src/main/java/org/opennms/nephron/catheter/FlowGenerator.java:137-143 | the spawn loop's rates are share for all but the last, and the remainder for the last; they sum to the deficit |
| GeneratorProperties.SpawnSharesSum | src/main/java/org/opennms/nephron/catheter/FlowGenerator.java:137-143 | k rates: k-1 of deficit / k, the last deficit - (k-1)(deficit / k); sum exactly the deficit, all at least 1 after the reduce loop |
| GeneratorProperties.NewFlowsSums | src/main/java/org/opennms/nephron/catheter/FlowGenerator.java:140-142 | spawned flows carry the given rates and no bytes |
| GeneratorProperties.AppendNewFlows | src/main/java/org/opennms/nephron/catheter/FlowGenerator.java:138-143 | appending keeps the old flows in place; new flows start at now with no bytes |
| GeneratorProperties.SpawnCount | src/main/java/org/opennms/nephron/catheter/FlowGenerator.java:128-129 | with one free slot the count is 1 and no draw is consumed; otherwise, for any draw but Long.MIN_VALUE, the count is in [1, maxFlowCount - size - 1] |
| GeneratorProperties.SpawnFills | src/main/java/org/opennms/nephron/catheter/FlowGenerator.java:122-145 | a deficit is filled exactly: rate sum back to the target, at most maxFlowCount flows, all rates positive |
| GeneratorProperties.ReducedSharesPositive | src/main/java/org/opennms/nephron/catheter/FlowGenerator.java:128-143 | after the reduce loop, every spawned rate is at least 1 |
| GeneratorProperties.SpawnKeeps | src/main/java/org/opennms/nephron/catheter/FlowGenerator.java:122-145 | spawning keeps existing flows, adds no bytes and no reports, and consumes at most one draw |
| GeneratorProperties.SpawnUsesOnlyItsDraws | src/main/java/org/opennms/nephron/catheter/FlowGenerator.java:128-129 | spawning depends only on the draws it consumes |
| GeneratorProperties.InitBalanced | src/main/java/org/opennms/nephron/catheter/FlowGenerator.java:54-67 | the constructor's spawn pass meets the target from the start: balanced, no bytes, no reports, all flows starting now |
| GeneratorProperties.ZeroTargetStaysEmpty | src/main/java/org/opennms/nephron/catheter/FlowGenerator.java:122-126 | a non-positive target never spawns: construction and ticks keep the population empty |
| GeneratorProperties.ZeroLimitStillSpawns | src/main/java/org/opennms/nephron/catheter/FlowGenerator.java:128-129 | maxFlowCount 0 still spawns one flow, whatever the draw |
| GeneratorProperties.TickConserves | src/main/java/org/opennms/nephron/catheter/FlowGenerator.java:78-120 | bytes held plus bytes reported grow by exactly the tick's budget (nothing when there were no flows) |
| GeneratorProperties.TickOrder | src/main/java/org/opennms/nephron/catheter/FlowGenerator.java:86-119 | reports come from the flows after transmission; spawned flows come after survivors with no bytes; lastTick = now |
| GeneratorProperties.TickBalanced | src/main/java/org/opennms/nephron/catheter/FlowGenerator.java:78-145 | when no draw is Long.MIN_VALUE, a tick does not throw and keeps the population invariant |
| GeneratorProperties.TickKeepsBalance | src/main/java/org/opennms/nephron/catheter/FlowGenerator.java:78-145 | a balanced tick delivers exactly its budget and stays balanced |
| GeneratorProperties.RunBalanced | src/main/java/org/opennms/nephron/catheter/FlowGenerator.java:78-145 | the population invariant holds after any sequence of ticks |
| GeneratorProperties.RunConserves | src/main/java/org/opennms/nephron/catheter/FlowGenerator.java:78-120 | over any sequence of ticks, the bytes delivered equal the sum of the per-tick budgets |
| GeneratorProperties.ShutdownReportsBytes | src/main/java/org/opennms/nephron/catheter/FlowGenerator.java:153-164 | shutdown reports exactly the bytes the flows held |
| GeneratorProperties.ShutdownDrains | src/main/java/org/opennms/nephron/catheter/FlowGenerator.java:153-164 | one report per flow, in order, ending at now; total bytes preserved; list empty afterwards |
| GeneratorProperties.SimulationDeliversBudgets | src/test/java/org/opennms/nephron/catheter/FlowGeneratorTest.java:77-96 | build, ticks and shutdown together report exactly the sum of the per-tick budgets |
| GeneratorProperties.Simulate | src/test/java/org/opennms/nephron/catheter/FlowGeneratorTest.java:77-95 | build, the ticks and shutdown in order with all their reports; a simulation that does not throw ends with no ongoing flow |
| GeneratorProperties.WholeBudget | src/main/java/org/opennms/nephron/catheter/FlowGenerator.java:83-84 | when bytesPerSecond * tickMs is a multiple of 1000 the budget needs no rounding |
| GeneratorProperties.EvenBudgetsCount | src/test/java/org/opennms/nephron/catheter/FlowGeneratorTest.java:91-93 | n evenly spaced ticks have n times one tick's budget |
| GeneratorProperties.EvenTicks | src/test/java/org/opennms/nephron/catheter/FlowGeneratorTest.java:91-93 | the instants PIT + i * TICK_MS of the test loop, one per tick: exactly n of them |
| GeneratorProperties.EvenBudgets | src/test/java/org/opennms/nephron/catheter/FlowGeneratorTest.java:91-96 | with whole budgets, n ticks of tickMs budget bytesPerSecond * n * tickMs / 1000 |
| GeneratorProperties.EvenTicksDeliverTargetRate | src/test/java/org/opennms/nephron/catheter/FlowGeneratorTest.java:77-97 | the long-run rate of the test loop is exactly the target rate |
| GeneratorProperties.EndFlowsUsesOnlyItsDraws | src/main/java/org/opennms/nephron/catheter/FlowGenerator.java:96-113 | the end/timeout pass depends only on the draws it consumes |
| GeneratorProperties.TickUsesOnlyItsDraws | src/main/java/org/opennms/nephron/catheter/FlowGenerator.java:78-120 | a tick depends only on the draws it consumes, and never moves the cursor back |
| GeneratorProperties.RunUsesOnlyItsDraws | src/test/java/org/opennms/nephron/catheter/CatheterIT.java:227-238 | runs over the same draws give the same reports and state: same seed, same results |
| GeneratorProperties.RunCursorGrows | src/main/java/org/opennms/nephron/catheter/FlowGenerator.java:78-120 | a run never moves the random source backwards |

## Left out

- `Simulation`, `Exporter`, the JSON/JAXB configuration classes, `Catheter` and `Main` are
  not part of this model. They hold thread plumbing, the Kafka sink, protobuf conversion,
  and the command line.
- `java.util.Random` internals: the generator is an arbitrary oracle of 64-bit draws.
  Seeded reproducibility is stated as "the same draws give the same results".
- `DurationZufall` is not part of this model. It is modelled as a `Zufall` over
  milliseconds whose conversions are the identity (`Generator.NewDurationZufall`).
- IEEE `double` rounding in `tick`: the budget and shares are exact reals rounded half up.
  This differs from the code only where a double loses precision.
- Long overflow of rate sums, byte counters and `bytesToTransmit`: these are unbounded
  integers in the model.
- `hashCode`, `toString`, the `equals` of `FlowGenerator`, and `Flow.getBytes`: bookkeeping,
  with no behaviour to state.
- Concurrency: the engine runs on one thread. The `Random` shared with other generators is
  the cursor of one oracle.
- Generator.FlowGenerator.AppendFlows: its ensures does not repeat that each appended `Flow`
  object is freshly allocated. `Generator.FlowGenerator.AddFlow` states this for each
  single append, and `Valid()` keeps the list free of aliases.
- Generator.FlowGenerator.SpawnFlows: the same; it states the new flows' values, not their
  freshness.
- GeneratorProperties.SpawnCount, SpawnFills, InitBalanced: when two or more slots are
  free, these assume that the one draw they consume is not `Long.MIN_VALUE`. With that draw
  the count can be 0 or negative, so the pass throws or leaves the deficit unfilled, as
  `SpawnStep` models. With one free slot no draw is consumed and nothing is assumed.
- GeneratorProperties.TickBalanced: it assumes that no draw at all is `Long.MIN_VALUE`
  (`NoMinValueDraws`). Only the spawn-count draws need this. A duration draw of
  `Long.MIN_VALUE` cannot make the tick throw, but the lemma excludes it too.
- GeneratorProperties.TickKeepsBalance: the same assumption as `TickBalanced`.
- GeneratorProperties.RunBalanced: the same assumption as `TickBalanced`.
- GeneratorProperties.RunConserves: the same assumption as `TickBalanced`.
- GeneratorProperties.SimulationDeliversBudgets: the same assumption as `TickBalanced`.
  This lemma covers the seeded loop of `FlowGeneratorTest.java:77-97` only if
  `new Random(12345)` yields no `Long.MIN_VALUE` among the draws the loop consumes. The
  model does not compute that sequence.
- GeneratorProperties.EvenTicksDeliverTargetRate: the same assumption and the same
  limit as `SimulationDeliversBudgets`.
- The exact fixture values of `FlowGeneratorTest.generatorTest` are not used. They depend
  on the `java.util.Random` sequence for seed 12345.
