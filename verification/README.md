# Verified model of the GPU index, keeper, attestor and indexer

The repository publishes an index of GPU rental prices, attests it on chain,
liquidates perpetual positions against it and projects the chain's events into
tables. This project models the deterministic cores of those programs in Dafny
and proves what they are for:

| system | modules |
|---|---|
| pricing engine: screens, weight cap, confidence band, aggregation, publication | `OrderStatistics`, `WeightedStatistics`, `Rounding`, `Weights`, `WaterFilling`, `InfeasiblePanel`, `Screens`, `Band`, `Aggregation`, `Publication`, `Gates`, `Engine`, `IndexLaws` |
| keeper: perp arithmetic, solvency over runs, tick evaluation, the loaded book, SSE reader | `PerpMath`, `PerpSolvency`, `Strategy`, `KeeperBook`, `FrameStream` |
| attestor: report building, interleaved poll cycles over insert-if-absent tables | `Report`, `Attestor`, `Poller` |
| indexer: pool, perp and cost-basis projections of an event log | `FiniteSums`, `PoolProjection`, `PoolLog`, `PerpProjection`, `CostBasis` |
| text: canonical JSON, GPU label matching | `JsonNumbers`, `JsonStrings`, `CanonicalJson`, `JsonSyntax`, `GpuLabel`, `GpuNormalization` |
| web: basis chart join | `BasisJoin` |

`RealArithmetic`, `IntegerArithmetic`, `Sequences` and `Wrappers` hold shared vocabulary.

Code that mutates (the cap loop's array, the loops of the screens, the store the
handlers write, the poller) is written as methods and classes, each proved to
compute a specification function; the theorems are about those functions. Prices
and weights are `real`, chain amounts are unbounded `int` with the source's floor
or ceiling at every division, hashes wrap at 32 bits explicitly, text is a
sequence of characters or UTF-16 code units.

## What the proofs found

Where the code differs from its comments the model follows the code, and the
exact condition is proved for all inputs.

- **Withheld rows carry prices.** A computation that fails its gates with nothing
  to carry stores its figure on the `withheld` row, and drifts it when a too-old
  prior exists and movement is on; the comment at engine.ts:236-237 says
  withheld figures never drift. `Publication.WithheldPriceExactly`,
  `WithheldDriftExactly`, `WithheldCanDrift`.
- **A gate-failed figure can be republished.** The next prior is the newest row
  with a price, so a `stale` row descends from a gate-passing computation exactly
  when the last computed priced row was not withheld.
  `Publication.StaleIsGatedExactly`, `UngatedFigureRepublished`.
- **The attestor's jump check compares two scales.** The poller passes the last
  report's price in ten-thousandths beside the candidate's in dollars, so an
  unmoved price is flagged exactly when the limit is below 0.9999.
  `Attestor.UnmovedPriceFlaggedExactly`, `JumpFlaggedExactly`, `ReattestationFlagged`.
- **The first order delay is lost.** `MinOrderDelaySet` updates a row it never
  creates, so a delay is stored exactly when an earlier event had created it.
  `PerpProjection.DelayStoredExactly`, `FirstDelayDropped`.
- **A zero entry price stops a whole tick.** Evaluating such a position divides
  by zero, and the tick yields no work at all. The indexer stores such a row for
  every decrease whose opening it did not see. `Strategy.EvaluateTick`,
  `KeeperBook.ThrowsExactlyUnopened`, `OneDecreaseLosesTheTick`.
- **Two providers are not always left undistorted.** Below 1/cap providers the
  comment at weights.ts:35-40 wants the weights untouched when capping cannot
  help. For two of any real weight, that happens exactly when neither holds more
  than 1 - cap and the guard; otherwise they are handed 1 - cap and cap, and which
  of them gets which depends on the parity of the passes, so the smaller can end on
  top.
  `InfeasiblePanel.TwoProvidersHanded`, `PairRunsTo`, `RanksCanSwap`.
- **The cap loop runs 60 passes, not 20.** The header comment at weights.ts:8
  gives the older bound. `Weights.CapLoop`, `WaterFilling.DefaultCapConverges`.
- **Unprintable values are not all refused.** A function, a symbol or a Map
  prints as `{}`, the text of an empty object.
  `CanonicalJson.PrintsExactly`, `InsertionOrderInvisible`.
- **Equal Index stamps block the chart's walk.** The forward walk finds the
  nearest point for every candle exactly when the stamps are strict up to a final
  run. `BasisJoin.NearestExactlyWhenStrict`.
- **The compact label pattern never matches part of a label.** Its guards only
  leave room for the whole space-free label. `GpuLabel.CompactIffFlatEqual`.

## Model

| member | source | states |
|---|---|---|
| OrderStatistics.MedianRank | packages/pricing-engine/src/median.ts:6-14 | at most half of the values lie strictly below the median and at most half strictly above |
| OrderStatistics.MedianIsMidpoint | packages/pricing-engine/src/median.ts:6-14 | the median is the midpoint of the two middle values, whatever they are found by: any value of the lower and any of the upper middle rank |
| OrderStatistics.MiddleValues | packages/pricing-engine/src/median.ts:9-13 | every non-empty list has such values |
| OrderStatistics.MedianBreakdown | packages/pricing-engine/src/median.ts:6-14 | when more than half of the values lie in [lo, hi], so does the median, whatever the rest are |
| OrderStatistics.MadBreakdown | packages/pricing-engine/src/median.ts:20-25 | under the same majority, the deviation from any centre in [lo, hi] is at most hi - lo |
| OrderStatistics.MadCoversHalf | packages/pricing-engine/src/median.ts:20-25 | at least half of the values lie within one MAD of the centre |
| OrderStatistics.SortBySorts | packages/pricing-engine/src/median.ts:9 | the sort is an ascending permutation of its input |
| WeightedStatistics.WeightedMedian | packages/pricing-engine/src/median.ts:32-45 | the cumulative loop returns the first value reaching half the total weight, or null |
| WeightedStatistics.QuantileMass | packages/pricing-engine/src/median.ts:39-44 | less than the target weight lies below the value found and at least the target at or below it |
| WeightedStatistics.RankDetermines | packages/pricing-engine/src/median.ts:9-13 | a rank bound on both sides pins the element at an index of the sorted list |
| WeightedStatistics.WeightedMedianIsLowerMedian | packages/pricing-engine/src/median.ts:27-45 | with whole weights it is the lower median of the list with each value written weight times |
| WeightedStatistics.ScanTo | packages/pricing-engine/src/band.ts:65-73 | the quantile scan finds the first value whose cumulative weight reaches the target |
| Rounding.Round4Error | packages/types/src/canonical.ts:45-55 | rounding to four decimals moves a price by at most 0.00005 |
| Rounding.Round4Exactly | packages/types/src/canonical.ts:45-55 | the rounded price is the one count of ten-thousandths within half of one, the upper one on a tie |
| Rounding.Round4Monotone | packages/types/src/canonical.ts:45-55 | rounding keeps the order of prices |
| Rounding.Round4Idempotent | packages/types/src/canonical.ts:45-55 | a rounded price rounds to itself |
| Weights.CapWeights | packages/pricing-engine/src/weights.ts:22-53 | the in-place loop and guard hand out, item by item, the original weight and its capped value |
| Weights.CapPass | packages/pricing-engine/src/weights.ts:28-33 | one pass either stops with the array unchanged or overwrites the first largest weight |
| Weights.CheckImproved | packages/pricing-engine/src/weights.ts:41-46 | the infeasibility guard read off the two arrays |
| Weights.MaxIndexIsFirstMax | packages/pricing-engine/src/weights.ts:30-32 | the overwritten position is the first of the largest weights |
| Weights.RecapTotal | packages/pricing-engine/src/weights.ts:28-33 | a pass makes the largest weight exactly cap of the new, strictly smaller total |
| Weights.CapLoopCaps | packages/pricing-engine/src/weights.ts:27-34 | after any number of passes each weight is between 0 and its original, and is untouched or at least cap of the total |
| Weights.WithinCapUntouched | packages/pricing-engine/src/weights.ts:27-52 | a panel in which nobody exceeds the cap is handed out unchanged |
| Weights.ExitIsWaterFilling | packages/pricing-engine/src/weights.ts:27-34 | leaving by the cap test, each weight equals min(original, cap * total) up to the test's slack |
| WaterFilling.ExactExitSolves | packages/pricing-engine/src/weights.ts:27-34 | an exit that did not use the test's slack holds the exact solution of the cap constraint |
| WaterFilling.ExactExitCutsOne | packages/pricing-engine/src/weights.ts:27-34 | and such an exit has cut at most one provider: once two are cut, the loop can only stop through the slack or by running out of passes |
| WaterFilling.OnePassSettlesOneDominant | packages/pricing-engine/src/weights.ts:27-34 | exact exits do happen: a single dominant provider beside others below its new cap is settled in one pass |
| WaterFilling.SolutionExists | packages/pricing-engine/src/weights.ts:6-9 | above 1/cap providers exactly one total satisfies the cap constraint, as the comment on the fixed point claims |
| WaterFilling.SolutionUnique | packages/pricing-engine/src/weights.ts:22-34 | unless exactly 1/cap providers exist, at most one total solves the constraint |
| WaterFilling.WaterSumPermutes | packages/pricing-engine/src/weights.ts:22-34 | the cut total does not depend on provider order |
| WaterFilling.RecapStaysAbove | packages/pricing-engine/src/weights.ts:27-34 | a pass never undershoots the water-filling solution |
| WaterFilling.RecapContracts | packages/pricing-engine/src/weights.ts:25-34 | any pass shrinks the excess over the solution by (k-1)/((1-cap)k), with k the weights the solution cuts |
| WaterFilling.LaterPassContracts | packages/pricing-engine/src/weights.ts:25-34 | a pass after the first shrinks it by 1/(1-cap) - 1/(k-1), which is cap/(1-cap) for two cut weights |
| WaterFilling.RatioBelowOne | packages/pricing-engine/src/weights.ts:25-34 | that factor is below one on every panel the cap can be met on |
| WaterFilling.DefaultCapConverges | packages/pricing-engine/src/weights.ts:25-27 | at the default cap of 0.35 the 60 passes leave under 1e-10 of the excess, as the comment expects |
| WaterFilling.CapLoopAbove | packages/pricing-engine/src/weights.ts:27-34 | the whole loop approaches the solution from above |
| WaterFilling.ExitDistance | packages/pricing-engine/src/weights.ts:27-34 | with the test's slack, the exit total exceeds the solution by at most n * slack / (1 - k * cap) |
| WaterFilling.LoopNearsSolution | packages/pricing-engine/src/weights.ts:27-34 | above 1/cap providers, for any slack and whether or not the loop leaves by its cap test, its total and every weight are within one explicit gap above the water-filling solution |
| WaterFilling.OrderIndependent | packages/pricing-engine/src/weights.ts:22-34 | so two orders of the same providers get totals, and weights for equal originals, that differ by at most that gap |
| WaterFilling.CapHonouredAtExit | packages/pricing-engine/src/weights.ts:27-52 | when the loop leaves by its cap test nobody is handed more than cap plus eps * max(1, total) / total plus the guard |
| WaterFilling.CapHonoured | packages/pricing-engine/src/weights.ts:27-52 | above 1/cap providers, exit or not, nobody is handed more than cap plus gap / solution plus the guard |
| InfeasiblePanel.InfeasibleUnsolvable | packages/pricing-engine/src/weights.ts:35-37 | with fewer than 1/cap providers no total satisfies the cap constraint |
| InfeasiblePanel.InfeasibleExitCollapses | packages/pricing-engine/src/weights.ts:35-40 | there the cap test is met only through its slack, which must be positive, and only after the total has collapsed to n * eps / (1 - n * cap) |
| InfeasiblePanel.TwoProvidersHanded | packages/pricing-engine/src/weights.ts:35-46 | two providers under a cap below one half are handed their own weights exactly when neither holds more than 1 - cap plus the guard or their total already lies within the test's slack; otherwise the shares handed out are exactly 1 - cap and cap |
| InfeasiblePanel.PairRunsTo | packages/pricing-engine/src/weights.ts:27-34 | which of the two ends on top depends on the parity of the passes run |
| InfeasiblePanel.ExactPairKeepsRanks | packages/pricing-engine/src/weights.ts:27-52 | with an exact cap test two providers would never swap ranks, because 60 passes is an even number |
| InfeasiblePanel.RanksCanSwap | packages/pricing-engine/src/weights.ts:27-52 | weights 2 and 0.5 with cap 0.25 and Number.EPSILON: the smaller provider is handed 75% |
| Weights.CappedWeightsSound | packages/pricing-engine/src/weights.ts:41-52 | handed-out weights are non-negative, never above the original, and the worst share never grows |
| Screens.MadScreen | packages/pricing-engine/src/screen.ts:28-94 | kept rows, exclusions, median and dispersion of every branch of the screen |
| Screens.KeptExactly | packages/pricing-engine/src/screen.ts:42-87 | an armed screen keeps exactly the prices within sigmaLimit * madScale spreads of the median, or within the ratio band of it when there is no spread |
| Screens.RejectionsExactly | packages/pricing-engine/src/screen.ts:53-87 | every rejection names a candidate with its price and the test it failed, the ratio band exactly when there is no spread |
| Screens.DispersionIsSpread | packages/pricing-engine/src/screen.ts:89-93 | the dispersion stands for the distance from the median that at most half of the prices undercut and at most half exceed |
| Screens.MadScreenBreakdown | packages/pricing-engine/src/screen.ts:42-93 | armed, with a majority of prices in [lo, hi], every kept price lies in [min(lo/r, lo-K(hi-lo)), max(r*hi, hi+K(hi-lo))] |
| Screens.MadScreenKeepsHalf | packages/pricing-engine/src/screen.ts:28-94 | with sigmaLimit * madScale at least 1 the screen keeps at least half of any panel |
| Screens.MadScreenPartitions | packages/pricing-engine/src/screen.ts:54-87 | every candidate is kept or excluded, exactly once |
| Screens.JumpScreen | packages/pricing-engine/src/screen.ts:104-132 | the nested loops give exactly the specified exclusions, in order |
| Screens.MoveExactly | packages/pricing-engine/src/screen.ts:112-116 | a move of at least pct is a price off the own trailing median by at least that share of it |
| Screens.ExcludedIffFewMovers | packages/pricing-engine/src/screen.ts:117-123 | a jumper is excluded exactly when at most minCorroborators of the comparable providers moved |
| Screens.JumpersAllOrNone | packages/pricing-engine/src/screen.ts:116-131 | so the screen removes all jumpers or none |
| Screens.JumpScreenSpares | packages/pricing-engine/src/screen.ts:104-132 | at most minCorroborators providers are removed and at least one comparable one is left |
| Band.ComputeBand | packages/pricing-engine/src/band.ts:30-83 | the votes, sort, window loop and quantiles give the specified band, or null |
| Band.CentralThird | packages/pricing-engine/src/band.ts:47-60 | the loop accumulates the window's weighted sum and weight |
| Band.OverlapsTile | packages/pricing-engine/src/band.ts:52-60 | the slot overlaps add up to the covered part of the window |
| Band.WindowIsOneThird | packages/pricing-engine/src/band.ts:44-60 | the central window holds exactly one third of the vote weight |
| Band.BandExists | packages/pricing-engine/src/band.ts:31-61 | a band exists exactly when the votes carry weight |
| Band.BandCoversQuartiles | packages/pricing-engine/src/band.ts:62-82 | q25 <= value <= q75 before rounding; the published band is symmetric around the value, covers the quartiles and reaches exactly the farther one |
| Band.BandBreakdown | packages/pricing-engine/src/band.ts:30-83 | voters with under a third of the weight cannot move the value outside the range that the others' prices span with their sigmas added and taken off |
| Band.ThirdsAverageToMean | packages/pricing-engine/src/band.ts:44-62 | lowest, central and highest third of the votes average to the weighted mean of the voted prices, and the value is the middle one of the three |
| Band.BandSpansFloor | packages/pricing-engine/src/band.ts:33-82 | with every vote spread by at least a floor, the band reaches down to the highest price less the floor and up to the lowest plus it |
| Band.SoleVoteBand | packages/pricing-engine/src/band.ts:30-83 | a single voter's band is its price, and its price less and plus sigma of it |
| Aggregation.ScreenRows | packages/pricing-engine/src/aggregate.ts:80-158 | the row loop splits rows into screened and excluded and counts the flags |
| Aggregation.RowReasonExactly | packages/pricing-engine/src/aggregate.ts:98-150 | a row is priced exactly when it is available, plausible and, on an order book, an offer of a known in-range count whose total adds up, or otherwise of an eligible tier; a refusal names something true of the row |
| Aggregation.Dedup | packages/pricing-engine/src/aggregate.ts:160-180 | the keyed loop books rows in insertion order and counts the drops; no two booked rows name the same machine, or without machine ids the same host, or without either the same offer |
| Aggregation.UnitsBookedOnce | packages/pricing-engine/src/aggregate.ts:160-175 | two different booked rows never name the same machine, host or offer, read off the rows' own ids |
| Aggregation.UnidentifiedApart | packages/pricing-engine/src/aggregate.ts:164-165 | rows without any id are never merged with one another |
| Aggregation.AggregateProviderPrice | packages/pricing-engine/src/aggregate.ts:73-305 | both paths, with their holdouts, flags and receipts, compute the specified result |
| Aggregation.BookKeepsCheapest | packages/pricing-engine/src/aggregate.ts:160-175 | each key keeps the cheapest of exactly its own rows; booked plus dropped is every row |
| Aggregation.ObservationsConserved | packages/pricing-engine/src/aggregate.ts:73-305 | observations = exclusions + duplicates dropped + sample size |
| Aggregation.BookPriceIsLowerMedian | packages/pricing-engine/src/aggregate.ts:152-247 | an order-book price is the rounded lower median of the machines' cheapest prices, each repeated once per gpu and at most 16 times |
| Aggregation.BookedDeepExactly | packages/pricing-engine/src/aggregate.ts:177-230 | where the booked rows name their machines, a book is priced exactly when it has enough machines, one per booked row, and enough distinct hosts, machines standing for hosts where no host is named |
| Aggregation.RateCardBreakdown | packages/pricing-engine/src/aggregate.ts:249-305 | a rate-card price cannot leave the range of a majority of the rows fit to be priced |
| Aggregation.PricedInsideBand | packages/pricing-engine/src/aggregate.ts:122-130 | on both paths a provider has a price exactly when it is not held out, and that price lies in the rounded plausible band |
| Aggregation.HeldOutExactly | packages/pricing-engine/src/aggregate.ts:199-295 | a provider is held out for having no rows exactly when it has none, and for losing all exactly when it has rows and none is fit to be priced |
| Aggregation.FloodingHarmless | packages/pricing-engine/src/aggregate.ts:160-247 | appending rows that are not fit to be priced, or that carry the machine id of a booked row at no lower price under any offer or host id, changes no price, sample size, method or holdout; the same by host id and by offer id for rows without the ids before it |
| Publication.Publish | packages/pricing-engine/src/engine.ts:176-256 | status, price, carry and offset of every branch |
| Publication.OnlyGatedPricesPublish | packages/pricing-engine/src/engine.ts:196-229 | healthy and degraded rows passed every gate; healthy also met the full quorum |
| Publication.CarriedExactly | packages/pricing-engine/src/engine.ts:184-215 | a prior is carried, with its id, exactly when there is no gated figure and it is inside its window |
| Publication.MovedExactly | packages/pricing-engine/src/engine.ts:238-256 | a figure moves exactly when movement is on, it was computed here and a prior exists; then it is anchor plus offset on the grid |
| Publication.MovementBounded | packages/pricing-engine/src/engine.ts:231-256 | a computed figure stays within the allowance of its anchor plus half a grid step |
| Publication.OffsetReverts | packages/pricing-engine/src/engine.ts:231-255 | the offset stays inside the allowance and within one step of the reverted gap to the prior held inside it, so it pulls towards the prior |
| Publication.OffsetSteps | packages/pricing-engine/src/engine.ts:243-252 | where the allowance leaves room the sample adds its share of one step, up or down |
| Publication.WithheldPriceExactly | packages/pricing-engine/src/engine.ts:186-215 | a withheld row stores a price exactly when a computation failed its gates with nothing to carry |
| Publication.WithheldDriftExactly | packages/pricing-engine/src/engine.ts:238-256 | and carries an offset exactly when, besides, a too-old prior exists and movement is on |
| Publication.WithheldCanDrift | packages/pricing-engine/src/engine.ts:234-256 | a concrete withheld figure that drifts |
| Publication.StaleIsGatedExactly | packages/db/src/repos.ts:608-620 | over any series, a carried figure descends from a gate-passing computation exactly when the last computed priced row was not withheld |
| Publication.UngatedFigureRepublished | packages/db/src/repos.ts:608-620 | a concrete series republishing a gate-failed figure as stale |
| Publication.FnvUnit | packages/pricing-engine/src/engine.ts:299-306 | the 32-bit hash loop gives a sample strictly inside (-1, 1) |
| Publication.UnitSpreads | packages/pricing-engine/src/engine.ts:299-306 | the samples of all hashes are evenly spaced and balanced around zero |
| Publication.FnvVectors | packages/pricing-engine/src/engine.ts:299-304 | the hash has the published 32-bit FNV-1a values for the empty text, "a" and "foobar" |
| Gates.EvaluateGates | packages/pricing-engine/src/gates.ts:20-90 | the gate receipts, in order, with what was observed, the threshold and the reason |
| Gates.ReceiptsReadable | packages/pricing-engine/src/gates.ts:20-90 | every receipt passes exactly when its figure meets its threshold on its own side, fails without a figure, and stands in its fixed place |
| Gates.ExecutablesCount | packages/pricing-engine/src/gates.ts:70-80 | the executable gate reports how many contributors are executable |
| Gates.ScanFreshness | packages/pricing-engine/src/gates.ts:42-51 | the loop finds the oldest known print and whether one is unknown |
| Gates.OldestIsLeast | packages/pricing-engine/src/gates.ts:42-51 | the oldest print is a known one that no other precedes |
| Gates.FreshExactly | packages/pricing-engine/src/gates.ts:40-68 | the freshness gate passes exactly when there are contributors and each has a known print within the window |
| Gates.GatesPassExactly | packages/pricing-engine/src/gates.ts:20-90 | all gates pass exactly when quorum, observations, freshness, an executable source if required, and dispersion are met |
| Engine.ScreenPanel | packages/pricing-engine/src/engine.ts:69-115 | eligibility, holdouts and both screens in order, with their exclusions |
| Engine.ExcludeIneligible | packages/pricing-engine/src/engine.ts:69-82 | the eligible providers, and an exclusion for each priced other one |
| Engine.ExcludeHeldOut | packages/pricing-engine/src/engine.ts:84-95 | the priced providers, and an exclusion for each unpriced one |
| Engine.ComputeIndex | packages/pricing-engine/src/engine.ts:61-294 | the composed pipeline computes the specified figure, band, dispersion, gate receipts, contributors, exclusions, status and price provenance; executable contributors enter with the executable weight and the others with the rate-card weight |
| Engine.PublishesExactly | packages/pricing-engine/src/engine.ts:164-229 | a fresh figure is published exactly when weight, quorum, observations, freshness, a required executable source and dispersion are all met |
| Engine.ProvidersPartition | packages/pricing-engine/src/engine.ts:69-141 | every eligible or priced provider appears exactly once among contributors and exclusions |
| Engine.JumpStageSpares | packages/pricing-engine/src/engine.ts:97-106 | the jump screen takes at most minCorroborators of the observed providers and never all of them |
| Engine.SomeProviderKept | packages/pricing-engine/src/engine.ts:84-115 | the screens keep someone exactly when someone was observed |
| Engine.AnchorExists | packages/pricing-engine/src/engine.ts:126-147 | a figure is computed exactly when some eligible provider has a price |
| Engine.ContributorWeights | packages/pricing-engine/src/engine.ts:117-127 | contributor weights are non-negative and, with anyone kept, sum to something positive |
| Engine.PriceContained | packages/pricing-engine/src/engine.ts:143-147 | the weighted price lies between any bounds on its contributors' prices |
| Engine.KeptBreakdown | packages/pricing-engine/src/engine.ts:97-115 | with the MAD screen armed and a majority of the prices it sees in [lo, hi], every kept price obeys the breakdown bound |
| Engine.MajoritySurvivesJumps | packages/pricing-engine/src/engine.ts:97-106 | a majority of the observed prices with minCorroborators to spare is still one after the jump screen |
| Engine.IndexBreakdown | packages/pricing-engine/src/engine.ts:84-147 | when the priced eligible providers arm the screen and have a majority in [lo, hi], both with minCorroborators to spare, every contributor's price and the index price obey the breakdown bound, whatever the others print |
| IndexLaws.ContributorsAreProviders | packages/pricing-engine/src/engine.ts:69-141 | every contributor is an eligible, priced provider of the panel with its own price, kind, samples and sigma, and before the cap weighs the executable or the rate-card weight by its kind |
| IndexLaws.UncappedMean | packages/pricing-engine/src/engine.ts:117-147 | while neither kind's weight exceeds the cap, contributors count with those two weights unchanged and the figure is the mean in them |
| IndexLaws.InfluenceIsShare | packages/pricing-engine/src/engine.ts:126-147 | a provider moves the figure by its own move times its share of the capped weight, and by nothing else |
| IndexLaws.InfluenceCapped | packages/pricing-engine/src/weights.ts:1-13 | so on a panel the cap can be met on, one misprint moves the index by at most the cap, the loop's gap and the guard times the misprint |
| IndexLaws.JumpScreenedExactly | packages/pricing-engine/src/engine.ts:97-106 | an observed provider is screened out exactly when its price jumped off its own trailing median, enough providers can be compared and too few moved along |
| IndexLaws.MadScreenedExactly | packages/pricing-engine/src/engine.ts:107-115 | of those left, exactly the ones within the sigma limit, or the ratio band, of the panel's median are kept |
| IndexLaws.BandSpansSigmaFloor | packages/pricing-engine/src/engine.ts:149-163 | a published band is never narrower than the configured sigma floor makes it |
| IndexLaws.SoleContributorBand | packages/pricing-engine/src/engine.ts:152-162 | one contributor alone has the band of its own sigma, or of the floor where that is larger or the sigma unknown |
| IndexLaws.IndexDispersion | packages/pricing-engine/src/engine.ts:149-150 | the index's dispersion is that of exactly the prices it keeps, zero for a panel without spread or survivors |
| IndexLaws.ProvenanceExactly | packages/pricing-engine/src/engine.ts:258-278 | a band is published exactly with a fresh figure; the price comes from the prior exactly when it is carried, with the rejected figure beside it, and from nowhere exactly when there is none |
| PerpMath.AdvanceFunding | apps/keeper/src/math.ts:121-155 | the step-by-step advance of the four cumulatives and its window |
| PerpMath.PnlIsFloor | apps/keeper/src/math.ts:42-57 | on both sides PnL is the floor of the signed exact profit |
| PerpMath.PnlSign | apps/keeper/src/math.ts:42-57 | a side of any size loses nothing exactly when the price moved its way or not at all |
| PerpMath.PnlMonotone | apps/keeper/src/math.ts:48-57 | a long's PnL rises with the price, a short's falls |
| PerpMath.PnlZeroSum | apps/keeper/src/math.ts:48-57 | equal long and short PnL sum to 0 or -1, 0 exactly on an exact division |
| PerpMath.AdvanceIdempotentBefore | apps/keeper/src/math.ts:121-135 | advancing to or before the last touch changes nothing |
| PerpMath.AdvanceClamped | apps/keeper/src/math.ts:121-135 | past the window one advance is worth exactly 3600 seconds |
| PerpMath.AccrualDirections | apps/keeper/src/math.ts:121-155 | an accrual charges the larger side alone, longs on a tie, hands the other what that collects short of one unit per unit of open interest, and counts at most an hour |
| PerpMath.DriftWithin | apps/keeper/src/math.ts:72-83 | the drift is the exact skew funding rounded down by less than a unit and a rate's worth of skew |
| PerpMath.BorrowDriftExact | apps/keeper/src/math.ts:85-87 | borrow drift is exactly linear in the window |
| PerpMath.BorrowSplits | apps/keeper/src/math.ts:85-87 | and so splits without loss |
| PerpMath.DriftSplits | apps/keeper/src/math.ts:72-83 | splitting a window loses at most one unit of skew drift |
| PerpMath.CreditSplits | apps/keeper/src/math.ts:136-155 | the credit paid to the other side never grows by splitting |
| PerpMath.AccrualSplits | apps/keeper/src/math.ts:72-155 | two advances instead of one leave borrow equal, lower a charge by 0 or 1, and raise no credit |
| PerpMath.GateWithinUnits | apps/keeper/src/math.ts:158-217 | in exact figures: a position below its exact maintenance margin is always liquidatable, one at four raw units or more above it never |
| PerpMath.LiquidationPriceThreshold | apps/keeper/src/math.ts:199-217 | the gate is a price threshold: it holds at every worse price |
| PerpMath.SettlementWorsens | apps/keeper/src/math.ts:121-197 | on an unchanged market a non-earning position owes no less later and earns the same |
| PerpMath.LiquidationPersists | apps/keeper/src/math.ts:184-217 | once liquidatable, a non-earning position stays so later and at no better price |
| PerpSolvency.AccrualSolvent | apps/keeper/src/math.ts:121-155 | an accrual charges the paying side at least what it credits the other |
| PerpSolvency.SettlementCovers | apps/keeper/src/math.ts:60-69 | a settlement charges at least and credits at most the exact amount it clears, each within one unit of it |
| PerpSolvency.StepMovesPending | apps/keeper/src/math.ts:121-197 | after its accrual no step creates or loses funding: what was pending is pending still or has just been charged and credited, to the unit |
| PerpSolvency.ApplySolvent | apps/keeper/src/math.ts:121-197 | opening, touching, resizing, accruing and changing the rates keep charges at or above credits |
| PerpSolvency.RunSolvent | apps/keeper/src/math.ts:121-197 | and so does any sequence of them |
| PerpSolvency.FundingSolvency | apps/keeper/src/math.ts:58-69 | from an untouched book, over any run with any rate changes, funding credited and pending never exceeds funding charged and pending |
| PerpSolvency.ClosedBookSolvent | apps/keeper/src/math.ts:58-69 | once all positions are closed, after any such run, what was collected covers what was paid out |
| Strategy.EvaluateTick | apps/keeper/src/strategy.ts:44-116 | nothing without a price; otherwise a throw exactly when the id does not encode or a held entry price of zero is met, else liquidations followed by executable orders by id |
| Strategy.TickThrowsExactly | apps/keeper/src/math.ts:48-57 | a tick throws, read off the rows, exactly when a sized holding of its market has no entry price, the price is not zero and the market has a margin |
| Strategy.SortOrdersSorts | apps/keeper/src/strategy.ts:63-87 | orders are taken in id order, each exactly once |
| Strategy.TriggersCover | apps/keeper/src/math.ts:223-231 | a take profit fires exactly where its side entered at the trigger loses nothing, a stop loss exactly where the opposite side loses nothing; together they leave no price uncovered and share only the trigger |
| Strategy.LiquidatesExactly | apps/keeper/src/strategy.ts:87-113 | a liquidation is emitted exactly for the market's holdings whose gate holds against the market advanced to the second |
| Strategy.DueByExactEquity | apps/keeper/src/strategy.ts:87-113 | so for every holding whose exact equity is below its exact margin, and for none at four units or more above it |
| Strategy.ExecutesExactly | apps/keeper/src/strategy.ts:58-85 | an execution is emitted exactly for the market's orders past their delay that get what they ask for: an increase or decrease that gains no less than at its bound wherever it is closed or was entered, increases only while the market is enabled, a take profit whose move from the trigger loses nothing, a stop loss whose move gains nothing |
| Strategy.WorkIsOrdered | apps/keeper/src/strategy.ts:58-116 | no execution precedes a liquidation or an order of smaller id |
| Strategy.LiquidationKeepsFiring | apps/keeper/src/strategy.ts:87-113 | on an unchanged book a due liquidation of a non-earning position stays due |
| KeeperBook.ThrowsExactlyUnopened | apps/keeper/src/state.ts:248-262 | a loaded position makes its market's tick throw exactly when no logged increase gave it an entry price |
| KeeperBook.LoadedPositionGate | apps/keeper/src/state.ts:248-262 | a loaded position is due by its row's own figures: below its exact margin always, four units above it never |
| KeeperBook.OneDecreaseLosesTheTick | apps/indexer/src/handlers/perp.ts:332-371 | one decrease whose opening was not indexed: the book loaded from it owes a liquidation, and the tick throws instead |
| JsonNumbers.PositiveRoundTrip | packages/types/src/canonical.ts:36-44 | each of the four number layouts decodes to its digits and exponent |
| JsonNumbers.NumberTextInjective | packages/types/src/canonical.ts:36-44 | numbers print alike exactly when equal, both zeros being one |
| JsonStrings.EscapeReads | packages/types/src/canonical.ts:18-32 | an escaped string ends at its closing quote and nowhere else |
| JsonStrings.QuotedReads | packages/types/src/canonical.ts:18-32 | a quoted string can be read off the front of any text |
| JsonStrings.StringRoundTrip | packages/types/src/canonical.ts:18-32 | decoding a string literal's escapes gives back the string, whatever its code units |
| JsonStrings.LessTotal | packages/types/src/canonical.ts:26-30 | the key order by code units is total and strict |
| JsonStrings.LessTransitive | packages/types/src/canonical.ts:26-30 | and transitive |
| JsonStrings.LessExactly | packages/types/src/canonical.ts:26-30 | a key comes first exactly at the first differing code unit, or as the other's beginning |
| CanonicalJson.PrintsExactly | packages/types/src/canonical.ts:13-34 | it prints exactly the values free of bigint, undefined, non-finite numbers and invalid dates within the depth limit, and throws on the rest; functions, symbols, Maps and class instances print by their own entries |
| CanonicalJson.PrintIsRender | packages/types/src/canonical.ts:13-34 | the printed text is the sort-free text of the canonical form |
| CanonicalJson.RenderReads | packages/types/src/canonical.ts:13-34 | a printed value can be read back off the front of any delimited text |
| CanonicalJson.SortedEqual | packages/types/src/canonical.ts:26-32 | sorting by key forgets exactly the insertion order |
| CanonicalJson.CanonIffSame | packages/types/src/canonical.ts:13-34 | two values share a canonical form exactly when they are the same data |
| CanonicalJson.SameTextIffSameData | packages/types/src/canonical.ts:1-34 | two printed values have the same text exactly when they are the same data, an object counting as its own entries whatever its kind |
| CanonicalJson.InsertionOrderInvisible | packages/types/src/canonical.ts:26-32 | objects with the same entries in any order, of any kind and at any depth print the same text or both throw |
| JsonSyntax.PrintDenotes | packages/types/src/canonical.ts:13-44 | what is printed is a JSON text of the value, character by character: words, ECMAScript number layout, string literals that decode to the string, and members in ascending key order |
| JsonSyntax.NumberIsLiteral | packages/types/src/canonical.ts:36-44 | a number literal decodes to its digits, point and sign, with an exponent exactly from 1e21 up and below 1e-6 |
| Report.EpochInterval | packages/attestor-client/src/report.ts:170-178 | an epoch is exactly the half-open interval of seconds that map to it |
| Report.EncodeGpuId | packages/attestor-client/src/report.ts:93-110 | encodes exactly the valid SKUs, left aligned in 32 bytes |
| Report.DecodeGpuId | packages/attestor-client/src/report.ts:113-126 | returns the text before the zero padding, or fails exactly when no SKU decodes |
| Report.SkuRoundTrip | packages/attestor-client/src/report.ts:93-126 | decoding undoes encoding and nothing else decodes |
| Report.ScaledPriceFaithful | packages/attestor-client/src/report.ts:135-150 | the scaled price is the one positive count of ten-thousandths within float noise of the price, and scaling throws exactly when there is none; a positive grid price always scales |
| Report.ReportIsHonest | packages/attestor-client/src/report.ts:187-225 | validFrom <= attested second < validUntil and 0 <= attested second - observedAt <= maxObservationAge |
| Report.ReportIsFaithful | packages/attestor-client/src/report.ts:187-225 | a report carries ten thousand times the price up to float noise, the earlier of observation and clock, the digest as given, and an id that decodes to the SKU and nothing else |
| Report.ReportBuildsExactly | packages/attestor-client/src/report.ts:187-225 | a report is built exactly when its age floor, epoch and SKU are valid and its price is some positive count of ten-thousandths |
| Attestor.PlanIsSound | apps/attestor/src/poller.ts:208-329 | whatever a candidate is, the report planned for it is honest and its flag matches its audit |
| Attestor.PlanExactly | apps/attestor/src/poller.ts:227-329 | a candidate is attested exactly when its gpu is watched, its price and digest make a report and its observation is within the floor, and only recorded exactly when it has no price or is too old |
| Attestor.DigestExactly | apps/attestor/src/poller.ts:356-365 | a digest is exactly 64 hexadecimal digits, bare or after 0x |
| Attestor.AuditExactly | apps/attestor/src/validate.ts:31-124 | which of the nine violations a candidate is accused of, with every quotient multiplied out and open breakers counted by contributor |
| Attestor.AdvanceCycleSound | apps/attestor/src/poller.ts:209-347 | one store call of a cycle keeps the tables sound |
| Attestor.NextSound | apps/attestor/src/poller.ts:117-156 | so does every machine step: tick, budget, settle, advance, throw, crash |
| Attestor.RunSound | apps/attestor/src/poller.ts:117-351 | and every run, which only ever appends rows |
| Attestor.AttestorSafety | apps/attestor/src/poller.ts:117-351 | under every interleaving: one report per (gpu, epoch), each honest and restating the ids, digest, observation and ten thousand times the price of a candidate some tick was handed, flagged exactly when that candidate's audit against the newest report of some moment found something, and explained by a violations row if so; every violations row holds such an audit |
| Attestor.StoredRowsPersist | packages/db/src/repos.ts:793-864 | a stored row is never changed or removed by what follows |
| Attestor.LatestIsHighest | packages/db/src/repos.ts:880-889 | the latest report is the gpu's highest epoch |
| Attestor.NewestEpochMonotone | packages/db/src/repos.ts:841-889 | the newest stored epoch of a gpu never goes back |
| Attestor.ReattestIsNoOp | packages/db/src/repos.ts:834-864 | attesting into a taken epoch changes nothing |
| Attestor.HandleAttests | apps/attestor/src/poller.ts:209-347 | handling a candidate leaves its gpu attested for the epoch exactly when it was already or the plan attests it |
| Attestor.Undisturbed | apps/attestor/src/poller.ts:209-347 | uninterrupted, the machine's steps do to the tables what the loop body does |
| Attestor.UndisturbedCycle | apps/attestor/src/poller.ts:158-350 | and over a whole queue they do what folding the loop body over the candidates does |
| Attestor.UnmovedPriceFlaggedExactly | apps/attestor/src/validate.ts:97-110 | an unmoved price is flagged as a jump exactly when the limit is below 0.9999 |
| Attestor.JumpFlaggedExactly | apps/attestor/src/validate.ts:97-110 | the flag fires exactly when the dollar price leaves a band around the scaled one |
| Attestor.UnmovedPriceExample | apps/attestor/src/poller.ts:220-226 | 2.50 USD is flagged against its own report at the 25% limit |
| Attestor.ReattestationFlagged | apps/attestor/src/poller.ts:220-226 | re-attesting an unmoved price carries a flag at any limit below 99.99% |
| Poller.ReportStore.ReportForEpoch | packages/db/src/repos.ts:866-878 | whether the (gpu, epoch) row exists |
| Poller.ReportStore.LatestReport | packages/db/src/repos.ts:880-889 | the gpu's row of highest epoch |
| Poller.ReportStore.RecordReport | packages/db/src/repos.ts:834-864 | first writer of (gpu, epoch) wins and the caller learns whether it was it |
| Poller.ReportStore.RecordViolations | packages/db/src/repos.ts:793-813 | first writer of a candidate's violations wins |
| Poller.AttestorPoller.BeginTick | apps/attestor/src/poller.ts:117-132 | the in-flight guard takes the protocol machine's tick step: a new cycle starts exactly when none is in flight |
| Poller.AttestorPoller.EndTick | apps/attestor/src/poller.ts:141-155 | ending the race takes the machine's budget step, and its settle step when the cycle in flight has worked off its queue |
| Poller.AttestorPoller.HandleCandidate | apps/attestor/src/poller.ts:209-347 | one candidate's effect on the tables and its counters |
| Poller.AttestorPoller.TickInner | apps/attestor/src/poller.ts:158-350 | the candidate loop is the fold of the per-candidate effects, a failing candidate costing only itself |
| Poller.AttestorPoller.Tick | apps/attestor/src/poller.ts:117-156 | an uninterrupted tick leaves store, guard and streak in a state the protocol machine reaches, with every candidate handled or, when busy, nothing touched |
| FiniteSums.TotalUpdate | apps/indexer/src/handlers/buckets.ts:93-147 | writing one row moves a table's sum by that row's change |
| PoolProjection.Indexer.BumpPoolHourBucket | apps/indexer/src/handlers/buckets.ts:126-147 | upsert: the zero row plus the delta, or the stored row plus the delta |
| PoolProjection.Indexer.BumpDailyBucket | apps/indexer/src/handlers/buckets.ts:93-124 | the same for a day's hook fees |
| PoolProjection.Indexer.BumpProtocolStats | apps/indexer/src/handlers/hook.ts:148-153 | the same for the protocol singleton |
| PoolProjection.Indexer.HandleSwap | apps/indexer/src/handlers/pool-manager.ts:93-186 | the swap handler, early return included |
| PoolProjection.Indexer.HandleGpuFill | apps/indexer/src/handlers/hook.ts:104-169 | the fill handler |
| PoolProjection.Indexer.HandlePoolRegistered | apps/indexer/src/handlers/hook.ts:32-102 | the registration handler; that the order it derives is the logged one is PoolLog.OrderIsRight |
| PoolProjection.Indexer.Process | apps/indexer/src/envio-compat.ts:133-174 | one event of the log; a thrown handler commits nothing |
| PoolProjection.BumpHourTotals | apps/indexer/src/handlers/buckets.ts:126-147 | a bucket delta adds to each column of its own pool's sum only |
| PoolProjection.TradeAgrees | apps/indexer/src/handlers/hook.ts:104-157 | writing one delta to pool, hour bucket and protocol totals keeps them in agreement |
| PoolProjection.BucketedSwapAgrees | apps/indexer/src/handlers/pool-manager.ts:93-186 | a swap with a core delta keeps the agreement |
| PoolProjection.CoveredSwapAgrees | apps/indexer/src/handlers/pool-manager.ts:110-158 | a 0/0 swap moves only swapCount |
| PoolProjection.FillAgrees | apps/indexer/src/handlers/hook.ts:104-157 | a hook fill keeps the agreement |
| PoolProjection.ProjectionsAgree | apps/indexer/src/handlers/pool-manager.ts:35-186 | after any log: each pool's volume, buys, sells and fees are the sums of its hour buckets, volume = buys + sells, unbucketed swaps are exactly the 0/0 ones, protocol fees are the sums over pools and days |
| PoolLog.OrderIsRight | apps/indexer/src/handlers/hook.ts:82-101 | once a pool was initialized with gUSD or its asset's token and then registered, its row says gUSD is first exactly when the log initialized it so |
| PoolLog.PoolMatchesLog | apps/indexer/src/handlers/pool-manager.ts:93-186 | after any accepted log a pool's bought, sold and total volume and fees are the gUSD paid in, paid out, both, and the fees of its logged swaps and fills, the gUSD side read from the logged first currency; each hour bucket holds the same over its own hour, with its buys and sells counted |
| PoolLog.BucketsAligned | apps/indexer/src/handlers/buckets.ts:93-147 | every stored bucket starts on its hour or day |
| PoolLog.CountsMatchLog | apps/indexer/src/handlers/hook.ts:104-169 | every logged swap is counted, each day holds its own fills' hook fees, each asset the fees since its creation |
| PerpProjection.PerpStore.BumpEngineStats | apps/indexer/src/handlers/perp.ts:602-617 | upsert of the engine row |
| PerpProjection.PerpStore.BumpWallet | apps/indexer/src/handlers/perp.ts:619-646 | upsert of a wallet's claimable row |
| PerpProjection.PerpStore.CreditPositionPnl | apps/indexer/src/handlers/perp.ts:648-677 | PnL credited to a position row, created if the open was not seen |
| PerpProjection.PerpStore.Process | apps/indexer/src/handlers/perp.ts:134-516 | one event of the log; a thrown handler commits nothing |
| PerpProjection.BalancesMatchLog | apps/indexer/src/handlers/perp.ts:467-516 | a wallet's balance is settled minus claimed, and both, with their counts, are the logged ones |
| PerpProjection.ClaimedMatchesWallets | apps/indexer/src/handlers/perp.ts:486-516 | the engine's claimed total is the sum over wallets |
| PerpProjection.PositionsMatchLog | apps/indexer/src/handlers/perp.ts:188-395 | a position's realized PnL is the sum of its logged non-increase executions and its counts are the logged events, whether or not the open was seen |
| PerpProjection.EntriesMatchLog | apps/indexer/src/handlers/perp.ts:271-371 | a stored entry price is that of the position's last logged increase, zero without one |
| PerpProjection.RowsMatchLog | apps/indexer/src/handlers/perp.ts:145-465 | a position has the size, collateral and earned funding its last logged event gave it, an order the status of its last one, and the engine counts every logged order and liquidation |
| PerpProjection.DelayStoredExactly | apps/indexer/src/handlers/perp.ts:134-141 | a delay is stored exactly when an earlier event had created the stats row |
| PerpProjection.DelayMatchesLog | apps/indexer/src/handlers/perp.ts:134-141 | over any log the stored delay is the last setting that another engine event preceded |
| PerpProjection.FirstDelayDropped | apps/indexer/src/handlers/perp.ts:134-141 | the first delay ever set is dropped |
| CostBasis.RunBalanced | apps/indexer/src/projections/cost-basis.ts:53-94 | over any run an undemoted wallet's PnL is counted proceeds minus the acquired cost no longer held |
| CostBasis.FlatIsExact | apps/indexer/src/projections/cost-basis.ts:53-94 | whenever it is flat its cost is zero and its PnL is exactly proceeds minus acquired cost |
| CostBasis.DemotedFrozen | apps/indexer/src/projections/cost-basis.ts:69-94 | after a demotion PnL never moves again |
| CostBasis.HoldingsMatchLog | apps/indexer/src/projections/cost-basis.ts:53-118 | a basis is partial exactly after a transfer, until then holds what the logged acquisitions and disposals leave, and counts both |
| CostBasis.ProRataWithinK | apps/indexer/src/projections/cost-basis.ts:69-87 | after k disposals the remaining cost exceeds exact pro rata by at least 0 and less than k units |
| CostBasis.VaultRunsAsBasis | apps/indexer/src/projections/cost-basis.ts:119-160 | an undemoted vault runs exactly as a GPU basis does |
| CostBasis.FlatVaultIsExact | apps/indexer/src/projections/cost-basis.ts:119-160 | so a flat vault wallet too realized exactly proceeds minus cost |
| FrameStream.ReadFrames | apps/keeper/src/stream.ts:56-72 | however the text is cut into chunks, the payloads are those of the leftmost split of the whole text, and the buffer never keeps a blank line |
| FrameStream.SplitIsUnique | apps/keeper/src/stream.ts:63-66 | frames and leftover are the one split whose frames are closed and whose rest has no blank line |
| FrameStream.FramesOfMore | apps/keeper/src/stream.ts:61-66 | more text continues where the leftover stopped |
| FrameStream.WireReadsBack | apps/web/scripts/mock-oracle.mjs:279-298 | the frames the server writes read back: every candidate once, in order, nothing left over |
| FrameStream.CutConnectionDeliversPrefix | apps/keeper/src/stream.ts:56-72 | a connection cut anywhere has delivered a prefix of the candidates |
| GpuLabel.PassesReachNormal | packages/gpu-catalog/src/normalize.ts:37-52 | the passes end in single-spaced runs of letters and digits and keep the token list |
| GpuLabel.ClassesExactly | packages/gpu-catalog/src/normalize.ts:37-52 | the letters, digits and upper-casing the passes work on, written out |
| GpuLabel.NormalizePrintsTokens | packages/gpu-catalog/src/normalize.ts:37-52 | normalized text is the joined token list, so normalizing is idempotent |
| GpuLabel.SameTextIffSameTokens | packages/gpu-catalog/src/normalize.ts:9-12 | labels normalize alike exactly when their tokens are equal |
| GpuLabel.DirectIffInfix | packages/gpu-catalog/src/normalize.ts:65-72 | the guarded direct test holds exactly when the pattern's tokens occur whole and in a row |
| GpuLabel.CompactIffFlatEqual | packages/gpu-catalog/src/normalize.ts:65-72 | the compact test holds exactly when the space-free texts are equal |
| GpuLabel.EmptyPatternMatches | packages/gpu-catalog/src/normalize.ts:65-72 | a pattern with no letter or digit matches only a label with none |
| GpuLabel.TextMatchIsTokenMatch | packages/gpu-catalog/src/normalize.ts:86-90 | the two regular-expression tests together hold exactly when the tokens occur in a row or the space-free texts agree |
| GpuNormalization.VramIsTokens | packages/gpu-catalog/src/normalize.ts:42-101 | the figure the VRAM expression captures is the first number of two or more digits before GB, or G then B, in the token list, cut to its last four digits |
| GpuNormalization.NormalizeGpuLabel | packages/gpu-catalog/src/normalize.ts:82-114 | normalized label, id, pattern and reject reason: unmapped exactly when no entry's tokens match; otherwise the first match in file order, rejected exactly when the label's own VRAM figure deviates by over a quarter |
| BasisJoin.BuildBasisPoints | apps/web/src/components/charts/basis-chart.tsx:73-88 | the walk's output on any input, Index values of zero and below included, equal to the brute-force join on ascending series, in at most one pass over the Index |
| BasisJoin.WalkIsJoin | apps/web/src/components/charts/basis-chart.tsx:68-88 | the walk pairs each candle with the earliest Index point at minimum distance and keeps exactly those within the hour |
| BasisJoin.JoinedExactly | apps/web/src/components/charts/basis-chart.tsx:68-88 | a point stands in the join exactly for the candles whose nearest Index point is at most an hour away, the earlier on a tie |
| BasisJoin.PremiumExactly | apps/web/src/components/charts/basis-chart.tsx:84-86 | the premium is the percentage by which the value must grow to be the close, positive over a positive value exactly when the close is above it |
| BasisJoin.NearestExactlyWhenStrict | apps/web/src/components/charts/basis-chart.tsx:70-83 | the walk finds the nearest point for every candle list exactly when Index stamps are strict up to a final run |

## Left out

- Weights.CapWeights: `Number.EPSILON` and the 1e-9 guard are parameters, because IEEE-754 rounding is not modelled; prices and weights are exact reals throughout.
- Poller.AttestorPoller.Tick: one uninterrupted tick; interleaved and abandoned cycles are runs of the value-level machine of `Attestor`, which the object mirrors at the start and end of a tick, because two live cycles of one heap object are not expressible as one call.
- FrameStream.ReadFrames: takes already decoded text, and yields the payload handed to the candidate parser; byte decoding, `JSON.parse`, WebSocket hand-over and reconnection are not modelled.
- GpuNormalization.NormalizeGpuLabel: covers ASCII letters, digits, separators and whitespace; Unicode dashes and case mapping and the catalogue's own entries are not modelled.
- BasisJoin.BuildBasisPoints: an Index value of negative zero, whose infinities have the other sign, is not distinguished from zero.
- CostBasis.VaultRunsAsBasis: excludes the share count of a demoted wallet, which the vault keeps lowering and the GPU basis does not.
- Publication.FnvUnit: takes the seed text as given; its decimal formatting of slot and price is not modelled.
- CanonicalJson.SameTextIffSameData: arrays have no holes and values no cycles; sha256 over the text is not modelled.
- Engine.ComputeIndex: ids, windows, version and timestamp are passed through by the source and left out here, as is the receipt text printed from the result.
- Engine: `effectiveConfigFor` and the methodology validator's range checks appear as preconditions on an already merged configuration; exclusion detail texts and receipts' parameter records are not modelled.
- Signatures, keccak and sha256 digests, typed-data domains and the hex form of 32-byte ids are opaque values.
- Timers, health reporting, logging, RPC, the publication adapter and the database's SQL are not modelled; tables keep only insert-if-absent by unique key and newest-by-epoch reads.
- Indexer handlers outside the fold of volumes and fees (ModifyLiquidity, Donate, HookSwap, HookFeeBpsSet, market parameters, order and funding rows) and the preload overlay's dry run are not modelled.
- Open notional is an input of the funding lemmas, since the indexer only ever writes zero for it; the Solidity engine is not part of this model.
- Web components, formatters, authentication, environment parsing and deployment configuration are not modelled.
