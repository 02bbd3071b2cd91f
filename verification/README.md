# Verified model of the gas oracle, the Unchained Index reader and the transaction tracker

A Dafny model of four parts of the repository and proofs of what they promise.

- **Gas oracle.** The block ring and its reorg repair (`Ring`, `GapBridge`, `RingInvariant`), the fee
  arithmetic (`BlobFee`, `Decay`, `Quantile`, `Headroom`, `BlobHeadroom`, `Tiers`), the oracle object over whole runs
  (`Oracle`), and the queries on a published state (`BlockPosition`, `ClassifyTip`, `Replacement`).
- **Unchained Index reader.** Byte formats (`Bytes`, `Bloom`, `Chunk`), the concurrent query
  (`Reader`) and the fetch layer (`Fetcher`).
- **Transaction tracker.** Per-record decisions (`Observations`), their outcomes field by field (`Outcomes`), laws of
  whole event streams (`ObservationRuns`), what a confirmation count means (`Confirmations`), the mempool snapshot (`Mempool`), the
  reorg ring (`Reorg`), and all joined in the tracker (`Tracker`), whose block path is split where the source may wait.
- **Stores.** The bigint-preserving JSON codec (`Json`), key layout (`StoreKeys`), the in-memory store
  (`Store`) and the localStorage store (`LocalStorageStore`).

`Wrappers`, `Sequences`, `Arithmetic`, `Samples` and `Text` hold what the others share.
`dafny verify dfyconfig.toml` checks everything.

## How to read it

Objects and loops of the source are classes and methods here; each is proved equal to a specification
function or predicate, and the lemmas below are about those. Lemmas whose names end in `Spelled`, and those of
`Outcomes`, state an operation's whole result from its inputs alone, without the specification's own pieces.
Three modelling choices recur:

- **Sorting.** The source's comparators leave ties open, so a sort is any ordered permutation
  (`Sequences.OrderedPermutation`), and every result is proved for all of them.
- **The network.** Block lookups, file replies and snapshots are parameters. They may fail at will;
  what a lemma assumes about honest ones is in its `requires`.
- **Concurrency.** The reader's chunks are small state machines, and a schedule says which reply
  arrives next. A tracker block arrives and is decided on in two steps that may interleave. An oracle poll
  (bridge, then reduce) is one atomic call.

Fee arithmetic is exact, on unbounded integers as in the source; reals occur only in statements about
rounding. `>>> 1` in the binary search is modelled with its 32-bit reduction.

## Where the code and its own words differ

The model follows the code, and these lemmas say exactly where the line runs.

- `RingInvariant.StepLinkedIff`: the ring can hold a link that does not exist, when a walk by hash stops
  early inside the ring; `BrokenSpliceHappens` is such a step. It never happens while the new block's own
  branch can be walked (`StepKeepsLinked`).
- `Headroom.TrendThresholdIsEleven`: the percentage is truncated before it is compared, so the documented
  10% trend threshold is 11%.
- `Headroom.AlwaysCoveredIff`: the published buffer holds for every number of blocks only from a base fee of
  8 wei up, or 6 in a rising market; `CoveredIff` decides a single number of blocks. By `TameIsExact` a block
  must not use more than twice its target, which an exactly full one with an odd gas limit does.
- `Replacement.OutpaceBeatsAllIff`: the outpace floor beats every sample ahead only if they all carry the
  tip of the sample directly ahead; `OutpaceMissesTheTop` is a case where they do not.
- `Replacement.RecommendationLandsIff`: the faster strategies can replace a tier that lands by one that does
  not, exactly when `slow` is priced more than a wei above the tier they go to; `PublishedStateFallsShort` is
  such a published state.
- `Tiers.SlowBelowStandardIff`, `Oracle.SlowBelowStandardInRunsIff`: `slow` is held to its place on the ladder
  if and only if the model is flat.
- `StoreKeys.CleanupSparesIff`: cleaning up an old prefix can delete live entries: when the current prefix
  extends it at a colon, or when it extends the current one the way a live key does, as `app:1` extends `app`.
- `RingInvariant.StepForgetsNoAncestor`: a step forgets an ancestor within the window when the by-number answers
  mix two branches; `MixedBridgeHappens` is such a step.
- `Confirmations.CountIsDepthIff`: a confirmation count is the depth of the block only while each head is one above
  the last. The tracker's own guide advises waiting for six confirmations, which are heads and not depth.
- `Tracker.InclusionCurrentIff`: the stale-block guard does not stop a decision that waited for receipts from
  counting a transaction in a block the ring has replaced; `InterleavingBreaksInclusion` is such a run.
- `ObservationRuns.TerminalMeansEventIff`: a record stored with another transaction as its replacement and no
  terminal anchor can turn terminal without an event.
- `Fetcher.NonPositiveLimitStrands`: a concurrency limit of zero or less starts nothing.

## Model

| member | source | states |
|---|---|---|
| Ring.IncorporateBlock | packages/gas-oracle/src/ring.ts:106-192 | the block lands as append, duplicate, reorg trim or restart, with the dropped hashes of each reorg, as the transition the ring lemmas reason about |
| Ring.FindMatch | packages/gas-oracle/src/ring.ts:115-122 | the scan stops at the newest entry whose number is not above the new one |
| Ring.LastAtOrBelow | packages/gas-oracle/src/ring.ts:115-122 | the entry found is at or below the number and everything after it is above; -1 when all are above |
| Ring.CapTail | packages/gas-oracle/src/ring.ts:203-211 | the newest entries up to the window survive, in place; a window of zero or less caps nothing |
| Ring.IncorporateSpelled | packages/gas-oracle/src/ring.ts:115-191 | given the newest entry at or below the block, every arm entry by entry: what is kept, how many, which hashes the event names, and when it is a duplicate or a restart |
| GapBridge.BridgeGap | packages/gas-oracle/src/oracle.ts:543-609 | by-number bridge kept only if it joins at both ends, otherwise the walk by hash, oldest first |
| GapBridge.FetchRange | packages/gas-oracle/src/oracle.ts:564-569 | the by-number list answers consecutive heights and stops at the first failed fetch |
| GapBridge.FetchByNumber | packages/gas-oracle/src/oracle.ts:564-569 | the loop collects exactly that list |
| GapBridge.WalkBack | packages/gas-oracle/src/oracle.ts:595-608 | the walk stops at a known parent, a missing parent, a failed lookup or the window budget |
| GapBridge.FoldBlocks | packages/gas-oracle/src/oracle.ts:290-301 | pre-fetched blocks, then the new block, go into the ring one by one; the latest reorg is kept |
| GapBridge.BridgeSpelled | packages/gas-oracle/src/oracle.ts:543-609 | what is fetched for a block, from the lookups alone: nothing without history or with a known parent, every height in between if all answer and both ends join, otherwise the chain of parents down to where it has to stop |
| RingInvariant.FoldExact | packages/gas-oracle/src/ring.ts:135-191 | folding a linked branch that is new to the ring keeps the entries below it, puts it on top, caps, and reports one reorg naming every replaced entry |
| RingInvariant.WalkHasShape | packages/gas-oracle/src/oracle.ts:595-607 | consecutive walked blocks are child and parent, none but the last has a parent in the ring, and a walk ends for one of its four reasons |
| RingInvariant.WalkedIncoming | packages/gas-oracle/src/oracle.ts:588-609 | what the walk brings is a linked branch ending in the new block that reaches the ring, uses up its budget or hits a failed lookup |
| RingInvariant.NumberedIncoming | packages/gas-oracle/src/oracle.ts:563-582 | a by-number bridge fills every height from the tip to the new block and starts at a block the ring holds |
| RingInvariant.FoldConsecutive | packages/gas-oracle/src/ring.ts:160-191 | consecutive heights above the tip append or restart, so no link is ever broken, even when the by-number answers are of different branches |
| RingInvariant.StepLinkedIff | packages/gas-oracle/src/oracle.ts:506-609 | for every pattern of failed lookups the ring is capped, real and ends in the new block (or is unchanged if that was recorded); it stays one branch if and only if the step is not a broken splice |
| RingInvariant.BrokenSpliceHappens | packages/gas-oracle/src/ring.ts:135-156 | a concrete step on a valid ring, with honest but incomplete lookups, that leaves a link that does not exist |
| RingInvariant.StepKeepsLinked | packages/gas-oracle/src/oracle.ts:543-609 | if the new block's own branch can be walked by hash, as far back as the walk goes, every step keeps one gap-free branch, whatever the depth of the reorg |
| RingInvariant.RunKeepsOneBranch | packages/gas-oracle/src/oracle.ts:506-609 | over every run from an empty ring, each poll serving only the branch of its own block, the ring is one gap-free branch within the window and holds the block just polled |
| RingInvariant.GrowingChainIsHonest | packages/gas-oracle/src/oracle.ts:595-607 | polls of a growing chain that know nothing mined later meet those hypotheses, at every height |
| RingInvariant.StepForgetsNoAncestor | packages/gas-oracle/src/oracle.ts:543-609 | an old entry on the new block's branch less than a window below it survives the step if and only if what the step offers the ring is one branch; only a by-number bridge can offer anything else |
| RingInvariant.MixedBridgeHappens | packages/gas-oracle/src/oracle.ts:563-582 | a concrete step, all hypotheses met, whose by-number answers come from two branches: an ancestor well within the window is forgotten |
| BlobFee.ComputeBlobBaseFee | packages/gas-oracle/src/math.ts:388-400 | terminates for every excess and returns the EIP-4844 sum of terms up to a vanishing one, over the fraction, the zero shortcut included |
| BlobFee.FakeExponentialUnique | packages/gas-oracle/src/math.ts:394-399 | the sum does not depend on where the loop notices that terms vanish |
| BlobFee.FeeMonotone | packages/gas-oracle/src/math.ts:388-400 | more excess never lowers the fee |
| BlobFee.FeeAboveTangent | packages/gas-oracle/src/math.ts:388-400 | the fee is at least 1 + excess / 3338477 |
| BlobFee.FeeBelowTaylor | packages/gas-oracle/src/math.ts:388-400 | the fee never exceeds the exact Taylor sum it approximates |
| BlobFee.FeeSpelled | packages/gas-oracle/src/math.ts:388-400 | a fee comes with its list of terms: the first is 3338477, each is the one before times the excess over 3338477 times its place, rounded down, the last is zero, and the fee is their sum over 3338477, rounded down |
| Decay.CappedTip | packages/gas-oracle/src/math.ts:126-148 | for any cap, in or out of 0..WAD: no cap and no history pass the tip through, an earlier or equal block holds the anchor, a later one floors the tip at the decayed anchor |
| Decay.CappedAtRest | packages/gas-oracle/src/math.ts:133-140 | without a cap or history the tip passes, and at or below the anchor's block it is the larger of tip and anchor |
| Decay.CappedSpelled | packages/gas-oracle/src/math.ts:141-147 | further up, the factor block by block from one WAD, each truncated, and the larger of the tip and the anchor times the last factor |
| Decay.CappedMonotone | packages/gas-oracle/src/math.ts:126-148 | a larger raw tip or anchor never lowers the published tip, whatever the cap |
| Decay.FactorBounds | packages/gas-oracle/src/math.ts:142-145 | the floored factor is at most the exact power and trails it by at most one unit a block after the first |
| Decay.DecayedBounds | packages/gas-oracle/src/math.ts:141-147 | one poll over n blocks loses at most 1 + (n-1) * anchor / WAD to rounding and never exceeds the exact decay |
| Decay.CadenceBounds | packages/gas-oracle/src/math.ts:126-148 | for any polling cadence over k blocks with m polls, the floor is within m + (k-m) * anchor / WAD of the exact decay, from below |
| Decay.PublishedAboveDecay | packages/gas-oracle/src/math.ts:126-148 | no sequence of raw tips and no cadence, polls of the same or a lower head included, publishes below that bound, counted over the polls that moved forward |
| Decay.QuietMarketBounds | packages/gas-oracle/src/math.ts:126-148 | polls that read raw tip zero publish exactly the value bounded above, so both bounds hold of the published tip |
| Quantile.GasWeightedPercentiles | packages/gas-oracle/src/math.ts:185-222 | one answer per requested percentile: the least sample tip whose at-or-below gas reaches the target; zero without gas |
| Quantile.WalkTo | packages/gas-oracle/src/math.ts:210-218 | the walk over any tip-ordered list stops at that tip, or at the largest one past the end |
| Quantile.WalkFindsQuantile | packages/gas-oracle/src/math.ts:210-218 | where the running gas first reaches the target, the tip is the order-free quantile |
| Quantile.PercentileOrderFree | packages/gas-oracle/src/math.ts:185-222 | every rearrangement of the samples has the same percentiles |
| Quantile.PercentileUnique | packages/gas-oracle/src/math.ts:185-222 | there is only one answer, so ties cannot show |
| Quantile.PercentileMonotone | packages/gas-oracle/src/math.ts:209-219 | a higher percentile never reads a lower tip |
| Quantile.PercentileSpelled | packages/gas-oracle/src/math.ts:201-219 | the answer is a sample's tip; the gas at or below it reaches the percentage of the total, and at or below any lower tip it does not |
| Headroom.TrendThresholdIsEleven | packages/gas-oracle/src/math.ts:97-106 | rising and falling are moves of at least 11%, exactly, because the percentage is truncated first |
| Headroom.TrendWithoutBase | packages/gas-oracle/src/math.ts:97-101 | fewer than two values are stable, and from zero any value above zero is a rise |
| Headroom.BaseFeeBufferMultiplier | packages/gas-oracle/src/math.ts:246-263 | (9/8)^N, times 10/9 when rising, one when falling; no eighth for a liveness of zero or less |
| Headroom.BufferedSpelled | packages/gas-oracle/src/math.ts:322-331 | a buffered fee is the fee times (9/8)^N, times 10/9 when rising, rounded down, and the fee itself when falling |
| Headroom.RuleSpelled | packages/gas-oracle/src/math.ts:230-231 | the base-fee rule the buffer is held against: the change is the fee times the distance from the target over eight targets, rounded down, and at least one wei up |
| Headroom.RiseBounded | packages/gas-oracle/src/math.ts:230-231 | a block that uses at most twice its target adds at most an eighth, or one wei below 8 |
| Headroom.WorstIsWorst | packages/gas-oracle/src/math.ts:230-240 | no blocks do worse than the same number of full ones, dips and recoveries included |
| Headroom.CoveredIff | packages/gas-oracle/src/math.ts:246-263 | N blocks of any usage are covered if and only if N full blocks are |
| Headroom.TrajectoryBounded | packages/gas-oracle/src/math.ts:230-240 | from 8 wei up n blocks never outrun (9/8)^n, dips below 8 wei and recoveries included |
| Headroom.HeadroomHolds | packages/gas-oracle/src/math.ts:320-326 | for a rising or stable trend, from 6 or 8 wei up, the buffered base fee covers every base fee reachable in up to N blocks, for every gas usage |
| Headroom.AlwaysCoveredIff | packages/gas-oracle/src/math.ts:246-263 | the buffer covers every number of blocks if and only if the trend is not falling and the base fee is at least 8 wei, or 6 when rising |
| Headroom.TameIsExact | packages/gas-oracle/src/math.ts:246-263 | a block stays within an eighth for every base fee from 8 wei up if and only if it uses at most twice its target |
| Headroom.EightWeiIsExact | packages/gas-oracle/src/math.ts:246-263 | for even limits one stable block ahead is covered for all usages if and only if the base fee is at least 8 wei |
| Headroom.EvenLimitIsExact | packages/gas-oracle/src/math.ts:246-263 | from 8 wei up one stable block is covered for all base fees and usages if and only if the limit is even |
| Tiers.ComputeTiers | packages/gas-oracle/src/math.ts:304-378 | every tier is the capped percentile of the distribution its model gives it, with buffered fee cap, gas price and blob fee |
| Tiers.FeesSpelled | packages/gas-oracle/src/math.ts:320-374 | of every tier: gas price is base fee plus tip, fee cap minus tip is the base fee times (9/8)^N and the trend factor, rounded down, blob fee the same or none; N is one if left out and zero if negative |
| Tiers.TipsSpelled | packages/gas-oracle/src/math.ts:334-368 | the tips are the 10th, 50th, 75th and 90th percentiles, capped from the same tier's last tip; slow reads every sample, the others those of type 2 and above, or all in the flat model; the cap is an eighth if left out |
| Tiers.TiersKeepOrder | packages/gas-oracle/src/math.ts:340-375 | ordered anchors give ordered tips: standard <= fast <= instant, and slow <= standard in the flat model |
| Tiers.FeesFollowTips | packages/gas-oracle/src/math.ts:369-374 | all three fees of two tiers compare as their tips do |
| Tiers.PublishedCapHolds | packages/gas-oracle/src/math.ts:320-374 | the published fee cap of every tier covers its tip on top of every base fee reachable within the liveness window |
| BlobHeadroom.ExcessBounded | packages/gas-oracle/src/math.ts:328-332 | under the EIP-4844 update rule N blocks add at most N times the blob target to the excess |
| BlobHeadroom.BlobCoveredIff | packages/gas-oracle/src/math.ts:328-332 | the buffered blob fee covers N blocks of any blobs if and only if it covers N full ones |
| BlobHeadroom.PublishedBlobCapIff | packages/gas-oracle/src/math.ts:369-374 | so does the published `maxFeePerBlobGas` of every tier |
| BlobHeadroom.OneWeiIsNotCovered | packages/gas-oracle/src/math.ts:328-332 | at one wei a stable buffer of one block misses the next blob fee |
| Tiers.SlowMayExceedStandard | packages/gas-oracle/src/math.ts:358-360 | in the eip1559 model, under every cap, liveness, base fee, trend and blob, one pair of samples publishes slow above standard, whatever the sort did |
| Tiers.SlowBelowStandardIff | packages/gas-oracle/src/math.ts:357-375 | without an anchor slow stays at or below standard for all samples if and only if the model is flat |
| Oracle.CreateGasOracle | packages/gas-oracle/src/oracle.ts:402-446 | options are refused for naming both or neither upstream, then for a cap outside [0, WAD], then for a liveness that is no positive integer; accepted ones are used as given |
| Oracle.ReducePollInputs | packages/gas-oracle/src/oracle.ts:248-374 | the next state is made of the folded ring, its trend, the blob fee and the tiers anchored on the previous poll, for any cap and liveness |
| Oracle.PollTips | packages/gas-oracle/src/oracle.ts:302-356 | every reduction has one distribution, the samples of every block of the ring and the mempool as often as they occur, and its tips are that distribution's percentiles |
| Oracle.PollFees | packages/gas-oracle/src/oracle.ts:272-373 | ring, block, base fee, the trend over the last five base fees, the blob fee of the excess with the trend since the last poll, and every fee of every tier, each from the inputs |
| Oracle.RunPublishes | packages/gas-oracle/src/oracle.ts:248-374 | all of that holds at every poll of every run, each anchored on the poll before |
| Oracle.GasOracle.constructor | packages/gas-oracle/src/oracle.ts:402-446 | a fresh oracle has no state |
| Oracle.GasOracle.HandleBlock | packages/gas-oracle/src/oracle.ts:615-625 | one poll publishes the reduction over the bridged blocks, keeps ladder order and window, and keeps the ring one branch on an honest chain |
| Oracle.GasOracle.PollOnce | packages/gas-oracle/src/oracle.ts:758-778 | without a latest block nothing changes, otherwise a poll as above, the ring clause included |
| Oracle.GasOracle.Stop | packages/gas-oracle/src/oracle.ts:741-751 | forgets the state, and with it the ring and the decay anchor |
| Oracle.ReduceIsStep | packages/gas-oracle/src/oracle.ts:290-301 | the ring a poll publishes is the step that the ring theorems are about |
| Oracle.ReduceKeepsLadder | packages/gas-oracle/src/oracle.ts:344-373 | one poll keeps the ladder in order |
| Oracle.ReduceKeepsCap | packages/gas-oracle/src/oracle.ts:290-301 | one poll keeps the ring within the window |
| Oracle.RunKeepsLadder | packages/gas-oracle/src/oracle.ts:344-373 | at every poll of every run tips, fee caps and gas prices are ordered along the ladder |
| Oracle.SlowBelowStandardInRunsIff | packages/gas-oracle/src/oracle.ts:344-373 | under a configuration slow stays at or below standard at every poll of every run if and only if its model is flat |
| BlockPosition.TipForBlockPosition | packages/gas-oracle/src/block-position.ts:140-208 | the answer is read off some tip-descending arrangement, for all five query kinds and the positions off either end |
| BlockPosition.IndexAtGasOffset | packages/gas-oracle/src/block-position.ts:104-113 | the index whose cumulative gas first passes the target, -1 when none does, 0 for no gas |
| BlockPosition.SumGasUpTo | packages/gas-oracle/src/block-position.ts:115-121 | gas of the samples before an index, clamped to the list |
| BlockPosition.FirstMatch | packages/gas-oracle/src/block-position.ts:178-179 | the first sample that goes by the identifier, -1 when none does |
| BlockPosition.RankExact | packages/gas-oracle/src/block-position.ts:152-156 | a tip leaves at most k samples at or above it if and only if it is at least the required tip, for any rank and any ties |
| BlockPosition.GasExact | packages/gas-oracle/src/block-position.ts:171-175 | for a positive budget the samples not outbid fit in it if and only if the tip is at least the required one; reported gas <= query < reported gas + pivot gas |
| BlockPosition.PercentileIsRank | packages/gas-oracle/src/block-position.ts:157-170 | a percentile query is the rank query that many hundredths down, never past the last sample |
| BlockPosition.AheadOutbids | packages/gas-oracle/src/block-position.ts:176-182 | the answer outbids every sample that goes by the identifier; no pivot exactly when there is none |
| BlockPosition.BehindUndercuts | packages/gas-oracle/src/block-position.ts:195-200 | one wei below the dearest sample that goes by the identifier, unless that pays nothing already; no pivot exactly when there is none |
| BlockPosition.IdentifierSpelled | packages/gas-oracle/src/block-position.ts:86-96 | a sample goes by a hash up to letter case, or by a sender up to letter case and the decimal nonce |
| BlockPosition.PositionSpelled | packages/gas-oracle/src/block-position.ts:140-208 | every field for every query: zeros without samples, the whole block without a pivot, otherwise the pivot outbid (or undercut) by one wei behind as many samples and as much gas as reported, all dearer ones among them |
| BlockPosition.PivotSpelled | packages/gas-oracle/src/block-position.ts:152-175 | a rank has a pivot exactly inside the block; no gas or a percentage of zero or less asks for the top |
| ClassifyTip.Classify | packages/gas-oracle/src/classify-tip.ts:66-95 | rank, gas and percentile are those of the samples strictly above the tip, whatever the sort did with ties |
| ClassifyTip.TierForTip | packages/gas-oracle/src/classify-tip.ts:40-49 | the highest rung whose floor the tip clears, none when it clears none |
| ClassifyTip.TierIsABand | packages/gas-oracle/src/classify-tip.ts:51-59 | the tip lies between the floor of its tier and the floor of the next, which is missing exactly at instant |
| ClassifyTip.PercentileInRange | packages/gas-oracle/src/classify-tip.ts:87-89 | the rounded percentile lies in 0..100 |
| ClassifyTip.PositionThenClassify | packages/gas-oracle/src/classify-tip.ts:78-85 | classifying the tip required for rank k gives rank k or better |
| ClassifyTip.ClassifyThenPosition | packages/gas-oracle/src/classify-tip.ts:78-85 | the tip required for the rank of a tip is at most one wei above that tip |
| ClassifyTip.GasPositionThenClassify | packages/gas-oracle/src/classify-tip.ts:91-92 | classifying the tip required for a positive gas budget stays within the budget |
| ClassifyTip.ClassificationSpelled | packages/gas-oracle/src/classify-tip.ts:40-95 | the distribution is that of the ring and the mempool; rank and gas are those of its part above the tip, the percentage is rounded to the nearest, the tier is the highest one reached and the next price the next tier's |
| Replacement.MinimumReplacementFee | packages/gas-oracle/src/replacement.ts:37-46 | a replacement fee is strictly above the current one, also where the percentage floors to nothing |
| Replacement.MinimumIsExact | packages/gas-oracle/src/replacement.ts:37-46 | a fee reaches the minimum if and only if it is strictly above 110% (blob: 200%) of the current one |
| Replacement.MinimumSpelled | packages/gas-oracle/src/replacement.ts:37-46 | the least fee above double the current one for type 3, above 110% of it for every other type |
| Replacement.BumpIsLeastAcceptable | packages/gas-oracle/src/replacement.ts:62-82 | the pair is well formed, above 110% of both fees, at or above the target, and the cheapest such pair |
| Replacement.OutpaceFloor | packages/gas-oracle/src/replacement.ts:124-140 | nothing when nobody is ahead, otherwise the least tip that outbids the sample directly ahead |
| Replacement.RecommendBumpTier | packages/gas-oracle/src/replacement.ts:114-153 | the strategy's tier, counted from the first rung above both floors; none when no rung is |
| Replacement.RecommendationSpelled | packages/gas-oracle/src/replacement.ts:141-152 | on any ladder and for every strategy, which tier is picked, depending on the first rung that clears both floors |
| Replacement.RecommendationClearsFloors | packages/gas-oracle/src/replacement.ts:114-153 | on a monotone ladder every strategy pays above 110% and leaves strictly fewer samples at or above than were ahead; no tier is picked only when none clears the floor |
| Replacement.OutpaceBeatsAllIff | packages/gas-oracle/src/replacement.ts:132-138 | the floor beats everyone in the distribution if and only if the top sample ties with the one directly ahead |
| Replacement.OutpaceMissesTheTop | packages/gas-oracle/src/replacement.ts:101-108 | a case where a sample ahead keeps outbidding the floor |
| Replacement.FasterMayFallShort | packages/gas-oracle/src/replacement.ts:143-152 | wherever the step up from slow goes down by more than a wei, a stuck transaction for which slow lands and the recommended tier does not |
| Replacement.ClearsFloorsIff | packages/gas-oracle/src/replacement.ts:143-152 | on a published ladder a strategy clears every floor some rung clears if and only if its step up from slow does not go down |
| Replacement.RecommendationLandsIff | packages/gas-oracle/src/replacement.ts:114-153 | on a published ladder every recommendation of a strategy is accepted and moves the transaction up, for all mempools and tips, if and only if its step up from slow goes down by at most a wei |
| Replacement.PublishedStateFallsShort | packages/gas-oracle/src/replacement.ts:143-152 | outside the flat model one block publishes a state on which both faster strategies replace a tier that lands by one that does not |
| Bloom.ParseBloom | packages/unchained-reader/src/bloom.ts:41-54 | succeeds exactly for a long enough header with the magic; only the count is read |
| Bloom.HeaderSpelled | packages/unchained-reader/src/bloom.ts:41-54 | the two errors and their order, the magic bytes, and the count at byte 34 |
| Bytes.BigEndianRead | packages/unchained-reader/src/bloom.ts:62-67 | a word read high byte first is the big-endian value of its four bytes |
| Bytes.LittleEndianRead | packages/unchained-reader/src/chunk.ts:48-58 | a number stored low byte first is read back |
| Bloom.AddressToBits | packages/unchained-reader/src/bloom.ts:61-69 | five big-endian words modulo the width |
| Bloom.MightContain | packages/unchained-reader/src/bloom.ts:85-96 | true exactly when some sub-filter has all five bits set, reading reversed bytes and nothing past the end |
| Bloom.CoversSpelled | packages/unchained-reader/src/bloom.ts:61-96 | from the bytes alone: sub-filters of 131072 bytes start at 42, one every 131076; each is one big-endian number that must have the five bits, which are the low twenty bits of the address's words |
| Bloom.TruncationOnlyHides | packages/unchained-reader/src/bloom.ts:72-78 | cutting a file short never adds a match |
| Chunk.ParseChunkHeader | packages/unchained-reader/src/chunk.ts:44-59 | succeeds exactly for a long enough file with the magic, and reads both counts |
| Chunk.HeaderSpelled | packages/unchained-reader/src/chunk.ts:44-59 | the two errors and their order, the magic bytes, and the counts at bytes 36 and 40 |
| Chunk.CompareAddressAt | packages/unchained-reader/src/chunk.ts:62-68 | first difference of the bytes, not a number past the end of the file |
| Chunk.CompareIsOrder | packages/unchained-reader/src/chunk.ts:62-68 | its sign is the numeric order of the two addresses |
| Chunk.MidInside | packages/unchained-reader/src/chunk.ts:82-95 | in every search on any file the midpoint stays between the bounds, despite the 32-bit shift |
| Chunk.AppearancesOf | packages/unchained-reader/src/chunk.ts:76-111 | the loop is the recursive search and slice read, on any file, its errors included |
| Chunk.ProbeComplete | packages/unchained-reader/src/chunk.ts:81-96 | in a strictly ascending table the search finds the address if it is there |
| Chunk.ProbeSound | packages/unchained-reader/src/chunk.ts:81-96 | what the search finds has the address, on any file |
| Chunk.SearchIsScan | packages/unchained-reader/src/chunk.ts:76-111 | on a well-formed file the answer is that of reading every record |
| Chunk.ScanSpelled | packages/unchained-reader/src/chunk.ts:76-111 | the reference scan from the bytes alone: a record's address at 44 + 28 i, its slice's offset and length after it, and every appearance of the slice |
| Chunk.ScanSpelledEmpty | packages/unchained-reader/src/chunk.ts:96-96 | an address no record carries has no appearances |
| Chunk.WellFormedSpelled | packages/unchained-reader/src/chunk.ts:9-21 | what a well-formed file is, from the bytes alone |
| Chunk.ListsSpelled | packages/unchained-reader/src/chunk.ts:14-17 | when a well-formed file lists an address, from the bytes alone |
| Reader.QueryRun.constructor | packages/unchained-reader/src/reader.ts:120-135 | a query starts with every chunk in scope awaiting its bloom file |
| Reader.QueryRun.BloomArrives | packages/unchained-reader/src/reader.ts:141-155 | parse, count, test, and ask for the index on a hit; a fault is one failure entry |
| Reader.QueryRun.IndexArrives | packages/unchained-reader/src/reader.ts:158-175 | count, search, keep what is in range; a fault is one failure entry |
| Reader.QueryRun.PushFailure | packages/unchained-reader/src/reader.ts:148-151 | the entry names the chunk and the file that failed, and the chunk is finished |
| Reader.StepAccounts | packages/unchained-reader/src/reader.ts:139-176 | every arrival, in any order, keeps counters, failures and appearances equal to the sum of the chunks' shares |
| Reader.ScheduleDoesNotMatter | packages/unchained-reader/src/reader.ts:178-181 | any two complete interleavings give the same sorted list, failures and counters |
| Reader.CountersBalance | packages/unchained-reader/src/reader.ts:124-181 | every chunk ends bloom-negative, decoded or with one failure; total = blooms + bloom failures, hits = chunks + index failures, found = length |
| Reader.FaultsSubtractExactly | packages/unchained-reader/src/reader.ts:139-181 | under any faults and schedule the result is the brute-force scan minus exactly the failed chunks |
| Reader.ScopeLosesNothing | packages/unchained-reader/src/reader.ts:120-122 | chunks outside the asked range hold nothing that was asked for |
| Reader.LosslessPruning | packages/unchained-reader/src/reader.ts:113-182 | without faults every interleaving finds exactly what scanning every record of the whole manifest would, with no failure |
| Reader.GetAppearances | packages/unchained-reader/src/reader.ts:113-182 | the sorted list, failures and counters are the sum of what each chunk must contribute, for every arrival order |
| Reader.AnswerUnderFaults | packages/unchained-reader/src/reader.ts:113-182 | the returned list is the brute-force scan of the chunks in scope minus exactly those that failed, with one failure entry each |
| Reader.AnswerIsScan | packages/unchained-reader/src/reader.ts:113-182 | without faults the returned list is the one sorted list of a scan of the whole manifest, with no failure |
| Reader.AnswerInRange | packages/unchained-reader/src/reader.ts:86-182 | without faults an appearance from the first to the last block asked for, both included, is returned as often as the whole manifest holds it and any other not at all; the list ascends by block and then by transaction index |
| Reader.ScopeSpelled | packages/unchained-reader/src/reader.ts:86-87 | the chunks asked about are exactly those that overlap the inclusive range, or all without one |
| Reader.ChunkAccount | packages/unchained-reader/src/reader.ts:139-176 | what one chunk adds, from its two replies: failure entry with its identifier and error, bytes, counters, and the appearances in range |
| Fetcher.EveryRunIsOrderly | packages/unchained-reader/src/fetcher.ts:94-111 | for a limit of at least one: active <= limit, a waiting task implies a full pool, tasks start in submission order, each once |
| Fetcher.QuietPoolIsDone | packages/unchained-reader/src/fetcher.ts:97-101 | once all started tasks have finished, every submitted one has run |
| Fetcher.NonPositiveLimitStrands | packages/unchained-reader/src/fetcher.ts:108-109 | with a smaller limit nothing ever starts |
| Fetcher.Limiter.constructor | packages/unchained-reader/src/fetcher.ts:94-96 | an empty pool |
| Fetcher.Limiter.StartTask | packages/unchained-reader/src/fetcher.ts:104-107 | counts the task as running |
| Fetcher.Limiter.Enqueue | packages/unchained-reader/src/fetcher.ts:102-110 | a submission starts at once below the limit and queues otherwise |
| Fetcher.Limiter.Next | packages/unchained-reader/src/fetcher.ts:97-101 | a completion frees its place for the oldest waiting task |
| Fetcher.FetchWithRetry | packages/unchained-reader/src/fetcher.ts:143-153 | the first success within 1 + maxRetries attempts, otherwise the last error; the number of requests |
| Fetcher.FetchCid | packages/unchained-reader/src/fetcher.ts:155-164 | the answer of one call: cache before gateway without a request, a fetched file is cached, and every answer is the identifier's content |
| Fetcher.GatewayFetcher.constructor | packages/unchained-reader/src/fetcher.ts:113-122 | two empty pools with their own limits |
| Fetcher.GatewayFetcher.Request | packages/unchained-reader/src/fetcher.ts:155-161 | a cached file enters no pool; a miss is submitted to the pool of its priority and leaves the other alone |
| Fetcher.GatewayFetcher.Finish | packages/unchained-reader/src/fetcher.ts:161-164 | whatever came back, the place goes to the oldest waiting call of the same pool; a fetched file is cached |
| Observations.FindReplacementInBlock | packages/tx-tracker/src/observations.ts:516-530 | the first transaction with the identity's sender (case folded) and nonce and another hash; none exactly when there is none |
| Observations.IndexOfHash | packages/tx-tracker/src/observations.ts:172-181 | the transaction's place in the block, -1 exactly when absent |
| Observations.DecideMempoolObservation | packages/tx-tracker/src/observations.ts:406-504 | the patches built up step by step are the decision the run laws reason about |
| Outcomes.FoundInBlock | packages/tx-tracker/src/observations.ts:174-238 | a block that holds the transaction: events and every field of the record |
| Outcomes.BumpedByBlock | packages/tx-tracker/src/observations.ts:240-280 | a block that does not, after one that did: one confirmation more, and nothing else but the observed height and the terminal anchor |
| Outcomes.ReplacedInBlock | packages/tx-tracker/src/observations.ts:289-319 | neither: the first other transaction of the sender, up to letter case, and nonce replaces it, reported once |
| Outcomes.MissedByBlock | packages/tx-tracker/src/observations.ts:321-363 | none of these: nothing before the first observation, then one miss more, and the verdict when it meets the threshold |
| Outcomes.SnapshotSpelled | packages/tx-tracker/src/observations.ts:406-504 | a snapshot: events and every field, presence and replacement independently |
| Outcomes.DivergenceSpelled | packages/tx-tracker/src/tracker.ts:1483-1508 | a divergence: the inclusion at its height is gone and reported, any other stays |
| Outcomes.ConfirmedAtThreshold | packages/tx-tracker/src/observations.ts:167-170 | a block step that finds the transaction or bumps its count emits confirmed-terminal with the count, anchored at the block, if and only if nothing terminal is on the record and the count is at or above the threshold |
| Outcomes.ConfirmedExactlyAt | packages/tx-tracker/src/observations.ts:145-280 | on every run under a constant threshold n the event comes exactly at the step that brings the count to n, unless something terminal came before |
| Outcomes.FreshIsBelow | packages/tx-tracker/src/tracker.ts:795-826 | a newly tracked record has seen and counted nothing, and meets that lemma's hypothesis |
| ObservationRuns.TrackedTx.constructor | packages/tx-tracker/src/tracker.ts:795-826 | holds the given record |
| ObservationRuns.TrackedTx.ApplyObservationResult | packages/tx-tracker/src/tracker.ts:1566-1579 | every patched field takes the value of its patch and every other keeps its own; hash, threshold and vanishing are never touched |
| ObservationRuns.TrackedTx.OnBlock | packages/tx-tracker/src/tracker.ts:1375-1389 | record and events of one block step of a run |
| ObservationRuns.TrackedTx.OnMempool | packages/tx-tracker/src/tracker.ts:1612-1628 | record and events of one mempool step of a run |
| ObservationRuns.TrackedTx.OnDivergence | packages/tx-tracker/src/tracker.ts:1483-1508 | a divergence at the inclusion's height resets it and is reported, others do nothing |
| ObservationRuns.EveryStepLawful | packages/tx-tracker/src/observations.ts:145-504 | from any view that matches the record, every step emits only events a small automaton allows and keeps the match; an exact view of an anchored record stays exact |
| ObservationRuns.EveryTraceAccepted | packages/tx-tracker/src/observations.ts:145-504 | the event stream of every run, from every record, is accepted by that automaton, which sees only events; for anchored records it also tracks the terminal anchor exactly |
| ObservationRuns.ConfirmedOnce | packages/tx-tracker/src/observations.ts:167-170 | no terminal event of any kind precedes confirmed-terminal |
| ObservationRuns.DeparturesSeparated | packages/tx-tracker/src/observations.ts:424-464 | between two left-mempool events there is a seen-in-mempool |
| ObservationRuns.ReplacementsDiffer | packages/tx-tracker/src/observations.ts:289-319 | consecutive replaced-by events name different hashes, and one without a block is the first |
| ObservationRuns.ConfirmationsCount | packages/tx-tracker/src/observations.ts:182-186 | a count other than one continues by one the previous count in the stream, or the one the record came with, for the same block, with no vanishing between |
| ObservationRuns.StepKeepsStreak | packages/tx-tracker/src/observations.ts:325-363 | the streak resets on a sighting, grows on a miss and holds otherwise; the verdict falls on the threshold |
| ObservationRuns.StreakIsMisses | packages/tx-tracker/src/observations.ts:334-346 | the stored streak is the number of misses since the last sighting of the run, on top of the streak the record came with |
| ObservationRuns.UnseenExactly | packages/tx-tracker/src/observations.ts:334-346 | unseen-for-N-blocks is emitted exactly on the miss that completes the threshold |
| ObservationRuns.UnseenSeparated | packages/tx-tracker/src/observations.ts:334-346 | between two unseen verdicts there is a real sighting |
| ObservationRuns.InclusionStands | packages/tx-tracker/src/observations.ts:240-280 | after inclusion with a known tip a block emits neither replaced-by nor unseen, and only a divergence ends the inclusion |
| ObservationRuns.NothingContradictsAnInclusion | packages/tx-tracker/src/observations.ts:240-280 | over every run with known tips, from a seen-in-block to the next vanishing the stream holds no unseen verdict and no replacement found in a block |
| ObservationRuns.StepWritesOnce | packages/tx-tracker/src/observations.ts:231-235 | one step never changes a known terminal anchor, first observation or identity |
| ObservationRuns.RunWritesOnce | packages/tx-tracker/src/observations.ts:537-544 | nor does any run |
| ObservationRuns.TerminalMeansEvent | packages/tx-tracker/src/observations.ts:167-170 | for an anchored record the terminal anchor is set if and only if the stream holds a terminal event |
| ObservationRuns.UnanchoredTurnsTerminalSilently | packages/tx-tracker/src/observations.ts:289-317 | any unanchored record whose stored replacement is another transaction has a run on which it turns terminal with no terminal event |
| ObservationRuns.TerminalMeansEventIff | packages/tx-tracker/src/observations.ts:289-317 | anchor and event agree on every run if and only if the record is anchored or its stored replacement carries its own hash |
| Confirmations.InclusionStartsAtOne | packages/tx-tracker/src/observations.ts:182-193 | a block that holds the transaction where it was not counted before starts the count at one |
| Confirmations.CountIsDecisions | packages/tx-tracker/src/observations.ts:240-246 | while nothing disturbs the inclusion the count is its start plus the block decisions applied since, whatever their heights |
| Confirmations.CountIsDepthIff | packages/tx-tracker/src/observations.ts:240-246 | the count equals tip minus inclusion height plus one after every step if and only if each counted head is one above the one before |
| Confirmations.TwoHeadsCountTwice | packages/tx-tracker/src/observations.ts:240-246 | two heads at one height raise the count by two and the depth by one |
| Confirmations.UndisturbedSpelled | packages/tx-tracker/src/observations.ts:172-246 | which steps disturb an inclusion and which decisions add to its count |
| Mempool.BuildIndex | packages/tx-tracker/src/tracker.ts:1585-1602 | the index holds the last entry with each hash, queued before pending |
| Mempool.FindReplacementInMempool | packages/tx-tracker/src/tracker.ts:1646-1664 | the entry at the identity's folded sender and normalised nonce, pending first, if it is another transaction |
| Mempool.PresenceSpelled | packages/tx-tracker/src/tracker.ts:1585-1602 | the last queued entry with the hash, else the last pending one, else nothing |
| Mempool.ReplacementSpelled | packages/tx-tracker/src/tracker.ts:1646-1664 | the pending entry of the lower-case sender and the nonce if it is another transaction, failing that the queued one |
| Text.LowerSpelled | packages/tx-tracker/src/tracker.ts:1651-1651 | the folded sender has the same letters, none of them a capital |
| Mempool.InputSpelled | packages/tx-tracker/src/tracker.ts:1604-1622 | the decision gets these two lookups, the second only with a known identity, and is dated by the tip |
| Mempool.ReportsAreTrue | packages/tx-tracker/src/tracker.ts:1585-1628 | left-mempool means no bucket has the hash, a sighting names a bucket that does, a replacement is in the snapshot and is another transaction |
| Reorg.AppendBlock | packages/tx-tracker/src/reorg.ts:74-90 | filter, push, sort and splice put the block at its height and drop the lowest entries |
| Reorg.PlacePermutes | packages/tx-tracker/src/reorg.ts:79-85 | placing in order is a rearrangement of the other heights plus the new block |
| Reorg.EvictionCommutes | packages/tx-tracker/src/reorg.ts:86-88 | evicting before an append loses nothing that would survive it |
| Reorg.RingIsWindow | packages/tx-tracker/src/reorg.ts:74-90 | after any appends the ring is the last-writer map over all heights, ascending, cut to the largest `capacity` heights |
| Reorg.FullRingLists | packages/tx-tracker/src/reorg.ts:74-90 | without eviction the ring lists exactly the last write at every height |
| Reorg.DetectDivergences | packages/tx-tracker/src/reorg.ts:116-162 | the divergent heights in ascending order; none when a side is empty |
| Reorg.DivergencesExact | packages/tx-tracker/src/reorg.ts:142-154 | a divergence is reported exactly for a height within depth on both sides with different hashes, with the old transactions |
| Reorg.DepthSpelled | packages/tx-tracker/src/reorg.ts:130-154 | a new tip contradicts the entry of its height with another hash if it is less than the depth below both the ring's top and the tip |
| Reorg.OverwriteIsReported | packages/tx-tracker/src/reorg.ts:74-162 | an append that replaces an entry within depth yields exactly that one divergence on the prior ring, and otherwise none |
| Tracker.TxTracker.constructor | packages/tx-tracker/src/tracker.ts:670-731 | an empty ring and no tip |
| Tracker.TxTracker.HandleReorgs | packages/tx-tracker/src/tracker.ts:1467-1510 | record and events follow the divergences on the ring before the append |
| Tracker.TxTracker.BlockArrives | packages/tx-tracker/src/tracker.ts:1269-1291 | the first half of a block: ring, tip and vanished inclusion, without interruption |
| Tracker.TxTracker.BlockDecided | packages/tx-tracker/src/tracker.ts:1354-1390 | the second half, after any wait for receipts: the stale-block guard and the decision on the record as it is by then |
| Tracker.TxTracker.OnBlock | packages/tx-tracker/src/tracker.ts:1248-1390 | both halves in one go, as when no receipt is wanted |
| Tracker.TxTracker.OnMempool | packages/tx-tracker/src/tracker.ts:1585-1628 | presence and replacement are looked up in the snapshot and decided on; the ring stays |
| Tracker.ArrivalSpelled | packages/tx-tracker/src/tracker.ts:1269-1291 | an arrival moves tip and ring; record and events are those of the one divergence it causes, if it displaces an entry less than the depth below the top |
| Tracker.DecisionSpelled | packages/tx-tracker/src/tracker.ts:1360-1390 | a decision leaves record and events alone if the record was last observed above the block; in every other case they are those of that block |
| Tracker.OnBlockIncludes | packages/tx-tracker/src/tracker.ts:1248-1390 | after a block that holds the transaction, at a height not below the last observed one, the inclusion is that block |
| Tracker.SameHeightReorg | packages/tx-tracker/src/tracker.ts:1371-1374 | two blocks of one height that hold the transaction: the events of the second are the vanishing of the first and then seen-in-block with count one |
| Tracker.TipSpelled | packages/tx-tracker/src/tracker.ts:1266-1282 | the ring entry of a block and the hashes it lists |
| Tracker.AppendKeepsOrPasses | packages/tx-tracker/src/tracker.ts:1285-1285 | an entry is evicted only once the ring has moved a whole capacity past it |
| Tracker.ArrivalKeepsInclusionCurrent | packages/tx-tracker/src/tracker.ts:1269-1291 | an arrival keeps the inclusion that is counted on the ring, or a full depth below the tip, and takes the new block in |
| Tracker.VanishingNamesTheCounted | packages/tx-tracker/src/tracker.ts:1467-1510 | vanished-from-block names exactly the block the transaction was counted in |
| Tracker.DecisionKeepsInclusionIff | packages/tx-tracker/src/tracker.ts:1360-1390 | a decision keeps that if and only if it is stale, does not find the transaction in the block, or comes while the ring still holds the block or has passed it |
| Tracker.InclusionCurrentIff | packages/tx-tracker/src/tracker.ts:1248-1390 | on every interleaving of arrivals, decisions and snapshots the inclusion is current at every point if and only if every decision is timely in that sense |
| Tracker.BlockKeepsInclusionCurrent | packages/tx-tracker/src/tracker.ts:1269-1390 | a block handled in one go keeps the inclusion on the ring, or a full depth below the tip |
| Tracker.RunKeepsInclusionCurrent | packages/tx-tracker/src/tracker.ts:1248-1390 | so it is always current, whatever heads arrive in whatever order, if every decision directly follows its arrival |
| Tracker.InterleavingBreaksInclusion | packages/tx-tracker/src/tracker.ts:1314-1389 | a wait for receipts between two blocks of one height is enough to count a transaction in a block the ring no longer holds |
| Json.BigRoundTrip | packages/tx-tracker/src/local-storage-store.ts:103-126 | every bigint comes back |
| Json.DecimalInjective | packages/tx-tracker/src/local-storage-store.ts:105-105 | different bigints are written differently |
| Json.RoundTripIff | packages/tx-tracker/src/local-storage-store.ts:103-138 | a value tree comes back unchanged if and only if no object in it holds, under the sentinel, a text that reads as a bigint |
| Json.EncodeSpelled | packages/tx-tracker/src/local-storage-store.ts:101-108 | what is written: plain values as they are, a bigint as its decimal under the sentinel key, lists and objects element by element |
| Json.DecodeSpelled | packages/tx-tracker/src/local-storage-store.ts:110-126 | what is read: objects keep their keys, and are bigints exactly when the sentinel holds a text that reads as one |
| Json.LookupFirst | packages/tx-tracker/src/local-storage-store.ts:110-116 | the first field under a key is the one that is found |
| Json.LookupNone | packages/tx-tracker/src/local-storage-store.ts:110-116 | and none is found when no field has the key |
| StoreKeys.MemoryKeyInjective | packages/tx-tracker/src/store.ts:179-180 | a key names one chain and one hash, whatever the hash contains |
| StoreKeys.RecordKeyInjective | packages/tx-tracker/src/local-storage-store.ts:88-89 | so does a record key |
| StoreKeys.EventLogKeyInjective | packages/tx-tracker/src/local-storage-store.ts:91-92 | so does an event-log key |
| StoreKeys.KindsDisjoint | packages/tx-tracker/src/local-storage-store.ts:88-92 | no record key is an event-log key |
| StoreKeys.ChainPrefixIsRecord | packages/tx-tracker/src/local-storage-store.ts:208-225 | the keys under a chain's prefix are exactly that chain's record keys |
| StoreKeys.KeysSpelled | packages/tx-tracker/src/local-storage-store.ts:88-92 | what the keys look like, with the chain id in decimal |
| StoreKeys.BeginsMemoryKey | packages/tx-tracker/src/local-storage-store.ts:88-89 | a text ending in a colon begins some chain and hash if and only if its first segment is a decimal as written |
| StoreKeys.CleanupSparesIff | packages/tx-tracker/src/local-storage-store.ts:177-183 | deleting an old namespace spares every key the store can write if and only if neither the current name starts with the old one at a colon, nor the old one goes on past the current one with a chain id or with `eventlog` |
| StoreKeys.StoresApartIff | packages/tx-tracker/src/local-storage-store.ts:88-92 | two stores on one storage share no key they can write if and only if their names differ and neither goes on past the other with a chain id or with `eventlog` |
| Store.InMemoryStore.constructor | packages/tx-tracker/src/store.ts:193-200 | an empty store |
| Store.InMemoryStore.PutRecord | packages/tx-tracker/src/store.ts:203-206 | the record stands under its chain and hash, all else unchanged |
| Store.InMemoryStore.GetRecord | packages/tx-tracker/src/store.ts:208-209 | the record last put, none after a delete |
| Store.InMemoryStore.DeleteRecord | packages/tx-tracker/src/store.ts:211-216 | record and log are gone, all else unchanged |
| Store.InMemoryStore.ListDurable | packages/tx-tracker/src/store.ts:218-227 | each durable record of the chain once; it throws exactly when some record of the chain makes the source's test throw |
| Store.InMemoryStore.Append | packages/tx-tracker/src/store.ts:229-241 | the log grows by the event and keeps its last `capacity` entries |
| Store.InMemoryStore.ReadEventLog | packages/tx-tracker/src/store.ts:243-247 | the log, or its events at or after a block, in order |
| Store.LogIsWindow | packages/tx-tracker/src/store.ts:229-241 | in every run a log is the last `capacity` events appended since the last delete |
| Store.OperationsSpelled | packages/tx-tracker/src/store.ts:203-216 | a write shows under its own id and kind only, a delete takes both |
| Store.AppendSpelled | packages/tx-tracker/src/store.ts:229-241 | the log after an append entry by entry |
| Store.SinceSpelled | packages/tx-tracker/src/store.ts:243-247 | a read since a block keeps exactly the events whose block is at or after it, in order |
| Store.JudgeSpelled | packages/tx-tracker/src/store.ts:220-225 | which entries a listing skips, judges by their subscriptions and trips over |
| Store.IdSpelled | packages/tx-tracker/src/store.ts:203-206 | what a record is and which chain and hash it is filed under |
| Store.DurableFirst | packages/tx-tracker/src/store.ts:222-222 | the first durable or missing subscription decides |
| Store.DurableNone | packages/tx-tracker/src/store.ts:222-222 | without either the record is not durable |
| LocalStorageStore.DeleteKeysStartingWith | packages/tx-tracker/src/local-storage-store.ts:272-284 | removes exactly the keys with the prefix; an empty prefix removes nothing |
| LocalStorageStore.CleanedExactly | packages/tx-tracker/src/local-storage-store.ts:180-183 | construction removes exactly the entries under some listed old prefix, empty and current ones skipped |
| LocalStorageStore.CleaningKeepsContents | packages/tx-tracker/src/local-storage-store.ts:177-183 | if no listed name endangers the current one, every live record and log survives construction |
| LocalStorageStore.CleaningKeepsContentsIff | packages/tx-tracker/src/local-storage-store.ts:177-183 | construction keeps every well-typed store's contents if and only if no listed name endangers the current one |
| LocalStorageStore.CreateLocalStorageStore | packages/tx-tracker/src/local-storage-store.ts:156-183 | no storage and no prefix are refused before anything is deleted; otherwise any storage is opened, and one that holds some contents still does if the listed names are harmless |
| LocalStorageStore.LocalStorageTrackerStore.constructor | packages/tx-tracker/src/local-storage-store.ts:174-185 | a reload takes the storage as it is |
| LocalStorageStore.DecodedIsLossless | packages/tx-tracker/src/local-storage-store.ts:110-138 | whatever was read back, from any stored JSON, can be written again without loss |
| LocalStorageStore.ShownIffLossless | packages/tx-tracker/src/local-storage-store.ts:128-138 | a value written is the value read if and only if it is lossless |
| LocalStorageStore.ShownSpelled | packages/tx-tracker/src/local-storage-store.ts:131-138 | absent, malformed and null entries read as nothing, all others as the codec reads them |
| LocalStorageStore.LocalStorageTrackerStore.PutRecord | packages/tx-tracker/src/local-storage-store.ts:186-191 | any record is written under its key and reads back as it was if and only if it is lossless; then the store goes on agreeing with its contents; other namespaces untouched |
| LocalStorageStore.LocalStorageTrackerStore.GetRecord | packages/tx-tracker/src/local-storage-store.ts:193-196 | what the codec reads under the key; the record last put, when storage and contents agree |
| LocalStorageStore.LocalStorageTrackerStore.DeleteRecord | packages/tx-tracker/src/local-storage-store.ts:198-205 | both keys are gone, all else unchanged |
| LocalStorageStore.LocalStorageTrackerStore.ListDurable | packages/tx-tracker/src/local-storage-store.ts:207-236 | on any storage: one entry for each key under the chain's prefix whose value passes the source's test, and a throw exactly when one of them makes it throw; as the in-memory store when storage and contents agree |
| LocalStorageStore.LocalStorageTrackerStore.Append | packages/tx-tracker/src/local-storage-store.ts:238-255 | on any storage: an entry that is no list makes the call fail and changes nothing, otherwise the list grows by the event and keeps its last `capacity` entries; other namespaces untouched |
| LocalStorageStore.LocalStorageTrackerStore.ReadEventLog | packages/tx-tracker/src/local-storage-store.ts:257-263 | on any storage: what is stored, or the entries that pass the block test, or a throw; the log or its recent part when storage and contents agree |
| LocalStorageStore.FilteredSpelled | packages/tx-tracker/src/local-storage-store.ts:262-262 | a filtered read throws exactly when some entry makes the test throw, and otherwise keeps what passes, in order |
| LocalStorageStore.LookSpelled | packages/tx-tracker/src/local-storage-store.ts:262-262 | which stored entries pass the block test and which make it throw |
| LocalStorageStore.AtLeastSpelled | packages/tx-tracker/src/local-storage-store.ts:262-262 | what the comparison with a block number makes of each kind of value |
| LocalStorageStore.CallBoth | packages/tx-tracker/src/local-storage-store.ts:185-264 | one call gives the same answer on both stores, the one the contents call for, and the same contents after |
| LocalStorageStore.AdmissibleSpelled | packages/tx-tracker/src/local-storage-store.ts:186-255 | which calls that is promised for |
| LocalStorageStore.RunBoth | packages/tx-tracker/src/local-storage-store.ts:185-264 | every sequence of calls gets the same answers from both stores and touches no other namespace |

## Left out

- Transport: RPC clients, gateways, timeouts, chain sources, timers, visibility handling, servers and user
  interface. Lookups, replies and snapshots are parameters.
- `createGasOracle` start, subscribe, idle and visibility lifecycle: attach and detach timers need their own model.
- Concurrent polls: the source does not serialise `handleBlock`; the model takes each poll as one atomic step.
- Raw inputs: effective tips, hex parsing, sample adapters and mempool normalisation; tips, gas and fees arrive
  as natural numbers, and reading a nonce is a parameter of the mempool lookup. A fractional liveness is refused
  by the factory and not modelled past it.
- State the reducer only passes through: chain id, timestamp, gas limit, mempool counts, blob gas used.
- Oracle.GasOracle.HandleBlock: the ring invariant is stated for positive windows, or unlimited ones while the walk
  depth stays below the source's own numeric bound.
- Comparators: the two descending sorts pass an inconsistent comparator for equal tips; the model takes the
  language's promise that equal tips may come in any order.
- Reader abort and callbacks: an abort returns early without a record, and a throwing callback is not modelled.
- Reader manifest: resolving and parsing it, and address normalisation.
- Reader.LosslessPruning: assumes published files are well formed; a truncated bloom body can hide an address,
  and `Bloom.TruncationOnlyHides` says that is all it can do.
- Files are at most as long as a typed array can be; the error texts and their classification are one tag each.
- The answer of a query whose spread of found appearances exceeds the engine's argument limit: the push throws
  after the chunk was counted as fetched, so that chunk is counted twice and the counters no longer balance.
- Fetcher tasks settle once and do not throw synchronously; the two pools are independent instances of one limiter.
- Hashes in the ring and tracker models are identities; in the stores they are texts.
- Tracker paths other than blocks and mempool snapshots: status poll, receipt poll, mined probe, bulk and group
  subscriptions, capability signals, retention clean-up, rehydration.
- Events carry what distinguishes them; chain id, source, envelope and receipts are dropped.
- JSON text syntax, `undefined` fields and functions: the codec is modelled on value trees, with text parsing as
  lossless or failed.
- Storage quota errors and storages that throw.
- LocalStorageStore.LocalStorageTrackerStore.ReadEventLog: a stored block number that is itself a list or an object is
  taken not to compare, where the source would first turn it into text.
- BlobHeadroom.BlobCoveredIff: decides coverage for a given excess and number of blocks. Whether there is
  a fee from which the buffer covers every excess is not determined; `OneWeiIsNotCovered` shows that one wei is not it.
- Hashes in keys are any text. For sixty-four hex digits fewer old prefixes would be dangerous.
- Aliasing: the in-memory store hands out its own record objects; the model stores values.
