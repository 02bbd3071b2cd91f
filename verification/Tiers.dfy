/** The four published fee tiers: percentiles of one gas-weighted distribution, capped and buffered. */
module Tiers {
  import opened Wrappers
  import opened Arithmetic
  import opened Samples
  import opened Sequences
  import opened Quantile
  import opened Decay
  import opened Headroom

  datatype TierName = Slow | Standard | Fast | Instant

  /** A value for every tier. */
  datatype PerTier<T> = PerTier(slow: T, standard: T, fast: T, instant: T) {
    function At(name: TierName): T {
      match name
      case Slow => slow
      case Standard => standard
      case Fast => fast
      case Instant => instant
    }

    function With(name: TierName, value: T): PerTier<T> {
      match name
      case Slow => this.(slow := value)
      case Standard => this.(standard := value)
      case Fast => this.(fast := value)
      case Instant => this.(instant := value)
    }
  }

  datatype PriorityModel = Flat | Eip1559

  /** The caller's cap: left out, `null`, or a WAD fraction. */
  datatype CapSetting = DefaultCap | Uncapped | Cap(wad: int)

  datatype TierRecommendation = TierRecommendation(
    maxPriorityFeePerGas: nat,
    maxFeePerGas: nat,
    gasPrice: nat,
    maxFeePerBlobGas: Option<nat>)

  datatype TierInput = TierInput(
    ringSamples: seq<TipSample>,
    mempoolSamples: seq<TipSample>,
    baseFee: nat,
    baseFeeTrend: Trend,
    blob: Option<(nat, Trend)>,
    blockNumber: int,
    lastPublishedTips: Option<PerTier<nat>>,
    lastPublishedBlockNumber: Option<int>,
    decayCap: CapSetting,
    priorityModel: Option<PriorityModel>,
    livenessBlocks: Option<int>)

  const TIER_PERCENTILE: seq<(TierName, nat)> := [(Slow, 10), (Standard, 50), (Fast, 75), (Instant, 90)]
  const TIER_LADDER: seq<TierName> := [Slow, Standard, Fast, Instant]
  const DEFAULT_BASE_FEE_LIVENESS_BLOCKS: nat := 1
  const EIP1559_TX_TYPE: nat := 2

  function TargetOf(name: TierName): nat {
    match name
    case Slow => 10
    case Standard => 50
    case Fast => 75
    case Instant => 90
  }

  function CapOf(setting: CapSetting): Option<int> {
    match setting
    case DefaultCap => Some(DEFAULT_PRIORITY_FEE_DECAY_CAP)
    case Uncapped => None
    case Cap(wad) => Some(wad)
  }

  /** The range the oracle's constructor enforces; the tiers themselves take any cap. */
  predicate ValidCap(setting: CapSetting) {
    setting.Cap? ==> 0 <= setting.wad <= WAD
  }

  predicate IsPayingLane(s: TipSample) {
    s.txType.Some? && s.txType.value >= EIP1559_TX_TYPE
  }

  function PayingLane(s: seq<TipSample>): seq<TipSample> {
    if s == [] then []
    else if IsPayingLane(s[0]) then [s[0]] + PayingLane(s[1..])
    else PayingLane(s[1..])
  }

  function ModelOf(input: TierInput): PriorityModel {
    input.priorityModel.GetOr(Eip1559)
  }

  function LivenessOf(input: TierInput): nat {
    Max(0, input.livenessBlocks.GetOr(DEFAULT_BASE_FEE_LIVENESS_BLOCKS))
  }

  /** The samples a tier reads. */
  function SourceOf(input: TierInput, name: TierName): seq<TipSample> {
    var combined := input.ringSamples + input.mempoolSamples;
    if ModelOf(input) == Eip1559 && name != Slow then PayingLane(combined) else combined
  }

  function AnchorOf(input: TierInput, name: TierName): Option<nat> {
    match input.lastPublishedTips
    case None => None
    case Some(t) => Some(t.At(name))
  }

  function BlobFeeOf(input: TierInput): Option<nat> {
    match input.blob
    case None => None
    case Some((fee, trend)) => Some(Buffered(fee, trend, LivenessOf(input)))
  }

  ghost predicate TipFor(input: TierInput, name: TierName, tip: nat)
  {
    exists raw: nat ::
      && IsPercentile(SourceOf(input, name), TargetOf(name), raw)
      && tip == Capped(raw, input.blockNumber, AnchorOf(input, name), input.lastPublishedBlockNumber,
                       CapOf(input.decayCap))
  }

  function Recommend(input: TierInput, tip: nat): TierRecommendation {
    TierRecommendation(
      tip,
      Buffered(input.baseFee, input.baseFeeTrend, LivenessOf(input)) + tip,
      input.baseFee + tip,
      BlobFeeOf(input))
  }

  ghost predicate TiersFor(input: TierInput, tiers: PerTier<TierRecommendation>, tips: PerTier<nat>)
  {
    forall name: TierName ::
      TipFor(input, name, tips.At(name)) && tiers.At(name) == Recommend(input, tips.At(name))
  }

  lemma TipIs(input: TierInput, name: TierName, raw: nat, tip: nat)
    requires IsPercentile(SourceOf(input, name), TargetOf(name), raw)
    requires tip == Capped(raw, input.blockNumber, AnchorOf(input, name), input.lastPublishedBlockNumber,
                           CapOf(input.decayCap))
    ensures TipFor(input, name, tip)
  {
  }

  method BufferedFee(fee: nat, trend: Trend, livenessBlocks: int) returns (buffered: nat)
    ensures buffered == Buffered(fee, trend, Max(0, livenessBlocks))
  {
    var num, den := BaseFeeBufferMultiplier(trend, livenessBlocks);
    DivNonNegative(fee * num, den);
    buffered := fee * num / den;
  }

  method ComputeTiers(input: TierInput)
    returns (tiers: PerTier<TierRecommendation>, publishedTips: PerTier<nat>)
    ensures TiersFor(input, tiers, publishedTips)
  {
    hide IsPercentile, Capped, PayingLane, Buffered, TipFor;
    var livenessBlocks: int := input.livenessBlocks.GetOr(DEFAULT_BASE_FEE_LIVENESS_BLOCKS);
    var bufferedBase := BufferedFee(input.baseFee, input.baseFeeTrend, livenessBlocks);
    var blobFee := None;
    if input.blob.Some? {
      var (fee, trend) := input.blob.value;
      var buffered := BufferedFee(fee, trend, livenessBlocks);
      blobFee := Some(buffered);
    }
    assert blobFee == BlobFeeOf(input);

    var decayCap := CapOf(input.decayCap);
    var priorityModel := input.priorityModel.GetOr(Eip1559);
    var combined := input.ringSamples + input.mempoolSamples;
    var targets := [10, 50, 75, 90];
    var full := GasWeightedPercentiles(combined, targets);
    var payingLane := full;
    if priorityModel == Eip1559 {
      payingLane := GasWeightedPercentiles(PayingLane(combined), targets);
    }

    var zero := TierRecommendation(0, 0, 0, None);
    tiers, publishedTips := PerTier(zero, zero, zero, zero), PerTier(0, 0, 0, 0);
    for i := 0 to |TIER_PERCENTILE|
      invariant forall j | 0 <= j < i ::
        var name := TIER_PERCENTILE[j].0;
        TipFor(input, name, publishedTips.At(name))
        && tiers.At(name) == Recommend(input, publishedTips.At(name))
    {
      var (name, percentileTarget) := TIER_PERCENTILE[i];
      assert percentileTarget == TargetOf(name) && percentileTarget in targets;
      var useFiltered := priorityModel == Eip1559 && name != Slow;
      var rawTip := if useFiltered then payingLane[percentileTarget] else full[percentileTarget];
      assert IsPercentile(SourceOf(input, name), TargetOf(name), rawTip);
      var tip := CappedTip(
        rawTip, input.blockNumber, AnchorOf(input, name), input.lastPublishedBlockNumber, decayCap);
      TipIs(input, name, rawTip, tip);
      publishedTips := publishedTips.With(name, tip);
      tiers := tiers.With(
        name, TierRecommendation(tip, bufferedBase + tip, input.baseFee + tip, blobFee));
    }
    forall name: TierName
      ensures TipFor(input, name, publishedTips.At(name))
           && tiers.At(name) == Recommend(input, publishedTips.At(name))
    {
      var j := match name case Slow => 0 case Standard => 1 case Fast => 2 case Instant => 3;
      assert TIER_PERCENTILE[j].0 == name;
    }
  }

  // ----- ladder order -----

  /** Tiers that share a distribution are ordered; `slow` shares it only in the flat model. */
  predicate OrderedTips(t: PerTier<nat>, flat: bool) {
    (flat ==> t.slow <= t.standard) && t.standard <= t.fast <= t.instant
  }

  lemma TipsOrdered(
      input: TierInput, low: TierName, high: TierName, a: nat, b: nat)
    requires TipFor(input, low, a) && TipFor(input, high, b)
    requires SourceOf(input, low) == SourceOf(input, high) && TargetOf(low) <= TargetOf(high)
    requires input.lastPublishedTips.Some? ==>
               input.lastPublishedTips.value.At(low) <= input.lastPublishedTips.value.At(high)
    ensures a <= b
  {
    hide IsPercentile, Capped, SourceOf;
    var source := SourceOf(input, low);
    var now, block, cap := input.blockNumber, input.lastPublishedBlockNumber, CapOf(input.decayCap);
    var p: nat :| IsPercentile(source, TargetOf(low), p)
               && a == Capped(p, now, AnchorOf(input, low), block, cap);
    var q: nat :| IsPercentile(SourceOf(input, high), TargetOf(high), q)
               && b == Capped(q, now, AnchorOf(input, high), block, cap);
    PercentileMonotone(source, TargetOf(low), TargetOf(high), p, q);
    CappedMonotone(p, q, now, AnchorOf(input, low), AnchorOf(input, high), block, cap);
  }

  /** One poll keeps the ladder in order if the anchors were. */
  lemma TiersKeepOrder(
      input: TierInput, tiers: PerTier<TierRecommendation>, tips: PerTier<nat>, flat: bool)
    requires TiersFor(input, tiers, tips)
    requires flat ==> ModelOf(input) == Flat
    requires input.lastPublishedTips.Some? ==> OrderedTips(input.lastPublishedTips.value, flat)
    ensures OrderedTips(tips, flat)
  {
    hide TipFor, SourceOf, Recommend;
    assert TipFor(input, Slow, tips.At(Slow)) && TipFor(input, Standard, tips.At(Standard));
    assert TipFor(input, Fast, tips.At(Fast)) && TipFor(input, Instant, tips.At(Instant));
    SameSource(input, Standard, Fast);
    SameSource(input, Fast, Instant);
    TipsOrdered(input, Standard, Fast, tips.standard, tips.fast);
    TipsOrdered(input, Fast, Instant, tips.fast, tips.instant);
    if flat {
      SameSource(input, Slow, Standard);
      TipsOrdered(input, Slow, Standard, tips.slow, tips.standard);
    }
  }

  lemma SameSource(input: TierInput, a: TierName, b: TierName)
    requires ModelOf(input) == Flat || (a != Slow && b != Slow)
    ensures SourceOf(input, a) == SourceOf(input, b)
  {
  }

  /** All three fees of a tier move with its tip. */
  lemma FeesFollowTips(
      input: TierInput, tiers: PerTier<TierRecommendation>, tips: PerTier<nat>, a: TierName, b: TierName)
    requires TiersFor(input, tiers, tips)
    ensures tips.At(a) <= tips.At(b) <==>
              tiers.At(a).maxPriorityFeePerGas <= tiers.At(b).maxPriorityFeePerGas
    ensures tips.At(a) <= tips.At(b) <==> tiers.At(a).maxFeePerGas <= tiers.At(b).maxFeePerGas
    ensures tips.At(a) <= tips.At(b) <==> tiers.At(a).gasPrice <= tiers.At(b).gasPrice
  {
    hide TipFor, Buffered;
    assert tiers.At(a) == Recommend(input, tips.At(a)) && tiers.At(b) == Recommend(input, tips.At(b));
  }

  /** The published cap of every tier keeps room for its tip as long as the buffer covers the base fee. */
  lemma PublishedCapHolds(
      input: TierInput, tiers: PerTier<TierRecommendation>, tips: PerTier<nat>, name: TierName,
      usages: seq<Usage>)
    requires TiersFor(input, tiers, tips)
    requires input.baseFeeTrend != Falling && input.baseFee >= Threshold(input.baseFeeTrend)
    requires |usages| <= LivenessOf(input) && AllTame(usages)
    ensures BaseFeeAfter(input.baseFee, usages) + tiers.At(name).maxPriorityFeePerGas
         <= tiers.At(name).maxFeePerGas
  {
    hide TipFor, Buffered, BaseFeeAfter, AllTame;
    HeadroomHolds(input.baseFee, input.baseFeeTrend, LivenessOf(input), usages);
    assert tiers.At(name) == Recommend(input, tips.At(name));
  }

  // ----- slow against standard -----

  const LEGACY: TipSample := TipSample(100, 100, Some(0), None, None, None)
  const MODERN: TipSample := TipSample(1, 1, Some(2), None, None, None)

  function WithSamples(input: TierInput, ring: seq<TipSample>, mempool: seq<TipSample>): TierInput {
    input.(ringSamples := ring, mempoolSamples := mempool)
  }

  /** A gas-heavy legacy sample is invisible to every tier but `slow`. */
  lemma WitnessPercentiles()
    ensures PayingLane([LEGACY, MODERN]) == [MODERN]
    ensures IsPercentile([LEGACY, MODERN], 10, 100)
    ensures forall p: nat | p in [50, 75, 90] :: IsPercentile([MODERN], p, 1)
  {
    var all := [LEGACY, MODERN];
    assert PayingLane(all) == [MODERN] by {
      assert all[1..] == [MODERN] && [MODERN][1..] == [];
      assert PayingLane([MODERN]) == [MODERN] + PayingLane([]);
    }
    SumTwo(LEGACY, MODERN, Gas());
    SumTwo(LEGACY, MODERN, GasIfAtMost(100));
    SumTwo(LEGACY, MODERN, GasIfAtMost(1));
    SumOne(MODERN, Gas());
    SumOne(MODERN, GasIfAtMost(1));
    assert LEGACY in all && MODERN in [MODERN];
  }

  /** In the eip1559 model, under every setting, there are samples that publish `slow` above `standard`. */
  lemma SlowMayExceedStandard(input: TierInput)
    returns (tiers: PerTier<TierRecommendation>, tips: PerTier<nat>)
    requires ModelOf(input) == Eip1559 && input.lastPublishedTips == None
    requires input.ringSamples + input.mempoolSamples == [LEGACY, MODERN]
    ensures TiersFor(input, tiers, tips) && tips == PerTier(100, 1, 1, 1)
    ensures forall tiers', tips' | TiersFor(input, tiers', tips') :: tips' == tips
  {
    hide IsPercentile, PayingLane, Recommend;
    WitnessPercentiles();
    tips := PerTier(100, 1, 1, 1);
    tiers := PerTier(
      Recommend(input, 100), Recommend(input, 1), Recommend(input, 1), Recommend(input, 1));
    forall name: TierName
      ensures TipFor(input, name, tips.At(name)) && tiers.At(name) == Recommend(input, tips.At(name))
    {
      assert IsPercentile(SourceOf(input, name), TargetOf(name), tips.At(name));
    }
    forall tiers', tips' | TiersFor(input, tiers', tips')
      ensures tips' == tips
    {
      forall name: TierName
        ensures tips'.At(name) == tips.At(name)
      {
        assert TipFor(input, name, tips'.At(name));
        UncappedTip(input, name, tips'.At(name), tips.At(name));
      }
      SamePerTier(tips', tips);
    }
  }

  lemma SamePerTier(a: PerTier<nat>, b: PerTier<nat>)
    requires forall name: TierName :: a.At(name) == b.At(name)
    ensures a == b
  {
    assert a.At(Slow) == b.At(Slow) && a.At(Standard) == b.At(Standard);
    assert a.At(Fast) == b.At(Fast) && a.At(Instant) == b.At(Instant);
  }

  /**
   Without an anchor, whatever cap, liveness, base fee, trend, blob and block: `slow` stays at or
   below `standard` for all samples if and only if the model is flat.
   */
  lemma SlowBelowStandardIff(input: TierInput)
    requires input.lastPublishedTips == None
    ensures (forall ring, mempool, tiers, tips | TiersFor(WithSamples(input, ring, mempool), tiers, tips) ::
               tips.slow <= tips.standard)
        <==> ModelOf(input) == Flat
  {
    hide TiersFor;
    if ModelOf(input) == Flat {
      forall ring, mempool, tiers, tips | TiersFor(WithSamples(input, ring, mempool), tiers, tips)
        ensures tips.slow <= tips.standard
      {
        TiersKeepOrder(WithSamples(input, ring, mempool), tiers, tips, true);
      }
    } else {
      var w := WithSamples(input, [LEGACY, MODERN], []);
      var tiers, tips := SlowMayExceedStandard(w);
    }
  }

  lemma UncappedTip(input: TierInput, name: TierName, tip: nat, raw: nat)
    requires input.lastPublishedTips == None
    requires TipFor(input, name, tip) && IsPercentile(SourceOf(input, name), TargetOf(name), raw)
    ensures tip == raw
  {
    hide IsPercentile, SourceOf;
    var p: nat :| IsPercentile(SourceOf(input, name), TargetOf(name), p)
               && tip == Capped(p, input.blockNumber, AnchorOf(input, name),
                                input.lastPublishedBlockNumber, CapOf(input.decayCap));
    PercentileUnique(SourceOf(input, name), TargetOf(name), p, raw);
  }

  // ----- a poll's tiers, spelled out -----

  /** The blocks the caller wants covered: one if left out, none below zero. */
  function WantedBlocks(livenessBlocks: Option<int>): nat {
    match livenessBlocks
    case None => 1
    case Some(n) => if n < 0 then 0 else n
  }

  /** Every fee of a tier that was published with `tip`. */
  ghost predicate IsPriced(input: TierInput, t: TierRecommendation, tip: nat) {
    var n := WantedBlocks(input.livenessBlocks);
    && t.maxPriorityFeePerGas == tip
    && t.gasPrice == input.baseFee + tip
    && IsBuffered(input.baseFee, input.baseFeeTrend, n, t.maxFeePerGas - tip)
    && match input.blob
       case None => t.maxFeePerBlobGas == None
       case Some((fee, trend)) =>
         t.maxFeePerBlobGas.Some? && IsBuffered(fee, trend, n, t.maxFeePerBlobGas.value)
  }

  lemma FeesSpelled(input: TierInput, tiers: PerTier<TierRecommendation>, tips: PerTier<nat>)
    requires TiersFor(input, tiers, tips)
    ensures IsPriced(input, tiers.slow, tips.slow) && IsPriced(input, tiers.standard, tips.standard)
    ensures IsPriced(input, tiers.fast, tips.fast) && IsPriced(input, tiers.instant, tips.instant)
  {
    hide TipFor, Buffered, IsBuffered, IsPriced;
    forall name: TierName
      ensures IsPriced(input, tiers.At(name), tips.At(name))
    {
      RecommendSpelled(input, tips.At(name));
    }
    assert tiers.At(Slow) == tiers.slow && tiers.At(Standard) == tiers.standard;
    assert tiers.At(Fast) == tiers.fast && tiers.At(Instant) == tiers.instant;
  }

  lemma RecommendSpelled(input: TierInput, tip: nat)
    ensures IsPriced(input, Recommend(input, tip), tip)
  {
    hide Buffered, IsBuffered;
    BufferedSpelled(input.baseFee, input.baseFeeTrend, LivenessOf(input));
    if input.blob.Some? {
      BufferedSpelled(input.blob.value.0, input.blob.value.1, LivenessOf(input));
    }
  }

  /** The cap a setting stands for; an eighth of a WAD if left out. */
  function CapWad(setting: CapSetting): Option<int> {
    match setting
    case DefaultCap => Some(125_000_000_000_000_000)
    case Uncapped => None
    case Cap(wad) => Some(wad)
  }

  /** One tier's tip, from the samples it reads and the anchor of the same tier. */
  ghost predicate IsTip(
      input: TierInput, samples: seq<TipSample>, percentile: nat, anchor: Option<nat>, tip: nat)
  {
    exists raw: nat ::
      && IsPercentile(samples, percentile, raw)
      && tip == Capped(raw, input.blockNumber, anchor, input.lastPublishedBlockNumber, CapWad(input.decayCap))
  }

  lemma {:induction false} PayingCounts(s: seq<TipSample>, x: TipSample)
    ensures multiset(PayingLane(s))[x] == if x.txType.Some? && x.txType.value >= 2 then multiset(s)[x] else 0
  {
    if s == [] {
    } else {
      PayingCounts(s[1..], x);
      assert s == [s[0]] + s[1..];
    }
  }

  /**
   The four tips of a poll: `slow` reads every sample, the others the samples of type 2 and above unless
   the model is flat.
   */
  lemma TipsSpelled(input: TierInput, tiers: PerTier<TierRecommendation>, tips: PerTier<nat>)
    returns (all: seq<TipSample>, paying: seq<TipSample>)
    requires TiersFor(input, tiers, tips)
    ensures multiset(all) == multiset(input.ringSamples) + multiset(input.mempoolSamples)
    ensures forall x :: multiset(paying)[x] ==
              if input.priorityModel == Some(Flat) || (x.txType.Some? && x.txType.value >= 2)
              then multiset(all)[x] else 0
    ensures var last := input.lastPublishedTips;
            && IsTip(input, all, 10, if last.Some? then Some(last.value.slow) else None, tips.slow)
            && IsTip(input, paying, 50, if last.Some? then Some(last.value.standard) else None, tips.standard)
            && IsTip(input, paying, 75, if last.Some? then Some(last.value.fast) else None, tips.fast)
            && IsTip(input, paying, 90, if last.Some? then Some(last.value.instant) else None, tips.instant)
  {
    hide IsPercentile, Capped, PayingLane;
    all := input.ringSamples + input.mempoolSamples;
    paying := SourceOf(input, Instant);
    forall x
      ensures multiset(paying)[x] ==
              if input.priorityModel == Some(Flat) || (x.txType.Some? && x.txType.value >= 2)
              then multiset(all)[x] else 0
    {
      PayingCounts(all, x);
    }
    TipIsSpelled(input, Slow, tips.At(Slow));
    TipIsSpelled(input, Standard, tips.At(Standard));
    TipIsSpelled(input, Fast, tips.At(Fast));
    TipIsSpelled(input, Instant, tips.At(Instant));
  }

  lemma TipIsSpelled(input: TierInput, name: TierName, tip: nat)
    requires TipFor(input, name, tip)
    ensures IsTip(input, SourceOf(input, name), TargetOf(name), AnchorOf(input, name), tip)
  {
    hide IsPercentile, Capped, SourceOf;
  }
}
