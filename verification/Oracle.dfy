/** The oracle's state across polls: ring, tiers and the anchor of the decay cap. */
module Oracle {
  import opened Wrappers
  import opened Samples
  import opened Sequences
  import opened Quantile
  import opened Ring
  import opened GapBridge
  import opened RingInvariant
  import opened BlobFee
  import Decay
  import opened Headroom
  import opened Tiers

  const TREND_WINDOW: nat := 5
  const DEFAULT_RING_WINDOW_BLOCKS: int := 20

  /** Fixed at construction. */
  datatype Config = Config(
    ringWindowBlocks: Option<int>,
    decayCap: CapSetting,
    priorityModel: Option<PriorityModel>,
    livenessBlocks: Option<int>)

  datatype PollInputs = PollInputs(
    block: BlockResult,
    baseFeeHistory: Option<seq<nat>>,
    mempoolSamples: seq<TipSample>)

  datatype BlobStats = BlobStats(blobBaseFee: nat, excessBlobGas: nat, blobBaseFeeTrend: Trend)

  datatype OracleState = OracleState(
    blockNumber: int,
    baseFee: nat,
    baseFeeTrend: Trend,
    blob: Option<BlobStats>,
    tiers: PerTier<TierRecommendation>,
    ring: seq<BlockSample>,
    lastReorg: Option<ReorgEvent>,
    mempoolSamples: seq<TipSample>,
    lastPublishedTips: PerTier<nat>,
    lastPublishedBlockNumber: int)

  predicate ValidConfig(c: Config) {
    ValidCap(c.decayCap) && (c.livenessBlocks.Some? ==> c.livenessBlocks.value >= 1)
  }

  function WindowOf(c: Config): int {
    c.ringWindowBlocks.GetOr(DEFAULT_RING_WINDOW_BLOCKS)
  }

  function RingOf(prev: Option<OracleState>): seq<BlockSample> {
    match prev
    case None => []
    case Some(s) => s.ring
  }

  function ReorgOf(prev: Option<OracleState>): Option<ReorgEvent> {
    match prev
    case None => None
    case Some(s) => s.lastReorg
  }

  function TrendOf(inputs: PollInputs): Trend {
    DetectTrend(LastN(inputs.baseFeeHistory.GetOr([inputs.block.baseFee]), TREND_WINDOW))
  }

  function RingTips(ring: seq<BlockSample>): seq<TipSample> {
    if ring == [] then [] else ring[0].tips + RingTips(ring[1..])
  }

  ghost predicate BlobFor(prev: Option<OracleState>, block: BlockResult, blob: Option<BlobStats>) {
    match block.excessBlobGas
    case None => blob == None
    case Some(excess) =>
      && blob.Some? && blob.value.excessBlobGas == excess
      && FakeExponential(1, excess, BLOB_BASE_FEE_UPDATE_FRACTION, blob.value.blobBaseFee)
      && blob.value.blobBaseFeeTrend == DetectTrend(
           if prev.Some? && prev.value.blob.Some?
           then [prev.value.blob.value.blobBaseFee, blob.value.blobBaseFee]
           else [blob.value.blobBaseFee])
  }

  function TierInputOf(
      c: Config, prev: Option<OracleState>, inputs: PollInputs, ring: seq<BlockSample>,
      blob: Option<BlobStats>): TierInput
  {
    TierInput(
      RingTips(ring),
      inputs.mempoolSamples,
      inputs.block.baseFee,
      TrendOf(inputs),
      if blob.None? then None else Some((blob.value.blobBaseFee, blob.value.blobBaseFeeTrend)),
      inputs.block.number,
      if prev.None? then None else Some(prev.value.lastPublishedTips),
      if prev.None? then None else Some(prev.value.lastPublishedBlockNumber),
      c.decayCap, c.priorityModel, c.livenessBlocks)
  }

  /** `next` is the state the reducer publishes. */
  ghost predicate Reduces(
      c: Config, prev: Option<OracleState>, inputs: PollInputs, historical: seq<BlockResult>,
      next: OracleState)
  {
    && (next.ring, next.lastReorg) == IncorporateAll(
         RingOf(prev), ToSamples(historical + [inputs.block]), WindowOf(c), ReorgOf(prev))
    && BlobFor(prev, inputs.block, next.blob)
    && TiersFor(TierInputOf(c, prev, inputs, next.ring, next.blob), next.tiers, next.lastPublishedTips)
    && next.blockNumber == next.lastPublishedBlockNumber == inputs.block.number
    && next.baseFee == inputs.block.baseFee
    && next.baseFeeTrend == TrendOf(inputs)
    && next.mempoolSamples == inputs.mempoolSamples
  }

  method CollectTips(ring: seq<BlockSample>) returns (tips: seq<TipSample>)
    ensures tips == RingTips(ring)
  {
    tips := [];
    for i := 0 to |ring|
      invariant tips + RingTips(ring[i..]) == RingTips(ring)
    {
      assert ring[i..][1..] == ring[i + 1..];
      assert tips + (ring[i].tips + RingTips(ring[i + 1..])) == tips + ring[i].tips + RingTips(ring[i + 1..]);
      tips := tips + ring[i].tips;
    }
  }

  method ReducePollInputs(
      c: Config, prev: Option<OracleState>, inputs: PollInputs, historical: seq<BlockResult>)
    returns (next: OracleState)
    ensures Reduces(c, prev, inputs, historical, next)
  {
    hide IncorporateAll, TiersFor, FakeExponential, DetectTrend;
    var block := inputs.block;
    var baseFeeHistory := if inputs.baseFeeHistory.Some? then inputs.baseFeeHistory.value else [block.baseFee];
    var baseFeeTrend := DetectTrend(LastN(baseFeeHistory, TREND_WINDOW));
    var ringWindow := c.ringWindowBlocks.GetOr(DEFAULT_RING_WINDOW_BLOCKS);
    var ring, lastReorg := FoldBlocks(RingOf(prev), historical, block, ringWindow, ReorgOf(prev));
    var ringSamples := CollectTips(ring);
    var blob := ReadBlob(prev, block);
    var tiers, publishedTips := ComputeTiers(TierInputOf(c, prev, inputs, ring, blob));
    next := OracleState(
      block.number, block.baseFee, baseFeeTrend, blob, tiers, ring, lastReorg,
      inputs.mempoolSamples, publishedTips, block.number);
  }

  method ReadBlob(prev: Option<OracleState>, block: BlockResult) returns (blob: Option<BlobStats>)
    ensures BlobFor(prev, block, blob)
  {
    if block.excessBlobGas.None? {
      return None;
    }
    var fee := ComputeBlobBaseFee(block.excessBlobGas.value);
    var history := if prev.Some? && prev.value.blob.Some?
                   then [prev.value.blob.value.blobBaseFee, fee] else [fee];
    blob := Some(BlobStats(fee, block.excessBlobGas.value, DetectTrend(history)));
  }

  // ----- invariants of a poll -----

  predicate FlatModel(c: Config) {
    c.priorityModel == Some(Flat)
  }

  predicate LadderOrdered(c: Config, s: OracleState) {
    OrderedTips(s.lastPublishedTips, FlatModel(c))
  }

  lemma ReduceKeepsLadder(
      c: Config, prev: Option<OracleState>, inputs: PollInputs, historical: seq<BlockResult>,
      next: OracleState)
    requires Reduces(c, prev, inputs, historical, next)
    requires prev.Some? ==> LadderOrdered(c, prev.value)
    ensures LadderOrdered(c, next)
  {
    hide TiersFor, IncorporateAll;
    TiersKeepOrder(
      TierInputOf(c, prev, inputs, next.ring, next.blob), next.tiers, next.lastPublishedTips,
      FlatModel(c));
  }

  lemma {:induction false} RingIgnoresReorgEvent(
      ring: seq<BlockSample>, bs: seq<BlockSample>, window: int, e: Option<ReorgEvent>, f: Option<ReorgEvent>)
    ensures IncorporateAll(ring, bs, window, e).0 == IncorporateAll(ring, bs, window, f).0
    decreases |bs|
  {
    hide Incorporate;
    if bs == [] {
    } else {
      var m := Incorporate(ring, bs[0], window);
      RingIgnoresReorgEvent(
        m.ring, bs[1..], window, if m.reorg.Some? then m.reorg else e, if m.reorg.Some? then m.reorg else f);
    }
  }

  /** The oracle's own poll is the step that `RingInvariant` reasons about. */
  lemma ReduceIsStep(
      c: Config, prev: Option<OracleState>, inputs: PollInputs,
      byNumber: int -> Option<BlockResult>, byHash: Hash -> Option<BlockResult>, next: OracleState)
    requires Reduces(c, prev, inputs, GapBridge.Bridge(RingOf(prev), inputs.block, WindowOf(c), byNumber, byHash), next)
    ensures next.ring == StepRing(RingOf(prev), inputs.block, WindowOf(c), byNumber, byHash)
  {
    hide IncorporateAll, TiersFor, BlobFor;
    RingIgnoresReorgEvent(
      RingOf(prev), Incoming(RingOf(prev), inputs.block, WindowOf(c), byNumber, byHash), WindowOf(c),
      ReorgOf(prev), None);
  }

  /**
   The oracle object. One poll (bridge, then reduce) is one atomic method call. The ghost
   parameters describe the chain behind the lookups.
   */
  class GasOracle {
    const config: Config
    var state: Option<OracleState>

    ghost predicate Valid()
      reads this
    {
      && ValidConfig(config)
      && (state.Some? ==> LadderOrdered(config, state.value) && Capped(state.value.ring, WindowOf(config)))
    }

    constructor (config: Config)
      requires ValidConfig(config)
      ensures Valid() && this.config == config && state == None
    {
      this.config := config;
      state := None;
    }

    method HandleBlock(
        inputs: PollInputs, byNumber: int -> Option<BlockResult>, byHash: Hash -> Option<BlockResult>,
        ghost u: iset<BlockSample>, ghost genesis: int)
      requires Valid()
      modifies this
      ensures Valid() && state.Some?
      ensures Reduces(config, old(state), inputs,
                      GapBridge.Bridge(RingOf(old(state)), inputs.block, WindowOf(config), byNumber, byHash),
                      state.value)
      ensures Consistent(u) && HonestPoll(Poll(inputs.block, byNumber, byHash), WindowOf(config), u, genesis)
           && ValidRing(RingOf(old(state)), WindowOf(config), u)
           ==> ValidRing(state.value.ring, WindowOf(config), u)
               && ToSample(inputs.block) in state.value.ring
    {
      hide TiersFor, IncorporateAll, BlobFor, HonestPoll, Consistent, ValidRing;
      var window := config.ringWindowBlocks.GetOr(DEFAULT_RING_WINDOW_BLOCKS);
      var historical := BridgeGap(RingOf(state), inputs.block, window, byNumber, byHash);
      var next := ReducePollInputs(config, state, inputs, historical);
      ReduceKeepsLadder(config, state, inputs, historical, next);
      ReduceKeepsCap(config, state, inputs, historical, next);
      ReduceIsStep(config, state, inputs, byNumber, byHash, next);
      if Consistent(u) && HonestPoll(Poll(inputs.block, byNumber, byHash), window, u, genesis)
         && ValidRing(RingOf(state), window, u) {
        HonestStep(RingOf(state), Poll(inputs.block, byNumber, byHash), window, u, genesis);
      }
      state := Some(next);
    }

    /** An on-demand poll; without a latest block nothing changes. */
    method PollOnce(
        inputs: Option<PollInputs>, byNumber: int -> Option<BlockResult>,
        byHash: Hash -> Option<BlockResult>, ghost u: iset<BlockSample>, ghost genesis: int)
      returns (published: Option<OracleState>)
      requires Valid()
      modifies this
      ensures Valid()
      ensures inputs.None? ==> published == None && state == old(state)
      ensures inputs.Some? ==>
                published == state && state.Some?
                && Reduces(config, old(state), inputs.value,
                           GapBridge.Bridge(RingOf(old(state)), inputs.value.block, WindowOf(config), byNumber, byHash),
                           state.value)
      ensures inputs.Some? && Consistent(u)
           && HonestPoll(Poll(inputs.value.block, byNumber, byHash), WindowOf(config), u, genesis)
           && ValidRing(RingOf(old(state)), WindowOf(config), u)
           ==> ValidRing(state.value.ring, WindowOf(config), u)
               && ToSample(inputs.value.block) in state.value.ring
    {
      hide HonestPoll, Consistent, ValidRing, Reduces;
      if inputs.None? {
        return None;
      }
      HandleBlock(inputs.value, byNumber, byHash, u, genesis);
      published := state;
    }

    method Stop()
      requires Valid()
      modifies this
      ensures Valid() && state == None
    {
      state := None;
    }
  }

  datatype RequestedCap = Unset | NoCap | Wad(wad: int)

  /** What a caller asks for; the liveness is a JavaScript number and need not be whole. */
  datatype Options = Options(
    source: bool,
    client: bool,
    ringWindowBlocks: Option<int>,
    decayCap: RequestedCap,
    priorityModel: Option<PriorityModel>,
    livenessBlocks: Option<real>)

  datatype OptionError = BothUpstreams | NoUpstream | BadDecayCap | BadLiveness

  /**
   Options are refused for their upstreams first, then the cap, then the liveness; accepted ones are
   used as given.
   */
  method CreateGasOracle(o: Options) returns (r: Result<GasOracle, OptionError>)
    ensures r == Err(BothUpstreams) <==> o.source && o.client
    ensures r == Err(NoUpstream) <==> !o.source && !o.client
    ensures r == Err(BadDecayCap) <==>
            o.source != o.client && o.decayCap.Wad? && !(0 <= o.decayCap.wad <= 1_000_000_000_000_000_000)
    ensures r == Err(BadLiveness) <==>
            && o.source != o.client && (o.decayCap.Wad? ==> 0 <= o.decayCap.wad <= 1_000_000_000_000_000_000)
            && o.livenessBlocks.Some?
            && !(o.livenessBlocks.value >= 1.0 && o.livenessBlocks.value == o.livenessBlocks.value.Floor as real)
    ensures r.Ok? ==>
              && fresh(r.value) && r.value.Valid() && r.value.state == None
              && r.value.config.ringWindowBlocks == o.ringWindowBlocks
              && r.value.config.priorityModel == o.priorityModel
              && r.value.config.livenessBlocks.Some? == o.livenessBlocks.Some?
              && (o.livenessBlocks.Some? ==>
                    r.value.config.livenessBlocks.value as real == o.livenessBlocks.value)
              && r.value.config.decayCap
                 == match o.decayCap case Unset => DefaultCap case NoCap => Uncapped case Wad(w) => Cap(w)
  {
    if o.source && o.client {
      return Err(BothUpstreams);
    }
    if !o.source && !o.client {
      return Err(NoUpstream);
    }
    if o.decayCap.Wad? && (o.decayCap.wad < 0 || o.decayCap.wad > Decay.WAD) {
      return Err(BadDecayCap);
    }
    if o.livenessBlocks.Some?
       && (o.livenessBlocks.value != o.livenessBlocks.value.Floor as real || o.livenessBlocks.value < 1.0) {
      return Err(BadLiveness);
    }
    var cap := match o.decayCap case Unset => DefaultCap case NoCap => Uncapped case Wad(w) => Cap(w);
    var liveness := if o.livenessBlocks.Some? then Some(o.livenessBlocks.value.Floor) else None;
    var oracle := new GasOracle(Config(o.ringWindowBlocks, cap, o.priorityModel, liveness));
    r := Ok(oracle);
  }

  lemma HonestStep(ring: seq<BlockSample>, p: Poll, window: int, u: iset<BlockSample>, genesis: int)
    requires Consistent(u) && HonestPoll(p, window, u, genesis) && ValidRing(ring, window, u)
    ensures var r := StepRing(ring, p.block, window, p.byNumber, p.byHash);
            ValidRing(r, window, u) && ToSample(p.block) in r
  {
    hide StepRing;
    StepKeepsLinked(ring, p.block, window, p.byNumber, p.byHash, u, genesis);
  }

  lemma {:induction false} FoldKeepsCap(
      ring: seq<BlockSample>, bs: seq<BlockSample>, window: int, e: Option<ReorgEvent>)
    requires Capped(ring, window)
    ensures Capped(IncorporateAll(ring, bs, window, e).0, window)
    decreases |bs|
  {
    if bs == [] {
    } else {
      var m := Incorporate(ring, bs[0], window);
      assert Capped(m.ring, window);
      FoldKeepsCap(m.ring, bs[1..], window, if m.reorg.Some? then m.reorg else e);
    }
  }

  lemma ReduceKeepsCap(
      c: Config, prev: Option<OracleState>, inputs: PollInputs, historical: seq<BlockResult>,
      next: OracleState)
    requires Reduces(c, prev, inputs, historical, next)
    requires Capped(RingOf(prev), WindowOf(c))
    ensures Capped(next.ring, WindowOf(c))
  {
    hide TiersFor, BlobFor;
    FoldKeepsCap(RingOf(prev), ToSamples(historical + [inputs.block]), WindowOf(c), ReorgOf(prev));
  }

  // ----- whole runs -----

  function Before(states: seq<OracleState>, i: nat): Option<OracleState>
    requires i <= |states|
  {
    if i == 0 then None else Some(states[i - 1])
  }

  /** States published one after another from a fresh oracle under one configuration. */
  ghost predicate IsRun(
      c: Config, inputs: seq<PollInputs>, bridges: seq<seq<BlockResult>>, states: seq<OracleState>)
  {
    && |inputs| == |bridges| == |states|
    && forall i | 0 <= i < |states| ::
         Reduces(c, Before(states, i), inputs[i], bridges[i], states[i])
  }

  /** All three prices rise along the ladder; `slow` is only held to it in the flat model. */
  predicate LadderPrices(t: PerTier<TierRecommendation>, flat: bool) {
    && t.standard.maxPriorityFeePerGas <= t.fast.maxPriorityFeePerGas <= t.instant.maxPriorityFeePerGas
    && t.standard.maxFeePerGas <= t.fast.maxFeePerGas <= t.instant.maxFeePerGas
    && t.standard.gasPrice <= t.fast.gasPrice <= t.instant.gasPrice
    && (flat ==>
          && t.slow.maxPriorityFeePerGas <= t.standard.maxPriorityFeePerGas
          && t.slow.maxFeePerGas <= t.standard.maxFeePerGas
          && t.slow.gasPrice <= t.standard.gasPrice)
  }

  /**
   In every run the published ladder is in order at every poll, for tips, fee caps and gas prices:
   standard <= fast <= instant always, and slow <= standard in the flat model.
   */
  lemma {:induction false} RunKeepsLadder(
      c: Config, inputs: seq<PollInputs>, bridges: seq<seq<BlockResult>>, states: seq<OracleState>, i: nat)
    requires IsRun(c, inputs, bridges, states) && i < |states|
    ensures LadderPrices(states[i].tiers, FlatModel(c))
    ensures LadderOrdered(c, states[i])
  {
    hide Reduces, LadderOrdered;
    var prev := Before(states, i);
    if i == 0 {
    } else {
      RunKeepsLadder(c, inputs, bridges, states, i - 1);
    }
    var s := states[i];
    assert Reduces(c, prev, inputs[i], bridges[i], s);
    ReduceKeepsLadder(c, prev, inputs[i], bridges[i], s);
    LadderAt(c, prev, inputs[i], bridges[i], s);
  }

  lemma LadderAt(
      c: Config, prev: Option<OracleState>, inputs: PollInputs, historical: seq<BlockResult>, s: OracleState)
    requires Reduces(c, prev, inputs, historical, s) && LadderOrdered(c, s)
    ensures LadderPrices(s.tiers, FlatModel(c))
  {
    hide TiersFor, IncorporateAll, BlobFor;
    LadderFees(TierInputOf(c, prev, inputs, s.ring, s.blob), s.tiers, s.lastPublishedTips, FlatModel(c));
  }

  lemma LadderFees(
      input: TierInput, t: PerTier<TierRecommendation>, tips: PerTier<nat>, flat: bool)
    requires TiersFor(input, t, tips) && OrderedTips(tips, flat)
    ensures LadderPrices(t, flat)
  {
    hide TiersFor;
    FeesFollowTips(input, t, tips, Slow, Standard);
    FeesFollowTips(input, t, tips, Standard, Fast);
    FeesFollowTips(input, t, tips, Fast, Instant);
  }

  // ----- slow against standard, over runs -----

  /** A first block that carries the samples on which `slow` and `standard` part ways. */
  const SPLIT_BLOCK: BlockResult := BlockResult(1, Some(Hash(1)), Some(Hash(0)), 7, 0, None, [LEGACY, MODERN])

  lemma SplitPoll(c: Config) returns (inputs: PollInputs, s: OracleState)
    requires !FlatModel(c)
    ensures Reduces(c, None, inputs, [], s)
    ensures s.tiers.slow.maxPriorityFeePerGas == 100
    ensures forall name | name != Slow :: s.tiers.At(name).maxPriorityFeePerGas == 1
  {
    hide IsPercentile, Buffered, TiersFor;
    inputs := PollInputs(SPLIT_BLOCK, None, []);
    var b := ToSample(SPLIT_BLOCK);
    var input := TierInputOf(c, None, inputs, [b], None);
    assert RingTips([b]) == [LEGACY, MODERN] by {
      assert [b][1..] == [] && RingTips([]) == [];
    }
    assert input.ringSamples + input.mempoolSamples == [LEGACY, MODERN];
    var tiers, tips := SlowMayExceedStandard(input);
    TiersCarryTips(input, tiers, tips);
    assert tiers.At(Slow).maxPriorityFeePerGas == 100;
    s := OracleState(1, 7, TrendOf(inputs), None, tiers, [b], None, [], tips, 1);
    assert ToSamples([] + [SPLIT_BLOCK]) == [b];
    assert IncorporateAll([], [b], WindowOf(c), None) == ([b], None) by {
      assert Incorporate([], b, WindowOf(c)) == RingMutation([b], None, false);
      assert [b][1..] == [];
    }
  }

  lemma TiersCarryTips(input: TierInput, tiers: PerTier<TierRecommendation>, tips: PerTier<nat>)
    requires TiersFor(input, tiers, tips)
    ensures forall name: TierName :: tiers.At(name).maxPriorityFeePerGas == tips.At(name)
  {
    hide TipFor, Buffered;
    forall name: TierName
      ensures tiers.At(name).maxPriorityFeePerGas == tips.At(name)
    {
      assert tiers.At(name) == Recommend(input, tips.At(name));
    }
  }

  /** Under a configuration `slow` stays at or below `standard` in every run if and only if its model is flat. */
  lemma SlowBelowStandardInRunsIff(c: Config)
    ensures (forall inputs, bridges, states: seq<OracleState>, i: nat |
               IsRun(c, inputs, bridges, states) && i < |states| ::
               states[i].tiers.slow.maxPriorityFeePerGas <= states[i].tiers.standard.maxPriorityFeePerGas)
        <==> FlatModel(c)
  {
    hide Reduces;
    if FlatModel(c) {
      forall inputs, bridges, states: seq<OracleState>, i: nat | IsRun(c, inputs, bridges, states) && i < |states|
        ensures states[i].tiers.slow.maxPriorityFeePerGas <= states[i].tiers.standard.maxPriorityFeePerGas
      {
        RunKeepsLadder(c, inputs, bridges, states, i);
      }
    } else {
      var inputs, s := SplitPoll(c);
      var states := [s];
      assert Before(states, 0) == None;
      assert IsRun(c, [inputs], [[]], states);
      assert s.tiers.At(Standard).maxPriorityFeePerGas == 1;
      assert states[0].tiers.slow.maxPriorityFeePerGas > states[0].tiers.standard.maxPriorityFeePerGas;
    }
  }

  // ----- a poll, spelled out -----

  /** The samples of every block of the ring, as often as the blocks carry them. */
  ghost function AllTips(ring: seq<BlockSample>): multiset<TipSample> {
    if ring == [] then multiset{}
    else AllTips(ring[..|ring| - 1]) + multiset(ring[|ring| - 1].tips)
  }

  lemma {:induction false} RingTipsCount(ring: seq<BlockSample>)
    ensures multiset(RingTips(ring)) == AllTips(ring)
  {
    if ring == [] {
    } else {
      var init, last := ring[..|ring| - 1], ring[|ring| - 1];
      RingTipsCount(init);
      RingTipsSnoc(init, last);
      assert ring == init + [last];
    }
  }

  lemma {:induction false} RingTipsSnoc(ring: seq<BlockSample>, b: BlockSample)
    ensures RingTips(ring + [b]) == RingTips(ring) + b.tips
  {
    if ring == [] {
      assert [b][1..] == [] && ring + [b] == [b];
      assert RingTips([]) == [];
      assert RingTips([b]) == b.tips + [];
    } else {
      assert (ring + [b])[1..] == ring[1..] + [b];
      RingTipsSnoc(ring[1..], b);
      assert ring[0].tips + (RingTips(ring[1..]) + b.tips) == RingTips(ring) + b.tips;
    }
  }

  /** `tip` is the percentile of `samples`, held up by the same tier's last tip under the configured cap. */
  ghost predicate IsPublishedTip(
      c: Config, prev: Option<OracleState>, block: int, samples: seq<TipSample>, percentile: nat,
      last: Option<nat>, tip: nat)
  {
    exists raw: nat ::
      && IsPercentile(samples, percentile, raw)
      && tip == Decay.Capped(raw, block, last, if prev.Some? then Some(prev.value.lastPublishedBlockNumber) else None,
                             CapWad(c.decayCap))
  }

  /**
   The four tips of `s`, from one distribution: `all` holds the samples of every block of the ring and of the
   mempool, `paying` those of type 2 and above, or all of them in the flat model. `slow` is the tenth percentile
   of `all`, the others are the 50th, 75th and 90th of `paying`.
   */
  ghost predicate TipsAre(
      c: Config, prev: Option<OracleState>, s: OracleState, all: seq<TipSample>, paying: seq<TipSample>)
  {
    var tips, at := s.lastPublishedTips, s.blockNumber;
    && multiset(all) == AllTips(s.ring) + multiset(s.mempoolSamples)
    && (forall x :: multiset(paying)[x] ==
          if c.priorityModel == Some(Flat) || (x.txType.Some? && x.txType.value >= 2) then multiset(all)[x] else 0)
    && match prev
       case None =>
         && IsPublishedTip(c, prev, at, all, 10, None, tips.slow)
         && IsPublishedTip(c, prev, at, paying, 50, None, tips.standard)
         && IsPublishedTip(c, prev, at, paying, 75, None, tips.fast)
         && IsPublishedTip(c, prev, at, paying, 90, None, tips.instant)
       case Some(p) =>
         var last := p.lastPublishedTips;
         && IsPublishedTip(c, prev, at, all, 10, Some(last.slow), tips.slow)
         && IsPublishedTip(c, prev, at, paying, 50, Some(last.standard), tips.standard)
         && IsPublishedTip(c, prev, at, paying, 75, Some(last.fast), tips.fast)
         && IsPublishedTip(c, prev, at, paying, 90, Some(last.instant), tips.instant)
  }

  /** The tips of one poll, with the distribution they are read off. */
  lemma PollTips(
      c: Config, prev: Option<OracleState>, inputs: PollInputs, historical: seq<BlockResult>, next: OracleState)
    returns (all: seq<TipSample>, paying: seq<TipSample>)
    requires Reduces(c, prev, inputs, historical, next)
    ensures TipsAre(c, prev, next, all, paying)
  {
    hide IncorporateAll, BlobFor, TiersFor, IsPercentile, Decay.Capped;
    all, paying := TipsSpelled(
      TierInputOf(c, prev, inputs, next.ring, next.blob), next.tiers, next.lastPublishedTips);
    RingTipsCount(next.ring);
  }

  /** The move that makes a trend: eleven hundredths of the first value, or anything above zero. */
  function TrendBetween(first: nat, last: nat): Trend {
    if first == 0 then if last > 0 then Rising else Stable
    else if 100 * last >= 111 * first then Rising
    else if 100 * last <= 89 * first then Falling
    else Stable
  }

  lemma DetectTrendSpelled(history: seq<nat>)
    ensures DetectTrend(history) ==
              if |history| < 2 then Stable else TrendBetween(history[0], history[|history| - 1])
  {
    if |history| >= 2 && history[0] > 0 {
      TrendThresholdIsEleven(history);
    }
    TrendWithoutBase(history);
  }

  /** The fees of a tier published with `tip`, from the published base and blob fees and their trends. */
  ghost predicate IsPublished(c: Config, s: OracleState, t: TierRecommendation, tip: nat) {
    var n := WantedBlocks(c.livenessBlocks);
    && t.maxPriorityFeePerGas == tip
    && t.gasPrice == s.baseFee + tip
    && IsBuffered(s.baseFee, s.baseFeeTrend, n, t.maxFeePerGas - tip)
    && match s.blob
       case None => t.maxFeePerBlobGas == None
       case Some(blob) =>
         && t.maxFeePerBlobGas.Some?
         && IsBuffered(blob.blobBaseFee, blob.blobBaseFeeTrend, n, t.maxFeePerBlobGas.value)
  }

  /** Every fee of every tier. */
  ghost predicate FeesAre(c: Config, s: OracleState) {
    && IsPublished(c, s, s.tiers.slow, s.lastPublishedTips.slow)
    && IsPublished(c, s, s.tiers.standard, s.lastPublishedTips.standard)
    && IsPublished(c, s, s.tiers.fast, s.lastPublishedTips.fast)
    && IsPublished(c, s, s.tiers.instant, s.lastPublishedTips.instant)
  }

  /**
   The rest of a state: the block as polled, the trend over the last five base fees, the blob fee of its excess
   with the trend since the last poll.
   */
  ghost predicate HeadIs(prev: Option<OracleState>, inputs: PollInputs, s: OracleState) {
    && s.blockNumber == s.lastPublishedBlockNumber == inputs.block.number
    && s.baseFee == inputs.block.baseFee && s.mempoolSamples == inputs.mempoolSamples
    && (match inputs.baseFeeHistory
        case None => s.baseFeeTrend == Stable
        case Some(h) =>
          s.baseFeeTrend ==
          if |h| < 2 then Stable else TrendBetween(if |h| > 5 then h[|h| - 5] else h[0], h[|h| - 1]))
    && match inputs.block.excessBlobGas
       case None => s.blob == None
       case Some(excess) =>
         && s.blob.Some? && s.blob.value.excessBlobGas == excess
         && FakeExponential(1, excess, 3338477, s.blob.value.blobBaseFee)
         && s.blob.value.blobBaseFeeTrend ==
            if prev.Some? && prev.value.blob.Some?
            then TrendBetween(prev.value.blob.value.blobBaseFee, s.blob.value.blobBaseFee) else Stable
  }

  /** The fetched blocks and then the new one are folded into the last ring, under a window of 20 if none is given. */
  ghost predicate RingIs(
      c: Config, prev: Option<OracleState>, inputs: PollInputs, historical: seq<BlockResult>, s: OracleState)
  {
    var blocks := ToSamples(historical + [inputs.block]);
    var window := match c.ringWindowBlocks case None => 20 case Some(w) => w;
    match prev
    case None => (s.ring, s.lastReorg) == IncorporateAll([], blocks, window, None)
    case Some(p) => (s.ring, s.lastReorg) == IncorporateAll(p.ring, blocks, window, p.lastReorg)
  }

  lemma PollFees(
      c: Config, prev: Option<OracleState>, inputs: PollInputs, historical: seq<BlockResult>, next: OracleState)
    requires Reduces(c, prev, inputs, historical, next)
    ensures RingIs(c, prev, inputs, historical, next) && HeadIs(prev, inputs, next) && FeesAre(c, next)
  {
    hide IncorporateAll, TiersFor, DetectTrend, FakeExponential, IsBuffered, TrendBetween;
    var h := inputs.baseFeeHistory.GetOr([inputs.block.baseFee]);
    DetectTrendSpelled(LastN(h, 5));
    if next.blob.Some? {
      var fee := next.blob.value.blobBaseFee;
      DetectTrendSpelled([fee]);
      if prev.Some? && prev.value.blob.Some? {
        DetectTrendSpelled([prev.value.blob.value.blobBaseFee, fee]);
      }
    }
    FeesSpelled(TierInputOf(c, prev, inputs, next.ring, next.blob), next.tiers, next.lastPublishedTips);
  }

  /** All of that holds at every poll of every run, each anchored on the poll before it. */
  lemma RunPublishes(
      c: Config, inputs: seq<PollInputs>, bridges: seq<seq<BlockResult>>, states: seq<OracleState>, i: nat)
    returns (all: seq<TipSample>, paying: seq<TipSample>)
    requires IsRun(c, inputs, bridges, states) && i < |states|
    ensures var prev := if i == 0 then None else Some(states[i - 1]);
            && TipsAre(c, prev, states[i], all, paying)
            && RingIs(c, prev, inputs[i], bridges[i], states[i])
            && HeadIs(prev, inputs[i], states[i])
            && FeesAre(c, states[i])
  {
    hide Reduces, TipsAre, RingIs, HeadIs, FeesAre;
    var prev := Before(states, i);
    assert Reduces(c, prev, inputs[i], bridges[i], states[i]);
    all, paying := PollTips(c, prev, inputs[i], bridges[i], states[i]);
    PollFees(c, prev, inputs[i], bridges[i], states[i]);
  }
}
