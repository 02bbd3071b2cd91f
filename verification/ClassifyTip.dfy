/** Where a tip would land in the live distribution, and on which rung of the ladder. */
module ClassifyTip {
  import opened Wrappers
  import opened Arithmetic
  import opened Samples
  import opened Sequences
  import opened Quantile
  import opened Tiers
  import opened Oracle
  import opened BlockPosition

  datatype ClassifyTipResult = ClassifyTipResult(
    tier: Option<TierName>,
    requiredForNextTier: Option<nat>,
    percentile: int,
    rank: int,
    gasFromTop: int)

  type Ladder = PerTier<TierRecommendation>

  function Floor(tiers: Ladder, name: TierName): nat {
    tiers.At(name).maxPriorityFeePerGas
  }

  /** `name` is the highest rung whose floor the tip clears. */
  predicate IsTierFor(tiers: Ladder, tip: nat, tier: Option<TierName>) {
    match tier
    case None => forall i | 0 <= i < |TIER_LADDER| :: tip < Floor(tiers, TIER_LADDER[i])
    case Some(name) =>
      exists i | 0 <= i < |TIER_LADDER| ::
        && TIER_LADDER[i] == name && tip >= Floor(tiers, name)
        && forall j | i < j < |TIER_LADDER| :: tip < Floor(tiers, TIER_LADDER[j])
  }

  function IndexOf(tier: Option<TierName>): (i: int)
    ensures -1 <= i < |TIER_LADDER|
    ensures tier.Some? ==> i >= 0 && TIER_LADDER[i] == tier.value
  {
    match tier
    case None => -1
    case Some(Slow) => 0
    case Some(Standard) => 1
    case Some(Fast) => 2
    case Some(Instant) => 3
  }

  method TierForTip(tiers: Ladder, tipWei: nat) returns (tier: Option<TierName>)
    ensures IsTierFor(tiers, tipWei, tier)
  {
    var i := |TIER_LADDER| - 1;
    while i >= 0
      invariant -1 <= i < |TIER_LADDER|
      invariant forall j | i < j < |TIER_LADDER| :: tipWei < Floor(tiers, TIER_LADDER[j])
    {
      if tipWei >= Floor(tiers, TIER_LADDER[i]) {
        return Some(TIER_LADDER[i]);
      }
      i := i - 1;
    }
    return None;
  }

  function RequiredForNextTierAbove(tiers: Ladder, current: Option<TierName>): Option<nat> {
    var next := IndexOf(current) + 1;
    if next >= |TIER_LADDER| then None else Some(Floor(tiers, TIER_LADDER[next]))
  }

  function Distribution(snapshot: OracleState): seq<TipSample> {
    RingTips(snapshot.ring) + snapshot.mempoolSamples
  }

  /** The measures the classification reports, none of which mentions an order of the samples. */
  ghost predicate IsClassification(snapshot: OracleState, tip: nat, r: ClassifyTipResult) {
    var samples := Distribution(snapshot);
    && IsTierFor(snapshot.tiers, tip, r.tier)
    && r.requiredForNextTier == RequiredForNextTierAbove(snapshot.tiers, r.tier)
    && r.rank == CountAtLeast(samples, tip + 1)
    && r.gasFromTop == GasAtLeast(samples, tip + 1)
    && r.percentile == if samples == [] then 0 else (r.rank * 100 + |samples| / 2) / |samples|
  }

  /** First index whose tip is at most `tip`; the list length if there is none. */
  method FirstWeaker(sorted: seq<TipSample>, tip: nat) returns (rank: nat)
    requires Ordered(sorted, TipDescending)
    ensures rank <= |sorted|
    ensures rank == CountAtLeast(sorted, tip + 1)
    ensures TotalGas(sorted[..rank]) == GasAtLeast(sorted, tip + 1)
  {
    rank := 0;
    while rank < |sorted| && sorted[rank].tip > tip
      invariant rank <= |sorted|
      invariant forall j | 0 <= j < rank :: sorted[j].tip > tip
    {
      rank := rank + 1;
    }
    AtLeastSplit(sorted, rank, tip + 1);
    AllAtLeast(sorted[..rank], tip + 1);
    var rest := sorted[rank..];
    forall j | 0 <= j < |rest|
      ensures rest[j].tip < tip + 1
    {
      assert j == 0 || TipDescending(sorted[rank], sorted[rank + j]);
    }
    NoneAtLeast(rest, tip + 1);
  }

  method Classify(snapshot: OracleState, tipWei: nat) returns (r: ClassifyTipResult)
    ensures IsClassification(snapshot, tipWei, r)
  {
    var tier := TierForTip(snapshot.tiers, tipWei);
    var requiredForNextTier := RequiredForNextTierAbove(snapshot.tiers, tier);
    var ringTips := CollectTips(snapshot.ring);
    var samples := ringTips + snapshot.mempoolSamples;
    if |samples| == 0 {
      return ClassifyTipResult(tier, requiredForNextTier, 0, 0, 0);
    }
    var sorted := Sort(samples, TipDescending);
    var rank := FirstWeaker(sorted, tipWei);
    AtLeastOrderFree(samples, sorted, tipWei + 1);
    var percentile := (rank * 100 + |samples| / 2) / |samples|;
    var gasFromTop := 0;
    for i := 0 to rank
      invariant gasFromTop == TotalGas(sorted[..i])
    {
      SumSnoc(sorted, i, Gas());
      gasFromTop := gasFromTop + sorted[i].gas;
    }
    r := ClassifyTipResult(tier, requiredForNextTier, percentile, rank, gasFromTop);
  }

  /** The reported percentile is one. */
  lemma PercentileInRange(snapshot: OracleState, tip: nat, r: ClassifyTipResult)
    requires IsClassification(snapshot, tip, r)
    ensures 0 <= r.percentile <= 100
  {
    var samples := Distribution(snapshot);
    if samples != [] {
      AtLeastRange(samples, tip + 1);
      var a := r.rank * 100 + |samples| / 2;
      DivLeast(a, |samples|, 0);
      DivLeast(a, |samples|, 101);
    }
  }

  /** On an ordered ladder the tier is a half-open band: its floor and the next floor bracket the tip. */
  lemma TierIsABand(snapshot: OracleState, tip: nat, r: ClassifyTipResult)
    requires IsClassification(snapshot, tip, r)
    ensures r.tier.Some? ==> Floor(snapshot.tiers, r.tier.value) <= tip
    ensures r.requiredForNextTier.Some? ==> tip < r.requiredForNextTier.value
    ensures r.requiredForNextTier == None <==> r.tier == Some(Instant)
  {
    var i := IndexOf(r.tier);
    if i + 1 < |TIER_LADDER| {
      match r.tier {
        case None =>
        case Some(name) =>
          assert forall j | 0 <= j < |TIER_LADDER| :: TIER_LADDER[j] == name ==> j == i;
      }
    }
  }

  /**
   Position and classification are adjoint. Asking for rank `k` and classifying the answer lands
   at rank `k` or better; classifying a tip and asking for its rank costs at most one wei more.
   */
  lemma PositionThenClassify(
      snapshot: OracleState, k: nat, position: BlockPositionResult, r: ClassifyTipResult)
    requires Answers(Distribution(snapshot), Rank(k), position)
    requires IsClassification(snapshot, position.requiredTip, r)
    ensures r.rank <= k
  {
    hide Answers;
    RankExact(Distribution(snapshot), k, position, position.requiredTip + 1);
  }

  lemma ClassifyThenPosition(
      snapshot: OracleState, tip: nat, r: ClassifyTipResult, position: BlockPositionResult)
    requires IsClassification(snapshot, tip, r)
    requires Answers(Distribution(snapshot), Rank(r.rank), position)
    ensures position.requiredTip <= tip + 1
  {
    hide Answers;
    AtLeastRange(Distribution(snapshot), tip + 1);
    RankExact(Distribution(snapshot), r.rank, position, tip + 1);
  }

  /** The same for gas: the tip that fits a positive gas budget is classified within it. */
  lemma GasPositionThenClassify(
      snapshot: OracleState, g: int, position: BlockPositionResult, r: ClassifyTipResult)
    requires g > 0 && Answers(Distribution(snapshot), GasFromTop(g), position)
    requires IsClassification(snapshot, position.requiredTip, r)
    ensures r.gasFromTop <= g
  {
    hide Answers;
    GasExact(Distribution(snapshot), g, position, position.requiredTip + 1);
  }

  // ----- the report, field by field -----

  /** The part of `samples` that pays more than `tip`. */
  ghost predicate IsDearer(samples: seq<TipSample>, tip: nat, above: seq<TipSample>) {
    forall x :: multiset(above)[x] == if x.tip > tip then multiset(samples)[x] else 0
  }

  lemma {:induction false} DearerPart(samples: seq<TipSample>, tip: nat) returns (above: seq<TipSample>)
    ensures IsDearer(samples, tip, above)
    ensures |above| == CountAtLeast(samples, tip + 1) && TotalGas(above) == GasAtLeast(samples, tip + 1)
  {
    if samples == [] {
      above := [];
    } else {
      var rest := DearerPart(samples[1..], tip);
      above := if samples[0].tip > tip then [samples[0]] + rest else rest;
      assert samples == [samples[0]] + samples[1..];
      assert samples[0].tip > tip ==> above[1..] == rest;
    }
  }

  /**
   Every field of a classification: the samples of the whole ring and the mempool that pay more, counted and
   weighed, the share of them rounded to the nearest percent, the highest rung reached and the price of the next.
   */
  lemma ClassificationSpelled(snapshot: OracleState, tip: nat, r: ClassifyTipResult)
    returns (all: seq<TipSample>, above: seq<TipSample>)
    requires IsClassification(snapshot, tip, r)
    ensures multiset(all) == AllTips(snapshot.ring) + multiset(snapshot.mempoolSamples)
    ensures IsDearer(all, tip, above) && r.rank == |above| && r.gasFromTop == TotalGas(above)
    ensures all == [] ==> r.percentile == 0
    ensures all != [] ==> |all| * r.percentile <= 100 * |above| + |all| / 2 < |all| * (r.percentile + 1)
    ensures var t := snapshot.tiers;
            && r.tier == (if tip >= t.instant.maxPriorityFeePerGas then Some(Instant)
                          else if tip >= t.fast.maxPriorityFeePerGas then Some(Fast)
                          else if tip >= t.standard.maxPriorityFeePerGas then Some(Standard)
                          else if tip >= t.slow.maxPriorityFeePerGas then Some(Slow) else None)
            && r.requiredForNextTier == match r.tier
                                        case None => Some(t.slow.maxPriorityFeePerGas)
                                        case Some(Slow) => Some(t.standard.maxPriorityFeePerGas)
                                        case Some(Standard) => Some(t.fast.maxPriorityFeePerGas)
                                        case Some(Fast) => Some(t.instant.maxPriorityFeePerGas)
                                        case Some(Instant) => None
  {
    hide IsDearer, AllTips, IsTierFor, RingTips, CountAtLeast, GasAtLeast;
    all := Distribution(snapshot);
    RingTipsCount(snapshot.ring);
    above := DearerPart(all, tip);
    if all != [] {
      RoundedShare(r.rank, |all|);
    }
    TierSpelled(snapshot.tiers, tip, r.tier);
  }

  lemma RoundedShare(rank: int, n: nat)
    requires n > 0
    ensures var p := (rank * 100 + n / 2) / n;
            n * p <= 100 * rank + n / 2 < n * (p + 1)
  {
    var p := (rank * 100 + n / 2) / n;
    DivBounds(rank * 100 + n / 2, n);
    assert n * (p + 1) == n * p + n;
  }

  lemma TierSpelled(t: Ladder, tip: nat, tier: Option<TierName>)
    requires IsTierFor(t, tip, tier)
    ensures tier == (if tip >= t.instant.maxPriorityFeePerGas then Some(Instant)
                     else if tip >= t.fast.maxPriorityFeePerGas then Some(Fast)
                     else if tip >= t.standard.maxPriorityFeePerGas then Some(Standard)
                     else if tip >= t.slow.maxPriorityFeePerGas then Some(Slow) else None)
  {
    assert TIER_LADDER[0] == Slow && TIER_LADDER[1] == Standard && TIER_LADDER[2] == Fast && TIER_LADDER[3] == Instant;
    assert Floor(t, Slow) == t.slow.maxPriorityFeePerGas && Floor(t, Standard) == t.standard.maxPriorityFeePerGas;
    assert Floor(t, Fast) == t.fast.maxPriorityFeePerGas && Floor(t, Instant) == t.instant.maxPriorityFeePerGas;
  }
}
