/** Same-nonce replacement: the protocol's fee floor and the tier to bump to. */
module Replacement {
  import opened Wrappers
  import opened Arithmetic
  import opened Samples
  import opened Sequences
  import opened Quantile
  import opened Tiers
  import opened Oracle
  import opened BlockPosition
  import opened ClassifyTip

  const DEFAULT_BUMP_PERCENT: nat := 10
  const BLOB_BUMP_PERCENT: nat := 100
  const BLOB_TX_TYPE: nat := 3

  datatype ReplacementGas = ReplacementGas(maxFeePerGas: nat, maxPriorityFeePerGas: nat)

  datatype BumpStrategy = CheapestThatLands | OneStepFasterThanRecommended | ToInstant

  function BumpPercent(txType: nat): nat {
    if txType == BLOB_TX_TYPE then BLOB_BUMP_PERCENT else DEFAULT_BUMP_PERCENT
  }

  function MinimumReplacementFee(current: nat, txType: nat): (fee: nat)
    ensures fee > current
  {
    var bumped := current * (100 + BumpPercent(txType));
    DivLeast(bumped, 100, current);
    bumped / 100 + 1
  }

  /** It is the least fee strictly above the percentage bump, so no smaller fee will do. */
  lemma MinimumIsExact(current: nat, txType: nat, fee: nat)
    ensures fee >= MinimumReplacementFee(current, txType)
        <==> 100 * fee > current * (100 + BumpPercent(txType))
  {
    var bumped := current * (100 + BumpPercent(txType));
    DivLeast(bumped, 100, fee);
  }

  function BumpForReplacement(current: ReplacementGas, target: ReplacementGas): ReplacementGas {
    var maxFeeFloor := MinimumReplacementFee(current.maxFeePerGas, EIP1559_TX_TYPE);
    var priorityFloor := MinimumReplacementFee(current.maxPriorityFeePerGas, EIP1559_TX_TYPE);
    var priority :=
      if target.maxPriorityFeePerGas > priorityFloor then target.maxPriorityFeePerGas else priorityFloor;
    var maxFee := if target.maxFeePerGas > maxFeeFloor then target.maxFeePerGas else maxFeeFloor;
    ReplacementGas(if maxFee < priority then priority else maxFee, priority)
  }

  /** What a node demands of a replacement pair. */
  predicate Acceptable(current: ReplacementGas, next: ReplacementGas) {
    && next.maxFeePerGas >= next.maxPriorityFeePerGas
    && 100 * next.maxFeePerGas > 110 * current.maxFeePerGas
    && 100 * next.maxPriorityFeePerGas > 110 * current.maxPriorityFeePerGas
  }

  /**
   The bump is accepted, honours the target, and is the cheapest pair to do both: every accepted
   pair at or above the target is at least as expensive in both fields.
   */
  lemma BumpIsLeastAcceptable(current: ReplacementGas, target: ReplacementGas, other: ReplacementGas)
    ensures var r := BumpForReplacement(current, target);
            && Acceptable(current, r)
            && r.maxFeePerGas >= target.maxFeePerGas
            && r.maxPriorityFeePerGas >= target.maxPriorityFeePerGas
            && (Acceptable(current, other)
                && other.maxFeePerGas >= target.maxFeePerGas
                && other.maxPriorityFeePerGas >= target.maxPriorityFeePerGas
                ==> other.maxFeePerGas >= r.maxFeePerGas
                    && other.maxPriorityFeePerGas >= r.maxPriorityFeePerGas)
  {
    var r := BumpForReplacement(current, target);
    MinimumIsExact(current.maxFeePerGas, EIP1559_TX_TYPE, r.maxFeePerGas);
    MinimumIsExact(current.maxPriorityFeePerGas, EIP1559_TX_TYPE, r.maxPriorityFeePerGas);
    MinimumIsExact(current.maxFeePerGas, EIP1559_TX_TYPE, other.maxFeePerGas);
    MinimumIsExact(current.maxPriorityFeePerGas, EIP1559_TX_TYPE, other.maxPriorityFeePerGas);
  }

  // ----- which tier to bump to -----

  /** The stuck transaction's place: `k` samples ahead of it in some arrangement by tip. */
  ghost predicate StuckAt(samples: seq<TipSample>, id: TxIdentifier, k: nat) {
    exists sorted ::
      && OrderedPermutation(samples, sorted, TipDescending)
      && k < |sorted| && FirstMatch(sorted, id) == k
  }

  /** `floor` outbids the sample directly ahead of place `k`, and no lower tip does. */
  ghost predicate Outpaces(samples: seq<TipSample>, k: nat, floor: nat) {
    forall t: nat :: CountAtLeast(samples, t) < k <==> t >= floor
  }

  ghost predicate IsOutpaceFloor(samples: seq<TipSample>, id: Option<TxIdentifier>, floor: nat) {
    || (floor == 0 && (id.None? || (forall x | x in samples :: !MatchesIdentifier(x, id.value))
                       || StuckAt(samples, id.value, 0)))
    || (id.Some? && exists k :: k > 0 && StuckAt(samples, id.value, k) && Outpaces(samples, k, floor))
  }

  method OutpaceFloor(samples: seq<TipSample>, id: Option<TxIdentifier>) returns (floor: nat)
    ensures IsOutpaceFloor(samples, id, floor)
  {
    if id.None? {
      return 0;
    }
    var stuck := TipForBlockPosition(samples, AheadOf(id.value));
    ghost var sorted :| OrderedPermutation(samples, sorted, TipDescending) && IsPosition(sorted, AheadOf(id.value), stuck);
    if stuck.pivot.None? {
      AheadOutbids(samples, id.value, stuck);
      return 0;
    }
    assert stuck.rank == FirstMatch(sorted, id.value);
    assert StuckAt(samples, id.value, stuck.rank);
    if stuck.rank == 0 {
      return 0;
    }
    var ahead := TipForBlockPosition(samples, Rank(stuck.rank - 1));
    floor := ahead.requiredTip;
    forall t: nat
      ensures CountAtLeast(samples, t) < stuck.rank <==> t >= floor
    {
      RankExact(samples, stuck.rank - 1, ahead, t);
    }
    assert Outpaces(samples, stuck.rank, floor);
  }

  /** The first rung above the floor. */
  predicate IsCheapest(tiers: Ladder, floor: nat, i: int) {
    if i == -1 then forall j | 0 <= j < |TIER_LADDER| :: Floor(tiers, TIER_LADDER[j]) <= floor
    else
      && 0 <= i < |TIER_LADDER| && Floor(tiers, TIER_LADDER[i]) > floor
      && forall j | 0 <= j < i :: Floor(tiers, TIER_LADDER[j]) <= floor
  }

  function Chosen(strategy: BumpStrategy, cheapest: int): Option<TierName>
    requires -1 <= cheapest < |TIER_LADDER|
  {
    if cheapest == -1 then None
    else
      match strategy
      case CheapestThatLands => Some(TIER_LADDER[cheapest])
      case ToInstant => Some(Instant)
      case OneStepFasterThanRecommended =>
        Some(TIER_LADDER[if cheapest + 1 < |TIER_LADDER| - 1 then cheapest + 1 else |TIER_LADDER| - 1])
  }

  function EffectiveFloor(priorityTip: nat, outpace: nat): nat {
    Max(MinimumReplacementFee(priorityTip, EIP1559_TX_TYPE), outpace)
  }

  ghost predicate RecommendedFrom(
      snapshot: OracleState, priorityTip: nat, id: Option<TxIdentifier>, strategy: BumpStrategy,
      tier: Option<TierName>, outpace: nat, cheapest: int)
  {
    && IsOutpaceFloor(snapshot.mempoolSamples, id, outpace)
    && IsCheapest(snapshot.tiers, EffectiveFloor(priorityTip, outpace), cheapest)
    && -1 <= cheapest < |TIER_LADDER| && tier == Chosen(strategy, cheapest)
  }

  /** The strategy's pick, counted from the first rung above both floors. */
  ghost predicate IsRecommendation(
      snapshot: OracleState, priorityTip: nat, id: Option<TxIdentifier>, strategy: BumpStrategy,
      tier: Option<TierName>)
  {
    exists outpace, cheapest :: RecommendedFrom(snapshot, priorityTip, id, strategy, tier, outpace, cheapest)
  }

  method RecommendBumpTier(
      snapshot: OracleState, priorityTip: nat, id: Option<TxIdentifier>, strategy: BumpStrategy)
    returns (tier: Option<TierName>)
    ensures IsRecommendation(snapshot, priorityTip, id, strategy, tier)
  {
    var protocolFloor := MinimumReplacementFee(priorityTip, EIP1559_TX_TYPE);
    var outpaceFloor := OutpaceFloor(snapshot.mempoolSamples, id);
    var floor := if protocolFloor > outpaceFloor then protocolFloor else outpaceFloor;
    var i := 0;
    while i < |TIER_LADDER| && snapshot.tiers.At(TIER_LADDER[i]).maxPriorityFeePerGas <= floor
      invariant 0 <= i <= |TIER_LADDER|
      invariant forall j | 0 <= j < i :: Floor(snapshot.tiers, TIER_LADDER[j]) <= floor
    {
      i := i + 1;
    }
    var cheapestIndex := if i == |TIER_LADDER| then -1 else i;
    assert IsCheapest(snapshot.tiers, EffectiveFloor(priorityTip, outpaceFloor), cheapestIndex);
    if cheapestIndex == -1 {
      tier := None;
      assert RecommendedFrom(snapshot, priorityTip, id, strategy, tier, outpaceFloor, cheapestIndex);
      return;
    }
    if strategy == CheapestThatLands {
      tier := Some(TIER_LADDER[cheapestIndex]);
    } else if strategy == ToInstant {
      tier := Some(Instant);
    } else {
      var next := cheapestIndex + 1;
      tier := Some(TIER_LADDER[if next < |TIER_LADDER| - 1 then next else |TIER_LADDER| - 1]);
    }
    assert RecommendedFrom(snapshot, priorityTip, id, strategy, tier, outpaceFloor, cheapestIndex);
  }

  predicate MonotoneLadder(tiers: Ladder) {
    && Floor(tiers, Slow) <= Floor(tiers, Standard)
    && Floor(tiers, Standard) <= Floor(tiers, Fast)
    && Floor(tiers, Fast) <= Floor(tiers, Instant)
  }

  /** Nobody was ahead, or strictly fewer samples are at or above `tip` than were ahead. */
  ghost predicate Overtakes(samples: seq<TipSample>, id: Option<TxIdentifier>, tip: nat) {
    || id.None? || (forall x | x in samples :: !MatchesIdentifier(x, id.value)) || StuckAt(samples, id.value, 0)
    || exists k :: k > 0 && StuckAt(samples, id.value, k) && CountAtLeast(samples, tip) < k
  }

  /**
   On a monotone ladder every strategy clears both floors: the tier's tip is accepted as a
   replacement, and if someone was ahead the transaction now has strictly fewer samples at or above
   it than it had ahead of it. No tier is recommended only when none clears the floor.
   */
  lemma RecommendationClearsFloors(
      snapshot: OracleState, priorityTip: nat, id: Option<TxIdentifier>, strategy: BumpStrategy,
      tier: Option<TierName>)
    requires MonotoneLadder(snapshot.tiers)
    requires IsRecommendation(snapshot, priorityTip, id, strategy, tier)
    ensures tier.Some? ==>
              var tip := Floor(snapshot.tiers, tier.value);
              100 * tip > 110 * priorityTip && Overtakes(snapshot.mempoolSamples, id, tip)
    ensures tier == None ==>
              exists outpace ::
                && IsOutpaceFloor(snapshot.mempoolSamples, id, outpace)
                && forall name: TierName :: Floor(snapshot.tiers, name) <= EffectiveFloor(priorityTip, outpace)
    ensures (forall name: TierName :: 100 * Floor(snapshot.tiers, name) <= 110 * priorityTip) ==> tier == None
  {
    hide IsOutpaceFloor, MinimumReplacementFee;
    var outpace, cheapest :| RecommendedFrom(snapshot, priorityTip, id, strategy, tier, outpace, cheapest);
    var floor := EffectiveFloor(priorityTip, outpace);
    LadderNames();
    if tier.Some? {
      var tip := Floor(snapshot.tiers, tier.value);
      assert tip > floor;
      MinimumIsExact(priorityTip, EIP1559_TX_TYPE, tip);
      OutpacedIsOvertaken(snapshot.mempoolSamples, id, outpace, tip);
    } else {
      forall name: TierName
        ensures Floor(snapshot.tiers, name) <= floor
      {
        assert TIER_LADDER[IndexOf(Some(name))] == name;
      }
    }
  }

  lemma OutpacedIsOvertaken(samples: seq<TipSample>, id: Option<TxIdentifier>, outpace: nat, tip: nat)
    requires IsOutpaceFloor(samples, id, outpace) && tip >= outpace
    ensures Overtakes(samples, id, tip)
  {
    if id.Some? && exists k :: k > 0 && StuckAt(samples, id.value, k) && Outpaces(samples, k, outpace) {
      var k :| k > 0 && StuckAt(samples, id.value, k) && Outpaces(samples, k, outpace);
      assert CountAtLeast(samples, tip) < k;
    }
  }

  lemma LadderNames()
    ensures |TIER_LADDER| == 4
    ensures TIER_LADDER[0] == Slow && TIER_LADDER[1] == Standard
    ensures TIER_LADDER[2] == Fast && TIER_LADDER[3] == Instant
  {
  }

  // ----- the limit of the outpace floor -----

  /**
   The floor is promised to beat every sample currently ahead. It does so exactly when all of them
   carry the tip of the one directly ahead; otherwise only that one, and those tied with it, are
   beaten.
   */
  lemma OutpaceBeatsAllIff(
      samples: seq<TipSample>, sorted: seq<TipSample>, k: nat, floor: nat)
    requires OrderedPermutation(samples, sorted, TipDescending)
    requires 0 < k < |sorted| && Outpaces(samples, k, floor)
    ensures floor == sorted[k - 1].tip + 1
    ensures (forall x | x in samples :: x.tip < floor) <==> sorted[0].tip == sorted[k - 1].tip
  {
    SameElements(samples, sorted);
    var d := sorted[k - 1].tip;
    AtLeastOrderFree(samples, sorted, d);
    AtLeastOrderFree(samples, sorted, d + 1);
    FrontHoldsHigher(sorted, k - 1, d);
    FrontHoldsHigher(sorted, k - 1, d + 1);
    assert k == 1 || TipDescending(sorted[0], sorted[k - 1]);
    assert sorted[0] in samples;
    forall x | x in samples
      ensures x.tip <= sorted[0].tip
    {
      var j :| 0 <= j < |sorted| && sorted[j] == x;
      assert j == 0 || TipDescending(sorted[0], sorted[j]);
    }
  }

  /** With tips 100, 10 and a stuck 5, the floor is 11: it passes the 10 and stays behind the 100. */
  lemma OutpaceMissesTheTop()
    returns (samples: seq<TipSample>, id: TxIdentifier, floor: nat)
    ensures IsOutpaceFloor(samples, Some(id), floor) && floor == 11
    ensures exists x :: x in samples && !MatchesIdentifier(x, id) && x.tip >= floor
  {
    var top := TipSample(100, 21000, None, None, None, None);
    var near := TipSample(10, 21000, None, None, None, None);
    var stuck := TipSample(5, 21000, None, Some("h"), None, None);
    samples, id, floor := [top, near, stuck], ByHash("h"), 11;
    assert FirstMatch([stuck], id) == 0;
    assert [near, stuck][1..] == [stuck] && samples[1..] == [near, stuck];
    assert FirstMatch([near, stuck], id) == 1;
    assert FirstMatch(samples, id) == 2;
    assert Ordered(samples, TipDescending);
    assert StuckAt(samples, id, 2);
    forall t: nat
      ensures CountAtLeast(samples, t) < 2 <==> t >= floor
    {
      FrontHoldsHigher(samples, 1, t);
    }
    assert Outpaces(samples, 2, floor);
    assert top in samples;
  }

  // ----- how far the faster strategies can be trusted -----

  /** The order every published ladder has, whatever the priority model. */
  predicate PublishedLadder(tiers: Ladder) {
    Floor(tiers, Standard) <= Floor(tiers, Fast) <= Floor(tiers, Instant)
  }

  /** Where a strategy goes when `slow` is the cheapest rung that will do. */
  function FromSlow(strategy: BumpStrategy): TierName {
    match strategy
    case CheapestThatLands => Slow
    case OneStepFasterThanRecommended => Standard
    case ToInstant => Instant
  }

  ghost predicate ClearsFloors(tiers: Ladder, strategy: BumpStrategy) {
    forall floor: nat, i | 0 <= i < |TIER_LADDER| && IsCheapest(tiers, floor, i) ::
      Floor(tiers, Chosen(strategy, i).value) > floor
  }

  /** A strategy clears every floor that some rung clears if and only if its step up from `slow` does not go down. */
  lemma ClearsFloorsIff(tiers: Ladder, strategy: BumpStrategy)
    requires PublishedLadder(tiers)
    ensures ClearsFloors(tiers, strategy) <==> Floor(tiers, Slow) <= Floor(tiers, FromSlow(strategy))
  {
    LadderNames();
    if Floor(tiers, Slow) > Floor(tiers, FromSlow(strategy)) {
      assert IsCheapest(tiers, Floor(tiers, FromSlow(strategy)), 0);
      assert Chosen(strategy, 0) == Some(FromSlow(strategy));
    }
  }

  /** What a recommendation is for: the node accepts it, and the transaction moves up. */
  ghost predicate Lands(
      snapshot: OracleState, priorityTip: nat, id: Option<TxIdentifier>, tier: TierName)
  {
    var tip := Floor(snapshot.tiers, tier);
    100 * tip > 110 * priorityTip && Overtakes(snapshot.mempoolSamples, id, tip)
  }

  lemma ReachedFloorLands(
      snapshot: OracleState, priorityTip: nat, id: Option<TxIdentifier>, tier: TierName, outpace: nat)
    requires IsOutpaceFloor(snapshot.mempoolSamples, id, outpace)
    requires Floor(snapshot.tiers, tier) >= EffectiveFloor(priorityTip, outpace)
    ensures Lands(snapshot, priorityTip, id, tier)
  {
    hide IsOutpaceFloor, Overtakes, MinimumReplacementFee;
    MinimumIsExact(priorityTip, EIP1559_TX_TYPE, Floor(snapshot.tiers, tier));
    OutpacedIsOvertaken(snapshot.mempoolSamples, id, outpace, Floor(snapshot.tiers, tier));
  }

  lemma RecommendationLands(
      snapshot: OracleState, priorityTip: nat, id: Option<TxIdentifier>, strategy: BumpStrategy,
      tier: TierName)
    requires PublishedLadder(snapshot.tiers)
    requires Floor(snapshot.tiers, Slow) <= Floor(snapshot.tiers, FromSlow(strategy)) + 1
    requires IsRecommendation(snapshot, priorityTip, id, strategy, Some(tier))
    ensures Lands(snapshot, priorityTip, id, tier)
  {
    hide IsOutpaceFloor, Lands, MinimumReplacementFee;
    var outpace, cheapest :| RecommendedFrom(snapshot, priorityTip, id, strategy, Some(tier), outpace, cheapest);
    LadderNames();
    assert Floor(snapshot.tiers, TIER_LADDER[cheapest]) > EffectiveFloor(priorityTip, outpace);
    ReachedFloorLands(snapshot, priorityTip, id, tier, outpace);
  }

  lemma NoIdentifierNoFloor(samples: seq<TipSample>)
    ensures IsOutpaceFloor(samples, None, 0)
  {
  }

  const AT_THE_BOTTOM: TipSample := TipSample(0, 21000, None, Some("h"), None, None)

  /** A mempool with a transaction of tip `t` ahead of the stuck one. */
  lemma OneAhead(t: nat)
    requires t > 0
    ensures var samples := [TipSample(t, 21000, None, None, None, None), AT_THE_BOTTOM];
            && IsOutpaceFloor(samples, Some(ByHash("h")), t + 1)
            && !Overtakes(samples, Some(ByHash("h")), t)
  {
    var ahead := TipSample(t, 21000, None, None, None, None);
    var samples, id := [ahead, AT_THE_BOTTOM], ByHash("h");
    assert samples[1..] == [AT_THE_BOTTOM];
    assert FirstMatch([AT_THE_BOTTOM], id) == 0 && FirstMatch(samples, id) == 1;
    assert Ordered(samples, TipDescending);
    assert StuckAt(samples, id, 1);
    forall tip: nat
      ensures CountAtLeast(samples, tip) < 1 <==> tip >= t + 1
    {
      FrontHoldsHigher(samples, 0, tip);
    }
    assert Outpaces(samples, 1, t + 1);
    forall k: nat | StuckAt(samples, id, k)
      ensures k == 1
    {
      var sorted :| OrderedPermutation(samples, sorted, TipDescending) && k < |sorted| && FirstMatch(sorted, id) == k;
      OnlyOrder(ahead, AT_THE_BOTTOM, sorted);
    }
    assert AT_THE_BOTTOM in samples && MatchesIdentifier(AT_THE_BOTTOM, id);
  }

  lemma OnlyOrder(a: TipSample, b: TipSample, sorted: seq<TipSample>)
    requires a.tip > b.tip && OrderedPermutation([a, b], sorted, TipDescending)
    ensures sorted == [a, b]
  {
    assert |multiset(sorted)| == |multiset([a, b])| == 2;
    assert sorted == [sorted[0], sorted[1]];
    assert sorted[0] in multiset(sorted) && sorted[1] in multiset(sorted);
    assert a in multiset(sorted);
  }

  /**
   The failing case, for every ladder where the step up from `slow` goes down by more than a wei: a
   stuck transaction for which `slow` would land and the recommended tier does not.
   */
  lemma FasterMayFallShort(snapshot: OracleState, strategy: BumpStrategy)
    returns (bad: OracleState, id: Option<TxIdentifier>)
    requires Floor(snapshot.tiers, Slow) > Floor(snapshot.tiers, FromSlow(strategy)) + 1
    ensures bad == snapshot.(mempoolSamples := bad.mempoolSamples)
    ensures IsRecommendation(bad, 0, id, CheapestThatLands, Some(Slow)) && Lands(bad, 0, id, Slow)
    ensures IsRecommendation(bad, 0, id, strategy, Some(FromSlow(strategy)))
    ensures !Lands(bad, 0, id, FromSlow(strategy))
  {
    hide Overtakes, IsOutpaceFloor;
    var t := Floor(snapshot.tiers, FromSlow(strategy));
    bad, id := snapshot, None;
    var outpace := 0;
    if t == 0 {
      NoIdentifierNoFloor(bad.mempoolSamples);
    } else {
      OneAhead(t);
      bad := snapshot.(mempoolSamples := [TipSample(t, 21000, None, None, None, None), AT_THE_BOTTOM]);
      id, outpace := Some(ByHash("h")), t + 1;
    }
    LadderNames();
    assert IsCheapest(bad.tiers, EffectiveFloor(0, outpace), 0);
    assert RecommendedFrom(bad, 0, id, CheapestThatLands, Some(Slow), outpace, 0);
    assert RecommendedFrom(bad, 0, id, strategy, Some(FromSlow(strategy)), outpace, 0);
    ReachedFloorLands(bad, 0, id, Slow, outpace);
  }

  /**
   On a published ladder every recommendation of a strategy lands, for every mempool and stuck
   transaction, if and only if its step up from `slow` goes down by at most a wei. The first strategy
   always lands; the others can fail in the eip1559 model only.
   */
  lemma RecommendationLandsIff(snapshot: OracleState, strategy: BumpStrategy)
    requires PublishedLadder(snapshot.tiers)
    ensures (forall samples, priorityTip: nat, id, tier |
               IsRecommendation(snapshot.(mempoolSamples := samples), priorityTip, id, strategy, Some(tier)) ::
               Lands(snapshot.(mempoolSamples := samples), priorityTip, id, tier))
        <==> Floor(snapshot.tiers, Slow) <= Floor(snapshot.tiers, FromSlow(strategy)) + 1
  {
    hide IsRecommendation, Lands;
    if Floor(snapshot.tiers, Slow) <= Floor(snapshot.tiers, FromSlow(strategy)) + 1 {
      forall samples, priorityTip: nat, id, tier |
        IsRecommendation(snapshot.(mempoolSamples := samples), priorityTip, id, strategy, Some(tier))
        ensures Lands(snapshot.(mempoolSamples := samples), priorityTip, id, tier)
      {
        RecommendationLands(snapshot.(mempoolSamples := samples), priorityTip, id, strategy, tier);
      }
    } else {
      var bad, id := FasterMayFallShort(snapshot, strategy);
      assert bad == snapshot.(mempoolSamples := bad.mempoolSamples);
    }
  }

  /**
   Such ladders are published: outside the flat model, under any other setting, one block is enough
   for a state on which a transaction stuck at one wei is sent from a tier that lands to two that do not.
   */
  lemma PublishedStateFallsShort(c: Config) returns (inputs: PollInputs, s: OracleState)
    requires !FlatModel(c)
    ensures Reduces(c, None, inputs, [], s)
    ensures IsRecommendation(s, 1, None, CheapestThatLands, Some(Slow)) && Lands(s, 1, None, Slow)
    ensures IsRecommendation(s, 1, None, OneStepFasterThanRecommended, Some(Standard)) && !Lands(s, 1, None, Standard)
    ensures IsRecommendation(s, 1, None, ToInstant, Some(Instant)) && !Lands(s, 1, None, Instant)
  {
    hide Reduces, IsOutpaceFloor;
    inputs, s := SplitPoll(c);
    LadderNames();
    NoIdentifierNoFloor(s.mempoolSamples);
    assert Floor(s.tiers, Slow) == 100 && Floor(s.tiers, Standard) == 1 && Floor(s.tiers, Instant) == 1;
    assert EffectiveFloor(1, 0) == 2;
    assert IsCheapest(s.tiers, 2, 0);
    assert RecommendedFrom(s, 1, None, CheapestThatLands, Some(Slow), 0, 0);
    assert RecommendedFrom(s, 1, None, OneStepFasterThanRecommended, Some(Standard), 0, 0);
    assert RecommendedFrom(s, 1, None, ToInstant, Some(Instant), 0, 0);
  }

  // ----- the pick, spelled out -----

  /** The least replacement fee is the first one strictly above double for a blob, above 110% otherwise. */
  lemma MinimumSpelled(current: nat, txType: nat, fee: nat)
    ensures fee >= MinimumReplacementFee(current, txType)
        <==> if txType == 3 then fee > 2 * current else 100 * fee > 110 * current
  {
    MinimumIsExact(current, txType, fee);
  }

  /** A rung must pay more than the least accepted replacement and more than the outpace floor. */
  predicate Clears(tip: nat, priorityTip: nat, outpace: nat) {
    tip > outpace && 100 * (tip - 1) > 110 * priorityTip
  }

  /** On any ladder, every strategy counts from the first rung that clears. */
  lemma RecommendationSpelled(
      snapshot: OracleState, priorityTip: nat, id: Option<TxIdentifier>, strategy: BumpStrategy,
      tier: Option<TierName>)
    returns (outpace: nat)
    requires IsRecommendation(snapshot, priorityTip, id, strategy, tier)
    ensures IsOutpaceFloor(snapshot.mempoolSamples, id, outpace)
    ensures var t := snapshot.tiers;
            tier ==
            if Clears(t.slow.maxPriorityFeePerGas, priorityTip, outpace) then
              Some(match strategy
                   case CheapestThatLands => Slow
                   case OneStepFasterThanRecommended => Standard
                   case ToInstant => Instant)
            else if Clears(t.standard.maxPriorityFeePerGas, priorityTip, outpace) then
              Some(match strategy
                   case CheapestThatLands => Standard
                   case OneStepFasterThanRecommended => Fast
                   case ToInstant => Instant)
            else if Clears(t.fast.maxPriorityFeePerGas, priorityTip, outpace) then
              Some(if strategy == CheapestThatLands then Fast else Instant)
            else if Clears(t.instant.maxPriorityFeePerGas, priorityTip, outpace) then Some(Instant)
            else None
  {
    hide IsOutpaceFloor, MinimumReplacementFee;
    var floor, cheapest :| RecommendedFrom(snapshot, priorityTip, id, strategy, tier, floor, cheapest);
    outpace := floor;
    LadderNames();
    forall name: TierName
      ensures Floor(snapshot.tiers, name) > EffectiveFloor(priorityTip, outpace)
              <==> Clears(Floor(snapshot.tiers, name), priorityTip, outpace)
    {
      if Floor(snapshot.tiers, name) > 0 {
        MinimumSpelled(priorityTip, 2, Floor(snapshot.tiers, name) - 1);
      }
    }
  }
}
