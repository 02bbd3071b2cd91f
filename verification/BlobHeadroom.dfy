/** How far ahead of the blob fee the published `maxFeePerBlobGas` stays, against the update rule of EIP-4844. */
module BlobHeadroom {
  import opened Wrappers
  import opened Arithmetic
  import opened BlobFee
  import opened Headroom
  import opened Tiers

  const TARGET_BLOB_GAS: nat := 393216
  const MAX_BLOB_GAS: nat := 786432

  ghost predicate IsFee(excess: nat, fee: nat) {
    FakeExponential(1, excess, BLOB_BASE_FEE_UPDATE_FRACTION, fee)
  }

  function NextExcess(excess: nat, used: nat): nat {
    if excess + used < TARGET_BLOB_GAS then 0 else excess + used - TARGET_BLOB_GAS
  }

  function ExcessAfter(excess: nat, used: seq<nat>): nat {
    if used == [] then excess
    else NextExcess(ExcessAfter(excess, used[..|used| - 1]), used[|used| - 1])
  }

  predicate AllWithin(used: seq<nat>) {
    forall i | 0 <= i < |used| :: used[i] <= MAX_BLOB_GAS
  }

  function FullBlobs(n: nat): (used: seq<nat>)
    ensures |used| == n && AllWithin(used)
  {
    seq(n, _ => MAX_BLOB_GAS)
  }

  /** Each block adds at most the target, whatever came before. */
  lemma {:induction false} ExcessBounded(excess: nat, used: seq<nat>)
    requires AllWithin(used)
    ensures ExcessAfter(excess, used) <= excess + |used| * TARGET_BLOB_GAS
  {
    if used == [] {
    } else {
      ExcessBounded(excess, used[..|used| - 1]);
    }
  }

  /** And full blocks add exactly that. */
  lemma {:induction false} ExcessReached(excess: nat, n: nat)
    ensures ExcessAfter(excess, FullBlobs(n)) == excess + n * TARGET_BLOB_GAS
  {
    if n == 0 {
    } else {
      ExcessReached(excess, n - 1);
      assert FullBlobs(n)[..n - 1] == FullBlobs(n - 1);
    }
  }

  /** The buffered fee is enough for every number of blocks up to `n`, whatever blobs they carry. */
  ghost predicate BlobCovered(excess: nat, fee: nat, trend: Trend, n: nat) {
    forall used, next: nat | |used| <= n && AllWithin(used) && IsFee(ExcessAfter(excess, used), next) ::
      next <= Buffered(fee, trend, n)
  }

  /** Whether `n` blocks are covered can be checked on the one fee that `n` full blocks lead to. */
  lemma BlobCoveredIff(excess: nat, fee: nat, trend: Trend, n: nat, top: nat)
    requires IsFee(excess + n * TARGET_BLOB_GAS, top)
    ensures BlobCovered(excess, fee, trend, n) <==> top <= Buffered(fee, trend, n)
  {
    hide Buffered, IsFee;
    ExcessReached(excess, n);
    assert IsFee(ExcessAfter(excess, FullBlobs(n)), top);
    forall used, next: nat | |used| <= n && AllWithin(used) && IsFee(ExcessAfter(excess, used), next)
      ensures next <= top
    {
      ExcessBounded(excess, used);
      MulMonotone(|used|, n, TARGET_BLOB_GAS);
      MoreExcessCostsMore(ExcessAfter(excess, used), excess + n * TARGET_BLOB_GAS, next, top);
    }
  }

  lemma MoreExcessCostsMore(x: nat, y: nat, fee: nat, more: nat)
    requires x <= y && IsFee(x, fee) && IsFee(y, more)
    ensures fee <= more
  {
    FeeMonotone(1, x, y, BLOB_BASE_FEE_UPDATE_FRACTION, fee, more);
  }

  /** So it is for the published `maxFeePerBlobGas` of every tier. */
  lemma PublishedBlobCapIff(
      input: TierInput, tiers: PerTier<TierRecommendation>, tips: PerTier<nat>, name: TierName,
      excess: nat, top: nat)
    requires TiersFor(input, tiers, tips) && input.blob.Some?
    requires IsFee(excess + LivenessOf(input) * TARGET_BLOB_GAS, top)
    ensures tiers.At(name).maxFeePerBlobGas.Some?
    ensures var (fee, trend) := input.blob.value;
            BlobCovered(excess, fee, trend, LivenessOf(input)) <==> top <= tiers.At(name).maxFeePerBlobGas.value
  {
    hide TipFor, Buffered, BlobCovered, IsFee;
    var (fee, trend) := input.blob.value;
    BlobCoveredIff(excess, fee, trend, LivenessOf(input), top);
    assert tiers.At(name) == Recommend(input, tips.At(name));
  }

  // ----- the blob fee has no such headroom as the base fee -----

  lemma OneWeiFee()
    ensures IsFee(2200000, 1)
  {
    var den := BLOB_BASE_FEE_UPDATE_FRACTION;
    assert Term(1, 2200000, den, 0) == 3338477;
    assert Term(1, 2200000, den, 1) == 3338477 * 2200000 / (den * 1) == 2200000;
    assert Term(1, 2200000, den, 2) == 2200000 * 2200000 / (den * 2) == 724881;
    assert Term(1, 2200000, den, 3) == 724881 * 2200000 / (den * 3) == 159228;
    assert Term(1, 2200000, den, 4) == 159228 * 2200000 / (den * 4) == 26232;
    assert Term(1, 2200000, den, 5) == 26232 * 2200000 / (den * 5) == 3457;
    assert Term(1, 2200000, den, 6) == 3457 * 2200000 / (den * 6) == 379;
    assert Term(1, 2200000, den, 7) == 379 * 2200000 / (den * 7) == 35;
    assert Term(1, 2200000, den, 8) == 35 * 2200000 / (den * 8) == 2;
    assert Term(1, 2200000, den, 9) == 2 * 2200000 / (den * 9) == 0;
    hide Term, Next;
    assert Partial(1, 2200000, den, 1) == 3338477;
    assert Partial(1, 2200000, den, 2) == 5538477;
    assert Partial(1, 2200000, den, 3) == 6263358;
    assert Partial(1, 2200000, den, 4) == 6422586;
    assert Partial(1, 2200000, den, 5) == 6448818;
    assert Partial(1, 2200000, den, 6) == 6452275;
    assert Partial(1, 2200000, den, 7) == 6452654;
    assert Partial(1, 2200000, den, 8) == 6452689;
    assert Partial(1, 2200000, den, 9) == 6452691;
    assert Vanishes(1, 2200000, den, 9) && 1 == Partial(1, 2200000, den, 9) / den;
  }

  lemma TwoWeiFee()
    ensures IsFee(2593216, 2)
  {
    var den := BLOB_BASE_FEE_UPDATE_FRACTION;
    assert Term(1, 2593216, den, 0) == 3338477;
    assert Term(1, 2593216, den, 1) == 3338477 * 2593216 / (den * 1) == 2593216;
    assert Term(1, 2593216, den, 2) == 2593216 * 2593216 / (den * 2) == 1007161;
    assert Term(1, 2593216, den, 3) == 1007161 * 2593216 / (den * 3) == 260776;
    assert Term(1, 2593216, den, 4) == 260776 * 2593216 / (den * 4) == 50640;
    assert Term(1, 2593216, den, 5) == 50640 * 2593216 / (den * 5) == 7867;
    assert Term(1, 2593216, den, 6) == 7867 * 2593216 / (den * 6) == 1018;
    assert Term(1, 2593216, den, 7) == 1018 * 2593216 / (den * 7) == 112;
    assert Term(1, 2593216, den, 8) == 112 * 2593216 / (den * 8) == 10;
    assert Term(1, 2593216, den, 9) == 10 * 2593216 / (den * 9) == 0;
    hide Term, Next;
    assert Partial(1, 2593216, den, 1) == 3338477;
    assert Partial(1, 2593216, den, 2) == 5931693;
    assert Partial(1, 2593216, den, 3) == 6938854;
    assert Partial(1, 2593216, den, 4) == 7199630;
    assert Partial(1, 2593216, den, 5) == 7250270;
    assert Partial(1, 2593216, den, 6) == 7258137;
    assert Partial(1, 2593216, den, 7) == 7259155;
    assert Partial(1, 2593216, den, 8) == 7259267;
    assert Partial(1, 2593216, den, 9) == 7259277;
    assert Vanishes(1, 2593216, den, 9) && 2 == Partial(1, 2593216, den, 9) / den;
  }

  /** At one wei a stable market's buffer is one wei, and a single full block can double the fee. */
  lemma OneWeiIsNotCovered()
    ensures IsFee(2200000, 1) && !BlobCovered(2200000, 1, Stable, 1)
  {
    hide IsFee;
    OneWeiFee();
    TwoWeiFee();
    SmallPowers();
    BlobCoveredIff(2200000, 1, Stable, 1, 2);
  }

  /** The update rule: what exceeds the target of three blobs of 131072 carries over; a block holds at most six. */
  lemma RuleSpelled(excess: nat, used: nat)
    ensures NextExcess(excess, used) == Max(0, excess + used - 3 * 131072)
    ensures AllWithin([used]) <==> used <= 6 * 131072
  {
    assert [used][0] == used;
  }
}
