/** The per-transaction fee sample shared by the ring, the tier ladder and the position helpers. */
module Samples {
  import opened Wrappers

  /** Tip and gas are EVM quantities, hence never negative. */
  datatype TipSample = TipSample(
    tip: nat,
    gas: nat,
    txType: Option<nat>,
    hash: Option<string>,
    address: Option<string>,
    nonce: Option<string>)

  predicate TipAscending(a: TipSample, b: TipSample) {
    a.tip <= b.tip
  }

  predicate TipDescending(a: TipSample, b: TipSample) {
    a.tip >= b.tip
  }
}
