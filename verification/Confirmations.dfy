/** What a confirmation count says about the depth of the block it counts for. */
module Confirmations {
  import opened Wrappers
  import opened Observations
  import opened ObservationRuns
  import opened Outcomes

  /** A block decision that adds one: the tip before it was known, and the transaction is not in it. */
  predicate Adds(hash: Hash, s: Step) {
    s.Block? && s.block.previousTipNumber.Some? && IndexOfHash(s.block.txs, hash) < 0
  }

  /** The heights of those blocks, in the order they were decided on. */
  function Heads(hash: Hash, steps: seq<Step>): seq<int> {
    if steps == [] then []
    else
      var before, last := Heads(hash, steps[..|steps| - 1]), steps[|steps| - 1];
      if Adds(hash, last) then before + [last.block.blockNumber] else before
  }

  /** Neither a divergence at the inclusion's height nor an inclusion in another block. */
  predicate Undisturbed(hash: Hash, seen: Inclusion, s: Step) {
    match s
    case Mempool(_) => true
    case Divergence(v) => v.blockNumber != seen.blockNumber
    case Block(b) =>
      IndexOfHash(b.txs, hash) >= 0 ==> b.blockHash == seen.blockHash && b.blockNumber == seen.blockNumber
  }

  predicate AllUndisturbed(r: Record, steps: seq<Step>)
    requires r.status.lastSeenInBlock.Some?
  {
    forall i | 0 <= i < |steps| :: Undisturbed(r.hash, r.status.lastSeenInBlock.value, steps[i])
  }

  /** The record still counts for the block of `seen`, and has counted up to `confirmations`. */
  predicate CountsFor(r: Record, hash: Hash, seen: Inclusion, confirmations: nat) {
    && r.hash == hash && r.status.lastSeenInBlock.Some?
    && r.status.lastSeenInBlock.value.blockHash == seen.blockHash
    && r.status.lastSeenInBlock.value.blockNumber == seen.blockNumber
    && r.status.lastSeenInBlock.value.confirmations == confirmations
  }

  /** A block that holds the transaction where it was not counted before starts the count at one. */
  lemma InclusionStartsAtOne(r: Record, b: BlockInput)
    requires IndexOfHash(b.txs, r.hash) >= 0
    requires r.status.lastSeenInBlock.None? || r.status.lastSeenInBlock.value.blockHash != b.blockHash
    ensures CountsFor(After(r, Block(b)), r.hash, Inclusion(b.blockHash, b.blockNumber, 0, 0), 1)
  {
    hide CacheIdentity;
  }

  lemma StepCounts(r: Record, hash: Hash, seen: Inclusion, confirmations: nat, s: Step)
    requires CountsFor(r, hash, seen, confirmations) && Undisturbed(hash, seen, s)
    ensures CountsFor(After(r, s), hash, seen, confirmations + if Adds(hash, s) then 1 else 0)
  {
    hide CacheIdentity, IndexOfHash, ReplacementIn;
  }

  /**
   While nothing disturbs the inclusion, the count is the one it started from plus the block decisions
   applied since, whatever their heights.
   */
  lemma {:induction false} CountIsDecisions(r: Record, steps: seq<Step>)
    requires r.status.lastSeenInBlock.Some? && AllUndisturbed(r, steps)
    ensures var seen := r.status.lastSeenInBlock.value;
            CountsFor(RecordAfter(r, steps), r.hash, seen, seen.confirmations + |Heads(r.hash, steps)|)
  {
    hide After, Adds, Undisturbed;
    var seen := r.status.lastSeenInBlock.value;
    if steps == [] {
      assert RecordAfter(r, steps) == r;
    } else {
      var before, last := steps[..|steps| - 1], steps[|steps| - 1];
      CountIsDecisions(r, before);
      StepCounts(RecordAfter(r, before), r.hash, seen, seen.confirmations + |Heads(r.hash, before)|, last);
    }
  }

  // ----- depth -----

  /** The height of the last head, or `tip` if there was none. */
  function TipAfter(tip: int, heads: seq<int>): int {
    if heads == [] then tip else heads[|heads| - 1]
  }

  /** Each head is one above the one before. */
  predicate Consecutive(tip: int, heads: seq<int>) {
    heads == []
    || (Consecutive(tip, heads[..|heads| - 1])
        && heads[|heads| - 1] == TipAfter(tip, heads[..|heads| - 1]) + 1)
  }

  /** After the first `k` steps the count is the depth of the inclusion under the last head. */
  predicate CountIsDepthAt(r: Record, steps: seq<Step>, tip: int, k: nat)
    requires r.status.lastSeenInBlock.Some? && k <= |steps|
  {
    var now := RecordAfter(r, steps[..k]).status.lastSeenInBlock;
    && now.Some?
    && now.value.confirmations
       == TipAfter(tip, Heads(r.hash, steps[..k])) - r.status.lastSeenInBlock.value.blockNumber + 1
  }

  predicate CountIsDepth(r: Record, steps: seq<Step>, tip: int)
    requires r.status.lastSeenInBlock.Some?
  {
    forall k | 0 <= k <= |steps| :: CountIsDepthAt(r, steps, tip, k)
  }

  lemma DepthAt(r: Record, steps: seq<Step>, tip: int, k: nat)
    requires r.status.lastSeenInBlock.Some? && AllUndisturbed(r, steps) && k <= |steps|
    requires r.status.lastSeenInBlock.value.confirmations
          == tip - r.status.lastSeenInBlock.value.blockNumber + 1
    ensures var heads := Heads(r.hash, steps[..k]);
            CountIsDepthAt(r, steps, tip, k) <==> TipAfter(tip, heads) == tip + |heads|
  {
    hide RecordAfter, Heads, Undisturbed;
    assert AllUndisturbed(r, steps[..k]);
    CountIsDecisions(r, steps[..k]);
  }

  lemma DepthGrows(r: Record, before: seq<Step>, s: Step, tip: int)
    requires r.status.lastSeenInBlock.Some?
    ensures CountIsDepth(r, before + [s], tip)
        <==> CountIsDepth(r, before, tip) && CountIsDepthAt(r, before + [s], tip, |before| + 1)
  {
    var all := before + [s];
    forall k | 0 <= k <= |before|
      ensures CountIsDepthAt(r, all, tip, k) == CountIsDepthAt(r, before, tip, k)
    {
      assert all[..k] == before[..k];
    }
    hide CountIsDepthAt;
  }

  lemma {:induction false} HeadsAgree(tip: int, heads: seq<int>)
    ensures Consecutive(tip, heads) ==> TipAfter(tip, heads) == tip + |heads|
  {
    if heads == [] {
    } else {
      HeadsAgree(tip, heads[..|heads| - 1]);
    }
  }

  /**
   From an inclusion whose count is its depth, count and depth agree after every step if and only if each
   counted head is one above the one before. A skipped head leaves the count behind; two heads at one
   height put it ahead.
   */
  lemma {:induction false} CountIsDepthIff(r: Record, steps: seq<Step>, tip: int)
    requires r.status.lastSeenInBlock.Some? && AllUndisturbed(r, steps)
    requires r.status.lastSeenInBlock.value.confirmations
          == tip - r.status.lastSeenInBlock.value.blockNumber + 1
    ensures CountIsDepth(r, steps, tip) <==> Consecutive(tip, Heads(r.hash, steps))
  {
    hide CountIsDepthAt, Undisturbed;
    if steps == [] {
      assert steps[..0] == steps;
      DepthAt(r, steps, tip, 0);
    } else {
      var before, last := steps[..|steps| - 1], steps[|steps| - 1];
      assert before + [last] == steps && steps[..|steps|] == steps && before[..|before|] == before;
      CountIsDepthIff(r, before, tip);
      DepthGrows(r, before, last, tip);
      DepthAt(r, steps, tip, |steps|);
      DepthAt(r, before, tip, |before|);
      assert CountIsDepth(r, before, tip) ==> CountIsDepthAt(r, before, tip, |before|);
      var heads := Heads(r.hash, before);
      if Adds(r.hash, last) {
        assert (heads + [last.block.blockNumber])[..|heads|] == heads;
      }
      HeadsAgree(tip, heads);
    }
  }

  /** Two heads at one height above the tip: the count rises by two, the depth by one. */
  lemma TwoHeadsCountTwice(r: Record, a: BlockInput, b: BlockInput, tip: int)
    requires r.status.lastSeenInBlock.Some?
    requires Adds(r.hash, Block(a)) && Adds(r.hash, Block(b))
    requires a.blockNumber == b.blockNumber == tip + 1
    ensures var seen := r.status.lastSeenInBlock.value;
            var heads := Heads(r.hash, [Block(a), Block(b)]);
            && CountsFor(RecordAfter(r, [Block(a), Block(b)]), r.hash, seen, seen.confirmations + 2)
            && TipAfter(tip, heads) == tip + 1
  {
    var steps := [Block(a), Block(b)];
    assert steps[..1] == [Block(a)] && [Block(a)][..0] == [];
    assert Heads(r.hash, []) == [];
    assert Heads(r.hash, [Block(a)]) == [tip + 1];
    assert Heads(r.hash, steps) == [tip + 1, tip + 1];
    CountIsDecisions(r, steps);
  }

  /** What disturbs an inclusion, and which decisions add to its count. */
  lemma UndisturbedSpelled(hash: Hash, seen: Inclusion, s: Step)
    ensures Undisturbed(hash, seen, s) <==>
            && (s.Divergence? ==> s.vanishing.blockNumber != seen.blockNumber)
            && (s.Block? && Carries(s.block.txs, hash) ==>
                  s.block.blockHash == seen.blockHash && s.block.blockNumber == seen.blockNumber)
    ensures Adds(hash, s) <==> s.Block? && s.block.previousTipNumber.Some? && !Carries(s.block.txs, hash)
  {
    hide IndexOfHash;
  }
}
