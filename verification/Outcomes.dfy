/**
 What one block, snapshot or divergence leaves behind, field by field, and when the confirmed-terminal
 event comes on a whole run. Nothing here mentions the decisions' own pieces.
 */
module Outcomes {
  import opened Wrappers
  import opened Text
  import opened Observations
  import opened ObservationRuns

  // ----- one block -----

  predicate Carries(txs: seq<RawTx>, hash: Hash) {
    exists j | 0 <= j < |txs| :: txs[j].hash == Some(hash)
  }

  /** Enough confirmations for the block's threshold, and nothing terminal on the record yet. */
  predicate TerminalDue(r: Record, b: BlockInput, confirmations: nat) {
    && r.status.terminalAtBlockNumber == None
    && b.confirmationsForTerminal.Some? && b.confirmationsForTerminal.value <= confirmations
  }

  /** The block holds the transaction, first at `i`. */
  lemma FoundInBlock(r: Record, b: BlockInput, i: nat)
    requires i < |b.txs| && b.txs[i].hash == Some(r.hash)
    requires forall j | 0 <= j < i :: b.txs[j].hash != Some(r.hash)
    ensures var seen := r.status.lastSeenInBlock;
            var same := seen.Some? && seen.value.blockHash == b.blockHash;
            var c := if same then seen.value.confirmations else 1;
            var now := Inclusion(b.blockHash, b.blockNumber, i, c);
            var due := TerminalDue(r, b, c);
            && EventsOf(r, Block(b))
               == (if same then [] else [SeenInBlock(now)]) + (if due then [ConfirmedTerminal(c)] else [])
            && After(r, Block(b)) == r.(
              status := r.status.(
              lastSeenInBlock := Some(now),
              unseenStreak := 0,
              firstObservedAtBlock :=
                if r.status.firstObservedAtBlock.Some? then r.status.firstObservedAtBlock else Some(b.blockNumber),
              lastObservedAtBlock := Some(b.blockNumber),
              terminalAtBlockNumber := if due then Some(b.blockNumber) else r.status.terminalAtBlockNumber),
              identity :=
                if r.identity.None? && b.txs[i].from.Some? && b.txs[i].nonce.Some?
                then Some(Identity(b.txs[i].from.value, b.txs[i].nonce.value)) else r.identity)
  {
    FirstIndex(b.txs, r.hash, i);
    hide IndexOfHash;
  }

  lemma {:induction false} FirstIndex(txs: seq<RawTx>, hash: Hash, i: nat)
    requires i < |txs| && txs[i].hash == Some(hash)
    requires forall j | 0 <= j < i :: txs[j].hash != Some(hash)
    ensures IndexOfHash(txs, hash) == i
  {
    if i == 0 {
    } else {
      assert txs[0].hash != Some(hash);
      FirstIndex(txs[1..], hash, i - 1);
    }
  }

  /** The block does not hold it, but an earlier one did: one confirmation more. */
  lemma BumpedByBlock(r: Record, b: BlockInput)
    requires !Carries(b.txs, r.hash)
    requires r.status.lastSeenInBlock.Some? && b.previousTipNumber.Some?
    ensures var seen := r.status.lastSeenInBlock.value;
            var c := seen.confirmations + 1;
            var now := Inclusion(seen.blockHash, seen.blockNumber, seen.transactionIndex, c);
            var due := TerminalDue(r, b, c);
            && EventsOf(r, Block(b)) == [SeenInBlock(now)] + (if due then [ConfirmedTerminal(c)] else [])
            && After(r, Block(b)) == r.(status := r.status.(
              lastSeenInBlock := Some(now),
              lastObservedAtBlock := Some(b.blockNumber),
              terminalAtBlockNumber := if due then Some(b.blockNumber) else r.status.terminalAtBlockNumber))
  {
    hide IndexOfHash;
  }

  /** Another hash of the same sender, whatever the case of its letters, and of the same nonce. */
  predicate TakesThePlace(tx: RawTx, identity: Identity, original: Hash) {
    && tx.from.Some? && SameIgnoringCase(tx.from.value, identity.from)
    && tx.nonce == Some(identity.nonce)
    && tx.hash.Some? && tx.hash.value != original
  }

  lemma PlaceTaken(tx: RawTx, identity: Identity, original: Hash)
    ensures IsReplacement(tx, identity, original) <==> TakesThePlace(tx, identity, original)
  {
    if tx.from.Some? {
      LowerFoldsCase(tx.from.value, identity.from);
    }
  }

  lemma {:induction false} FirstInPlace(identity: Identity, original: Hash, txs: seq<RawTx>, i: nat)
    requires i < |txs| && TakesThePlace(txs[i], identity, original)
    requires forall j | 0 <= j < i :: !TakesThePlace(txs[j], identity, original)
    ensures FirstReplacement(identity, original, txs) == Some(txs[i])
  {
    hide TakesThePlace, IsReplacement;
    PlaceTaken(txs[0], identity, original);
    if i == 0 {
    } else {
      assert !TakesThePlace(txs[0], identity, original);
      FirstInPlace(identity, original, txs[1..], i - 1);
    }
  }

  /** Neither here nor included before: the first transaction of the block that takes its place replaces it. */
  lemma ReplacedInBlock(r: Record, b: BlockInput, i: nat)
    requires !Carries(b.txs, r.hash)
    requires r.status.lastSeenInBlock.None? || b.previousTipNumber.None?
    requires r.identity.Some? && i < |b.txs| && TakesThePlace(b.txs[i], r.identity.value, r.hash)
    requires forall j | 0 <= j < i :: !TakesThePlace(b.txs[j], r.identity.value, r.hash)
    ensures var other, known := Replacement(b.txs[i].hash.value, Some(b.blockNumber)), r.status.replacedBy;
            && EventsOf(r, Block(b))
               == (if known.Some? && known.value.hash == other.hash then [] else [ReplacedBy(other)])
            && After(r, Block(b)) == r.(status := r.status.(
              replacedBy := Some(other),
              lastObservedAtBlock := Some(b.blockNumber),
              terminalAtBlockNumber :=
                if r.status.terminalAtBlockNumber.Some? then r.status.terminalAtBlockNumber else Some(b.blockNumber)))
  {
    FirstInPlace(r.identity.value, r.hash, b.txs, i);
    hide IndexOfHash, FirstReplacement, TakesThePlace;
  }

  /** Nothing of it at all: a miss once it was observed, and the verdict on the miss that meets the threshold. */
  lemma MissedByBlock(r: Record, b: BlockInput)
    requires !Carries(b.txs, r.hash)
    requires r.status.lastSeenInBlock.None? || b.previousTipNumber.None?
    requires r.identity.Some? ==> forall tx | tx in b.txs :: !TakesThePlace(tx, r.identity.value, r.hash)
    ensures r.status.firstObservedAtBlock.None? ==> EventsOf(r, Block(b)) == [] && After(r, Block(b)) == r
    ensures r.status.firstObservedAtBlock.Some? ==>
              var n := r.status.unseenStreak + 1;
              var reached := n == r.unseenThresholdBlocks;
              && EventsOf(r, Block(b)) == (if reached then [UnseenForNBlocks(n)] else [])
              && After(r, Block(b)) == r.(status := r.status.(
                unseenStreak := n,
                terminalAtBlockNumber :=
                  if reached && r.status.terminalAtBlockNumber.None? then Some(b.blockNumber)
                  else r.status.terminalAtBlockNumber))
  {
    if r.identity.Some? {
      forall tx | tx in b.txs
        ensures !IsReplacement(tx, r.identity.value, r.hash)
      {
        PlaceTaken(tx, r.identity.value, r.hash);
      }
    }
    hide IndexOfHash, FirstReplacement, TakesThePlace, IsReplacement;
  }

  // ----- one snapshot -----

  /** The two parts of a snapshot: where the transaction is, and what has taken its place. */
  lemma SnapshotSpelled(r: Record, m: MempoolInput)
    ensures var s, p := r.status, m.presence;
            var replaced :=
              && r.identity.Some? && s.replacedBy.None?
              && m.replacementInMempool.Some? && m.replacementInMempool.value.hash.Some?
              && m.replacementInMempool.value.hash != Some(r.hash);
            var known := r.inLastMempoolSnapshot && s.lastSeenInMempool.Some?;
            var news := p.Some? && !(known && s.lastSeenInMempool.value.bucket == p.value.bucket);
            && EventsOf(r, Mempool(m)) ==
               (if news then [SeenInMempool(p.value.bucket, p.value.tx)]
                else if p.None? && r.inLastMempoolSnapshot then [LeftMempool] else [])
               + (if replaced then [ReplacedBy(Replacement(m.replacementInMempool.value.hash.value, None))] else [])
            && After(r, Mempool(m)) == Record(
              r.hash,
              Status(
                s.lastSeenInBlock,
                if p.Some? then Some(Placement(p.value.bucket, p.value.tx, m.at)) else s.lastSeenInMempool,
                if replaced then Some(Replacement(m.replacementInMempool.value.hash.value, None)) else s.replacedBy,
                s.vanishedAt,
                if p.Some? then 0 else s.unseenStreak,
                if p.Some? && s.firstObservedAtBlock.None? then Some(m.tipBlockNumber) else s.firstObservedAtBlock,
                if p.Some? then Some(m.tipBlockNumber) else s.lastObservedAtBlock,
                if replaced && s.terminalAtBlockNumber.None? then Some(m.at) else s.terminalAtBlockNumber),
              if r.identity.None? && p.Some? && p.value.tx.from.Some? && p.value.tx.nonce.Some?
              then Some(Identity(p.value.tx.from.value, p.value.tx.nonce.value)) else r.identity,
              p.Some?,
              r.unseenThresholdBlocks)
  {
  }

  // ----- one divergence -----

  lemma DivergenceSpelled(r: Record, v: Vanishing)
    ensures var hit := r.status.lastSeenInBlock.Some? && r.status.lastSeenInBlock.value.blockNumber == v.blockNumber;
            && EventsOf(r, Divergence(v)) == (if hit then [VanishedFromBlock(v)] else [])
            && After(r, Divergence(v)) ==
               if hit then
                 r.(status := r.status.(
                   vanishedAt := Some(v), lastSeenInBlock := None, lastObservedAtBlock := Some(v.blockNumber)))
               else r
  {
  }

  // ----- confirmed-terminal must come -----

  /**
   A block that finds the transaction or bumps a standing inclusion leaves a count, and emits
   confirmed-terminal with that count, anchored at the block, if and only if nothing terminal is on the
   record and the count has reached the threshold.
   */
  lemma ConfirmedAtThreshold(r: Record, b: BlockInput)
    requires Carries(b.txs, r.hash) || (r.status.lastSeenInBlock.Some? && b.previousTipNumber.Some?)
    ensures var after, es := After(r, Block(b)), EventsOf(r, Block(b));
            && after.status.lastSeenInBlock.Some?
            && var c := after.status.lastSeenInBlock.value.confirmations;
               var due := r.status.terminalAtBlockNumber.None?
                          && b.confirmationsForTerminal.Some? && c >= b.confirmationsForTerminal.value;
               && (ConfirmedTerminal(c) in es <==> due)
               && (forall d | ConfirmedTerminal(d) in es :: d == c)
               && after.status.terminalAtBlockNumber
                  == if due then Some(b.blockNumber) else r.status.terminalAtBlockNumber
  {
    if Carries(b.txs, r.hash) {
      var i := IndexOfHash(b.txs, r.hash);
      FoundFirst(b.txs, r.hash);
      FoundInBlock(r, b, i);
    } else {
      BumpedByBlock(r, b);
    }
    hide EventsOf, After;
  }

  lemma {:induction false} FoundFirst(txs: seq<RawTx>, hash: Hash)
    requires Carries(txs, hash)
    ensures var i := IndexOfHash(txs, hash);
            i >= 0 && txs[i].hash == Some(hash) && forall j | 0 <= j < i :: txs[j].hash != Some(hash)
  {
    if txs[0].hash != Some(hash) {
      var j :| 0 <= j < |txs| && txs[j].hash == Some(hash);
      assert txs[1..][j - 1] == txs[j];
      FoundFirst(txs[1..], hash);
      var i := IndexOfHash(txs[1..], hash);
      forall k | 0 <= k < i + 1
        ensures txs[k].hash != Some(hash)
      {
        assert k == 0 || txs[k] == txs[1..][k - 1];
      }
    }
  }

  /** Every block of the run asks for `n` confirmations. */
  predicate AsksFor(steps: seq<Step>, n: nat) {
    forall k | 0 <= k < |steps| && steps[k].Block? :: steps[k].block.confirmationsForTerminal == Some(n)
  }

  /** Nothing terminal on the record, no stored replacement, and a count below `n` if there is one. */
  predicate Below(r: Record, n: nat) {
    && r.status.terminalAtBlockNumber.None? && r.status.replacedBy.None?
    && (r.status.lastSeenInBlock.Some? ==> r.status.lastSeenInBlock.value.confirmations < n)
  }

  lemma StepConfirms(r: Record, s: Step, n: nat)
    requires n > 0 && Below(r, n) && AsksFor([s], n)
    ensures var after, es := After(r, s), EventsOf(r, s);
            && (ConfirmedTerminal(n) in es <==>
                  after.status.lastSeenInBlock.Some? && after.status.lastSeenInBlock.value.confirmations == n)
            && (forall c | ConfirmedTerminal(c) in es :: c == n)
            && (ConfirmedTerminal(n) in es ==>
                  s.Block? && after.status.terminalAtBlockNumber == Some(s.block.blockNumber))
            && (after.status.terminalAtBlockNumber.None? ==> Below(after, n))
  {
    hide After, EventsOf, Carries;
    match s
    case Mempool(m) => SnapshotSpelled(r, m);
    case Divergence(v) => DivergenceSpelled(r, v);
    case Block(b) =>
      assert [s][0].block == b;
      if Carries(b.txs, r.hash) {
        FoundFirst(b.txs, r.hash);
        FoundInBlock(r, b, IndexOfHash(b.txs, r.hash));
      } else if r.status.lastSeenInBlock.Some? && b.previousTipNumber.Some? {
        BumpedByBlock(r, b);
      } else {
        OtherBlockConfirmsNothing(r, b);
      }
  }

  lemma OtherBlockConfirmsNothing(r: Record, b: BlockInput)
    requires !Carries(b.txs, r.hash)
    requires r.status.lastSeenInBlock.None? || b.previousTipNumber.None?
    ensures forall e | e in EventsOf(r, Block(b)) :: !e.ConfirmedTerminal?
    ensures var after := After(r, Block(b));
            && after.status.lastSeenInBlock == r.status.lastSeenInBlock
            && (after.status.terminalAtBlockNumber.None? ==> after.status.replacedBy == r.status.replacedBy)
  {
    hide IndexOfHash, FirstReplacement;
  }

  /**
   On a run whose blocks ask for `n` confirmations, confirmed-terminal comes exactly at the step that brings the
   count to `n`, unless something terminal came before, and it is anchored at that step's block.
   */
  lemma ConfirmedExactlyAt(r: Record, steps: seq<Step>, n: nat, k: nat)
    requires n > 0 && Below(r, n) && AsksFor(steps, n) && k < |steps|
    ensures var after, es := RecordAfter(r, steps[..k + 1]), EventsOf(RecordAfter(r, steps[..k]), steps[k]);
            && (ConfirmedTerminal(n) in es <==>
                  && (forall i | 0 <= i < |Trace(r, steps[..k])| :: !IsTerminalEvent(Trace(r, steps[..k])[i]))
                  && after.status.lastSeenInBlock.Some? && after.status.lastSeenInBlock.value.confirmations == n)
            && (forall c | ConfirmedTerminal(c) in es :: c == n)
            && (ConfirmedTerminal(n) in es ==>
                  steps[k].Block? && after.status.terminalAtBlockNumber == Some(steps[k].block.blockNumber))
  {
    hide After, EventsOf, Trace, Below;
    BelowSoFar(r, steps, n, k);
    BelowIsAnchored(r, n);
    TerminalMeansEvent(r, steps[..k]);
    var before := RecordAfter(r, steps[..k]);
    assert steps[..k + 1][..k] == steps[..k];
    if before.status.terminalAtBlockNumber.None? {
      StepConfirms(before, steps[k], n);
    } else {
      TerminalIsSilent(before, steps[k]);
    }
  }

  lemma BelowIsAnchored(r: Record, n: nat)
    requires Below(r, n)
    ensures Anchored(r) && r.status.terminalAtBlockNumber.None?
  {
  }

  lemma TerminalIsSilent(r: Record, s: Step)
    requires r.status.terminalAtBlockNumber.Some?
    ensures forall e | e in EventsOf(r, s) :: !e.ConfirmedTerminal?
  {
    hide IndexOfHash, ReplacementIn, CacheIdentity;
  }

  lemma {:induction false} BelowSoFar(r: Record, steps: seq<Step>, n: nat, k: nat)
    requires n > 0 && Below(r, n) && AsksFor(steps, n) && k <= |steps|
    ensures var now := RecordAfter(r, steps[..k]);
            now.status.terminalAtBlockNumber.None? ==> Below(now, n)
  {
    hide After, Below;
    if k == 0 {
    } else {
      BelowSoFar(r, steps, n, k - 1);
      assert steps[..k][..k - 1] == steps[..k - 1];
      var before := RecordAfter(r, steps[..k - 1]);
      StepWritesOnce(before, steps[k - 1]);
      if before.status.terminalAtBlockNumber.None? {
        assert AsksFor([steps[k - 1]], n);
        StepConfirms(before, steps[k - 1], n);
      }
    }
  }

  /** A newly tracked transaction: nothing seen, nothing counted, nothing terminal. */
  lemma FreshIsBelow(hash: Hash, threshold: nat, n: nat)
    ensures var r := FreshRecord(hash, threshold);
            && r.hash == hash && r.unseenThresholdBlocks == threshold && r.identity == None
            && ViewOf(r) == View(None, false, None, false)
            && r.status.firstObservedAtBlock == r.status.lastObservedAtBlock == None && Misses(r, []) == 0
            && Below(r, n)
  {
  }
}
