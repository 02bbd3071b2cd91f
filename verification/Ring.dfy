/** One ring transition: append, duplicate, reorg trim or restart. */
module Ring {
  import opened Wrappers
  import opened Samples

  /** Only equality of hashes is ever observed; `NoHash` is the empty text of a block without one. */
  datatype Hash = NoHash | Hash(id: nat)

  datatype BlockSample = BlockSample(
    number: int,
    hash: Hash,
    parentHash: Hash,
    baseFee: nat,
    gasUsed: nat,
    tips: seq<TipSample>)

  datatype ReorgEvent = ReorgEvent(
    blockNumber: int,
    depth: nat,
    newTipHash: Hash,
    droppedHashes: seq<Hash>)

  datatype RingMutation = RingMutation(
    ring: seq<BlockSample>,
    reorg: Option<ReorgEvent>,
    duplicate: bool)

  function Hashes(ring: seq<BlockSample>): (hs: seq<Hash>)
    ensures |hs| == |ring|
    ensures forall i | 0 <= i < |ring| :: hs[i] == ring[i].hash
  {
    seq(|ring|, i requires 0 <= i < |ring| => ring[i].hash)
  }

  ghost predicate ChildOf(b: BlockSample, parent: BlockSample) {
    b.parentHash == parent.hash && b.number == parent.number + 1
  }

  ghost predicate LinkAt(ring: seq<BlockSample>, i: int)
    requires 0 < i < |ring|
  {
    ChildOf(ring[i], ring[i - 1])
  }

  /** Neighbours are parent and child: one branch of the chain without gaps. */
  ghost predicate Linked(ring: seq<BlockSample>) {
    forall i | 0 < i < |ring| :: LinkAt(ring, i)
  }

  predicate Capped(ring: seq<BlockSample>, maxWindow: int) {
    maxWindow > 0 ==> |ring| <= maxWindow
  }

  function CapTail(ring: seq<BlockSample>, maxWindow: int): (r: seq<BlockSample>)
    ensures Capped(r, maxWindow)
    ensures |r| <= |ring| && r == ring[|ring| - |r|..]
    ensures maxWindow <= 0 || |ring| <= maxWindow ==> r == ring
    ensures maxWindow > 0 && |ring| >= maxWindow ==> |r| == maxWindow
  {
    if maxWindow <= 0 || |ring| <= maxWindow then ring
    else ring[|ring| - maxWindow..]
  }

  /** Index of the newest entry whose number is at most `n`, or -1. */
  function LastAtOrBelow(ring: seq<BlockSample>, n: int): (i: int)
    ensures -1 <= i < |ring|
    ensures i >= 0 ==> ring[i].number <= n
    ensures forall j | i < j < |ring| :: ring[j].number > n
  {
    if |ring| == 0 then -1
    else if ring[|ring| - 1].number <= n then |ring| - 1
    else LastAtOrBelow(ring[..|ring| - 1], n)
  }

  function Incorporate(prev: seq<BlockSample>, b: BlockSample, maxWindow: int): RingMutation
  {
    var m := LastAtOrBelow(prev, b.number);
    if m == -1 then
      RingMutation([b], None, false)
    else if prev[m].number == b.number then
      if prev[m].hash == b.hash then RingMutation(prev, None, true)
      else RingMutation(CapTail(prev[..m] + [b], maxWindow), Some(DropEvent(prev, m, b)), false)
    else if prev[m].hash != b.parentHash then
      RingMutation([b], None, false)
    else if m < |prev| - 1 then
      RingMutation(CapTail(prev[..m + 1] + [b], maxWindow), Some(DropEvent(prev, m + 1, b)), false)
    else
      RingMutation(CapTail(prev + [b], maxWindow), None, false)
  }

  function DropEvent(prev: seq<BlockSample>, from: nat, b: BlockSample): ReorgEvent
    requires from < |prev|
  {
    ReorgEvent(b.number, |prev| - from, b.hash, Hashes(prev[from..]))
  }

  /** Scan from newest to oldest for the first entry at or below `n`. */
  method FindMatch(ring: seq<BlockSample>, n: int) returns (matchIndex: int)
    ensures matchIndex == LastAtOrBelow(ring, n)
  {
    var i := |ring| - 1;
    while i >= 0
      invariant -1 <= i < |ring|
      invariant LastAtOrBelow(ring, n) == LastAtOrBelow(ring[..i + 1], n)
    {
      if ring[i].number <= n {
        return i;
      }
      assert ring[..i + 1][..i] == ring[..i];
      i := i - 1;
    }
    return -1;
  }

  method IncorporateBlock(prevRing: seq<BlockSample>, newBlock: BlockSample, maxWindow: int)
    returns (m: RingMutation)
    ensures m == Incorporate(prevRing, newBlock, maxWindow)
  {
    hide CapTail, LastAtOrBelow;
    if |prevRing| == 0 {
      return RingMutation([newBlock], None, false);
    }
    var matchIndex := FindMatch(prevRing, newBlock.number);
    if matchIndex == -1 {
      return RingMutation([newBlock], None, false);
    }
    var matched := prevRing[matchIndex];
    if matched.number == newBlock.number {
      if matched.hash == newBlock.hash {
        return RingMutation(prevRing, None, true);
      }
      var droppedHashes := Hashes(prevRing[matchIndex..]);
      var trimmed := prevRing[..matchIndex];
      return RingMutation(
          CapTail(trimmed + [newBlock], maxWindow),
          Some(ReorgEvent(newBlock.number, |droppedHashes|, newBlock.hash, droppedHashes)),
          false);
    }
    if matched.hash != newBlock.parentHash {
      return RingMutation([newBlock], None, false);
    }
    if matchIndex < |prevRing| - 1 {
      var droppedHashes := Hashes(prevRing[matchIndex + 1..]);
      var kept := prevRing[..matchIndex + 1];
      return RingMutation(
          CapTail(kept + [newBlock], maxWindow),
          Some(ReorgEvent(newBlock.number, |droppedHashes|, newBlock.hash, droppedHashes)),
          false);
    }
    m := RingMutation(CapTail(prevRing + [newBlock], maxWindow), None, false);
  }

  // ----- the transition, spelled out -----

  /** `ring` is the newest entries of `kept` and `b` on top, as many as the window allows. */
  ghost predicate IsToppedBy(ring: seq<BlockSample>, kept: seq<BlockSample>, b: BlockSample, maxWindow: int) {
    var n := |kept| + 1;
    && ring != [] && ring[|ring| - 1] == b
    && |ring| == (if 0 < maxWindow < n then maxWindow else n)
    && forall i | 0 <= i < |ring| - 1 :: ring[i] == kept[n - |ring| + i]
  }

  /** The event that names every entry from index `from` on as dropped. */
  ghost predicate IsDropOf(e: Option<ReorgEvent>, prev: seq<BlockSample>, from: nat, b: BlockSample) {
    && e.Some? && e.value.blockNumber == b.number && e.value.newTipHash == b.hash
    && e.value.depth == |e.value.droppedHashes| == |prev| - from
    && forall i | from <= i < |prev| :: e.value.droppedHashes[i - from] == prev[i].hash
  }

  lemma CapTailTops(kept: seq<BlockSample>, b: BlockSample, maxWindow: int)
    ensures IsToppedBy(CapTail(kept + [b], maxWindow), kept, b, maxWindow)
  {
  }

  lemma DropEventNames(prev: seq<BlockSample>, from: nat, b: BlockSample)
    requires from < |prev|
    ensures IsDropOf(Some(DropEvent(prev, from, b)), prev, from, b)
  {
  }

  /** All arms of the transition, `m` being the newest entry at or below the block's height. */
  lemma IncorporateSpelled(prev: seq<BlockSample>, b: BlockSample, maxWindow: int, m: int)
    requires -1 <= m < |prev| && (m >= 0 ==> prev[m].number <= b.number)
    requires forall j | m < j < |prev| :: prev[j].number > b.number
    ensures var r := Incorporate(prev, b, maxWindow);
            if m == -1 || (prev[m].number < b.number && prev[m].hash != b.parentHash)
            then r == RingMutation([b], None, false)
            else if prev[m].number == b.number && prev[m].hash == b.hash
            then r == RingMutation(prev, None, true)
            else
              var keep := if prev[m].number == b.number then m else m + 1;
              && IsToppedBy(r.ring, prev[..keep], b, maxWindow) && !r.duplicate
              && if keep == |prev| then r.reorg == None else IsDropOf(r.reorg, prev, keep, b)
  {
    hide CapTail, LastAtOrBelow, IsToppedBy, IsDropOf, Hashes;
    assert LastAtOrBelow(prev, b.number) == m;
    if m >= 0 {
      var keep := if prev[m].number == b.number then m else m + 1;
      CapTailTops(prev[..keep], b, maxWindow);
      if keep < |prev| {
        DropEventNames(prev, keep, b);
      } else {
        assert prev[..keep] == prev;
      }
    }
  }
}
