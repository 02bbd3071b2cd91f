/**
 Bridging the ring to a new block: fetch the missing blocks by number, or walk back by hash, then
 fold everything into the ring. Block lookups are partial functions.
 */
module GapBridge {
  import opened Wrappers
  import opened Samples
  import opened Ring

  /** Upstream block; `hash` and `parentHash` may be missing from the wire. */
  datatype BlockResult = BlockResult(
    number: int,
    hash: Option<Hash>,
    parentHash: Option<Hash>,
    baseFee: nat,
    gasUsed: nat,
    excessBlobGas: Option<nat>,
    tips: seq<TipSample>)

  const MAX_SAFE_INTEGER: nat := 0x1F_FFFF_FFFF_FFFF

  function ToSample(b: BlockResult): BlockSample {
    BlockSample(b.number, b.hash.GetOr(NoHash), b.parentHash.GetOr(NoHash), b.baseFee, b.gasUsed, b.tips)
  }

  function ToSamples(bs: seq<BlockResult>): (r: seq<BlockSample>)
    ensures |r| == |bs| && forall i | 0 <= i < |bs| :: r[i] == ToSample(bs[i])
  {
    seq(|bs|, i requires 0 <= i < |bs| => ToSample(bs[i]))
  }

  function HashSet(ring: seq<BlockSample>): (hs: set<Hash>)
    ensures forall i | 0 <= i < |ring| :: ring[i].hash in hs
    ensures forall h | h in hs :: exists i | 0 <= i < |ring| :: ring[i].hash == h
  {
    set i | 0 <= i < |ring| :: ring[i].hash
  }

  function Reverse<T>(s: seq<T>): (r: seq<T>)
    ensures |r| == |s| && forall i | 0 <= i < |s| :: r[i] == s[|s| - 1 - i]
  {
    seq(|s|, i requires 0 <= i < |s| => s[|s| - 1 - i])
  }

  // ----- folding blocks into the ring -----

  function IncorporateAll(
      ring: seq<BlockSample>, blocks: seq<BlockSample>, maxWindow: int, lastReorg: Option<ReorgEvent>)
    : (seq<BlockSample>, Option<ReorgEvent>)
    decreases |blocks|
  {
    if blocks == [] then (ring, lastReorg)
    else
      var m := Incorporate(ring, blocks[0], maxWindow);
      IncorporateAll(m.ring, blocks[1..], maxWindow, if m.reorg.Some? then m.reorg else lastReorg)
  }

  lemma {:induction false} IncorporateAllSnoc(
      ring: seq<BlockSample>, blocks: seq<BlockSample>, b: BlockSample, maxWindow: int,
      lastReorg: Option<ReorgEvent>)
    ensures var (r, e) := IncorporateAll(ring, blocks, maxWindow, lastReorg);
            var m := Incorporate(r, b, maxWindow);
            IncorporateAll(ring, blocks + [b], maxWindow, lastReorg)
              == (m.ring, if m.reorg.Some? then m.reorg else e)
    decreases |blocks|
  {
    if blocks == [] {
      assert blocks + [b] == [b];
      assert [b][1..] == [];
    } else {
      var m := Incorporate(ring, blocks[0], maxWindow);
      assert (blocks + [b])[1..] == blocks[1..] + [b];
      IncorporateAllSnoc(m.ring, blocks[1..], b, maxWindow, if m.reorg.Some? then m.reorg else lastReorg);
    }
  }

  /** The reducer's loop over the pre-fetched blocks, then the current block. */
  method FoldBlocks(
      prevRing: seq<BlockSample>, historical: seq<BlockResult>, block: BlockResult, maxWindow: int,
      prevReorg: Option<ReorgEvent>)
    returns (ring: seq<BlockSample>, lastReorg: Option<ReorgEvent>)
    ensures (ring, lastReorg)
         == IncorporateAll(prevRing, ToSamples(historical + [block]), maxWindow, prevReorg)
  {
    hide Incorporate;
    ring, lastReorg := prevRing, prevReorg;
    for i := 0 to |historical|
      invariant (ring, lastReorg)
             == IncorporateAll(prevRing, ToSamples(historical)[..i], maxWindow, prevReorg)
    {
      ghost var done := ToSamples(historical)[..i];
      IncorporateAllSnoc(prevRing, done, ToSample(historical[i]), maxWindow, prevReorg);
      assert ToSamples(historical)[..i + 1] == done + [ToSample(historical[i])];
      var m := IncorporateBlock(ring, ToSample(historical[i]), maxWindow);
      ring := m.ring;
      if m.reorg.Some? {
        lastReorg := m.reorg;
      }
    }
    assert ToSamples(historical)[..|historical|] == ToSamples(historical);
    IncorporateAllSnoc(prevRing, ToSamples(historical), ToSample(block), maxWindow, prevReorg);
    assert ToSamples(historical + [block]) == ToSamples(historical) + [ToSample(block)];
    var m := IncorporateBlock(ring, ToSample(block), maxWindow);
    ring := m.ring;
    if m.reorg.Some? {
      lastReorg := m.reorg;
    }
  }

  // ----- bridgeGap -----

  /** Blocks `from`, `from + 1`, ... below `to`, up to the first failed fetch. */
  function FetchRange(byNumber: int -> Option<BlockResult>, from: int, to: int): (r: seq<BlockResult>)
    ensures |r| <= (if from < to then to - from else 0)
    ensures forall i | 0 <= i < |r| :: byNumber(from + i) == Some(r[i])
    decreases if from < to then to - from else 0
  {
    if from >= to then [] else
    match byNumber(from)
    case None => []
    case Some(b) => [b] + FetchRange(byNumber, from + 1, to)
  }

  /** Blocks met walking back from `cursor`, newest first, until a parent is in the ring. */
  function Walk(byHash: Hash -> Option<BlockResult>, known: set<Hash>, cursor: Hash, budget: nat)
    : (r: seq<BlockResult>)
    ensures |r| <= budget
    decreases budget
  {
    if budget == 0 then [] else
    match byHash(cursor)
    case None => []
    case Some(b) =>
      if b.parentHash.Some? && b.parentHash.value !in known
      then [b] + Walk(byHash, known, b.parentHash.value, budget - 1)
      else [b]
  }

  function WalkBudget(window: int): nat {
    if window > 0 then window else MAX_SAFE_INTEGER
  }

  /** The by-number list is kept only if it joins the ring and the new block at its two ends. */
  predicate Connects(missing: seq<BlockResult>, expected: int, known: set<Hash>, parent: Hash) {
    && |missing| == expected
    && missing != []
    && missing[0].parentHash.Some? && missing[0].parentHash.value in known
    && missing[|missing| - 1].hash == Some(parent)
  }

  function Bridge(
      ring: seq<BlockSample>, newBlock: BlockResult, window: int,
      byNumber: int -> Option<BlockResult>, byHash: Hash -> Option<BlockResult>)
    : seq<BlockResult>
  {
    if ring == [] || newBlock.parentHash.None? then [] else
    var parent := newBlock.parentHash.value;
    var known := HashSet(ring);
    if parent in known then [] else
    var tip := ring[|ring| - 1];
    var gap := newBlock.number - tip.number;
    var numbered := FetchRange(byNumber, tip.number + 1, newBlock.number);
    if gap > 1 && (window == 0 || gap <= window) && Connects(numbered, gap - 1, known, parent)
    then numbered
    else Reverse(Walk(byHash, known, parent, WalkBudget(window)))
  }

  method FetchByNumber(byNumber: int -> Option<BlockResult>, from: int, to: int)
    returns (missing: seq<BlockResult>)
    ensures missing == FetchRange(byNumber, from, to)
  {
    missing := [];
    var n := from;
    while n < to
      invariant from <= n && (from <= to ==> n <= to)
      invariant FetchRange(byNumber, from, to) == missing + FetchRange(byNumber, n, to)
    {
      var fetched := byNumber(n);
      if fetched.None? {
        break;
      }
      missing := missing + [fetched.value];
      n := n + 1;
    }
  }

  lemma Reassociate<T>(a: seq<T>, x: T, rest: seq<T>)
    ensures a + ([x] + rest) == (a + [x]) + rest
    ensures a + [x] == (a + [x]) + []
  {
  }

  method WalkBack(
      byHash: Hash -> Option<BlockResult>, ringHashes: set<Hash>, newParentHash: Hash, maxDepth: nat)
    returns (missing: seq<BlockResult>)
    ensures missing == Walk(byHash, ringHashes, newParentHash, maxDepth)
  {
    missing := [];
    var cursor := newParentHash;
    ghost var all := Walk(byHash, ringHashes, newParentHash, maxDepth);
    for depth := 0 to maxDepth
      invariant all == missing + Walk(byHash, ringHashes, cursor, maxDepth - depth)
    {
      var fetched := byHash(cursor);
      if fetched.None? {
        return;
      }
      var b := fetched.value;
      if b.parentHash.None? || b.parentHash.value in ringHashes {
        Reassociate(missing, b, []);
        missing := missing + [b];
        return;
      }
      Reassociate(missing, b, Walk(byHash, ringHashes, b.parentHash.value, maxDepth - depth - 1));
      missing := missing + [b];
      cursor := b.parentHash.value;
    }
  }

  method BridgeGap(
      ring: seq<BlockSample>, newBlock: BlockResult, window: int,
      byNumber: int -> Option<BlockResult>, byHash: Hash -> Option<BlockResult>)
    returns (missing: seq<BlockResult>)
    ensures missing == Bridge(ring, newBlock, window, byNumber, byHash)
  {
    hide FetchRange, Walk;
    if ring == [] || newBlock.parentHash.None? {
      return [];
    }
    var newParentHash := newBlock.parentHash.value;
    var ringHashes := HashSet(ring);
    if newParentHash in ringHashes {
      return [];
    }
    var tip := ring[|ring| - 1];
    var gap := newBlock.number - tip.number;
    if gap > 1 && (window == 0 || gap <= window) {
      missing := FetchByNumber(byNumber, tip.number + 1, newBlock.number);
      if Connects(missing, gap - 1, ringHashes, newParentHash) {
        return;
      }
    }
    missing := WalkBack(byHash, ringHashes, newParentHash, WalkBudget(window));
    missing := Reverse(missing);
  }

  // ----- the bridge, spelled out -----

  ghost predicate IsKnown(ring: seq<BlockSample>, h: Hash) {
    exists i | 0 <= i < |ring| :: ring[i].hash == h
  }

  /** Every height between the tip and the new block has an answer; the first joins the ring, the last the block. */
  ghost predicate NumbersJoin(
      ring: seq<BlockSample>, newBlock: BlockResult, byNumber: int -> Option<BlockResult>)
    requires ring != []
  {
    var from, to := ring[|ring| - 1].number + 1, newBlock.number;
    && from < to
    && (forall n | from <= n < to :: byNumber(n).Some?)
    && byNumber(from).value.parentHash.Some? && IsKnown(ring, byNumber(from).value.parentHash.value)
    && byNumber(to - 1).value.hash == newBlock.parentHash
  }

  /** Oldest first: each block is what the lookup of its child's parent answers, up to where the walk had to stop. */
  ghost predicate IsWalk(
      r: seq<BlockResult>, byHash: Hash -> Option<BlockResult>, ring: seq<BlockSample>, parent: Hash, budget: nat)
  {
    var n := |r|;
    && n <= budget
    && (n > 0 ==> byHash(parent) == Some(r[n - 1]))
    && (forall i | 0 < i < n ::
          && r[i].parentHash.Some? && !IsKnown(ring, r[i].parentHash.value)
          && byHash(r[i].parentHash.value) == Some(r[i - 1]))
    && (n == budget ||
        if n == 0 then byHash(parent) == None
        else r[0].parentHash.None? || IsKnown(ring, r[0].parentHash.value) || byHash(r[0].parentHash.value) == None)
  }

  /** What is fetched before a block: nothing, the heights in between, or the walk down its own branch. */
  lemma BridgeSpelled(
      ring: seq<BlockSample>, newBlock: BlockResult, window: int,
      byNumber: int -> Option<BlockResult>, byHash: Hash -> Option<BlockResult>)
    ensures var r := Bridge(ring, newBlock, window, byNumber, byHash);
            if ring == [] || newBlock.parentHash.None? || IsKnown(ring, newBlock.parentHash.value) then r == []
            else
              var tip := ring[|ring| - 1].number;
              if (window == 0 || newBlock.number - tip <= window) && NumbersJoin(ring, newBlock, byNumber) then
                && |r| == newBlock.number - tip - 1
                && forall i | 0 <= i < |r| :: byNumber(tip + 1 + i) == Some(r[i])
              else
                IsWalk(r, byHash, ring, newBlock.parentHash.value, if window > 0 then window else 9007199254740991)
  {
    hide FetchRange, Walk;
    if ring != [] && newBlock.parentHash.Some? && !IsKnown(ring, newBlock.parentHash.value) {
      var parent := newBlock.parentHash.value;
      KnownIsHeld(ring, parent);
      var tip := ring[|ring| - 1].number;
      NumbersFetched(ring, newBlock, byNumber);
      WalkSpelled(byHash, ring, parent, WalkBudget(window));
    }
  }

  lemma KnownIsHeld(ring: seq<BlockSample>, h: Hash)
    ensures h in HashSet(ring) <==> IsKnown(ring, h)
  {
  }

  lemma {:induction false} FetchedAll(byNumber: int -> Option<BlockResult>, from: int, end: int)
    requires from <= end
    ensures |FetchRange(byNumber, from, end)| == end - from <==> (forall n | from <= n < end :: byNumber(n).Some?)
    decreases end - from
  {
    if from == end {
    } else if byNumber(from).Some? {
      FetchedAll(byNumber, from + 1, end);
    }
  }

  lemma NumbersFetched(ring: seq<BlockSample>, newBlock: BlockResult, byNumber: int -> Option<BlockResult>)
    requires ring != [] && newBlock.parentHash.Some?
    ensures var tip := ring[|ring| - 1].number;
            var gap, numbered := newBlock.number - tip, FetchRange(byNumber, tip + 1, newBlock.number);
            gap > 1 && Connects(numbered, gap - 1, HashSet(ring), newBlock.parentHash.value)
            <==> NumbersJoin(ring, newBlock, byNumber)
  {
    var from := ring[|ring| - 1].number + 1;
    if from < newBlock.number {
      FetchedAll(byNumber, from, newBlock.number);
      var r := FetchRange(byNumber, from, newBlock.number);
      if |r| == newBlock.number - from {
        assert byNumber(from + 0) == Some(r[0]);
        var last := |r| - 1;
        assert byNumber(from + last) == Some(r[last]) && from + last == newBlock.number - 1;
        if r[0].parentHash.Some? {
          KnownIsHeld(ring, r[0].parentHash.value);
        }
      }
    }
  }

  lemma WalkGrows(
      older: seq<BlockResult>, b: BlockResult, byHash: Hash -> Option<BlockResult>, ring: seq<BlockSample>,
      parent: Hash, budget: nat)
    requires budget > 0 && byHash(parent) == Some(b)
    requires b.parentHash.Some? && !IsKnown(ring, b.parentHash.value)
    requires IsWalk(older, byHash, ring, b.parentHash.value, budget - 1)
    ensures IsWalk(older + [b], byHash, ring, parent, budget)
  {
    hide IsKnown;
    var r := older + [b];
    forall i | 0 < i < |r|
      ensures r[i].parentHash.Some? && !IsKnown(ring, r[i].parentHash.value)
      ensures byHash(r[i].parentHash.value) == Some(r[i - 1])
    {
      assert r[i - 1] == older[i - 1];
      if i < |older| {
        assert r[i] == older[i];
      }
    }
  }

  lemma {:induction false} WalkSpelled(
      byHash: Hash -> Option<BlockResult>, ring: seq<BlockSample>, parent: Hash, budget: nat)
    ensures IsWalk(Reverse(Walk(byHash, HashSet(ring), parent, budget)), byHash, ring, parent, budget)
    decreases budget
  {
    hide IsKnown, IsWalk;
    var w := Walk(byHash, HashSet(ring), parent, budget);
    if budget == 0 || byHash(parent) == None {
      assert Reverse(w) == [];
      EmptyWalk(byHash, ring, parent, budget);
    } else {
      var b := byHash(parent).value;
      if b.parentHash.Some? {
        KnownIsHeld(ring, b.parentHash.value);
      }
      if b.parentHash.Some? && !IsKnown(ring, b.parentHash.value) {
        var older := Reverse(Walk(byHash, HashSet(ring), b.parentHash.value, budget - 1));
        WalkSpelled(byHash, ring, b.parentHash.value, budget - 1);
        assert Reverse(w) == older + [b];
        WalkGrows(older, b, byHash, ring, parent, budget);
      } else {
        assert Reverse(w) == [b];
        LastOfWalk(b, byHash, ring, parent, budget);
      }
    }
  }

  lemma EmptyWalk(byHash: Hash -> Option<BlockResult>, ring: seq<BlockSample>, parent: Hash, budget: nat)
    requires budget == 0 || byHash(parent) == None
    ensures IsWalk([], byHash, ring, parent, budget)
  {
  }

  lemma LastOfWalk(
      b: BlockResult, byHash: Hash -> Option<BlockResult>, ring: seq<BlockSample>, parent: Hash, budget: nat)
    requires budget > 0 && byHash(parent) == Some(b)
    requires b.parentHash.None? || IsKnown(ring, b.parentHash.value)
    ensures IsWalk([b], byHash, ring, parent, budget)
  {
  }
}
