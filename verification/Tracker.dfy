/** One tracked transaction beside the tracker's ring: the block path and the mempool path. */
module Tracker {
  import opened Wrappers
  import opened Sequences
  import opened Observations
  import opened ObservationRuns
  import opened Outcomes
  import opened Reorg
  import opened Mempool

  datatype TrackedBlock = TrackedBlock(number: int, hash: Hash, parentHash: Option<Hash>, txs: seq<RawTx>)

  datatype TrackerState = TrackerState(record: Record, ring: seq<RingBlock>, latestTip: Option<int>)

  function TxHashes(txs: seq<RawTx>): set<Hash> {
    set tx | tx in txs && tx.hash.Some? :: tx.hash.value
  }

  function Tip(b: TrackedBlock): RingBlock {
    RingBlock(b.number, b.hash, b.parentHash, TxHashes(b.txs))
  }

  /** The entry the new tip contradicts, if it is within the compared depth. */
  function Contradicted(ring: seq<RingBlock>, b: TrackedBlock, depth: int): seq<BlockDivergence> {
    if ring == [] then []
    else DivergenceList(ring, map[b.number := Tip(b)], LowestCompared(ring, [Tip(b)], depth))
  }

  function VanishingOf(d: BlockDivergence): Vanishing {
    Vanishing(d.previousBlockHash, d.canonicalBlockHash, d.blockNumber)
  }

  function Divergences(ds: seq<BlockDivergence>): seq<Step> {
    if ds == [] then [] else Divergences(ds[..|ds| - 1]) + [Divergence(VanishingOf(ds[|ds| - 1]))]
  }

  function BlockInputOf(b: TrackedBlock, latestTip: Option<int>, confirmationsForTerminal: Option<nat>): BlockInput {
    BlockInput(b.hash, b.number, b.txs, latestTip, confirmationsForTerminal)
  }

  /** A newer block was applied already. */
  predicate Stale(r: Record, b: TrackedBlock) {
    r.status.lastObservedAtBlock.Some? && r.status.lastObservedAtBlock.value > b.number
  }

  // ----- a block is handled in two halves -----

  /**
   A block arrives: the ring takes it in, and whatever it contradicts is reported. The source does
   this without interruption, but may then wait for receipts before it looks at its records.
   */
  function ArriveState(s: TrackerState, b: TrackedBlock, depth: int): TrackerState {
    TrackerState(
      RecordAfter(s.record, Divergences(Contradicted(s.ring, b, depth))),
      Append(s.ring, Tip(b), 2 * depth),
      Some(b.number))
  }

  /** What the decision on a block does to the record, as a run. */
  function DecideSteps(r: Record, b: TrackedBlock, previousTip: Option<int>, terminal: Option<nat>): seq<Step> {
    if Stale(r, b) then [] else [Block(BlockInputOf(b, previousTip, terminal))]
  }

  /** The decision follows, on the record and ring as they are by then. */
  function DecideState(
      s: TrackerState, b: TrackedBlock, previousTip: Option<int>, terminal: Option<nat>): TrackerState
  {
    s.(record := RecordAfter(s.record, DecideSteps(s.record, b, previousTip, terminal)))
  }

  /** Both halves in one go, as when no receipt is wanted. */
  function OnBlockState(s: TrackerState, b: TrackedBlock, depth: int, terminal: Option<nat>): TrackerState {
    DecideState(ArriveState(s, b, depth), b, s.latestTip, terminal)
  }

  class TxTracker {
    const reorgDepthBlocks: nat
    const confirmationsForTerminal: Option<nat>
    const tracked: TrackedTx
    var blockRing: seq<RingBlock>
    var latestTip: Option<int>

    ghost predicate Valid()
      reads this
    {
      Ascending(blockRing)
    }

    function State(): TrackerState
      reads this, tracked
    {
      TrackerState(tracked.record, blockRing, latestTip)
    }

    constructor (r: Record, reorgDepthBlocks: nat, confirmationsForTerminal: Option<nat>)
      ensures Valid() && fresh(tracked)
      ensures State() == TrackerState(r, [], None)
      ensures this.reorgDepthBlocks == reorgDepthBlocks
      ensures this.confirmationsForTerminal == confirmationsForTerminal
    {
      this.reorgDepthBlocks := reorgDepthBlocks;
      this.confirmationsForTerminal := confirmationsForTerminal;
      tracked := new TrackedTx(r);
      blockRing, latestTip := [], None;
    }

    method HandleReorgs(previousRing: seq<RingBlock>, newTip: RingBlock, b: TrackedBlock)
      returns (events: seq<Event>)
      requires newTip == Tip(b) && Ascending(previousRing)
      modifies tracked
      ensures tracked.record
           == RecordAfter(old(tracked.record), Divergences(Contradicted(previousRing, b, reorgDepthBlocks)))
      ensures events
           == Trace(old(tracked.record), Divergences(Contradicted(previousRing, b, reorgDepthBlocks)))
    {
      hide EventsOf, After;
      var divergences := DetectDivergences(previousRing, [newTip], reorgDepthBlocks);
      ghost var r := tracked.record;
      AtMostOneDivergence(previousRing, b, reorgDepthBlocks, divergences);
      events := [];
      for i := 0 to |divergences|
        invariant tracked.record == RecordAfter(r, Divergences(divergences[..i]))
        invariant events == Trace(r, Divergences(divergences[..i]))
      {
        var more := tracked.OnDivergence(VanishingOf(divergences[i]));
        events := events + more;
        assert divergences[..i + 1][..i] == divergences[..i];
        StepThen(r, Divergences(divergences[..i]), Divergence(VanishingOf(divergences[i])));
      }
      assert divergences[..|divergences|] == divergences;
    }

    /** The first half; the tip it returns is the one before this block. */
    method BlockArrives(b: TrackedBlock) returns (events: seq<Event>, previousTip: Option<int>)
      requires Valid()
      modifies this, tracked
      ensures Valid()
      ensures State() == ArriveState(old(State()), b, reorgDepthBlocks) && previousTip == old(latestTip)
      ensures events
           == Trace(old(tracked.record), Divergences(Contradicted(old(blockRing), b, reorgDepthBlocks)))
    {
      hide EventsOf, After, Append, Contradicted, Trace, RecordAfter;
      var previousRing := blockRing;
      previousTip := latestTip;
      var newTip := Tip(b);
      latestTip := Some(b.number);
      blockRing := AppendBlock(blockRing, newTip, reorgDepthBlocks * 2);
      events := HandleReorgs(previousRing, newTip, b);
    }

    /** The second half, behind the stale-block guard. */
    method BlockDecided(b: TrackedBlock, previousTip: Option<int>) returns (events: seq<Event>)
      requires Valid()
      modifies tracked
      ensures Valid()
      ensures State() == DecideState(old(State()), b, previousTip, confirmationsForTerminal)
      ensures events
           == Trace(old(tracked.record), DecideSteps(old(tracked.record), b, previousTip, confirmationsForTerminal))
    {
      hide EventsOf, After;
      var recordedSince := tracked.record.status.lastObservedAtBlock;
      if recordedSince.Some? && recordedSince.value > b.number {
        return [];
      }
      OneStep(tracked.record, Block(BlockInputOf(b, previousTip, confirmationsForTerminal)));
      events := tracked.OnBlock(BlockInputOf(b, previousTip, confirmationsForTerminal));
    }

    /** A block for which nothing has to be fetched. */
    method OnBlock(b: TrackedBlock) returns (events: seq<Event>)
      requires Valid()
      modifies this, tracked
      ensures Valid()
      ensures State() == OnBlockState(old(State()), b, reorgDepthBlocks, confirmationsForTerminal)
      ensures var arrived := ArriveState(old(State()), b, reorgDepthBlocks);
              events
              == Trace(old(tracked.record), Divergences(Contradicted(old(blockRing), b, reorgDepthBlocks)))
                 + Trace(arrived.record,
                         DecideSteps(arrived.record, b, old(latestTip), confirmationsForTerminal))
    {
      hide ArriveState, DecideState, DecideSteps, Contradicted, Trace;
      var first, previousTip := BlockArrives(b);
      var second := BlockDecided(b, previousTip);
      events := first + second;
    }

    /** A snapshot: presence and replacement are looked up, then decided on. */
    method OnMempool(snapshot: Snapshot, normalizeNonce: string -> string) returns (events: seq<Event>)
      requires Valid()
      modifies tracked
      ensures Valid()
      ensures var m := InputFor(old(tracked.record), snapshot, normalizeNonce, latestTip.GetOr(0));
              && State() == old(State()).(record := After(old(tracked.record), Mempool(m)))
              && events == EventsOf(old(tracked.record), Mempool(m))
    {
      var byHash := BuildIndex(snapshot);
      var record := tracked.record;
      var presence := if record.hash in byHash then Some(byHash[record.hash]) else None;
      var replacement := None;
      if record.identity.Some? {
        replacement := FindReplacementInMempool(snapshot, record.identity.value, record.hash, normalizeNonce);
      }
      var tip := latestTip.GetOr(0);
      events := tracked.OnMempool(MempoolInput(presence, replacement, tip, tip));
    }
  }

  lemma AtMostOneDivergence(ring: seq<RingBlock>, b: TrackedBlock, depth: int, ds: seq<BlockDivergence>)
    requires Ascending(ring)
    requires ring == [] ==> ds == []
    requires ring != [] ==>
               OrderedPermutation(
                 DivergenceList(ring, LastWriter([Tip(b)]), LowestCompared(ring, [Tip(b)], depth)),
                 ds, DivergenceAtMost)
    ensures ds == Contradicted(ring, b, depth)
    ensures |ds| <= 1
  {
    if ring != [] {
      var lowest := LowestCompared(ring, [Tip(b)], depth);
      LastWriterOne(Tip(b));
      var list := DivergenceList(ring, map[b.number := Tip(b)], lowest);
      OneCanonicalBlock(ring, Tip(b), lowest);
      assert |multiset(ds)| == |multiset(list)|;
      if list != [] {
        assert ds[0] in multiset(list);
      }
    }
  }

  lemma LastWriterOne(x: RingBlock)
    ensures LastWriter([x]) == map[x.number := x]
  {
    assert [x][..0] == [] && LastWriter([]) == map[];
  }

  // ----- the recorded inclusion follows the ring -----

  /** The block is less than `depth` below the highest height on record. */
  predicate WithinDepth(ring: seq<RingBlock>, b: TrackedBlock, depth: int) {
    ring != [] ==> b.number > ring[|ring| - 1].number - depth
  }

  /** The ring still holds the block of the inclusion, or has moved a full depth past it. */
  ghost predicate Current(seen: Inclusion, ring: seq<RingBlock>, depth: int) {
    && ring != []
    && (HoldsBlock(ring, seen.blockNumber, seen.blockHash)
        || seen.blockNumber + depth <= ring[|ring| - 1].number)
  }

  predicate HoldsBlock(ring: seq<RingBlock>, number: int, hash: Hash) {
    exists x | x in ring :: x.number == number && x.hash == hash
  }

  ghost predicate InclusionCurrent(s: TrackerState, depth: int) {
    s.record.status.lastSeenInBlock.Some? ==> Current(s.record.status.lastSeenInBlock.value, s.ring, depth)
  }

  lemma {:induction false} PlaceLast(ring: seq<RingBlock>, b: RingBlock)
    requires Ascending(ring)
    ensures var p := Place(ring, b);
            p != [] && p[|p| - 1].number >= b.number
            && (ring != [] ==> p[|p| - 1].number >= ring[|ring| - 1].number)
  {
  }

  lemma {:induction false} AscendingSpan(ring: seq<RingBlock>, i: nat)
    requires Ascending(ring) && i < |ring|
    ensures ring[|ring| - 1].number >= ring[i].number + |ring| - 1 - i
    decreases |ring| - i
  {
    if i == |ring| - 1 {
    } else {
      AscendingSpan(ring, i + 1);
      assert ring[i].number < ring[i + 1].number;
    }
  }

  /** An entry is evicted only once the ring has moved a whole capacity past it. */
  lemma AppendKeepsOrPasses(ring: seq<RingBlock>, b: RingBlock, capacity: nat, x: RingBlock)
    requires Ascending(ring) && capacity > 0
    requires x == b || (x in ring && x.number != b.number)
    ensures var next := Append(ring, b, capacity);
            next != [] && (x in next || x.number + capacity <= next[|next| - 1].number)
  {
    PlaceAscending(ring, b);
    PlaceLast(ring, b);
    if x != b {
      PlaceKeeps(ring, b, x);
    }
    var p := Place(ring, b);
    var i :| 0 <= i < |p| && p[i] == x;
    AscendingSpan(p, i);
    var next := Append(ring, b, capacity);
    if |p| > capacity {
      assert next == p[|p| - capacity..];
      if i >= |p| - capacity {
        assert next[i - (|p| - capacity)] == x;
      }
    }
  }

  lemma AppendLastGrows(ring: seq<RingBlock>, b: RingBlock, capacity: nat)
    requires Ascending(ring) && capacity > 0 && ring != []
    ensures var next := Append(ring, b, capacity);
            next != [] && next[|next| - 1].number >= ring[|ring| - 1].number
  {
    PlaceLast(ring, b);
  }

  /** A divergence names the block the ring holds at the new tip's height. */
  lemma ContradictedIsHeld(ring: seq<RingBlock>, b: TrackedBlock, depth: int)
    requires Ascending(ring) && WithinDepth(ring, b, depth)
    ensures |Contradicted(ring, b, depth)| <= 1
    ensures forall x | x in ring && x.number == b.number && x.hash != b.hash ::
              Contradicted(ring, b, depth) == [DivergenceOf(x, map[b.number := Tip(b)])]
    ensures (forall x | x in ring && x.number == b.number :: x.hash == b.hash) ==>
              Contradicted(ring, b, depth) == []
  {
    if ring != [] {
      var m, lowest := map[b.number := Tip(b)], LowestCompared(ring, [Tip(b)], depth);
      OneCanonicalBlock(ring, Tip(b), lowest);
      forall x | x in ring && x.number == b.number && x.hash != b.hash
        ensures Contradicted(ring, b, depth) == [DivergenceOf(x, m)]
      {
        HeightAtMostTip(ring, x);
        DivergencesExact(ring, m, lowest, DivergenceOf(x, m));
      }
      if Contradicted(ring, b, depth) != [] {
        DivergencesExact(ring, m, lowest, Contradicted(ring, b, depth)[0]);
      }
    }
  }

  /** A block a full depth below the tip is never compared. */
  lemma DeepBlockIsSilent(ring: seq<RingBlock>, b: TrackedBlock, depth: nat)
    requires Ascending(ring) && !WithinDepth(ring, b, depth)
    ensures Contradicted(ring, b, depth) == []
  {
    var m, lowest := map[b.number := Tip(b)], LowestCompared(ring, [Tip(b)], depth);
    if Contradicted(ring, b, depth) != [] {
      DivergencesExact(ring, m, lowest, Contradicted(ring, b, depth)[0]);
    }
  }

  lemma HeightAtMostTip(ring: seq<RingBlock>, x: RingBlock)
    requires Ascending(ring) && x in ring
    ensures x.number <= ring[|ring| - 1].number
  {
    var i :| 0 <= i < |ring| && ring[i] == x;
    AscendingSpan(ring, i);
  }

  /** The record just before the block itself is looked at. */
  lemma AfterReorg(s: TrackerState, b: TrackedBlock, depth: nat)
    requires Ascending(s.ring) && depth > 0 && InclusionCurrent(s, depth)
    ensures var r := RecordAfter(s.record, Divergences(Contradicted(s.ring, b, depth)));
            && (r.status.lastSeenInBlock.Some? ==>
                  && r.status.lastSeenInBlock == s.record.status.lastSeenInBlock
                  && Current(r.status.lastSeenInBlock.value, Append(s.ring, Tip(b), 2 * depth), depth))
    ensures forall e | e in Trace(s.record, Divergences(Contradicted(s.ring, b, depth))) ::
              e.VanishedFromBlock?
              && s.record.status.lastSeenInBlock.Some?
              && e.vanishing.previousBlockHash == s.record.status.lastSeenInBlock.value.blockHash
  {
    hide Append, DivergenceList;
    if WithinDepth(s.ring, b, depth) {
      ContradictedIsHeld(s.ring, b, depth);
    } else {
      DeepBlockIsSilent(s.ring, b, depth);
    }
    var ds := Contradicted(s.ring, b, depth);
    if ds == [] {
      assert Divergences(ds) == [];
      assert RecordAfter(s.record, []) == s.record && Trace(s.record, []) == [];
    } else {
      assert ds == [ds[0]] && ds[..0] == [];
      assert Divergences(ds) == [Divergence(VanishingOf(ds[0]))] by { assert Divergences([]) == []; }
      OneStep(s.record, Divergence(VanishingOf(ds[0])));
      assert Trace(s.record, Divergences(ds)) == EventsOf(s.record, Divergence(VanishingOf(ds[0]))) by {
        StepThen(s.record, [], Divergence(VanishingOf(ds[0])));
        assert [] + [Divergence(VanishingOf(ds[0]))] == [Divergence(VanishingOf(ds[0]))];
        assert Trace(s.record, []) == [] && RecordAfter(s.record, []) == s.record;
      }
    }
    if s.record.status.lastSeenInBlock.Some? {
      InclusionSurvives(s.record.status.lastSeenInBlock.value, s.ring, b, depth);
    }
  }

  lemma InclusionSurvives(seen: Inclusion, ring: seq<RingBlock>, b: TrackedBlock, depth: nat)
    requires Ascending(ring) && depth > 0 && Current(seen, ring, depth)
    ensures WithinDepth(ring, b, depth) ==>
              forall x | x in ring && x.number == b.number && seen.blockNumber == b.number ::
                x.hash == seen.blockHash
    ensures seen.blockNumber != b.number || seen.blockHash == b.hash || !WithinDepth(ring, b, depth) ==>
              Current(seen, Append(ring, Tip(b), 2 * depth), depth)
  {
    hide Append;
    AppendLastGrows(ring, Tip(b), 2 * depth);
    if HoldsBlock(ring, seen.blockNumber, seen.blockHash) {
      var x :| x in ring && x.number == seen.blockNumber && x.hash == seen.blockHash;
      forall y | y in ring && y.number == x.number
        ensures y == x
      {
        SameHeightSameBlock(ring, x, y);
      }
      if seen.blockNumber != b.number {
        AppendKeepsOrPasses(ring, Tip(b), 2 * depth, x);
      } else if seen.blockHash == b.hash {
        AppendKeepsOrPasses(ring, Tip(b), 2 * depth, Tip(b));
      }
    }
  }

  lemma SameHeightSameBlock(ring: seq<RingBlock>, x: RingBlock, y: RingBlock)
    requires Ascending(ring) && x in ring && y in ring && x.number == y.number
    ensures x == y
  {
    var i :| 0 <= i < |ring| && ring[i] == x;
    var j :| 0 <= j < |ring| && ring[j] == y;
    HeightsDiffer(ring, i, j);
  }

  lemma HeightsDiffer(ring: seq<RingBlock>, i: nat, j: nat)
    requires Ascending(ring) && i < |ring| && j < |ring|
    ensures i != j ==> ring[i].number != ring[j].number
  {
  }

  /**
   An arrival keeps the inclusion a record counts confirmations for on the ring, or a full depth below
   the tip, and takes the new block in.
   */
  lemma ArrivalKeepsInclusionCurrent(s: TrackerState, b: TrackedBlock, depth: nat)
    requires Ascending(s.ring) && depth > 0 && InclusionCurrent(s, depth)
    ensures InclusionCurrent(ArriveState(s, b, depth), depth)
    ensures StillOnRing(ArriveState(s, b, depth).ring, b, depth)
    ensures Ascending(ArriveState(s, b, depth).ring)
  {
    hide Append, Contradicted, After, EventsOf, Current;
    AfterReorg(s, b, depth);
    AppendAscending(s.ring, Tip(b), 2 * depth);
    AppendKeepsOrPasses(s.ring, Tip(b), 2 * depth, Tip(b));
  }

  /** The events an arrival causes: each takes away exactly the block the transaction was counted in. */
  lemma VanishingNamesTheCounted(s: TrackerState, b: TrackedBlock, depth: nat, e: Event)
    requires Ascending(s.ring) && depth > 0 && InclusionCurrent(s, depth)
    requires e in Trace(s.record, Divergences(Contradicted(s.ring, b, depth)))
    ensures e.VanishedFromBlock? && s.record.status.lastSeenInBlock.Some?
    ensures e.vanishing.previousBlockHash == s.record.status.lastSeenInBlock.value.blockHash
  {
    hide Append, Contradicted, After, EventsOf, Current;
    AfterReorg(s, b, depth);
  }

  /** The ring holds the block, or has moved a full depth past it. */
  predicate StillOnRing(ring: seq<RingBlock>, b: TrackedBlock, depth: nat) {
    && ring != []
    && (HoldsBlock(ring, b.number, b.hash) || b.number + depth <= ring[|ring| - 1].number)
  }

  /** The decision comes while the block still stands, or would not count the transaction in it anyway. */
  predicate Timely(s: TrackerState, b: TrackedBlock, depth: nat) {
    Stale(s.record, b) || IndexOfHash(b.txs, s.record.hash) < 0 || StillOnRing(s.ring, b, depth)
  }

  /** A decision keeps the inclusion current if and only if it is timely. */
  lemma DecisionKeepsInclusionIff(
      s: TrackerState, b: TrackedBlock, previousTip: Option<int>, terminal: Option<nat>, depth: nat)
    requires InclusionCurrent(s, depth)
    ensures InclusionCurrent(DecideState(s, b, previousTip, terminal), depth) <==> Timely(s, b, depth)
  {
    hide IndexOfHash, ReplacementIn, CacheIdentity, HoldsBlock;
    if Stale(s.record, b) {
      assert RecordAfter(s.record, []) == s.record;
    } else {
      OneStep(s.record, Block(BlockInputOf(b, previousTip, terminal)));
    }
  }

  lemma AppendAscending(ring: seq<RingBlock>, b: RingBlock, capacity: int)
    requires Ascending(ring)
    ensures Ascending(Append(ring, b, capacity))
  {
    PlaceAscending(ring, b);
    SuffixAscending(Place(ring, b), capacity);
  }

  /** Handled in one go, every block keeps the inclusion current. */
  lemma BlockKeepsInclusionCurrent(s: TrackerState, b: TrackedBlock, depth: nat, terminal: Option<nat>)
    requires Ascending(s.ring) && depth > 0 && InclusionCurrent(s, depth)
    ensures InclusionCurrent(OnBlockState(s, b, depth, terminal), depth)
  {
    hide ArriveState, DecideState, InclusionCurrent, StillOnRing;
    ArrivalKeepsInclusionCurrent(s, b, depth);
    DecisionKeepsInclusionIff(ArriveState(s, b, depth), b, s.latestTip, terminal, depth);
  }

  // ----- runs of the tracker -----

  /** Arrivals and decisions of different blocks may interleave; a decision carries the tip its arrival saw. */
  datatype Input =
    | Arrived(block: TrackedBlock)
    | Decided(block: TrackedBlock, previousTip: Option<int>)
    | NewSnapshot(mempool: MempoolInput)

  function Next(s: TrackerState, input: Input, depth: int, terminal: Option<nat>): TrackerState {
    match input
    case Arrived(b) => ArriveState(s, b, depth)
    case Decided(b, previousTip) => DecideState(s, b, previousTip, terminal)
    case NewSnapshot(m) => s.(record := After(s.record, Mempool(m)))
  }

  function StateAfter(r: Record, inputs: seq<Input>, depth: int, terminal: Option<nat>): TrackerState {
    if inputs == [] then TrackerState(r, [], None)
    else Next(StateAfter(r, inputs[..|inputs| - 1], depth, terminal), inputs[|inputs| - 1], depth, terminal)
  }

  predicate TimelyInput(s: TrackerState, input: Input, depth: nat) {
    input.Decided? ==> Timely(s, input.block, depth)
  }

  predicate TimelyAt(r: Record, inputs: seq<Input>, k: nat, depth: nat, terminal: Option<nat>)
    requires k < |inputs|
  {
    TimelyInput(StateAfter(r, inputs[..k], depth, terminal), inputs[k], depth)
  }

  ghost predicate CurrentAt(r: Record, inputs: seq<Input>, k: nat, depth: nat, terminal: Option<nat>)
    requires k <= |inputs|
  {
    InclusionCurrent(StateAfter(r, inputs[..k], depth, terminal), depth)
  }

  ghost predicate AllTimely(r: Record, inputs: seq<Input>, depth: nat, terminal: Option<nat>) {
    forall k | 0 <= k < |inputs| :: TimelyAt(r, inputs, k, depth, terminal)
  }

  ghost predicate AlwaysCurrent(r: Record, inputs: seq<Input>, depth: nat, terminal: Option<nat>) {
    forall k | 0 <= k <= |inputs| :: CurrentAt(r, inputs, k, depth, terminal)
  }

  lemma NextKeepsInclusionIff(s: TrackerState, input: Input, depth: nat, terminal: Option<nat>)
    requires Ascending(s.ring) && depth > 0 && InclusionCurrent(s, depth)
    ensures InclusionCurrent(Next(s, input, depth, terminal), depth) <==> TimelyInput(s, input, depth)
  {
    hide ArriveState, DecideState, Current, After, Timely;
    match input
    case Arrived(b) => ArrivalKeepsInclusionCurrent(s, b, depth);
    case Decided(b, previousTip) => DecisionKeepsInclusionIff(s, b, previousTip, terminal, depth);
    case NewSnapshot(m) => SnapshotKeepsInclusion(s.record, m);
  }

  lemma {:induction false} RingAscending(r: Record, inputs: seq<Input>, depth: nat, terminal: Option<nat>)
    ensures Ascending(StateAfter(r, inputs, depth, terminal).ring)
  {
    hide Append, After, RecordAfter;
    if inputs == [] {
    } else {
      var n := |inputs| - 1;
      RingAscending(r, inputs[..n], depth, terminal);
      if inputs[n].Arrived? {
        AppendAscending(StateAfter(r, inputs[..n], depth, terminal).ring, Tip(inputs[n].block), 2 * depth);
      }
    }
  }

  /**
   Main result: on a run with any interleaving of arrivals, decisions and snapshots the inclusion is
   current at every point if and only if every decision is timely.
   */
  lemma {:induction false} InclusionCurrentIff(r: Record, inputs: seq<Input>, depth: nat, terminal: Option<nat>)
    requires depth > 0 && r.status.lastSeenInBlock.None?
    ensures AlwaysCurrent(r, inputs, depth, terminal) <==> AllTimely(r, inputs, depth, terminal)
  {
    hide StateAfter, Next, InclusionCurrent, TimelyInput, AlwaysCurrent, AllTimely;
    if inputs == [] {
      EmptyRun(r, depth, terminal);
    } else {
      var n := |inputs| - 1;
      var before := inputs[..n];
      InclusionCurrentIff(r, before, depth, terminal);
      RingAscending(r, before, depth, terminal);
      RunGrows(r, before, inputs[n], depth, terminal);
      assert before + [inputs[n]] == inputs;
      var s := StateAfter(r, before, depth, terminal);
      if AlwaysCurrent(r, before, depth, terminal) {
        NextKeepsInclusionIff(s, inputs[n], depth, terminal);
      }
    }
  }

  /** What one more input adds to either side. */
  lemma RunGrows(r: Record, before: seq<Input>, input: Input, depth: nat, terminal: Option<nat>)
    ensures var s := StateAfter(r, before, depth, terminal);
            && (AlwaysCurrent(r, before, depth, terminal) ==> InclusionCurrent(s, depth))
            && (AlwaysCurrent(r, before + [input], depth, terminal) <==>
                  AlwaysCurrent(r, before, depth, terminal)
                  && InclusionCurrent(Next(s, input, depth, terminal), depth))
            && (AllTimely(r, before + [input], depth, terminal) <==>
                  AllTimely(r, before, depth, terminal) && TimelyInput(s, input, depth))
  {
    hide Next, InclusionCurrent, TimelyInput, StateAfter, TimelyAt, CurrentAt;
    var n, all := |before|, before + [input];
    forall k | 0 <= k <= n
      ensures CurrentAt(r, before, k, depth, terminal) == CurrentAt(r, all, k, depth, terminal)
    {
      SamePrefix(r, before, input, k, depth, terminal);
    }
    forall k | 0 <= k < n
      ensures TimelyAt(r, before, k, depth, terminal) == TimelyAt(r, all, k, depth, terminal)
    {
      SamePrefix(r, before, input, k, depth, terminal);
    }
    LastPrefix(r, before, input, depth, terminal);
    assert AlwaysCurrent(r, before, depth, terminal) ==> CurrentAt(r, before, n, depth, terminal);
  }

  lemma SamePrefix(r: Record, before: seq<Input>, input: Input, k: nat, depth: nat, terminal: Option<nat>)
    requires k <= |before|
    ensures CurrentAt(r, before, k, depth, terminal) == CurrentAt(r, before + [input], k, depth, terminal)
    ensures k < |before| ==> TimelyAt(r, before, k, depth, terminal) == TimelyAt(r, before + [input], k, depth, terminal)
  {
    hide InclusionCurrent, TimelyInput, StateAfter;
    assert before[..k] == (before + [input])[..k];
  }

  lemma LastPrefix(r: Record, before: seq<Input>, input: Input, depth: nat, terminal: Option<nat>)
    ensures var s, n := StateAfter(r, before, depth, terminal), |before|;
            && CurrentAt(r, before, n, depth, terminal) == InclusionCurrent(s, depth)
            && CurrentAt(r, before + [input], n + 1, depth, terminal)
               == InclusionCurrent(Next(s, input, depth, terminal), depth)
            && TimelyAt(r, before + [input], n, depth, terminal) == TimelyInput(s, input, depth)
  {
    hide InclusionCurrent, TimelyInput, Next;
    var n, all := |before|, before + [input];
    assert before[..n] == before && all[..n] == before && all[..n + 1] == all;
  }

  lemma EmptyRun(r: Record, depth: nat, terminal: Option<nat>)
    requires r.status.lastSeenInBlock.None?
    ensures AlwaysCurrent(r, [], depth, terminal) && AllTimely(r, [], depth, terminal)
  {
    hide InclusionCurrent;
    StartsCurrent(r, depth);
    var none: seq<Input> := [];
    assert none[..0] == none;
  }

  lemma StartsCurrent(r: Record, depth: nat)
    requires r.status.lastSeenInBlock.None?
    ensures InclusionCurrent(TrackerState(r, [], None), depth)
  {
  }

  /** Every decision directly follows its arrival. */
  predicate Serial(inputs: seq<Input>) {
    forall k | 0 <= k < |inputs| && inputs[k].Decided? :: k > 0 && inputs[k - 1] == Arrived(inputs[k].block)
  }

  /** If blocks are handled in one go, the inclusion is always current, whatever heads arrive in whatever order. */
  lemma {:induction false} RunKeepsInclusionCurrent(
      r: Record, inputs: seq<Input>, depth: nat, terminal: Option<nat>)
    requires depth > 0 && r.status.lastSeenInBlock.None? && Serial(inputs)
    ensures AlwaysCurrent(r, inputs, depth, terminal)
  {
    hide ArriveState, InclusionCurrent, StillOnRing, AlwaysCurrent;
    forall k | 0 <= k < |inputs|
      ensures TimelyAt(r, inputs, k, depth, terminal)
    {
      if inputs[k].Decided? {
        var before, b := inputs[..k - 1], inputs[k].block;
        assert inputs[..k][..k - 1] == before && inputs[k - 1] == Arrived(b);
        RingAscending(r, before, depth, terminal);
        ArrivedIsOnRing(StateAfter(r, before, depth, terminal), b, depth);
      }
    }
    InclusionCurrentIff(r, inputs, depth, terminal);
  }

  lemma ArrivedIsOnRing(s: TrackerState, b: TrackedBlock, depth: nat)
    requires Ascending(s.ring) && depth > 0
    ensures StillOnRing(ArriveState(s, b, depth).ring, b, depth)
  {
    hide Append;
    AppendKeepsOrPasses(s.ring, Tip(b), 2 * depth, Tip(b));
  }

  /**
   The wait for receipts is enough to break it: block 10a holds the transaction and waits, block 10b
   replaces it without one and is decided first, and then the record is counted in 10a.
   */
  lemma InterleavingBreaksInclusion() returns (r: Record, inputs: seq<Input>)
    ensures r == FreshRecord(Hash(1), 30)
    ensures exists a, b :: inputs == [Arrived(a), Arrived(b), Decided(b, Some(10)), Decided(a, None)]
    ensures !AlwaysCurrent(r, inputs, 12, None)
  {
    hide InclusionCurrent, ArriveState, DecideState, Timely;
    r := FreshRecord(Hash(1), 30);
    var a, b := TrackedBlock(10, Hash(100), None, [OWN_TX]), TrackedBlock(10, Hash(200), None, []);
    inputs := [Arrived(a), Arrived(b), Decided(b, Some(10)), Decided(a, None)];
    TwoArrivals(r, a, b);
    LateDecision(r, a, b);
    var s := TrackerState(r, [Tip(b)], Some(10));
    var one, two := [Arrived(a)], [Arrived(a), Arrived(b)];
    assert one[..0] == [] && two[..1] == one && inputs[..3][..2] == two;
    assert StateAfter(r, [], 12, None) == TrackerState(r, [], None);
    assert StateAfter(r, one, 12, None) == TrackerState(r, [Tip(a)], Some(10));
    assert StateAfter(r, two, 12, None) == s;
    assert inputs[..3][2] == Decided(b, Some(10));
    assert StateAfter(r, inputs[..3], 12, None) == s;
    assert !TimelyAt(r, inputs, 3, 12, None);
    InclusionCurrentIff(r, inputs, 12, None);
  }

  const OWN_TX: RawTx := RawTx(Some(Hash(1)), None, None)

  lemma TwoArrivals(r: Record, a: TrackedBlock, b: TrackedBlock)
    requires r.status.lastSeenInBlock.None? && a.number == b.number
    ensures ArriveState(TrackerState(r, [], None), a, 12) == TrackerState(r, [Tip(a)], Some(a.number))
    ensures ArriveState(TrackerState(r, [Tip(a)], Some(a.number)), b, 12) == TrackerState(r, [Tip(b)], Some(b.number))
  {
    hide Contradicted;
    assert Contradicted([], a, 12) == [] by { NoRingNoDivergence(a); }
    assert Divergences([]) == [] && RecordAfter(r, []) == r;
    assert Append([], Tip(a), 24) == [Tip(a)];
    SwapTip(r, a, b);
  }

  lemma NoRingNoDivergence(b: TrackedBlock)
    ensures Contradicted([], b, 12) == []
  {
  }

  lemma LateDecision(r: Record, a: TrackedBlock, b: TrackedBlock)
    requires r == FreshRecord(Hash(1), 30) && a.txs == [OWN_TX] && b.txs == []
    requires a.number == b.number && a.hash != b.hash
    ensures var s := TrackerState(r, [Tip(b)], Some(b.number));
            DecideState(s, b, Some(10), None) == s && !Timely(s, a, 12)
  {
    OneStep(r, Block(BlockInputOf(b, Some(10), None)));
    assert IndexOfHash(a.txs, Hash(1)) == 0;
  }

  lemma SwapTip(r: Record, a: TrackedBlock, b: TrackedBlock)
    requires a.number == b.number && r.status.lastSeenInBlock.None?
    ensures RecordAfter(r, Divergences(Contradicted([Tip(a)], b, 12))) == r
    ensures Append([Tip(a)], Tip(b), 24) == [Tip(b)]
  {
    hide DivergenceList, LowestCompared;
    assert Ascending([Tip(a)]);
    AtMostOne([Tip(a)], b);
    var ds := Contradicted([Tip(a)], b, 12);
    if ds == [] {
      assert Divergences([]) == [] && RecordAfter(r, []) == r;
    } else {
      assert ds[..0] == [] && Divergences([]) == [];
      assert Divergences(ds) == [Divergence(VanishingOf(ds[0]))];
      OneStep(r, Divergence(VanishingOf(ds[0])));
    }
    assert [Tip(a)][..0] == [];
    assert Place([], Tip(b)) == [Tip(b)];
  }

  lemma AtMostOne(ring: seq<RingBlock>, b: TrackedBlock)
    requires Ascending(ring) && ring != []
    ensures |Contradicted(ring, b, 12)| <= 1
  {
    OneCanonicalBlock(ring, Tip(b), LowestCompared(ring, [Tip(b)], 12));
  }

  lemma SnapshotKeepsInclusion(r: Record, m: MempoolInput)
    ensures After(r, Mempool(m)).status.lastSeenInBlock == r.status.lastSeenInBlock
  {
  }

  // ----- the two halves, spelled out -----

  /**
   A decision leaves everything alone exactly when the record was last observed above the block; otherwise the
   record and the events are those of that one block.
   */
  lemma DecisionSpelled(s: TrackerState, b: TrackedBlock, previousTip: Option<int>, terminal: Option<nat>)
    ensures var next := DecideState(s, b, previousTip, terminal);
            var es := Trace(s.record, DecideSteps(s.record, b, previousTip, terminal));
            var last := s.record.status.lastObservedAtBlock;
            if last.Some? && b.number < last.value then next == s && es == []
            else
              var step := Block(BlockInput(b.hash, b.number, b.txs, previousTip, terminal));
              next == TrackerState(After(s.record, step), s.ring, s.latestTip) && es == EventsOf(s.record, step)
  {
    hide After, EventsOf;
    OneStep(s.record, Block(BlockInputOf(b, previousTip, terminal)));
    assert RecordAfter(s.record, []) == s.record && Trace(s.record, []) == [];
  }

  /** `x` is on the ring at the new block's height with another hash, less than `depth` below the top. */
  predicate Displaced(ring: seq<RingBlock>, b: TrackedBlock, depth: int, x: RingBlock) {
    x in ring && x.number == b.number && x.hash != b.hash && ring[|ring| - 1].number - b.number < depth
  }

  lemma DisplacedDiverges(ring: seq<RingBlock>, b: TrackedBlock, depth: nat, x: RingBlock)
    requires Ascending(ring) && depth > 0 && Displaced(ring, b, depth, x)
    ensures Divergences(Contradicted(ring, b, depth)) == [Divergence(Vanishing(x.hash, b.hash, b.number))]
  {
    hide Contradicted, Ascending;
    ContradictedIsHeld(ring, b, depth);
    var ds := Contradicted(ring, b, depth);
    assert ds[..0] == [] && Divergences([]) == [];
  }

  lemma UndisplacedIsSilent(ring: seq<RingBlock>, b: TrackedBlock, depth: nat)
    requires Ascending(ring) && depth > 0 && forall x :: !Displaced(ring, b, depth, x)
    ensures Divergences(Contradicted(ring, b, depth)) == []
  {
    hide Contradicted, Ascending;
    if WithinDepth(ring, b, depth) {
      ContradictedIsHeld(ring, b, depth);
      forall x | x in ring && x.number == b.number
        ensures x.hash == b.hash
      {
        assert !Displaced(ring, b, depth, x);
      }
    } else {
      DeepBlockIsSilent(ring, b, depth);
    }
  }

  /**
   An arrival moves the tip and puts the block on the ring; the record and the events are those of the one
   divergence it causes, if it displaces an entry.
   */
  lemma ArrivalSpelled(s: TrackerState, b: TrackedBlock, depth: nat)
    requires Ascending(s.ring) && depth > 0
    ensures var next := ArriveState(s, b, depth);
            var es := Trace(s.record, Divergences(Contradicted(s.ring, b, depth)));
            && next.latestTip == Some(b.number) && next.ring == Append(s.ring, Tip(b), 2 * depth)
            && (forall x | Displaced(s.ring, b, depth, x) ::
                  var step := Divergence(Vanishing(x.hash, b.hash, b.number));
                  next.record == After(s.record, step) && es == EventsOf(s.record, step))
            && ((forall x :: !Displaced(s.ring, b, depth, x)) ==> next.record == s.record && es == [])
  {
    hide Append, After, EventsOf, Contradicted, Ascending, Displaced;
    forall x | Displaced(s.ring, b, depth, x)
      ensures var step := Divergence(Vanishing(x.hash, b.hash, b.number));
              && RecordAfter(s.record, Divergences(Contradicted(s.ring, b, depth))) == After(s.record, step)
              && Trace(s.record, Divergences(Contradicted(s.ring, b, depth))) == EventsOf(s.record, step)
    {
      DisplacedDiverges(s.ring, b, depth, x);
      OneStep(s.record, Divergence(Vanishing(x.hash, b.hash, b.number)));
    }
    if forall x :: !Displaced(s.ring, b, depth, x) {
      UndisplacedIsSilent(s.ring, b, depth);
      assert RecordAfter(s.record, []) == s.record && Trace(s.record, []) == [];
    }
  }

  /** After a block that holds the transaction, not below the last observed height, the inclusion is that block. */
  lemma OnBlockIncludes(s: TrackerState, b: TrackedBlock, depth: nat, terminal: Option<nat>)
    requires Ascending(s.ring) && depth > 0 && Carries(b.txs, s.record.hash)
    requires s.record.status.lastObservedAtBlock.Some? ==> s.record.status.lastObservedAtBlock.value <= b.number
    ensures var next := OnBlockState(s, b, depth, terminal);
            && next.record.status.lastSeenInBlock.Some?
            && next.record.status.lastSeenInBlock.value.blockHash == b.hash
            && next.record.status.lastSeenInBlock.value.blockNumber == b.number
            && next.record.status.lastObservedAtBlock == Some(b.number)
  {
    hide ArriveState, DecideState, DecideSteps, Carries, IndexOfHash, Append, After, EventsOf;
    var arrived := ArriveState(s, b, depth);
    ArrivedRecord(s, b, depth);
    DecisionSpelled(arrived, b, s.latestTip, terminal);
    FoundFirst(b.txs, s.record.hash);
    FoundInBlock(
      arrived.record, BlockInput(b.hash, b.number, b.txs, s.latestTip, terminal), IndexOfHash(b.txs, s.record.hash));
  }

  /** An arrival changes neither the hash nor, unless to the block's own height, the last observed height. */
  lemma ArrivedRecord(s: TrackerState, b: TrackedBlock, depth: nat)
    requires Ascending(s.ring) && depth > 0
    ensures var r := ArriveState(s, b, depth).record;
            && r.hash == s.record.hash
            && (r.status.lastObservedAtBlock == s.record.status.lastObservedAtBlock
                || r.status.lastObservedAtBlock == Some(b.number))
  {
    hide ArriveState, Append, Contradicted, Trace;
    ArrivalSpelled(s, b, depth);
    if x :| Displaced(s.ring, b, depth, x) {
      DivergenceSpelled(s.record, Vanishing(x.hash, b.hash, b.number));
    }
  }

  /**
   Two blocks of one height, both holding the transaction: the second takes the first one's inclusion away and
   reports itself with one confirmation.
   */
  lemma SameHeightReorg(s: TrackerState, b: TrackedBlock, depth: nat, terminal: Option<nat>, i: nat)
    requires Ascending(s.ring) && depth > 0
    requires s.record.status.lastSeenInBlock.Some?
    requires var seen := s.record.status.lastSeenInBlock.value;
             && seen.blockNumber == b.number && seen.blockHash != b.hash
             && HoldsBlock(s.ring, seen.blockNumber, seen.blockHash)
             && s.ring[|s.ring| - 1].number - b.number < depth
    requires s.record.status.lastObservedAtBlock.Some? ==> s.record.status.lastObservedAtBlock.value <= b.number
    requires i < |b.txs| && b.txs[i].hash == Some(s.record.hash)
    requires forall j | 0 <= j < i :: b.txs[j].hash != Some(s.record.hash)
    ensures var arrived := ArriveState(s, b, depth);
            var seen := s.record.status.lastSeenInBlock.value;
            && Trace(s.record, Divergences(Contradicted(s.ring, b, depth)))
               == [VanishedFromBlock(Vanishing(seen.blockHash, b.hash, b.number))]
            && Trace(arrived.record, DecideSteps(arrived.record, b, s.latestTip, terminal))
               == [SeenInBlock(Inclusion(b.hash, b.number, i, 1))]
                  + if s.record.status.terminalAtBlockNumber.None? && terminal.Some? && terminal.value <= 1
                    then [ConfirmedTerminal(1)] else []
  {
    hide ArriveState, DecideState, DecideSteps, Contradicted, Append, After, EventsOf, IndexOfHash;
    var seen := s.record.status.lastSeenInBlock.value;
    var x :| x in s.ring && x.number == seen.blockNumber && x.hash == seen.blockHash;
    ArrivalSpelled(s, b, depth);
    assert Displaced(s.ring, b, depth, x);
    DivergenceSpelled(s.record, Vanishing(x.hash, b.hash, b.number));
    var arrived := ArriveState(s, b, depth);
    DecisionSpelled(arrived, b, s.latestTip, terminal);
    FoundInBlock(arrived.record, BlockInput(b.hash, b.number, b.txs, s.latestTip, terminal), i);
  }

  /** The ring entry of a block: its number, hash and parent, and the hashes of its transactions. */
  lemma TipSpelled(b: TrackedBlock)
    ensures Tip(b).number == b.number && Tip(b).hash == b.hash && Tip(b).parentHash == b.parentHash
    ensures forall h :: h in Tip(b).transactionHashes <==> Carries(b.txs, h)
  {
    forall h
      ensures h in Tip(b).transactionHashes <==> Carries(b.txs, h)
    {
      if Carries(b.txs, h) {
        var j :| 0 <= j < |b.txs| && b.txs[j].hash == Some(h);
        assert b.txs[j] in b.txs;
      }
    }
  }
}
