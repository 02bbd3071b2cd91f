/** The tracker's bounded ring of recent blocks and the divergences read off it. */
module Reorg {
  import opened Wrappers
  import opened Sequences
  import opened Observations

  datatype RingBlock = RingBlock(
    number: int,
    hash: Hash,
    parentHash: Option<Hash>,
    transactionHashes: set<Hash>)

  datatype BlockDivergence = BlockDivergence(
    blockNumber: int,
    previousBlockHash: Hash,
    canonicalBlockHash: Hash,
    vanishedTransactionHashes: set<Hash>)

  predicate NumberAtMost(a: RingBlock, b: RingBlock) {
    a.number <= b.number
  }

  predicate DivergenceAtMost(a: BlockDivergence, b: BlockDivergence) {
    a.blockNumber <= b.blockNumber
  }

  ghost predicate Ascending(ring: seq<RingBlock>) {
    forall i, j | 0 <= i < j < |ring| :: ring[i].number < ring[j].number
  }

  // ----- appending -----

  /** Put `b` at its height in an ascending ring, over whatever stands there. */
  function Place(ring: seq<RingBlock>, b: RingBlock): seq<RingBlock> {
    if ring == [] then [b]
    else
      var init, last := ring[..|ring| - 1], ring[|ring| - 1];
      if last.number < b.number then ring + [b]
      else if last.number == b.number then init + [b]
      else Place(init, b) + [last]
  }

  /** Only the newest `capacity` entries survive. */
  function DropOldest(ring: seq<RingBlock>, capacity: int): (r: seq<RingBlock>)
    ensures capacity >= 0 ==> |r| <= capacity
  {
    if |ring| <= capacity then ring
    else if capacity <= 0 then []
    else ring[|ring| - capacity..]
  }

  function Append(ring: seq<RingBlock>, b: RingBlock, capacity: int): seq<RingBlock> {
    DropOldest(Place(ring, b), capacity)
  }

  function Others(ring: seq<RingBlock>, number: int): seq<RingBlock> {
    if ring == [] then []
    else
      var rest, last := Others(ring[..|ring| - 1], number), ring[|ring| - 1];
      if last.number != number then rest + [last] else rest
  }

  lemma {:induction false} PlaceAscending(ring: seq<RingBlock>, b: RingBlock)
    requires Ascending(ring)
    ensures Ascending(Place(ring, b))
    ensures forall x | x in Place(ring, b) :: x == b || x in ring
    ensures b in Place(ring, b)
  {
    if ring == [] {
    } else {
      var init, last := ring[..|ring| - 1], ring[|ring| - 1];
      PlaceAscending(init, b);
      if last.number > b.number {
        assert forall x | x in init :: x.number < last.number;
      }
    }
  }

  lemma {:induction false} OthersAll(ring: seq<RingBlock>, number: int)
    requires forall i | 0 <= i < |ring| :: ring[i].number != number
    ensures Others(ring, number) == ring
  {
    if ring == [] {
    } else {
      OthersAll(ring[..|ring| - 1], number);
    }
  }

  lemma {:induction false} PlacePermutes(ring: seq<RingBlock>, b: RingBlock)
    requires Ascending(ring)
    ensures multiset(Place(ring, b)) == multiset(Others(ring, b.number) + [b])
  {
    if ring == [] {
    } else {
      var init, last := ring[..|ring| - 1], ring[|ring| - 1];
      if last.number < b.number {
        OthersAll(ring, b.number);
      } else if last.number == b.number {
        OthersAll(init, b.number);
      } else {
        PlacePermutes(init, b);
        assert multiset(Place(init, b) + [last]) == multiset(Place(init, b)) + multiset{last};
        assert multiset(Others(init, b.number) + [last] + [b])
            == multiset(Others(init, b.number) + [b]) + multiset{last};
      }
    }
  }

  lemma HeadsAgree(a: seq<RingBlock>, b: seq<RingBlock>)
    requires Ordered(a, NumberAtMost) && Ascending(b) && a != [] && b != []
    requires b[0] in a && a[0] in b
    ensures a[0] == b[0]
  {
    var i :| 0 <= i < |a| && a[i] == b[0];
    var j :| 0 <= j < |b| && b[j] == a[0];
    assert i == 0 || NumberAtMost(a[0], a[i]);
    assert j == 0 || b[0].number < b[j].number;
  }

  lemma AscendingTail(b: seq<RingBlock>)
    requires b != [] && Ascending(b)
    ensures Ascending(b[1..])
  {
  }

  /** Sorting leaves no choice when the heights are distinct. */
  lemma {:induction false} SortedIsAscending(a: seq<RingBlock>, b: seq<RingBlock>)
    requires Ordered(a, NumberAtMost) && Ascending(b) && multiset(a) == multiset(b)
    ensures a == b
  {
    hide Ascending;
    if a == [] {
      assert |multiset(b)| == 0;
    } else {
      assert |multiset(b)| == |a|;
      assert a[0] in multiset(b) && b[0] in multiset(a);
      HeadsAgree(a, b);
      MultisetTail(a);
      MultisetTail(b);
      AscendingTail(b);
      SortedIsAscending(a[1..], b[1..]);
    }
  }

  method AppendBlock(ring: seq<RingBlock>, block: RingBlock, capacityBlocks: int)
    returns (next: seq<RingBlock>)
    requires Ascending(ring)
    ensures next == Append(ring, block, capacityBlocks)
    ensures Ascending(next)
  {
    hide Place, Ascending;
    next := FilterOut(ring, block.number);
    next := next + [block];
    ByNumber();
    next := Sort(next, NumberAtMost);
    PlaceAscending(ring, block);
    PlacePermutes(ring, block);
    SortedIsAscending(next, Place(ring, block));
    SuffixAscending(next, capacityBlocks);
    if |next| > capacityBlocks {
      var drop := |next| - capacityBlocks;
      next := if drop < |next| then next[drop..] else [];
    }
  }

  lemma SuffixAscending(ring: seq<RingBlock>, capacity: int)
    requires Ascending(ring)
    ensures Ascending(DropOldest(ring, capacity))
  {
  }

  method FilterOut(ring: seq<RingBlock>, number: int) returns (rest: seq<RingBlock>)
    ensures rest == Others(ring, number)
  {
    rest := [];
    for i := 0 to |ring|
      invariant rest == Others(ring[..i], number)
    {
      assert ring[..i + 1][..i] == ring[..i];
      if ring[i].number != number {
        rest := rest + [ring[i]];
      }
    }
    assert ring[..|ring|] == ring;
  }

  lemma ByNumber()
    ensures TotalPreorder(NumberAtMost) && TotalPreorder(DivergenceAtMost)
  {
  }

  // ----- the ring is a window on the last-writer map -----

  /** The last block appended at each height. */
  function LastWriter(blocks: seq<RingBlock>): map<int, RingBlock> {
    if blocks == [] then map[]
    else LastWriter(blocks[..|blocks| - 1])[blocks[|blocks| - 1].number := blocks[|blocks| - 1]]
  }

  /** The ring after appending `blocks` one by one. */
  function RingAfter(blocks: seq<RingBlock>, capacity: int): seq<RingBlock> {
    if blocks == [] then []
    else Append(RingAfter(blocks[..|blocks| - 1], capacity), blocks[|blocks| - 1], capacity)
  }

  /** The same without eviction. */
  function FullRing(blocks: seq<RingBlock>): seq<RingBlock> {
    if blocks == [] then []
    else Place(FullRing(blocks[..|blocks| - 1]), blocks[|blocks| - 1])
  }

  /** `s` lists the map in ascending order of height. */
  ghost predicate Lists(s: seq<RingBlock>, m: map<int, RingBlock>) {
    && Ascending(s)
    && (forall x | x in s :: x.number in m && m[x.number] == x)
    && (forall h | h in m :: m[h] in s && m[h].number == h)
  }

  lemma {:induction false} PlaceKeeps(ring: seq<RingBlock>, b: RingBlock, x: RingBlock)
    requires Ascending(ring) && x in ring && x.number != b.number
    ensures x in Place(ring, b)
  {
    var init, last := ring[..|ring| - 1], ring[|ring| - 1];
    if x != last {
      assert x in init;
      if last.number > b.number {
        PlaceKeeps(init, b, x);
      }
    }
  }

  lemma {:induction false} PlaceReplaces(ring: seq<RingBlock>, b: RingBlock, x: RingBlock)
    requires Ascending(ring) && x in Place(ring, b) && x.number == b.number
    ensures x == b
  {
    PlaceAscending(ring, b);
    var p := Place(ring, b);
    var i :| 0 <= i < |p| && p[i] == x;
    var j :| 0 <= j < |p| && p[j] == b;
    assert i < j || j < i || i == j;
  }

  lemma {:induction false} FullRingLists(blocks: seq<RingBlock>)
    ensures Lists(FullRing(blocks), LastWriter(blocks))
  {
    if blocks == [] {
    } else {
      var before, b := blocks[..|blocks| - 1], blocks[|blocks| - 1];
      FullRingLists(before);
      var ring, m := FullRing(before), LastWriter(before);
      PlaceAscending(ring, b);
      forall x | x in Place(ring, b)
        ensures x.number in m[b.number := b] && m[b.number := b][x.number] == x
      {
        if x.number == b.number {
          PlaceReplaces(ring, b, x);
        }
      }
      var m' := m[b.number := b];
      forall h | h in m'
        ensures m'[h] in Place(ring, b) && m'[h].number == h
      {
        if h != b.number {
          PlaceKeeps(ring, b, m[h]);
        }
      }
    }
  }

  lemma SplitLast(a: seq<RingBlock>, c: seq<RingBlock>)
    requires c != []
    ensures (a + c)[..|a + c| - 1] == a + c[..|c| - 1] && (a + c)[|a + c| - 1] == c[|c| - 1]
  {
  }

  lemma Regroup(a: seq<RingBlock>, c: seq<RingBlock>, x: RingBlock)
    ensures a + c + [x] == a + (c + [x])
  {
  }

  /** Placing acts on one side of any cut: on the upper part if the lower part is all below. */
  lemma {:induction false} PlaceAbove(a: seq<RingBlock>, c: seq<RingBlock>, b: RingBlock)
    requires Ascending(a + c) && (a == [] || a[|a| - 1].number < b.number)
    ensures Place(a + c, b) == a + Place(c, b)
  {
    if c == [] {
      assert a + c == a;
    } else {
      var init, last := c[..|c| - 1], c[|c| - 1];
      SplitLast(a, c);
      PlaceAbove(a, init, b);
      Regroup(a, c, b);
      Regroup(a, init, b);
      Regroup(a, Place(init, b), last);
    }
  }

  /** And on the lower part if its top is not below. */
  lemma {:induction false} PlaceBelow(a: seq<RingBlock>, c: seq<RingBlock>, b: RingBlock)
    requires Ascending(a + c) && a != [] && a[|a| - 1].number >= b.number
    ensures Place(a + c, b) == Place(a, b) + c
  {
    if c == [] {
      assert a + c == a;
    } else {
      var init, last := c[..|c| - 1], c[|c| - 1];
      assert (a + c)[|a| - 1].number < (a + c)[|a + c| - 1].number;
      SplitLast(a, c);
      PlaceBelow(a, init, b);
      Regroup(Place(a, b), init, last);
    }
  }

  lemma CutHead(a: seq<RingBlock>, c: seq<RingBlock>, capacity: nat)
    requires |c| >= capacity
    ensures DropOldest(a + c, capacity) == DropOldest(c, capacity)
  {
    if capacity > 0 {
      assert (a + c)[|a| + |c| - capacity..] == c[|c| - capacity..];
    }
  }

  lemma EvictionBelow(head: seq<RingBlock>, kept: seq<RingBlock>, b: RingBlock)
    requires Ascending(head + kept) && head != [] && head[|head| - 1].number >= b.number
    ensures DropOldest(Place(kept, b), |kept|) == kept
    ensures DropOldest(Place(head + kept, b), |kept|) == kept
  {
    hide Place, DropOldest;
    PlaceBelow(head, kept, b);
    forall i | 0 <= i < |kept|
      ensures kept[i].number > b.number
    {
      assert (head + kept)[|head| - 1].number < (head + kept)[|head| + i].number;
    }
    PlaceFirst(kept, b);
    CutHead(Place(head, b), kept, |kept|);
    CutHead([b], kept, |kept|);
    Evicted(kept, |kept|);
  }

  lemma EvictionAbove(head: seq<RingBlock>, kept: seq<RingBlock>, b: RingBlock)
    requires Ascending(head + kept) && head != [] && head[|head| - 1].number < b.number
    ensures DropOldest(Place(kept, b), |kept|) == DropOldest(Place(head + kept, b), |kept|)
  {
    hide Place, DropOldest;
    PlaceAbove(head, kept, b);
    PlaceLength(kept, b);
    CutHead(head, Place(kept, b), |kept|);
  }

  /** Evicting before an append changes nothing that survives it. */
  lemma EvictionCommutes(s: seq<RingBlock>, b: RingBlock, capacity: nat)
    requires Ascending(s)
    ensures DropOldest(Place(DropOldest(s, capacity), b), capacity) == DropOldest(Place(s, b), capacity)
  {
    hide DropOldest, Place;
    Evicted(s, capacity);
    if |s| > capacity {
      var d := |s| - capacity;
      assert s == s[..d] + s[d..];
      if s[d - 1].number < b.number {
        EvictionAbove(s[..d], s[d..], b);
      } else {
        EvictionBelow(s[..d], s[d..], b);
      }
    }
  }

  lemma Evicted(s: seq<RingBlock>, capacity: nat)
    ensures DropOldest(s, capacity) == if |s| <= capacity then s else s[|s| - capacity..]
  {
  }

  lemma {:induction false} PlaceLength(s: seq<RingBlock>, b: RingBlock)
    ensures |s| <= |Place(s, b)| <= |s| + 1
  {
    if s == [] {
    } else {
      PlaceLength(s[..|s| - 1], b);
    }
  }

  lemma {:induction false} PlaceFirst(s: seq<RingBlock>, b: RingBlock)
    requires forall i | 0 <= i < |s| :: s[i].number > b.number
    ensures Place(s, b) == [b] + s
  {
    if s == [] {
    } else {
      PlaceFirst(s[..|s| - 1], b);
    }
  }

  /**
   Main result: after any sequence of appends the ring is the last-writer map over all appended
   heights, listed in ascending order and cut to the `capacity` largest heights. Eviction forgets
   heights, never a later write to a surviving one.
   */
  lemma {:induction false} RingIsWindow(blocks: seq<RingBlock>, capacity: nat)
    ensures Lists(FullRing(blocks), LastWriter(blocks))
    ensures RingAfter(blocks, capacity) == DropOldest(FullRing(blocks), capacity)
    ensures Ascending(RingAfter(blocks, capacity))
  {
    FullRingLists(blocks);
    if blocks == [] {
    } else {
      var before := blocks[..|blocks| - 1];
      RingIsWindow(before, capacity);
      FullRingLists(before);
      EvictionCommutes(FullRing(before), blocks[|blocks| - 1], capacity);
    }
  }

  // ----- divergences -----

  /** The lowest height compared. */
  function LowestCompared(ring: seq<RingBlock>, canonical: seq<RingBlock>, depth: int): int
    requires ring != [] && canonical != []
  {
    var a, b := ring[|ring| - 1].number, canonical[|canonical| - 1].number;
    (if a > b then a else b) - (depth - 1)
  }

  predicate Diverges(x: RingBlock, canonical: map<int, RingBlock>, lowest: int) {
    x.number >= lowest && x.number in canonical && canonical[x.number].hash != x.hash
  }

  function DivergenceOf(x: RingBlock, canonical: map<int, RingBlock>): BlockDivergence
    requires x.number in canonical
  {
    BlockDivergence(x.number, x.hash, canonical[x.number].hash, x.transactionHashes)
  }

  function DivergenceList(ring: seq<RingBlock>, canonical: map<int, RingBlock>, lowest: int)
    : seq<BlockDivergence>
  {
    if ring == [] then []
    else
      var rest, last := DivergenceList(ring[..|ring| - 1], canonical, lowest), ring[|ring| - 1];
      if Diverges(last, canonical, lowest) then rest + [DivergenceOf(last, canonical)] else rest
  }

  method DetectDivergences(ring: seq<RingBlock>, canonical: seq<RingBlock>, depthBlocks: int)
    returns (divergences: seq<BlockDivergence>)
    ensures ring == [] || canonical == [] ==> divergences == []
    ensures ring != [] && canonical != [] ==>
              OrderedPermutation(
                DivergenceList(ring, LastWriter(canonical), LowestCompared(ring, canonical, depthBlocks)),
                divergences, DivergenceAtMost)
  {
    if |ring| == 0 || |canonical| == 0 {
      return [];
    }
    var canonicalByNumber: map<int, RingBlock> := map[];
    for i := 0 to |canonical|
      invariant canonicalByNumber == LastWriter(canonical[..i])
    {
      assert canonical[..i + 1][..i] == canonical[..i];
      canonicalByNumber := canonicalByNumber[canonical[i].number := canonical[i]];
    }
    assert canonical[..|canonical|] == canonical;
    var lowest := LowestCompared(ring, canonical, depthBlocks);
    divergences := [];
    for i := 0 to |ring|
      invariant divergences == DivergenceList(ring[..i], canonicalByNumber, lowest)
    {
      assert ring[..i + 1][..i] == ring[..i];
      var sampled := ring[i];
      if sampled.number < lowest || sampled.number !in canonicalByNumber {
        continue;
      }
      if canonicalByNumber[sampled.number].hash == sampled.hash {
        continue;
      }
      divergences := divergences + [DivergenceOf(sampled, canonicalByNumber)];
    }
    assert ring[..|ring|] == ring;
    ByNumber();
    divergences := Sort(divergences, DivergenceAtMost);
  }

  /** Exactly the compared heights present on both sides with different hashes. */
  lemma {:induction false} DivergencesExact(
      ring: seq<RingBlock>, canonical: map<int, RingBlock>, lowest: int, d: BlockDivergence)
    ensures d in DivergenceList(ring, canonical, lowest)
        <==> exists x | x in ring :: Diverges(x, canonical, lowest) && d == DivergenceOf(x, canonical)
  {
    if ring == [] {
    } else {
      var init, last := ring[..|ring| - 1], ring[|ring| - 1];
      DivergencesExact(init, canonical, lowest, d);
      assert forall x :: x in ring <==> x in init || x == last;
    }
  }

  lemma {:induction false} OneCanonicalBlock(
      ring: seq<RingBlock>, b: RingBlock, lowest: int)
    requires Ascending(ring)
    ensures |DivergenceList(ring, map[b.number := b], lowest)| <= 1
    ensures (forall x | x in ring :: x.number != b.number) ==>
              DivergenceList(ring, map[b.number := b], lowest) == []
  {
    if ring == [] {
    } else {
      var init, last := ring[..|ring| - 1], ring[|ring| - 1];
      OneCanonicalBlock(init, b, lowest);
      if last.number == b.number {
        forall x | x in init
          ensures x.number != b.number
        {
          var i :| 0 <= i < |init| && init[i] == x;
          assert ring[i].number < ring[|ring| - 1].number;
        }
      }
    }
  }

  /** What an append overwrites: the entry at the new block's height, if it has another hash. */
  predicate Overwrites(ring: seq<RingBlock>, b: RingBlock, x: RingBlock) {
    x in ring && x.number == b.number && x.hash != b.hash
  }

  /**
   Nothing is overwritten silently: checked against the ring before the append, the new block
   yields exactly one divergence if the append overwrites an entry within the compared depth, with
   that entry's hash and transactions, and none otherwise.
   */
  lemma OverwriteIsReported(ring: seq<RingBlock>, b: RingBlock, depth: int, ds: seq<BlockDivergence>)
    requires Ascending(ring) && ring != []
    requires OrderedPermutation(
               DivergenceList(ring, LastWriter([b]), LowestCompared(ring, [b], depth)), ds, DivergenceAtMost)
    ensures forall x | Overwrites(ring, b, x) && x.number >= LowestCompared(ring, [b], depth) ::
              ds == [BlockDivergence(b.number, x.hash, b.hash, x.transactionHashes)]
    ensures (forall x | Overwrites(ring, b, x) :: x.number < LowestCompared(ring, [b], depth)) ==> ds == []
  {
    var lowest := LowestCompared(ring, [b], depth);
    assert [b][..0] == [] && LastWriter([]) == map[];
    var m := LastWriter([b]);
    assert m == map[b.number := b];
    var list := DivergenceList(ring, m, lowest);
    OneCanonicalBlock(ring, b, lowest);
    assert |multiset(ds)| == |multiset(list)|;
    forall x | Overwrites(ring, b, x) && x.number >= lowest
      ensures ds == [BlockDivergence(b.number, x.hash, b.hash, x.transactionHashes)]
    {
      var d := DivergenceOf(x, m);
      DivergencesExact(ring, m, lowest, d);
      assert d in multiset(ds);
    }
    if (forall x | Overwrites(ring, b, x) :: x.number < lowest) && ds != [] {
      assert ds[0] in multiset(list);
      DivergencesExact(ring, m, lowest, ds[0]);
    }
  }

  /**
   The compared depth: a tip contradicts the entry at its own height if that entry is less than `depth` below the
   higher of the ring's top and the tip.
   */
  lemma DepthSpelled(ring: seq<RingBlock>, b: RingBlock, depth: int, d: BlockDivergence)
    requires ring != []
    ensures d in DivergenceList(ring, LastWriter([b]), LowestCompared(ring, [b], depth)) <==>
            exists x | x in ring ::
              && x.number == b.number && x.hash != b.hash
              && ring[|ring| - 1].number - x.number < depth && b.number - x.number < depth
              && d == BlockDivergence(x.number, x.hash, b.hash, x.transactionHashes)
  {
    assert [b][..0] == [] && LastWriter([]) == map[];
    var m, lowest := LastWriter([b]), LowestCompared(ring, [b], depth);
    assert m == map[b.number := b];
    DivergencesExact(ring, m, lowest, d);
    forall x | x in ring
      ensures Diverges(x, m, lowest) <==>
              && x.number == b.number && x.hash != b.hash
              && ring[|ring| - 1].number - x.number < depth && b.number - x.number < depth
    {
    }
  }
}
