/**
 What one bridge-and-fold step does to a ring, and when the ring stays a single branch.

 Blocks live in a universe: a hash names one block, and a child's number is its parent's plus one.
 Upstream may fail any lookup; it never makes up a block.
 */
module RingInvariant {
  import opened Wrappers
  import opened Ring
  import opened GapBridge

  ghost predicate Compatible(a: BlockSample, b: BlockSample) {
    && (a.hash == b.hash ==> a == b)
    && (b.parentHash == a.hash ==> b.number == a.number + 1)
  }

  ghost predicate Consistent(u: iset<BlockSample>) {
    forall a, b {:trigger Compatible(a, b)} | a in u && b in u :: Compatible(a, b)
  }

  ghost predicate Within(s: seq<BlockSample>, u: iset<BlockSample>) {
    forall i | 0 <= i < |s| :: s[i] in u
  }

  ghost predicate WellFormed(b: BlockResult, u: iset<BlockSample>) {
    b.hash.Some? && b.parentHash.Some? && ToSample(b) in u
  }

  ghost predicate ServesNumbers(byNumber: int -> Option<BlockResult>, u: iset<BlockSample>) {
    forall n :: byNumber(n).Some? ==> WellFormed(byNumber(n).value, u) && byNumber(n).value.number == n
  }

  ghost predicate ServesHashes(byHash: Hash -> Option<BlockResult>, u: iset<BlockSample>) {
    forall h :: byHash(h).Some? ==> WellFormed(byHash(h).value, u) && byHash(h).value.hash == Some(h)
  }

  predicate Holds(ring: seq<BlockSample>, h: Hash) {
    exists i | 0 <= i < |ring| :: ring[i].hash == h
  }

  /** The ring's standing invariant. */
  ghost predicate ValidRing(ring: seq<BlockSample>, window: int, u: iset<BlockSample>) {
    Linked(ring) && Capped(ring, window) && Within(ring, u)
  }

  /** What one step offers the ring: the bridge, then the new block. */
  function Incoming(
      ring: seq<BlockSample>, newBlock: BlockResult, window: int,
      byNumber: int -> Option<BlockResult>, byHash: Hash -> Option<BlockResult>)
    : (r: seq<BlockSample>)
    ensures r != [] && r[|r| - 1] == ToSample(newBlock)
  {
    ToSamples(Bridge(ring, newBlock, window, byNumber, byHash) + [newBlock])
  }

  /**
   The one way a step can break the chain: the lowest incoming block lands above the bottom of the
   ring, replaces a different block there, has a parent the ring does not hold, and the incoming
   list is too short for the cap to push the stale head out.
   */
  predicate BrokenSplice(ring: seq<BlockSample>, incoming: seq<BlockSample>, window: int)
    requires incoming != []
  {
    && ring != []
    && ring[0].number < incoming[0].number <= ring[|ring| - 1].number
    && !Holds(ring, incoming[0].hash)
    && !Holds(ring, incoming[0].parentHash)
    && !(0 < window <= |incoming|)
  }

  // ----- numbering of a linked ring -----

  lemma {:induction false} LinkedNumber(ring: seq<BlockSample>, i: nat)
    requires Linked(ring) && i < |ring|
    ensures ring[i].number == ring[0].number + i
  {
    if i == 0 {
    } else {
      assert LinkAt(ring, i);
      LinkedNumber(ring, i - 1);
    }
  }

  lemma LinkedNumbers(ring: seq<BlockSample>)
    requires Linked(ring)
    ensures forall i | 0 <= i < |ring| :: ring[i].number == ring[0].number + i
  {
    forall i | 0 <= i < |ring|
      ensures ring[i].number == ring[0].number + i
    {
      LinkedNumber(ring, i);
    }
  }

  lemma LinkedAtOrBelow(ring: seq<BlockSample>, n: int)
    requires Linked(ring) && ring != []
    ensures LastAtOrBelow(ring, n)
         == if n < ring[0].number then -1
            else if n - ring[0].number < |ring| then n - ring[0].number
            else |ring| - 1
  {
    LinkedNumbers(ring);
    var m := LastAtOrBelow(ring, n);
    if m + 1 < |ring| {
      assert ring[m + 1].number > n;
    }
  }

  lemma ParentIsBelow(ring: seq<BlockSample>, b: BlockSample, u: iset<BlockSample>)
    requires Consistent(u) && Linked(ring) && Within(ring, u) && b in u
    requires Holds(ring, b.parentHash)
    ensures 0 <= b.number - 1 - ring[0].number < |ring|
    ensures ring[b.number - 1 - ring[0].number].hash == b.parentHash
  {
    var i :| 0 <= i < |ring| && ring[i].hash == b.parentHash;
    assert Compatible(ring[i], b);
    LinkedNumber(ring, i);
  }

  // ----- exact effect of a linked incoming list -----

  /** How many old entries stay in front of an incoming list that starts with `b`. */
  function Kept(ring: seq<BlockSample>, b: BlockSample): (k: nat)
    requires ring != []
    ensures ring[0].number <= b.number <= ring[|ring| - 1].number ==> k == b.number - ring[0].number
  {
    if ring[0].number <= b.number <= ring[|ring| - 1].number then b.number - ring[0].number
    else if ring[|ring| - 1].number < b.number && b.parentHash == ring[|ring| - 1].hash then |ring|
    else 0
  }

  /** `b` lands at a height the ring covers: everything from that height up is replaced. */
  lemma IncorporateInside(ring: seq<BlockSample>, b: BlockSample, window: int)
    requires ring != [] && Linked(ring)
    requires ring[0].number <= b.number <= ring[|ring| - 1].number
    requires !Holds(ring, b.hash)
    ensures var k := Kept(ring, b);
            && k < |ring|
            && Incorporate(ring, b, window)
               == RingMutation(CapTail(ring[..k] + [b], window), Some(DropEvent(ring, k, b)), false)
  {
    LinkedNumber(ring, |ring| - 1);
    var k := b.number - ring[0].number;
    LinkedAtOrBelow(ring, b.number);
    LinkedNumber(ring, k);
    assert ring[k].hash != b.hash;
  }

  /** `b` extends the tip. */
  lemma IncorporateAbove(ring: seq<BlockSample>, b: BlockSample, window: int)
    requires ring != [] && ring[|ring| - 1].number < b.number
    requires ring[|ring| - 1].hash == b.parentHash
    ensures Incorporate(ring, b, window) == RingMutation(CapTail(ring + [b], window), None, false)
  {
  }

  /** `b` lies below the ring, or above it without its parent. */
  lemma IncorporateOutside(ring: seq<BlockSample>, b: BlockSample, window: int)
    requires ring != [] && Linked(ring)
    requires b.number < ring[0].number
          || (ring[|ring| - 1].number < b.number && ring[|ring| - 1].hash != b.parentHash)
    ensures Incorporate(ring, b, window) == RingMutation([b], None, false)
  {
    LinkedNumber(ring, |ring| - 1);
    LinkedAtOrBelow(ring, b.number);
  }

  lemma LinkedTail(bs: seq<BlockSample>)
    requires bs != [] && Linked(bs)
    ensures Linked(bs[1..])
    ensures |bs| > 1 ==> ChildOf(bs[1], bs[0])
  {
    if |bs| > 1 {
      assert LinkAt(bs, 1);
    }
    forall i | 0 < i < |bs[1..]|
      ensures LinkAt(bs[1..], i)
    {
      assert LinkAt(bs, i + 1);
    }
  }

  /** Each block extends the tip, so folding is one long append. */
  lemma {:induction false} FoldAppends(
      ring: seq<BlockSample>, bs: seq<BlockSample>, window: int, lastReorg: Option<ReorgEvent>)
    requires ring != [] && Capped(ring, window) && Linked(bs)
    requires bs != [] ==> ChildOf(bs[0], ring[|ring| - 1])
    ensures IncorporateAll(ring, bs, window, lastReorg) == (CapTail(ring + bs, window), lastReorg)
    decreases |bs|
  {
    hide Incorporate;
    if bs == [] {
      assert ring + bs == ring;
    } else {
      var r := CapTail(ring + [bs[0]], window);
      IncorporateAbove(ring, bs[0], window);
      assert r[|r| - 1] == bs[0];
      LinkedTail(bs);
      FoldAppends(r, bs[1..], window, lastReorg);
      CapTailTwice(ring, bs, window);
    }
  }

  lemma CapTailTwice(a: seq<BlockSample>, bs: seq<BlockSample>, window: int)
    requires bs != []
    ensures CapTail(CapTail(a + [bs[0]], window) + bs[1..], window) == CapTail(a + bs, window)
  {
    var all, head := a + bs, a + [bs[0]];
    assert head + bs[1..] == all;
    if window > 0 && |head| > window {
      assert CapTail(head, window) + bs[1..] == all[|head| - window..];
    }
  }

  /** The event a linked list starting with `b` leaves behind: the ring's stale tail, if any. */
  function ReorgAfter(
      ring: seq<BlockSample>, b: BlockSample, lastReorg: Option<ReorgEvent>): Option<ReorgEvent>
    requires ring != []
  {
    if ring[0].number <= b.number <= ring[|ring| - 1].number && Kept(ring, b) < |ring|
    then Some(DropEvent(ring, Kept(ring, b), b))
    else lastReorg
  }

  /** After the first block every later one extends the tip. */
  lemma FoldRest(
      ring: seq<BlockSample>, bs: seq<BlockSample>, window: int, lastReorg: Option<ReorgEvent>,
      kept: seq<BlockSample>, m: RingMutation)
    requires bs != [] && Linked(bs)
    requires m == Incorporate(ring, bs[0], window)
    requires m.ring == CapTail(kept + [bs[0]], window)
    ensures IncorporateAll(ring, bs, window, lastReorg)
         == (CapTail(kept + bs, window), if m.reorg.Some? then m.reorg else lastReorg)
  {
    hide Incorporate;
    var r := m.ring;
    assert r[|r| - 1] == bs[0];
    LinkedTail(bs);
    FoldAppends(r, bs[1..], window, if m.reorg.Some? then m.reorg else lastReorg);
    CapTailTwice(kept, bs, window);
  }

  /**
   Folding a linked list whose first block is new to the ring keeps the entries below it, puts the
   list on top and caps; one reorg event names every stale entry that was replaced.
   */
  lemma FoldExact(
      ring: seq<BlockSample>, bs: seq<BlockSample>, window: int, lastReorg: Option<ReorgEvent>)
    requires ring != [] && Linked(ring)
    requires bs != [] && Linked(bs) && !Holds(ring, bs[0].hash)
    requires bs[0].parentHash == ring[|ring| - 1].hash ==> bs[0].number == ring[|ring| - 1].number + 1
    ensures Kept(ring, bs[0]) <= |ring|
    ensures IncorporateAll(ring, bs, window, lastReorg)
         == (CapTail(ring[..Kept(ring, bs[0])] + bs, window), ReorgAfter(ring, bs[0], lastReorg))
  {
    hide Incorporate, IncorporateAll, CapTail;
    var b := bs[0];
    var m := Incorporate(ring, b, window);
    LinkedNumber(ring, |ring| - 1);
    if ring[0].number <= b.number <= ring[|ring| - 1].number {
      IncorporateInside(ring, b, window);
    } else if ring[|ring| - 1].hash == b.parentHash {
      IncorporateAbove(ring, b, window);
      assert ring[..|ring|] == ring;
    } else {
      IncorporateOutside(ring, b, window);
      assert ring[..0] + [b] == [b];
    }
    FoldRest(ring, bs, window, lastReorg, ring[..Kept(ring, b)], m);
  }

  // ----- what the walk by hash brings back -----

  ghost predicate WalkShape(
      w: seq<BlockResult>, byHash: Hash -> Option<BlockResult>, known: set<Hash>, cursor: Hash,
      budget: nat, u: iset<BlockSample>)
  {
    && |w| <= budget
    && (forall i | 0 <= i < |w| :: WellFormed(w[i], u) && w[i].hash.value !in known)
    && (forall i | 0 < i < |w| :: w[i].hash == w[i - 1].parentHash)
    && (w == [] ==> budget == 0 || byHash(cursor) == None)
    && (w != [] ==>
          && w[0].hash == Some(cursor)
          && var p := w[|w| - 1].parentHash.value;
             p in known || |w| == budget || byHash(p) == None)
  }

  lemma {:induction false} WalkHasShape(
      byHash: Hash -> Option<BlockResult>, known: set<Hash>, cursor: Hash, budget: nat,
      u: iset<BlockSample>)
    requires ServesHashes(byHash, u) && cursor !in known
    ensures WalkShape(Walk(byHash, known, cursor, budget), byHash, known, cursor, budget, u)
    decreases budget
  {
    if budget > 0 && byHash(cursor).Some? {
      var b := byHash(cursor).value;
      assert WellFormed(b, u) && b.hash == Some(cursor);
      if b.parentHash.value !in known {
        WalkHasShape(byHash, known, b.parentHash.value, budget - 1, u);
      }
    }
  }

  lemma WalkReversedLinked(
      w: seq<BlockResult>, newBlock: BlockResult, byHash: Hash -> Option<BlockResult>,
      known: set<Hash>, budget: nat, u: iset<BlockSample>)
    requires Consistent(u) && WellFormed(newBlock, u)
    requires WalkShape(w, byHash, known, newBlock.parentHash.value, budget, u)
    ensures var l := ToSamples(Reverse(w) + [newBlock]);
            && |l| == |w| + 1
            && Linked(l) && Within(l, u)
            && (w != [] ==> l[0] == ToSample(w[|w| - 1]) && l[0].hash !in known)
            && (w == [] ==> l == [ToSample(newBlock)])
  {
    var r := Reverse(w) + [newBlock];
    forall i | 0 <= i < |r|
      ensures WellFormed(r[i], u)
      ensures i > 0 ==> r[i].parentHash == r[i - 1].hash
    {
      if i < |w| {
        assert r[i] == w[|w| - 1 - i];
      }
    }
    var l := ToSamples(r);
    forall i | 0 < i < |l|
      ensures LinkAt(l, i)
    {
      assert l[i] == ToSample(r[i]) && l[i - 1] == ToSample(r[i - 1]);
      assert Compatible(l[i - 1], l[i]);
    }
  }

  // ----- one step -----

  function StepRing(
      ring: seq<BlockSample>, newBlock: BlockResult, window: int,
      byNumber: int -> Option<BlockResult>, byHash: Hash -> Option<BlockResult>): seq<BlockSample>
  {
    IncorporateAll(ring, Incoming(ring, newBlock, window, byNumber, byHash), window, None).0
  }

  ghost predicate Extends(a: seq<BlockSample>, b: BlockSample) {
    a != [] && ChildOf(b, a[|a| - 1])
  }

  lemma JoinLinked(a: seq<BlockSample>, b: seq<BlockSample>)
    requires Linked(a) && Linked(b) && b != []
    ensures Linked(a + b) <==> a == [] || Extends(a, b[0])
  {
    var all := a + b;
    if a != [] && Linked(all) {
      assert LinkAt(all, |a|);
    }
    if a == [] || Extends(a, b[0]) {
      forall i | 0 < i < |all|
        ensures LinkAt(all, i)
      {
        if i < |a| {
          assert LinkAt(a, i);
        } else if i > |a| {
          assert LinkAt(b, i - |a|);
        }
      }
    }
  }

  lemma PrefixLinked(s: seq<BlockSample>, k: nat)
    requires k <= |s| && Linked(s)
    ensures Linked(s[..k])
  {
    forall i | 0 < i < k
      ensures LinkAt(s[..k], i)
    {
      assert LinkAt(s, i);
    }
  }

  lemma SuffixLinked(s: seq<BlockSample>, d: nat)
    requires d <= |s| && Linked(s)
    ensures Linked(s[d..])
  {
    forall i | 0 < i < |s[d..]|
      ensures LinkAt(s[d..], i)
    {
      assert LinkAt(s, d + i);
    }
  }

  lemma CappedJoinLinked(a: seq<BlockSample>, b: seq<BlockSample>, window: int)
    requires Linked(a) && Linked(b) && b != []
    ensures Linked(CapTail(a + b, window)) <==> a == [] || 0 < window <= |b| || Extends(a, b[0])
  {
    hide Linked;
    CappedJoin(a, b, window);
    if 0 < window <= |b| {
      SuffixLinked(b, |b| - window);
    } else {
      var d := Dropped(a, b, window);
      SuffixLinked(a, d);
      JoinLinked(a[d..], b);
    }
  }

  /** How many entries of `a` the cap drops from `a + b`. */
  function Dropped(a: seq<BlockSample>, b: seq<BlockSample>, window: int): (d: nat)
    ensures !(0 < window <= |b|) ==> d <= |a| && (a != [] ==> d < |a|)
  {
    if 0 < window < |a| + |b| then |a| + |b| - window else 0
  }

  lemma CappedJoin(a: seq<BlockSample>, b: seq<BlockSample>, window: int)
    ensures CapTail(a + b, window)
         == if 0 < window <= |b| then b[|b| - window..]
            else a[Dropped(a, b, window)..] + b
  {
    var d := Dropped(a, b, window);
    if 0 < window <= |b| {
      assert (a + b)[d..] == b[|b| - window..];
    } else {
      assert (a + b)[d..] == a[d..] + b;
    }
  }

  lemma CapTailKeeps(a: seq<BlockSample>, l: seq<BlockSample>, window: int, u: iset<BlockSample>)
    requires Within(a, u) && Within(l, u) && l != []
    ensures var r := CapTail(a + l, window);
            Capped(r, window) && Within(r, u) && r != [] && r[|r| - 1] == l[|l| - 1]
  {
    var all := a + l;
    forall j | 0 <= j < |all|
      ensures all[j] in u
    {
      assert all[j] == if j < |a| then a[j] else l[j - |a|];
    }
    SuffixWithin(all, CapTail(all, window), u);
  }

  lemma SuffixWithin(s: seq<BlockSample>, r: seq<BlockSample>, u: iset<BlockSample>)
    requires Within(s, u) && |r| <= |s| && r == s[|s| - |r|..]
    ensures Within(r, u)
    ensures r != [] ==> r[|r| - 1] == s[|s| - 1]
  {
  }

  /** Below the new block the ring either holds its parent right there or nowhere. */
  lemma KeptHeadIsParent(ring: seq<BlockSample>, b: BlockSample, window: int, u: iset<BlockSample>)
    requires Consistent(u) && ring != [] && ValidRing(ring, window, u) && b in u
    ensures var k := Kept(ring, b);
            && k <= |ring|
            && (k > 0 ==> (Extends(ring[..k], b) <==> Holds(ring, b.parentHash)))
            && (k > 0 && !Holds(ring, b.parentHash) ==> ring[0].number < b.number <= ring[|ring| - 1].number)
            && (k == 0 ==> !(ring[0].number < b.number <= ring[|ring| - 1].number))
  {
    LinkedNumber(ring, |ring| - 1);
    var k := Kept(ring, b);
    if k > 0 {
      LinkedNumber(ring, k - 1);
      assert ring[..k][k - 1] == ring[k - 1];
      if Holds(ring, b.parentHash) {
        ParentIsBelow(ring, b, u);
      }
    }
  }

  lemma SpliceJoins(
      ring: seq<BlockSample>, l: seq<BlockSample>, window: int, u: iset<BlockSample>)
    requires Consistent(u) && ring != [] && ValidRing(ring, window, u)
    requires l != [] && Linked(l) && Within(l, u)
    requires !Holds(ring, l[0].hash)
    ensures Kept(ring, l[0]) <= |ring|
    ensures Linked(CapTail(ring[..Kept(ring, l[0])] + l, window)) <==> !BrokenSplice(ring, l, window)
  {
    KeptHeadIsParent(ring, l[0], window, u);
    PrefixLinked(ring, Kept(ring, l[0]));
    CappedJoinLinked(ring[..Kept(ring, l[0])], l, window);
  }

  /** The block is already recorded. */
  lemma FoldDuplicate(ring: seq<BlockSample>, b: BlockSample, window: int, u: iset<BlockSample>)
    requires Consistent(u) && ValidRing(ring, window, u) && b in u && Holds(ring, b.hash)
    ensures b in ring
    ensures IncorporateAll(ring, [b], window, None).0 == ring
  {
    var i :| 0 <= i < |ring| && ring[i].hash == b.hash;
    assert Compatible(ring[i], b);
    LinkedNumber(ring, i);
    LinkedAtOrBelow(ring, b.number);
    assert Incorporate(ring, b, window).ring == ring;
  }

  /** Consecutive numbers above the tip append or restart; either way no link breaks. */
  lemma {:induction false} FoldConsecutive(
      ring: seq<BlockSample>, bs: seq<BlockSample>, window: int, u: iset<BlockSample>,
      e: Option<ReorgEvent>)
    requires ring != [] && ValidRing(ring, window, u) && Within(bs, u)
    requires forall i | 0 <= i < |bs| :: bs[i].number == ring[|ring| - 1].number + 1 + i
    ensures var r := IncorporateAll(ring, bs, window, e).0;
            && r != [] && ValidRing(r, window, u)
            && r[|r| - 1] == if bs == [] then ring[|ring| - 1] else bs[|bs| - 1]
    decreases |bs|
  {
    hide Incorporate;
    if bs == [] {
    } else {
      var b := bs[0];
      var m := Incorporate(ring, b, window);
      assert m.ring != [] && ValidRing(m.ring, window, u) && m.ring[|m.ring| - 1] == b by {
        if ring[|ring| - 1].hash == b.parentHash {
          IncorporateAbove(ring, b, window);
          CappedJoinLinked(ring, [b], window);
          CapTailKeeps(ring, [b], window, u);
        } else {
          LinkedNumber(ring, |ring| - 1);
          IncorporateOutside(ring, b, window);
        }
      }
      FoldConsecutive(m.ring, bs[1..], window, u, if m.reorg.Some? then m.reorg else e);
    }
  }

  lemma FoldFresh(b: BlockSample, window: int)
    ensures IncorporateAll([], [b], window, None).0 == [b]
  {
    assert Incorporate([], b, window).ring == [b];
    assert [b][1..] == [];
  }

  /** What every step leaves, whatever the lookups answered. */
  ghost predicate StepOutcome(
      ring: seq<BlockSample>, b: BlockSample, r: seq<BlockSample>, window: int, u: iset<BlockSample>)
  {
    && Capped(r, window) && Within(r, u) && r != []
    && (r[|r| - 1] == b || (r == ring && b in ring))
  }

  /** A linked list splices cleanly unless `BrokenSplice` says otherwise. */
  lemma FoldLinkedOrRecorded(
      ring: seq<BlockSample>, l: seq<BlockSample>, window: int, u: iset<BlockSample>)
    requires Consistent(u) && ring != [] && ValidRing(ring, window, u)
    requires l != [] && Linked(l) && Within(l, u)
    requires Holds(ring, l[0].hash) ==> |l| == 1
    ensures var r := IncorporateAll(ring, l, window, None).0;
            StepOutcome(ring, l[|l| - 1], r, window, u) && (Linked(r) <==> !BrokenSplice(ring, l, window))
  {
    hide Incorporate, IncorporateAll, CapTail, Kept, Consistent;
    if Holds(ring, l[0].hash) {
      assert l == [l[0]];
      FoldDuplicate(ring, l[0], window, u);
    } else {
      hide BrokenSplice;
      SpliceJoins(ring, l, window, u);
      ChildIsNext(ring[|ring| - 1], l[0], u);
      FoldExact(ring, l, window, None);
      CapTailKeeps(ring[..Kept(ring, l[0])], l, window, u);
    }
  }

  /** The by-number list is used. */
  predicate Numbered(
      ring: seq<BlockSample>, newBlock: BlockResult, window: int, byNumber: int -> Option<BlockResult>)
  {
    && ring != [] && newBlock.parentHash.Some?
    && newBlock.parentHash.value !in HashSet(ring)
    && var tip := ring[|ring| - 1];
       var gap := newBlock.number - tip.number;
       && gap > 1 && (window == 0 || gap <= window)
       && Connects(FetchRange(byNumber, tip.number + 1, newBlock.number), gap - 1, HashSet(ring), newBlock.parentHash.value)
  }

  lemma NumberedIncoming(
      ring: seq<BlockSample>, newBlock: BlockResult, window: int,
      byNumber: int -> Option<BlockResult>, byHash: Hash -> Option<BlockResult>, u: iset<BlockSample>)
    requires Numbered(ring, newBlock, window, byNumber)
    requires WellFormed(newBlock, u) && ServesNumbers(byNumber, u)
    ensures var l := Incoming(ring, newBlock, window, byNumber, byHash);
            && |l| == newBlock.number - ring[|ring| - 1].number
            && Within(l, u)
            && (forall i | 0 <= i < |l| :: l[i].number == ring[|ring| - 1].number + 1 + i)
            && Holds(ring, l[0].parentHash)
  {
    var from := ring[|ring| - 1].number + 1;
    var numbered := FetchRange(byNumber, from, newBlock.number);
    var l := Incoming(ring, newBlock, window, byNumber, byHash);
    assert GapBridge.Bridge(ring, newBlock, window, byNumber, byHash) == numbered;
    forall i | 0 <= i < |l|
      ensures l[i] in u && l[i].number == from + i
    {
      if i < |numbered| {
        assert byNumber(from + i) == Some(numbered[i]);
        assert l[i] == ToSample(numbered[i]);
      }
    }
    assert l[0] == ToSample(numbered[0]);
  }

  /** Otherwise the list is a walk, possibly empty. */
  lemma WalkedIncoming(
      ring: seq<BlockSample>, newBlock: BlockResult, window: int,
      byNumber: int -> Option<BlockResult>, byHash: Hash -> Option<BlockResult>, u: iset<BlockSample>)
    requires !Numbered(ring, newBlock, window, byNumber)
    requires Consistent(u) && WellFormed(newBlock, u) && ServesHashes(byHash, u)
    ensures var l := Incoming(ring, newBlock, window, byNumber, byHash);
            && Linked(l) && Within(l, u)
            && (Holds(ring, l[0].hash) ==> |l| == 1)
            && |l| <= WalkBudget(window) + 1
            && (ring != [] ==>
                  || Holds(ring, l[0].parentHash)
                  || |l| == WalkBudget(window) + 1
                  || byHash(l[0].parentHash) == None)
  {
    hide Walk;
    if ring != [] && newBlock.parentHash.value !in HashSet(ring) {
      var p := newBlock.parentHash.value;
      var w := Walk(byHash, HashSet(ring), p, WalkBudget(window));
      WalkHasShape(byHash, HashSet(ring), p, WalkBudget(window), u);
      WalkReversedLinked(w, newBlock, byHash, HashSet(ring), WalkBudget(window), u);
    } else {
      assert Incoming(ring, newBlock, window, byNumber, byHash) == [ToSample(newBlock)];
    }
  }

  /**
   Main result, for every pattern of failed lookups: a step leaves a capped ring of real blocks
   that ends in the new block (unless that was recorded before and nothing changed), and the ring
   is one branch of the chain if and only if the step was not a broken splice.
   */
  lemma StepLinkedIff(
      ring: seq<BlockSample>, newBlock: BlockResult, window: int,
      byNumber: int -> Option<BlockResult>, byHash: Hash -> Option<BlockResult>, u: iset<BlockSample>)
    requires Consistent(u) && ValidRing(ring, window, u) && WellFormed(newBlock, u)
    requires ServesNumbers(byNumber, u) && ServesHashes(byHash, u)
    ensures var r := StepRing(ring, newBlock, window, byNumber, byHash);
            && StepOutcome(ring, ToSample(newBlock), r, window, u)
            && (Linked(r) <==> !BrokenSplice(ring, Incoming(ring, newBlock, window, byNumber, byHash), window))
  {
    hide Incorporate, IncorporateAll, Incoming, Numbered, StepOutcome, BrokenSplice, Linked, Within, Holds;
    hide Consistent, ServesNumbers, ServesHashes, ValidRing;
    var l := Incoming(ring, newBlock, window, byNumber, byHash);
    if ring == [] {
      FreshStep(ring, newBlock, window, byNumber, byHash, u);
    } else if Numbered(ring, newBlock, window, byNumber) {
      NumberedIncoming(ring, newBlock, window, byNumber, byHash, u);
      FoldConsecutive(ring, l, window, u, None);
      NumberedOutcome(ring, l, StepRing(ring, newBlock, window, byNumber, byHash), window, u);
    } else {
      WalkedIncoming(ring, newBlock, window, byNumber, byHash, u);
      FoldLinkedOrRecorded(ring, l, window, u);
    }
  }

  lemma FreshStep(
      ring: seq<BlockSample>, newBlock: BlockResult, window: int,
      byNumber: int -> Option<BlockResult>, byHash: Hash -> Option<BlockResult>, u: iset<BlockSample>)
    requires ring == [] && ToSample(newBlock) in u
    ensures var l := Incoming(ring, newBlock, window, byNumber, byHash);
            var r := IncorporateAll(ring, l, window, None).0;
            StepOutcome(ring, ToSample(newBlock), r, window, u) && Linked(r) && !BrokenSplice(ring, l, window)
  {
    assert Incoming(ring, newBlock, window, byNumber, byHash) == [ToSample(newBlock)];
    FoldFresh(ToSample(newBlock), window);
  }

  lemma NumberedOutcome(
      ring: seq<BlockSample>, l: seq<BlockSample>, r: seq<BlockSample>, window: int, u: iset<BlockSample>)
    requires ring != [] && l != [] && l[0].number > ring[|ring| - 1].number
    requires r != [] && ValidRing(r, window, u) && r[|r| - 1] == l[|l| - 1]
    ensures StepOutcome(ring, l[|l| - 1], r, window, u) && Linked(r) && !BrokenSplice(ring, l, window)
  {
  }

  // ----- the failure is real -----

  const B7: BlockSample := BlockSample(7, Hash(7), Hash(6), 0, 0, [])
  const B8: BlockSample := BlockSample(8, Hash(8), Hash(7), 0, 0, [])
  const FORK8: BlockResult := BlockResult(8, Some(Hash(18)), Some(Hash(17)), 0, 0, None, [])
  const FORK9: BlockResult := BlockResult(9, Some(Hash(19)), Some(Hash(18)), 0, 0, None, [])

  function OnlyFork8(h: Hash): Option<BlockResult> {
    if h == Hash(18) then Some(FORK8) else None
  }

  function NoNumbers(n: int): Option<BlockResult> {
    None
  }

  lemma OnlyOneStep(known: set<Hash>)
    requires Hash(17) !in known
    ensures Walk(OnlyFork8, known, Hash(18), 20) == [FORK8]
  {
    assert Walk(OnlyFork8, known, Hash(17), 19) == [];
  }

  lemma BrokenWalk()
    ensures Incoming([B7, B8], FORK9, 20, NoNumbers, OnlyFork8) == [ToSample(FORK8), ToSample(FORK9)]
  {
    hide Walk, FetchRange;
    var known := HashSet([B7, B8]);
    assert Hash(17) !in known && Hash(18) !in known;
    OnlyOneStep(known);
    assert Reverse([FORK8]) == [FORK8];
  }

  ghost function BrokenUniverse(): iset<BlockSample> {
    iset{B7, B8, ToSample(FORK8), ToSample(FORK9)}
  }

  lemma BrokenUniverseIsReal()
    ensures var u := BrokenUniverse();
            && Consistent(u) && Within([B7, B8], u) && WellFormed(FORK9, u)
            && ServesHashes(OnlyFork8, u) && ServesNumbers(NoNumbers, u)
  {
  }

  /**
   Tip 8 is reorged away, the walk fetches 8' but not 7', and the ring ends up holding 7, 8', 9'
   with a link that does not exist.
   */
  lemma BrokenSpliceHappens()
    ensures var u := BrokenUniverse();
            && Consistent(u) && ValidRing([B7, B8], 20, u) && WellFormed(FORK9, u)
            && ServesHashes(OnlyFork8, u) && ServesNumbers(NoNumbers, u)
    ensures !Linked(StepRing([B7, B8], FORK9, 20, NoNumbers, OnlyFork8))
  {
    hide StepRing, Incoming, Consistent, ServesHashes, ServesNumbers;
    var ring := [B7, B8];
    assert Linked(ring) by {
      assert LinkAt(ring, 1);
    }
    BrokenWalk();
    BrokenUniverseIsReal();
    assert BrokenSplice(ring, [ToSample(FORK8), ToSample(FORK9)], 20) by {
      assert ring[1].hash == Hash(8);
    }
    StepLinkedIff(ring, FORK9, 20, NoNumbers, OnlyFork8, BrokenUniverse());
  }

  // ----- lookups that serve the new branch -----

  /**
   The new block's own branch can be walked: from any point on it, no further back than the walk
   goes, the parent can be fetched by hash. Nothing is asked of other branches or of later blocks.
   */
  ghost predicate BranchServed(
      byHash: Hash -> Option<BlockResult>, b: BlockSample, budget: nat, u: iset<BlockSample>, genesis: int)
  {
    && (forall x | x in u :: x.number >= genesis)
    && forall branch: seq<BlockSample> | IsBranchTo(branch, b, u) && |branch| <= budget ::
         branch[0].number > genesis ==> byHash(branch[0].parentHash).Some?
  }

  ghost predicate IsBranchTo(branch: seq<BlockSample>, b: BlockSample, u: iset<BlockSample>) {
    branch != [] && Linked(branch) && Within(branch, u) && branch[|branch| - 1] == b
  }

  /** If the new branch is served no step is a broken splice, however deep the reorg. */
  lemma StepKeepsLinked(
      ring: seq<BlockSample>, newBlock: BlockResult, window: int,
      byNumber: int -> Option<BlockResult>, byHash: Hash -> Option<BlockResult>, u: iset<BlockSample>,
      genesis: int)
    requires Consistent(u) && ValidRing(ring, window, u) && WellFormed(newBlock, u)
    requires ServesNumbers(byNumber, u) && ServesHashes(byHash, u)
    requires BranchServed(byHash, ToSample(newBlock), WalkBudget(window), u, genesis)
    requires window > 0 || newBlock.number - genesis <= MAX_SAFE_INTEGER
    ensures var r := StepRing(ring, newBlock, window, byNumber, byHash);
            StepOutcome(ring, ToSample(newBlock), r, window, u) && Linked(r)
  {
    StepLinkedIff(ring, newBlock, window, byNumber, byHash, u);
    var l := Incoming(ring, newBlock, window, byNumber, byHash);
    if Numbered(ring, newBlock, window, byNumber) {
      NumberedIncoming(ring, newBlock, window, byNumber, byHash, u);
    } else {
      WalkedIncoming(ring, newBlock, window, byNumber, byHash, u);
      LinkedNumber(l, |l| - 1);
      if ring != [] {
        assert ring[0] in u && l[0] in u;
      }
    }
  }

  // ----- runs -----

  datatype Poll = Poll(
    block: BlockResult,
    byNumber: int -> Option<BlockResult>,
    byHash: Hash -> Option<BlockResult>)

  function Run(polls: seq<Poll>, window: int): seq<BlockSample> {
    if polls == [] then []
    else
      var p := polls[|polls| - 1];
      StepRing(Run(polls[..|polls| - 1], window), p.block, window, p.byNumber, p.byHash)
  }

  ghost predicate HonestPoll(p: Poll, window: int, u: iset<BlockSample>, genesis: int) {
    && WellFormed(p.block, u)
    && ServesNumbers(p.byNumber, u) && ServesHashes(p.byHash, u)
    && BranchServed(p.byHash, ToSample(p.block), WalkBudget(window), u, genesis)
    && (window > 0 || p.block.number - genesis <= MAX_SAFE_INTEGER)
  }

  /**
   Every run from an empty ring, over any blocks in any order: the ring is always one gap-free
   branch within the window, and it holds the block just polled.
   */
  lemma {:induction false} RunKeepsOneBranch(
      polls: seq<Poll>, window: int, u: iset<BlockSample>, genesis: int)
    requires Consistent(u)
    requires forall i | 0 <= i < |polls| :: HonestPoll(polls[i], window, u, genesis)
    ensures ValidRing(Run(polls, window), window, u)
    ensures polls != [] ==> ToSample(polls[|polls| - 1].block) in Run(polls, window)
  {
    hide Incorporate;
    if polls == [] {
    } else {
      var n := |polls| - 1;
      RunKeepsOneBranch(polls[..n], window, u, genesis);
      var p := polls[n];
      StepKeepsLinked(Run(polls[..n], window), p.block, window, p.byNumber, p.byHash, u, genesis);
    }
  }

  // ----- a growing chain meets the hypotheses -----

  function CanonBlock(k: nat): BlockResult {
    BlockResult(k, Some(Hash(k + 1)), Some(Hash(k)), 0, 0, None, [])
  }

  ghost predicate OnCanon(x: BlockSample) {
    exists k: nat :: x == ToSample(CanonBlock(k))
  }

  ghost function CanonChain(): iset<BlockSample> {
    iset x: BlockSample | OnCanon(x)
  }

  /** Upstream at height `n`: every block mined so far and none of the later ones. */
  function CanonPoll(n: nat): Poll {
    Poll(
      CanonBlock(n),
      (k: int) => if 0 <= k <= n then Some(CanonBlock(k)) else None,
      (h: Hash) => if h.Hash? && 1 <= h.id <= n + 1 then Some(CanonBlock(h.id - 1)) else None)
  }

  /** Polls of a chain that grows meet the hypotheses of the run theorem, each knowing only its past. */
  lemma GrowingChainIsHonest(n: nat, window: int)
    requires window > 0
    ensures Consistent(CanonChain()) && HonestPoll(CanonPoll(n), window, CanonChain(), 0)
  {
    var u, p := CanonChain(), CanonPoll(n);
    forall a, b | a in u && b in u
      ensures Compatible(a, b)
    {
      var i: nat :| a == ToSample(CanonBlock(i));
      var j: nat :| b == ToSample(CanonBlock(j));
    }
    forall k: nat
      ensures ToSample(CanonBlock(k)) in u
    {
      assert OnCanon(ToSample(CanonBlock(k)));
    }
    forall branch: seq<BlockSample> | IsBranchTo(branch, ToSample(p.block), u)
      ensures branch[0].number > 0 ==> p.byHash(branch[0].parentHash).Some?
    {
      LinkedNumber(branch, |branch| - 1);
      assert OnCanon(branch[0]);
      var k: nat :| branch[0] == ToSample(CanonBlock(k));
    }
  }

  // ----- no ancestor is forgotten -----

  lemma SameBranch(
      r: seq<BlockSample>, branch: seq<BlockSample>, u: iset<BlockSample>, d: nat)
    requires Consistent(u) && Linked(r) && Linked(branch) && Within(r, u) && Within(branch, u)
    requires r != [] && branch != [] && r[|r| - 1] == branch[|branch| - 1]
    requires d < |branch| && d < |r|
    ensures r[|r| - 1 - d] == branch[|branch| - 1 - d]
  {
    if d > 0 {
      SameBranch(r, branch, u, d - 1);
      var i, j := |r| - d, |branch| - d;
      assert LinkAt(r, i) && LinkAt(branch, j);
      assert Compatible(r[i - 1], branch[j - 1]);
    }
  }

  lemma FoldReach(
      ring: seq<BlockSample>, l: seq<BlockSample>, window: int, u: iset<BlockSample>)
    requires Consistent(u) && ring != [] && ValidRing(ring, window, u)
    requires l != [] && Linked(l) && Within(l, u) && !Holds(ring, l[0].hash)
    requires Holds(ring, l[0].parentHash) || l[0].number <= ring[0].number || 0 < window <= |l|
    ensures var r := IncorporateAll(ring, l, window, None).0;
            r != [] && (|r| == window || r[0].number <= ring[0].number)
  {
    assert Linked(ring) && Within(ring, u) && ring[|ring| - 1] in u && l[0] in u;
    hide *;
    ChildIsNext(ring[|ring| - 1], l[0], u);
    FoldExact(ring, l, window, None);
    CapReaches(ring[..Kept(ring, l[0])], l, window);
    KeptReaches(ring, l[0], u);
  }

  /** Unless the new list starts below the ring, what is kept starts where the ring does. */
  lemma KeptReaches(ring: seq<BlockSample>, b: BlockSample, u: iset<BlockSample>)
    requires Consistent(u) && ring != [] && Linked(ring) && Within(ring, u) && b in u
    ensures Holds(ring, b.parentHash) ==> 0 < Kept(ring, b) <= |ring|
    ensures b.number <= ring[0].number ==> Kept(ring, b) == 0
  {
    LinkedNumber(ring, |ring| - 1);
    if Holds(ring, b.parentHash) {
      ParentIsBelow(ring, b, u);
    }
  }

  lemma ChildIsNext(a: BlockSample, b: BlockSample, u: iset<BlockSample>)
    requires Consistent(u) && a in u && b in u
    ensures b.parentHash == a.hash ==> b.number == a.number + 1
  {
    assert Compatible(a, b);
  }

  /** A capped list is full or starts where it started. */
  lemma CapReaches(a: seq<BlockSample>, l: seq<BlockSample>, window: int)
    requires l != []
    ensures var r := CapTail(a + l, window);
            && r != [] && (|r| == window || r[0] == if a == [] then l[0] else a[0])
            && (0 < window <= |l| ==> |r| == window)
  {
  }

  lemma NotHeld(ring: seq<BlockSample>, b: BlockSample, u: iset<BlockSample>)
    requires Consistent(u) && Linked(ring) && Within(ring, u) && b in u
    requires ring != [] && b.number > ring[|ring| - 1].number
    ensures !Holds(ring, b.hash)
  {
    LinkedNumbers(ring);
    forall i | 0 <= i < |ring|
      ensures ring[i].hash != b.hash
    {
      assert Compatible(ring[i], b);
    }
  }

  lemma StepReach(
      ring: seq<BlockSample>, newBlock: BlockResult, window: int,
      byNumber: int -> Option<BlockResult>, byHash: Hash -> Option<BlockResult>, u: iset<BlockSample>,
      genesis: int)
    requires Consistent(u) && ValidRing(ring, window, u) && WellFormed(newBlock, u) && ring != []
    requires ServesNumbers(byNumber, u) && ServesHashes(byHash, u)
    requires BranchServed(byHash, ToSample(newBlock), WalkBudget(window), u, genesis)
    requires window > 0 || newBlock.number - genesis <= MAX_SAFE_INTEGER
    requires Linked(Incoming(ring, newBlock, window, byNumber, byHash))
    ensures var r := StepRing(ring, newBlock, window, byNumber, byHash);
            r == ring || (r != [] && (|r| == window || r[0].number <= ring[0].number))
  {
    hide Incorporate, IncorporateAll;
    var l := Incoming(ring, newBlock, window, byNumber, byHash);
    if Numbered(ring, newBlock, window, byNumber) {
      NumberedIncoming(ring, newBlock, window, byNumber, byHash, u);
      NotHeld(ring, l[0], u);
    } else {
      WalkedIncoming(ring, newBlock, window, byNumber, byHash, u);
    }
    LinkedNumber(l, |l| - 1);
    assert ring[0] in u && l[0] in u;
    if Holds(ring, l[0].hash) {
      FoldDuplicate(ring, l[0], window, u);
      assert l == [l[0]];
    } else {
      FoldReach(ring, l, window, u);
    }
  }

  lemma ConsLinked(x: BlockSample, s: seq<BlockSample>)
    ensures Linked([x] + s) <==> Linked(s) && (s == [] || ChildOf(s[0], x))
  {
    var all := [x] + s;
    if Linked(all) {
      LinkedTail(all);
      assert all[1..] == s;
    } else if Linked(s) && s != [] && ChildOf(s[0], x) {
      forall i | 0 < i < |all|
        ensures LinkAt(all, i)
      {
        if i > 1 {
          assert LinkAt(s, i - 1);
        }
      }
    }
  }

  lemma ForgetStep(ring: seq<BlockSample>, b: BlockSample, window: int, u: iset<BlockSample>, n: int)
    requires ring != [] && ValidRing(ring, window, u) && b in u
    requires b.number == ring[|ring| - 1].number + 1 && n <= ring[|ring| - 1].number
    ensures var r := Incorporate(ring, b, window).ring;
            && r != [] && ValidRing(r, window, u) && r[|r| - 1] == b
            && (ring[0].number > n || !ChildOf(b, ring[|ring| - 1]) ==> r[0].number > n)
  {
    hide Incorporate;
    var e: Option<ReorgEvent> := None;
    FoldConsecutive(ring, [b], window, u, e);
    OneFold(ring, b, window, e);
    if ring[|ring| - 1].hash == b.parentHash {
      IncorporateAbove(ring, b, window);
      LinkedNumbers(ring);
    } else {
      IncorporateOutside(ring, b, window);
    }
  }

  /** Consecutive heights that are no branch restart the ring somewhere above height `n`. */
  lemma {:induction false} FoldForgets(
      ring: seq<BlockSample>, bs: seq<BlockSample>, window: int, u: iset<BlockSample>,
      e: Option<ReorgEvent>, n: int)
    requires ring != [] && ValidRing(ring, window, u) && Within(bs, u)
    requires forall i | 0 <= i < |bs| :: bs[i].number == ring[|ring| - 1].number + 1 + i
    requires n <= ring[|ring| - 1].number
    requires ring[0].number > n || !Linked([ring[|ring| - 1]] + bs)
    ensures var r := IncorporateAll(ring, bs, window, e).0;
            r != [] && r[0].number > n
    decreases |bs|
  {
    hide Incorporate, Linked;
    ConsLinked(ring[|ring| - 1], bs);
    if bs == [] {
      EmptyLinked();
    } else {
      var b := bs[0];
      var m := Incorporate(ring, b, window);
      ForgetStep(ring, b, window, u, n);
      ConsLinked(b, bs[1..]);
      assert bs == [b] + bs[1..];
      FoldForgets(m.ring, bs[1..], window, u, if m.reorg.Some? then m.reorg else e, n);
    }
  }

  lemma EmptyLinked()
    ensures Linked([])
  {
  }

  lemma OneFold(ring: seq<BlockSample>, b: BlockSample, window: int, e: Option<ReorgEvent>)
    ensures IncorporateAll(ring, [b], window, e).0 == Incorporate(ring, b, window).ring
  {
    assert [b][1..] == [];
  }

  lemma MixedBridgeForgets(
      ring: seq<BlockSample>, newBlock: BlockResult, window: int,
      byNumber: int -> Option<BlockResult>, byHash: Hash -> Option<BlockResult>, u: iset<BlockSample>,
      x: BlockSample)
    requires Consistent(u) && ValidRing(ring, window, u) && WellFormed(newBlock, u)
    requires ServesNumbers(byNumber, u) && ServesHashes(byHash, u)
    requires Numbered(ring, newBlock, window, byNumber) && x in ring
    requires !Linked(Incoming(ring, newBlock, window, byNumber, byHash))
    requires Linked(StepRing(ring, newBlock, window, byNumber, byHash))
    ensures x !in StepRing(ring, newBlock, window, byNumber, byHash)
  {
    hide Incorporate, Numbered;
    var l := Incoming(ring, newBlock, window, byNumber, byHash);
    var r := StepRing(ring, newBlock, window, byNumber, byHash);
    var tip := ring[|ring| - 1];
    NumberedIncoming(ring, newBlock, window, byNumber, byHash, u);
    ConsLinked(tip, l);
    FoldForgets(ring, l, window, u, None, tip.number);
    LinkedNumbers(ring);
    LinkedNumbers(r);
  }

  /**
   History survives: an old entry on the new block's branch (`branch` runs from it to the new
   block) that is less than a window below the new block is still in the ring after the step, if and
   only if what the step offers the ring is one branch. Only a by-number bridge can offer anything else.
   */
  lemma StepForgetsNoAncestor(
      ring: seq<BlockSample>, newBlock: BlockResult, window: int,
      byNumber: int -> Option<BlockResult>, byHash: Hash -> Option<BlockResult>, u: iset<BlockSample>,
      genesis: int, branch: seq<BlockSample>)
    requires Consistent(u) && ValidRing(ring, window, u) && WellFormed(newBlock, u)
    requires ServesNumbers(byNumber, u) && ServesHashes(byHash, u)
    requires BranchServed(byHash, ToSample(newBlock), WalkBudget(window), u, genesis)
    requires window > 0 || newBlock.number - genesis <= MAX_SAFE_INTEGER
    requires IsBranchTo(branch, ToSample(newBlock), u) && branch[0] in ring
    requires window <= 0 || |branch| <= window
    ensures var l := Incoming(ring, newBlock, window, byNumber, byHash);
            && (branch[0] in StepRing(ring, newBlock, window, byNumber, byHash) <==> Linked(l))
            && (!Linked(l) ==> Numbered(ring, newBlock, window, byNumber))
  {
    hide StepRing, Incoming, Consistent, ServesNumbers, ServesHashes, BranchServed, Numbered, WellFormed;
    var l := Incoming(ring, newBlock, window, byNumber, byHash);
    StepKeepsLinked(ring, newBlock, window, byNumber, byHash, u, genesis);
    if !Numbered(ring, newBlock, window, byNumber) {
      WalkedIncoming(ring, newBlock, window, byNumber, byHash, u);
    }
    if Linked(l) {
      AncestorStays(ring, newBlock, window, byNumber, byHash, u, genesis, branch);
    } else {
      MixedBridgeForgets(ring, newBlock, window, byNumber, byHash, u, branch[0]);
    }
  }

  lemma AncestorStays(
      ring: seq<BlockSample>, newBlock: BlockResult, window: int,
      byNumber: int -> Option<BlockResult>, byHash: Hash -> Option<BlockResult>, u: iset<BlockSample>,
      genesis: int, branch: seq<BlockSample>)
    requires Consistent(u) && ValidRing(ring, window, u) && WellFormed(newBlock, u)
    requires ServesNumbers(byNumber, u) && ServesHashes(byHash, u)
    requires BranchServed(byHash, ToSample(newBlock), WalkBudget(window), u, genesis)
    requires window > 0 || newBlock.number - genesis <= MAX_SAFE_INTEGER
    requires Linked(Incoming(ring, newBlock, window, byNumber, byHash))
    requires IsBranchTo(branch, ToSample(newBlock), u) && branch[0] in ring
    requires window <= 0 || |branch| <= window
    ensures branch[0] in StepRing(ring, newBlock, window, byNumber, byHash)
  {
    hide StepRing, Incoming, Consistent, ServesNumbers, ServesHashes, BranchServed;
    StepKeepsLinked(ring, newBlock, window, byNumber, byHash, u, genesis);
    var r := StepRing(ring, newBlock, window, byNumber, byHash);
    if r != ring {
      StepReach(ring, newBlock, window, byNumber, byHash, u, genesis);
      var k :| 0 <= k < |ring| && ring[k] == branch[0];
      LinkedNumber(ring, k);
      LinkedNumber(branch, |branch| - 1);
      LinkedNumber(r, |r| - 1);
      var d := |branch| - 1;
      assert r[|r| - 1] == branch[d];
      assert d < |r|;
      SameBranch(r, branch, u, d);
    }
  }

  // ----- a bridge of two branches -----

  const A1: BlockSample := BlockSample(1, Hash(1), Hash(0), 0, 0, [])
  const A2: BlockResult := BlockResult(2, Some(Hash(2)), Some(Hash(1)), 0, 0, None, [])
  const A3: BlockResult := BlockResult(3, Some(Hash(3)), Some(Hash(2)), 0, 0, None, [])
  const A4: BlockResult := BlockResult(4, Some(Hash(4)), Some(Hash(3)), 0, 0, None, [])
  const B2: BlockResult := BlockResult(2, Some(Hash(12)), Some(Hash(1)), 0, 0, None, [])
  const A1_RESULT: BlockResult := BlockResult(1, Some(Hash(1)), Some(Hash(0)), 0, 0, None, [])

  function MixedNumbers(n: int): Option<BlockResult> {
    if n == 2 then Some(B2) else if n == 3 then Some(A3) else None
  }

  function WholeBranch(h: Hash): Option<BlockResult> {
    if h == Hash(1) then Some(A1_RESULT)
    else if h == Hash(2) then Some(A2)
    else if h == Hash(3) then Some(A3)
    else None
  }

  ghost function MixedUniverse(): iset<BlockSample> {
    iset{A1, ToSample(A2), ToSample(A3), ToSample(A4), ToSample(B2)}
  }

  lemma MixedBridge()
    ensures Incoming([A1], A4, 20, MixedNumbers, WholeBranch) == [ToSample(B2), ToSample(A3), ToSample(A4)]
  {
    var known := HashSet([A1]);
    assert known == {Hash(1)} by {
      assert [A1][0].hash in known;
    }
    assert FetchRange(MixedNumbers, 4, 4) == [];
    assert FetchRange(MixedNumbers, 3, 4) == [A3];
    assert FetchRange(MixedNumbers, 2, 4) == [B2, A3];
  }

  lemma MixedUniverseIsReal()
    ensures var u := MixedUniverse();
            && Consistent(u) && WellFormed(A4, u)
            && ServesHashes(WholeBranch, u) && ServesNumbers(MixedNumbers, u)
            && BranchServed(WholeBranch, ToSample(A4), WalkBudget(20), u, 1)
  {
    var u := MixedUniverse();
    forall branch: seq<BlockSample> | IsBranchTo(branch, ToSample(A4), u)
      ensures branch[0].number > 1 ==> WholeBranch(branch[0].parentHash).Some?
    {
      assert branch[0] in u;
      if branch[0] == ToSample(B2) {
        assert WholeBranch(Hash(1)).Some?;
      }
    }
  }

  lemma WholeBranchIsOne()
    ensures IsBranchTo([A1, ToSample(A2), ToSample(A3), ToSample(A4)], ToSample(A4), MixedUniverse())
  {
    var branch := [A1, ToSample(A2), ToSample(A3), ToSample(A4)];
    forall i | 0 < i < |branch|
      ensures LinkAt(branch, i)
    {
    }
  }

  /**
   The failing side is real: while block 4 is bridged, upstream answers height 2 from one branch and
   height 3 from the other. The bridge joins at both ends, so it is used; the break inside it restarts
   the ring, and block 1 is forgotten although it is an ancestor well within the window.
   */
  lemma MixedBridgeHappens()
    ensures var u := MixedUniverse();
            && Consistent(u) && ValidRing([A1], 20, u) && WellFormed(A4, u)
            && ServesHashes(WholeBranch, u) && ServesNumbers(MixedNumbers, u)
            && BranchServed(WholeBranch, ToSample(A4), WalkBudget(20), u, 1)
            && IsBranchTo([A1, ToSample(A2), ToSample(A3), ToSample(A4)], ToSample(A4), u)
    ensures A1 !in StepRing([A1], A4, 20, MixedNumbers, WholeBranch)
  {
    hide StepRing, Incoming, Consistent, ServesHashes, ServesNumbers, BranchServed, IsBranchTo;
    var branch := [A1, ToSample(A2), ToSample(A3), ToSample(A4)];
    var l := [ToSample(B2), ToSample(A3), ToSample(A4)];
    MixedBridge();
    MixedUniverseIsReal();
    WholeBranchIsOne();
    assert !LinkAt(l, 1);
    StepForgetsNoAncestor([A1], A4, 20, MixedNumbers, WholeBranch, MixedUniverse(), 1, branch);
  }
}
