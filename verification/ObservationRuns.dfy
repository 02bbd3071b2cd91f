/**
 Laws of whole runs: any sequence of blocks, mempool snapshots and divergences, from any record,
 fresh or restored.

 The events a run emits are checked against a small automaton that sees nothing but the events.
 Its state is the part of the record that the consumer can infer from the stream.
 */
module ObservationRuns {
  import opened Wrappers
  import opened Observations

  datatype Step = Block(block: BlockInput) | Mempool(mempool: MempoolInput) | Divergence(vanishing: Vanishing)

  function EventsOf(r: Record, s: Step): seq<Event> {
    match s
    case Block(b) => DecideBlock(r, b).events
    case Mempool(m) => DecideMempool(r, m).events
    case Divergence(v) => VanishEvents(r, v)
  }

  function After(r: Record, s: Step): Record {
    match s
    case Block(b) => Apply(r, DecideBlock(r, b))
    case Mempool(m) => Apply(r, DecideMempool(r, m))
    case Divergence(v) => VanishRecord(r, v)
  }

  function RecordAfter(r: Record, steps: seq<Step>): Record {
    if steps == [] then r else After(RecordAfter(r, steps[..|steps| - 1]), steps[|steps| - 1])
  }

  function Trace(r: Record, steps: seq<Step>): seq<Event> {
    if steps == [] then []
    else
      Trace(r, steps[..|steps| - 1])
      + EventsOf(RecordAfter(r, steps[..|steps| - 1]), steps[|steps| - 1])
  }

  /** The mutable record of the tracker; each observation is one method call. */
  class TrackedTx {
    var record: Record

    constructor (r: Record)
      ensures record == r
    {
      record := r;
    }

    /** An empty patch leaves its part of the record alone; the rest is merged field by field. */
    method ApplyObservationResult(o: ObservationResult)
      modifies this
      ensures record == Apply(old(record), o)
      ensures record.hash == old(record.hash)
           && record.unseenThresholdBlocks == old(record.unseenThresholdBlocks)
           && record.status.vanishedAt == old(record.status.vanishedAt)
      ensures var (s, t, p) := (old(record.status), record.status, o.statusPatch);
              && Takes(s.lastSeenInBlock, t.lastSeenInBlock, p.lastSeenInBlock)
              && Takes(s.lastSeenInMempool, t.lastSeenInMempool, p.lastSeenInMempool)
              && Takes(s.replacedBy, t.replacedBy, p.replacedBy)
              && Takes(s.unseenStreak, t.unseenStreak, p.unseenStreak)
              && Takes(s.firstObservedAtBlock, t.firstObservedAtBlock, p.firstObservedAtBlock)
              && Takes(s.lastObservedAtBlock, t.lastObservedAtBlock, p.lastObservedAtBlock)
              && Takes(s.terminalAtBlockNumber, t.terminalAtBlockNumber, p.terminalAtBlockNumber)
    {
      if o.statusPatch != NO_PATCH {
        var s, p := record.status, o.statusPatch;
        s := s.(lastSeenInBlock := p.lastSeenInBlock.Over(s.lastSeenInBlock));
        s := s.(lastSeenInMempool := p.lastSeenInMempool.Over(s.lastSeenInMempool));
        s := s.(replacedBy := p.replacedBy.Over(s.replacedBy));
        s := s.(unseenStreak := p.unseenStreak.Over(s.unseenStreak));
        s := s.(firstObservedAtBlock := p.firstObservedAtBlock.Over(s.firstObservedAtBlock));
        s := s.(lastObservedAtBlock := p.lastObservedAtBlock.Over(s.lastObservedAtBlock));
        s := s.(terminalAtBlockNumber := p.terminalAtBlockNumber.Over(s.terminalAtBlockNumber));
        record := record.(status := s);
      }
      if o.identityPatch.Some? {
        record := record.(identity := o.identityPatch);
      }
      if o.inMempoolPatch.Some? {
        record := record.(inLastMempoolSnapshot := o.inMempoolPatch.value);
      }
    }

    method OnBlock(b: BlockInput) returns (events: seq<Event>)
      modifies this
      ensures record == After(old(record), Block(b))
      ensures events == EventsOf(old(record), Block(b))
    {
      var result := DecideBlock(record, b);
      ApplyObservationResult(result);
      events := result.events;
    }

    method OnMempool(m: MempoolInput) returns (events: seq<Event>)
      modifies this
      ensures record == After(old(record), Mempool(m))
      ensures events == EventsOf(old(record), Mempool(m))
    {
      var result := DecideMempoolObservation(record, m);
      ApplyObservationResult(result);
      events := result.events;
    }

    method OnDivergence(v: Vanishing) returns (events: seq<Event>)
      modifies this
      ensures record == After(old(record), Divergence(v))
      ensures events == EventsOf(old(record), Divergence(v))
    {
      events := [];
      var seen := record.status.lastSeenInBlock;
      if seen.None? || seen.value.blockNumber != v.blockNumber {
        return;
      }
      record := record.(status := record.status.(vanishedAt := Some(v)));
      record := record.(status := record.status.(lastSeenInBlock := None));
      record := record.(status := record.status.(lastObservedAtBlock := Some(v.blockNumber)));
      events := [VanishedFromBlock(v)];
    }
  }

  // ----- the automaton -----

  datatype View = View(
    inclusion: Option<(Hash, nat)>,
    inMempool: bool,
    replacedBy: Option<Hash>,
    terminal: bool)

  /** May `e` come next? */
  predicate Allowed(v: View, e: Event) {
    match e
    case SeenInBlock(i) => i.confirmations == 1 || (i.confirmations > 1 && v.inclusion == Some((i.blockHash, i.confirmations - 1)))
    case SeenInMempool(_, _) => true
    case LeftMempool => v.inMempool
    case VanishedFromBlock(_) => v.inclusion.Some?
    case ReplacedBy(x) => v.replacedBy != Some(x.hash) && (x.blockNumber.None? ==> v.replacedBy.None?)
    case UnseenForNBlocks(_) => true
    case ConfirmedTerminal(c) => !v.terminal && v.inclusion.Some? && v.inclusion.value.1 == c
  }

  function Advance(v: View, e: Event): View {
    match e
    case SeenInBlock(i) => v.(inclusion := Some((i.blockHash, i.confirmations)))
    case SeenInMempool(_, _) => v.(inMempool := true)
    case LeftMempool => v.(inMempool := false)
    case VanishedFromBlock(_) => v.(inclusion := None)
    case ReplacedBy(x) => v.(replacedBy := Some(x.hash), terminal := true)
    case UnseenForNBlocks(_) => v.(terminal := true)
    case ConfirmedTerminal(_) => v.(terminal := true)
  }

  function ViewAfter(v: View, es: seq<Event>): View {
    if es == [] then v else Advance(ViewAfter(v, es[..|es| - 1]), es[|es| - 1])
  }

  predicate Accepted(v: View, es: seq<Event>) {
    es == [] || (Accepted(v, es[..|es| - 1]) && Allowed(ViewAfter(v, es[..|es| - 1]), es[|es| - 1]))
  }

  /** Every event of an accepted stream was allowed when it came. */
  lemma {:induction false} AcceptedAt(v: View, es: seq<Event>, k: nat)
    requires Accepted(v, es) && k < |es|
    ensures Allowed(ViewAfter(v, es[..k]), es[k])
  {
    if k == |es| - 1 {
    } else {
      AcceptedAt(v, es[..|es| - 1], k);
      assert es[..|es| - 1][..k] == es[..k];
    }
  }

  /** What the automaton's state says about a record. */
  function ViewOf(r: Record): View {
    View(
      match r.status.lastSeenInBlock case None => None case Some(i) => Some((i.blockHash, i.confirmations)),
      r.inLastMempoolSnapshot,
      match r.status.replacedBy case None => None case Some(x) => Some(x.hash),
      r.status.terminalAtBlockNumber.Some?)
  }

  lemma ViewAfterNone(v: View)
    ensures ViewAfter(v, []) == v && Accepted(v, [])
  {
  }

  lemma ViewAfterOne(v: View, e: Event)
    ensures ViewAfter(v, [e]) == Advance(v, e)
    ensures Accepted(v, [e]) <==> Allowed(v, e)
  {
    assert [e][..0] == [];
    assert ViewAfter(v, []) == v && Accepted(v, []);
  }

  lemma {:induction false} ViewAfterConcat(v: View, a: seq<Event>, b: seq<Event>)
    ensures ViewAfter(v, a + b) == ViewAfter(ViewAfter(v, a), b)
  {
    if b == [] {
      assert a + b == a;
    } else {
      assert (a + b)[..|a + b| - 1] == a + b[..|b| - 1];
      ViewAfterConcat(v, a, b[..|b| - 1]);
    }
  }

  lemma {:induction false} AcceptedConcat(v: View, a: seq<Event>, b: seq<Event>)
    requires Accepted(v, a) && Accepted(ViewAfter(v, a), b)
    ensures Accepted(v, a + b)
  {
    hide Allowed, Advance;
    if b == [] {
      assert a + b == a;
    } else {
      var init := b[..|b| - 1];
      AcceptedConcat(v, a, init);
      ViewAfterConcat(v, a, init);
      assert (a + b)[..|a + b| - 1] == a + init;
    }
  }

  lemma AcceptedTwo(v: View, e: Event, f: Event)
    requires Allowed(v, e) && Allowed(Advance(v, e), f)
    ensures Accepted(v, [e, f]) && ViewAfter(v, [e, f]) == Advance(Advance(v, e), f)
  {
    ViewAfterOne(v, e);
    ViewAfterOne(Advance(v, e), f);
    AcceptedConcat(v, [e], [f]);
    ViewAfterConcat(v, [e], [f]);
    assert [e] + [f] == [e, f];
  }

  // ----- every step is accepted and keeps the correspondence -----

  /**
   A recorded replacement has its terminal anchor. True of a fresh record and kept by every step;
   only a record persisted before anchors existed can lack it.
   */
  predicate Anchored(r: Record) {
    r.status.replacedBy.Some? ==> r.status.terminalAtBlockNumber.Some?
  }

  /** A newly tracked transaction. */
  function FreshRecord(hash: Hash, unseenThresholdBlocks: nat): (r: Record)
    ensures Anchored(r)
  {
    Record(hash, Status(None, None, None, None, 0, None, None, None), None, false, unseenThresholdBlocks)
  }

  /**
   What the automaton may rely on for any record: all of its view but the terminal flag, which can only
   lag behind the record.
   */
  predicate Matches(v: View, r: Record) {
    v == ViewOf(r).(terminal := v.terminal) && (v.terminal ==> r.status.terminalAtBlockNumber.Some?)
  }

  /** The view and the record agree in full, as they do for anchored records. */
  predicate Exact(v: View, r: Record) {
    v == ViewOf(r) && Anchored(r)
  }

  ghost predicate StepLawful(v: View, r: Record, s: Step) {
    && Accepted(v, EventsOf(r, s))
    && Matches(ViewAfter(v, EventsOf(r, s)), After(r, s))
    && (Exact(v, r) ==> Exact(ViewAfter(v, EventsOf(r, s)), After(r, s)))
  }

  lemma SeenHereLawful(v: View, r: Record, b: BlockInput)
    requires Matches(v, r)
    requires IndexOfHash(b.txs, r.hash) >= 0
    ensures StepLawful(v, r, Block(b))
  {
    hide Accepted, ViewAfter, CacheIdentity;
    var index := IndexOfHash(b.txs, r.hash);
    var seen := r.status.lastSeenInBlock;
    var isFresh := seen.None? || seen.value.blockHash != b.blockHash;
    var confirmations := if isFresh then 1 else seen.value.confirmations;
    var e := SeenInBlock(Inclusion(b.blockHash, b.blockNumber, index, confirmations));
    var f := ConfirmedTerminal(confirmations);
    if isFresh {
      if ReachedConfirmedTerminal(r, b, confirmations) {
        assert EventsOf(r, Block(b)) == [e, f];
        AcceptedTwo(v, e, f);
      } else {
        assert EventsOf(r, Block(b)) == [e];
        ViewAfterOne(v, e);
      }
    } else {
      if ReachedConfirmedTerminal(r, b, confirmations) {
        assert EventsOf(r, Block(b)) == [f];
        ViewAfterOne(v, f);
      } else {
        assert EventsOf(r, Block(b)) == [];
        ViewAfterNone(v);
      }
    }
  }

  lemma BumpedLawful(v: View, r: Record, b: BlockInput)
    requires Matches(v, r)
    requires IndexOfHash(b.txs, r.hash) < 0
    requires r.status.lastSeenInBlock.Some? && b.previousTipNumber.Some?
    ensures StepLawful(v, r, Block(b))
  {
    hide Accepted, ViewAfter;
    var seen := r.status.lastSeenInBlock.value;
    var updated := seen.(confirmations := seen.confirmations + 1);
    var e, f := SeenInBlock(updated), ConfirmedTerminal(updated.confirmations);
    if ReachedConfirmedTerminal(r, b, updated.confirmations) {
      assert EventsOf(r, Block(b)) == [e, f];
      AcceptedTwo(v, e, f);
    } else {
      assert EventsOf(r, Block(b)) == [e];
      ViewAfterOne(v, e);
    }
  }

  lemma OtherBlockLawful(v: View, r: Record, b: BlockInput)
    requires Matches(v, r)
    requires IndexOfHash(b.txs, r.hash) < 0
    requires r.status.lastSeenInBlock.None? || b.previousTipNumber.None?
    ensures StepLawful(v, r, Block(b))
  {
    hide Accepted, ViewAfter, ReplacementIn;
    var es := EventsOf(r, Block(b));
    ViewAfterNone(v);
    if es != [] {
      assert es == [es[0]];
      ViewAfterOne(v, es[0]);
    }
  }

  /** The first half of a snapshot's events: the transaction comes, stays or goes. */
  lemma PresenceLawful(v: View, r: Record, m: MempoolInput)
    requires Matches(v, r)
    ensures Accepted(v, PresenceEvents(r, m))
    ensures ViewAfter(v, PresenceEvents(r, m)) == v.(inMempool := m.presence.Some?)
  {
    hide Accepted, ViewAfter;
    var es := PresenceEvents(r, m);
    ViewAfterNone(v);
    if es != [] {
      assert es == [es[0]];
      ViewAfterOne(v, es[0]);
    }
  }

  /** The second half: a replacement, if it is news. */
  function ReplacementEvents(r: Record, m: MempoolInput): seq<Event> {
    if NewReplacement(r, m) then [ReplacedBy(Replacement(m.replacementInMempool.value.hash.value, None))] else []
  }

  lemma ReplacementLawful(v: View, r: Record, m: MempoolInput)
    requires v.replacedBy == ViewOf(r).replacedBy
    ensures Accepted(v, ReplacementEvents(r, m))
    ensures ViewAfter(v, ReplacementEvents(r, m))
         == if NewReplacement(r, m)
            then v.(replacedBy := Some(m.replacementInMempool.value.hash.value), terminal := true) else v
  {
    hide Accepted, ViewAfter;
    ViewAfterNone(v);
    if NewReplacement(r, m) {
      ViewAfterOne(v, ReplacementEvents(r, m)[0]);
    }
  }

  lemma MempoolLawful(v: View, r: Record, m: MempoolInput)
    requires Matches(v, r)
    ensures StepLawful(v, r, Mempool(m))
  {
    hide Accepted, ViewAfter, After, PresenceEvents, NewReplacement;
    var first, second := PresenceEvents(r, m), ReplacementEvents(r, m);
    PresenceLawful(v, r, m);
    ReplacementLawful(ViewAfter(v, first), r, m);
    AcceptedConcat(v, first, second);
    ViewAfterConcat(v, first, second);
    assert EventsOf(r, Mempool(m)) == first + second;
    SnapshotAfter(r, m);
  }

  /** What a snapshot does to the part of the record that the view shows. */
  lemma SnapshotAfter(r: Record, m: MempoolInput)
    ensures var after := After(r, Mempool(m));
            && after.inLastMempoolSnapshot == m.presence.Some?
            && after.status.lastSeenInBlock == r.status.lastSeenInBlock
            && (if NewReplacement(r, m) then
                  after.status.replacedBy == Some(Replacement(m.replacementInMempool.value.hash.value, None))
                  && after.status.terminalAtBlockNumber.Some?
                else
                  after.status.replacedBy == r.status.replacedBy
                  && after.status.terminalAtBlockNumber == r.status.terminalAtBlockNumber)
  {
    hide CacheIdentity;
  }

  lemma DivergenceLawful(v: View, r: Record, x: Vanishing)
    requires Matches(v, r)
    ensures StepLawful(v, r, Divergence(x))
  {
    hide Accepted, ViewAfter;
    ViewAfterNone(v);
    ViewAfterOne(v, VanishedFromBlock(x));
  }

  lemma EveryStepLawful(v: View, r: Record, s: Step)
    requires Matches(v, r)
    ensures StepLawful(v, r, s)
  {
    hide StepLawful, Matches;
    match s
    case Mempool(m) => MempoolLawful(v, r, m);
    case Divergence(x) => DivergenceLawful(v, r, x);
    case Block(b) =>
      if IndexOfHash(b.txs, r.hash) >= 0 {
        SeenHereLawful(v, r, b);
      } else if r.status.lastSeenInBlock.Some? && b.previousTipNumber.Some? {
        BumpedLawful(v, r, b);
      } else {
        OtherBlockLawful(v, r, b);
      }
  }

  /** Main result: the stream of every run, from every record, is accepted by the automaton. */
  lemma {:induction false} EveryTraceAccepted(r: Record, steps: seq<Step>)
    ensures Accepted(ViewOf(r), Trace(r, steps))
    ensures Matches(ViewAfter(ViewOf(r), Trace(r, steps)), RecordAfter(r, steps))
    ensures Anchored(r) ==> Exact(ViewAfter(ViewOf(r), Trace(r, steps)), RecordAfter(r, steps))
  {
    hide Accepted, ViewAfter, After, EventsOf;
    if steps == [] {
      ViewAfterNone(ViewOf(r));
    } else {
      var before, last := steps[..|steps| - 1], steps[|steps| - 1];
      EveryTraceAccepted(r, before);
      var now, v := RecordAfter(r, before), ViewAfter(ViewOf(r), Trace(r, before));
      EveryStepLawful(v, now, last);
      AcceptedConcat(ViewOf(r), Trace(r, before), EventsOf(now, last));
      ViewAfterConcat(ViewOf(r), Trace(r, before), EventsOf(now, last));
    }
  }

  // ----- what acceptance means for the stream -----

  predicate IsTerminalEvent(e: Event) {
    e.ConfirmedTerminal? || e.ReplacedBy? || e.UnseenForNBlocks?
  }

  /** Once set by the stream, these parts of the automaton stay set. */
  lemma {:induction false} ViewRemembers(v: View, es: seq<Event>, i: nat)
    requires i < |es|
    ensures IsTerminalEvent(es[i]) ==> ViewAfter(v, es).terminal
    ensures es[i].ReplacedBy? ==> ViewAfter(v, es).replacedBy.Some?
  {
    if i == |es| - 1 {
    } else {
      ViewRemembers(v, es[..|es| - 1], i);
    }
  }

  lemma {:induction false} ViewSince(v: View, es: seq<Event>, i: nat)
    requires i < |es|
    ensures es[i].LeftMempool? && (forall k | i < k < |es| :: !es[k].SeenInMempool?) ==>
              !ViewAfter(v, es).inMempool
    ensures es[i].ReplacedBy? && (forall k | i < k < |es| :: !es[k].ReplacedBy?) ==>
              ViewAfter(v, es).replacedBy == Some(es[i].replacement.hash)
  {
    if i == |es| - 1 {
    } else {
      ViewSince(v, es[..|es| - 1], i);
    }
  }

  /** The inclusion in the view is the latest one in the stream, or the one before the stream began. */
  lemma {:induction false} ViewInclusion(v: View, es: seq<Event>) returns (i: int)
    requires ViewAfter(v, es).inclusion.Some?
    ensures -1 <= i < |es|
    ensures forall k | i < k < |es| :: !es[k].SeenInBlock? && !es[k].VanishedFromBlock?
    ensures i == -1 ==> v.inclusion == ViewAfter(v, es).inclusion
    ensures i >= 0 ==>
              es[i].SeenInBlock?
              && ViewAfter(v, es).inclusion == Some((es[i].inclusion.blockHash, es[i].inclusion.confirmations))
  {
    if es == [] {
      i := -1;
    } else if es[|es| - 1].SeenInBlock? {
      i := |es| - 1;
    } else {
      i := ViewInclusion(v, es[..|es| - 1]);
    }
  }

  /**
   `confirmed-terminal` is final news: nothing terminal came before it, so it comes at most once and
   never after a replacement or an unseen verdict.
   */
  lemma ConfirmedOnce(r: Record, steps: seq<Step>, i: nat, j: nat)
    requires i < j < |Trace(r, steps)|
    requires Trace(r, steps)[j].ConfirmedTerminal?
    ensures !IsTerminalEvent(Trace(r, steps)[i])
  {
    hide Trace, ViewOf;
    EveryTraceAccepted(r, steps);
    var es := Trace(r, steps);
    AcceptedAt(ViewOf(r), es, j);
    ViewRemembers(ViewOf(r), es[..j], i);
  }

  /** Two departures from the mempool have an arrival between them. */
  lemma DeparturesSeparated(r: Record, steps: seq<Step>, i: nat, j: nat)
    requires i < j < |Trace(r, steps)|
    requires Trace(r, steps)[i].LeftMempool? && Trace(r, steps)[j].LeftMempool?
    ensures exists k | i < k < j :: Trace(r, steps)[k].SeenInMempool?
  {
    hide Trace, ViewOf;
    EveryTraceAccepted(r, steps);
    var es := Trace(r, steps);
    AcceptedAt(ViewOf(r), es, j);
    ViewSince(ViewOf(r), es[..j], i);
  }

  /**
   Replacements: with no other between them, two `replaced-by` events name different hashes; and one
   without a block number is the first of the run.
   */
  lemma ReplacementsDiffer(r: Record, steps: seq<Step>, i: nat, j: nat)
    requires i < j < |Trace(r, steps)|
    requires Trace(r, steps)[i].ReplacedBy? && Trace(r, steps)[j].ReplacedBy?
    ensures Trace(r, steps)[j].replacement.blockNumber.Some?
    ensures (forall k | i < k < j :: !Trace(r, steps)[k].ReplacedBy?) ==>
              Trace(r, steps)[i].replacement.hash != Trace(r, steps)[j].replacement.hash
  {
    hide Trace, ViewOf;
    EveryTraceAccepted(r, steps);
    var es := Trace(r, steps);
    AcceptedAt(ViewOf(r), es, j);
    ViewRemembers(ViewOf(r), es[..j], i);
    ViewSince(ViewOf(r), es[..j], i);
  }

  /**
   Confirmations count without gaps: a count other than one continues the count just before it, for the
   same block, with no vanishing in between. The count just before it is in the stream, or (`i == -1`)
   the one the record came with.
   */
  lemma ConfirmationsCount(r: Record, steps: seq<Step>, j: nat) returns (i: int)
    requires j < |Trace(r, steps)| && Trace(r, steps)[j].SeenInBlock?
    requires Trace(r, steps)[j].inclusion.confirmations != 1
    ensures -1 <= i < j
    ensures var now := Trace(r, steps)[j].inclusion;
            if i == -1 then
              var seen := r.status.lastSeenInBlock;
              seen.Some? && seen.value.confirmations + 1 == now.confirmations && seen.value.blockHash == now.blockHash
            else
              Trace(r, steps)[i].SeenInBlock?
              && Trace(r, steps)[i].inclusion.confirmations + 1 == now.confirmations
              && Trace(r, steps)[i].inclusion.blockHash == now.blockHash
    ensures forall k | i < k < j :: !Trace(r, steps)[k].SeenInBlock? && !Trace(r, steps)[k].VanishedFromBlock?
  {
    hide Trace;
    EveryTraceAccepted(r, steps);
    var es := Trace(r, steps);
    AcceptedAt(ViewOf(r), es, j);
    i := ViewInclusion(ViewOf(r), es[..j]);
  }

  // ----- unseen streaks -----

  /** A real sighting: the transaction is in the block or in the snapshot. */
  predicate Sighting(r: Record, s: Step) {
    match s
    case Block(b) => IndexOfHash(b.txs, r.hash) >= 0
    case Mempool(m) => m.presence.Some?
    case Divergence(_) => false
  }

  /** A block that counts as a miss: once observed, now neither here, nor included, nor replaced. */
  predicate IsMiss(r: Record, s: Step) {
    && s.Block?
    && IndexOfHash(s.block.txs, r.hash) < 0
    && (r.status.lastSeenInBlock.None? || s.block.previousTipNumber.None?)
    && ReplacementIn(r, s.block).None?
    && r.status.firstObservedAtBlock.Some?
  }

  /** Misses since the last sighting, counted on the run on top of the streak the record came with. */
  function Misses(r: Record, steps: seq<Step>): nat {
    if steps == [] then r.status.unseenStreak
    else
      var before, last := steps[..|steps| - 1], steps[|steps| - 1];
      if Sighting(RecordAfter(r, before), last) then 0
      else if IsMiss(RecordAfter(r, before), last) then Misses(r, before) + 1
      else Misses(r, before)
  }

  lemma StepKeepsStreak(r: Record, s: Step)
    ensures After(r, s).status.unseenStreak ==
              if Sighting(r, s) then 0
              else if IsMiss(r, s) then r.status.unseenStreak + 1
              else r.status.unseenStreak
    ensures After(r, s).unseenThresholdBlocks == r.unseenThresholdBlocks && After(r, s).hash == r.hash
    ensures forall e | e in EventsOf(r, s) && e.UnseenForNBlocks? ::
              IsMiss(r, s) && e.blocks == r.unseenThresholdBlocks == r.status.unseenStreak + 1
    ensures IsMiss(r, s) && r.status.unseenStreak + 1 == r.unseenThresholdBlocks ==>
              EventsOf(r, s) == [UnseenForNBlocks(r.unseenThresholdBlocks)]
  {
    hide ReplacementIn, CacheIdentity, IndexOfHash;
  }

  lemma {:induction false} StreakIsMisses(r: Record, steps: seq<Step>)
    ensures RecordAfter(r, steps).status.unseenStreak == Misses(r, steps)
    ensures RecordAfter(r, steps).unseenThresholdBlocks == r.unseenThresholdBlocks
  {
    hide After, Sighting, IsMiss;
    if steps == [] {
    } else {
      StreakIsMisses(r, steps[..|steps| - 1]);
      StepKeepsStreak(RecordAfter(r, steps[..|steps| - 1]), steps[|steps| - 1]);
    }
  }

  predicate EmitsUnseen(r: Record, steps: seq<Step>, k: nat)
    requires k < |steps|
  {
    exists e | e in EventsOf(RecordAfter(r, steps[..k]), steps[k]) :: e.UnseenForNBlocks?
  }

  /** The unseen verdict falls exactly on the miss that completes the threshold. */
  lemma UnseenExactly(r: Record, steps: seq<Step>, k: nat)
    requires k < |steps|
    ensures EmitsUnseen(r, steps, k) <==>
              IsMiss(RecordAfter(r, steps[..k]), steps[k])
              && Misses(r, steps[..k]) + 1 == r.unseenThresholdBlocks
  {
    hide EventsOf, After, Sighting, IsMiss;
    StreakIsMisses(r, steps[..k]);
    var before := RecordAfter(r, steps[..k]);
    StepKeepsStreak(before, steps[k]);
    if IsMiss(before, steps[k]) && Misses(r, steps[..k]) + 1 == r.unseenThresholdBlocks {
      assert UnseenForNBlocks(r.unseenThresholdBlocks) in EventsOf(before, steps[k]);
    }
  }

  lemma {:induction false} MissesOnlyGrow(r: Record, steps: seq<Step>, i: nat, j: nat)
    requires i <= j <= |steps|
    requires forall k | i <= k < j :: !Sighting(RecordAfter(r, steps[..k]), steps[k])
    ensures Misses(r, steps[..j]) >= Misses(r, steps[..i])
  {
    hide Sighting, IsMiss, After;
    if i == j {
    } else {
      MissesOnlyGrow(r, steps, i, j - 1);
      assert steps[..j][..j - 1] == steps[..j - 1];
    }
  }

  /** Two unseen verdicts have a real sighting between them. */
  lemma UnseenSeparated(r: Record, steps: seq<Step>, i: nat, j: nat)
    requires i < j < |steps|
    requires EmitsUnseen(r, steps, i) && EmitsUnseen(r, steps, j)
    ensures exists k | i < k < j :: Sighting(RecordAfter(r, steps[..k]), steps[k])
  {
    hide Sighting, IsMiss, After, EmitsUnseen;
    UnseenExactly(r, steps, i);
    UnseenExactly(r, steps, j);
    assert steps[..i + 1][..i] == steps[..i];
    MissIsNoSighting(RecordAfter(r, steps[..i]), steps[i]);
    assert Misses(r, steps[..i + 1]) == Misses(r, steps[..i]) + 1;
    if forall k | i < k < j :: !Sighting(RecordAfter(r, steps[..k]), steps[k]) {
      MissesOnlyGrow(r, steps, i + 1, j);
      assert false;
    }
  }

  lemma MissIsNoSighting(r: Record, s: Step)
    ensures IsMiss(r, s) ==> !Sighting(r, s)
  {
  }

  // ----- included transactions -----

  /**
   While an inclusion stands, a block seen with a known tip neither declares the transaction replaced
   nor unseen, and the inclusion keeps standing until a divergence.
   */
  lemma InclusionStands(r: Record, s: Step)
    requires r.status.lastSeenInBlock.Some?
    ensures s.Block? && s.block.previousTipNumber.Some? ==>
              forall e | e in EventsOf(r, s) :: e.SeenInBlock? || e.ConfirmedTerminal?
    ensures !s.Divergence? ==> After(r, s).status.lastSeenInBlock.Some?
  {
    hide ReplacementIn, CacheIdentity, IndexOfHash;
  }

  predicate KnownTips(steps: seq<Step>) {
    forall i | 0 <= i < |steps| :: steps[i].Block? ==> steps[i].block.previousTipNumber.Some?
  }

  /** Neither an unseen verdict nor a replacement found in a block. */
  predicate Quiet(e: Event) {
    !e.UnseenForNBlocks? && (e.ReplacedBy? ==> e.replacement.blockNumber.None?)
  }

  /** Whether an inclusion stands after the events, if one did or did not at the start. */
  predicate Standing(start: bool, es: seq<Event>) {
    if es == [] then start
    else
      match es[|es| - 1]
      case SeenInBlock(_) => true
      case VanishedFromBlock(_) => false
      case _ => Standing(start, es[..|es| - 1])
  }

  lemma {:induction false} StandingConcat(start: bool, a: seq<Event>, b: seq<Event>)
    ensures Standing(start, a + b) == Standing(Standing(start, a), b)
  {
    if b == [] {
      assert a + b == a;
    } else {
      assert (a + b)[..|a + b| - 1] == a + b[..|b| - 1];
      StandingConcat(start, a, b[..|b| - 1]);
    }
  }

  predicate QuietWhileStanding(start: bool, es: seq<Event>) {
    es == []
    || (QuietWhileStanding(start, es[..|es| - 1])
        && (Standing(start, es[..|es| - 1]) ==> Quiet(es[|es| - 1])))
  }

  lemma {:induction false} QuietAt(start: bool, es: seq<Event>, k: nat)
    requires QuietWhileStanding(start, es) && k < |es|
    ensures Standing(start, es[..k]) ==> Quiet(es[k])
  {
    if k == |es| - 1 {
    } else {
      QuietAt(start, es[..|es| - 1], k);
      assert es[..|es| - 1][..k] == es[..k];
    }
  }

  lemma {:induction false} QuietConcat(start: bool, a: seq<Event>, b: seq<Event>)
    requires QuietWhileStanding(start, a) && QuietWhileStanding(Standing(start, a), b)
    ensures QuietWhileStanding(start, a + b)
  {
    hide Standing, Quiet;
    if b == [] {
      assert a + b == a;
    } else {
      var init := b[..|b| - 1];
      QuietConcat(start, a, init);
      StandingConcat(start, a, init);
      assert (a + b)[..|a + b| - 1] == a + init;
    }
  }

  lemma QuietOne(start: bool, e: Event)
    ensures QuietWhileStanding(start, [e]) <==> (start ==> Quiet(e))
    ensures Standing(start, [e]) == (e.SeenInBlock? || (start && !e.VanishedFromBlock?))
  {
    assert [e][..0] == [] && Standing(start, []) == start && QuietWhileStanding(start, []);
  }

  lemma QuietUpToTwo(start: bool, es: seq<Event>)
    requires |es| <= 2
    requires |es| >= 1 && start ==> Quiet(es[0])
    requires |es| == 2 ==> Quiet(es[1])
    ensures QuietWhileStanding(start, es)
    ensures |es| == 1 ==> Standing(start, es) == (es[0].SeenInBlock? || (start && !es[0].VanishedFromBlock?))
    ensures es == [] ==> Standing(start, es) == start
    ensures |es| == 2 && !es[1].SeenInBlock? && !es[1].VanishedFromBlock? ==>
              Standing(start, es) == Standing(start, [es[0]])
  {
    hide Quiet;
    if |es| == 1 {
      assert es == [es[0]];
      QuietOne(start, es[0]);
    } else if |es| == 2 {
      QuietOne(start, es[0]);
      QuietOne(Standing(start, [es[0]]), es[1]);
      assert es == [es[0]] + [es[1]] && es[..1] == [es[0]];
      QuietConcat(start, [es[0]], [es[1]]);
    }
  }

  lemma StepStanding(r: Record, s: Step)
    requires s.Block? ==> s.block.previousTipNumber.Some?
    ensures QuietWhileStanding(r.status.lastSeenInBlock.Some?, EventsOf(r, s))
    ensures Standing(r.status.lastSeenInBlock.Some?, EventsOf(r, s)) == After(r, s).status.lastSeenInBlock.Some?
  {
    hide ReplacementIn, CacheIdentity, IndexOfHash, QuietWhileStanding, Standing, ReachedConfirmedTerminal, NewReplacement;
    var start, es := r.status.lastSeenInBlock.Some?, EventsOf(r, s);
    QuietUpToTwo(start, es);
    if |es| == 2 {
      QuietOne(start, es[0]);
    }
  }

  lemma {:induction false} TraceStanding(r: Record, steps: seq<Step>)
    requires KnownTips(steps)
    ensures QuietWhileStanding(r.status.lastSeenInBlock.Some?, Trace(r, steps))
    ensures Standing(r.status.lastSeenInBlock.Some?, Trace(r, steps))
         == RecordAfter(r, steps).status.lastSeenInBlock.Some?
  {
    hide QuietWhileStanding, EventsOf, After;
    if steps == [] {
      QuietUpToTwo(r.status.lastSeenInBlock.Some?, []);
    } else {
      var before, last := steps[..|steps| - 1], steps[|steps| - 1];
      TraceStanding(r, before);
      StepStanding(RecordAfter(r, before), last);
      StandingConcat(r.status.lastSeenInBlock.Some?, Trace(r, before), EventsOf(RecordAfter(r, before), last));
      QuietConcat(r.status.lastSeenInBlock.Some?, Trace(r, before), EventsOf(RecordAfter(r, before), last));
    }
  }

  lemma {:induction false} StandsSince(start: bool, es: seq<Event>, i: nat)
    requires i < |es| && es[i].SeenInBlock?
    requires forall k | i < k < |es| :: !es[k].VanishedFromBlock?
    ensures Standing(start, es)
  {
    if i < |es| - 1 && !es[|es| - 1].SeenInBlock? {
      StandsSince(start, es[..|es| - 1], i);
    }
  }

  /**
   From an inclusion to the next vanishing the stream declares the transaction neither unseen nor
   replaced in a block; a replacement seen in the mempool may still be reported.
   */
  lemma NothingContradictsAnInclusion(r: Record, steps: seq<Step>, i: nat, j: nat)
    requires KnownTips(steps)
    requires i < j < |Trace(r, steps)| && Trace(r, steps)[i].SeenInBlock?
    requires forall k | i < k < j :: !Trace(r, steps)[k].VanishedFromBlock?
    ensures Quiet(Trace(r, steps)[j])
  {
    hide Trace, Quiet;
    TraceStanding(r, steps);
    StandsSince(r.status.lastSeenInBlock.Some?, Trace(r, steps)[..j], i);
    QuietAt(r.status.lastSeenInBlock.Some?, Trace(r, steps), j);
  }

  // ----- fields written once -----

  predicate Kept<T(==)>(before: Option<T>, after: Option<T>) {
    before.Some? ==> after == before
  }

  predicate WrittenOnce(a: Record, b: Record) {
    && Kept(a.status.terminalAtBlockNumber, b.status.terminalAtBlockNumber)
    && Kept(a.status.firstObservedAtBlock, b.status.firstObservedAtBlock)
    && Kept(a.identity, b.identity)
  }

  lemma StepWritesOnce(r: Record, s: Step)
    ensures WrittenOnce(r, After(r, s))
  {
    hide ReplacementIn, IndexOfHash;
  }

  /** Terminal anchor, first observation and identity never change once they are known. */
  lemma {:induction false} RunWritesOnce(r: Record, steps: seq<Step>, i: nat)
    requires i <= |steps|
    ensures WrittenOnce(RecordAfter(r, steps[..i]), RecordAfter(r, steps))
    decreases |steps|
  {
    hide After;
    if i == |steps| {
      assert steps[..i] == steps;
    } else {
      var before := steps[..|steps| - 1];
      RunWritesOnce(r, before, i);
      assert before[..i] == steps[..i];
      StepWritesOnce(RecordAfter(r, before), steps[|steps| - 1]);
    }
  }

  // ----- records that turn terminal in silence -----

  predicate HasTerminal(es: seq<Event>) {
    exists k | 0 <= k < |es| :: IsTerminalEvent(es[k])
  }

  lemma HasTerminalConcat(a: seq<Event>, b: seq<Event>)
    ensures HasTerminal(a + b) <==> HasTerminal(a) || HasTerminal(b)
  {
    forall k | 0 <= k < |a|
      ensures (a + b)[k] == a[k]
    {
    }
    forall k | 0 <= k < |b|
      ensures (a + b)[|a| + k] == b[k]
    {
    }
    if HasTerminal(b) {
      var k :| 0 <= k < |b| && IsTerminalEvent(b[k]);
      assert IsTerminalEvent((a + b)[|a| + k]);
    }
    if HasTerminal(a) {
      var k :| 0 <= k < |a| && IsTerminalEvent(a[k]);
      assert IsTerminalEvent((a + b)[k]);
    }
  }

  /** A stored replacement that no block can confirm again, because no block search looks for the own hash. */
  predicate Voiced(r: Record) {
    r.status.replacedBy.None? || r.status.replacedBy.value.hash == r.hash
  }

  lemma StepTerminal(r: Record, s: Step)
    requires r.status.terminalAtBlockNumber.None? && Voiced(r)
    ensures After(r, s).status.terminalAtBlockNumber.Some? <==> HasTerminal(EventsOf(r, s))
    ensures After(r, s).status.terminalAtBlockNumber.None? ==> Voiced(After(r, s))
    ensures After(r, s).hash == r.hash
  {
    hide CacheIdentity, IndexOfHash, FirstReplacement;
    var es := EventsOf(r, s);
    assert |es| >= 1 && IsTerminalEvent(es[0]) ==> HasTerminal(es);
    assert |es| >= 2 && IsTerminalEvent(es[1]) ==> HasTerminal(es);
  }

  lemma {:induction false} RunTerminal(r: Record, steps: seq<Step>)
    requires r.status.terminalAtBlockNumber.None? && Voiced(r)
    ensures var after := RecordAfter(r, steps);
            && (after.status.terminalAtBlockNumber.Some? <==> HasTerminal(Trace(r, steps)))
            && (after.status.terminalAtBlockNumber.None? ==> Voiced(after))
            && after.hash == r.hash
  {
    hide After, EventsOf, HasTerminal, Voiced;
    if steps == [] {
      assert !HasTerminal([]) by { NoTerminal(); }
    } else {
      var before, last := steps[..|steps| - 1], steps[|steps| - 1];
      RunTerminal(r, before);
      HasTerminalConcat(Trace(r, before), EventsOf(RecordAfter(r, before), last));
      StepWritesOnce(RecordAfter(r, before), last);
      SameHash(RecordAfter(r, before), last);
      if RecordAfter(r, before).status.terminalAtBlockNumber.None? {
        StepTerminal(RecordAfter(r, before), last);
      }
    }
  }

  /** For an anchored record the terminal anchor is set exactly by the terminal events of the stream. */
  lemma TerminalMeansEvent(r: Record, steps: seq<Step>)
    requires Anchored(r)
    requires r.status.terminalAtBlockNumber.None?
    ensures RecordAfter(r, steps).status.terminalAtBlockNumber.Some?
        <==> exists k | 0 <= k < |Trace(r, steps)| :: IsTerminalEvent(Trace(r, steps)[k])
  {
    hide Trace, RecordAfter;
    RunTerminal(r, steps);
  }

  lemma NoTerminal()
    ensures !HasTerminal([])
  {
  }

  lemma SameHash(r: Record, s: Step)
    ensures After(r, s).hash == r.hash
  {
    hide ReplacementIn, CacheIdentity, IndexOfHash;
  }

  /** The steps leave the stored replacement as it is, and neither set the anchor nor say anything terminal. */
  ghost predicate Silent(r: Record, steps: seq<Step>) {
    var after := RecordAfter(r, steps);
    && after.hash == r.hash && after.status.replacedBy == r.status.replacedBy
    && after.status.terminalAtBlockNumber.None?
    && !HasTerminal(Trace(r, steps))
  }

  lemma OneStep(r: Record, s: Step)
    ensures RecordAfter(r, [s]) == After(r, s) && Trace(r, [s]) == EventsOf(r, s)
  {
    assert [s][..0] == [];
    assert RecordAfter(r, []) == r && Trace(r, []) == [];
  }

  lemma StepThen(r: Record, steps: seq<Step>, s: Step)
    ensures RecordAfter(r, steps + [s]) == After(RecordAfter(r, steps), s)
    ensures Trace(r, steps + [s]) == Trace(r, steps) + EventsOf(RecordAfter(r, steps), s)
  {
    assert (steps + [s])[..|steps|] == steps;
  }

  /** A mempool sighting gives a record its identity. */
  lemma GainIdentity(r: Record) returns (steps: seq<Step>)
    requires r.status.terminalAtBlockNumber.None?
    ensures Silent(r, steps) && RecordAfter(r, steps).identity.Some?
  {
    if r.identity.Some? {
      steps := [];
    } else {
      var tx := RawTx(Some(r.hash), Some("a"), Some("0"));
      var s := Mempool(MempoolInput(Some(Presence(Pending, tx)), None, 0, 0));
      steps := [s];
      OneStep(r, s);
    }
  }

  /** A divergence at its height takes an inclusion away. */
  lemma LoseInclusion(r: Record, before: seq<Step>) returns (steps: seq<Step>)
    requires Silent(r, before) && RecordAfter(r, before).identity.Some?
    ensures Silent(r, steps) && RecordAfter(r, steps).identity.Some?
    ensures RecordAfter(r, steps).status.lastSeenInBlock.None?
  {
    hide Trace, RecordAfter;
    var now := RecordAfter(r, before);
    if now.status.lastSeenInBlock.None? {
      steps := before;
    } else {
      var i := now.status.lastSeenInBlock.value;
      var s := Divergence(Vanishing(i.blockHash, i.blockHash, i.blockNumber));
      steps := before + [s];
      StepThen(r, before, s);
      HasTerminalConcat(Trace(r, before), EventsOf(now, s));
    }
  }

  /**
   Any unanchored record whose stored replacement is another transaction can turn terminal with no
   terminal event: it gains an identity, loses its inclusion, and then a block holds the replacement
   it already knows.
   */
  lemma UnanchoredTurnsTerminalSilently(r: Record) returns (steps: seq<Step>)
    requires r.status.terminalAtBlockNumber.None? && !Voiced(r)
    ensures RecordAfter(r, steps).status.terminalAtBlockNumber.Some? && !HasTerminal(Trace(r, steps))
  {
    hide Trace, RecordAfter, HasTerminal;
    var first := GainIdentity(r);
    var before := LoseInclusion(r, first);
    var now := RecordAfter(r, before);
    var tx := RawTx(
      Some(r.status.replacedBy.value.hash), Some(now.identity.value.from), Some(now.identity.value.nonce));
    var s := Block(BlockInput(Hash(0), 0, [tx], None, None));
    assert [tx][1..] == [];
    assert FirstReplacement(now.identity.value, now.hash, [tx]) == Some(tx);
    assert EventsOf(now, s) == [];
    steps := before + [s];
    StepThen(r, before, s);
    assert Trace(r, steps) == Trace(r, before);
  }

  /**
   For a record without a terminal anchor: on every run the anchor is set exactly when the stream holds a
   terminal event, if and only if the record is anchored or its stored replacement carries its own hash.
   */
  lemma TerminalMeansEventIff(r: Record)
    requires r.status.terminalAtBlockNumber.None?
    ensures (forall steps ::
               RecordAfter(r, steps).status.terminalAtBlockNumber.Some? <==> HasTerminal(Trace(r, steps)))
        <==> Anchored(r) || r.status.replacedBy.value.hash == r.hash
  {
    hide Trace, RecordAfter, HasTerminal;
    if Voiced(r) {
      forall steps
        ensures RecordAfter(r, steps).status.terminalAtBlockNumber.Some? <==> HasTerminal(Trace(r, steps))
      {
        RunTerminal(r, steps);
      }
    } else {
      var steps := UnanchoredTurnsTerminalSilently(r);
    }
  }
}
