/** Per-record decisions: one block or one mempool snapshot against one tracked transaction. */
module Observations {
  import opened Wrappers
  import opened Text

  datatype Hash = Hash(id: nat)
  datatype Bucket = Pending | Queued

  /** An absent field and an empty text are treated alike by the source, hence `None` for both. */
  datatype RawTx = RawTx(hash: Option<Hash>, from: Option<string>, nonce: Option<string>)

  datatype Identity = Identity(from: string, nonce: string)
  datatype Inclusion = Inclusion(blockHash: Hash, blockNumber: int, transactionIndex: nat, confirmations: nat)
  datatype Placement = Placement(bucket: Bucket, tx: RawTx, at: int)
  datatype Replacement = Replacement(hash: Hash, blockNumber: Option<int>)
  datatype Vanishing = Vanishing(previousBlockHash: Hash, canonicalBlockHash: Hash, blockNumber: int)

  datatype Status = Status(
    lastSeenInBlock: Option<Inclusion>,
    lastSeenInMempool: Option<Placement>,
    replacedBy: Option<Replacement>,
    vanishedAt: Option<Vanishing>,
    unseenStreak: nat,
    firstObservedAtBlock: Option<int>,
    lastObservedAtBlock: Option<int>,
    terminalAtBlockNumber: Option<int>)

  datatype Record = Record(
    hash: Hash,
    status: Status,
    identity: Option<Identity>,
    inLastMempoolSnapshot: bool,
    unseenThresholdBlocks: nat)

  datatype Event =
    | SeenInMempool(bucket: Bucket, tx: RawTx)
    | LeftMempool
    | SeenInBlock(inclusion: Inclusion)
    | VanishedFromBlock(vanishing: Vanishing)
    | ReplacedBy(replacement: Replacement)
    | UnseenForNBlocks(blocks: nat)
    | ConfirmedTerminal(confirmations: nat)

  /** A partial update touches some fields and leaves the rest. */
  datatype Change<T> = Keep | Set(value: T) {
    function Over(before: T): T {
      match this
      case Keep => before
      case Set(v) => v
    }
  }

  datatype StatusPatch = StatusPatch(
    lastSeenInBlock: Change<Option<Inclusion>>,
    lastSeenInMempool: Change<Option<Placement>>,
    replacedBy: Change<Option<Replacement>>,
    unseenStreak: Change<nat>,
    firstObservedAtBlock: Change<Option<int>>,
    lastObservedAtBlock: Change<Option<int>>,
    terminalAtBlockNumber: Change<Option<int>>)

  const NO_PATCH: StatusPatch := StatusPatch(Keep, Keep, Keep, Keep, Keep, Keep, Keep)

  datatype ObservationResult = ObservationResult(
    events: seq<Event>,
    statusPatch: StatusPatch,
    identityPatch: Option<Identity>,
    inMempoolPatch: Option<bool>)

  const EMPTY_RESULT: ObservationResult := ObservationResult([], NO_PATCH, None, None)

  /** The record after the orchestrator has merged the patches into it. */
  function Apply(r: Record, o: ObservationResult): Record {
    var s, p := r.status, o.statusPatch;
    r.(
    status := s.(
      lastSeenInBlock := p.lastSeenInBlock.Over(s.lastSeenInBlock),
      lastSeenInMempool := p.lastSeenInMempool.Over(s.lastSeenInMempool),
      replacedBy := p.replacedBy.Over(s.replacedBy),
      unseenStreak := p.unseenStreak.Over(s.unseenStreak),
      firstObservedAtBlock := p.firstObservedAtBlock.Over(s.firstObservedAtBlock),
      lastObservedAtBlock := p.lastObservedAtBlock.Over(s.lastObservedAtBlock),
      terminalAtBlockNumber := p.terminalAtBlockNumber.Over(s.terminalAtBlockNumber)),
    identity := if o.identityPatch.Some? then o.identityPatch else r.identity,
    inLastMempoolSnapshot := o.inMempoolPatch.GetOr(r.inLastMempoolSnapshot))
  }

  /** A field that was patched has the patch's value, one that was not has its own. */
  predicate Takes<T(==)>(before: T, after: T, change: Change<T>) {
    match change
    case Keep => after == before
    case Set(v) => after == v
  }

  // ----- helpers -----

  function CacheIdentity(current: Option<Identity>, tx: RawTx): Option<Identity> {
    if current.Some? || tx.from.None? || tx.nonce.None? then None
    else Some(Identity(tx.from.value, tx.nonce.value))
  }

  predicate IsReplacement(tx: RawTx, identity: Identity, original: Hash) {
    && tx.from.Some? && Lower(tx.from.value) == Lower(identity.from)
    && tx.nonce == Some(identity.nonce)
    && tx.hash.Some? && tx.hash.value != original
  }

  function FirstReplacement(identity: Identity, original: Hash, txs: seq<RawTx>): (r: Option<RawTx>)
    ensures r.Some? ==> r.value in txs && IsReplacement(r.value, identity, original)
    ensures r.None? <==> forall tx | tx in txs :: !IsReplacement(tx, identity, original)
  {
    if txs == [] then None
    else if IsReplacement(txs[0], identity, original) then Some(txs[0])
    else FirstReplacement(identity, original, txs[1..])
  }

  method FindReplacementInBlock(identity: Identity, originalHash: Hash, txs: seq<RawTx>)
    returns (r: Option<RawTx>)
    ensures r == FirstReplacement(identity, originalHash, txs)
  {
    var targetFrom := Lower(identity.from);
    for i := 0 to |txs|
      invariant FirstReplacement(identity, originalHash, txs)
             == FirstReplacement(identity, originalHash, txs[i..])
    {
      var tx := txs[i];
      assert txs[i..][0] == tx && txs[i..][1..] == txs[i + 1..];
      if tx.from.None? || Lower(tx.from.value) != targetFrom {
        continue;
      }
      if tx.nonce != Some(identity.nonce) {
        continue;
      }
      if tx.hash.None? || tx.hash.value == originalHash {
        continue;
      }
      return Some(tx);
    }
    return None;
  }

  /** Position of the transaction in the block, or -1. */
  function IndexOfHash(txs: seq<RawTx>, hash: Hash): (i: int)
    ensures -1 <= i < |txs|
    ensures i >= 0 ==> txs[i].hash == Some(hash)
    ensures i == -1 ==> forall j | 0 <= j < |txs| :: txs[j].hash != Some(hash)
  {
    if txs == [] then -1
    else if txs[0].hash == Some(hash) then 0
    else
      var i := IndexOfHash(txs[1..], hash);
      assert forall j | 0 < j < |txs| :: txs[j] == txs[1..][j - 1];
      if i < 0 then -1 else i + 1
  }

  // ----- block side -----

  datatype BlockInput = BlockInput(
    blockHash: Hash,
    blockNumber: int,
    txs: seq<RawTx>,
    previousTipNumber: Option<int>,
    confirmationsForTerminal: Option<nat>)

  predicate ReachedConfirmedTerminal(r: Record, b: BlockInput, confirmations: nat) {
    && b.confirmationsForTerminal.Some?
    && confirmations >= b.confirmationsForTerminal.value
    && r.status.terminalAtBlockNumber.None?
  }

  function Or<T>(o: Option<T>, default: T): Option<T> {
    if o.Some? then o else Some(default)
  }

  function TerminalChange(now: bool, blockNumber: int): Change<Option<int>> {
    if now then Set(Some(blockNumber)) else Keep
  }

  function SeenHere(r: Record, b: BlockInput, index: nat): ObservationResult
    requires index < |b.txs|
  {
    var seen := r.status.lastSeenInBlock;
    var isFresh := seen.None? || seen.value.blockHash != b.blockHash;
    var confirmations := if isFresh then 1 else seen.value.confirmations;
    var inclusion := Inclusion(b.blockHash, b.blockNumber, index, confirmations);
    var terminalNow := ReachedConfirmedTerminal(r, b, confirmations);
    ObservationResult(
      (if isFresh then [SeenInBlock(inclusion)] else [])
      + (if terminalNow then [ConfirmedTerminal(confirmations)] else []),
      NO_PATCH.(
        lastSeenInBlock := Set(Some(inclusion)),
        unseenStreak := Set(0),
        firstObservedAtBlock := Set(Or(r.status.firstObservedAtBlock, b.blockNumber)),
        lastObservedAtBlock := Set(Some(b.blockNumber)),
        terminalAtBlockNumber := TerminalChange(terminalNow, b.blockNumber)),
      CacheIdentity(r.identity, b.txs[index]),
      None)
  }

  function Bumped(r: Record, b: BlockInput): ObservationResult
    requires r.status.lastSeenInBlock.Some?
  {
    var seen := r.status.lastSeenInBlock.value;
    var updated := seen.(confirmations := seen.confirmations + 1);
    var terminalNow := ReachedConfirmedTerminal(r, b, updated.confirmations);
    ObservationResult(
      [SeenInBlock(updated)] + (if terminalNow then [ConfirmedTerminal(updated.confirmations)] else []),
      NO_PATCH.(
        lastSeenInBlock := Set(Some(updated)),
        lastObservedAtBlock := Set(Some(b.blockNumber)),
        terminalAtBlockNumber := TerminalChange(terminalNow, b.blockNumber)),
      None, None)
  }

  function Replaced(r: Record, b: BlockInput, hash: Hash): ObservationResult {
    var isNew := r.status.replacedBy.None? || r.status.replacedBy.value.hash != hash;
    var replacement := Replacement(hash, Some(b.blockNumber));
    ObservationResult(
      if isNew then [ReplacedBy(replacement)] else [],
      NO_PATCH.(
        replacedBy := Set(Some(replacement)),
        lastObservedAtBlock := Set(Some(b.blockNumber)),
        terminalAtBlockNumber := Set(Or(r.status.terminalAtBlockNumber, b.blockNumber))),
      None, None)
  }

  function Missed(r: Record, b: BlockInput): ObservationResult {
    var streak := r.status.unseenStreak + 1;
    var reached := streak == r.unseenThresholdBlocks;
    ObservationResult(
      if reached then [UnseenForNBlocks(streak)] else [],
      NO_PATCH.(
        unseenStreak := Set(streak),
        terminalAtBlockNumber :=
          TerminalChange(reached && r.status.terminalAtBlockNumber.None?, b.blockNumber)),
      None, None)
  }

  function ReplacementIn(r: Record, b: BlockInput): Option<RawTx> {
    if r.identity.None? then None else FirstReplacement(r.identity.value, r.hash, b.txs)
  }

  function DecideBlock(r: Record, b: BlockInput): ObservationResult {
    var index := IndexOfHash(b.txs, r.hash);
    if index >= 0 then SeenHere(r, b, index)
    else if r.status.lastSeenInBlock.Some? && b.previousTipNumber.Some? then Bumped(r, b)
    else if ReplacementIn(r, b).Some? then Replaced(r, b, ReplacementIn(r, b).value.hash.value)
    else if r.status.firstObservedAtBlock.None? then EMPTY_RESULT
    else Missed(r, b)
  }

  // ----- mempool side -----

  datatype Presence = Presence(bucket: Bucket, tx: RawTx)

  datatype MempoolInput = MempoolInput(
    presence: Option<Presence>,
    replacementInMempool: Option<RawTx>,
    at: int,
    tipBlockNumber: int)

  predicate FreshPresence(r: Record, bucket: Bucket) {
    || !r.inLastMempoolSnapshot
    || r.status.lastSeenInMempool.None?
    || r.status.lastSeenInMempool.value.bucket != bucket
  }

  predicate NewReplacement(r: Record, m: MempoolInput) {
    && r.identity.Some? && r.status.replacedBy.None?
    && m.replacementInMempool.Some? && m.replacementInMempool.value.hash.Some?
    && m.replacementInMempool.value.hash.value != r.hash
  }

  function PresenceEvents(r: Record, m: MempoolInput): seq<Event> {
    match m.presence
    case Some(p) => if FreshPresence(r, p.bucket) then [SeenInMempool(p.bucket, p.tx)] else []
    case None => if r.inLastMempoolSnapshot then [LeftMempool] else []
  }

  function PresencePatch(r: Record, m: MempoolInput): StatusPatch {
    match m.presence
    case None => NO_PATCH
    case Some(p) =>
      NO_PATCH.(
      lastSeenInMempool := Set(Some(Placement(p.bucket, p.tx, m.at))),
      unseenStreak := Set(0),
      firstObservedAtBlock := Set(Or(r.status.firstObservedAtBlock, m.tipBlockNumber)),
      lastObservedAtBlock := Set(Some(m.tipBlockNumber)))
  }

  function DecideMempool(r: Record, m: MempoolInput): ObservationResult {
    var replaced := NewReplacement(r, m);
    var replacement :=
      if replaced then Replacement(m.replacementInMempool.value.hash.value, None) else Replacement(r.hash, None);
    var patch := PresencePatch(r, m);
    ObservationResult(
      PresenceEvents(r, m) + (if replaced then [ReplacedBy(replacement)] else []),
      if replaced then
        patch.(
        replacedBy := Set(Some(replacement)),
        terminalAtBlockNumber := TerminalChange(r.status.terminalAtBlockNumber.None?, m.at))
      else patch,
      match m.presence case Some(p) => CacheIdentity(r.identity, p.tx) case None => None,
      match m.presence
      case Some(_) => Some(true)
      case None => if r.inLastMempoolSnapshot then Some(false) else None)
  }

  /** The source builds the same answer piece by piece. */
  method DecideMempoolObservation(r: Record, m: MempoolInput) returns (o: ObservationResult)
    ensures o == DecideMempool(r, m)
  {
    var events := [];
    var statusPatch := NO_PATCH;
    var identityPatch := None;
    var inMempoolPatch := None;
    if m.presence.Some? {
      var p := m.presence.value;
      identityPatch := CacheIdentity(r.identity, p.tx);
      statusPatch := statusPatch.(
        lastSeenInMempool := Set(Some(Placement(p.bucket, p.tx, m.at))),
        unseenStreak := Set(0),
        firstObservedAtBlock := Set(Or(r.status.firstObservedAtBlock, m.tipBlockNumber)),
        lastObservedAtBlock := Set(Some(m.tipBlockNumber)));
      inMempoolPatch := Some(true);
      if FreshPresence(r, p.bucket) {
        events := events + [SeenInMempool(p.bucket, p.tx)];
      }
    } else if r.inLastMempoolSnapshot {
      inMempoolPatch := Some(false);
      events := events + [LeftMempool];
    }
    if NewReplacement(r, m) {
      var hash := m.replacementInMempool.value.hash.value;
      statusPatch := statusPatch.(replacedBy := Set(Some(Replacement(hash, None))));
      if r.status.terminalAtBlockNumber.None? {
        statusPatch := statusPatch.(terminalAtBlockNumber := Set(Some(m.at)));
      }
      events := events + [ReplacedBy(Replacement(hash, None))];
    }
    o := ObservationResult(events, statusPatch, identityPatch, inMempoolPatch);
  }

  // ----- reorg side -----

  /** A divergence at the height of the record's inclusion resets the inclusion. */
  function VanishRecord(r: Record, v: Vanishing): Record {
    if r.status.lastSeenInBlock.Some? && r.status.lastSeenInBlock.value.blockNumber == v.blockNumber
    then
      r.(status := r.status.(
        vanishedAt := Some(v), lastSeenInBlock := None, lastObservedAtBlock := Some(v.blockNumber)))
    else r
  }

  function VanishEvents(r: Record, v: Vanishing): seq<Event> {
    if r.status.lastSeenInBlock.Some? && r.status.lastSeenInBlock.value.blockNumber == v.blockNumber
    then [VanishedFromBlock(v)] else []
  }
}
