/** What one mempool snapshot says about one tracked transaction. */
module Mempool {
  import opened Wrappers
  import opened Text
  import opened Observations

  /** One transaction of a bucket, under its sender and its nonce. */
  datatype Entry = Entry(sender: string, nonceKey: string, tx: RawTx)

  /** Both buckets in the order their keys are listed; sender and nonce together name an entry. */
  datatype Snapshot = Snapshot(pending: seq<Entry>, queued: seq<Entry>)

  // ----- presence -----

  /** The last entry with the hash. */
  function LastWithHash(entries: seq<Entry>, hash: Hash): (tx: Option<RawTx>)
    ensures tx.Some? ==> tx.value.hash == Some(hash) && exists e :: e in entries && e.tx == tx.value
    ensures tx.None? ==> forall e | e in entries :: e.tx.hash != Some(hash)
  {
    if entries == [] then None
    else if entries[|entries| - 1].tx.hash == Some(hash) then Some(entries[|entries| - 1].tx)
    else
      var init := entries[..|entries| - 1];
      assert forall e | e in entries :: e == entries[|entries| - 1] || e in init;
      LastWithHash(init, hash)
  }

  /** A queued entry hides a pending one. */
  function PresenceOf(snapshot: Snapshot, hash: Hash): Option<Presence> {
    match LastWithHash(snapshot.queued, hash)
    case Some(tx) => Some(Presence(Queued, tx))
    case None =>
      match LastWithHash(snapshot.pending, hash)
      case Some(tx) => Some(Presence(Pending, tx))
      case None => None
  }

  /** The index, read as a function of the hash. */
  ghost predicate Indexes(byHash: map<Hash, Presence>, snapshot: Snapshot) {
    forall h :: (if h in byHash then Some(byHash[h]) else None) == PresenceOf(snapshot, h)
  }

  /** The index after one more entry. */
  function Indexed(byHash: map<Hash, Presence>, bucket: Bucket, tx: RawTx): map<Hash, Presence> {
    if tx.hash.None? then byHash else byHash[tx.hash.value := Presence(bucket, tx)]
  }

  lemma IndexPending(byHash: map<Hash, Presence>, pending: seq<Entry>, i: nat)
    requires i < |pending| && Indexes(byHash, Snapshot(pending[..i], []))
    ensures Indexes(Indexed(byHash, Pending, pending[i].tx), Snapshot(pending[..i + 1], []))
  {
    assert pending[..i + 1][..i] == pending[..i];
  }

  lemma IndexQueued(byHash: map<Hash, Presence>, pending: seq<Entry>, queued: seq<Entry>, i: nat)
    requires i < |queued| && Indexes(byHash, Snapshot(pending, queued[..i]))
    ensures Indexes(Indexed(byHash, Queued, queued[i].tx), Snapshot(pending, queued[..i + 1]))
  {
    assert queued[..i + 1][..i] == queued[..i];
  }

  method BuildIndex(snapshot: Snapshot) returns (byHash: map<Hash, Presence>)
    ensures Indexes(byHash, snapshot)
  {
    byHash := map[];
    for i := 0 to |snapshot.pending|
      invariant Indexes(byHash, Snapshot(snapshot.pending[..i], []))
    {
      hide Indexes;
      IndexPending(byHash, snapshot.pending, i);
      var tx := snapshot.pending[i].tx;
      if tx.hash.Some? {
        byHash := byHash[tx.hash.value := Presence(Pending, tx)];
      }
    }
    assert snapshot.pending[..|snapshot.pending|] == snapshot.pending;
    for i := 0 to |snapshot.queued|
      invariant Indexes(byHash, Snapshot(snapshot.pending, snapshot.queued[..i]))
    {
      hide Indexes;
      IndexQueued(byHash, snapshot.pending, snapshot.queued, i);
      var tx := snapshot.queued[i].tx;
      if tx.hash.Some? {
        byHash := byHash[tx.hash.value := Presence(Queued, tx)];
      }
    }
    assert snapshot.queued[..|snapshot.queued|] == snapshot.queued;
  }

  // ----- replacement -----

  function EntryAt(entries: seq<Entry>, sender: string, nonceKey: string): (tx: Option<RawTx>)
    ensures tx.Some? ==> Entry(sender, nonceKey, tx.value) in entries
    ensures tx.None? ==> forall e | e in entries :: e.sender != sender || e.nonceKey != nonceKey
  {
    if entries == [] then None
    else if entries[0].sender == sender && entries[0].nonceKey == nonceKey then Some(entries[0].tx)
    else
      assert forall e | e in entries :: e == entries[0] || e in entries[1..];
      EntryAt(entries[1..], sender, nonceKey)
  }

  predicate Replaces(tx: Option<RawTx>, originalHash: Hash) {
    tx.Some? && tx.value.hash.Some? && tx.value.hash.value != originalHash
  }

  /** The transaction now at the identity's sender and nonce, if it is another one; pending goes first. */
  function ReplacementFor(
      snapshot: Snapshot, identity: Identity, originalHash: Hash, normalizeNonce: string -> string): (tx: Option<RawTx>)
    ensures tx.Some? ==>
              && tx.value.hash.Some? && tx.value.hash.value != originalHash
              && Entry(Lower(identity.from), normalizeNonce(identity.nonce), tx.value)
                 in snapshot.pending + snapshot.queued
  {
    var sender, nonceKey := Lower(identity.from), normalizeNonce(identity.nonce);
    var p, q := EntryAt(snapshot.pending, sender, nonceKey), EntryAt(snapshot.queued, sender, nonceKey);
    if Replaces(p, originalHash) then p
    else if Replaces(q, originalHash) then q
    else None
  }

  /** `normalizeNonce` stands for reading a hexadecimal nonce and writing it in decimal. */
  method FindReplacementInMempool(
      snapshot: Snapshot, identity: Identity, originalHash: Hash, normalizeNonce: string -> string)
    returns (r: Option<RawTx>)
    ensures r == ReplacementFor(snapshot, identity, originalHash, normalizeNonce)
  {
    var senderKey, nonceKey := Lower(identity.from), normalizeNonce(identity.nonce);
    var buckets := [snapshot.pending, snapshot.queued];
    for i := 0 to |buckets|
      invariant forall j | 0 <= j < i :: !Replaces(EntryAt(buckets[j], senderKey, nonceKey), originalHash)
    {
      var tx := EntryAt(buckets[i], senderKey, nonceKey);
      if Replaces(tx, originalHash) {
        assert i == 0 || !Replaces(EntryAt(buckets[0], senderKey, nonceKey), originalHash);
        return tx;
      }
    }
    assert !Replaces(EntryAt(buckets[0], senderKey, nonceKey), originalHash);
    assert !Replaces(EntryAt(buckets[1], senderKey, nonceKey), originalHash);
    return None;
  }

  // ----- the decision's input -----

  function InputFor(r: Record, snapshot: Snapshot, normalizeNonce: string -> string, tip: int): MempoolInput {
    MempoolInput(
      PresenceOf(snapshot, r.hash),
      match r.identity
      case None => None
      case Some(id) => ReplacementFor(snapshot, id, r.hash, normalizeNonce),
      tip, tip)
  }

  /**
   A snapshot reports a transaction exactly when it holds it: `left-mempool` means no bucket has it any
   more, and a sighting names a bucket that does.
   */
  lemma ReportsAreTrue(r: Record, snapshot: Snapshot, normalizeNonce: string -> string, tip: int)
    ensures var es := DecideMempool(r, InputFor(r, snapshot, normalizeNonce, tip)).events;
            && (LeftMempool in es ==>
                  forall e | e in snapshot.pending + snapshot.queued :: e.tx.hash != Some(r.hash))
            && (forall bucket, tx | SeenInMempool(bucket, tx) in es ::
                  exists e :: e in (if bucket.Pending? then snapshot.pending else snapshot.queued)
                              && e.tx == tx && tx.hash == Some(r.hash))
            && (forall x | ReplacedBy(x) in es ::
                  exists e :: e in snapshot.pending + snapshot.queued && e.tx.hash == Some(x.hash) && x.hash != r.hash)
  {
    var m := InputFor(r, snapshot, normalizeNonce, tip);
    if NewReplacement(r, m) {
      var tx := m.replacementInMempool.value;
      assert Entry(Lower(r.identity.value.from), normalizeNonce(r.identity.value.nonce), tx)
          in snapshot.pending + snapshot.queued;
    }
  }

  // ----- the lookups, spelled out -----

  lemma {:induction false} LastIsLast(entries: seq<Entry>, hash: Hash, i: nat)
    requires i < |entries| && entries[i].tx.hash == Some(hash)
    requires forall j | i < j < |entries| :: entries[j].tx.hash != Some(hash)
    ensures LastWithHash(entries, hash) == Some(entries[i].tx)
  {
    if i == |entries| - 1 {
    } else {
      assert entries[|entries| - 1].tx.hash != Some(hash);
      LastIsLast(entries[..|entries| - 1], hash, i);
    }
  }

  predicate Has(entries: seq<Entry>, hash: Hash) {
    exists i | 0 <= i < |entries| :: entries[i].tx.hash == Some(hash)
  }

  /** The last queued entry with the hash, else the last pending one, else nothing. */
  lemma PresenceSpelled(snapshot: Snapshot, hash: Hash, i: nat)
    ensures var q := snapshot.queued;
            i < |q| && q[i].tx.hash == Some(hash) && (forall j | i < j < |q| :: q[j].tx.hash != Some(hash)) ==>
              PresenceOf(snapshot, hash) == Some(Presence(Queued, q[i].tx))
    ensures var p := snapshot.pending;
            !Has(snapshot.queued, hash)
            && i < |p| && p[i].tx.hash == Some(hash) && (forall j | i < j < |p| :: p[j].tx.hash != Some(hash)) ==>
              PresenceOf(snapshot, hash) == Some(Presence(Pending, p[i].tx))
    ensures !Has(snapshot.queued, hash) && !Has(snapshot.pending, hash) ==> PresenceOf(snapshot, hash) == None
  {
    var p, q := snapshot.pending, snapshot.queued;
    NoneWithHash(p, hash);
    NoneWithHash(q, hash);
    if i < |q| && q[i].tx.hash == Some(hash) && forall j | i < j < |q| :: q[j].tx.hash != Some(hash) {
      LastIsLast(q, hash, i);
    }
    if i < |p| && p[i].tx.hash == Some(hash) && forall j | i < j < |p| :: p[j].tx.hash != Some(hash) {
      LastIsLast(p, hash, i);
    }
  }

  lemma NoneWithHash(entries: seq<Entry>, hash: Hash)
    ensures LastWithHash(entries, hash) == None <==> !Has(entries, hash)
  {
    if i :| 0 <= i < |entries| && entries[i].tx.hash == Some(hash) {
      assert entries[i] in entries;
    }
    if tx :| LastWithHash(entries, hash) == Some(tx) {
      var e :| e in entries && e.tx == tx;
      var i :| 0 <= i < |entries| && entries[i] == e;
    }
  }

  /** `tx` is what the bucket holds for a sender and a nonce: the first such entry, if there are several. */
  predicate IsAt(entries: seq<Entry>, sender: string, nonceKey: string, tx: RawTx) {
    exists i | 0 <= i < |entries| ::
      && entries[i] == Entry(sender, nonceKey, tx)
      && forall j | 0 <= j < i :: entries[j].sender != sender || entries[j].nonceKey != nonceKey
  }

  lemma {:induction false} EntryIsAt(entries: seq<Entry>, sender: string, nonceKey: string, tx: RawTx)
    requires IsAt(entries, sender, nonceKey, tx)
    ensures EntryAt(entries, sender, nonceKey) == Some(tx)
  {
    var i :| 0 <= i < |entries| && entries[i] == Entry(sender, nonceKey, tx)
          && forall j | 0 <= j < i :: entries[j].sender != sender || entries[j].nonceKey != nonceKey;
    if i > 0 {
      var rest := entries[1..];
      assert rest[i - 1] == entries[i];
      assert forall j | 0 <= j < i - 1 :: rest[j] == entries[j + 1];
      EntryIsAt(rest, sender, nonceKey, tx);
    }
  }

  /**
   What replaces a transaction in the mempool: the pending entry of its sender, in lower case, and nonce, if that
   is another transaction with a hash; failing that, the queued one on the same terms.
   */
  lemma ReplacementSpelled(
      snapshot: Snapshot, identity: Identity, original: Hash, normalizeNonce: string -> string, tx: RawTx)
    requires tx.hash.Some? && tx.hash.value != original
    ensures IsAt(snapshot.pending, Lower(identity.from), normalizeNonce(identity.nonce), tx) ==>
              ReplacementFor(snapshot, identity, original, normalizeNonce) == Some(tx)
    ensures (forall e | e in snapshot.pending
                        && e.sender == Lower(identity.from) && e.nonceKey == normalizeNonce(identity.nonce) ::
               e.tx.hash == None || e.tx.hash == Some(original))
            && IsAt(snapshot.queued, Lower(identity.from), normalizeNonce(identity.nonce), tx) ==>
              ReplacementFor(snapshot, identity, original, normalizeNonce) == Some(tx)
  {
    hide IsAt;
    var sender, nonceKey := Lower(identity.from), normalizeNonce(identity.nonce);
    if IsAt(snapshot.pending, sender, nonceKey, tx) {
      EntryIsAt(snapshot.pending, sender, nonceKey, tx);
    }
    if IsAt(snapshot.queued, sender, nonceKey, tx) {
      EntryIsAt(snapshot.queued, sender, nonceKey, tx);
    }
  }

  /** A snapshot is decided on with these lookups, and dated by the tip. */
  lemma InputSpelled(r: Record, snapshot: Snapshot, normalizeNonce: string -> string, tip: int)
    ensures var m := InputFor(r, snapshot, normalizeNonce, tip);
            && m.presence == PresenceOf(snapshot, r.hash) && m.at == m.tipBlockNumber == tip
            && (r.identity.None? ==> m.replacementInMempool == None)
            && (r.identity.Some? ==>
                  m.replacementInMempool == ReplacementFor(snapshot, r.identity.value, r.hash, normalizeNonce))
  {
  }
}
