/** The store kept in a key-value storage, with bigint-preserving JSON under namespaced keys. */
module LocalStorageStore {
  import opened Wrappers
  import opened Sequences
  import opened Json
  import opened StoreKeys
  import opened Store

  /** What a storage entry holds: JSON text, or text that does not parse. */
  datatype Stored = Text(json: Json) | Malformed

  type Items = map<string, Stored>

  // ----- the storage -----

  /** A `Storage` object: entries by key, and the keys in an order its clients may not rely on. */
  class LocalStorage {
    var items: Items
    var order: seq<string>

    ghost predicate Valid()
      reads this
    {
      && (forall k :: k in items <==> k in order)
      && (forall i, j | 0 <= i < j < |order| :: order[i] != order[j])
    }

    constructor ()
      ensures Valid() && items == map[]
    {
      items, order := map[], [];
    }

    method GetItem(key: string) returns (text: Option<Stored>)
      ensures text == ItemAt(items, key)
    {
      text := if key in items then Some(items[key]) else None;
    }

    method SetItem(key: string, text: Stored)
      requires Valid()
      modifies this
      ensures Valid() && items == old(items)[key := text]
    {
      if key !in items {
        order := order + [key];
      }
      items := items[key := text];
    }

    method RemoveItem(key: string)
      requires Valid()
      modifies this
      ensures Valid() && items == old(items) - {key}
    {
      if key in items {
        var i :| 0 <= i < |order| && order[i] == key;
        WithoutOne(order, i);
        order := order[..i] + order[i + 1..];
        items := items - {key};
      }
    }

    method Length() returns (n: nat)
      ensures n == |order|
    {
      n := |order|;
    }

    method Key(i: nat) returns (key: Option<string>)
      ensures key == if i < |order| then Some(order[i]) else None
    {
      key := if i < |order| then Some(order[i]) else None;
    }
  }

  lemma WithoutOne(order: seq<string>, i: nat)
    requires i < |order| && forall a, b | 0 <= a < b < |order| :: order[a] != order[b]
    ensures var rest := order[..i] + order[i + 1..];
            && (forall k :: k in rest <==> k in order && k != order[i])
            && (forall a, b | 0 <= a < b < |rest| :: rest[a] != rest[b])
  {
    var rest := order[..i] + order[i + 1..];
    forall a | 0 <= a < |rest|
      ensures rest[a] == order[if a < i then a else a + 1]
    {
    }
    forall k | k in order && k != order[i]
      ensures k in rest
    {
      var a :| 0 <= a < |order| && order[a] == k;
      assert rest[if a < i then a else a - 1] == k;
    }
  }

  function ItemAt(items: Items, key: string): Option<Stored> {
    if key in items then Some(items[key]) else None
  }

  // ----- deleting by prefix -----

  function WithoutPrefix(items: Items, prefix: string): Items {
    map k | k in items && !StartsWith(k, prefix) :: items[k]
  }

  /** The storage's keys that start with `prefix`, each once. */
  method MatchingKeys(storage: LocalStorage, prefix: string) returns (matched: seq<string>)
    requires storage.Valid()
    ensures forall k :: k in matched <==> k in storage.items && StartsWith(k, prefix)
    ensures forall i, j | 0 <= i < j < |matched| :: matched[i] != matched[j]
  {
    hide StartsWith;
    matched := [];
    var n := storage.Length();
    for i := 0 to n
      invariant forall k :: k in matched <==> k in storage.order[..i] && StartsWith(k, prefix)
      invariant forall i, j | 0 <= i < j < |matched| :: matched[i] != matched[j]
    {
      var key := storage.Key(i);
      assert storage.order[..i + 1] == storage.order[..i] + [key.value];
      assert key.value !in storage.order[..i];
      if key.Some? && StartsWith(key.value, prefix) {
        matched := matched + [key.value];
      }
    }
    assert storage.order[..n] == storage.order;
  }

  method DeleteKeysStartingWith(storage: LocalStorage, prefix: string)
    requires storage.Valid()
    modifies storage
    ensures storage.Valid()
    ensures storage.items == if prefix == "" then old(storage.items) else WithoutPrefix(old(storage.items), prefix)
  {
    hide StartsWith;
    if prefix == "" {
      return;
    }
    var matched := MatchingKeys(storage, prefix);
    for i := 0 to |matched|
      invariant storage.Valid()
      invariant storage.items == map k | k in old(storage.items) && k !in matched[..i] :: old(storage.items)[k]
    {
      storage.RemoveItem(matched[i]);
      assert matched[..i + 1] == matched[..i] + [matched[i]];
    }
    assert matched[..|matched|] == matched;
  }

  // ----- what a reader is shown -----

  /** `parseRecord`: absent, malformed and `null` entries all read as nothing. */
  function ParseStored(text: Option<Stored>, parse: string -> Option<int>): Option<Value> {
    match text
    case Some(Text(json)) =>
      var v := Decode(json, parse);
      if v.Null? then None else Some(v)
    case _ => None
  }

  function Shown(items: Items, key: string, parse: string -> Option<int>): Option<Value> {
    ParseStored(ItemAt(items, key), parse)
  }

  function LogValue(contents: StoreState, id: Id): Option<Value> {
    if id in contents.logs then Some(Arr(contents.logs[id])) else None
  }

  /** Reading any record or log out of the storage shows the contents. */
  ghost predicate Holds(items: Items, prefix: string, contents: StoreState, parse: string -> Option<int>) {
    forall id: Id ::
      && Shown(items, RecordKey(prefix, id), parse) == Get(contents, id)
      && Shown(items, EventLogKey(prefix, id), parse) == LogValue(contents, id)
  }

  /** Entries of other namespaces are the same in both. */
  ghost predicate SameOutside(a: Items, b: Items, prefix: string) {
    forall k | !Owned(prefix, k) :: ItemAt(a, k) == ItemAt(b, k)
  }

  // ----- anything read back is stable -----

  lemma {:induction false} DecodedIsLossless(j: Json, parse: string -> Option<int>)
    ensures Lossless(Decode(j, parse), parse)
    decreases j, 1
  {
    match j
    case JArr(items) => DecodedItemsLossless(items, parse);
    case JObj(fields) => DecodedFieldsLossless(fields, parse);
    case _ =>
  }

  lemma {:induction false} DecodedItemsLossless(items: seq<Json>, parse: string -> Option<int>)
    ensures LosslessItems(DecodeItems(items, parse), parse)
    decreases items, 0
  {
    if items == [] {
    } else {
      DecodedIsLossless(items[0], parse);
      DecodedItemsLossless(items[1..], parse);
      var all := DecodeItems(items, parse);
      assert all[1..] == DecodeItems(items[1..], parse);
    }
  }

  lemma {:induction false} DecodedFieldsLossless(fields: seq<JField>, parse: string -> Option<int>)
    ensures LosslessFields(DecodeFields(fields, parse), parse)
    decreases fields, 0
  {
    if fields == [] {
    } else {
      DecodedIsLossless(fields[0].value, parse);
      DecodedFieldsLossless(fields[1..], parse);
      var all := DecodeFields(fields, parse);
      assert all[1..] == DecodeFields(fields[1..], parse);
    }
  }

  lemma {:induction false} LosslessEach(items: seq<Value>, parse: string -> Option<int>)
    ensures LosslessItems(items, parse) <==> forall v | v in items :: Lossless(v, parse)
  {
    if items == [] {
    } else {
      hide Lossless;
      var rest := items[1..];
      LosslessEach(rest, parse);
      assert forall v | v in rest :: v in items;
      assert forall v | v in items :: v == items[0] || v in rest;
      if forall v | v in items :: Lossless(v, parse) {
        assert Lossless(items[0], parse);
      }
    }
  }

  /** A log read back, grown by a lossless event and trimmed, can be written without loss. */
  lemma GrownLogIsLossless(json: Json, log: seq<Value>, event: Value, capacity: nat, parse: BigIntParser)
    requires log == [] || Decode(json, parse) == Arr(log)
    requires Lossless(event, parse)
    ensures Lossless(Arr(LastN(log + [event], capacity)), parse)
  {
    hide Decode;
    if log != [] {
      DecodedIsLossless(json, parse);
    }
    LosslessEach(log, parse);
    LosslessEach(LastN(log + [event], capacity), parse);
  }

  /** A value that is not `null` is shown as it was written if and only if it is lossless. */
  lemma ShownIffLossless(items: Items, key: string, v: Value, parse: BigIntParser)
    requires !v.Null?
    ensures Shown(items[key := Text(Encode(v))], key, parse) == Some(v) <==> Lossless(v, parse)
  {
    hide Decode, Encode, Lossless;
    RoundTripIff(v, parse);
  }

  // ----- each write keeps the contents in step -----

  lemma PutHolds(items: Items, prefix: string, contents: StoreState, record: Value, parse: BigIntParser)
    requires Holds(items, prefix, contents, parse)
    requires IsRecord(record) && Lossless(record, parse)
    ensures Holds(items[RecordKey(prefix, IdOf(record)) := Text(Encode(record))], prefix,
                  Put(contents, record), parse)
  {
    hide RecordKey, EventLogKey, Encode, Decode, IdOf, Lossless;
    var id := IdOf(record);
    ShownIffLossless(items, RecordKey(prefix, id), record, parse);
    forall i: Id
      ensures RecordKey(prefix, i) == RecordKey(prefix, id) ==> i == id
      ensures EventLogKey(prefix, i) != RecordKey(prefix, id)
    {
      if RecordKey(prefix, i) == RecordKey(prefix, id) {
        RecordKeyInjective(prefix, i, id);
      }
      KindsDisjoint(prefix, id, i);
    }
  }

  lemma LogHolds(items: Items, prefix: string, contents: StoreState, id: Id, log: seq<Value>, parse: BigIntParser)
    requires Holds(items, prefix, contents, parse)
    requires Lossless(Arr(log), parse)
    ensures Holds(items[EventLogKey(prefix, id) := Text(Encode(Arr(log)))], prefix,
                  contents.(logs := contents.logs[id := log]), parse)
  {
    hide RecordKey, EventLogKey, Encode, Decode, Lossless;
    ShownIffLossless(items, EventLogKey(prefix, id), Arr(log), parse);
    forall i: Id
      ensures EventLogKey(prefix, i) == EventLogKey(prefix, id) ==> i == id
      ensures RecordKey(prefix, i) != EventLogKey(prefix, id)
    {
      if EventLogKey(prefix, i) == EventLogKey(prefix, id) {
        EventLogKeyInjective(prefix, i, id);
      }
      KindsDisjoint(prefix, i, id);
    }
  }

  /** Storage and contents show the same log. */
  lemma LogShown(items: Items, prefix: string, contents: StoreState, id: Id, parse: BigIntParser)
    requires Holds(items, prefix, contents, parse)
    ensures ShownLog(items, EventLogKey(prefix, id), parse) == Some(LogOf(contents, id))
  {
    hide EventLogKey, RecordKey, ParseStored;
    assert Shown(items, EventLogKey(prefix, id), parse) == LogValue(contents, id);
  }

  /** Growing the shown log by a lossless event keeps the contents in step. */
  lemma AppendHolds(items: Items, prefix: string, contents: StoreState, id: Id, event: Value, capacity: nat,
                    parse: BigIntParser)
    requires Holds(items, prefix, contents, parse) && Lossless(event, parse)
    ensures var key := EventLogKey(prefix, id);
            var log := LastN(LogOf(contents, id) + [event], capacity);
            ShownLog(items, key, parse) == Some(LogOf(contents, id))
            && Holds(items[key := Text(Encode(Arr(log)))], prefix, AppendEvent(contents, id, event, capacity), parse)
  {
    hide Holds, EventLogKey, RecordKey, Decode, Encode, Lossless;
    var key, log := EventLogKey(prefix, id), LogOf(contents, id);
    LogShown(items, prefix, contents, id, parse);
    var json := if log == [] then JNull else items[key].json;
    GrownLogIsLossless(json, log, event, capacity, parse);
    LogHolds(items, prefix, contents, id, LastN(log + [event], capacity), parse);
  }

  lemma DeleteHolds(items: Items, prefix: string, contents: StoreState, id: Id, parse: BigIntParser)
    requires Holds(items, prefix, contents, parse)
    ensures Holds(items - {RecordKey(prefix, id)} - {EventLogKey(prefix, id)}, prefix,
                  Delete(contents, id), parse)
  {
    hide RecordKey, EventLogKey, Decode;
    forall i: Id
      ensures RecordKey(prefix, i) == RecordKey(prefix, id) ==> i == id
      ensures EventLogKey(prefix, i) == EventLogKey(prefix, id) ==> i == id
      ensures RecordKey(prefix, i) != EventLogKey(prefix, id) && EventLogKey(prefix, i) != RecordKey(prefix, id)
    {
      if RecordKey(prefix, i) == RecordKey(prefix, id) {
        RecordKeyInjective(prefix, i, id);
      }
      if EventLogKey(prefix, i) == EventLogKey(prefix, id) {
        EventLogKeyInjective(prefix, i, id);
      }
      KindsDisjoint(prefix, i, id);
      KindsDisjoint(prefix, id, i);
    }
  }

  // ----- cleaning up on construction -----

  predicate Skipped(legacy: string, prefix: string) {
    legacy == "" || legacy == prefix
  }

  function Cleaned(items: Items, prefix: string, legacies: seq<string>): Items {
    if legacies == [] then items
    else
      var rest, last := Cleaned(items, prefix, legacies[..|legacies| - 1]), legacies[|legacies| - 1];
      if Skipped(last, prefix) then rest else WithoutPrefix(rest, last + ":")
  }

  /** Cleaning removes exactly the entries under some listed prefix, the current one excepted. */
  lemma {:induction false} CleanedExactly(items: Items, prefix: string, legacies: seq<string>, key: string)
    ensures ItemAt(Cleaned(items, prefix, legacies), key)
         == if exists l :: l in legacies && l != "" && l != prefix && l + ":" <= key then None
            else ItemAt(items, key)
  {
    if legacies == [] {
    } else {
      var n := |legacies| - 1;
      CleanedExactly(items, prefix, legacies[..n], key);
      assert legacies == legacies[..n] + [legacies[n]];
    }
  }

  /** Every old name on the list leaves the live keys alone. */
  predicate Harmless(prefix: string, legacies: seq<string>) {
    forall l | l in legacies && !Skipped(l, prefix) :: !Endangers(l, prefix)
  }

  /** Old names that do not endanger the current one can be cleaned up without losing a live entry. */
  lemma CleaningKeepsContents(items: Items, prefix: string, legacies: seq<string>, contents: StoreState,
                              parse: BigIntParser)
    requires Holds(items, prefix, contents, parse) && Harmless(prefix, legacies)
    ensures Holds(Cleaned(items, prefix, legacies), prefix, contents, parse)
  {
    hide RecordKey, EventLogKey, Decode, Endangers;
    forall k | Live(prefix, k)
      ensures ItemAt(Cleaned(items, prefix, legacies), k) == ItemAt(items, k)
    {
      CleanedExactly(items, prefix, legacies, k);
      forall l | l in legacies && !Skipped(l, prefix)
        ensures !StartsWith(k, l + ":")
      {
        CleanupSparesIff(l, prefix);
      }
    }
    forall id: Id
      ensures Live(prefix, RecordKey(prefix, id)) && Live(prefix, EventLogKey(prefix, id))
    {
    }
  }

  function PlainRecord(id: Id): Value {
    Obj([Field("chainId", Number(id.0)), Field("hash", Str(id.1)), Field("subscriptions", Arr([]))])
  }

  lemma ConsField(f: Field, rest: seq<Field>, parse: string -> Option<int>)
    ensures LosslessFields([f] + rest, parse) <==> Lossless(f.value, parse) && LosslessFields(rest, parse)
    ensures forall k :: Lookup([f] + rest, k) == if f.key == k then Some(f.value) else Lookup(rest, k)
  {
    assert ([f] + rest)[1..] == rest;
  }

  lemma PlainRecordIsOne(id: Id, parse: BigIntParser)
    ensures IsRecord(PlainRecord(id)) && IdOf(PlainRecord(id)) == id && Lossless(PlainRecord(id), parse)
  {
    hide Lookup, LosslessFields;
    var fields := PlainRecord(id).fields;
    NoFields(parse);
    ConsField(fields[2], [], parse);
    ConsField(fields[1], [fields[2]], parse);
    ConsField(fields[0], [fields[1], fields[2]], parse);
    assert [fields[2]] + [] == [fields[2]] && [fields[1]] + [fields[2]] == [fields[1], fields[2]];
    assert [fields[0]] + [fields[1], fields[2]] == fields;
    EmptyLogIsLossless(parse);
  }

  lemma NoFields(parse: string -> Option<int>)
    ensures LosslessFields([], parse) && forall k :: Lookup([], k) == None
  {
  }

  /** A store whose only entry, a record or a log, sits under a given live key. */
  lemma StoreWith(prefix: string, key: string, parse: BigIntParser) returns (items: Items, contents: StoreState)
    requires Live(prefix, key)
    ensures Holds(items, prefix, contents, parse) && WellTyped(contents)
    ensures Shown(items, key, parse).Some?
  {
    hide RecordKey, EventLogKey, Encode, Decode, PlainRecord, Lossless;
    assert Holds(map[], prefix, EMPTY_STORE, parse);
    var id: Id :| key == RecordKey(prefix, id) || key == EventLogKey(prefix, id);
    if key == RecordKey(prefix, id) {
      var record := PlainRecord(id);
      PlainRecordIsOne(id, parse);
      PutHolds(map[], prefix, EMPTY_STORE, record, parse);
      PutWellTyped(EMPTY_STORE, record);
      items, contents := map[key := Text(Encode(record))], Put(EMPTY_STORE, record);
      assert map[][key := Text(Encode(record))] == items;
      assert Shown(items, RecordKey(prefix, id), parse) == Get(contents, id);
    } else {
      EmptyLogIsLossless(parse);
      LogHolds(map[], prefix, EMPTY_STORE, id, [], parse);
      items := map[key := Text(Encode(Arr([])))];
      contents := EMPTY_STORE.(logs := map[id := []]);
      assert map[][key := Text(Encode(Arr([])))] == items && map[][id := []] == contents.logs;
      assert Shown(items, EventLogKey(prefix, id), parse) == LogValue(contents, id);
    }
  }

  lemma EmptyLogIsLossless(parse: BigIntParser)
    ensures Lossless(Arr([]), parse)
  {
  }

  /** Opening a store leaves every well-typed store's contents as they were if and only if the list is harmless. */
  lemma CleaningKeepsContentsIff(prefix: string, legacies: seq<string>, parse: BigIntParser)
    ensures (forall items, contents | Holds(items, prefix, contents, parse) && WellTyped(contents) ::
               Holds(Cleaned(items, prefix, legacies), prefix, contents, parse))
        <==> Harmless(prefix, legacies)
  {
    hide Cleaned, Holds, WellTyped, Live, Endangers, Shown;
    if Harmless(prefix, legacies) {
      forall items, contents | Holds(items, prefix, contents, parse)
        ensures Holds(Cleaned(items, prefix, legacies), prefix, contents, parse)
      {
        CleaningKeepsContents(items, prefix, legacies, contents, parse);
      }
    } else {
      var l :| l in legacies && !Skipped(l, prefix) && Endangers(l, prefix);
      CleanupSparesIff(l, prefix);
      var key :| Live(prefix, key) && StartsWith(key, l + ":");
      var items, contents := StoreWith(prefix, key, parse);
      CleanedExactly(items, prefix, legacies, key);
      NothingShown(Cleaned(items, prefix, legacies), key, parse);
      HoldsShows(items, Cleaned(items, prefix, legacies), prefix, contents, key, parse);
    }
  }

  lemma NothingShown(items: Items, key: string, parse: string -> Option<int>)
    requires ItemAt(items, key) == None
    ensures Shown(items, key, parse) == None
  {
  }

  /** Two storages that hold the same contents show the same under every live key. */
  lemma HoldsShows(a: Items, b: Items, prefix: string, contents: StoreState, key: string, parse: BigIntParser)
    requires Live(prefix, key) && Holds(a, prefix, contents, parse)
    ensures Holds(b, prefix, contents, parse) ==> Shown(a, key, parse) == Shown(b, key, parse)
  {
    hide Shown, RecordKey, EventLogKey;
  }

  // ----- the store -----

  datatype SetupError = NoStorage | NoKeyPrefix

  /**
   Opens a store on a storage, once old namespaces are gone; `adopted` is what the caller takes the
   storage to hold, right or wrong. A missing storage or prefix is refused before anything is deleted.
   */
  method CreateLocalStorageStore(storage: LocalStorage?, keyPrefix: string, eventLogCapacity: nat,
                                 legacies: seq<string>, parse: BigIntParser, ghost adopted: StoreState)
    returns (r: Result<LocalStorageTrackerStore, SetupError>)
    requires storage != null ==> storage.Valid()
    modifies storage
    ensures storage == null ==> r == Err(NoStorage)
    ensures storage != null && keyPrefix == "" ==> r == Err(NoKeyPrefix) && storage.items == old(storage.items)
    ensures storage != null && keyPrefix != "" ==>
              && r.Ok? && fresh(r.value) && r.value.Valid()
              && storage.items == Cleaned(old(storage.items), keyPrefix, legacies)
              && r.value.storage == storage && r.value.keyPrefix == keyPrefix && r.value.parse == parse
              && r.value.eventLogCapacity == eventLogCapacity && r.value.contents == adopted
    ensures storage != null && keyPrefix != "" && Harmless(keyPrefix, legacies)
            && Holds(old(storage.items), keyPrefix, adopted, parse) && WellTyped(adopted)
            ==> r.value.Agrees()
  {
    hide Holds, WellTyped, Harmless;
    if storage == null {
      return Err(NoStorage);
    }
    if keyPrefix == "" {
      return Err(NoKeyPrefix);
    }
    for i := 0 to |legacies|
      invariant storage.Valid()
      invariant storage.items == Cleaned(old(storage.items), keyPrefix, legacies[..i])
    {
      assert legacies[..i + 1][..i] == legacies[..i];
      if Skipped(legacies[i], keyPrefix) {
        continue;
      }
      DeleteKeysStartingWith(storage, legacies[i] + ":");
    }
    assert legacies[..|legacies|] == legacies;
    if Harmless(keyPrefix, legacies) && Holds(old(storage.items), keyPrefix, adopted, parse) {
      CleaningKeepsContents(old(storage.items), keyPrefix, legacies, adopted, parse);
    }
    var store := new LocalStorageTrackerStore(storage, keyPrefix, eventLogCapacity, parse, adopted);
    r := Ok(store);
  }

  class LocalStorageTrackerStore {
    const storage: LocalStorage
    const keyPrefix: string
    const eventLogCapacity: nat
    const parse: BigIntParser
    ghost var contents: StoreState

    ghost predicate Valid()
      reads this, storage
    {
      storage.Valid()
    }

    /** The storage shows the contents, and these have the shapes the types promise. */
    ghost predicate Agrees()
      reads this, storage
    {
      Valid() && Holds(storage.items, keyPrefix, contents, parse) && WellTyped(contents)
    }

    constructor (storage: LocalStorage, keyPrefix: string, eventLogCapacity: nat, parse: BigIntParser,
                 ghost adopted: StoreState)
      requires storage.Valid()
      ensures Valid() && contents == adopted
      ensures this.storage == storage && this.keyPrefix == keyPrefix
      ensures this.eventLogCapacity == eventLogCapacity && this.parse == parse
    {
      this.storage, this.keyPrefix := storage, keyPrefix;
      this.eventLogCapacity, this.parse := eventLogCapacity, parse;
      contents := adopted;
    }

    /** Any record is written; one that the codec loses something of no longer reads back as it was. */
    method PutRecord(record: Value)
      requires Valid() && IsRecord(record)
      modifies this, storage
      ensures Valid()
      ensures storage.items == old(storage.items)[RecordKey(keyPrefix, IdOf(record)) := Text(Encode(record))]
      ensures Shown(storage.items, RecordKey(keyPrefix, IdOf(record)), parse) == Some(record)
          <==> Lossless(record, parse)
      ensures contents == Put(old(contents), record)
      ensures old(Agrees()) && Lossless(record, parse) ==> Agrees()
      ensures SameOutside(old(storage.items), storage.items, keyPrefix)
    {
      hide Holds, WellTyped, RecordKey, Encode, Decode, Owned, IsRecord, Lossless;
      ghost var id := IdOf(record);
      if Agrees() && Lossless(record, parse) {
        PutHolds(storage.items, keyPrefix, contents, record, parse);
        PutWellTyped(contents, record);
      }
      KeysAreOwned(keyPrefix, id);
      RecordIsNotNull(record);
      ShownIffLossless(storage.items, RecordKey(keyPrefix, id), record, parse);
      storage.SetItem(RecordKey(keyPrefix, IdOf(record)), Text(Encode(record)));
      contents := Put(contents, record);
    }

    method GetRecord(id: Id) returns (r: Option<Value>)
      requires Valid()
      ensures r == Shown(storage.items, RecordKey(keyPrefix, id), parse)
      ensures Agrees() ==> r == Get(contents, id)
    {
      hide RecordKey, EventLogKey, Decode;
      var raw := storage.GetItem(RecordKey(keyPrefix, id));
      r := ParseStored(raw, parse);
      assert r == Shown(storage.items, RecordKey(keyPrefix, id), parse);
    }

    method DeleteRecord(id: Id)
      requires Valid()
      modifies this, storage
      ensures Valid()
      ensures storage.items
           == old(storage.items) - {RecordKey(keyPrefix, id)} - {EventLogKey(keyPrefix, id)}
      ensures contents == Delete(old(contents), id)
      ensures old(Agrees()) ==> Agrees()
      ensures SameOutside(old(storage.items), storage.items, keyPrefix)
    {
      hide Holds, WellTyped, RecordKey, EventLogKey, Owned;
      if Agrees() {
        DeleteHolds(storage.items, keyPrefix, contents, id, parse);
        DeleteWellTyped(contents, id);
      }
      KeysAreOwned(keyPrefix, id);
      storage.RemoveItem(RecordKey(keyPrefix, id));
      storage.RemoveItem(EventLogKey(keyPrefix, id));
      contents := Delete(contents, id);
    }

    /** Keys are gathered first, then read one by one. */
    method ListDurable(chainId: nat) returns (r: Result<seq<Value>, Thrown>)
      requires Valid()
      ensures ListsEntries(storage.items, keyPrefix, chainId, parse, r)
      ensures Agrees() ==> ListsDurable(contents, chainId, r)
    {
      hide Decode, Judge, ChainPrefix, StartsWith, Holds, WellTyped, ListsDurable;
      var keys := MatchingKeys(storage, ChainPrefix(keyPrefix, chainId));
      var result := [];
      ghost var from := [];
      for i := 0 to |keys|
        invariant forall k | k in keys[..i] :: Entry(storage.items, keyPrefix, chainId, parse, k) != Throws
        invariant forall k :: k in from <==> k in keys[..i] && Entry(storage.items, keyPrefix, chainId, parse, k) == Yes
        invariant |from| == |result|
        invariant forall j | 0 <= j < |from| :: Shown(storage.items, from[j], parse) == Some(result[j])
        invariant forall a, b | 0 <= a < b < |from| :: from[a] != from[b]
      {
        var key := keys[i];
        assert keys[..i + 1] == keys[..i] + [key];
        assert key !in keys[..i];
        var raw := storage.GetItem(key);
        var parsed := ParseStored(raw, parse);
        assert parsed == Shown(storage.items, key, parse);
        if parsed.None? {
          continue;
        }
        match Judge(parsed.value, chainId)
        case Throws =>
          assert Entry(storage.items, keyPrefix, chainId, parse, key) == Throws;
          r := Err(Thrown);
          if Agrees() {
            EntriesAreRecords(storage.items, keyPrefix, contents, chainId, parse, r);
          }
          return;
        case No =>
        case Yes =>
          result := result + [parsed.value];
          from := from + [key];
      }
      assert keys[..|keys|] == keys;
      r := Ok(result);
      assert ListedFrom(storage.items, keyPrefix, chainId, parse, from, result);
      if Agrees() {
        EntriesAreRecords(storage.items, keyPrefix, contents, chainId, parse, r);
      }
    }

    /** An entry that is there but is no list makes the call throw, and nothing is written. */
    method Append(id: Id, event: Value) returns (ok: bool)
      requires Valid()
      modifies this, storage
      ensures Valid()
      ensures ok <==> ShownLog(old(storage.items), EventLogKey(keyPrefix, id), parse).Some?
      ensures ok ==>
                storage.items == old(storage.items)[EventLogKey(keyPrefix, id) := Text(Encode(Arr(
                  LastN(ShownLog(old(storage.items), EventLogKey(keyPrefix, id), parse).value + [event],
                        eventLogCapacity))))]
                && contents == AppendEvent(old(contents), id, event, eventLogCapacity)
      ensures !ok ==> storage.items == old(storage.items) && contents == old(contents)
      ensures old(Agrees()) ==> ok
      ensures old(Agrees()) && IsEvent(event) && Lossless(event, parse) ==> Agrees()
      ensures SameOutside(old(storage.items), storage.items, keyPrefix)
    {
      hide Holds, WellTyped, RecordKey, EventLogKey, Encode, Decode, Owned, Lossless, IsEvent;
      var key := EventLogKey(keyPrefix, id);
      var raw := storage.GetItem(key);
      var existing := ParseStored(raw, parse);
      if Agrees() {
        LogShown(storage.items, keyPrefix, contents, id, parse);
      }
      assert existing == Shown(storage.items, key, parse);
      if existing.Some? && !existing.value.Arr? {
        return false;
      }
      var log := if existing.Some? then existing.value.items else [];
      var trimmed := Grow(log, event, eventLogCapacity);
      if Agrees() && IsEvent(event) && Lossless(event, parse) {
        AppendHolds(storage.items, keyPrefix, contents, id, event, eventLogCapacity, parse);
        AppendWellTyped(contents, id, event, eventLogCapacity);
      }
      KeysAreOwned(keyPrefix, id);
      storage.SetItem(key, Text(Encode(Arr(trimmed))));
      contents := AppendEvent(contents, id, event, eventLogCapacity);
      ok := true;
    }

    method ReadEventLog(id: Id, since: Option<int>) returns (r: Result<Value, Thrown>)
      requires Valid()
      ensures r == LogOutcome(Shown(storage.items, EventLogKey(keyPrefix, id), parse), since, parse)
      ensures Agrees() ==> r == Ok(Arr(Since(LogOf(contents, id), since)))
    {
      hide RecordKey, EventLogKey, Decode, IsEvent, Look, Holds, WellTyped;
      var raw := storage.GetItem(EventLogKey(keyPrefix, id));
      var parsed := ParseStored(raw, parse);
      assert parsed == Shown(storage.items, EventLogKey(keyPrefix, id), parse);
      var events := parsed.GetOr(Arr([]));
      if since.None? {
        r := Ok(events);
      } else if !events.Arr? {
        r := Err(Thrown);
      } else {
        r := FilterEntries(events.items, since.value, parse);
      }
      if Agrees() {
        LogShown(storage.items, keyPrefix, contents, id, parse);
        TypedLog(contents, id);
        TypedOutcome(LogOf(contents, id), since, parse);
      }
    }
  }

  /** The list an entry reads as; an absent one reads as an empty list. */
  function ShownLog(items: Items, key: string, parse: string -> Option<int>): Option<seq<Value>> {
    match Shown(items, key, parse)
    case None => Some([])
    case Some(Arr(log)) => Some(log)
    case _ => None
  }

  // ----- listing whatever is stored -----

  /** What a listing makes of the entry under a key. */
  function Entry(items: Items, prefix: string, chainId: nat, parse: string -> Option<int>, key: string): Verdict {
    if !StartsWith(key, ChainPrefix(prefix, chainId)) then No
    else
      match Shown(items, key, parse)
      case None => No
      case Some(v) => Judge(v, chainId)
  }

  /** Each listed value is what is read under a key of its own, and no key is left out. */
  ghost predicate ListedFrom(
      items: Items, prefix: string, chainId: nat, parse: string -> Option<int>, from: seq<string>, listed: seq<Value>)
  {
    && |from| == |listed|
    && (forall k :: k in from <==> Entry(items, prefix, chainId, parse, k) == Yes)
    && (forall a, b | 0 <= a < b < |from| :: from[a] != from[b])
    && (forall i | 0 <= i < |from| :: Shown(items, from[i], parse) == Some(listed[i]))
  }

  ghost predicate ListsEntries(
      items: Items, prefix: string, chainId: nat, parse: string -> Option<int>, r: Result<seq<Value>, Thrown>)
  {
    && (r.Err? <==> exists k :: Entry(items, prefix, chainId, parse, k) == Throws)
    && (r.Ok? ==> exists from :: ListedFrom(items, prefix, chainId, parse, from, r.value))
  }

  /** A record is judged under its own key, and nothing else is judged at all. */
  lemma EntryOf(items: Items, prefix: string, contents: StoreState, chainId: nat, parse: BigIntParser, id: Id)
    requires Holds(items, prefix, contents, parse) && WellTyped(contents)
    ensures id in contents.records ==>
              Entry(items, prefix, chainId, parse, RecordKey(prefix, id)) == Judge(contents.records[id], chainId)
    ensures id !in contents.records ==> Entry(items, prefix, chainId, parse, RecordKey(prefix, id)) == No
  {
    hide RecordKey, EventLogKey, Decode, ChainPrefix, StartsWith, DurableIn;
    assert Shown(items, RecordKey(prefix, id), parse) == Get(contents, id);
    ChainPrefixIsRecord(prefix, chainId, RecordKey(prefix, id));
    OnlyIdOf(prefix, id);
    if id.0 == chainId {
      assert id == (chainId, id.1);
    } else if id in contents.records {
      assert Lookup(contents.records[id].fields, "chainId") == Some(Number(id.0));
    }
  }

  lemma EntryIsRecord(
      items: Items, prefix: string, contents: StoreState, chainId: nat, parse: BigIntParser, key: string)
    returns (id: Id)
    requires Holds(items, prefix, contents, parse) && WellTyped(contents)
    requires Entry(items, prefix, chainId, parse, key) != No
    ensures id in contents.records && key == RecordKey(prefix, id)
    ensures Entry(items, prefix, chainId, parse, key) == Judge(contents.records[id], chainId)
    ensures Shown(items, key, parse) == Some(contents.records[id])
  {
    hide RecordKey, EventLogKey, Decode, Judge, WellTyped;
    id := IdOfChainKey(prefix, chainId, key);
    EntryOf(items, prefix, contents, chainId, parse, id);
    assert Shown(items, RecordKey(prefix, id), parse) == Get(contents, id);
  }

  /** What agrees with its contents lists them. */
  lemma EntriesAreRecords(
      items: Items, prefix: string, contents: StoreState, chainId: nat, parse: BigIntParser,
      r: Result<seq<Value>, Thrown>)
    requires Holds(items, prefix, contents, parse) && WellTyped(contents)
    requires ListsEntries(items, prefix, chainId, parse, r)
    ensures ListsDurable(contents, chainId, r)
  {
    hide Holds, RecordKey, Entry, Judge, Shown, IsRecord, IdOf, ListedFrom;
    if r.Err? {
      var k :| Entry(items, prefix, chainId, parse, k) == Throws;
      var id := EntryIsRecord(items, prefix, contents, chainId, parse, k);
    } else {
      var from :| ListedFrom(items, prefix, chainId, parse, from, r.value);
      forall id | id in contents.records
        ensures Judge(contents.records[id], chainId) != Throws
      {
        EntryOf(items, prefix, contents, chainId, parse, id);
      }
      ListedAreRecords(items, prefix, contents, chainId, parse, from, r.value);
    }
  }

  lemma ListedAreRecords(
      items: Items, prefix: string, contents: StoreState, chainId: nat, parse: BigIntParser,
      from: seq<string>, listed: seq<Value>)
    requires Holds(items, prefix, contents, parse) && WellTyped(contents)
    requires ListedFrom(items, prefix, chainId, parse, from, listed)
    ensures forall v :: v in listed <==> exists id :: IsDurableOf(contents, chainId, id) && contents.records[id] == v
    ensures forall i, j | 0 <= i < j < |listed| :: listed[i] != listed[j]
  {
    hide Holds, RecordKey, Entry, Judge, Shown, IsRecord, IdOf;
    forall v
      ensures v in listed <==> exists id :: IsDurableOf(contents, chainId, id) && contents.records[id] == v
    {
      if v in listed {
        var i :| 0 <= i < |listed| && listed[i] == v;
        assert from[i] in from;
        var id := EntryIsRecord(items, prefix, contents, chainId, parse, from[i]);
      }
      if id :| IsDurableOf(contents, chainId, id) && contents.records[id] == v {
        EntryOf(items, prefix, contents, chainId, parse, id);
        var i :| 0 <= i < |from| && from[i] == RecordKey(prefix, id);
        assert RecordKey(prefix, id) in from;
        var same := EntryIsRecord(items, prefix, contents, chainId, parse, from[i]);
        OnlyIdOf(prefix, id);
        assert listed[i] == v;
      }
    }
    forall i, j | 0 <= i < j < |listed|
      ensures listed[i] != listed[j]
    {
      assert from[i] in from && from[j] in from;
      var a := EntryIsRecord(items, prefix, contents, chainId, parse, from[i]);
      var b := EntryIsRecord(items, prefix, contents, chainId, parse, from[j]);
      assert IdOf(contents.records[a]) == a && IdOf(contents.records[b]) == b;
    }
  }

  // ----- reading whatever log is stored -----

  /** `blockNumber >= since` on a value of any kind; lists and objects are taken not to compare. */
  predicate AtLeast(v: Value, since: int, parse: string -> Option<int>) {
    match v
    case Big(n) => n >= since
    case Number(n) => n >= since
    case Bool(b) => (if b then 1 else 0) >= since
    case Null => 0 >= since
    case Str(t) => parse(t).Some? && parse(t).value >= since
    case _ => false
  }

  /** `e.at.blockNumber >= since` on an entry of any kind; texts and lists have an `at` of their own. */
  function Look(e: Value, since: int, parse: string -> Option<int>): Verdict {
    match e
    case Str(_) => No
    case Arr(_) => No
    case Obj(fields) =>
      (match Lookup(fields, "at")
       case None => Throws
       case Some(Null) => Throws
       case Some(Obj(at)) =>
         var n := Lookup(at, "blockNumber");
         if n.Some? && AtLeast(n.value, since, parse) then Yes else No
       case Some(_) => No)
    case _ => Throws
  }

  /** The entries that pass, in order, unless one makes the test throw. */
  function Filtered(entries: seq<Value>, since: int, parse: string -> Option<int>): Result<seq<Value>, Thrown> {
    if entries == [] then Ok([])
    else
      var rest, last := Filtered(entries[..|entries| - 1], since, parse), entries[|entries| - 1];
      match rest
      case Err(_) => Err(Thrown)
      case Ok(kept) =>
        match Look(last, since, parse)
        case Throws => Err(Thrown)
        case Yes => Ok(kept + [last])
        case No => Ok(kept)
  }

  function LogOutcome(
      shown: Option<Value>, since: Option<int>, parse: string -> Option<int>): Result<Value, Thrown>
  {
    var events := shown.GetOr(Arr([]));
    if since.None? then Ok(events)
    else if !events.Arr? then Err(Thrown)
    else
      match Filtered(events.items, since.value, parse)
      case Ok(kept) => Ok(Arr(kept))
      case Err(_) => Err(Thrown)
  }

  lemma {:induction false} FilteredFails(entries: seq<Value>, since: int, parse: string -> Option<int>, i: nat)
    requires i <= |entries| && Filtered(entries[..i], since, parse).Err?
    ensures Filtered(entries, since, parse).Err?
  {
    if i == |entries| {
      assert entries[..i] == entries;
    } else {
      var init := entries[..|entries| - 1];
      assert init[..i] == entries[..i];
      FilteredFails(init, since, parse, i);
    }
  }

  method FilterEntries(entries: seq<Value>, since: int, parse: string -> Option<int>)
    returns (r: Result<Value, Thrown>)
    ensures r == LogOutcome(Some(Arr(entries)), Some(since), parse)
  {
    hide Look;
    var kept := [];
    for i := 0 to |entries|
      invariant Filtered(entries[..i], since, parse) == Ok(kept)
    {
      assert entries[..i + 1][..i] == entries[..i];
      match Look(entries[i], since, parse)
      case Throws =>
        FilteredFails(entries, since, parse, i + 1);
        return Err(Thrown);
      case No =>
      case Yes =>
        kept := kept + [entries[i]];
    }
    assert entries[..|entries|] == entries;
    r := Ok(Arr(kept));
  }

  lemma TypedLog(contents: StoreState, id: Id)
    requires WellTyped(contents)
    ensures forall e | e in LogOf(contents, id) :: IsEvent(e)
  {
  }

  lemma LookAtEvent(e: Value, since: int, parse: string -> Option<int>)
    requires IsEvent(e)
    ensures Look(e, since, parse) == if EventBlock(e).value >= since then Yes else No
  {
  }

  /** On a log of events nothing throws, and what passes is what the in-memory store returns. */
  lemma {:induction false} TypedFiltered(log: seq<Value>, since: int, parse: string -> Option<int>)
    requires forall e | e in log :: IsEvent(e)
    ensures Filtered(log, since, parse) == Ok(Since(log, Some(since)))
  {
    hide Look, IsEvent, EventBlock;
    if log == [] {
    } else {
      TypedFiltered(log[..|log| - 1], since, parse);
      assert IsEvent(log[|log| - 1]);
      LookAtEvent(log[|log| - 1], since, parse);
    }
  }

  lemma TypedOutcome(log: seq<Value>, since: Option<int>, parse: string -> Option<int>)
    requires forall e | e in log :: IsEvent(e)
    ensures LogOutcome(Some(Arr(log)), since, parse) == Ok(Arr(Since(log, since)))
    ensures log == [] ==> LogOutcome(None, since, parse) == Ok(Arr(Since(log, since)))
  {
    if since.Some? {
      TypedFiltered(log, since.value, parse);
    } else {
      SinceNone(log);
    }
  }

  lemma SinceNone(log: seq<Value>)
    ensures Since(log, None) == log
  {
  }

  lemma RecordIsNotNull(v: Value)
    requires IsRecord(v)
    ensures !v.Null?
  {
  }

  ghost function IdOfChainKey(prefix: string, chainId: nat, key: string): (id: Id)
    requires StartsWith(key, ChainPrefix(prefix, chainId))
    ensures RecordKey(prefix, id) == key && id.0 == chainId
  {
    ChainPrefixIsRecord(prefix, chainId, key);
    var hash :| key == RecordKey(prefix, (chainId, hash));
    (chainId, hash)
  }

  lemma OnlyIdOf(prefix: string, id: Id)
    ensures forall i: Id :: RecordKey(prefix, i) == RecordKey(prefix, id) ==> i == id
  {
    forall i: Id | RecordKey(prefix, i) == RecordKey(prefix, id)
      ensures i == id
    {
      RecordKeyInjective(prefix, i, id);
    }
  }

  // ----- the two stores agree -----

  predicate Admissible(call: Call, parse: string -> Option<int>) {
    match call
    case PutCall(r) => IsRecord(r) && Lossless(r, parse)
    case AppendCall(_, e) => IsEvent(e) && Lossless(e, parse)
    case _ => true
  }

  /** One call on both stores gives one answer, and leaves them holding the same contents. */
  method CallBoth(memory: InMemoryStore, local: LocalStorageTrackerStore, call: Call)
    returns (a: Answer, b: Answer)
    requires memory.Valid() && local.Agrees() && memory.contents == local.contents
    requires memory.eventLogCapacity == local.eventLogCapacity
    requires Admissible(call, local.parse)
    modifies memory, local, local.storage
    ensures memory.Valid() && local.Agrees() && memory.contents == local.contents
    ensures Typed(call) && local.contents == Apply(old(local.contents), call, local.eventLogCapacity)
    ensures a == b && AnswerFits(old(local.contents), call, a)
    ensures SameOutside(old(local.storage.items), local.storage.items, local.keyPrefix)
  {
    hide Holds, Mirrors, WellTyped, Owned, IsRecord, IsEvent, Lossless;
    match call
    case PutCall(r) =>
      memory.PutRecord(r);
      local.PutRecord(r);
      return Done, Done;
    case GetCall(id) =>
      var x := memory.GetRecord(id);
      var y := local.GetRecord(id);
      return Found(x), Found(y);
    case DeleteCall(id) =>
      memory.DeleteRecord(id);
      local.DeleteRecord(id);
      return Done, Done;
    case ListCall(chainId) =>
      var x := memory.ListDurable(chainId);
      var y := local.ListDurable(chainId);
      if x.Err? || y.Err? {
        return Failed, Failed;
      }
      SameListing(memory.contents, chainId, x.value, y.value);
      return Listed(set v | v in x.value), Listed(set v | v in y.value);
    case AppendCall(id, e) =>
      memory.Append(id, e);
      var ok := local.Append(id, e);
      return Done, Done;
    case ReadCall(id, since) =>
      var x := memory.ReadEventLog(id, since);
      var y := local.ReadEventLog(id, since);
      return Log(x), if y.Ok? && y.value.Arr? then Log(y.value.items) else Failed;
  }

  lemma SameListing(contents: StoreState, chainId: nat, x: seq<Value>, y: seq<Value>)
    requires ListsDurable(contents, chainId, Ok(x)) && ListsDurable(contents, chainId, Ok(y))
    ensures |x| == |y| && (set v | v in x) == (set v | v in y)
  {
    assert (set v | v in x) == (set v | v in y);
    SizeOfDistinct(x);
    SizeOfDistinct(y);
  }

  lemma {:induction false} SizeOfDistinct(s: seq<Value>)
    requires forall i, j | 0 <= i < j < |s| :: s[i] != s[j]
    ensures |set v | v in s| == |s|
  {
    if s == [] {
    } else {
      SizeOfDistinct(s[1..]);
      assert (set v | v in s) == (set v | v in s[1..]) + {s[0]};
    }
  }

  lemma AdmissibleTyped(calls: seq<Call>, parse: string -> Option<int>)
    requires forall c | c in calls :: Admissible(c, parse)
    ensures AllTyped(calls)
  {
    forall k | 0 <= k < |calls|
      ensures Typed(calls[k])
    {
      assert Admissible(calls[k], parse);
    }
  }

  /** `a` is what the contents after the first `i` calls call for. */
  ghost predicate AnswerAt(start: StoreState, calls: seq<Call>, capacity: nat, i: nat, a: Answer)
    requires AllTyped(calls) && i < |calls|
  {
    var s := RunCalls(start, calls[..i], capacity);
    WellTyped(s) && AnswerFits(s, calls[i], a)
  }

  /** Every sequence of calls gets the same answers from both stores and disturbs no other namespace. */
  method RunBoth(memory: InMemoryStore, local: LocalStorageTrackerStore, calls: seq<Call>)
    returns (a: seq<Answer>, b: seq<Answer>)
    requires memory.Valid() && local.Agrees() && memory.contents == local.contents
    requires memory.eventLogCapacity == local.eventLogCapacity
    requires forall c | c in calls :: Admissible(c, local.parse)
    modifies memory, local, local.storage
    ensures memory.Valid() && local.Agrees() && memory.contents == local.contents
    ensures AllTyped(calls)
    ensures local.contents == RunCalls(old(local.contents), calls, local.eventLogCapacity)
    ensures |a| == |calls| && a == b
    ensures forall i | 0 <= i < |calls| ::
              AnswerAt(old(local.contents), calls, local.eventLogCapacity, i, a[i])
    ensures SameOutside(old(local.storage.items), local.storage.items, local.keyPrefix)
  {
    hide Holds, Mirrors, WellTyped, Owned, Admissible, Typed, Apply, AnswerFits;
    assert AllTyped(calls) by {
      AdmissibleTyped(calls, local.parse);
    }
    a, b := [], [];
    for i := 0 to |calls|
      invariant memory.Valid() && local.Agrees() && memory.contents == local.contents
      invariant |a| == i && a == b && AllTyped(calls)
      invariant local.contents == RunCalls(old(local.contents), calls[..i], local.eventLogCapacity)
      invariant forall j | 0 <= j < i ::
                  AnswerAt(old(local.contents), calls, local.eventLogCapacity, j, a[j])
      invariant SameOutside(old(local.storage.items), local.storage.items, local.keyPrefix)
    {
      assert calls[..i + 1][..i] == calls[..i];
      var x, y := CallBoth(memory, local, calls[i]);
      a, b := a + [x], b + [y];
    }
    assert calls[..|calls|] == calls;
  }

  // ----- reads and listings, spelled out -----

  /** Absent, malformed and `null` entries read as nothing, all others as what the codec makes of them. */
  lemma ShownSpelled(items: Items, key: string, parse: string -> Option<int>)
    ensures forall v :: Shown(items, key, parse) == Some(v) <==>
              v != Null && key in items && items[key].Text? && Decode(items[key].json, parse) == v
  {
    hide Decode;
  }

  /** Which calls both stores are asked: typed ones that the codec loses nothing of. */
  lemma AdmissibleSpelled(call: Call, parse: string -> Option<int>)
    ensures Admissible(call, parse) <==>
            && (call.PutCall? ==> IsRecord(call.record) && Lossless(call.record, parse))
            && (call.AppendCall? ==> IsEvent(call.event) && Lossless(call.event, parse))
  {
    hide IsRecord, IsEvent, Lossless;
  }

  /** What a comparison with a block number makes of a stored value. */
  lemma AtLeastSpelled(v: Value, since: int, parse: string -> Option<int>)
    ensures AtLeast(v, since, parse) <==>
            || (v.Big? && v.big >= since) || (v.Number? && v.n >= since)
            || (v == Bool(true) && 1 >= since) || (v == Null && 0 >= since) || (v == Bool(false) && 0 >= since)
            || (v.Str? && parse(v.s).Some? && parse(v.s).value >= since)
  {
  }

  /** Which stored entries pass the block test, which fail it and which make it throw. */
  lemma LookSpelled(e: Value, since: int, parse: string -> Option<int>)
    ensures Look(e, since, parse) == Throws <==>
            || e.Null? || e.Bool? || e.Number? || e.Big?
            || (e.Obj? && (Lookup(e.fields, "at") == None || Lookup(e.fields, "at") == Some(Null)))
    ensures Look(e, since, parse) == Yes <==>
            && e.Obj? && Lookup(e.fields, "at").Some? && Lookup(e.fields, "at").value.Obj?
            && var n := Lookup(Lookup(e.fields, "at").value.fields, "blockNumber");
               n.Some? && AtLeast(n.value, since, parse)
  {
    hide Lookup, AtLeast;
    if e.Obj? {
      assert Lookup(e.fields, "at").Some? && Lookup(e.fields, "at").value.Null? ==> Look(e, since, parse) == Throws;
    }
  }

  /** A read since a block throws exactly when some entry does, and otherwise keeps what passes, in order. */
  lemma {:induction false} FilteredSpelled(entries: seq<Value>, since: int, parse: string -> Option<int>)
    returns (at: seq<nat>)
    ensures Filtered(entries, since, parse).Err? <==> exists e :: e in entries && Look(e, since, parse) == Throws
    ensures Filtered(entries, since, parse).Ok? ==>
              && IsPartAt(entries, Filtered(entries, since, parse).value, at)
              && forall k :: k in at <==> 0 <= k < |entries| && Look(entries[k], since, parse) == Yes
  {
    hide Look, IsPartAt;
    if entries == [] {
      at := [];
      NoPart();
    } else {
      var n := |entries| - 1;
      at := FilteredSpelled(entries[..n], since, parse);
      var rest := Filtered(entries[..n], since, parse);
      assert entries == entries[..n] + [entries[n]];
      if rest.Ok? {
        PartSnoc(entries[..n], entries[n], rest.value, at);
        if Look(entries[n], since, parse) == Yes {
          at := at + [n];
        }
      }
    }
  }
}
