/** What a tracker store promises, and the in-memory store that keeps it with two maps. */
module Store {
  import opened Wrappers
  import opened Sequences
  import opened Json
  import opened StoreKeys

  datatype StoreState = StoreState(records: map<Id, Value>, logs: map<Id, seq<Value>>)

  const EMPTY_STORE: StoreState := StoreState(map[], map[])

  // ----- the shapes the types promise -----

  predicate IsRecord(v: Value) {
    && v.Obj?
    && (match Lookup(v.fields, "chainId") case Some(Number(n)) => n >= 0 case _ => false)
    && (match Lookup(v.fields, "hash") case Some(Str(_)) => true case _ => false)
    && (match Lookup(v.fields, "subscriptions") case Some(Arr(_)) => true case _ => false)
  }

  function IdOf(v: Value): Id
    requires IsRecord(v)
  {
    (Lookup(v.fields, "chainId").value.n, Lookup(v.fields, "hash").value.s)
  }

  // ----- durability, as the source tests it on whatever it finds -----

  datatype Verdict = Yes | No | Throws

  datatype Thrown = Thrown

  predicate Truthy(v: Value) {
    match v
    case Null => false
    case Bool(b) => b
    case Number(n) => n != 0
    case Str(t) => t != []
    case Big(n) => n != 0
    case _ => true
  }

  /** Is some subscription durable? The search stops at the first that is, and trips over a `null`. */
  function DurableIn(subs: seq<Value>): Verdict {
    if subs == [] then No
    else
      match subs[0]
      case Null => Throws
      case Obj(fields) =>
        if Lookup(fields, "durable").Some? && Truthy(Lookup(fields, "durable").value) then Yes
        else DurableIn(subs[1..])
      case _ => DurableIn(subs[1..])
  }

  /** Does an entry belong on the chain's list of durable records? */
  function Judge(v: Value, chainId: nat): Verdict {
    if !Truthy(v) || !v.Obj? || Lookup(v.fields, "chainId") != Some(Number(chainId)) then No
    else
      match Lookup(v.fields, "subscriptions")
      case Some(Arr(subs)) => DurableIn(subs)
      case _ => Throws
  }

  function EventBlock(e: Value): Option<int> {
    if !e.Obj? then None
    else
      match Lookup(e.fields, "at")
      case Some(Obj(at)) => (match Lookup(at, "blockNumber") case Some(Big(n)) => Some(n) case _ => None)
      case _ => None
  }

  predicate IsEvent(e: Value) {
    EventBlock(e).Some?
  }

  // ----- the operations, on contents -----

  function LogOf(s: StoreState, id: Id): seq<Value> {
    if id in s.logs then s.logs[id] else []
  }

  function Put(s: StoreState, record: Value): StoreState
    requires IsRecord(record)
  {
    s.(records := s.records[IdOf(record) := record])
  }

  function Get(s: StoreState, id: Id): Option<Value> {
    if id in s.records then Some(s.records[id]) else None
  }

  function Delete(s: StoreState, id: Id): StoreState {
    StoreState(s.records - {id}, s.logs - {id})
  }

  function AppendEvent(s: StoreState, id: Id, event: Value, capacity: nat): StoreState {
    s.(logs := s.logs[id := LastN(LogOf(s, id) + [event], capacity)])
  }

  function Since(log: seq<Value>, since: Option<int>): seq<Value> {
    if log == [] || since.None? then log
    else
      var rest, last := Since(log[..|log| - 1], since), log[|log| - 1];
      if IsEvent(last) && EventBlock(last).value >= since.value then rest + [last] else rest
  }

  predicate IsDurableOf(s: StoreState, chainId: nat, id: Id) {
    id in s.records && Judge(s.records[id], chainId) == Yes
  }

  ghost predicate ThrowsOn(s: StoreState, chainId: nat) {
    exists id :: id in s.records && Judge(s.records[id], chainId) == Throws
  }

  ghost predicate WellTyped(s: StoreState) {
    && (forall id | id in s.records :: IsRecord(s.records[id]) && IdOf(s.records[id]) == id)
    && (forall id | id in s.logs :: forall e | e in s.logs[id] :: IsEvent(e))
  }

  /** The list holds each durable record of the chain once, in any order, unless some record made the search throw. */
  ghost predicate ListsDurable(s: StoreState, chainId: nat, r: Result<seq<Value>, Thrown>) {
    && (r.Err? <==> ThrowsOn(s, chainId))
    && (r.Ok? ==>
          && (forall v :: v in r.value <==> exists id :: IsDurableOf(s, chainId, id) && s.records[id] == v)
          && (forall i, j | 0 <= i < j < |r.value| :: r.value[i] != r.value[j]))
  }

  lemma PutWellTyped(s: StoreState, record: Value)
    requires WellTyped(s) && IsRecord(record)
    ensures WellTyped(Put(s, record))
  {
  }

  lemma DeleteWellTyped(s: StoreState, id: Id)
    requires WellTyped(s)
    ensures WellTyped(Delete(s, id))
  {
  }

  lemma AppendWellTyped(s: StoreState, id: Id, event: Value, capacity: nat)
    requires WellTyped(s) && IsEvent(event)
    ensures WellTyped(AppendEvent(s, id, event, capacity))
  {
    var log := LogOf(s, id) + [event];
    assert forall e | e in log :: IsEvent(e);
    assert forall e | e in LastN(log, capacity) :: e in log;
  }

  // ----- whole runs -----

  datatype Call =
    | PutCall(record: Value)
    | GetCall(id: Id)
    | DeleteCall(id: Id)
    | ListCall(chainId: nat)
    | AppendCall(id: Id, event: Value)
    | ReadCall(id: Id, since: Option<int>)

  datatype Answer =
    | Done
    | Found(record: Option<Value>)
    | Listed(records: set<Value>)
    | Log(events: seq<Value>)
    | Failed

  predicate Typed(call: Call) {
    match call
    case PutCall(r) => IsRecord(r)
    case AppendCall(_, e) => IsEvent(e)
    case _ => true
  }

  function Apply(s: StoreState, call: Call, capacity: nat): StoreState
    requires Typed(call)
  {
    match call
    case PutCall(r) => Put(s, r)
    case DeleteCall(id) => Delete(s, id)
    case AppendCall(id, e) => AppendEvent(s, id, e, capacity)
    case _ => s
  }

  /** The answer the contents call for; a listing is judged as a set. */
  ghost predicate AnswerFits(s: StoreState, call: Call, a: Answer)
  {
    match call
    case GetCall(id) => a == Found(Get(s, id))
    case ListCall(chainId) =>
      if ThrowsOn(s, chainId) then a == Failed
      else a.Listed? && forall v :: v in a.records <==> exists id :: IsDurableOf(s, chainId, id) && s.records[id] == v
    case ReadCall(id, since) => a == Log(Since(LogOf(s, id), since))
    case _ => a == Done
  }

  predicate AllTyped(calls: seq<Call>) {
    forall k | 0 <= k < |calls| :: Typed(calls[k])
  }

  function RunCalls(s: StoreState, calls: seq<Call>, capacity: nat): StoreState
    requires AllTyped(calls)
  {
    if calls == [] then s
    else Apply(RunCalls(s, calls[..|calls| - 1], capacity), calls[|calls| - 1], capacity)
  }

  /** Every event appended under `id` since it was last deleted. */
  function AppendedSinceDelete(calls: seq<Call>, id: Id): seq<Value> {
    if calls == [] then []
    else
      var before := AppendedSinceDelete(calls[..|calls| - 1], id);
      match calls[|calls| - 1]
      case DeleteCall(i) => if i == id then [] else before
      case AppendCall(i, e) => if i == id then before + [e] else before
      case _ => before
  }

  lemma LastNOfNone<T>(n: nat)
    ensures LastN<T>([], n) == []
  {
  }

  lemma LastNOfLastN<T>(s: seq<T>, x: T, n: nat)
    ensures LastN(LastN(s, n) + [x], n) == LastN(s + [x], n)
  {
    if |s| > n {
      assert s[|s| - n..] + [x] == (s + [x])[|s| - n..];
    }
  }

  /** In every run a log is the last `capacity` events appended since the last delete, in order. */
  lemma {:induction false} LogIsWindow(calls: seq<Call>, capacity: nat, id: Id)
    requires AllTyped(calls)
    ensures LogOf(RunCalls(EMPTY_STORE, calls, capacity), id) == LastN(AppendedSinceDelete(calls, id), capacity)
  {
    hide Typed, LastN;
    LastNOfNone<Value>(capacity);
    if calls == [] {
    } else {
      var before := calls[..|calls| - 1];
      LogIsWindow(before, capacity, id);
      match calls[|calls| - 1]
      case AppendCall(i, e) =>
        if i == id {
          LastNOfLastN(AppendedSinceDelete(before, id), e, capacity);
        }
      case _ =>
    }
  }

  // ----- the in-memory store -----

  /** The maps hold the contents under their keys and nothing else. */
  ghost predicate Mirrors<T>(m: map<string, T>, contents: map<Id, T>) {
    && (forall id :: id in contents <==> MemoryKey(id) in m)
    && (forall id | id in contents :: m[MemoryKey(id)] == contents[id])
    && (forall k | k in m :: exists id :: id in contents && MemoryKey(id) == k)
  }

  lemma MirrorPut<T>(m: map<string, T>, contents: map<Id, T>, id: Id, v: T)
    requires Mirrors(m, contents)
    ensures Mirrors(m[MemoryKey(id) := v], contents[id := v])
  {
    hide MemoryKey;
    var m', c' := m[MemoryKey(id) := v], contents[id := v];
    forall i: Id
      ensures i in c' <==> MemoryKey(i) in m'
      ensures i in c' ==> m'[MemoryKey(i)] == c'[i]
    {
      if MemoryKey(i) == MemoryKey(id) {
        MemoryKeyInjective(i, id);
      }
    }
    forall k | k in m'
      ensures exists i :: i in c' && MemoryKey(i) == k
    {
      if k == MemoryKey(id) {
        assert id in c';
      } else {
        var i :| i in contents && MemoryKey(i) == k;
        assert i in c';
      }
    }
  }

  lemma MirrorDelete<T>(m: map<string, T>, contents: map<Id, T>, id: Id)
    requires Mirrors(m, contents)
    ensures Mirrors(m - {MemoryKey(id)}, contents - {id})
  {
    hide MemoryKey;
    var m', c' := m - {MemoryKey(id)}, contents - {id};
    forall i: Id
      ensures i in c' <==> MemoryKey(i) in m'
    {
      if MemoryKey(i) == MemoryKey(id) {
        MemoryKeyInjective(i, id);
      }
    }
    forall k | k in m'
      ensures exists i :: i in c' && MemoryKey(i) == k
    {
      var i :| i in contents && MemoryKey(i) == k;
      assert i in c';
    }
  }

  lemma MirrorLog(logs: map<string, seq<Value>>, contents: StoreState, id: Id)
    requires Mirrors(logs, contents.logs)
    ensures LogOf(contents, id) == if MemoryKey(id) in logs then logs[MemoryKey(id)] else []
  {
    hide MemoryKey;
  }

  /** Push, then drop the oldest entries past the capacity. */
  method Grow(log: seq<Value>, event: Value, capacity: nat) returns (grown: seq<Value>)
    ensures grown == LastN(log + [event], capacity)
  {
    grown := log + [event];
    if |grown| > capacity {
      grown := grown[|grown| - capacity..];
    }
  }

  class InMemoryStore {
    const eventLogCapacity: nat
    var records: map<string, Value>
    var eventLogs: map<string, seq<Value>>
    ghost var contents: StoreState

    ghost predicate Valid()
      reads this
    {
      && Mirrors(records, contents.records)
      && Mirrors(eventLogs, contents.logs)
      && WellTyped(contents)
    }

    constructor (eventLogCapacity: nat)
      ensures Valid() && contents == EMPTY_STORE && this.eventLogCapacity == eventLogCapacity
    {
      this.eventLogCapacity := eventLogCapacity;
      records, eventLogs := map[], map[];
      contents := EMPTY_STORE;
    }

    method PutRecord(record: Value)
      requires Valid() && IsRecord(record)
      modifies this
      ensures Valid() && contents == Put(old(contents), record)
    {
      hide Mirrors, MemoryKey, WellTyped;
      MirrorPut(records, contents.records, IdOf(record), record);
      PutWellTyped(contents, record);
      records := records[MemoryKey(IdOf(record)) := record];
      contents := Put(contents, record);
    }

    method GetRecord(id: Id) returns (r: Option<Value>)
      requires Valid()
      ensures r == Get(contents, id)
    {
      hide MemoryKey;
      r := if MemoryKey(id) in records then Some(records[MemoryKey(id)]) else None;
    }

    method DeleteRecord(id: Id)
      requires Valid()
      modifies this
      ensures Valid() && contents == Delete(old(contents), id)
    {
      hide Mirrors, MemoryKey, WellTyped;
      var key := MemoryKey(id);
      MirrorDelete(records, contents.records, id);
      MirrorDelete(eventLogs, contents.logs, id);
      DeleteWellTyped(contents, id);
      records := records - {key};
      eventLogs := eventLogs - {key};
      contents := Delete(contents, id);
    }

    method ListDurable(chainId: nat) returns (r: Result<seq<Value>, Thrown>)
      requires Valid()
      ensures ListsDurable(contents, chainId, r)
    {
      hide MemoryKey, IsRecord, Judge, IdOf, WellTyped;
      var result := [];
      ghost var ids := [];
      var pending := records.Keys;
      while pending != {}
        invariant pending <= records.Keys
        invariant forall id: Id | id in contents.records && MemoryKey(id) !in pending ::
                    Judge(contents.records[id], chainId) != Throws
        invariant forall id: Id :: id in ids <==> IsDurableOf(contents, chainId, id) && MemoryKey(id) !in pending
        invariant |ids| == |result|
        invariant forall i | 0 <= i < |ids| :: ids[i] in contents.records && result[i] == contents.records[ids[i]]
        invariant forall i, j | 0 <= i < j < |ids| :: ids[i] != ids[j]
        decreases pending
      {
        var key :| key in pending;
        pending := pending - {key};
        ghost var id :| id in contents.records && MemoryKey(id) == key;
        OnlyKeyOf(id);
        match Judge(records[key], chainId)
        case Throws =>
          return Err(Thrown);
        case No =>
        case Yes =>
          assert id !in ids;
          result, ids := result + [records[key]], ids + [id];
      }
      ListedOnce(contents, chainId, ids, result);
      r := Ok(result);
    }

    method Append(id: Id, event: Value)
      requires Valid() && IsEvent(event)
      modifies this
      ensures Valid() && contents == AppendEvent(old(contents), id, event, eventLogCapacity)
    {
      hide MemoryKey, WellTyped, Mirrors, IsEvent, LastN;
      MirrorLog(eventLogs, contents, id);
      AppendWellTyped(contents, id, event, eventLogCapacity);
      var key := MemoryKey(id);
      var log := Grow(if key in eventLogs then eventLogs[key] else [], event, eventLogCapacity);
      MirrorPut(eventLogs, contents.logs, id, log);
      eventLogs := eventLogs[key := log];
      contents := AppendEvent(contents, id, event, eventLogCapacity);
    }

    method ReadEventLog(id: Id, since: Option<int>) returns (log: seq<Value>)
      requires Valid()
      ensures log == Since(LogOf(contents, id), since)
    {
      hide MemoryKey;
      var all := if MemoryKey(id) in eventLogs then eventLogs[MemoryKey(id)] else [];
      log := FilterSince(all, since);
    }
  }

  /** Records taken by distinct ids are distinct. */
  lemma ListedOnce(s: StoreState, chainId: nat, ids: seq<Id>, listed: seq<Value>)
    requires WellTyped(s) && |ids| == |listed|
    requires forall id :: id in ids <==> IsDurableOf(s, chainId, id)
    requires forall i | 0 <= i < |ids| :: ids[i] in s.records && listed[i] == s.records[ids[i]]
    requires forall i, j | 0 <= i < j < |ids| :: ids[i] != ids[j]
    ensures forall v :: v in listed <==> exists id :: IsDurableOf(s, chainId, id) && s.records[id] == v
    ensures forall i, j | 0 <= i < j < |listed| :: listed[i] != listed[j]
  {
    hide IsRecord, IdOf, Judge;
    forall v
      ensures v in listed <==> exists id :: IsDurableOf(s, chainId, id) && s.records[id] == v
    {
      if v in listed {
        var i :| 0 <= i < |listed| && listed[i] == v;
        assert ids[i] in ids;
      }
      if id :| IsDurableOf(s, chainId, id) && s.records[id] == v {
        var i :| 0 <= i < |ids| && ids[i] == id;
        assert listed[i] == v;
      }
    }
    forall i, j | 0 <= i < j < |listed|
      ensures listed[i] != listed[j]
    {
      assert IdOf(s.records[ids[i]]) == ids[i] && IdOf(s.records[ids[j]]) == ids[j];
    }
  }

  lemma OnlyKeyOf(id: Id)
    ensures forall i: Id :: MemoryKey(i) == MemoryKey(id) ==> i == id
  {
    forall i: Id | MemoryKey(i) == MemoryKey(id)
      ensures i == id
    {
      MemoryKeyInjective(i, id);
    }
  }

  method FilterSince(all: seq<Value>, since: Option<int>) returns (log: seq<Value>)
    requires forall e | e in all :: IsEvent(e)
    ensures log == Since(all, since)
  {
    hide IsEvent, EventBlock;
    if since.None? {
      return all;
    }
    log := [];
    for i := 0 to |all|
      invariant log == Since(all[..i], since)
    {
      assert all[..i + 1][..i] == all[..i];
      assert IsEvent(all[i]);
      EventHasBlock(all[i]);
      if EventBlock(all[i]).value >= since.value {
        log := log + [all[i]];
      }
    }
    assert all[..|all|] == all;
  }

  lemma EventHasBlock(e: Value)
    requires IsEvent(e)
    ensures EventBlock(e).Some?
  {
  }

  // ----- the operations, spelled out -----

  /** A write shows under its own id and its own kind only. */
  lemma OperationsSpelled(s: StoreState, record: Value, id: Id, event: Value, capacity: nat, other: Id)
    requires IsRecord(record)
    ensures Get(EMPTY_STORE, other) == None && LogOf(EMPTY_STORE, other) == []
    ensures Get(Put(s, record), other) == (if other == IdOf(record) then Some(record) else Get(s, other))
    ensures LogOf(Put(s, record), other) == LogOf(s, other)
    ensures Get(Delete(s, id), other) == (if other == id then None else Get(s, other))
    ensures LogOf(Delete(s, id), other) == (if other == id then [] else LogOf(s, other))
    ensures Get(AppendEvent(s, id, event, capacity), other) == Get(s, other)
    ensures other != id ==> LogOf(AppendEvent(s, id, event, capacity), other) == LogOf(s, other)
  {
    hide IsRecord, IdOf, LastN;
  }

  /** A log keeps its newest entries, the new one last. */
  lemma AppendSpelled(s: StoreState, id: Id, event: Value, capacity: nat)
    ensures var before, after := LogOf(s, id) + [event], LogOf(AppendEvent(s, id, event, capacity), id);
            && |after| == (if |before| < capacity then |before| else capacity)
            && forall i | 0 <= i < |after| :: after[i] == before[|before| - |after| + i]
  {
    hide LastN;
    LastNSpelled(LogOf(s, id) + [event], capacity);
  }

  /** Which chain and hash a record is filed under. */
  lemma IdSpelled(v: Value)
    ensures IsRecord(v) <==>
            && v.Obj?
            && (exists n: nat :: Lookup(v.fields, "chainId") == Some(Number(n)))
            && (exists t :: Lookup(v.fields, "hash") == Some(Str(t)))
            && (exists subs :: Lookup(v.fields, "subscriptions") == Some(Arr(subs)))
    ensures IsRecord(v) ==>
              && Lookup(v.fields, "chainId") == Some(Number(IdOf(v).0)) && Lookup(v.fields, "hash") == Some(Str(IdOf(v).1))
  {
    hide Lookup;
  }

  /** An event's block number sits under `at`. */
  predicate IsAtLeast(e: Value, since: int) {
    && e.Obj? && Lookup(e.fields, "at").Some? && Lookup(e.fields, "at").value.Obj?
    && var n := Lookup(Lookup(e.fields, "at").value.fields, "blockNumber");
       n.Some? && n.value.Big? && n.value.big >= since
  }

  /** `kept` is the part of `log` at the increasing places `at`. */
  predicate IsPartAt(log: seq<Value>, kept: seq<Value>, at: seq<nat>) {
    && |kept| == |at|
    && (forall i | 0 <= i < |at| :: at[i] < |log| && kept[i] == log[at[i]])
    && (forall i, j | 0 <= i < j < |at| :: at[i] < at[j])
  }

  lemma PartSnoc(log: seq<Value>, x: Value, kept: seq<Value>, at: seq<nat>)
    requires IsPartAt(log, kept, at)
    ensures IsPartAt(log + [x], kept, at) && IsPartAt(log + [x], kept + [x], at + [|log|])
  {
  }

  /** Reading since a block gives exactly the events at or after it, in order; reading without one gives them all. */
  lemma {:induction false} SinceSpelled(log: seq<Value>, since: int) returns (at: seq<nat>)
    ensures IsPartAt(log, Since(log, Some(since)), at)
    ensures forall k :: k in at <==> 0 <= k < |log| && IsAtLeast(log[k], since)
    ensures Since(log, None) == log
  {
    hide IsAtLeast, IsPartAt, IsEvent, EventBlock;
    if log == [] {
      at := [];
      NoPart();
    } else {
      var n := |log| - 1;
      at := SinceSpelled(log[..n], since);
      PartSnoc(log[..n], log[n], Since(log[..n], Some(since)), at);
      assert log == log[..n] + [log[n]];
      AtLeastIsBlock(log[n], since);
      if IsAtLeast(log[n], since) {
        at := at + [n];
      }
    }
  }

  lemma NoPart()
    ensures IsPartAt([], [], [])
  {
  }

  lemma AtLeastIsBlock(e: Value, since: int)
    ensures IsAtLeast(e, since) <==> IsEvent(e) && EventBlock(e).value >= since
  {
  }

  /** A flag that JavaScript counts as set. */
  predicate IsSet(v: Value) {
    v != Null && v != Bool(false) && v != Number(0) && v != Str("") && v != Big(0)
  }

  predicate IsDurable(sub: Value) {
    sub.Obj? && Lookup(sub.fields, "durable").Some? && IsSet(Lookup(sub.fields, "durable").value)
  }

  /** The search for a durable subscription: the first hit or the first `null` decides. */
  lemma {:induction false} DurableFirst(subs: seq<Value>, i: nat)
    requires i < |subs| && (subs[i] == Null || IsDurable(subs[i]))
    requires forall j | 0 <= j < i :: subs[j] != Null && !IsDurable(subs[j])
    ensures DurableIn(subs) == if subs[i] == Null then Throws else Yes
  {
    if i == 0 {
    } else {
      assert subs[0] != Null && !IsDurable(subs[0]);
      DurableFirst(subs[1..], i - 1);
    }
  }

  lemma {:induction false} DurableNone(subs: seq<Value>)
    requires forall j | 0 <= j < |subs| :: subs[j] != Null && !IsDurable(subs[j])
    ensures DurableIn(subs) == No
  {
    if subs == [] {
    } else {
      assert subs[0] != Null && !IsDurable(subs[0]);
      DurableNone(subs[1..]);
    }
  }

  /** Which entries a listing takes, skips and trips over. */
  lemma JudgeSpelled(v: Value, chainId: nat)
    ensures var mine := v.Obj? && Lookup(v.fields, "chainId") == Some(Number(chainId));
            && (!mine ==> Judge(v, chainId) == No)
            && (mine ==>
                  match Lookup(v.fields, "subscriptions")
                  case Some(Arr(subs)) => Judge(v, chainId) == DurableIn(subs)
                  case _ => Judge(v, chainId) == Throws)
  {
    hide Lookup, DurableIn;
  }
}
