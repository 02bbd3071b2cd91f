/** Key layout of the two stores: every key names one chain and hash, and one kind of entry. */
module StoreKeys {
  import opened Text

  /** Chain id and transaction hash. */
  type Id = (nat, string)

  /** `chainId:hash` */
  function MemoryKey(id: Id): string {
    Decimal(id.0) + ":" + id.1
  }

  /** `prefix:chainId:` */
  function ChainPrefix(prefix: string, chainId: nat): string {
    prefix + ":" + Decimal(chainId) + ":"
  }

  function RecordKey(prefix: string, id: Id): string {
    prefix + ":" + MemoryKey(id)
  }

  function EventLogKey(prefix: string, id: Id): string {
    prefix + ":eventlog:" + MemoryKey(id)
  }

  predicate StartsWith(s: string, prefix: string) {
    prefix <= s
  }

  predicate Owned(prefix: string, key: string) {
    StartsWith(key, prefix + ":")
  }

  lemma NoColonInDecimal(n: nat)
    ensures ':' !in Decimal(n)
    ensures Decimal(n)[0] != 'e'
  {
    var s := DecimalNat(n);
    assert forall c | c in s :: '0' <= c <= '9';
  }

  lemma ColonIsPast(a: string, x: string, k: nat)
    requires ':' !in a && k < |a + ":" + x|
    requires (a + ":" + x)[k] == ':'
    ensures k >= |a|
  {
  }

  /** Texts that agree up to and beyond their first colon have equal first segments. */
  lemma FirstSegment(a: string, x: string, b: string, y: string)
    requires ':' !in a && ':' !in b
    requires a + ":" + x == b + ":" + y
    ensures a == b && x == y
  {
    var s := a + ":" + x;
    assert s[|a|] == ':' && s[|b|] == ':';
    ColonIsPast(a, x, |b|);
    ColonIsPast(b, y, |a|);
    assert a == s[..|a|] && b == s[..|b|];
    assert x == s[|a| + 1..] && y == s[|b| + 1..];
  }

  lemma MemoryKeyInjective(a: Id, b: Id)
    requires MemoryKey(a) == MemoryKey(b)
    ensures a == b
  {
    NoColonInDecimal(a.0);
    NoColonInDecimal(b.0);
    FirstSegment(Decimal(a.0), a.1, Decimal(b.0), b.1);
    DecimalNatInjective(a.0, b.0);
  }

  lemma SameTail(p: string, s: string, t: string)
    requires p + s == p + t
    ensures s == t
  {
    assert s == (p + s)[|p|..] && t == (p + t)[|p|..];
  }

  lemma RecordKeyInjective(prefix: string, a: Id, b: Id)
    requires RecordKey(prefix, a) == RecordKey(prefix, b)
    ensures a == b
  {
    SameTail(prefix + ":", MemoryKey(a), MemoryKey(b));
    MemoryKeyInjective(a, b);
  }

  lemma EventLogKeyInjective(prefix: string, a: Id, b: Id)
    requires EventLogKey(prefix, a) == EventLogKey(prefix, b)
    ensures a == b
  {
    SameTail(prefix + ":eventlog:", MemoryKey(a), MemoryKey(b));
    MemoryKeyInjective(a, b);
  }

  /** A record key is never an event-log key, whatever the hashes contain. */
  lemma KindsDisjoint(prefix: string, a: Id, b: Id)
    ensures RecordKey(prefix, a) != EventLogKey(prefix, b)
  {
    if RecordKey(prefix, a) == EventLogKey(prefix, b) {
      var tail := "eventlog" + ":" + MemoryKey(b);
      assert prefix + ":eventlog:" + MemoryKey(b) == prefix + ":" + tail;
      SameTail(prefix + ":", MemoryKey(a), tail);
      NoColonInDecimal(a.0);
      FirstSegment(Decimal(a.0), a.1, "eventlog", MemoryKey(b));
    }
  }

  /** Keys under a chain's prefix are exactly that chain's record keys. */
  lemma ChainPrefixIsRecord(prefix: string, chainId: nat, key: string)
    ensures StartsWith(key, ChainPrefix(prefix, chainId))
        <==> exists hash :: key == RecordKey(prefix, (chainId, hash))
  {
    var p := ChainPrefix(prefix, chainId);
    if StartsWith(key, p) {
      var hash := key[|p|..];
      assert key == p + hash;
      assert key == RecordKey(prefix, (chainId, hash));
    }
    if hash :| key == RecordKey(prefix, (chainId, hash)) {
      assert key == p + hash;
    }
  }

  lemma KeysAreOwned(prefix: string, id: Id)
    ensures Owned(prefix, RecordKey(prefix, id)) && Owned(prefix, EventLogKey(prefix, id))
  {
  }

  // ----- cleaning up old namespaces -----

  /** A key that a store under `prefix` writes. */
  ghost predicate Live(prefix: string, key: string) {
    exists id: Id :: key == RecordKey(prefix, id) || key == EventLogKey(prefix, id)
  }

  /** What follows `prefix:` in a live key. */
  ghost predicate LiveTail(tail: string) {
    exists id: Id :: tail == MemoryKey(id) || tail == "eventlog:" + MemoryKey(id)
  }

  lemma LiveIffTail(prefix: string, key: string)
    ensures Live(prefix, key) <==> StartsWith(key, prefix + ":") && LiveTail(key[|prefix| + 1..])
  {
    hide MemoryKey;
    var p := prefix + ":";
    forall id: Id
      ensures RecordKey(prefix, id) == p + MemoryKey(id)
      ensures EventLogKey(prefix, id) == p + ("eventlog:" + MemoryKey(id))
    {
    }
    if StartsWith(key, p) {
      assert key == p + key[|p|..];
    }
    forall id: Id | key == RecordKey(prefix, id) || key == EventLogKey(prefix, id)
      ensures StartsWith(key, p) && LiveTail(key[|p|..])
    {
      assert key == p + key[|p|..];
      if key == RecordKey(prefix, id) {
        SameTail(p, key[|p|..], MemoryKey(id));
      } else {
        SameTail(p, key[|p|..], "eventlog:" + MemoryKey(id));
      }
    }
  }

  /** The text before the first colon. */
  function FirstOf(s: string): (f: string)
    ensures f <= s && ':' !in f
    ensures |f| < |s| ==> s[|f|] == ':'
    ensures ':' in s ==> |f| < |s|
  {
    if s == [] || s[0] == ':' then []
    else
      assert s == [s[0]] + s[1..];
      [s[0]] + FirstOf(s[1..])
  }

  predicate StartsWithDecimal(s: string) {
    IsDecimal(FirstOf(s))
  }

  lemma FirstIsProper(rest: string)
    requires rest != [] && rest[|rest| - 1] == ':'
    ensures |FirstOf(rest)| < |rest|
    ensures rest == FirstOf(rest) + ":" + rest[|FirstOf(rest)| + 1..]
  {
    assert ':' in rest;
  }

  lemma DecimalBegins(rest: string) returns (id: Id)
    requires rest != [] && rest[|rest| - 1] == ':' && StartsWithDecimal(rest)
    ensures rest <= MemoryKey(id)
  {
    hide IsDecimal;
    FirstIsProper(rest);
    var n := DecimalNatOnto(FirstOf(rest));
    id := (n, rest[|FirstOf(rest)| + 1..]);
    assert Decimal(n) == DecimalNat(n);
  }

  lemma BeginningIsDecimal(rest: string, id: Id)
    requires rest != [] && rest[|rest| - 1] == ':' && rest <= MemoryKey(id)
    ensures StartsWithDecimal(rest)
  {
    hide IsDecimal;
    FirstIsProper(rest);
    NoColonInDecimal(id.0);
    var f, key := FirstOf(rest), MemoryKey(id);
    var x := rest[|f| + 1..] + key[|rest|..];
    assert f + ":" + x == key by {
      assert key == rest + key[|rest|..];
    }
    FirstSegment(f, x, Decimal(id.0), id.1);
    DecimalNatIsDecimal(id.0);
  }

  /** A text ending in a colon begins some chain and hash if and only if it begins with a decimal. */
  lemma BeginsMemoryKey(rest: string)
    requires rest != [] && rest[|rest| - 1] == ':'
    ensures (exists id: Id :: rest <= MemoryKey(id)) <==> StartsWithDecimal(rest)
  {
    hide MemoryKey, StartsWithDecimal;
    if StartsWithDecimal(rest) {
      var id := DecimalBegins(rest);
    }
    if id: Id :| rest <= MemoryKey(id) {
      BeginningIsDecimal(rest, id);
    }
  }

  predicate BeginsLiveTail(rest: string) {
    || StartsWithDecimal(rest)
    || rest == "eventlog:"
    || (StartsWith(rest, "eventlog:") && StartsWithDecimal(rest[|"eventlog:"|..]))
  }

  lemma BeginsLiveTailIff(rest: string)
    requires rest != [] && rest[|rest| - 1] == ':'
    ensures (exists tail :: LiveTail(tail) && rest <= tail) <==> BeginsLiveTail(rest)
  {
    hide MemoryKey, StartsWithDecimal;
    var e := "eventlog:";
    BeginsMemoryKey(rest);
    if StartsWithDecimal(rest) {
      var id: Id :| rest <= MemoryKey(id);
      assert LiveTail(MemoryKey(id));
    } else if rest == e {
      assert LiveTail(e + MemoryKey((0, "")));
    } else if StartsWith(rest, e) && StartsWithDecimal(rest[|e|..]) {
      BeginsMemoryKey(rest[|e|..]);
      var id: Id :| rest[|e|..] <= MemoryKey(id);
      assert rest == e + rest[|e|..];
      assert LiveTail(e + MemoryKey(id));
    }
    if tail :| LiveTail(tail) && rest <= tail {
      var id: Id :| tail == MemoryKey(id) || tail == e + MemoryKey(id);
      if tail == e + MemoryKey(id) {
        InsideLog(rest, e, MemoryKey(id));
        if |rest| > |e| {
          BeginsMemoryKey(rest[|e|..]);
        }
      }
    }
  }

  /** A text ending in a colon at the front of `eventlog:` and more is at least that long. */
  lemma InsideLog(rest: string, e: string, m: string)
    requires e == "eventlog:"
    requires rest != [] && rest[|rest| - 1] == ':' && rest <= e + m
    ensures |rest| >= |e| && e <= rest && rest[|e|..] <= m
    ensures |rest| == |e| ==> rest == e
  {
    assert rest[|rest| - 1] == (e + m)[|rest| - 1];
    assert rest == (e + m)[..|rest|];
  }

  /**
   Cleaning up `legacy` while `prefix` is current: either everything current starts with the old name
   and a colon, or the old name goes on past the current one like a live key does, with a chain id or
   with `eventlog`.
   */
  predicate Endangers(legacy: string, prefix: string) {
    var l, p := legacy + ":", prefix + ":";
    StartsWith(p, l) || (StartsWith(l, p) && BeginsLiveTail(l[|p|..]))
  }

  /**
   Deleting everything under an old name spares every key a store can write under the current one if
   and only if the old name does not endanger it. `app:v0` may go while `app` is current; `app` may
   not go while `app:v1` is, nor `app:1` while `app` is.
   */
  lemma CleanupSparesIff(legacy: string, prefix: string)
    ensures (forall key | Live(prefix, key) :: !StartsWith(key, legacy + ":"))
        <==> !Endangers(legacy, prefix)
  {
    hide MemoryKey, BeginsLiveTail, LiveTail, Live;
    var l, p := legacy + ":", prefix + ":";
    if StartsWith(p, l) {
      var key := RecordKey(prefix, (0, ""));
      RecordIsLive(prefix, (0, ""));
      assert l <= p <= key;
    } else if StartsWith(l, p) && |l| > |p| {
      var rest := l[|p|..];
      assert l == p + rest && rest[|rest| - 1] == ':';
      BeginsLiveTailIff(rest);
      if BeginsLiveTail(rest) {
        var tail :| LiveTail(tail) && rest <= tail;
        LiveIffTail(prefix, p + tail);
        assert (p + tail)[|p|..] == tail;
        assert StartsWith(p + tail, l);
      }
      forall key | Live(prefix, key) && StartsWith(key, l)
        ensures BeginsLiveTail(rest)
      {
        LiveIffTail(prefix, key);
        assert rest <= key[|p|..];
      }
    } else {
      forall key | Live(prefix, key)
        ensures !StartsWith(key, l)
      {
        LiveIffTail(prefix, key);
        if StartsWith(key, l) {
          CommonExtension(key, l, p);
        }
      }
    }
  }

  lemma RecordIsLive(prefix: string, id: Id)
    ensures Live(prefix, RecordKey(prefix, id)) && StartsWith(RecordKey(prefix, id), prefix + ":")
  {
  }

  lemma CommonExtension(key: string, a: string, b: string)
    requires a <= key && b <= key
    ensures a <= b || b <= a
  {
    assert a == key[..|a|] && b == key[..|b|];
  }

  // ----- two stores on one storage -----

  /** `other` goes on past `prefix` the way a live key of `prefix` does. */
  predicate Intrudes(other: string, prefix: string) {
    var o, p := other + ":", prefix + ":";
    StartsWith(o, p) && |o| > |p| && BeginsLiveTail(o[|p|..])
  }

  ghost predicate ShareLiveKey(a: string, b: string) {
    exists key :: Live(a, key) && Live(b, key)
  }

  /** A live tail can be put after any text that begins one, up to a colon. */
  lemma IntruderTail(rest: string) returns (tail: string)
    requires rest != [] && rest[|rest| - 1] == ':' && BeginsLiveTail(rest)
    ensures LiveTail(tail) && LiveTail(rest + tail)
  {
    hide Decimal, IsDecimal;
    var e := "eventlog:";
    tail := MemoryKey((0, ""));
    if StartsWithDecimal(rest) {
      var id := DecimalContinues(rest, tail);
      assert LiveTail(MemoryKey(id));
    } else if rest == e {
      assert LiveTail(e + MemoryKey((0, "")));
    } else {
      var id := DecimalContinues(rest[|e|..], tail);
      assert rest + tail == e + (rest[|e|..] + tail);
      assert LiveTail(e + MemoryKey(id));
    }
  }

  lemma DecimalContinues(rest: string, tail: string) returns (id: Id)
    requires rest != [] && rest[|rest| - 1] == ':' && StartsWithDecimal(rest)
    ensures rest + tail == MemoryKey(id)
  {
    hide IsDecimal;
    FirstIsProper(rest);
    var n := DecimalNatOnto(FirstOf(rest));
    id := (n, rest[|FirstOf(rest)| + 1..] + tail);
    assert Decimal(n) == DecimalNat(n);
  }

  lemma IntruderShares(other: string, prefix: string)
    requires Intrudes(other, prefix)
    ensures ShareLiveKey(other, prefix)
  {
    hide MemoryKey, BeginsLiveTail, LiveTail, Live;
    var o, p := other + ":", prefix + ":";
    var rest := o[|p|..];
    assert o == p + rest && rest[|rest| - 1] == ':';
    var tail := IntruderTail(rest);
    var key := o + tail;
    assert key == p + (rest + tail);
    assert key[|o|..] == tail && key[|p|..] == rest + tail;
    LiveIffTail(other, key);
    LiveIffTail(prefix, key);
  }

  lemma SharedIntrudes(other: string, prefix: string, key: string)
    requires Live(other, key) && Live(prefix, key) && StartsWith(other + ":", prefix + ":")
    ensures other == prefix || Intrudes(other, prefix)
  {
    hide MemoryKey, BeginsLiveTail, LiveTail, Live;
    var o, p := other + ":", prefix + ":";
    LiveIffTail(other, key);
    LiveIffTail(prefix, key);
    if |o| > |p| {
      var rest := o[|p|..];
      assert rest[|rest| - 1] == ':';
      assert rest <= key[|p|..];
      BeginsLiveTailIff(rest);
    } else {
      assert o == p && other == o[..|o| - 1] && prefix == p[..|p| - 1];
    }
  }

  /**
   Two stores on one storage never touch each other's entries if and only if they have different names
   and neither name goes on past the other with a chain id or with `eventlog`.
   */
  lemma StoresApartIff(a: string, b: string)
    ensures !ShareLiveKey(a, b) <==> a != b && !Intrudes(a, b) && !Intrudes(b, a)
  {
    hide Live, Intrudes, StartsWith;
    if a == b {
      RecordIsLive(a, (0, ""));
    } else if Intrudes(a, b) {
      IntruderShares(a, b);
    } else if Intrudes(b, a) {
      IntruderShares(b, a);
    } else if key :| Live(a, key) && Live(b, key) {
      LiveIffTail(a, key);
      LiveIffTail(b, key);
      OneStartsOther(key, a + ":", b + ":");
      if StartsWith(a + ":", b + ":") {
        SharedIntrudes(a, b, key);
      } else {
        SharedIntrudes(b, a, key);
      }
    }
  }

  lemma OneStartsOther(key: string, a: string, b: string)
    requires StartsWith(key, a) && StartsWith(key, b)
    ensures StartsWith(a, b) || StartsWith(b, a)
  {
    CommonExtension(key, a, b);
  }

  /** What the keys look like: the chain id is written in decimal, between colons. */
  lemma KeysSpelled(prefix: string, id: Id) returns (d: string)
    ensures IsDecimal(d) && DigitsValue(d) == id.0
    ensures MemoryKey(id) == d + ":" + id.1
    ensures RecordKey(prefix, id) == prefix + ":" + d + ":" + id.1
    ensures EventLogKey(prefix, id) == prefix + ":eventlog:" + d + ":" + id.1
    ensures ChainPrefix(prefix, id.0) == prefix + ":" + d + ":"
  {
    d := Decimal(id.0);
    DecimalReads(id.0);
    assert prefix + ":" + (d + ":" + id.1) == prefix + ":" + d + ":" + id.1;
    assert prefix + ":eventlog:" + (d + ":" + id.1) == prefix + ":eventlog:" + d + ":" + id.1;
  }
}
