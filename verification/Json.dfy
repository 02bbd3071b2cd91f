/** The bigint-preserving JSON codec, on value trees; the JSON text layer is taken as lossless. */
module Json {
  import opened Wrappers
  import opened Text

  /** What the stores hold: plain data plus bigints. Numbers are identifiers here. */
  datatype Value =
    | Null
    | Bool(b: bool)
    | Number(n: int)
    | Str(s: string)
    | Big(big: int)
    | Arr(items: seq<Value>)
    | Obj(fields: seq<Field>)

  datatype Field = Field(key: string, value: Value)

  /** What JSON can say. */
  datatype Json =
    | JNull
    | JBool(b: bool)
    | JNumber(n: int)
    | JStr(s: string)
    | JArr(items: seq<Json>)
    | JObj(fields: seq<JField>)

  datatype JField = JField(key: string, value: Json)

  const SENTINEL: string := "$tx-tracker:bigint"

  /** `BigInt(text)`: whatever texts it accepts, it reads back what `toString` wrote. */
  type BigIntParser = p: string -> Option<int> | ReadsDecimals(p) ghost witness ParseOnlyDecimals()

  ghost predicate ReadsDecimals(parse: string -> Option<int>) {
    forall n :: parse(Decimal(n)) == Some(n)
  }

  lemma DecimalInjective(m: int, n: int)
    requires Decimal(m) == Decimal(n)
    ensures m == n
  {
    var s, t := Decimal(m), Decimal(n);
    if m < 0 && n < 0 {
      assert s[1..] == DecimalNat(-m) && t[1..] == DecimalNat(-n);
      DecimalNatInjective(-m, -n);
    } else if m >= 0 && n >= 0 {
      DecimalNatInjective(m, n);
    }
  }

  ghost function ParseOnlyDecimals(): (p: string -> Option<int>)
    ensures ReadsDecimals(p)
  {
    var p := (s: string) => if exists n :: Decimal(n) == s then Some(TheDecimal(s)) else None;
    assert ReadsDecimals(p) by {
      forall n
        ensures p(Decimal(n)) == Some(n)
      {
        DecimalInjective(n, TheDecimal(Decimal(n)));
      }
    }
    p
  }

  ghost function TheDecimal(s: string): (n: int)
    requires exists n :: Decimal(n) == s
    ensures Decimal(n) == s
  {
    var n :| Decimal(n) == s;
    n
  }

  // ----- writing -----

  function Encode(v: Value): Json {
    match v
    case Null => JNull
    case Bool(b) => JBool(b)
    case Number(n) => JNumber(n)
    case Str(s) => JStr(s)
    case Big(n) => JObj([JField(SENTINEL, JStr(Decimal(n)))])
    case Arr(items) => JArr(EncodeItems(items))
    case Obj(fields) => JObj(EncodeFields(fields))
  }

  function EncodeItems(items: seq<Value>): seq<Json> {
    if items == [] then [] else [Encode(items[0])] + EncodeItems(items[1..])
  }

  function EncodeFields(fields: seq<Field>): seq<JField> {
    if fields == [] then []
    else [JField(fields[0].key, Encode(fields[0].value))] + EncodeFields(fields[1..])
  }

  // ----- reading: children first, then the reviver -----

  function Lookup(fields: seq<Field>, key: string): Option<Value> {
    if fields == [] then None
    else if fields[0].key == key then Some(fields[0].value)
    else Lookup(fields[1..], key)
  }

  function Revive(fields: seq<Field>, parse: string -> Option<int>): Value {
    match Lookup(fields, SENTINEL)
    case Some(Str(s)) =>
      (match parse(s)
       case Some(n) => Big(n)
       case None => Obj(fields))
    case _ => Obj(fields)
  }

  function Decode(j: Json, parse: string -> Option<int>): Value {
    match j
    case JNull => Null
    case JBool(b) => Bool(b)
    case JNumber(n) => Number(n)
    case JStr(s) => Str(s)
    case JArr(items) => Arr(DecodeItems(items, parse))
    case JObj(fields) => Revive(DecodeFields(fields, parse), parse)
  }

  function DecodeItems(items: seq<Json>, parse: string -> Option<int>): seq<Value> {
    if items == [] then [] else [Decode(items[0], parse)] + DecodeItems(items[1..], parse)
  }

  function DecodeFields(fields: seq<JField>, parse: string -> Option<int>): seq<Field> {
    if fields == [] then []
    else [Field(fields[0].key, Decode(fields[0].value, parse))] + DecodeFields(fields[1..], parse)
  }

  // ----- round trip -----

  /** An object the reviver would take for a bigint. */
  predicate Imposter(fields: seq<Field>, parse: string -> Option<int>) {
    var v := Lookup(fields, SENTINEL);
    v.Some? && v.value.Str? && parse(v.value.s).Some?
  }

  /** No object anywhere in the tree looks like an encoded bigint. */
  predicate Lossless(v: Value, parse: string -> Option<int>) {
    match v
    case Arr(items) => LosslessItems(items, parse)
    case Obj(fields) => LosslessFields(fields, parse) && !Imposter(fields, parse)
    case _ => true
  }

  predicate LosslessItems(items: seq<Value>, parse: string -> Option<int>) {
    items == [] || (Lossless(items[0], parse) && LosslessItems(items[1..], parse))
  }

  predicate LosslessFields(fields: seq<Field>, parse: string -> Option<int>) {
    fields == [] || (Lossless(fields[0].value, parse) && LosslessFields(fields[1..], parse))
  }

  lemma BigRoundTrip(n: int, parse: BigIntParser)
    ensures Decode(Encode(Big(n)), parse) == Big(n)
  {
    var fields := [JField(SENTINEL, JStr(Decimal(n)))];
    assert fields[1..] == [];
    var back := DecodeFields(fields, parse);
    assert back == [Field(SENTINEL, Str(Decimal(n)))] by {
      assert DecodeFields([], parse) == [];
      assert Decode(fields[0].value, parse) == Str(Decimal(n));
    }
    assert Lookup(back, SENTINEL) == Some(Str(Decimal(n)));
    assert parse(Decimal(n)) == Some(n);
  }

  /**
   The codec gives a value back unchanged if and only if no object in it holds, under the sentinel
   key, a text that reads as a bigint. Bigints themselves always survive.
   */
  lemma {:induction false} RoundTripIff(v: Value, parse: BigIntParser)
    ensures Decode(Encode(v), parse) == v <==> Lossless(v, parse)
    decreases v, 1
  {
    match v {
      case Big(n) => BigRoundTrip(n, parse);
      case Arr(items) => ItemsRoundTripIff(items, parse);
      case Obj(fields) => FieldsRoundTripIff(fields, parse);
      case _ =>
    }
  }

  lemma {:induction false} ItemsRoundTripIff(items: seq<Value>, parse: BigIntParser)
    ensures DecodeItems(EncodeItems(items), parse) == items <==> LosslessItems(items, parse)
    decreases items, 0
  {
    hide Decode, Encode;
    if items == [] {
    } else {
      RoundTripIff(items[0], parse);
      ItemsRoundTripIff(items[1..], parse);
      var head, tail := Encode(items[0]), EncodeItems(items[1..]);
      assert ([head] + tail)[1..] == tail;
      assert items == [items[0]] + items[1..];
      var back := DecodeItems(EncodeItems(items), parse);
      assert back[0] == Decode(head, parse) && back[1..] == DecodeItems(tail, parse);
    }
  }

  lemma {:induction false} FieldsRoundTripIff(fields: seq<Field>, parse: BigIntParser)
    ensures DecodeFields(EncodeFields(fields), parse) == fields <==> LosslessFields(fields, parse)
    decreases fields, 0
  {
    hide Decode, Encode;
    if fields == [] {
    } else {
      var f := fields[0];
      RoundTripIff(f.value, parse);
      FieldsRoundTripIff(fields[1..], parse);
      var head, tail := JField(f.key, Encode(f.value)), EncodeFields(fields[1..]);
      assert ([head] + tail)[1..] == tail;
      assert fields == [f] + fields[1..];
      var back := DecodeFields(EncodeFields(fields), parse);
      assert back[0] == Field(f.key, Decode(head.value, parse)) && back[1..] == DecodeFields(tail, parse);
      assert Field(f.key, Decode(head.value, parse)) == f <==> Decode(head.value, parse) == f.value;
    }
  }

  // ----- the format -----

  /** Every kind of value is written as itself; a bigint is an object with its decimal under the sentinel key. */
  lemma EncodeSpelled(v: Value)
    ensures match v
            case Null => Encode(v) == JNull
            case Bool(b) => Encode(v) == JBool(b)
            case Number(n) => Encode(v) == JNumber(n)
            case Str(s) => Encode(v) == JStr(s)
            case Big(n) =>
              exists d :: Encode(v) == JObj([JField("$tx-tracker:bigint", JStr(d))])
                          && (n >= 0 ==> IsDecimal(d) && DigitsValue(d) == n)
                          && (n < 0 ==> d[..1] == "-" && IsDecimal(d[1..]) && DigitsValue(d[1..]) == -n)
            case Arr(items) =>
              && Encode(v).JArr? && |Encode(v).items| == |items|
              && forall i | 0 <= i < |items| :: Encode(v).items[i] == Encode(items[i])
            case Obj(fields) =>
              && Encode(v).JObj? && |Encode(v).fields| == |fields|
              && forall i | 0 <= i < |fields| ::
                   Encode(v).fields[i] == JField(fields[i].key, Encode(fields[i].value))
  {
    match v
    case Big(n) => DecimalReads(n);
    case Arr(items) => ItemsEncoded(items);
    case Obj(fields) => FieldsEncoded(fields);
    case _ =>
  }

  lemma {:induction false} ItemsEncoded(items: seq<Value>)
    ensures |EncodeItems(items)| == |items|
    ensures forall i | 0 <= i < |items| :: EncodeItems(items)[i] == Encode(items[i])
  {
    hide Encode;
    if items == [] {
    } else {
      ItemsEncoded(items[1..]);
      assert forall i | 0 < i < |items| :: items[i] == items[1..][i - 1];
    }
  }

  lemma {:induction false} FieldsEncoded(fields: seq<Field>)
    ensures |EncodeFields(fields)| == |fields|
    ensures forall i | 0 <= i < |fields| :: EncodeFields(fields)[i] == JField(fields[i].key, Encode(fields[i].value))
  {
    hide Encode;
    if fields == [] {
    } else {
      FieldsEncoded(fields[1..]);
      assert forall i | 0 < i < |fields| :: fields[i] == fields[1..][i - 1];
    }
  }

  /**
   Every field of an object keeps its key, and the object is a bigint exactly when its first field under the
   sentinel key is a text that reads as one.
   */
  lemma DecodeSpelled(fields: seq<JField>, parse: string -> Option<int>) returns (read: seq<Field>)
    ensures |read| == |fields|
    ensures forall i | 0 <= i < |fields| :: read[i] == Field(fields[i].key, Decode(fields[i].value, parse))
    ensures Decode(JObj(fields), parse) ==
            match Lookup(read, "$tx-tracker:bigint")
            case Some(Str(s)) => (match parse(s) case Some(n) => Big(n) case None => Obj(read))
            case _ => Obj(read)
  {
    read := DecodeFields(fields, parse);
    hide Decode;
    FieldsDecoded(fields, parse);
    DecodeObject(fields, parse);
  }

  lemma DecodeObject(fields: seq<JField>, parse: string -> Option<int>)
    ensures Decode(JObj(fields), parse) == Revive(DecodeFields(fields, parse), parse)
  {
  }

  lemma {:induction false} FieldsDecoded(fields: seq<JField>, parse: string -> Option<int>)
    ensures |DecodeFields(fields, parse)| == |fields|
    ensures forall i | 0 <= i < |fields| ::
              DecodeFields(fields, parse)[i] == Field(fields[i].key, Decode(fields[i].value, parse))
  {
    hide Decode;
    if fields == [] {
    } else {
      FieldsDecoded(fields[1..], parse);
      assert forall i | 0 < i < |fields| :: fields[i] == fields[1..][i - 1];
    }
  }

  /** The first field under a key is the one that is found. */
  lemma {:induction false} LookupFirst(fields: seq<Field>, key: string, i: nat)
    requires i < |fields| && fields[i].key == key && forall j | 0 <= j < i :: fields[j].key != key
    ensures Lookup(fields, key) == Some(fields[i].value)
  {
    if i == 0 {
    } else {
      assert fields[0].key != key;
      LookupFirst(fields[1..], key, i - 1);
    }
  }

  lemma {:induction false} LookupNone(fields: seq<Field>, key: string)
    requires forall i | 0 <= i < |fields| :: fields[i].key != key
    ensures Lookup(fields, key) == None
  {
    if fields == [] {
    } else {
      LookupNone(fields[1..], key);
    }
  }
}
