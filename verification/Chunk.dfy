/** Index chunk files: a sorted address table over an appearance table. */
module Chunk {
  import opened Wrappers
  import opened Bytes

  const CHUNK_MAGIC: nat := 0xdeadbeef
  const HEADER_WIDTH: nat := 44
  const ADDR_RECORD_WIDTH: nat := 28
  const APP_RECORD_WIDTH: nat := 8

  datatype ChunkHeader = ChunkHeader(addressCount: nat, appearanceCount: nat)
  datatype Appearance = Appearance(blockNumber: nat, transactionIndex: nat)

  /** Difference of two bytes; reading past the end makes it not a number. */
  datatype Comparison = Diff(d: int) | NaN

  function ParseChunkHeader(bytes: File): (r: Result<ChunkHeader, ReadError>)
    ensures r.Ok? <==> |bytes| >= HEADER_WIDTH && U32LE(bytes, 0) == CHUNK_MAGIC
    ensures r.Ok? ==> r.value == ChunkHeader(U32LE(bytes, 36), U32LE(bytes, 40))
  {
    if |bytes| < HEADER_WIDTH then Err(TooShort)
    else if U32LE(bytes, 0) != CHUNK_MAGIC then Err(BadMagic)
    else Ok(ChunkHeader(U32LE(bytes, 36), U32LE(bytes, 40)))
  }

  function RecordAt(i: nat): nat {
    HEADER_WIDTH + i * ADDR_RECORD_WIDTH
  }

  function Compare(bytes: seq<byte>, rec: nat, target: Address, i: nat): Comparison
    requires i <= ADDRESS_WIDTH
    decreases ADDRESS_WIDTH - i
  {
    if i == ADDRESS_WIDTH then Diff(0)
    else if rec + i >= |bytes| then NaN
    else
      var d := bytes[rec + i] as int - target[i] as int;
      if d != 0 then Diff(d) else Compare(bytes, rec, target, i + 1)
  }

  method CompareAddressAt(bytes: File, recOffset: nat, target: Address) returns (c: Comparison)
    ensures c == Compare(bytes, recOffset, target, 0)
  {
    for i := 0 to ADDRESS_WIDTH
      invariant Compare(bytes, recOffset, target, 0) == Compare(bytes, recOffset, target, i)
    {
      if recOffset + i >= |bytes| {
        return NaN;
      }
      var d := bytes[recOffset + i] as int - target[i] as int;
      if d != 0 {
        return Diff(d);
      }
    }
    return Diff(0);
  }

  /** The comparison is the numeric order of the addresses. */
  lemma {:induction false} CompareIsOrder(bytes: seq<byte>, rec: nat, target: Address, i: nat)
    requires i <= ADDRESS_WIDTH && rec + ADDRESS_WIDTH <= |bytes|
    ensures Compare(bytes, rec, target, i).Diff?
    ensures var d := Compare(bytes, rec, target, i).d;
            var a, b := Value(bytes[rec + i..rec + ADDRESS_WIDTH]), Value(target[i..]);
            (d < 0 <==> a < b) && (d == 0 <==> a == b) && (d > 0 <==> a > b)
    decreases ADDRESS_WIDTH - i
  {
    var a, b := bytes[rec + i..rec + ADDRESS_WIDTH], target[i..];
    if i == ADDRESS_WIDTH {
    } else {
      assert a[0] == bytes[rec + i] && b[0] == target[i];
      if a[0] < b[0] {
        HeadDecides(a, b);
      } else if a[0] > b[0] {
        HeadDecides(b, a);
      } else {
        assert a[1..] == bytes[rec + i + 1..rec + ADDRESS_WIDTH] && b[1..] == target[i + 1..];
        CompareIsOrder(bytes, rec, target, i + 1);
      }
    }
  }

  // ----- binary search -----

  /** `(lo + hi) >>> 1`: the sum is reduced to 32 bits first. */
  function Mid(lo: nat, hi: nat): nat {
    ((lo + hi) % TWO_TO_32) / 2
  }

  /** One past the last record that has any byte inside the file. */
  function RecordLimit(bytes: File): nat {
    |bytes| / ADDR_RECORD_WIDTH + 1
  }

  /**
   The bounds the search can reach: `lo` moves only past records inside the file, so the sum never
   leaves 32 bits, even for a header that claims far more records than there are.
   */
  predicate SearchBounds(bytes: File, lo: nat, hi: int) {
    && -1 <= hi < TWO_TO_32 && lo <= hi + 1
    && (lo == 0 || (lo <= RecordLimit(bytes) && hi <= 2 * RecordLimit(bytes)))
  }

  lemma FullBounds(bytes: File, addressCount: nat)
    requires addressCount < TWO_TO_32
    ensures SearchBounds(bytes, 0, addressCount - 1)
  {
  }

  lemma MidInside(bytes: File, lo: nat, hi: nat)
    requires SearchBounds(bytes, lo, hi) && lo <= hi
    ensures Mid(lo, hi) == (lo + hi) / 2
    ensures lo <= Mid(lo, hi) <= hi
    ensures SearchBounds(bytes, lo, Mid(lo, hi) - 1)
    ensures RecordAt(Mid(lo, hi)) < |bytes| ==> SearchBounds(bytes, Mid(lo, hi) + 1, hi)
  {
    assert lo + hi < TWO_TO_32;
  }

  /** Record found by the search between `lo` and `hi`, or -1. */
  function Probe(bytes: File, target: Address, lo: nat, hi: int): (found: int)
    requires SearchBounds(bytes, lo, hi)
    decreases hi + 1 - lo
  {
    if lo > hi then -1
    else
      MidInside(bytes, lo, hi);
      var mid := Mid(lo, hi);
      match Compare(bytes, RecordAt(mid), target, 0)
      case NaN => Probe(bytes, target, lo, mid - 1)
      case Diff(d) =>
        if d == 0 then mid
        else if d < 0 then
          ComparedInside(bytes, RecordAt(mid), target);
          Probe(bytes, target, mid + 1, hi)
        else Probe(bytes, target, lo, mid - 1)
  }

  lemma ComparedInside(bytes: seq<byte>, rec: nat, target: Address)
    requires Compare(bytes, rec, target, 0).Diff?
    ensures rec < |bytes|
  {
  }

  function DecodeSlice(bytes: seq<byte>, start: nat, offset: nat, count: nat)
    : Result<seq<Appearance>, ReadError>
  {
    if count == 0 then Ok([])
    else
      match DecodeSlice(bytes, start, offset, count - 1)
      case Err(e) => Err(e)
      case Ok(before) =>
        match DecodeOne(bytes, start + (offset + count - 1) * APP_RECORD_WIDTH)
        case Err(e) => Err(e)
        case Ok(a) => Ok(before + [a])
  }

  function DecodeOne(bytes: seq<byte>, rec: nat): (r: Result<Appearance, ReadError>)
    ensures r.Ok? <==> rec + 8 <= |bytes|
    ensures r.Ok? ==> r.value == Appearance(U32LE(bytes, rec), U32LE(bytes, rec + 4))
  {
    match ReadU32LE(bytes, rec)
    case Err(e) => Err(e)
    case Ok(block) =>
      match ReadU32LE(bytes, rec + 4)
      case Err(e) => Err(e)
      case Ok(index) => Ok(Appearance(block, index))
  }

  function AppearancesAt(bytes: File, addressCount: nat, rec: nat): Result<seq<Appearance>, ReadError> {
    match ReadU32LE(bytes, rec + 20)
    case Err(e) => Err(e)
    case Ok(offset) =>
      match ReadU32LE(bytes, rec + 24)
      case Err(e) => Err(e)
      case Ok(count) =>
        DecodeSlice(bytes, HEADER_WIDTH + addressCount * ADDR_RECORD_WIDTH, offset, count)
  }

  /** The lookup on any file, well-formed or not. */
  function Appearances(bytes: File, target: Address): Result<seq<Appearance>, ReadError> {
    match ParseChunkHeader(bytes)
    case Err(e) => Err(e)
    case Ok(h) =>
      var found := Probe(bytes, target, 0, h.addressCount - 1);
      if found < 0 then Ok([]) else AppearancesAt(bytes, h.addressCount, RecordAt(found))
  }

  method AppearancesOf(bytes: File, address: Address) returns (r: Result<seq<Appearance>, ReadError>)
    ensures r == Appearances(bytes, address)
  {
    hide DecodeSlice, Compare, SearchBounds, Mid, RecordAt;
    var header := ParseChunkHeader(bytes);
    if header.Err? {
      return Err(header.error);
    }
    var addressCount: int := header.value.addressCount;
    FullBounds(bytes, addressCount);

    var lo: int, hi: int := 0, addressCount - 1;
    var found: int := -1;
    while lo <= hi
      invariant lo >= 0 && SearchBounds(bytes, lo, hi)
      invariant found == -1
      invariant Probe(bytes, address, 0, addressCount - 1) == Probe(bytes, address, lo, hi)
      decreases hi + 1 - lo
    {
      MidInside(bytes, lo, hi);
      var mid: int := Mid(lo, hi);
      var cmp := CompareAddressAt(bytes, RecordAt(mid), address);
      if cmp == Diff(0) {
        found := mid;
        break;
      }
      if cmp.Diff? && cmp.d < 0 {
        ComparedInside(bytes, RecordAt(mid), address);
        lo := mid + 1;
      } else {
        hi := mid - 1;
      }
    }
    assert found == Probe(bytes, address, 0, addressCount - 1);
    if found == -1 {
      return Ok([]);
    }
    r := ReadAppearances(bytes, addressCount, RecordAt(found));
  }

  method ReadAppearances(bytes: File, addressCount: nat, found: nat)
    returns (r: Result<seq<Appearance>, ReadError>)
    ensures r == AppearancesAt(bytes, addressCount, found)
  {
    var offset := ReadU32LE(bytes, found + 20);
    if offset.Err? {
      return Err(offset.error);
    }
    var count := ReadU32LE(bytes, found + 24);
    if count.Err? {
      return Err(count.error);
    }
    var appTableStart := HEADER_WIDTH + addressCount * ADDR_RECORD_WIDTH;
    var appearances := [];
    for k := 0 to count.value
      invariant DecodeSlice(bytes, appTableStart, offset.value, k) == Ok(appearances)
    {
      var rec := appTableStart + (offset.value + k) * APP_RECORD_WIDTH;
      var one := DecodeOne(bytes, rec);
      if one.Err? {
        DecodeFailsOn(bytes, appTableStart, offset.value, k + 1, count.value, one.error);
        return Err(one.error);
      }
      appearances := appearances + [one.value];
    }
    r := Ok(appearances);
  }

  lemma {:induction false} DecodeFailsOn(
      bytes: seq<byte>, start: nat, offset: nat, k: nat, count: nat, e: ReadError)
    requires k <= count && DecodeSlice(bytes, start, offset, k) == Err(e)
    ensures DecodeSlice(bytes, start, offset, count) == Err(e)
  {
    if k == count {
    } else {
      DecodeFailsOn(bytes, start, offset, k, count - 1, e);
    }
  }

  // ----- well-formed files and the brute-force scan -----

  function AddressOf(bytes: seq<byte>, i: nat): seq<byte>
    requires RecordAt(i) + ADDRESS_WIDTH <= |bytes|
  {
    bytes[RecordAt(i)..RecordAt(i) + ADDRESS_WIDTH]
  }

  /** Header, both tables in bounds, addresses strictly ascending, slices inside the table. */
  ghost predicate WellFormed(bytes: File) {
    && ParseChunkHeader(bytes).Ok?
    && var h := ParseChunkHeader(bytes).value;
       && TableEnd(h.addressCount, h.appearanceCount) <= |bytes|
       && (forall i, j | 0 <= i < j < h.addressCount :: Ascending(bytes, i, j))
       && (forall i | 0 <= i < h.addressCount :: SliceInBounds(bytes, i, h.appearanceCount))
  }

  function TableEnd(addressCount: nat, appearanceCount: nat): nat {
    RecordAt(addressCount) + appearanceCount * APP_RECORD_WIDTH
  }

  predicate Ascending(bytes: seq<byte>, i: nat, j: nat) {
    && RecordAt(i) + ADDR_RECORD_WIDTH <= |bytes| && RecordAt(j) + ADDR_RECORD_WIDTH <= |bytes|
    && Value(AddressOf(bytes, i)) < Value(AddressOf(bytes, j))
  }

  predicate SliceInBounds(bytes: seq<byte>, i: nat, appearanceCount: nat) {
    && RecordAt(i) + ADDR_RECORD_WIDTH <= |bytes|
    && U32LE(bytes, RecordAt(i) + 20) + U32LE(bytes, RecordAt(i) + 24) <= appearanceCount
  }

  /** What record `i` lists, read without any search. */
  function Listed(bytes: File, addressCount: nat, i: nat): seq<Appearance> {
    match AppearancesAt(bytes, addressCount, RecordAt(i))
    case Ok(a) => a
    case Err(_) => []
  }

  /** Record `i` lies in the file and carries the target's twenty bytes. */
  predicate HasAddress(bytes: seq<byte>, i: nat, target: Address) {
    RecordAt(i) + ADDRESS_WIDTH <= |bytes| && AddressOf(bytes, i) == target
  }

  lemma {:induction false} ComparedEqual(bytes: seq<byte>, i: nat, target: Address, k: nat)
    requires k <= ADDRESS_WIDTH && RecordAt(i) + k <= |bytes|
    requires forall j | 0 <= j < k :: bytes[RecordAt(i) + j] == target[j]
    ensures Compare(bytes, RecordAt(i), target, k) == Diff(0) <==> HasAddress(bytes, i, target)
    decreases ADDRESS_WIDTH - k
  {
    var rec := RecordAt(i);
    if k == ADDRESS_WIDTH {
      assert bytes[rec..rec + ADDRESS_WIDTH] == target;
    } else if rec + k < |bytes| {
      if bytes[rec + k] == target[k] {
        ComparedEqual(bytes, i, target, k + 1);
      } else if rec + ADDRESS_WIDTH <= |bytes| {
        assert AddressOf(bytes, i)[k] == bytes[rec + k];
      }
    }
  }

  lemma ComparedAddress(bytes: seq<byte>, i: nat, target: Address)
    ensures Compare(bytes, RecordAt(i), target, 0) == Diff(0) <==> HasAddress(bytes, i, target)
  {
    if RecordAt(i) <= |bytes| {
      ComparedEqual(bytes, i, target, 0);
    }
  }

  /** Scan the first `n` records and collect the lists of those with the target's address. */
  function ScanRecords(bytes: File, addressCount: nat, target: Address, n: nat): seq<Appearance> {
    if n == 0 then []
    else
      ScanRecords(bytes, addressCount, target, n - 1) +
      if HasAddress(bytes, n - 1, target) then Listed(bytes, addressCount, n - 1) else []
  }

  /** The reference answer: look at every record. */
  function BruteForce(bytes: File, target: Address): seq<Appearance> {
    match ParseChunkHeader(bytes)
    case Err(_) => []
    case Ok(h) => ScanRecords(bytes, h.addressCount, target, h.addressCount)
  }

  ghost predicate Lists(bytes: File, target: Address) {
    && ParseChunkHeader(bytes).Ok?
    && exists i | 0 <= i < ParseChunkHeader(bytes).value.addressCount ::
         HasAddress(bytes, i, target)
  }

  lemma RecordInside(bytes: File, addressCount: nat, appearanceCount: nat, i: nat)
    requires TableEnd(addressCount, appearanceCount) <= |bytes| && i < addressCount
    ensures RecordAt(i) + ADDR_RECORD_WIDTH <= |bytes|
  {
  }

  lemma CompareRecord(bytes: File, i: nat, target: Address)
    requires RecordAt(i) + ADDR_RECORD_WIDTH <= |bytes|
    ensures var c := Compare(bytes, RecordAt(i), target, 0);
            var a, b := Value(AddressOf(bytes, i)), Value(target);
            c.Diff? && (c.d < 0 <==> a < b) && (c.d == 0 <==> a == b) && (c.d > 0 <==> a > b)
  {
    CompareIsOrder(bytes, RecordAt(i), target, 0);
    assert target[0..] == target;
  }

  /** The search finds the address if any record between the bounds has it. */
  lemma {:induction false} ProbeComplete(bytes: File, target: Address, lo: nat, hi: int, i: nat, n: nat, m: nat)
    requires SearchBounds(bytes, lo, hi) && lo <= i <= hi < n
    requires TableEnd(n, m) <= |bytes|
    requires forall a, b | 0 <= a < b < n :: Ascending(bytes, a, b)
    requires Compare(bytes, RecordAt(i), target, 0) == Diff(0)
    ensures Probe(bytes, target, lo, hi) == i
    decreases hi + 1 - lo
  {
    hide Compare, AddressOf, Value, Mid, SearchBounds;
    MidInside(bytes, lo, hi);
    var mid := Mid(lo, hi);
    RecordInside(bytes, n, m, mid);
    RecordInside(bytes, n, m, i);
    CompareRecord(bytes, mid, target);
    CompareRecord(bytes, i, target);
    if mid < i {
      assert Ascending(bytes, mid, i);
      ComparedInside(bytes, RecordAt(mid), target);
      ProbeComplete(bytes, target, mid + 1, hi, i, n, m);
    } else if i < mid {
      assert Ascending(bytes, i, mid);
      ProbeComplete(bytes, target, lo, mid - 1, i, n, m);
    }
  }

  lemma {:induction false} ProbeSound(bytes: File, target: Address, lo: nat, hi: int)
    requires SearchBounds(bytes, lo, hi)
    ensures var f := Probe(bytes, target, lo, hi);
            f == -1 || (lo <= f <= hi && Compare(bytes, RecordAt(f), target, 0) == Diff(0))
    decreases hi + 1 - lo
  {
    hide Compare, Mid, SearchBounds;
    if lo > hi {
    } else {
      MidInside(bytes, lo, hi);
      var mid: int := Mid(lo, hi);
      match Compare(bytes, RecordAt(mid), target, 0)
      case NaN => ProbeSound(bytes, target, lo, mid - 1);
      case Diff(d) =>
        if d < 0 {
          ComparedInside(bytes, RecordAt(mid), target);
          ProbeSound(bytes, target, mid + 1, hi);
        } else if d > 0 {
          ProbeSound(bytes, target, lo, mid - 1);
        }
    }
  }

  lemma {:induction false} ScanNone(bytes: File, count: nat, target: Address, n: nat)
    requires forall i | 0 <= i < n :: !HasAddress(bytes, i, target)
    ensures ScanRecords(bytes, count, target, n) == []
  {
    if n == 0 {
    } else {
      ScanNone(bytes, count, target, n - 1);
    }
  }

  lemma {:induction false} ScanOne(bytes: File, count: nat, target: Address, n: nat, i: nat)
    requires i < n && HasAddress(bytes, i, target)
    requires forall j | 0 <= j < n && j != i :: !HasAddress(bytes, j, target)
    ensures ScanRecords(bytes, count, target, n) == Listed(bytes, count, i)
  {
    hide HasAddress, Listed;
    if i == n - 1 {
      ScanNone(bytes, count, target, n - 1);
    } else {
      ScanOne(bytes, count, target, n - 1, i);
    }
  }

  lemma {:induction false} DecodeSucceeds(bytes: seq<byte>, start: nat, offset: nat, count: nat)
    requires start + (offset + count) * APP_RECORD_WIDTH <= |bytes|
    ensures DecodeSlice(bytes, start, offset, count).Ok?
  {
    if count == 0 {
    } else {
      DecodeSucceeds(bytes, start, offset, count - 1);
    }
  }

  lemma ListedIsRead(bytes: File, n: nat, m: nat, i: nat)
    requires TableEnd(n, m) <= |bytes| && i < n && SliceInBounds(bytes, i, m)
    ensures AppearancesAt(bytes, n, RecordAt(i)) == Ok(Listed(bytes, n, i))
  {
    var offset, count := U32LE(bytes, RecordAt(i) + 20), U32LE(bytes, RecordAt(i) + 24);
    DecodeSucceeds(bytes, RecordAt(n), offset, count);
  }

  lemma OnlyOneRecord(bytes: File, n: nat, m: nat, target: Address, i: nat, j: nat)
    requires TableEnd(n, m) <= |bytes| && i < n && j < n && i != j
    requires forall a, b | 0 <= a < b < n :: Ascending(bytes, a, b)
    requires HasAddress(bytes, i, target)
    ensures !HasAddress(bytes, j, target)
  {
    assert if i < j then Ascending(bytes, i, j) else Ascending(bytes, j, i);
  }

  /** On a well-formed file the binary search answers what a scan of every record would. */
  lemma SearchIsScan(bytes: File, target: Address)
    requires WellFormed(bytes)
    ensures Appearances(bytes, target) == Ok(BruteForce(bytes, target))
    ensures BruteForce(bytes, target) != [] ==> Lists(bytes, target)
  {
    hide DecodeSlice, AppearancesAt, ScanRecords, Listed, Compare, Probe, RecordAt, HasAddress;
    var h := ParseChunkHeader(bytes).value;
    var n: int, m: int := h.addressCount, h.appearanceCount;
    ProbeSound(bytes, target, 0, n - 1);
    forall i: nat
      ensures Compare(bytes, RecordAt(i), target, 0) == Diff(0) <==> HasAddress(bytes, i, target)
    {
      ComparedAddress(bytes, i, target);
    }
    if i :| 0 <= i < n && HasAddress(bytes, i, target) {
      ProbeComplete(bytes, target, 0, n - 1, i, n, m);
      assert SliceInBounds(bytes, i, m);
      ListedIsRead(bytes, n, m, i);
      forall j | 0 <= j < n && j != i
        ensures !HasAddress(bytes, j, target)
      {
        OnlyOneRecord(bytes, n, m, target, i, j);
      }
      ScanOne(bytes, n, target, n, i);
    } else {
      ScanNone(bytes, n, target, n);
    }
  }

  // ----- the format, spelled out -----

  lemma HeaderSpelled(bytes: File)
    ensures ParseChunkHeader(bytes) ==
              if |bytes| < 44 then Err(TooShort)
              else if bytes[..4] != [0xef, 0xbe, 0xad, 0xde] then Err(BadMagic)
              else Ok(ChunkHeader(U32LE(bytes, 36), U32LE(bytes, 40)))
  {
    if |bytes| >= 44 {
      assert bytes[..4] == [bytes[0], bytes[1], bytes[2], bytes[3]];
    }
  }

  lemma {:induction false} SliceSpelled(bytes: seq<byte>, start: nat, offset: nat, count: nat, k: nat)
    requires start + (offset + count) * 8 <= |bytes| && k < count
    ensures DecodeSlice(bytes, start, offset, count).Ok?
    ensures var found := DecodeSlice(bytes, start, offset, count).value;
            var at := start + 8 * (offset + k);
            |found| == count && found[k] == Appearance(U32LE(bytes, at), U32LE(bytes, at + 4))
  {
    DecodeSucceeds(bytes, start, offset, count);
    if count == 1 {
    } else if k < count - 1 {
      SliceSpelled(bytes, start, offset, count - 1, k);
    } else {
      SliceSpelled(bytes, start, offset, count - 1, 0);
    }
  }

  /**
   The reference scan, from the bytes alone: the addresses start at byte 44, one every 28 bytes; after the
   twenty bytes come the offset and the length of its slice of the appearances, which are 8 bytes each.
   */
  lemma ScanSpelled(bytes: File, target: Address, i: nat)
    requires WellFormed(bytes) && i < U32LE(bytes, 36)
    requires bytes[44 + 28 * i..64 + 28 * i] == target
    ensures var offset, count := U32LE(bytes, 64 + 28 * i), U32LE(bytes, 68 + 28 * i);
            var table := 44 + 28 * U32LE(bytes, 36);
            && |BruteForce(bytes, target)| == count
            && table + 8 * (offset + count) <= |bytes|
            && forall k | 0 <= k < count ::
                 BruteForce(bytes, target)[k] ==
                 Appearance(U32LE(bytes, table + 8 * (offset + k)), U32LE(bytes, table + 8 * (offset + k) + 4))
  {
    hide DecodeSlice, ScanRecords;
    var h := ParseChunkHeader(bytes).value;
    var n, m := h.addressCount, h.appearanceCount;
    assert SliceInBounds(bytes, i, m) && HasAddress(bytes, i, target);
    forall j | 0 <= j < n && j != i
      ensures !HasAddress(bytes, j, target)
    {
      OnlyOneRecord(bytes, n, m, target, i, j);
    }
    ScanOne(bytes, n, target, n, i);
    ListedIsRead(bytes, n, m, i);
    var offset, count := U32LE(bytes, 64 + 28 * i), U32LE(bytes, 68 + 28 * i);
    if count > 0 {
      forall k | 0 <= k < count
        ensures |BruteForce(bytes, target)| == count
        ensures BruteForce(bytes, target)[k] ==
                Appearance(U32LE(bytes, 44 + 28 * n + 8 * (offset + k)), U32LE(bytes, 44 + 28 * n + 8 * (offset + k) + 4))
      {
        SliceSpelled(bytes, 44 + 28 * n, offset, count, k);
      }
      SliceSpelled(bytes, 44 + 28 * n, offset, count, 0);
    } else {
      assert DecodeSlice(bytes, 44 + 28 * n, offset, 0) == Ok([]) by { EmptySlice(bytes, 44 + 28 * n, offset); }
    }
  }

  lemma EmptySlice(bytes: seq<byte>, start: nat, offset: nat)
    ensures DecodeSlice(bytes, start, offset, 0) == Ok([])
  {
  }

  /** An address no record carries has no appearances. */
  lemma ScanSpelledEmpty(bytes: File, target: Address)
    requires WellFormed(bytes)
    requires forall i: nat | i < U32LE(bytes, 36) :: bytes[44 + 28 * i..64 + 28 * i] != target
    ensures BruteForce(bytes, target) == []
  {
    var n := ParseChunkHeader(bytes).value.addressCount;
    forall i | 0 <= i < n
      ensures !HasAddress(bytes, i, target)
    {
      assert bytes[44 + 28 * i..64 + 28 * i] != target;
    }
    ScanNone(bytes, n, target, n);
  }

  /** The addresses of two records stand in ascending order. */
  ghost predicate InOrder(bytes: seq<byte>, i: nat, j: nat)
    requires 64 + 28 * i <= |bytes| && 64 + 28 * j <= |bytes|
  {
    Value(bytes[44 + 28 * i..64 + 28 * i]) < Value(bytes[44 + 28 * j..64 + 28 * j])
  }

  /** A record's slice ends inside a table of `m` appearances. */
  predicate FitsIn(bytes: seq<byte>, i: nat, m: nat)
    requires 72 + 28 * i <= |bytes|
  {
    U32LE(bytes, 64 + 28 * i) + U32LE(bytes, 68 + 28 * i) <= m
  }

  /** A well-formed file: tables inside the file, addresses ascending, every slice inside the second table. */
  lemma WellFormedSpelled(bytes: File)
    ensures WellFormed(bytes) <==>
            && |bytes| >= 44 && bytes[..4] == [0xef, 0xbe, 0xad, 0xde]
            && var n, m := U32LE(bytes, 36), U32LE(bytes, 40);
               && 44 + 28 * n + 8 * m <= |bytes|
               && (forall i, j | 0 <= i < j < n :: InOrder(bytes, i, j))
               && (forall i | 0 <= i < n :: FitsIn(bytes, i, m))
  {
    HeaderSpelled(bytes);
    if |bytes| >= 44 {
      var n, m := U32LE(bytes, 36), U32LE(bytes, 40);
      if TableEnd(n, m) <= |bytes| {
        forall i | 0 <= i < n
          ensures SliceInBounds(bytes, i, m) <==> FitsIn(bytes, i, m)
        {
        }
        forall i, j | 0 <= i < j < n
          ensures Ascending(bytes, i, j) <==> InOrder(bytes, i, j)
        {
        }
        hide Ascending, InOrder, SliceInBounds, FitsIn;
      }
    }
  }

  lemma ListsSpelled(bytes: File, target: Address)
    requires WellFormed(bytes)
    ensures Lists(bytes, target) <==> exists i: nat | i < U32LE(bytes, 36) :: bytes[44 + 28 * i..64 + 28 * i] == target
  {
    hide Value;
    var n := U32LE(bytes, 36);
    forall i: nat | i < n
      ensures HasAddress(bytes, i, target) <==> bytes[44 + 28 * i..64 + 28 * i] == target
    {
      RecordInside(bytes, n, U32LE(bytes, 40), i);
    }
    if i: nat :| i < n && bytes[44 + 28 * i..64 + 28 * i] == target {
      assert HasAddress(bytes, i, target);
    }
  }
}
