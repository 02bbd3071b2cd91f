/** Bloom files of the Unchained Index: header, five bits an address, membership. */
module Bloom {
  import opened Arithmetic
  import opened Wrappers
  import opened Bytes

  const BLOOM_MAGIC: nat := 0xdead
  const HEADER_SIZE: nat := 34
  const COUNT_SIZE: nat := 4
  const N_INSERTED_SIZE: nat := 4
  const BLOOM_WIDTH_IN_BITS: nat := 1048576
  const BLOOM_WIDTH_IN_BYTES: nat := BLOOM_WIDTH_IN_BITS / 8
  const BITS_PER_ADDRESS: nat := 5

  /** The header is validated; the body is not looked at. */
  datatype BloomFilter = BloomFilter(count: nat, bytes: File)

  function ParseBloom(bytes: File): (r: Result<BloomFilter, ReadError>)
    ensures r.Ok? <==> |bytes| >= HEADER_SIZE + COUNT_SIZE && U16LE(bytes, 0) == BLOOM_MAGIC
    ensures r.Ok? ==> r.value == BloomFilter(U32LE(bytes, HEADER_SIZE), bytes)
  {
    if |bytes| < HEADER_SIZE + COUNT_SIZE then Err(TooShort)
    else if U16LE(bytes, 0) != BLOOM_MAGIC then Err(BadMagic)
    else Ok(BloomFilter(U32LE(bytes, HEADER_SIZE), bytes))
  }

  function BitOf(address: Address, i: nat): (bit: nat)
    requires i < BITS_PER_ADDRESS
    ensures bit < BLOOM_WIDTH_IN_BITS
  {
    U32BE(address, 4 * i) % BLOOM_WIDTH_IN_BITS
  }

  function Bits(address: Address): (bits: seq<nat>)
    ensures |bits| == BITS_PER_ADDRESS
    ensures forall i | 0 <= i < |bits| :: bits[i] == BitOf(address, i) < BLOOM_WIDTH_IN_BITS
  {
    seq(BITS_PER_ADDRESS, i requires 0 <= i < BITS_PER_ADDRESS => BitOf(address, i))
  }

  method AddressToBits(address: Address) returns (bits: seq<nat>)
    ensures bits == Bits(address)
  {
    bits := [];
    var i := 0;
    while i < ADDRESS_WIDTH
      invariant 0 <= i <= ADDRESS_WIDTH && i == 4 * |bits|
      invariant |bits| <= BITS_PER_ADDRESS
      invariant forall j | 0 <= j < |bits| :: bits[j] == BitOf(address, j)
    {
      bits := bits + [U32BE(address, i) % BLOOM_WIDTH_IN_BITS];
      i := i + 4;
    }
  }

  /** A byte past the end of the file reads as no bits set. */
  function ByteAt(bytes: seq<byte>, i: nat): nat {
    if i < |bytes| then bytes[i] as nat else 0
  }

  /** Bytes are stored in reverse within a body. */
  predicate IsBitLit(bytes: seq<byte>, bodyStart: nat, bit: nat)
    requires bit < BLOOM_WIDTH_IN_BITS
  {
    var which := bit / 8;
    var index := BLOOM_WIDTH_IN_BYTES - which - 1;
    var whence := bit % 8;
    PowPositive(2, whence);
    (ByteAt(bytes, bodyStart + index) / Pow(2, whence)) % 2 != 0
  }

  /** Where the body of sub-filter `j` starts. */
  function BodyStart(j: nat): nat {
    HEADER_SIZE + COUNT_SIZE + N_INSERTED_SIZE + j * (BLOOM_WIDTH_IN_BYTES + N_INSERTED_SIZE)
  }

  predicate AllLit(bytes: seq<byte>, bodyStart: nat, bits: seq<nat>)
    requires forall i | 0 <= i < |bits| :: bits[i] < BLOOM_WIDTH_IN_BITS
  {
    forall i | 0 <= i < |bits| :: IsBitLit(bytes, bodyStart, bits[i])
  }

  /** Some sub-filter holds all five bits of the address. */
  predicate Covers(bloom: BloomFilter, address: Address) {
    exists j | 0 <= j < bloom.count :: AllLit(bloom.bytes, BodyStart(j), Bits(address))
  }

  method MightContain(bloom: BloomFilter, address: Address) returns (might: bool)
    ensures might <==> Covers(bloom, address)
  {
    hide IsBitLit;
    var bits := AddressToBits(address);
    var bodyStart := HEADER_SIZE + COUNT_SIZE + N_INSERTED_SIZE;
    for j := 0 to bloom.count
      invariant bodyStart == BodyStart(j)
      invariant forall k | 0 <= k < j :: !AllLit(bloom.bytes, BodyStart(k), bits)
    {
      if AllLit(bloom.bytes, bodyStart, bits) {
        return true;
      }
      bodyStart := bodyStart + BLOOM_WIDTH_IN_BYTES + N_INSERTED_SIZE;
    }
    return false;
  }

  /** A truncated body can only hide addresses: cutting the file never adds a match. */
  lemma TruncationOnlyHides(bloom: BloomFilter, n: nat, address: Address)
    requires n <= |bloom.bytes|
    requires Covers(BloomFilter(bloom.count, bloom.bytes[..n]), address)
    ensures Covers(bloom, address)
  {
    hide IsBitLit;
    var bits := Bits(address);
    var j :| 0 <= j < bloom.count && AllLit(bloom.bytes[..n], BodyStart(j), bits);
    forall i | 0 <= i < |bits|
      ensures IsBitLit(bloom.bytes, BodyStart(j), bits[i])
    {
      assert IsBitLit(bloom.bytes[..n], BodyStart(j), bits[i]);
      CutBitStays(bloom.bytes, n, BodyStart(j), bits[i]);
    }
  }

  lemma CutBitStays(bytes: seq<byte>, n: nat, bodyStart: nat, bit: nat)
    requires n <= |bytes| && bit < BLOOM_WIDTH_IN_BITS
    requires IsBitLit(bytes[..n], bodyStart, bit)
    ensures IsBitLit(bytes, bodyStart, bit)
  {
    PowPositive(2, bit % 8);
    DivZero(Pow(2, bit % 8));
  }

  lemma DivZero(p: nat)
    requires p > 0
    ensures 0 / p == 0
  {
  }

  // ----- the format, spelled out -----

  lemma HeaderSpelled(bytes: File)
    ensures ParseBloom(bytes) ==
              if |bytes| < 38 then Err(TooShort)
              else if bytes[0] != 0xad || bytes[1] != 0xde then Err(BadMagic)
              else Ok(BloomFilter(U32LE(bytes, 34), bytes))
  {
    if |bytes| >= 38 && U16LE(bytes, 0) == 0xdead {
      assert bytes[0] as nat == 0xdead % 256;
    }
  }

  /** Bit `b` of a number. */
  function Bit(n: nat, b: nat): nat {
    if b == 0 then n % 2 else Bit(n / 2, b - 1)
  }

  /** A whole body; a file that ends early reads as zeros. */
  function Body(bytes: seq<byte>, start: nat): (body: seq<byte>)
    ensures |body| == 131072
  {
    seq(131072, i requires i >= 0 => if start + i < |bytes| then bytes[start + i] else 0)
  }

  lemma {:induction false} BitIsQuotient(n: nat, b: nat)
    ensures Pow(2, b) > 0 && Bit(n, b) == n / Pow(2, b) % 2
  {
    if b == 0 {
    } else {
      BitIsQuotient(n / 2, b - 1);
      HalveFirst(n, Pow(2, b - 1));
    }
  }

  lemma HalveFirst(n: nat, p: nat)
    requires p > 0
    ensures n / 2 / p == n / (p * 2)
  {
    var q := n / 2 / p;
    DivBounds(n / 2, p);
    DivLeast(n, p * 2, q);
    DivLeast(n, p * 2, q + 1);
    assert q * (p * 2) == 2 * (p * q) && (q + 1) * (p * 2) == 2 * (p * q) + 2 * p;
  }

  /** The low `k` bits and the bits above them. */
  lemma {:induction false} BitSplits(hi: nat, lo: nat, k: nat, b: nat)
    requires lo < Pow(2, k)
    ensures Bit(hi * Pow(2, k) + lo, b) == if b < k then Bit(lo, b) else Bit(hi, b - k)
  {
    if k == 0 {
    } else {
      var p := hi * Pow(2, k - 1);
      assert hi * Pow(2, k) == 2 * p;
      if b > 0 {
        BitSplits(hi, lo / 2, k - 1, b - 1);
        assert (2 * p + lo) / 2 == p + lo / 2;
      }
    }
  }

  lemma {:induction false} ValueSnoc(s: seq<byte>)
    requires s != []
    ensures Value(s) == 256 * Value(s[..|s| - 1]) + s[|s| - 1] as nat
  {
    var n := |s| - 1;
    if n == 0 {
      assert s[1..] == [];
    } else {
      ValueSnoc(s[1..]);
      assert s[1..][..n - 1] == s[..n][1..];
      assert Radix(n) == 256 * Radix(n - 1);
      assert s[0] as nat * Radix(n) == 256 * (s[0] as nat * Radix(n - 1));
    }
  }

  /** Counted from the low end, byte `b / 8` holds bit `b` of a big-endian number. */
  lemma {:induction false} BitOfValue(s: seq<byte>, b: nat)
    requires b < 8 * |s|
    ensures Bit(Value(s), b) == Bit(s[|s| - 1 - b / 8] as nat, b % 8)
  {
    var n := |s| - 1;
    ValueSnoc(s);
    assert Pow(2, 8) == 256 by {
      assert Pow(2, 4) == 16;
    }
    BitSplits(Value(s[..n]), s[n] as nat, 8, b);
    if b >= 8 {
      BitOfValue(s[..n], b - 8);
    }
  }

  /** A bit is lit exactly when the body, read as one big-endian number, has it. */
  lemma LitIsBitOfBody(bytes: seq<byte>, start: nat, bit: nat)
    requires bit < 1048576
    ensures IsBitLit(bytes, start, bit) <==> Bit(Value(Body(bytes, start)), bit) == 1
  {
    hide Value, Bit, Pow;
    var body := Body(bytes, start);
    BitOfValue(body, bit);
    var at := 131071 - bit / 8;
    assert body[at] as nat == ByteAt(bytes, start + at);
    BitIsQuotient(body[at] as nat, bit % 8);
  }

  /** The low twenty bits of the big-endian word at `4 * i`. */
  function TwentyBits(address: Address, i: nat): nat
    requires i < 5
  {
    address[4 * i + 1] as nat % 16 * 65536 + address[4 * i + 2] as nat * 256 + address[4 * i + 3] as nat
  }

  /** A sub-filter, read as one big-endian number, has all five of the address's bits. */
  ghost predicate HasFive(bytes: seq<byte>, start: nat, address: Address) {
    forall i | 0 <= i < 5 :: Bit(Value(Body(bytes, start)), TwentyBits(address, i)) == 1
  }

  /** Membership, from the bytes alone: sub-filters follow a 42-byte header, one every 131076 bytes. */
  lemma CoversSpelled(bloom: BloomFilter, address: Address)
    ensures Covers(bloom, address)
            <==> exists j | 0 <= j < bloom.count :: HasFive(bloom.bytes, 42 + 131076 * j, address)
  {
    hide IsBitLit, Bit, HasFive;
    if j :| 0 <= j < bloom.count && AllLit(bloom.bytes, BodyStart(j), Bits(address)) {
      FiveLit(bloom.bytes, 42 + 131076 * j, address);
    }
    if j :| 0 <= j < bloom.count && HasFive(bloom.bytes, 42 + 131076 * j, address) {
      FiveLit(bloom.bytes, BodyStart(j), address);
    }
  }

  lemma FiveLit(bytes: seq<byte>, start: nat, address: Address)
    ensures AllLit(bytes, start, Bits(address)) <==> HasFive(bytes, start, address)
  {
    hide IsBitLit, Bit, Value, Body, BitOf;
    var bits := Bits(address);
    forall i | 0 <= i < 5
      ensures bits[i] == TwentyBits(address, i)
      ensures IsBitLit(bytes, start, bits[i]) <==> Bit(Value(Body(bytes, start)), TwentyBits(address, i)) == 1
    {
      WordBits(address, i);
      LitIsBitOfBody(bytes, start, bits[i]);
    }
  }

  lemma WordBits(address: Address, i: nat)
    requires i < 5
    ensures BitOf(address, i) == TwentyBits(address, i)
  {
  }
}
