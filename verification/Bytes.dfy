/** Bytes, files and the fixed-width reads of a `DataView`. */
module Bytes {
  import opened Arithmetic
  import opened Wrappers

  newtype byte = x: int | 0 <= x < 256

  /** No engine makes a typed array longer than this. */
  const MAX_TYPED_ARRAY_LENGTH: nat := 0x2_0000_0000
  const TWO_TO_32: nat := 0x1_0000_0000

  type File = f: seq<byte> | |f| <= MAX_TYPED_ARRAY_LENGTH

  /** Why a file could not be turned into answers. */
  datatype ReadError = FetchFailed | TooShort | BadMagic | OutOfBounds

  function U16LE(f: seq<byte>, i: nat): (n: nat)
    requires i + 2 <= |f|
  {
    f[i] as nat + 0x100 * f[i + 1] as nat
  }

  function U32LE(f: seq<byte>, i: nat): (n: nat)
    requires i + 4 <= |f|
    ensures n < TWO_TO_32
  {
    f[i] as nat + 0x100 * f[i + 1] as nat + 0x1_0000 * f[i + 2] as nat + 0x100_0000 * f[i + 3] as nat
  }

  function U32BE(f: seq<byte>, i: nat): (n: nat)
    requires i + 4 <= |f|
    ensures n < TWO_TO_32
  {
    0x100_0000 * f[i] as nat + 0x1_0000 * f[i + 1] as nat + 0x100 * f[i + 2] as nat + f[i + 3] as nat
  }

  /** A read past the end throws. */
  function ReadU32LE(f: seq<byte>, i: nat): (r: Result<nat, ReadError>)
    ensures r.Ok? <==> i + 4 <= |f|
    ensures r.Ok? ==> r.value == U32LE(f, i)
    ensures r.Err? ==> r.error == OutOfBounds
  {
    if i + 4 <= |f| then Ok(U32LE(f, i)) else Err(OutOfBounds)
  }

  const ADDRESS_WIDTH: nat := 20

  type Address = a: seq<byte> | |a| == ADDRESS_WIDTH
    witness seq(ADDRESS_WIDTH, i => 0)

  // ----- big-endian order -----

  function Radix(n: nat): nat {
    if n == 0 then 1 else 256 * Radix(n - 1)
  }

  /** Big-endian value: the order in which the address table is sorted. */
  function Value(s: seq<byte>): nat {
    if s == [] then 0 else s[0] as nat * Radix(|s| - 1) + Value(s[1..])
  }

  lemma {:induction false} ValueBounded(s: seq<byte>)
    ensures Value(s) < Radix(|s|)
  {
    if s == [] {
    } else {
      ValueBounded(s[1..]);
      HeadBelow(s[0] as nat, Radix(|s| - 1));
    }
  }

  lemma HeadBelow(d: nat, r: nat)
    requires d <= 255
    ensures d * r <= 255 * r
  {
    MulMonotone(d, 255, r);
  }

  lemma HeadDecides(a: seq<byte>, b: seq<byte>)
    requires |a| == |b| > 0 && a[0] < b[0]
    ensures Value(a) < Value(b)
  {
    var r := Radix(|a| - 1);
    ValueBounded(a[1..]);
    ProductStep(a[0] as nat, b[0] as nat, r);
  }

  lemma ProductStep(c: nat, d: nat, r: nat)
    requires c < d
    ensures c * r + r <= d * r
  {
    MulMonotone(c + 1, d, r);
    assert (c + 1) * r == c * r + r;
  }

  /** A number stored low byte first is read back. */
  lemma LittleEndianRead(f: seq<byte>, i: nat, n: nat)
    requires i + 4 <= |f| && n < 0x1_0000_0000
    requires f[i] as nat == n % 256 && f[i + 1] as nat == n / 256 % 256
    requires f[i + 2] as nat == n / 256 / 256 % 256 && f[i + 3] as nat == n / 256 / 256 / 256
    ensures U32LE(f, i) == n
    ensures n < 65536 ==> U16LE(f, i) == n
  {
  }

  /** A word read high byte first is its big-endian value, the low-byte-first word of the reverse. */
  lemma BigEndianRead(f: seq<byte>, i: nat)
    requires i + 4 <= |f|
    ensures U32BE(f, i) == U32LE([f[i + 3], f[i + 2], f[i + 1], f[i]], 0) == Value(f[i..i + 4])
  {
    var w := f[i..i + 4];
    assert w[1..] == [f[i + 1], f[i + 2], f[i + 3]];
    assert w[1..][1..] == [f[i + 2], f[i + 3]];
    assert w[1..][1..][1..] == [f[i + 3]];
    var v3 := Value(w[1..][1..][1..]);
    assert w[1..][1..][1..][1..] == [];
    assert v3 == f[i + 3] as nat * Radix(0) + Value([]);
    var v2 := Value(w[1..][1..]);
    assert v2 == f[i + 2] as nat * Radix(1) + v3;
    var v1 := Value(w[1..]);
    assert v1 == f[i + 1] as nat * Radix(2) + v2;
    assert Value(w) == w[0] as nat * Radix(3) + v1;
    assert Radix(1) == 256 && Radix(2) == 65536 && Radix(3) == 16777216;
  }
}
