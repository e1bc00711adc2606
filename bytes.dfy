/** Byte-level vocabulary of the SQL Server spatial decoder: bytes, unsigned
    little-endian integers, the C++ conversions between uint32 and int32,
    the opaque 64-bit double, and the integer Min and Max. */
module Bytes {

  newtype byte = x: int | 0 <= x < 256

  const TWO_31: int := 0x8000_0000
  const TWO_32: int := 0x1_0000_0000

  type UInt32 = x: int | 0 <= x < 0x1_0000_0000
  type Int32 = x: int | -0x8000_0000 <= x < 0x8000_0000

  /** The smaller and the larger of two integers. */
  function Min(a: int, b: int): int { if a <= b then a else b }
  function Max(a: int, b: int): int { if a >= b then a else b }

  /** 256 to the power n: one more than the largest n-byte unsigned value. */
  function Pow256(n: nat): (r: nat)
    ensures r >= 1
  {
    if n == 0 then 1 else 256 * Pow256(n - 1)
  }

  /** The unsigned value of s read least significant byte first. The decoder
      copies bytes into an integer with memcpy, so this assumes a
      little-endian host, which is also the byte order of the wire format. */
  function LittleEndian(s: seq<byte>): (v: nat)
    ensures v < Pow256(|s|)
  {
    if s == [] then 0 else s[0] as nat + 256 * LittleEndian(s[1..])
  }

  /** A 4-byte little-endian value spelled out. */
  lemma LittleEndian4(s: seq<byte>)
    requires |s| == 4
    ensures LittleEndian(s) == s[0] as nat + 0x100 * s[1] as nat + 0x1_0000 * s[2] as nat + 0x100_0000 * s[3] as nat
  {
    assert s[1..][1..] == s[2..];
    assert s[2..][1..] == s[3..];
    assert s[3..][1..] == [];
    assert LittleEndian(s[3..]) == s[3] as nat;
    assert LittleEndian(s[2..]) == s[2] as nat + 0x100 * s[3] as nat;
    assert LittleEndian(s[1..]) == s[1] as nat + 0x100 * s[2] as nat + 0x1_0000 * s[3] as nat;
  }

  /** The C++ conversion of a uint32 to int32 (two's complement), as in
      assigning a read_uint32 result to an int32_t field. */
  function ToInt32(u: UInt32): (r: Int32)
    ensures (r - u) % TWO_32 == 0
  {
    if u < TWO_31 then u else u - TWO_32
  }

  /** The C++ conversion of an int32 to uint32, as in comparing an int32_t
      with a uint32_t. */
  function ToUint32(i: Int32): (r: UInt32)
    ensures (r - i) % TWO_32 == 0
  {
    if i >= 0 then i else i + TWO_32
  }

  /** The two conversions are inverse to each other. */
  lemma Int32RoundTrip(u: UInt32, i: Int32)
    ensures ToUint32(ToInt32(u)) == u
    ensures ToInt32(ToUint32(i)) == i
  {
  }

  /** Comparing an int32 with a uint32 index below 2^31, as the walk does
      with a shape's ParentOffset, is plain integer equality. */
  lemma SignedUnsignedCompare(i: Int32, p: nat)
    requires p < TWO_31
    ensures ToUint32(i) == p <==> i == p
  {
  }

  /** An IEEE-754 double kept as the 64 bits it was copied from. The decoder
      never does arithmetic on coordinates, so only their bits matter. */
  datatype Float64 = Float64(bits: nat)

  /** The double 0.0, which has all bits clear; a failed read_double yields it. */
  const ZERO_DOUBLE: Float64 := Float64(0)

  /** The double whose 8 bytes are s. */
  function DoubleOfBytes(s: seq<byte>): (d: Float64)
    requires |s| == 8
    ensures d.bits < Pow256(8)
  {
    Float64(LittleEndian(s))
  }
}
