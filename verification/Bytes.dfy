/** Bytes in memory, fixed-width integers, and the byte order conversions of the host.

The servers run on little-endian hosts: an `int32` lies in memory with its least significant
byte first, and `htonl` reverses the four bytes.
 */
module Bytes {

  type byte = x: int | 0 <= x < 0x100

  type bytes = seq<byte>

  type uint32 = x: int | 0 <= x < 0x1_0000_0000

  type int32 = x: int | -0x8000_0000 <= x < 0x8000_0000

  type int16 = x: int | -0x8000 <= x < 0x8000

  type int8 = x: int | -0x80 <= x < 0x80

  datatype Option<+T> = None | Some(value: T)

  function Min(a: nat, b: nat): nat { if a < b then a else b }

  function Max(a: nat, b: nat): nat { if a < b then b else a }

  /** The two's complement bit pattern of a 32-bit integer. */
  function Unsigned(x: int32): uint32 {
    if x < 0 then x + 0x1_0000_0000 else x
  }

  /** The 32-bit integer with the given bit pattern. */
  function Signed(u: uint32): int32 {
    if u < 0x8000_0000 then u else u - 0x1_0000_0000
  }

  /** A narrowing cast to 16 bits, and to 8 bits. */
  function Narrow16(x: int32): int16 {
    var u := Unsigned(x) % 0x1_0000;
    if u < 0x8000 then u else u - 0x1_0000
  }

  function Narrow8(x: int32): int8 {
    var u := Unsigned(x) % 0x100;
    if u < 0x80 then u else u - 0x100
  }

  /** The four bytes of a bit pattern as they lie in memory. */
  function Memory(u: uint32): bytes {
    [u % 0x100, u / 0x100 % 0x100, u / 0x1_0000 % 0x100, u / 0x100_0000]
  }

  function FromMemory(s: bytes): uint32
    requires |s| == 4
  {
    var a: int, b: int, c: int, d: int := s[0], s[1], s[2], s[3];
    a + 0x100 * b + 0x1_0000 * c + 0x100_0000 * d
  }

  /** Network byte order: most significant byte first. */
  function NetworkOrder(x: int32): bytes {
    var m := Memory(Unsigned(x));
    [m[3], m[2], m[1], m[0]]
  }

  /** `htonl`, and also `ntohl`, on a little-endian host. */
  function SwapBytes(x: int32): int32 {
    Signed(FromMemory(NetworkOrder(x)))
  }

  /** Memory images are a bijection between 32-bit patterns and four-byte strings. */
  lemma MemoryRoundTrip(u: uint32)
    ensures FromMemory(Memory(u)) == u
  {
    assert u == u % 0x100 + 0x100 * (u / 0x100);
    assert u / 0x100 == u / 0x100 % 0x100 + 0x100 * (u / 0x1_0000);
    assert u / 0x1_0000 == u / 0x1_0000 % 0x100 + 0x100 * (u / 0x100_0000);
  }

  lemma MemoryOnto(s: bytes)
    requires |s| == 4
    ensures Memory(FromMemory(s)) == s
  {
    var u := FromMemory(s);
    var b: int, c: int, d: int := s[1], s[2], s[3];
    assert u / 0x100 == b + 0x100 * c + 0x1_0000 * d;
    assert u / 0x1_0000 == c + 0x100 * d;
    assert u / 0x100_0000 == d;
  }

  /** What `htonl` leaves in memory is the network order of its argument. */
  lemma SwapBytesMemory(x: int32)
    ensures Memory(Unsigned(SwapBytes(x))) == NetworkOrder(x)
  {
    MemoryOnto(NetworkOrder(x));
  }

  /** `ntohl` undoes `htonl`. */
  lemma SwapBytesInvolution(x: int32)
    ensures SwapBytes(SwapBytes(x)) == x
  {
    var m := Memory(Unsigned(x));
    SwapBytesMemory(x);
    assert NetworkOrder(SwapBytes(x)) == m;
    MemoryRoundTrip(Unsigned(x));
  }

  /** Network order, byte by byte: the most significant first. */
  lemma NetworkOrderIsBigEndian(x: int32)
    ensures |NetworkOrder(x)| == 4
    ensures
      var n := NetworkOrder(x);
      var a: int, b: int, c: int, d: int := n[0], n[1], n[2], n[3];
      0x100_0000 * a + 0x1_0000 * b + 0x100 * c + d == if x < 0 then x + 0x1_0000_0000 else x
  {
    MemoryRoundTrip(Unsigned(x));
  }
}
