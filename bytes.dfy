/** Fixed-width integers and their in-memory byte layout.

    The runtime copies native values into a raw byte buffer with memcpy, so
    their layout is the host's. This model fixes the host as a 64-bit,
    little-endian machine with 32-bit two's-complement `int`. */
module Bytes {

  /** An unsigned char. */
  type Byte = x: int | 0 <= x < 256

  const Two32: int := 0x1_0000_0000
  const Two64: int := 0x1_0000_0000_0000_0000

  /** A C `int`. */
  type Int32 = x: int | -0x8000_0000 <= x < 0x8000_0000

  /** A C `unsigned`. */
  type Uint32 = x: int | 0 <= x < 0x1_0000_0000

  /** A pointer-width address; 0 is NULL. */
  type Address = x: int | 0 <= x < 0x1_0000_0000_0000_0000

  const Null: Address := 0

  function Pow256(n: nat): (r: nat)
    ensures r >= 1
  {
    if n == 0 then 1 else 256 * Pow256(n - 1)
  }

  /** The `width` low-order bytes of `n`, least significant first. */
  function EncodeLE(n: nat, width: nat): (b: seq<Byte>)
    ensures |b| == width
  {
    if width == 0 then [] else [n % 256] + EncodeLE(n / 256, width - 1)
  }

  /** The unsigned value of a little-endian byte string. */
  function DecodeLE(b: seq<Byte>): (n: nat)
    ensures n < Pow256(|b|)
  {
    if b == [] then 0 else b[0] + 256 * DecodeLE(b[1..])
  }

  lemma {:induction false} DecodeEncodeLE(n: nat, width: nat)
    requires n < Pow256(width)
    ensures DecodeLE(EncodeLE(n, width)) == n
  {
    if width > 0 {
      var b := EncodeLE(n, width);
      assert b[1..] == EncodeLE(n / 256, width - 1);
      DecodeEncodeLE(n / 256, width - 1);
    }
  }

  lemma {:induction false} EncodeDecodeLE(b: seq<Byte>)
    ensures EncodeLE(DecodeLE(b), |b|) == b
  {
    if b != [] {
      var n := DecodeLE(b);
      assert n % 256 == b[0] && n / 256 == DecodeLE(b[1..]);
      EncodeDecodeLE(b[1..]);
    }
  }

  /** The four bytes memcpy takes from an `int`. */
  function EncodeInt32(v: Int32): (b: seq<Byte>)
    ensures |b| == 4
    ensures DecodeLE(b) == v % Two32  // two's complement
  {
    var u := if v < 0 then v + Two32 else v;
    assert Pow256(4) == Two32;
    DecodeEncodeLE(u, 4);
    EncodeLE(u, 4)
  }

  /** The `int` that memcpy rebuilds from four bytes. */
  function DecodeInt32(b: seq<Byte>): (v: Int32)
    requires |b| == 4
    ensures v % Two32 == DecodeLE(b)  // two's complement
  {
    var u := DecodeLE(b);
    assert Pow256(4) == Two32;
    if u < 0x8000_0000 then u else u - Two32
  }

  lemma Int32RoundTrip(v: Int32)
    ensures DecodeInt32(EncodeInt32(v)) == v
  {
    assert Pow256(4) == Two32;
    DecodeEncodeLE(if v < 0 then v + Two32 else v, 4);
  }

  lemma Int32BytesRoundTrip(b: seq<Byte>)
    requires |b| == 4
    ensures EncodeInt32(DecodeInt32(b)) == b
  {
    assert Pow256(4) == Two32;
    EncodeDecodeLE(b);
  }

  /** The eight bytes memcpy takes from a pointer. */
  function EncodeAddress(p: Address): (b: seq<Byte>)
    ensures |b| == 8
    ensures DecodeLE(b) == p
  {
    assert Pow256(8) == Two64;
    DecodeEncodeLE(p, 8);
    EncodeLE(p, 8)
  }

  /** The pointer that memcpy rebuilds from eight bytes. */
  function DecodeAddress(b: seq<Byte>): (p: Address)
    requires |b| == 8
    ensures EncodeLE(p, 8) == b
  {
    EncodeDecodeLE(b);
    assert Pow256(8) == Two64;
    DecodeLE(b)
  }

  lemma AddressRoundTrip(p: Address)
    ensures DecodeAddress(EncodeAddress(p)) == p
  {
    assert Pow256(8) == Two64;
    DecodeEncodeLE(p, 8);
  }

  lemma AddressBytesRoundTrip(b: seq<Byte>)
    requires |b| == 8
    ensures EncodeAddress(DecodeAddress(b)) == b
  {
    EncodeDecodeLE(b);
  }

  lemma EncodeInt32Injective(x: Int32, y: Int32)
    ensures EncodeInt32(x) == EncodeInt32(y) <==> x == y
  {
    Int32RoundTrip(x);
    Int32RoundTrip(y);
  }

  lemma EncodeAddressInjective(p: Address, q: Address)
    ensures EncodeAddress(p) == EncodeAddress(q) <==> p == q
  {
    AddressRoundTrip(p);
    AddressRoundTrip(q);
  }
}
