/**
 * The fixed-width integer encoding used for the 4-byte length prefix of every
 * message, and the 32-bit integer conversions of the C++ code.
 *
 * The byte order of `endian::put4` (endian.hh is not part of this model) is
 * left open; little-endian is chosen here. Everything else in the
 * project only relies on `Decode4(Encode4(n)) == n % TWO_TO_32`.
 */
module Endian {

  const TWO_TO_31: int := 0x8000_0000
  const TWO_TO_32: int := 0x1_0000_0000

  /** One octet of a pipe's byte stream (a C++ `char` read as unsigned). */
  newtype byte = b: int | 0 <= b < 256

  /** Exactly four bytes: the width of every fixed-size field on the wire. */
  type Bytes4 = s: seq<byte> | |s| == 4 witness [0, 0, 0, 0]

  /** The C++ conversion of an arbitrary integer to a 32-bit two's complement
      pattern, read back as unsigned. */
  function ToUint32(n: int): (r: nat)
    ensures r < TWO_TO_32
    ensures 0 <= n < TWO_TO_32 ==> r == n
  {
    n % TWO_TO_32
  }

  /** The C++ conversion of an integer to a signed 32-bit `int` (wrap-around). */
  function ToInt32(n: int): (r: int)
    ensures -TWO_TO_31 <= r < TWO_TO_31
    ensures (r - n) % TWO_TO_32 == 0
    ensures -TWO_TO_31 <= n < TWO_TO_31 ==> r == n
  {
    var u := ToUint32(n);
    if u < TWO_TO_31 then u else u - TWO_TO_32
  }

  /** `endian::put4`: the 4-byte image of `n` taken modulo 2^32, least
      significant byte first. */
  function Encode4(n: int): (r: Bytes4)
  {
    var u := ToUint32(n);
    [(u % 256) as byte, ((u / 0x100) % 256) as byte,
     ((u / 0x1_0000) % 256) as byte, (u / 0x100_0000) as byte]
  }

  /** Reads a 4-byte field back as an unsigned 32-bit value. */
  function Decode4(b: Bytes4): (r: nat)
    ensures r < TWO_TO_32
  {
    b[0] as int + 0x100 * (b[1] as int + 0x100 * (b[2] as int + 0x100 * (b[3] as int)))
  }

  /** Decoding an encoded prefix gives back the value modulo 2^32. */
  lemma Decode4Encode4(n: int)
    ensures Decode4(Encode4(n)) == ToUint32(n)
    ensures 0 <= n < TWO_TO_32 ==> Decode4(Encode4(n)) == n
  {
    var u := ToUint32(n);
    var x1 := u / 0x100;
    var x2 := x1 / 0x100;
    var x3 := x2 / 0x100;
    assert u / 0x1_0000 == x2;
    assert u / 0x100_0000 == x3;
    assert x3 < 256;
    var b := Encode4(n);
    assert b[3] as int == x3;
    assert b[2] as int + 0x100 * x3 == x2;
    assert b[1] as int + 0x100 * x2 == x1;
    assert b[0] as int + 0x100 * x1 == u;
  }

  /** Two byte fields that decode to the same value are the same field. */
  lemma Encode4Decode4(b: Bytes4)
    ensures Encode4(Decode4(b)) == b
  {
    var u := Decode4(b);
    assert ToUint32(u) == u;
    var e := Encode4(u);
    assert e[0] == b[0];
    assert e[1] == b[1];
    assert e[2] == b[2];
    assert e[3] == b[3];
  }
}
