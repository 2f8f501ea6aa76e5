/**
 Bytes, fixed-width integers and the big-endian packing used by both framings.

 A byte is the unsigned value of a `char`; every macro of the source masks with 0xff, so the sign of
 `char` is visible only where a packet type is read back (see `SignedChar`).
 */
module Bytes {

  type byte = x: int | 0 <= x < 256

  const U16 := 0x1_0000
  const U32 := 0x1_0000_0000

  /** The value range of the source's 32-bit `int`. */
  predicate IsInt32(v: int) {
    -0x8000_0000 <= v < 0x8000_0000
  }

  /** A `char` holding the byte, as the signed value the source compares packet types with. */
  function SignedChar(b: byte): int {
    if b < 128 then b else b - 256
  }

  function Pack16(v: int): (b: seq<byte>)
    ensures |b| == 2
  {
    [v / 0x100 % 0x100, v % 0x100]
  }

  function Unpack16(b: seq<byte>): int
    requires |b| >= 2
  {
    (b[0] as int) * 0x100 + (b[1] as int)
  }

  function Pack32(v: int): (b: seq<byte>)
    ensures |b| == 4
  {
    [v / 0x100_0000 % 0x100, v / 0x1_0000 % 0x100, v / 0x100 % 0x100, v % 0x100]
  }

  /** The four bytes are summed as an unsigned 32-bit value and then converted to `int`. */
  function Unpack32(b: seq<byte>): int
    requires |b| >= 4
  {
    var u := (b[0] as int) * 0x100_0000 + (b[1] as int) * 0x1_0000 + (b[2] as int) * 0x100 + (b[3] as int);
    if u < 0x8000_0000 then u else u - U32
  }

  /** Packing keeps exactly the low 16 bits, whatever follows the packed field. */
  lemma Unpack16Pack16(v: int, rest: seq<byte>)
    ensures Unpack16(Pack16(v) + rest) == v % U16
  {
    assert (Pack16(v) + rest)[0] == v / 0x100 % 0x100;
    assert (Pack16(v) + rest)[1] == v % 0x100;
  }

  /** The four base-256 digits of a value and what is above them. */
  lemma Digits(v: int)
    ensures v == v / 0x100_0000 * 0x100_0000 + v / 0x1_0000 % 0x100 * 0x1_0000 + v / 0x100 % 0x100 * 0x100 + v % 0x100
  {
    assert v / 0x1_0000 == v / 0x100 / 0x100;
    assert v / 0x100_0000 == v / 0x1_0000 / 0x100;
  }

  /** Every `int`, negative ones included, survives the four-byte packing. */
  lemma Unpack32Pack32(v: int, rest: seq<byte>)
    requires IsInt32(v)
    ensures Unpack32(Pack32(v) + rest) == v
  {
    Digits(v);
    var b, top := Pack32(v) + rest, v / 0x100_0000;
    assert -0x80 <= top < 0x80;
    assert b[0] == top % 0x100 == if top < 0 then top + 0x100 else top;
    assert b[1] == v / 0x1_0000 % 0x100 && b[2] == v / 0x100 % 0x100 && b[3] == v % 0x100;
  }

  /** Two bytes, the high one first, are the low 16 bits; and every two bytes are packed from what they unpack to. */
  lemma Pack16Digits(v: int, b: seq<byte>)
    ensures (Pack16(v)[0] as int) * 256 + (Pack16(v)[1] as int) == v % 65536
    ensures |b| >= 2 ==> 0 <= Unpack16(b) < U16 && Pack16(Unpack16(b)) == b[..2]
  {
    assert v == v / 256 * 256 + v % 256;
  }

  /** Four bytes, the highest first, are the value modulo 2^32; and four bytes are packed from what they unpack to. */
  lemma Pack32Digits(v: int, b: seq<byte>)
    ensures var p := Pack32(v);
            (p[0] as int) * 16777216 + (p[1] as int) * 65536 + (p[2] as int) * 256 + (p[3] as int) == v % 4294967296
    ensures |b| >= 4 ==> IsInt32(Unpack32(b)) && Pack32(Unpack32(b)) == b[..4]
  {
    TopDigits(v);
    if |b| >= 4 {
      var u := (b[0] as int) * 16777216 + (b[1] as int) * 65536 + (b[2] as int) * 256 + (b[3] as int);
      Digits4(b[0], b[1], b[2], b[3], 0);
      Digits4(b[0], b[1], b[2], b[3], -1);
      assert Unpack32(b) == u || Unpack32(b) == u - U32;
    }
  }

  lemma TopDigits(v: int)
    ensures v / 16777216 % 256 * 16777216 + v / 65536 % 256 * 65536 + v / 256 % 256 * 256 + v % 256 == v % 4294967296
  {
    Digits(v);
    var top := v / 16777216;
    assert top == top / 256 * 256 + top % 256;
    assert v == (top / 256) * 4294967296 +
                (top % 256 * 16777216 + v / 65536 % 256 * 65536 + v / 256 % 256 * 256 + v % 256);
  }

  /** The digits of a number are its bytes, whatever multiple of 2^32 is added. */
  lemma Digits4(a: byte, b: byte, c: byte, d: byte, k: int)
    ensures Pack32(a * 16777216 + b * 65536 + c * 256 + d + k * 4294967296) == [a, b, c, d]
  {
    var v := a * 16777216 + b * 65536 + c * 256 + d + k * 4294967296;
    assert v == (((a + k * 256) * 256 + b) * 256 + c) * 256 + d;
    assert v / 256 == ((a + k * 256) * 256 + b) * 256 + c && v % 256 == d;
    assert v / 65536 == v / 256 / 256 == (a + k * 256) * 256 + b;
    assert v / 16777216 == v / 65536 / 256 == a + k * 256;
  }
}
