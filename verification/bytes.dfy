/** Bytes as the C program sees them when it reads a stream with fread on a
    little-endian machine: unsigned 8-bit values, and fixed-width two's-complement
    integers stored low byte first. */
module Bytes {

  newtype byte = x: int | 0 <= x < 256

  const TWO_8: int := 0x100
  const TWO_15: int := 0x8000
  const TWO_16: int := 0x1_0000
  const TWO_31: int := 0x8000_0000
  const TWO_32: int := 0x1_0000_0000

  /** The largest value of C's 32-bit `int`. */
  const INT32_MAX: int := TWO_31 - 1

  /** Reinterprets an unsigned 16-bit pattern as `int16_t` (the conversion GCC defines). */
  function Signed16(u: int): (v: int)
    requires 0 <= u < TWO_16
    ensures -TWO_15 <= v < TWO_15
    ensures (v - u) % TWO_16 == 0
  {
    if u >= TWO_15 then u - TWO_16 else u
  }

  /** Reinterprets an unsigned 32-bit pattern as `int32_t`. */
  function Signed32(u: int): (v: int)
    requires 0 <= u < TWO_32
    ensures -TWO_31 <= v < TWO_31
    ensures (v - u) % TWO_32 == 0
  {
    if u >= TWO_31 then u - TWO_32 else u
  }

  /** Unsigned value of two bytes, low byte first. */
  function U16(lo: byte, hi: byte): (u: int)
    ensures 0 <= u < TWO_16
  {
    hi as int * TWO_8 + lo as int
  }

  /** `int16_t` stored at `s[at..at+2]`. */
  function Int16At(s: seq<byte>, at: nat): (v: int)
    requires at + 2 <= |s|
    ensures -TWO_15 <= v < TWO_15
  {
    Signed16(U16(s[at], s[at + 1]))
  }

  /** `int32_t` stored at `s[at..at+4]`. */
  function Int32At(s: seq<byte>, at: nat): (v: int)
    requires at + 4 <= |s|
    ensures -TWO_31 <= v < TWO_31
  {
    Signed32(U16(s[at], s[at + 1]) + U16(s[at + 2], s[at + 3]) * TWO_16)
  }

  /** The two bytes, low first, that store the 16-bit two's-complement value `v`. */
  function EncodeInt16(v: int): (s: seq<byte>)
    requires -TWO_15 <= v < TWO_15
    ensures |s| == 2
  {
    var u := v % TWO_16;
    [(u % TWO_8) as byte, (u / TWO_8) as byte]
  }

  /** Decoding what `EncodeInt16` stored gives the value back. */
  lemma Int16RoundTrip(v: int)
    requires -TWO_15 <= v < TWO_15
    ensures Int16At(EncodeInt16(v), 0) == v
  {
    var u := v % TWO_16;
    assert U16((u % TWO_8) as byte, (u / TWO_8) as byte) == u;
  }

  /** Every byte pair is the encoding of the value it decodes to, so the 16-bit
      decoding is a bijection between byte pairs and [-32768, 32767]. */
  lemma Int16Surjective(lo: byte, hi: byte)
    ensures EncodeInt16(Signed16(U16(lo, hi))) == [lo, hi]
  {
    var u := U16(lo, hi);
    assert Signed16(u) % TWO_16 == u;
    assert u % TWO_8 == lo as int && u / TWO_8 == hi as int by {
      assert u == hi as int * TWO_8 + lo as int;
    }
  }

  /** The four bytes, low first, that store the 32-bit two's-complement value `v`. */
  function EncodeInt32(v: int): (s: seq<byte>)
    requires -TWO_31 <= v < TWO_31
    ensures |s| == 4
  {
    var u := v % TWO_32;
    var lo := u % TWO_16;
    var hi := u / TWO_16;
    [(lo % TWO_8) as byte, (lo / TWO_8) as byte, (hi % TWO_8) as byte, (hi / TWO_8) as byte]
  }

  lemma Int32RoundTrip(v: int)
    requires -TWO_31 <= v < TWO_31
    ensures Int32At(EncodeInt32(v), 0) == v
  {
    var s := EncodeInt32(v);
    var u := v % TWO_32;
    var lo := u % TWO_16;
    var hi := u / TWO_16;
    assert U16(s[0], s[1]) == lo;
    assert U16(s[2], s[3]) == hi;
    assert lo + hi * TWO_16 == u;
  }

  /** The bytes of an ASCII string literal. */
  function Ascii(s: string): (b: seq<byte>)
    requires forall i :: 0 <= i < |s| ==> s[i] as int < 128
    ensures |b| == |s|
    ensures forall i :: 0 <= i < |s| ==> b[i] as int == s[i] as int
  {
    if |s| == 0 then [] else [s[0] as int as byte] + Ascii(s[1..])
  }
}
