/** Decoding of one second of PCM bytes into samples (the loop at main.c:293-310).
    The divisions are by powers of two and therefore exact, so samples are `real`s. */
module Pcm {
  import opened Bytes

  /** `(bitspersample / 8) * samplerate`: the bytes requested per read. */
  function BytesPerSecond(rate: int, bits: int): (n: int)
    ensures bits == 8 ==> n == rate
    ensures bits == 16 ==> n == 2 * rate
  {
    (bits / 8) * rate
  }

  /** `1 << (bitspersample - 1)`: 128 for 8-bit and 32768 for 16-bit samples. */
  function Scale(bits: int): (d: real)
    requires bits == 8 || bits == 16
    ensures d > 0.0
  {
    if bits == 8 then 128.0 else 32768.0
  }

  /** One 8-bit sample: the unsigned byte divided by 128, not re-centred around 128. */
  function Sample8(b: byte): real {
    b as real / Scale(8)
  }

  /** One 16-bit sample: low byte then high byte as `int16_t`, divided by 32768. */
  function Sample16(lo: byte, hi: byte): real {
    Signed16(U16(lo, hi)) as real / Scale(16)
  }

  /** Sample `i` of the buffer; 16-bit samples occupy bytes `2i` and `2i+1`. */
  function SampleAt(buffer: seq<byte>, bits: int, i: nat): real
    requires bits == 8 || bits == 16
    requires (bits / 8) * (i + 1) <= |buffer|
  {
    if bits == 8 then Sample8(buffer[i]) else Sample16(buffer[2 * i], buffer[2 * i + 1])
  }

  /** The `samplerate` samples decoded from a buffer of exactly `bytespersec` bytes. The
      index checks on this definition are the claim that no byte at or past
      `bytespersec` is read. */
  function DecodeFrame(buffer: seq<byte>, rate: nat, bits: int): (frame: seq<real>)
    requires bits == 8 || bits == 16
    requires |buffer| == BytesPerSecond(rate, bits)
    ensures |frame| == rate
  {
    seq(rate, i requires 0 <= i < rate => SampleAt(buffer, bits, i))
  }

  /** Little-endian 16-bit encoding of a sequence of sample values: value `i` occupies
      bytes `2i` and `2i+1`. */
  function EncodeFrame16(vs: seq<int>): (b: seq<byte>)
    requires forall i :: 0 <= i < |vs| ==> -TWO_15 <= vs[i] < TWO_15
    ensures |b| == 2 * |vs|
  {
    seq(2 * |vs|, j requires 0 <= j < 2 * |vs| => EncodeInt16(vs[j / 2])[j % 2])
  }

  /** A 16-bit stream carrying the values `vs` decodes to `v / 32768` for each value. */
  lemma Decode16RoundTrip(vs: seq<int>)
    requires forall i :: 0 <= i < |vs| ==> -TWO_15 <= vs[i] < TWO_15
    ensures DecodeFrame(EncodeFrame16(vs), |vs|, 16)
            == seq(|vs|, i requires 0 <= i < |vs| => vs[i] as real / 32768.0)
  {
    var b := EncodeFrame16(vs);
    var f := DecodeFrame(b, |vs|, 16);
    var want := seq(|vs|, i requires 0 <= i < |vs| => vs[i] as real / 32768.0);
    forall i | 0 <= i < |vs|
      ensures f[i] == want[i]
    {
      EncodedSample(vs, i);
    }
    assert f == want;
  }

  lemma EncodedSample(vs: seq<int>, i: nat)
    requires forall i :: 0 <= i < |vs| ==> -TWO_15 <= vs[i] < TWO_15
    requires i < |vs|
    ensures SampleAt(EncodeFrame16(vs), 16, i) == vs[i] as real / 32768.0
  {
    var b := EncodeFrame16(vs);
    assert b[2 * i] == EncodeInt16(vs[i])[0] && b[2 * i + 1] == EncodeInt16(vs[i])[1];
    Int16RoundTrip(vs[i]);
  }

  /** An 8-bit stream decodes byte for byte to `b / 128`, so every 8-bit sample lies in
      [0, 2) rather than in the [-1, 1) a re-centred decoder would give. */
  lemma Decode8Range(buffer: seq<byte>)
    ensures forall i :: 0 <= i < |buffer| ==>
      DecodeFrame(buffer, |buffer|, 8)[i] == buffer[i] as real / 128.0
      && 0.0 <= DecodeFrame(buffer, |buffer|, 8)[i] < 2.0
  {
  }

  /** Every 16-bit sample lies in [-1, 1). */
  lemma Decode16Range(buffer: seq<byte>, rate: nat)
    requires |buffer| == 2 * rate
    ensures forall i :: 0 <= i < rate ==> -1.0 <= DecodeFrame(buffer, rate, 16)[i] < 1.0
  {
  }
}
