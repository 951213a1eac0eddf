/** The 44-byte canonical RIFF/WAVE PCM header (a "RIFF" chunk of form "WAVE" whose
    first sub-chunk is a 16-byte "fmt " chunk), read raw from the stream into the
    packed `t_RIFF_header` struct, and the check the program applies to it. */
module Riff {
  import opened Bytes
  import opened Settings

  const HEADER_SIZE: nat := 44

  /** `t_RIFF_header`: three 4-byte tags and the integer fields in file order. */
  datatype Header = Header(
    chunkId: seq<byte>, chunkSize: int, format: seq<byte>,
    subchunk1Id: seq<byte>, subchunk1Size: int, audioFormat: int, numChannels: int,
    sampleRate: int, byteRate: int, blockAlign: int, bitsPerSample: int,
    subchunk2Id: int, subchunk2Size: int)

  predicate Is16(v: int) { -TWO_15 <= v < TWO_15 }
  predicate Is32(v: int) { -TWO_31 <= v < TWO_31 }

  /** A header that fits the struct: 4-byte tags and fields within their C types. */
  predicate Representable(h: Header) {
    && |h.chunkId| == 4 && |h.format| == 4 && |h.subchunk1Id| == 4
    && Is32(h.chunkSize) && Is32(h.subchunk1Size) && Is16(h.audioFormat) && Is16(h.numChannels)
    && Is32(h.sampleRate) && Is32(h.byteRate) && Is16(h.blockAlign) && Is16(h.bitsPerSample)
    && Is32(h.subchunk2Id) && Is32(h.subchunk2Size)
  }

  /** The struct as laid out in memory after `fread` of 44 bytes (no padding: every
      field sits at a multiple of its own size). */
  function ParseHeader(b: seq<byte>): (h: Header)
    requires |b| == HEADER_SIZE
    ensures Representable(h)
  {
    Header(b[0..4], Int32At(b, 4), b[8..12], b[12..16], Int32At(b, 16),
           Int16At(b, 20), Int16At(b, 22), Int32At(b, 24), Int32At(b, 28),
           Int16At(b, 32), Int16At(b, 34), Int32At(b, 36), Int32At(b, 40))
  }

  /** The 44 bytes a writer puts on the stream for header `h`. */
  function EncodeHeader(h: Header): (b: seq<byte>)
    requires Representable(h)
    ensures |b| == HEADER_SIZE
  {
    h.chunkId + EncodeInt32(h.chunkSize) + h.format + h.subchunk1Id + EncodeInt32(h.subchunk1Size)
    + EncodeInt16(h.audioFormat) + EncodeInt16(h.numChannels)
    + EncodeInt32(h.sampleRate) + EncodeInt32(h.byteRate)
    + EncodeInt16(h.blockAlign) + EncodeInt16(h.bitsPerSample)
    + EncodeInt32(h.subchunk2Id) + EncodeInt32(h.subchunk2Size)
  }

  lemma Int16Field(b: seq<byte>, at: nat, v: int)
    requires Is16(v) && at + 2 <= |b| && b[at..at + 2] == EncodeInt16(v)
    ensures Int16At(b, at) == v
  {
    Int16RoundTrip(v);
    assert b[at] == EncodeInt16(v)[0] && b[at + 1] == EncodeInt16(v)[1];
  }

  lemma Int32Field(b: seq<byte>, at: nat, v: int)
    requires Is32(v) && at + 4 <= |b| && b[at..at + 4] == EncodeInt32(v)
    ensures Int32At(b, at) == v
  {
    Int32RoundTrip(v);
    var e := EncodeInt32(v);
    assert b[at] == e[0] && b[at + 1] == e[1] && b[at + 2] == e[2] && b[at + 3] == e[3];
  }

  /** Reading back the bytes of an encoded header gives the same header: the field
      offsets of the packed struct neither leave gaps nor overlap. */
  lemma ParseEncode(h: Header)
    requires Representable(h)
    ensures ParseHeader(EncodeHeader(h)) == h
  {
    var b := EncodeHeader(h);
    assert b[0..4] == h.chunkId;
    Int32Field(b, 4, h.chunkSize);
    assert b[8..12] == h.format;
    assert b[12..16] == h.subchunk1Id;
    Int32Field(b, 16, h.subchunk1Size);
    Int16Field(b, 20, h.audioFormat);
    Int16Field(b, 22, h.numChannels);
    Int32Field(b, 24, h.sampleRate);
    Int32Field(b, 28, h.byteRate);
    Int16Field(b, 32, h.blockAlign);
    Int16Field(b, 34, h.bitsPerSample);
    Int32Field(b, 36, h.subchunk2Id);
    var e := EncodeInt32(h.subchunk2Size);
    assert b[40] == e[0] && b[41] == e[1] && b[42] == e[2] && b[43] == e[3];
    Int32Field(b, 40, h.subchunk2Size);
  }

  /** Why a header is refused, one constructor per early `return FALSE`, in the order the checks run. */
  datatype Rejection =
    | BadChunkId | BadFormat | BadSubchunk1Id | BadSubchunk1Size
    | Compressed | NotMono | UnsupportedBitDepth

  datatype Verdict = Accepted | Rejected(why: Rejection)

  /** Position of a check in the sequence of checks. */
  function Rank(c: Rejection): nat {
    match c
    case BadChunkId => 0
    case BadFormat => 1
    case BadSubchunk1Id => 2
    case BadSubchunk1Size => 3
    case Compressed => 4
    case NotMono => 5
    case UnsupportedBitDepth => 6
  }

  /** Whether `h` passes the check that `c` names. A 4-byte `strncmp` against a literal
      without a NUL in its first four characters is byte-wise equality. */
  predicate Passes(h: Header, c: Rejection) {
    match c
    case BadChunkId => h.chunkId == Ascii("RIFF")
    case BadFormat => h.format == Ascii("WAVE")
    case BadSubchunk1Id => h.subchunk1Id == Ascii("fmt ")
    case BadSubchunk1Size => h.subchunk1Size == 16
    case Compressed => h.audioFormat == 1
    case NotMono => h.numChannels == 1
    case UnsupportedBitDepth => h.bitsPerSample == 8 || h.bitsPerSample == 16
  }

  /** A mono 8- or 16-bit uncompressed PCM header with the canonical tags and "fmt " size. */
  predicate Supported(h: Header) {
    && h.chunkId == Ascii("RIFF") && h.format == Ascii("WAVE") && h.subchunk1Id == Ascii("fmt ")
    && h.subchunk1Size == 16 && h.audioFormat == 1 && h.numChannels == 1
    && (h.bitsPerSample == 8 || h.bitsPerSample == 16)
  }

  /** `cheak_riff_header`: the verdict, and the globals afterwards. The sample rate
      and bit depth are copied into the globals as soon as the channel check has
      passed, before the bit depth is checked, so a header refused for its bit depth
      still leaves them behind. */
  function CheckHeader(h: Header, g: Globals): (r: (Verdict, Globals))
    ensures r.0 == Accepted <==> Supported(h)
    ensures r.1.maxfreq == g.maxfreq
    ensures (r.0.Accepted? || r.0 == Rejected(UnsupportedBitDepth))
            ==> r.1 == Globals(h.sampleRate, h.bitsPerSample, g.maxfreq)
    ensures !(r.0.Accepted? || r.0 == Rejected(UnsupportedBitDepth)) ==> r.1 == g
  {
    if h.chunkId != Ascii("RIFF") then (Rejected(BadChunkId), g)
    else if h.format != Ascii("WAVE") then (Rejected(BadFormat), g)
    else if h.subchunk1Id != Ascii("fmt ") then (Rejected(BadSubchunk1Id), g)
    else if h.subchunk1Size != 16 then (Rejected(BadSubchunk1Size), g)
    else if h.audioFormat != 1 then (Rejected(Compressed), g)
    else if h.numChannels != 1 then (Rejected(NotMono), g)
    else
      var g' := g.(samplerate := h.sampleRate, bitspersample := h.bitsPerSample);
      if h.bitsPerSample != 8 && h.bitsPerSample != 16 then (Rejected(UnsupportedBitDepth), g')
      else (Accepted, g')
  }

  /** A refusal names the first check, in source order, that the header fails: it
      fails that one and passes every earlier one. */
  lemma FirstFailedCheck(h: Header, g: Globals)
    ensures var v := CheckHeader(h, g).0;
      v.Rejected? ==> !Passes(h, v.why) && forall c :: Rank(c) < Rank(v.why) ==> Passes(h, c)
  {
    var v := CheckHeader(h, g).0;
    if v.Rejected? {
      forall c | Rank(c) < Rank(v.why) ensures Passes(h, c) {
        assert Rank(c) < 6;
      }
    }
  }

  /** The fields the check looks at. */
  predicate SameInspected(h1: Header, h2: Header) {
    && h1.chunkId == h2.chunkId && h1.format == h2.format && h1.subchunk1Id == h2.subchunk1Id
    && h1.subchunk1Size == h2.subchunk1Size && h1.audioFormat == h2.audioFormat
    && h1.numChannels == h2.numChannels && h1.sampleRate == h2.sampleRate
    && h1.bitsPerSample == h2.bitsPerSample
  }

  /** No other field matters: ChunkSize, ByteRate, BlockAlign, Subchunk2ID and
      Subchunk2Size can hold anything without changing the verdict or the globals. */
  lemma CheckIgnoresOtherFields(h1: Header, h2: Header, g: Globals)
    requires SameInspected(h1, h2)
    ensures CheckHeader(h1, g) == CheckHeader(h2, g)
  {
  }
}
