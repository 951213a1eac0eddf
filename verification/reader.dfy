/** The byte stream the recording command writes, and the reads `mainloop` makes from
    it (main.c:260-266 and 283-291). */
module Reader {
  import opened Bytes
  import opened Arith

  /** How the stream ends after its bytes: a clean end-of-file, or a read error. */
  datatype Tail = Eof | ReadError

  datatype Stream = Stream(bytes: seq<byte>, tail: Tail)

  /** The buffer contents each pass of the read loop decodes. Each `fread` overwrites a
      prefix of the buffer with as many bytes as are left, up to its size; the rest of
      the buffer keeps what the previous pass left there. The loop tests `feof` before
      reading, and end-of-file is flagged only by a read that ran out of data, so the
      pass that meets the end is still decoded, from a partly or entirely stale
      buffer. A read error is reported by the read that meets it (`ferror`), and that
      pass ends the run before decoding; the flag says whether that happened. */
  function Reads(rest: seq<byte>, buffer: seq<byte>, tail: Tail): (r: (seq<seq<byte>>, bool))
    requires |buffer| > 0
    ensures forall i :: 0 <= i < |r.0| ==> |r.0[i]| == |buffer|
    decreases |rest|
  {
    var n := |buffer|;
    if |rest| < n then
      if tail == ReadError then ([], true) else ([rest + buffer[|rest|..]], false)
    else
      var filled := rest[..n];
      var more := Reads(rest[n..], filled, tail);
      ([filled] + more.0, more.1)
  }

  /** `m / n`: how many full `n`-byte reads `m` bytes allow. */
  function FullReads(m: nat, n: nat): nat
    requires n > 0
  {
    m / n
  }

  /** What the buffer held before the last pass: the initial contents if no full read
      happened, otherwise the last full block of the stream. */
  function Before(rest: seq<byte>, buffer: seq<byte>): (b: seq<byte>)
    requires |buffer| > 0
    ensures |b| == |buffer|
  {
    var n := |buffer|;
    var q := |rest| / n;
    if q == 0 then buffer else
      MulDistributes(q - 1, 1, n);
      rest[(q - 1) * n..q * n]
  }

  /** The buffer of the pass that meets end-of-file: the `m % n` bytes left over,
      followed by the stale tail of what the buffer held before. */
  function LastPass(rest: seq<byte>, buffer: seq<byte>): (b: seq<byte>)
    requires |buffer| > 0
    ensures |b| == |buffer|
  {
    var n := |buffer|;
    var q := |rest| / n;
    rest[q * n..] + Before(rest, buffer)[|rest| - q * n..]
  }

  /** For a body of `m` bytes read `n` at a time: at end-of-file there are `m / n + 1`
      passes, the last one after the data ran out; at a read error there are `m / n`
      passes and the run fails. */
  lemma {:induction false} ReadsCount(rest: seq<byte>, buffer: seq<byte>, tail: Tail)
    requires |buffer| > 0
    ensures var r := Reads(rest, buffer, tail);
      && r.1 == (tail == ReadError)
      && |r.0| == (if tail == ReadError then |rest| / |buffer| else |rest| / |buffer| + 1)
    decreases |rest|
  {
    var n := |buffer|;
    if |rest| < n {
      DivModUnique(|rest|, n, 0, |rest|);
    } else {
      ReadsCount(rest[n..], rest[..n], tail);
      DivModStep(|rest|, n);
    }
  }

  /** Pass `i`, for `i < m / n`, decodes the `i`-th `n`-byte block of the stream. */
  lemma {:induction false} ReadsBlock(rest: seq<byte>, buffer: seq<byte>, tail: Tail, i: nat)
    requires |buffer| > 0 && i < |rest| / |buffer|
    ensures i < |Reads(rest, buffer, tail).0|
    ensures Reads(rest, buffer, tail).0[i] == Block(rest, |buffer|, i)
    decreases |rest|
  {
    var n := |buffer|;
    ReadsCount(rest, buffer, tail);
    if |rest| < n {
      DivModUnique(|rest|, n, 0, |rest|);
    } else {
      var rest' := rest[n..];
      var more := Reads(rest', rest[..n], tail);
      assert Reads(rest, buffer, tail).0 == [rest[..n]] + more.0;
      DivModStep(|rest|, n);
      if i == 0 {
        assert 0 * n == 0 && (0 + 1) * n == n;
        assert Block(rest, n, 0) == rest[..n];
      } else {
        ReadsBlock(rest', rest[..n], tail, i - 1);
        assert Block(rest', n, i - 1) == rest'[(i - 1) * n..(i - 1) * n + n];
        BlockShift(rest, rest', n, i - 1);
        assert i - 1 + 2 == i + 1;
        assert Block(rest, n, i) == rest[i * n..(i + 1) * n];
      }
    }
  }

  /** At end-of-file, the last pass decodes a buffer that starts with the `m % n`
      bytes left over (possibly none) and ends with the stale tail of what the buffer
      held before. */
  lemma {:induction false} ReadsLast(rest: seq<byte>, buffer: seq<byte>)
    requires |buffer| > 0
    ensures FullReads(|rest|, |buffer|) < |Reads(rest, buffer, Eof).0|
    ensures Reads(rest, buffer, Eof).0[FullReads(|rest|, |buffer|)] == LastPass(rest, buffer)
    decreases |rest|
  {
    var n := |buffer|;
    ReadsCount(rest, buffer, Eof);
    if |rest| < n {
      DivModUnique(|rest|, n, 0, |rest|);
      assert LastPass(rest, buffer) == rest + buffer[|rest|..];
    } else {
      var filled := rest[..n];
      var rest' := rest[n..];
      ReadsLast(rest', filled);
      DivModStep(|rest|, n);
      LastPassShift(rest, buffer);
      var passes := Reads(rest', filled, Eof).0;
      assert Reads(rest, buffer, Eof).0 == [filled] + passes;
      assert FullReads(|rest|, n) == FullReads(|rest'|, n) + 1;
      assert passes[FullReads(|rest'|, n)] == LastPass(rest, buffer);
    }
  }

  /** One full read moves the last pass's buffer along unchanged. */
  lemma LastPassShift(rest: seq<byte>, buffer: seq<byte>)
    requires 0 < |buffer| <= |rest|
    ensures LastPass(rest[|buffer|..], rest[..|buffer|]) == LastPass(rest, buffer)
  {
    var n := |buffer|;
    var q := |rest| / n;
    var filled := rest[..n];
    var rest' := rest[n..];
    DivModStep(|rest|, n);
    var q' := |rest'| / n;
    QuotientFits(|rest'|, n);
    MulDistributes(q', 1, n);
    var k, k' := q * n, q' * n;
    assert k == k' + n && k' <= |rest'|;
    assert rest'[k'..] == rest[k..];
    BeforeShift(rest, buffer);
    assert |rest'| - k' == |rest| - k;
    assert LastPass(rest', filled) == rest'[k'..] + Before(rest', filled)[|rest'| - k'..];
    assert LastPass(rest, buffer) == rest[k..] + Before(rest, buffer)[|rest| - k..];
  }

  /** One full read moves the buffer held before the last pass along unchanged. */
  lemma BeforeShift(rest: seq<byte>, buffer: seq<byte>)
    requires 0 < |buffer| <= |rest|
    ensures Before(rest[|buffer|..], rest[..|buffer|]) == Before(rest, buffer)
  {
    var n := |buffer|;
    var q := |rest| / n;
    var filled := rest[..n];
    var rest' := rest[n..];
    DivModStep(|rest|, n);
    var q' := |rest'| / n;
    QuotientFits(|rest'|, n);
    if q' == 0 {
      assert Before(rest', filled) == filled;
      assert Before(rest, buffer) == rest[0..n];
    } else {
      BlockShift(rest, rest', n, q' - 1);
      assert Before(rest', filled) == rest'[(q' - 1) * n..q' * n];
      assert Before(rest, buffer) == rest[(q - 1) * n..q * n];
    }
  }
}
