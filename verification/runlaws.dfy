/** What one processing run guarantees, stated over `StreamProcessor.Run`. */
module RunLaws {
  import opened Wrappers
  import opened Bytes
  import opened Arith
  import opened Decimal
  import opened Settings
  import opened Riff
  import opened Reader
  import opened Pcm
  import opened Spectrum
  import opened Averager
  import opened Csv
  import opened Timestamp
  import opened FileStore
  import opened StreamProcessor

  /** The bytes after the header. */
  function Body(s: Stream): seq<byte>
    requires |s.bytes| >= HEADER_SIZE
  {
    s.bytes[HEADER_SIZE..]
  }

  /** The header gate (main.c:260-272): a stream shorter than a header ends the run
      with a read error, a refused header with the check's reason; either way before
      any decoding, with no file touched and with the globals the check left. Past the
      gate, the run either has undefined sizes or analyses from the clamped globals. */
  lemma Gate(g: Globals, cfg: Config, env: Env, s: Stream, st: Store)
    ensures var r := Run(g, cfg, env, s, st);
      && (r.outcome == ShortHeader <==> |s.bytes| < HEADER_SIZE)
      && (|s.bytes| < HEADER_SIZE ==> r.globals == g)
      && (|s.bytes| >= HEADER_SIZE ==>
            (r.outcome.InvalidHeader? <==> !Supported(HeaderOf(s)))
            && (!Supported(HeaderOf(s)) ==>
                  r.outcome == InvalidHeader(CheckHeader(HeaderOf(s), g).0.why)
                  && r.globals == CheckHeader(HeaderOf(s), g).1))
      && (r.outcome.ShortHeader? || r.outcome.InvalidHeader? || r.outcome.Undefined? ==>
            r.store == st && r.spectra == [] && r.rows == [])
      && (Admitted(g, cfg, s) <==> !(r.outcome.ShortHeader? || r.outcome.InvalidHeader? || r.outcome.Undefined?))
      && (Admitted(g, cfg, s) ==> Ready(Start(g, s), cfg) && r == Analyse(Start(g, s), cfg, env, s, st))
  {
    var r := Run(g, cfg, env, s, st);
    if |s.bytes| < HEADER_SIZE {
      assert r.outcome == ShortHeader;
    } else if !Supported(HeaderOf(s)) {
      assert r.outcome == InvalidHeader(CheckHeader(HeaderOf(s), g).0.why);
    } else if !Defined(Start(g, s), cfg) {
      assert r.outcome == Undefined;
    } else {
      var g' := Start(g, s);
      assert g'.maxfreq <= g'.samplerate / 2;
      var a := Analyse(g', cfg, env, s, st);
      assert r == a;
      assert a.outcome.Ended? || a.outcome.ReadFailed? || a.outcome.WriteFailed?;
    }
  }

  /** The clamp persists (main.c:274): a run never raises `maxfreq`, and once a header
      has been accepted it is at most half of that header's sample rate, in the globals
      the next run starts from. */
  lemma MaxfreqNeverRises(g: Globals, cfg: Config, env: Env, s: Stream, st: Store)
    ensures Run(g, cfg, env, s, st).globals.maxfreq <= g.maxfreq
    ensures |s.bytes| >= HEADER_SIZE && Supported(HeaderOf(s)) ==>
      var r := Run(g, cfg, env, s, st);
      && r.globals.samplerate == HeaderOf(s).sampleRate
      && r.globals.bitspersample == HeaderOf(s).bitsPerSample
      && r.globals.maxfreq <= Half(HeaderOf(s).sampleRate)
  {
  }

  /** The clamp carries over to later runs: after a 100 Hz stream has been accepted
      with the default `maxfreq` of 100, `maxfreq` is 50, and no later run, whatever
      its sample rate, brings it back above 50. */
  lemma ClampCarriesOver(cfg: Config, env: Env, h: Header, body: seq<byte>, tail: Tail, st: Store,
                         later: Stream, st2: Store)
    requires Representable(h) && Supported(h) && h.sampleRate == 100
    ensures var r1 := Run(DEFAULT_GLOBALS, cfg, env, Stream(EncodeHeader(h) + body, tail), st);
      && r1.globals.maxfreq == 50
      && Run(r1.globals, cfg, env, later, st2).globals.maxfreq <= 50
  {
    var s := Stream(EncodeHeader(h) + body, tail);
    assert s.bytes[..HEADER_SIZE] == EncodeHeader(h);
    ParseEncode(h);
    var r1 := Run(DEFAULT_GLOBALS, cfg, env, s, st);
    MaxfreqNeverRises(r1.globals, cfg, env, later, st2);
  }

  /** A header refused only for its bit depth still leaves its sample rate and depth in
      the globals (main.c:140-141), and `maxfreq` is not clamped. */
  lemma DepthRefusalLeavesRate(g: Globals, cfg: Config, env: Env, s: Stream, st: Store)
    requires |s.bytes| >= HEADER_SIZE
    requires Run(g, cfg, env, s, st).outcome == InvalidHeader(UnsupportedBitDepth)
    ensures Run(g, cfg, env, s, st).globals == Globals(HeaderOf(s).sampleRate, HeaderOf(s).bitsPerSample, g.maxfreq)
  {
  }

  /** The read loop (main.c:283-310), for globals past the gate (see `Gate`): with
      `n = bytespersec` and `m` body bytes, pass `i < m / n` decodes the `i`-th block
      of `n` bytes; at end-of-file one more pass decodes the `m % n` leftover bytes
      followed by the stale rest of the buffer; at a read error there is no such
      pass and the error is reported. */
  lemma Frames(g: Globals, cfg: Config, env: Env, s: Stream)
    requires Ready(g, cfg) && |s.bytes| >= HEADER_SIZE
    ensures var d := Decoded(g, cfg, env, s);
      var n := BytesPerSecond(g.samplerate, g.bitspersample);
      && n >= 1
      && var q := FullReads(|Body(s)|, n);
      && d.1 == (s.tail == ReadError)
      && |d.0| == (if s.tail == Eof then q + 1 else q)
      && (forall i :: 0 <= i < q ==>
            d.0[i] == SpectrumOf(env.fft, DecodeFrame(Block(Body(s), n, i), g.samplerate, g.bitspersample)))
      && (s.tail == Eof ==>
            d.0[q] == SpectrumOf(env.fft, DecodeFrame(LastPass(Body(s), Initial(env, n)), g.samplerate, g.bitspersample)))
  {
    var n := BytesPerSecond(g.samplerate, g.bitspersample);
    var buffer := Initial(env, n);
    DecodedPasses(g, cfg, env, s);
    ReadsCount(Body(s), buffer, s.tail);
    forall i | 0 <= i < FullReads(|Body(s)|, n)
      ensures var d := Decoded(g, cfg, env, s);
        i < |d.0| && d.0[i] == SpectrumOf(env.fft, DecodeFrame(Block(Body(s), n, i), g.samplerate, g.bitspersample))
    {
      FrameBlock(g, cfg, env, s, i);
    }
    if s.tail == Eof {
      FrameLast(g, cfg, env, s);
    }
  }

  /** Pass `i` of the read loop, for `i < m / n`, is the spectrum of the `i`-th block
      of `n` body bytes. */
  lemma FrameBlock(g: Globals, cfg: Config, env: Env, s: Stream, i: nat)
    requires Ready(g, cfg) && |s.bytes| >= HEADER_SIZE
    requires i < FullReads(|Body(s)|, BytesPerSecond(g.samplerate, g.bitspersample))
    ensures var d := Decoded(g, cfg, env, s);
      var n := BytesPerSecond(g.samplerate, g.bitspersample);
      i < |d.0| && d.0[i] == SpectrumOf(env.fft, DecodeFrame(Block(Body(s), n, i), g.samplerate, g.bitspersample))
  {
    var n := BytesPerSecond(g.samplerate, g.bitspersample);
    DecodedPasses(g, cfg, env, s);
    SpectraBlock(env.fft, Body(s), Initial(env, n), s.tail, g.samplerate, g.bitspersample, i);
  }

  /** The spectrum of full pass `i` is that of the `i`-th block of the body. */
  lemma SpectraBlock(fft: Fft, rest: seq<byte>, buffer: seq<byte>, tail: Tail, rate: nat, bits: int, i: nat)
    requires rate >= 1 && (bits == 8 || bits == 16) && |buffer| == BytesPerSecond(rate, bits)
    requires i < FullReads(|rest|, |buffer|)
    ensures var sp := Spectra(fft, Reads(rest, buffer, tail).0, rate, bits);
      i < |sp| && sp[i] == SpectrumOf(fft, DecodeFrame(Block(rest, |buffer|, i), rate, bits))
  {
    ReadsBlock(rest, buffer, tail, i);
    SpectraAt(fft, Reads(rest, buffer, tail).0, rate, bits, i);
  }

  /** The spectra of a run are those of the read loop's passes over the body. */
  lemma DecodedPasses(g: Globals, cfg: Config, env: Env, s: Stream)
    requires Ready(g, cfg) && |s.bytes| >= HEADER_SIZE
    ensures var passes := Reads(Body(s), Initial(env, BytesPerSecond(g.samplerate, g.bitspersample)), s.tail);
      Decoded(g, cfg, env, s) == (Spectra(env.fft, passes.0, g.samplerate, g.bitspersample), passes.1)
  {
  }

  /** At end-of-file, pass `m / n` is the spectrum of the last buffer (`LastPass`). */
  lemma FrameLast(g: Globals, cfg: Config, env: Env, s: Stream)
    requires Ready(g, cfg) && |s.bytes| >= HEADER_SIZE && s.tail == Eof
    ensures var d := Decoded(g, cfg, env, s);
      var n := BytesPerSecond(g.samplerate, g.bitspersample);
      var q := FullReads(|Body(s)|, n);
      q < |d.0| && d.0[q] == SpectrumOf(env.fft, DecodeFrame(LastPass(Body(s), Initial(env, n)), g.samplerate, g.bitspersample))
  {
    var n := BytesPerSecond(g.samplerate, g.bitspersample);
    DecodedPasses(g, cfg, env, s);
    SpectraLast(env.fft, Body(s), Initial(env, n), g.samplerate, g.bitspersample);
  }

  /** The spectrum of the pass that meets end-of-file is that of its buffer. */
  lemma SpectraLast(fft: Fft, rest: seq<byte>, buffer: seq<byte>, rate: nat, bits: int)
    requires rate >= 1 && (bits == 8 || bits == 16) && |buffer| == BytesPerSecond(rate, bits)
    ensures var sp := Spectra(fft, Reads(rest, buffer, Eof).0, rate, bits);
      var q := FullReads(|rest|, |buffer|);
      q < |sp| && sp[q] == SpectrumOf(fft, DecodeFrame(LastPass(rest, buffer), rate, bits))
  {
    ReadsLast(rest, buffer);
    SpectraAt(fft, Reads(rest, buffer, Eof).0, rate, bits, FullReads(|rest|, |buffer|));
  }

  /** How a run past the gate ends: it computes the spectra of every pass, or, when a
      write fails, of the passes up to that emission; and it ends cleanly at
      end-of-file, with the read error otherwise, unless a write failed first. */
  lemma Outcomes(g: Globals, cfg: Config, env: Env, s: Stream, st: Store)
    requires Ready(g, cfg) && |s.bytes| >= HEADER_SIZE
    ensures var r := Analyse(g, cfg, env, s, st);
      var all := Decoded(g, cfg, env, s).0;
      && (r.outcome != WriteFailed ==> r.spectra == all)
      && (r.outcome == WriteFailed ==>
            |r.spectra| == (|r.rows| + 1) * cfg.avgIntInSec && r.spectra <= all)
      && (r.outcome == Ended <==> s.tail == Eof && r.outcome != WriteFailed)
      && (r.outcome == ReadFailed <==> s.tail == ReadError && r.outcome != WriteFailed)
      && (r.outcome.Ended? || r.outcome.ReadFailed? || r.outcome.WriteFailed?)
  {
    Frames(g, cfg, env, s);
  }

  /** The rows of a run's spectra (main.c:314-357): one per completed cycle of
      `avg` spectra, the `e`-th holding the means of spectra `e * avg` to
      `(e + 1) * avg - 1`, stamped with the clock read at that emission. */
  lemma CycleRows(g: Globals, cfg: Config, env: Env, spectra: seq<seq<real>>)
    requires Ready(g, cfg) && Uniform(spectra, g.samplerate / 2 + 1)
    ensures var rows := Rows(g, cfg, env, spectra);
      var avg := cfg.avgIntInSec;
      && |rows| == |spectra| / avg
      && (forall e :: 0 <= e < |rows| ==> WideEnough(Block(spectra, avg, e), g.maxfreq))
      && (forall e :: 0 <= e < |rows| ==> rows[e] == RowOf(g, cfg, env, Block(spectra, avg, e), e))
  {
    var avg := cfg.avgIntInSec;
    var width := g.samplerate / 2 + 1;
    var cycles := RunCycles(g, cfg, spectra);
    var rows := Rows(g, cfg, env, spectra);
    Cadence(Fresh(avg, width), spectra, avg);
    CyclesAreBlocks(spectra, avg);
    assert |rows| == |cycles| == |spectra| / avg;
    forall e | 0 <= e < |rows|
      ensures WideEnough(Block(spectra, avg, e), g.maxfreq)
      ensures rows[e] == RowOf(g, cfg, env, Block(spectra, avg, e), e)
    {
      assert cycles[e] == Block(spectra, avg, e);
    }
  }

  /** The emissions (main.c:327-370): the rows written are the rows of the
      completed cycles, in order, all of them unless a write failed. The run ends
      cleanly only at end-of-file with every row written. */
  lemma Emissions(g: Globals, cfg: Config, env: Env, st: Store, spectra: seq<seq<real>>, readFailed: bool)
    requires Ready(g, cfg) && Uniform(spectra, g.samplerate / 2 + 1)
    ensures var r := Finish(g, cfg, env, st, spectra, readFailed);
      var all := Rows(g, cfg, env, spectra);
      && |r.rows| <= |all| && r.rows == all[..|r.rows|]
      && (r.outcome != WriteFailed <==> |r.rows| == |all|)
      && (r.outcome == Ended <==> !readFailed && |r.rows| == |all|)
  {
  }

  /** A write fails exactly at the first emission whose dated file cannot be opened
      (main.c:332-340): the files of the rows written could be opened, and a run that
      failed to write stopped at the next emission's file. */
  lemma WriteStops(g: Globals, cfg: Config, env: Env, st: Store, spectra: seq<seq<real>>, readFailed: bool)
    requires Ready(g, cfg) && Uniform(spectra, g.samplerate / 2 + 1)
    ensures var r := Finish(g, cfg, env, st, spectra, readFailed);
      && (forall e :: 0 <= e < |r.rows| ==> CsvPath(cfg.outputDir, env.clock(e)) !in st.denied)
      && (r.outcome == WriteFailed ==> CsvPath(cfg.outputDir, env.clock(|r.rows|)) in st.denied)
  {
    var rows := Rows(g, cfg, env, spectra);
    var paths := Paths(cfg, env, |rows|);
    var emitted := Emit(st, paths, g.maxfreq, rows);
    var r := Finish(g, cfg, env, st, spectra, readFailed);
    assert |r.rows| == emitted.1;
    forall e | 0 <= e < emitted.1
      ensures CsvPath(cfg.outputDir, env.clock(e)) !in st.denied
    {
      assert paths[e] == CsvPath(cfg.outputDir, env.clock(e));
    }
    if r.outcome == WriteFailed {
      assert paths[emitted.1] == CsvPath(cfg.outputDir, env.clock(emitted.1));
    }
  }

  /** The row timestamp holds digits, '-', ' ' and ':' only. */
  lemma TimestampNoComma(dt: DateTime)
    ensures NoComma(FormatTimestamp(dt))
  {
    var y, mo, d := FormatInt(dt.year, 4), FormatInt(dt.month, 2), FormatInt(dt.day, 2);
    var h, mi, se := FormatInt(dt.hour, 2), FormatInt(dt.minute, 2), FormatInt(dt.second, 2);
    NumberNoComma(dt.year, 4);
    NumberNoComma(dt.month, 2);
    NumberNoComma(dt.day, 2);
    NumberNoComma(dt.hour, 2);
    NumberNoComma(dt.minute, 2);
    NumberNoComma(dt.second, 2);
    AppendNoComma(y, "-");
    AppendNoComma(y + "-", mo);
    AppendNoComma(y + "-" + mo, "-");
    AppendNoComma(y + "-" + mo + "-", d);
    AppendNoComma(y + "-" + mo + "-" + d, " ");
    AppendNoComma(y + "-" + mo + "-" + d + " ", h);
    AppendNoComma(y + "-" + mo + "-" + d + " " + h, ":");
    AppendNoComma(y + "-" + mo + "-" + d + " " + h + ":", mi);
    AppendNoComma(y + "-" + mo + "-" + d + " " + h + ":" + mi, ":");
    AppendNoComma(y + "-" + mo + "-" + d + " " + h + ":" + mi + ":", se);
  }

  lemma AppendNoComma(a: string, b: string)
    requires NoComma(a) && NoComma(b)
    ensures NoComma(a + b)
  {
    assert forall i :: 0 <= i < |a + b| ==> (a + b)[i] == if i < |a| then a[i] else b[i - |a|];
  }

  lemma NumberNoComma(v: int, precision: nat)
    ensures NoComma(FormatInt(v, precision))
  {
    var s := FormatInt(v, precision);
    forall i | 0 <= i < |s| ensures s[i] != ',' {
      assert IsDigit(s[i]) || s[i] == '-';
    }
  }

  /** A data row (main.c:344-369) is the CSV line of the emission's timestamp and one
      cell per bin `1 .. maxfreq-1`, each the formatted mean of that bin over the
      cycle (its decibels when `in_db` is set); split at its commas, the line gives
      the timestamp and the cells back. */
  lemma RowLayout(g: Globals, cfg: Config, env: Env, cycle: seq<seq<real>>, e: nat)
    requires |cycle| >= 1 && WideEnough(cycle, g.maxfreq)
    ensures var row := RowOf(g, cfg, env, cycle, e);
      var cells := Cells(env, Values(cfg, env, Means(cycle, g.maxfreq)));
      && |cells| == (if g.maxfreq >= 1 then g.maxfreq - 1 else 0)
      && (forall i :: 0 <= i < |cells| ==>
            var mean := SumAt(cycle, i + 1) / |cycle| as real;
            cells[i] == env.fixed3(if cfg.inDb then env.toDb(mean) else mean))
      && |row| >= 1 && row[|row| - 1] == '\n'
      && Split(row[..|row| - 1]) == [FormatTimestamp(env.clock(e))] + cells
  {
    CellContents(g, cfg, env, cycle);
    var row := RowOf(g, cfg, env, cycle, e);
    var cells := Cells(env, Values(cfg, env, Means(cycle, g.maxfreq)));
    var ts := FormatTimestamp(env.clock(e));
    RowFields(env.clock(e), cells);
    var line := Join([ts] + cells);
    assert row == line + "\n";
    assert row[..|row| - 1] == line;
    TimestampNoComma(env.clock(e));
    assert NoCommas([ts] + cells);
    SplitJoin([ts] + cells);
  }

  lemma CellContents(g: Globals, cfg: Config, env: Env, cycle: seq<seq<real>>)
    requires |cycle| >= 1 && WideEnough(cycle, g.maxfreq)
    ensures var cells := Cells(env, Values(cfg, env, Means(cycle, g.maxfreq)));
      && |cells| == (if g.maxfreq >= 1 then g.maxfreq - 1 else 0)
      && (forall i :: 0 <= i < |cells| ==>
            var mean := SumAt(cycle, i + 1) / |cycle| as real;
            cells[i] == env.fixed3(if cfg.inDb then env.toDb(mean) else mean))
  {
    var means := Means(cycle, g.maxfreq);
    var vs := Values(cfg, env, means);
    var cells := Cells(env, vs);
    forall i | 0 <= i < |cells|
      ensures cells[i] == env.fixed3(if cfg.inDb then env.toDb(SumAt(cycle, i + 1) / |cycle| as real) else SumAt(cycle, i + 1) / |cycle| as real)
    {
      assert means[i] == SumAt(cycle, i + 1) / |cycle| as real;
      assert vs[i] == if cfg.inDb then env.toDb(means[i]) else means[i];
      assert cells[i] == Cell(env, vs[i]);
    }
  }

  /** Emissions that all go to one file are the appends of `WriteRows`. */
  lemma {:induction false} EmitOneFile(st: Store, p: string, paths: seq<string>, maxfreq: int, rows: seq<string>)
    requires |paths| == |rows| && forall i :: 0 <= i < |paths| ==> paths[i] == p
    ensures p !in st.denied ==>
      Emit(st, paths, maxfreq, rows).1 == |rows| && WriteRows(st, p, maxfreq, rows) == Some(Emit(st, paths, maxfreq, rows).0)
    ensures p in st.denied && |rows| > 0 ==> Emit(st, paths, maxfreq, rows) == (st, 0)
    decreases |rows|
  {
    if |rows| > 0 && p !in st.denied {
      WriteRowAppends(st, p, maxfreq, rows[0]);
      var st1 := WriteRow(st, p, maxfreq, rows[0]).value;
      EmitOneFile(st1, p, paths[1..], maxfreq, rows[1..]);
    }
  }

  /** One calendar day, one file, one header (main.c:174-206 and 327-370): when every
      emission of a run falls on the same date, all rows go to that date's file, which
      receives the header only if it did not exist, followed by every row in order; no
      other file changes. If that file cannot be opened, the first emission fails and
      nothing is written. */
  lemma OneFilePerDay(g: Globals, cfg: Config, env: Env, st: Store, spectra: seq<seq<real>>, readFailed: bool)
    requires Ready(g, cfg) && Uniform(spectra, g.samplerate / 2 + 1)
    requires |Rows(g, cfg, env, spectra)| >= 1
    requires forall e :: 0 <= e < |Rows(g, cfg, env, spectra)| ==>
      InRange(env.clock(e)) && SameDate(env.clock(e), env.clock(0))
    ensures var r := Finish(g, cfg, env, st, spectra, readFailed);
      var p := CsvPath(cfg.outputDir, env.clock(0));
      var before := if p in st.files then st.files[p] else CsvHeader(g.maxfreq);
      && (p !in st.denied ==>
            r.rows == Rows(g, cfg, env, spectra)
            && r.store == st.(files := st.files[p := before + Concat(r.rows)]))
      && (p in st.denied ==> r.outcome == WriteFailed && r.rows == [] && r.store == st)
  {
    var rows := Rows(g, cfg, env, spectra);
    var paths := Paths(cfg, env, |rows|);
    var p := CsvPath(cfg.outputDir, env.clock(0));
    forall i | 0 <= i < |paths| ensures paths[i] == p {
      PathKeyedByDate(cfg.outputDir, env.clock(i), env.clock(0));
    }
    EmitOneFile(st, p, paths, g.maxfreq, rows);
    if p !in st.denied {
      HeaderOnce(st, p, g.maxfreq, rows);
      assert rows[..|rows|] == rows;
    }
  }
}
