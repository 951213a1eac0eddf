/** One processing run over the recording command's output (`mainloop`, main.c:255-375):
    the header gate, the clamp of `maxfreq`, the read loop, and one CSV row per
    completed averaging cycle. The run is a pure function of the globals it starts
    with, the stream, the file system and an environment that stands for the foreign
    parts: the transform, the indeterminate first contents of the read buffer, the
    clock, and the two numeric conversions of the output. */
module StreamProcessor {
  import opened Wrappers
  import opened Bytes
  import opened Arith
  import opened Settings
  import opened Riff
  import opened Reader
  import opened Pcm
  import opened Spectrum
  import opened Averager
  import opened Csv
  import opened Timestamp
  import opened FileStore

  /** `%.3f` of a value: its output never holds a comma. */
  type Fixed3 = f: real -> string | forall x :: NoComma(f(x)) witness (x: real) => "0.000"

  /** The foreign parts. `clock(e)` is the local time read at the `e`-th emission of
      the run; `uninit(i)` is byte `i` of the read buffer before the first read. */
  datatype Env = Env(fft: Fft, uninit: nat -> byte, clock: nat -> DateTime, fixed3: Fixed3, toDb: real -> real)

  /** How a run ends: `Ended` is `mainloop` returning TRUE at end-of-file; every other
      outcome is one of its `return FALSE`s, except `Undefined`, which stands for a
      run whose arrays would have a size of zero or less, or whose byte rate
      overflows `int`: the C program has no defined behaviour there. */
  datatype Outcome = Ended | ShortHeader | InvalidHeader(why: Rejection) | ReadFailed | WriteFailed | Undefined

  /** The globals after the run, the file system after the run, the spectra computed
      before the run stopped, and the rows written, in order. */
  datatype RunResult = RunResult(outcome: Outcome, globals: Globals, store: Store,
                                 spectra: seq<seq<real>>, rows: seq<string>)

  /** `samplerate / 2` with C's division, which truncates toward zero. */
  function Half(a: int): (q: int)
    ensures a >= 0 ==> 0 <= q && 2 * q <= a <= 2 * q + 1
    ensures a < 0 ==> q <= 0 && 2 * q - 1 <= a <= 2 * q
  {
    if a >= 0 then a / 2 else -((-a) / 2)
  }

  /** `if (maxfreq > samplerate / 2) maxfreq = samplerate / 2` (main.c:274). The global
      keeps the clamped value after the run. */
  function Clamp(g: Globals): (r: Globals)
    ensures r.samplerate == g.samplerate && r.bitspersample == g.bitspersample
    ensures r.maxfreq <= g.maxfreq && r.maxfreq <= Half(g.samplerate)
    ensures r.maxfreq == g.maxfreq || r.maxfreq == Half(g.samplerate)
  {
    if g.maxfreq > Half(g.samplerate) then g.(maxfreq := Half(g.samplerate)) else g
  }

  /** The sizes the run allocates are positive and the byte rate fits in `int`:
      `guchar buffer[bytespersec]` and `power_spectrum[avg_int_in_sec][samplerate/2+1]`. */
  predicate Defined(g: Globals, cfg: Config) {
    && g.samplerate >= 1 && cfg.avgIntInSec >= 1
    && BytesPerSecond(g.samplerate, g.bitspersample) <= INT32_MAX
  }

  /** The globals an analysis can start from: an accepted bit depth, a clamped
      `maxfreq` and defined sizes. */
  predicate Ready(g: Globals, cfg: Config) {
    && (g.bitspersample == 8 || g.bitspersample == 16)
    && g.maxfreq <= g.samplerate / 2
    && Defined(g, cfg)
  }

  /** Rows of `width` values each. */
  predicate Uniform(rows: seq<seq<real>>, width: nat) {
    forall j :: 0 <= j < |rows| ==> |rows[j]| == width
  }

  /** The buffer before the first read. */
  function Initial(env: Env, n: nat): (b: seq<byte>)
    ensures |b| == n
  {
    seq(n, i requires 0 <= i < n => env.uninit(i))
  }

  /** The spectrum of one decoded second: N samples give N/2+1 bins. */
  function SpectrumOf(fft: Fft, frame: seq<real>): (ps: seq<real>)
    requires |frame| >= 1
    ensures |ps| == |frame| / 2 + 1
  {
    var out := fft(frame);
    assert |out| == |frame|;
    PowerSpectrum(out)
  }

  /** The power spectrum of each buffer the loop decodes (main.c:293-315). */
  function Spectra(fft: Fft, buffers: seq<seq<byte>>, rate: nat, bits: int): (ps: seq<seq<real>>)
    requires rate >= 1 && (bits == 8 || bits == 16)
    requires forall i :: 0 <= i < |buffers| ==> |buffers[i]| == BytesPerSecond(rate, bits)
    ensures |ps| == |buffers| && Uniform(ps, rate / 2 + 1)
  {
    seq(|buffers|, i requires 0 <= i < |buffers| => SpectrumOf(fft, DecodeFrame(buffers[i], rate, bits)))
  }

  lemma SpectraAt(fft: Fft, buffers: seq<seq<byte>>, rate: nat, bits: int, k: nat)
    requires rate >= 1 && (bits == 8 || bits == 16)
    requires forall i :: 0 <= i < |buffers| ==> |buffers[i]| == BytesPerSecond(rate, bits)
    requires k < |buffers|
    ensures k < |Spectra(fft, buffers, rate, bits)|
    ensures Spectra(fft, buffers, rate, bits)[k] == SpectrumOf(fft, DecodeFrame(buffers[k], rate, bits))
  {
  }

  /** The value columns of one row before formatting: the means, or their decibels when
      `in_db` is set. */
  function Values(cfg: Config, env: Env, means: seq<real>): (vs: seq<real>)
    ensures |vs| == |means|
    ensures !cfg.inDb ==> vs == means
  {
    if cfg.inDb then seq(|means|, i requires 0 <= i < |means| => env.toDb(means[i])) else means
  }

  function Cell(env: Env, v: real): (c: string)
    ensures NoComma(c)
  {
    var f := env.fixed3;
    f(v)
  }

  /** The formatted cells of one row. */
  function Cells(env: Env, vs: seq<real>): (cells: seq<string>)
    ensures |cells| == |vs| && NoCommas(cells)
  {
    seq(|vs|, i requires 0 <= i < |vs| => Cell(env, vs[i]))
  }

  /** The emissions of a run, in order: each goes to the dated file of its clock
      reading, and stops the run if that file cannot be opened. Returns the file
      system afterwards and how many rows were written. */
  function Emit(st: Store, paths: seq<string>, maxfreq: int, rows: seq<string>): (r: (Store, nat))
    requires |paths| == |rows|
    ensures r.1 <= |rows| && r.0.denied == st.denied
    ensures forall i :: 0 <= i < r.1 ==> paths[i] !in st.denied
    ensures r.1 < |rows| ==> paths[r.1] in st.denied
    decreases |rows|
  {
    if |rows| == 0 then (st, 0)
    else match WriteRow(st, paths[0], maxfreq, rows[0])
      case None => (st, 0)
      case Some(st1) =>
        var more := Emit(st1, paths[1..], maxfreq, rows[1..]);
        (more.0, more.1 + 1)
  }

  /** The completed cycles of a run, each `avg` spectra of the common width. */
  lemma CycleWidths(spectra: seq<seq<real>>, avg: nat, width: nat)
    requires avg >= 1 && Uniform(spectra, width)
    ensures forall e :: 0 <= e < |Feed(Fresh(avg, width), spectra, avg).1| ==>
      |Feed(Fresh(avg, width), spectra, avg).1[e]| == avg && Uniform(Feed(Fresh(avg, width), spectra, avg).1[e], width)
  {
    var c := Feed(Fresh(avg, width), spectra, avg).1;
    Cadence(Fresh(avg, width), spectra, avg);
    CyclesAreBlocks(spectra, avg);
    forall e | 0 <= e < |c| ensures |c[e]| == avg && Uniform(c[e], width) {
      BlockUniform(spectra, avg, width, e);
    }
  }

  lemma BlockUniform(spectra: seq<seq<real>>, avg: nat, width: nat, e: nat)
    requires avg >= 1 && e < |spectra| / avg && Uniform(spectra, width)
    ensures Uniform(Block(spectra, avg, e), width)
  {
    var b := Block(spectra, avg, e);
    forall j | 0 <= j < |b| ensures |b[j]| == width {
      assert b[j] == spectra[e * avg + j];
    }
  }

  /** The completed cycles of a run. */
  function RunCycles(g: Globals, cfg: Config, spectra: seq<seq<real>>): (c: seq<seq<seq<real>>>)
    requires Ready(g, cfg) && Uniform(spectra, g.samplerate / 2 + 1)
    ensures |c| == |spectra| / cfg.avgIntInSec
    ensures forall e :: 0 <= e < |c| ==> |c[e]| >= 1 && WideEnough(c[e], g.maxfreq)
  {
    var avg := cfg.avgIntInSec;
    var width := g.samplerate / 2 + 1;
    CycleWidths(spectra, avg, width);
    Cadence(Fresh(avg, width), spectra, avg);
    var c := Feed(Fresh(avg, width), spectra, avg).1;
    assert forall e :: 0 <= e < |c| ==> WideEnough(c[e], g.maxfreq) by {
      forall e | 0 <= e < |c| ensures WideEnough(c[e], g.maxfreq) {
        assert Uniform(c[e], width);
      }
    }
    c
  }

  /** The row text of cycle `e`. */
  function RowOf(g: Globals, cfg: Config, env: Env, cycle: seq<seq<real>>, e: nat): string
    requires |cycle| >= 1 && WideEnough(cycle, g.maxfreq)
  {
    CsvRow(env.clock(e), Cells(env, Values(cfg, env, Means(cycle, g.maxfreq))))
  }

  /** The row texts of the completed cycles of a run's spectra, in order. */
  function Rows(g: Globals, cfg: Config, env: Env, spectra: seq<seq<real>>): (rows: seq<string>)
    requires Ready(g, cfg) && Uniform(spectra, g.samplerate / 2 + 1)
    ensures |rows| == |spectra| / cfg.avgIntInSec
  {
    var cycles := RunCycles(g, cfg, spectra);
    seq(|cycles|, e requires 0 <= e < |cycles| => RowOf(g, cfg, env, cycles[e], e))
  }

  /** The dated file of each emission. */
  function Paths(cfg: Config, env: Env, count: nat): (paths: seq<string>)
    ensures |paths| == count
  {
    seq(count, e requires 0 <= e < count => CsvPath(cfg.outputDir, env.clock(e)))
  }

  /** The spectra of the passes the read loop makes, and whether it met a read error. */
  function Decoded(g: Globals, cfg: Config, env: Env, s: Stream): (r: (seq<seq<real>>, bool))
    requires Ready(g, cfg) && |s.bytes| >= HEADER_SIZE
    ensures Uniform(r.0, g.samplerate / 2 + 1)
  {
    var passes := Reads(s.bytes[HEADER_SIZE..], Initial(env, BytesPerSecond(g.samplerate, g.bitspersample)), s.tail);
    (Spectra(env.fft, passes.0, g.samplerate, g.bitspersample), passes.1)
  }

  /** The spectra computed up to the emission of row `k`. */
  function UpToEmission(spectra: seq<seq<real>>, avg: nat, k: nat): (r: seq<seq<real>>)
    requires avg >= 1 && k < |spectra| / avg
    ensures |r| == (k + 1) * avg && r <= spectra
  {
    BlockFits(|spectra|, avg, k);
    spectra[..(k + 1) * avg]
  }

  /** The averaging and the emissions over the spectra of a run; `readFailed` says
      whether the read loop ended with a read error. The emission of row `k` follows
      pass `(k + 1) * avg - 1`, so a write failing at row `k` stops the run after
      `(k + 1) * avg` spectra; otherwise every spectrum is computed. */
  function Finish(g: Globals, cfg: Config, env: Env, st: Store, spectra: seq<seq<real>>, readFailed: bool): (r: RunResult)
    requires Ready(g, cfg) && Uniform(spectra, g.samplerate / 2 + 1)
    ensures r.globals == g && Uniform(r.spectra, g.samplerate / 2 + 1)
    ensures r.outcome != WriteFailed ==> r.spectra == spectra
    ensures r.outcome == WriteFailed ==>
      |r.spectra| == (|r.rows| + 1) * cfg.avgIntInSec && r.spectra <= spectra
  {
    var avg := cfg.avgIntInSec;
    var rows := Rows(g, cfg, env, spectra);
    var emitted := Emit(st, Paths(cfg, env, |rows|), g.maxfreq, rows);
    if emitted.1 < |rows| then
      RunResult(WriteFailed, g, emitted.0, UpToEmission(spectra, avg, emitted.1), rows[..emitted.1])
    else
      RunResult(if readFailed then ReadFailed else Ended, g, emitted.0, spectra, rows)
  }

  /** The read loop and the emissions, from globals that passed the gate. */
  function Analyse(g: Globals, cfg: Config, env: Env, s: Stream, st: Store): (r: RunResult)
    requires Ready(g, cfg) && |s.bytes| >= HEADER_SIZE
    ensures r.globals == g && Uniform(r.spectra, g.samplerate / 2 + 1)
  {
    var decoded := Decoded(g, cfg, env, s);
    Finish(g, cfg, env, st, decoded.0, decoded.1)
  }

  /** One call of `mainloop`. */
  function Run(g: Globals, cfg: Config, env: Env, s: Stream, st: Store): (r: RunResult)
  {
    if |s.bytes| < HEADER_SIZE then RunResult(ShortHeader, g, st, [], [])
    else
      var checked := CheckHeader(ParseHeader(s.bytes[..HEADER_SIZE]), g);
      if checked.0.Rejected? then RunResult(InvalidHeader(checked.0.why), checked.1, st, [], [])
      else
        var g' := Clamp(checked.1);
        if !Defined(g', cfg) then RunResult(Undefined, g', st, [], [])
        else Analyse(g', cfg, env, s, st)
  }

  /** The header of a stream long enough to hold one. */
  function HeaderOf(s: Stream): Header
    requires |s.bytes| >= HEADER_SIZE
  {
    ParseHeader(s.bytes[..HEADER_SIZE])
  }

  /** The globals the read loop runs with: the header's rate and depth and the clamped
      `maxfreq`. */
  function Start(g: Globals, s: Stream): Globals
    requires |s.bytes| >= HEADER_SIZE
  {
    Clamp(CheckHeader(HeaderOf(s), g).1)
  }

  /** The run gets past the header and its sizes are defined. */
  predicate Admitted(g: Globals, cfg: Config, s: Stream) {
    |s.bytes| >= HEADER_SIZE && Supported(HeaderOf(s)) && Defined(Start(g, s), cfg)
  }
}
