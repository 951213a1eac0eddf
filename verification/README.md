# USBMicroReader in Dafny

USBMicroReader records sound from a USB microphone. The C program (`main.c`) reads
a RIFF/WAVE PCM stream, checks its header and decodes it one second at a time. It
folds the FFT of every second into a power spectrum and averages `avg_int_in_sec`
spectra per row. Each row goes to a CSV file named after the current date; a new
file gets a header line first. The Python script (`printspec.py`) reads such a
file back. It selects the frequency columns, cuts rows to a time-of-day window,
records hour ticks and removes a smoothed baseline from the values.

This project models that core as pure functions over immutable data:

- `Bytes`, `Riff`: the 44-byte header, how it is laid out and read, and
  `cheak_riff_header` with its side effects on the globals.
- `Reader`: the `feof`/`fread`/`ferror` read loop, including its stale last pass.
- `Pcm`: decoding 8-bit and 16-bit samples.
- `Spectrum`: the power-spectrum folding of `calc_power_spectrum`.
- `Averager`: the ring cursor `aind` over the averaging matrix, and the per-bin mean.
- `Decimal`, `Timestamp`: printf's `%W.Pi` and Python 2's `int()`, the dated path
  and the row timestamp.
- `Csv`, `FileStore`: CSV lines, `file_prepare` and the row append, over a file
  system given as a map from path to contents plus a set of paths that cannot be
  opened.
- `Settings`, `StreamProcessor`: one call of `mainloop` as a function of the
  globals, the stream, the file system and the foreign parts.
- `RunLaws`: what one run of `mainloop` guarantees.
- `Printspec`: the script's helpers. `CsvReader`: `read_csvfile`.
- `Interop`: what the C program writes, read back by the script.

The foreign parts are parameters of a run (`StreamProcessor.Env`):

- the transform, as any length-preserving function;
- the indeterminate first contents of the read buffer;
- the local time at each emission;
- the `%.3f` conversion;
- `todB`.

On the script side, `float()` is the parameter `parseFloat`.

Where a C construct has no defined behaviour, the run ends with outcome
`Undefined` instead of being excluded by a precondition. This covers a
variable-length array of size zero or less (`samplerate <= 0` or
`avg_int_in_sec <= 0`) and a byte rate that overflows `int`.

## Model

| member | source | states |
|---|---|---|
| Bytes.Signed16 | main.c:55-56 | reinterpreting an unsigned 16-bit pattern as `int16_t` gives the unique value in [-32768, 32767] congruent to it mod 65536 |
| Bytes.Signed32 | main.c:51 | the same for `int32_t`: the value in [-2^31, 2^31) congruent mod 2^32 |
| Bytes.U16 | main.c:303-305 | two bytes, low first, make an unsigned value below 65536 |
| Bytes.Int16At | main.c:55-60 | an `int16_t` field read from the stream lies in the 16-bit range |
| Bytes.Int32At | main.c:51-62 | an `int32_t` field read from the stream lies in the 32-bit range |
| Bytes.Int16RoundTrip | main.c:303-305 | decoding the little-endian bytes of any v in [-32768, 32767] gives v back |
| Bytes.Int16Surjective | main.c:303-305 | every byte pair is the encoding of the value it decodes to, so 16-bit decoding is a bijection onto [-32768, 32767] |
| Bytes.Int32RoundTrip | main.c:51-62 | decoding the little-endian bytes of any 32-bit value gives it back |
| Riff.ParseHeader | main.c:48-63 | 44 raw bytes read into `t_RIFF_header` give 4-byte tags and fields within their C types |
| Riff.ParseEncode | main.c:48-63 | reading back the bytes of any representable header gives the same header, so the packed layout has no gaps or overlaps |
| Riff.CheckHeader | main.c:118-150 | accepted iff the tags are "RIFF", "WAVE" and "fmt ", Subchunk1Size is 16, AudioFormat 1, one channel and 8 or 16 bits. The rate and depth are stored in the globals exactly when the channel check passed, even if the bit depth is then refused. `maxfreq` is never changed |
| Riff.FirstFailedCheck | main.c:118-150 | a refusal names the first failing check in source order: the header fails it and passes every earlier one |
| Riff.CheckIgnoresOtherFields | main.c:118-150 | ChunkSize, ByteRate, BlockAlign, Subchunk2ID and Subchunk2Size never change the verdict or the globals |
| Pcm.BytesPerSecond | main.c:277 | a read is `samplerate` bytes for 8-bit and `2 * samplerate` bytes for 16-bit samples |
| Pcm.DecodeFrame | main.c:293-310 | a buffer of `bytespersec` bytes decodes to `samplerate` samples; its index checks show that no byte at or past `bytespersec` is read |
| Pcm.Decode16RoundTrip | main.c:303-309 | a 16-bit buffer carrying the values v decodes to v / 32768 for each value, in order |
| Pcm.EncodedSample | main.c:303-309 | sample i of such a buffer is `v[i] / 32768` |
| Pcm.Decode8Range | main.c:297-309 | an 8-bit byte b decodes to b / 128, so every 8-bit sample lies in [0, 2): it is not re-centred |
| Pcm.Decode16Range | main.c:303-309 | every 16-bit sample lies in [-1, 1) |
| Spectrum.PowerSpectrum | main.c:94-116 | N transform outputs give N/2 + 1 bins; the index checks show `out` is read only in [0, N) |
| Spectrum.WriteOrderCoversOnce | main.c:103-113 | the indices written, in writing order, are 0, 1, ..., N/2 for odd and even N: each bin exactly once |
| Spectrum.CalcPowerSpectrum | main.c:94-116 | the loop overwrites the whole row with the squared magnitude of every bin; nothing of the previous row survives and every value is at least 0 |
| Spectrum.SquaresNonNegative | main.c:103-113 | every bin of the power spectrum is a sum of squares, so it is at least 0 |
| Averager.Fresh | main.c:280-281 | the matrix starts with `avg` rows of the given width and the cursor at 0 |
| Averager.Push | main.c:314-319 | a spectrum is stored in the cursor's row and no other row changes. The cursor advances modulo `avg`, and a cycle completes exactly when it wraps |
| Averager.Feed | main.c:283-319 | however many spectra are pushed, the matrix keeps its `avg` rows and the cursor stays in [0, avg) |
| Averager.FeedCycles | main.c:314-319 | from any cursor, the matrix at each completed cycle holds that cycle's spectra in order; the unfinished cycle's spectra wait in the first rows |
| Averager.CyclesShape | main.c:314-319 | m spectra make m / avg cycles, and cycle e is spectra e·avg to (e+1)·avg - 1 |
| Averager.CyclesAreBlocks | main.c:314-319 | the same, with the cycles named as blocks of the spectra |
| Averager.Cadence | main.c:281-319 | from a fresh matrix, m spectra give exactly m / avg emissions, one per consecutive group of `avg`, and leave the cursor at m mod avg |
| Averager.Means | main.c:348-357 | a row has max(0, maxfreq - 1) value columns |
| Averager.MeansBetween | main.c:348-357 | each column is a mean: it lies between the least and greatest value the matrix holds at that bin |
| Averager.MeansOfConstant | main.c:348-357 | a matrix whose rows all equal one spectrum averages back to that spectrum's bins 1 .. maxfreq-1 |
| Reader.Reads | main.c:283-291 | every pass decodes a buffer of the full buffer size, however little the read delivered |
| Reader.LastPass | main.c:283-285 | the pass that meets end-of-file decodes a full-width buffer |
| Reader.ReadsCount | main.c:283-291 | a body of m bytes read n at a time gives m / n + 1 passes at end-of-file, the last after the data ran out. At a read error it gives m / n passes and the run fails |
| Reader.ReadsBlock | main.c:283-285 | pass i < m / n decodes the i-th n-byte block of the body |
| Reader.ReadsLast | main.c:283-285 | at end-of-file, the last pass decodes the m mod n leftover bytes followed by the stale tail of the previous buffer |
| Reader.LastPassShift | main.c:283-285 | one full read moves the last pass's buffer along unchanged |
| Reader.BeforeShift | main.c:283-285 | one full read moves the buffer held before the last pass along unchanged |
| StreamProcessor.Half | main.c:274 | `samplerate / 2` truncates toward zero, for negative rates too |
| StreamProcessor.Clamp | main.c:274 | the clamp lowers `maxfreq` to `samplerate / 2` when it is above, and otherwise keeps it. It never raises it and leaves rate and depth alone |
| StreamProcessor.Initial | main.c:278 | the buffer starts with `bytespersec` indeterminate bytes |
| StreamProcessor.SpectrumOf | main.c:293-315 | N decoded samples give a spectrum of N/2 + 1 bins |
| StreamProcessor.Spectra | main.c:283-315 | one spectrum per pass, every one `samplerate / 2 + 1` wide |
| StreamProcessor.Values | main.c:359-366 | one value per mean, and the means themselves unless `in_db` is set |
| StreamProcessor.Cell | main.c:359-366 | a formatted value never contains a comma |
| StreamProcessor.Cells | main.c:348-367 | one comma-free cell per value |
| StreamProcessor.Emit | main.c:327-340 | emissions stop at the first whose dated file cannot be opened; every file written to could be opened |
| StreamProcessor.CycleWidths | main.c:280-319 | every completed cycle holds `avg` spectra of the row width |
| StreamProcessor.RunCycles | main.c:274-354 | after the clamp, every bin 1 .. maxfreq-1 the mean reads lies inside the row width `samplerate / 2 + 1` |
| StreamProcessor.Paths | main.c:327-330 | one dated path per emission |
| StreamProcessor.Decoded | main.c:283-315 | the spectra of a run all have the row width |
| StreamProcessor.Finish | main.c:314-370 | the averaging and writes keep the globals. Every spectrum is computed unless a write fails; a write failing at row k stops the run after exactly (k + 1) * `avg` spectra, a prefix of them |
| StreamProcessor.Analyse | main.c:283-372 | the read loop leaves the globals as the gate left them |
| Decimal.FormatInt | main.c:344-346 | `%W.Pi` writes digits, with a leading minus sign only for a negative value |
| Decimal.FormatIntRoundTrip | main.c:344-346 | whatever printf writes with `%i` or `%W.Pi`, Python's `int()` reads back as the same integer |
| Decimal.FormatIntWidth | main.c:344-346 | a value with no more digits than the precision is written with exactly `precision` digits |
| Decimal.Slice | printspec.py:31-40 | a Python slice within bounds is the subsequence, and never longer than the string |
| Decimal.DropLast | printspec.py:124 | `c[:-3]` is all but the last three characters, and empty for a shorter string |
| Timestamp.TimestampLayout | main.c:344-346 | the row timestamp of an in-range time is 19 characters `YYYY-MM-DD HH:MM:SS`, each field at its fixed position |
| Timestamp.DateLayout | main.c:328-330 | the date part is 10 characters `YYYY-MM-DD` |
| Timestamp.FormatIntInjective | main.c:328-330 | two integers with the same `%W.Pi` text are equal |
| Timestamp.PathKeyedByDate | main.c:327-330 | two in-range times share a CSV path exactly when they fall on the same date |
| FileStore.FreqLabels | main.c:195-198 | the header has max(0, maxfreq - 1) frequency columns |
| FileStore.PrefixedIsJoin | main.c:193-200 | the first name followed by `,x` per later name is the comma-joined line |
| FileStore.HeaderFields | main.c:193-200 | the header is the CSV line `timestamp,1 Hz,...,(maxfreq-1) Hz` |
| FileStore.RowFields | main.c:344-369 | a data row is the CSV line of the timestamp and the cells |
| FileStore.FilePrepare | main.c:157-206 | fails exactly when the path cannot be opened. An existing file is left unchanged; a missing one is created. No other file is created or removed |
| FileStore.AppendText | main.c:334-340 | appending fails exactly when the path cannot be opened |
| FileStore.WriteRowAppends | main.c:332-370 | one emission appends its row after the header when the file was new, and otherwise after what the file held |
| FileStore.HeaderOnce | main.c:174-206 | after n emissions into an openable file it holds one header (only if it was new) and then the rows in order, and no other file changes. A file that cannot be opened fails at the first emission |
| Csv.Split | printspec.py:90 | a line is read as the empty record exactly when it is empty; blank records are the ones `DictReader` skips |
| Csv.SplitJoin | main.c:193-200 | splitting a comma-joined line of comma-free fields gives the fields back, except that the single empty field joins to an empty line, which reads as the empty record |
| RunLaws.Gate | main.c:260-281 | a stream shorter than 44 bytes ends the run as a read error. A refused header ends it with the check's reason and the globals the check left. Either way nothing is decoded and no file is touched; past the gate, the run analyses from the clamped globals |
| RunLaws.MaxfreqNeverRises | main.c:274 | a run never raises `maxfreq`. Once a header is accepted, `maxfreq` stays at most half its sample rate, in the globals the next run starts from |
| RunLaws.ClampCarriesOver | main.c:274 | after a 100 Hz stream is accepted with the default `maxfreq` of 100, it is 50, and no later run brings it back above 50 |
| RunLaws.DepthRefusalLeavesRate | main.c:140-147 | a header refused for its bit depth still leaves its rate and depth in the globals |
| RunLaws.Frames | main.c:283-315 | with n = bytespersec and m body bytes, pass i < m / n analyses the i-th n-byte block. At end-of-file one more pass analyses the leftover bytes with the stale rest of the buffer; a read error is reported instead |
| RunLaws.FrameBlock | main.c:283-315 | pass i < m / n analyses the i-th block of the body |
| RunLaws.SpectraBlock | main.c:293-315 | the spectrum of full pass i is the spectrum of the i-th block |
| RunLaws.FrameLast | main.c:283-315 | at end-of-file, pass m / n analyses the leftover bytes followed by the stale rest of the buffer |
| RunLaws.SpectraLast | main.c:293-315 | the spectrum of the end-of-file pass is the spectrum of its buffer |
| RunLaws.Outcomes | main.c:283-374 | past the gate, a run ends cleanly at end-of-file and with the read error otherwise, unless a write failed first. It computes the spectrum of every pass, or, when the write of row k fails, of the first (k + 1) * `avg` passes only |
| RunLaws.CycleRows | main.c:314-357 | one row per completed cycle, and row e holds the means of spectra e·avg to (e+1)·avg - 1 |
| RunLaws.Emissions | main.c:327-370 | the rows written are the cycles' rows in order, all of them unless a write failed. The run ends cleanly only at end-of-file with every row written |
| RunLaws.WriteStops | main.c:332-340 | every row written went to a file that could be opened, and a failed write stopped at the next emission's file |
| RunLaws.TimestampNoComma | main.c:344-346 | the row timestamp contains no comma |
| RunLaws.RowLayout | main.c:344-369 | a data row is the timestamp and one cell per bin 1 .. maxfreq-1, each the formatted mean of that bin over the cycle (its decibels with `in_db`). Split at its commas, it gives those fields back |
| RunLaws.CellContents | main.c:348-366 | cell i is the formatted sum of bin i + 1 over the cycle divided by `avg`, or the decibels of that mean |
| RunLaws.EmitOneFile | main.c:327-370 | emissions that all go to one openable file append every row; to an unopenable file they write nothing |
| RunLaws.OneFilePerDay | main.c:327-370 | when every emission falls on one date, the date's file gets the header only if it was new, then every row in order, and no other file changes. If that file cannot be opened, nothing is written |
| Printspec.AppendHz | printspec.py:28-29 | cutting " Hz" off the name of frequency v and reading the rest with `int()` gives v, for every integer v |
| Printspec.ShortenTimestamp | printspec.py:34-40 | for a well-formed timestamp the short form is its first 16 characters `YYYY-MM-DD HH:MM` |
| Printspec.CompareTimestamps | printspec.py:43-56 | fails exactly when an hour or minute does not read. Otherwise it is 1, 0 or -1 as time2 is later than, equal to or earlier than time1 in (hour, minute) order |
| Printspec.CompareAntisymmetric | printspec.py:43-56 | swapping the arguments negates the result, and one order fails exactly when the other does |
| Printspec.Least | printspec.py:62 | `min` is an element of the list and no element is below it |
| Printspec.WindowMin | printspec.py:66-72 | the least minimum of a window is one of the window's minima and no greater than any of them |
| Printspec.Window | printspec.py:65-72 | the window [max(0, i-10), min(n, i+10)) is never empty, holds i and spans at most 20 rows |
| Printspec.RowMinima | printspec.py:59-62 | one minimum per row, an element of its row and no greater than any value of it; an empty row raises `ValueError` |
| Printspec.InWindow | printspec.py:65-81 | the slice `minvs[a:e]` is the window's values in order |
| Printspec.SmoothMin | printspec.py:65-73 | the smoothed minimum of row i is one of the minima in its window and no greater than any of them, the row's own included |
| Printspec.SmoothMean | printspec.py:74-81 | one mean per row |
| Printspec.MeanOfBetween | printspec.py:81 | a mean lies between the least and greatest element |
| Printspec.SmoothMeanBetween | printspec.py:74-81 | the second pass's value for row i lies between the least and the greatest first-pass value in its window |
| Printspec.Baseline | printspec.py:58-81 | one baseline per row |
| Printspec.NormalizeValues | printspec.py:58-86 | keeps the number of rows and every row's length, and fails exactly when some row is empty |
| Printspec.Shifted | printspec.py:82-85 | the shift and scale keep the shape of the matrix |
| CsvReader.DictRow | printspec.py:90 | the keys of a `DictReader` row are exactly the header names |
| CsvReader.DictRowValue | printspec.py:90 | the value under a name is the field at the last column of that name, or `None` when the record is too short |
| CsvReader.Dedupe | printspec.py:122 | the keys of the row, each name once |
| CsvReader.Without | printspec.py:123 | `remove` takes out one occurrence and nothing else |
| CsvReader.All | printspec.py:124 | a list of values exists exactly when every element is present, and holds them in order |
| CsvReader.ParseAll | printspec.py:124 | the names parse exactly when every one reads as a frequency, and the result is their frequencies in order |
| CsvReader.InsertSorted | printspec.py:125 | insertion into a sorted list keeps it sorted |
| CsvReader.Sort | printspec.py:125 | `sort()` gives an ascending permutation |
| CsvReader.Filter | printspec.py:126-127 | `filter` never lengthens a list |
| CsvReader.FilterCounts | printspec.py:126-127 | every admitted element stays as often as it occurs; no other element stays |
| CsvReader.FilterKeeps | printspec.py:126-127 | only admitted elements of the list remain |
| CsvReader.FilterSorted | printspec.py:126-127 | filtering keeps the order |
| CsvReader.Bounded | printspec.py:126-127 | the bound is read only for a non-empty list, and fails exactly when it does not read. The result is sorted when the input is, and holds exactly the elements on the right side of the bound |
| CsvReader.Cut | printspec.py:126-127 | both range filters: the result is sorted and lies in [int(minfreq), int(maxfreq)] |
| CsvReader.SelectFrequencies | printspec.py:121-128 | the selected frequencies are sorted and lie in [int(minfreq), int(maxfreq)]. Selection fails when "timestamp" is missing, a name is not a frequency, or the first record is longer than the header |
| CsvReader.SelectedAreInRange | printspec.py:121-128 | with both bounds readable, the selection is exactly the header frequencies in [lo, hi], as often as each occurs, and it fails exactly when the header does |
| CsvReader.Admit | printspec.py:131-135 | both comparisons must read. With the cut off every row is kept; with it on, a row is kept iff mintime ≤ its `HH:MM` ≤ maxtime |
| CsvReader.LineOf | printspec.py:143-155 | a line is one value per selected frequency in order, or nothing when any value fails |
| CsvReader.Keep | printspec.py:137-157 | a kept row adds a tick at `index`, labelled with the short timestamp, exactly when its hour differs from the previous kept row's. It adds its line when that parses, and always advances `index` |
| CsvReader.Step | printspec.py:106-157 | a row keeps the scan's invariant. It advances `index` by at most one and fixes the frequencies at the first row; a blank record changes nothing, and a row not counted adds no tick or line |
| CsvReader.ScanAll | printspec.py:106-157 | after all rows, ticks are strictly increasing from 0 with one label each. There are no more lines than kept rows, each as wide as the frequency list |
| CsvReader.Transpose | printspec.py:160 | `zip(*lines)` gives one tuple per frequency, each holding one value per line; no lines give no tuples |
| CsvReader.TransposeTwice | printspec.py:160 | transposing back gives the lines again: no value is lost or moved |
| CsvReader.ReadCsv | printspec.py:88-165 | the ticks are strictly increasing and start at 0, one label each, and the value matrix has one row per selected frequency |
| Interop.HourReadsBack | main.c:344-346 | `get_hour` of a written row timestamp is the hour that was written |
| Interop.ShortFormReadsBack | main.c:344-346 | a written timestamp is well formed for the script, and its short form is the written date, hour and minute |
| Interop.ClockReadsBack | main.c:344-346 | the `HH:MM` key of a written timestamp reads as the written hour and minute |
| Interop.LabelReadsBack | main.c:197 | the C program's name for bin i is the script's name for frequency i, and reads back as i |
| Interop.SortInterval | printspec.py:125 | sorting the written frequencies changes nothing |
| Interop.FilterFrom | printspec.py:126 | the lower-bound filter cuts a .. b-1 to max(a, lo) .. b-1 |
| Interop.FilterUpTo | printspec.py:127 | the upper-bound filter cuts a .. b-1 to a .. min(b-1, hi) |
| Interop.DedupeDistinct | printspec.py:122 | names that are already distinct are kept as they are |
| Interop.HeaderNoCommas | main.c:193-200 | no name in a written header contains a comma |
| Interop.HeaderDistinct | main.c:193-200 | no two columns of a written header have the same name |
| Interop.HeaderSplits | main.c:193-200 | the written header line splits back into its names |
| Interop.WrittenNames | main.c:193-200 | the frequency columns of a written header are its bin names |
| Interop.WrittenFrequencies | main.c:195-198 | the bin names read back as 1 .. written-1 |
| Interop.BoundsCut | printspec.py:126-127 | the two range filters cut a .. b-1 to max(a, lo) .. min(b-1, hi) |
| Interop.WrittenHeaderSelects | main.c:193-200 | reading a written header with readable bounds selects exactly the bins max(1, lo) .. min(maxfreq-1, hi), ascending |
| Interop.RowReadsBack | main.c:344-369 | a written row, read with the written header, has the written timestamp under "timestamp" and the cell written for bin f under the name of frequency f |

## Left out

- `rfftw_*`: the transform is a parameter (any length-preserving function).
- `todB`, `log10` and `%.3f`: they are floating-point conversions and are parameters. The only thing assumed of `%.3f` is that its text has no comma.
- The `float` accumulator of the mean (main.c:350-357): it is single precision in C, but the model uses exact reals.
- All floating-point arithmetic is over exact reals: the `fftw_real` doubles of `calc_power_spectrum` (main.c:102-113) and the Python floats of `normalize_values` and `read_csvfile` (printspec.py:81-85 and 149-150). Rounding is not modelled.
- Averager.MeansBetween: holds for exact values; in the program it holds only up to rounding, since a rounded mean can fall just outside the values it averages (three times 0.1 summed in doubles, divided by 3, is above 0.1).
- Printspec.MeanOfBetween: holds for exact values; the Python `sum(...)/len(...)` meets it only up to rounding.
- Printspec.SmoothMeanBetween: holds for exact values; the Python window means meet it only up to rounding.
- Decimal.ParseInt: the `long` fallback of Python 2's `int()` on overflow also accepts a trailing `L`; such text is read as an error here. The C program never writes it.
- NaN and infinities do not arise over reals.
- `controlloop`: spawning `arecord`, pipes, `usleep` and the retry loop are process supervision outside the logic.
- `write_wav` and `close_wav`: libsndfile output. Writing the WAV copy does not affect what the run computes.
- `time` and `localtime`: the clock is a parameter giving the broken-down time of each emission.
- GOption and argparse parsing: their results are the globals, `Config` and `CsvReader.Options`.
- The unused counter `n` after the header read (main.c:276, 285).
- The error messages printed.
- One permission bit per path (`denied`) stands for every way `fopen` can fail in any mode.
- A file removed between `file_prepare` and the reopen is not modelled.
- The record boundaries of the CSV file are given as already split records. The `csv` module's quoting, its errors, and the branch that prints and retries after a failing `next()` (printspec.py:111-118) are not modelled: the C program writes no quotes.
- `float()` is the parameter `parseFloat`.
- `hour is not ohour` (printspec.py:138) is modelled as `!=`. CPython caches the small integers, so the two agree for every hour a written timestamp holds (0 to 23). For hours of -9 to -6, which no written file contains, `is not` would see a new tick every row.
- The order of `row.keys()` is not modelled, because the frequencies are sorted right after.
- The unused `offset` argument of `normalize_values` is not modelled.
- `plot_csvfile` and `get_csv_files_in_directory`: matplotlib, PIL and directory walking.
- Printspec.SmoothMean: its contract states only the length. What it means is stated by `SmoothMeanBetween`.
- Printspec.Baseline: its contract states only the length. The values are the second-pass means of `SmoothMean`.
- CsvReader.ReadCsv: its contract states the tick structure and the matrix shape. Row selection and line contents are stated by `Admit`, `Keep`, `LineOf` and `SelectedAreInRange`.
