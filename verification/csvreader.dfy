/** `read_csvfile` of the plotting script (printspec.py:88-165): the header becomes the
    sorted list of selected frequencies, rows outside the `HH:MM` window are dropped,
    an hour tick is recorded whenever the hour changes, every kept row contributes a
    line of values (when they all parse), and the lines are transposed into one row
    per frequency and, without a dB offset, normalized.

    The file arrives already split into records (`csv.reader`'s lists of fields), the
    first being the header. Python's `float()` is the parameter `parseFloat`. `None`
    results stand for the exceptions the function does not catch. */
module CsvReader {
  import opened Wrappers
  import opened Decimal
  import opened Printspec

  // ---------------------------------------------------------------------------
  // csv.DictReader rows

  /** `dict(zip(fieldnames, record))`, then `restval` (`None`) for every header name at a
      position the record does not reach; a later column of the same name overwrites an
      earlier one. */
  function DictRow(header: seq<string>, record: seq<string>): (row: map<string, Option<string>>)
    ensures forall k :: k in row <==> k in header
  {
    if |header| == 0 then map[]
    else
      var j := |header| - 1;
      DictRow(header[..j], record)[header[j] := if j < |record| then Some(record[j]) else None]
  }

  /** `j` is the last column named `header[j]`. */
  predicate LastOfName(header: seq<string>, j: nat) {
    j < |header| && forall i :: j < i < |header| ==> header[i] != header[j]
  }

  /** The value under a name is the field at the last column of that name, or `None`
      when the record is too short to reach it. */
  lemma {:induction false} DictRowValue(header: seq<string>, record: seq<string>, j: nat)
    requires LastOfName(header, j)
    ensures header[j] in DictRow(header, record)
    ensures DictRow(header, record)[header[j]] == if j < |record| then Some(record[j]) else None
  {
    var n := |header| - 1;
    if j < n {
      assert header[..n][j] == header[j];
      DictRowValue(header[..n], record, j);
    }
  }

  predicate Distinct<T(==)>(xs: seq<T>) {
    forall i, j :: 0 <= i < j < |xs| ==> xs[i] != xs[j]
  }

  /** The keys of the row dict, each name once, in order of first appearance (the
      order is immaterial: the frequencies get sorted). */
  function Dedupe(xs: seq<string>): (r: seq<string>)
    ensures Distinct(r)
    ensures forall x :: x in r <==> x in xs
  {
    if |xs| == 0 then []
    else
      var r := Dedupe(xs[..|xs| - 1]);
      var x := xs[|xs| - 1];
      assert forall y :: y in xs <==> y in xs[..|xs| - 1] || y == x;
      if x in r then r else r + [x]
  }

  /** `list.remove(x)`: the first occurrence of `x` is taken out. */
  function Without(xs: seq<string>, x: string): (r: seq<string>)
    requires x in xs
    ensures multiset(r) == multiset(xs) - multiset{x}
  {
    if xs[0] == x then
      assert xs == [x] + xs[1..];
      xs[1..]
    else
      assert xs == [xs[0]] + xs[1..];
      [xs[0]] + Without(xs[1..], x)
  }

  // ---------------------------------------------------------------------------
  // The frequency columns

  /** The frequency of a column name: `int(c[:-3])`. */
  function ColumnFrequency(c: string): Option<int> {
    ParseInt(DropLast(c, 3))
  }

  /** The list of the values when every one is present; `None` as soon as one is missing. */
  function All<T>(xs: seq<Option<T>>): (r: Option<seq<T>>)
    ensures r.Some? <==> forall k :: 0 <= k < |xs| ==> xs[k].Some?
    ensures r.Some? ==> |r.value| == |xs| && forall k :: 0 <= k < |xs| ==> r.value[k] == xs[k].value
  {
    if |xs| == 0 then Some([])
    else
      var v :- xs[0];
      var rest :- All(xs[1..]);
      assert forall k :: 1 <= k < |xs| ==> xs[1..][k - 1] == xs[k];
      Some([v] + rest)
  }

  /** `map(int, map(lambda c: c[:-3], names))`: `None` when one name does not read. */
  function ParseAll(names: seq<string>): (r: Option<seq<int>>)
    ensures r.Some? <==> forall i :: 0 <= i < |names| ==> ColumnFrequency(names[i]).Some?
    ensures r.Some? ==> |r.value| == |names|
    ensures r.Some? ==> forall i :: 0 <= i < |names| ==> r.value[i] == ColumnFrequency(names[i]).value
  {
    var values := seq(|names|, i requires 0 <= i < |names| => ColumnFrequency(names[i]));
    assert forall i :: 0 <= i < |names| ==> values[i] == ColumnFrequency(names[i]);
    All(values)
  }

  predicate Sorted(xs: seq<int>) {
    forall i, j :: 0 <= i < j < |xs| ==> xs[i] <= xs[j]
  }

  /** `x` put before the first element not below it. */
  function Insert(x: int, s: seq<int>): (r: seq<int>)
    ensures multiset(r) == multiset(s) + multiset{x}
  {
    if |s| == 0 then [x]
    else if x <= s[0] then [x] + s
    else
      assert s == [s[0]] + s[1..];
      [s[0]] + Insert(x, s[1..])
  }

  lemma {:induction false} InsertSorted(x: int, s: seq<int>)
    requires Sorted(s)
    ensures Sorted(Insert(x, s))
  {
    if |s| > 0 && x > s[0] {
      InsertSorted(x, s[1..]);
      var rest := Insert(x, s[1..]);
      forall k | 0 <= k < |rest| ensures s[0] <= rest[k] {
        assert rest[k] in multiset(rest);
        assert rest[k] in multiset(s[1..]) + multiset{x};
      }
    }
  }

  /** `list.sort()` on integers: ascending, the same elements. */
  function Sort(xs: seq<int>): (r: seq<int>)
    ensures Sorted(r)
    ensures multiset(r) == multiset(xs)
  {
    if |xs| == 0 then []
    else
      assert xs == [xs[0]] + xs[1..];
      var rest := Sort(xs[1..]);
      InsertSorted(xs[0], rest);
      Insert(xs[0], rest)
  }

  /** `filter(keep, xs)`: the elements `keep` admits, in their order. */
  function Filter(xs: seq<int>, keep: int -> bool): (r: seq<int>)
    ensures |r| <= |xs|
  {
    if |xs| == 0 then []
    else
      var rest := Filter(xs[1..], keep);
      if keep(xs[0]) then [xs[0]] + rest else rest
  }

  /** Every element `keep` admits stays, as often as it occurs; no other does. */
  lemma {:induction false} FilterCounts(xs: seq<int>, keep: int -> bool)
    ensures forall v :: multiset(Filter(xs, keep))[v] == if keep(v) then multiset(xs)[v] else 0
  {
    if |xs| > 0 {
      FilterCounts(xs[1..], keep);
      assert xs == [xs[0]] + xs[1..];
    }
  }

  /** Only admitted elements of the list remain. */
  lemma {:induction false} FilterKeeps(xs: seq<int>, keep: int -> bool)
    ensures forall k :: 0 <= k < |Filter(xs, keep)| ==> Filter(xs, keep)[k] in xs && keep(Filter(xs, keep)[k])
  {
    if |xs| > 0 {
      FilterKeeps(xs[1..], keep);
      var rest := Filter(xs[1..], keep);
      assert forall k :: 0 <= k < |rest| ==> rest[k] in xs;
    }
  }

  /** Filtering keeps the order. */
  lemma {:induction false} FilterSorted(xs: seq<int>, keep: int -> bool)
    requires Sorted(xs)
    ensures Sorted(Filter(xs, keep))
  {
    if |xs| > 0 {
      FilterSorted(xs[1..], keep);
      FilterKeeps(xs[1..], keep);
      var rest := Filter(xs[1..], keep);
      assert forall k :: 0 <= k < |rest| ==> xs[0] <= rest[k];
    }
  }

  /** One of the two range filters: the bound is read with `int()` inside the lambda,
      so it is only read, and can only fail, when the list is not empty. */
  function Bounded(xs: seq<int>, bound: string, lower: bool): (r: Option<seq<int>>)
    ensures |xs| == 0 ==> r == Some([])
    ensures |xs| > 0 ==> (r.Some? <==> ParseInt(bound).Some?)
    ensures r.Some? && Sorted(xs) ==> Sorted(r.value)
    ensures r.Some? ==> forall k :: 0 <= k < |r.value| ==> (r.value[k] in xs &&
      (if lower then r.value[k] >= ParseInt(bound).value else r.value[k] <= ParseInt(bound).value))
    ensures r.Some? && |xs| > 0 ==> forall v :: (multiset(r.value)[v] ==
      if (if lower then v >= ParseInt(bound).value else v <= ParseInt(bound).value) then multiset(xs)[v] else 0)
  {
    if |xs| == 0 then Some([])
    else
      var b :- ParseInt(bound);
      var keep := a => if lower then a >= b else a <= b;
      FilterKeeps(xs, keep);
      FilterCounts(xs, keep);
      if Sorted(xs) then
        FilterSorted(xs, keep);
        Some(Filter(xs, keep))
      else Some(Filter(xs, keep))
  }

  /** The header names that are frequency columns: every key of the row dict but
      "timestamp". */
  function FrequencyNames(header: seq<string>): seq<string>
    requires "timestamp" in header
  {
    var keys := Dedupe(header);
    Without(keys, "timestamp")
  }

  /** Both range filters, `>= int(minfreq)` first and then `<= int(maxfreq)`. */
  function Cut(sorted: seq<int>, minfreq: string, maxfreq: string): (r: Option<seq<int>>)
    ensures r.Some? && Sorted(sorted) ==> Sorted(r.value)
    ensures r.Some? && |r.value| > 0 ==> ParseInt(minfreq).Some? && ParseInt(maxfreq).Some?
    ensures r.Some? ==> forall k :: 0 <= k < |r.value| ==>
      ParseInt(minfreq).value <= r.value[k] <= ParseInt(maxfreq).value
  {
    var lower :- Bounded(sorted, minfreq, true);
    var both :- Bounded(lower, maxfreq, false);
    assert forall k :: 0 <= k < |both| ==> both[k] in lower;
    Some(both)
  }

  /** The frequencies taken from the first row's keys (printspec.py:122-127): `None`
      when "timestamp" is not a key (`remove` fails), when the first record is longer
      than the header (the key `None` has no `[:-3]`), when a name does not read as a
      frequency, or when a bound is needed and does not read. Otherwise the result is
      sorted and within the bounds; `SelectedAreInRange` adds that it holds every header
      frequency within the bounds, as often as it occurs. */
  function SelectFrequencies(header: seq<string>, extra: bool, minfreq: string, maxfreq: string): (r: Option<seq<int>>)
    ensures r.Some? ==> Sorted(r.value)
    ensures r.Some? ==> !extra && "timestamp" in header && ParseAll(FrequencyNames(header)).Some?
    ensures r.Some? && |r.value| > 0 ==> ParseInt(minfreq).Some? && ParseInt(maxfreq).Some?
    ensures r.Some? ==> forall k :: 0 <= k < |r.value| ==>
      ParseInt(minfreq).value <= r.value[k] <= ParseInt(maxfreq).value
  {
    if extra || "timestamp" !in header then None
    else
      var parsed :- ParseAll(FrequencyNames(header));
      Cut(Sort(parsed), minfreq, maxfreq)
  }

  /** With both bounds readable, the selection is exactly the header frequencies in
      `[lo, hi]` (as a multiset), and it fails exactly when the header does. */
  lemma SelectedAreInRange(header: seq<string>, extra: bool, minfreq: string, maxfreq: string, lo: int, hi: int)
    requires ParseInt(minfreq) == Some(lo) && ParseInt(maxfreq) == Some(hi)
    ensures var r := SelectFrequencies(header, extra, minfreq, maxfreq);
      && (r.Some? <==> !extra && "timestamp" in header && ParseAll(FrequencyNames(header)).Some?)
      && (r.Some? ==> forall v :: (multiset(r.value)[v] ==
            if lo <= v <= hi then multiset(ParseAll(FrequencyNames(header)).value)[v] else 0))
  {
    var r := SelectFrequencies(header, extra, minfreq, maxfreq);
    if !extra && "timestamp" in header && ParseAll(FrequencyNames(header)).Some? {
      var parsed := ParseAll(FrequencyNames(header)).value;
      var sorted := Sort(parsed);
      var lower := Bounded(sorted, minfreq, true);
      assert lower.Some?;
      var both := Bounded(lower.value, maxfreq, false);
      assert both.Some?;
      assert r == both;
      forall v ensures multiset(r.value)[v] == if lo <= v <= hi then multiset(parsed)[v] else 0 {
        if |sorted| == 0 {
          assert multiset(parsed) == multiset{};
        } else {
          assert multiset(lower.value)[v] == if v >= lo then multiset(sorted)[v] else 0;
          if |lower.value| > 0 {
            assert multiset(r.value)[v] == if v <= hi then multiset(lower.value)[v] else 0;
          } else {
            assert multiset(lower.value)[v] == 0;
          }
        }
      }
    }
  }

  // ---------------------------------------------------------------------------
  // One row

  /** The options `read_csvfile` receives, as the strings argparse delivers. */
  datatype Options = Options(
    mintime: string, maxtime: string,
    minfreq: string, maxfreq: string,
    dboffset: Option<string>, scale: string)

  /** The time cut (printspec.py:131-135): both comparisons against the row's `HH:MM`
      (`timestamp[11:16]`) are made, and either failing is fatal; with the cut on, a row
      is kept iff `mintime <= HH:MM <= maxtime`, with the cut off every row is kept. */
  function Admit(opts: Options, timecut: bool, ts: string): (r: Option<bool>)
    ensures var t := ReadHourMinute(Slice(ts, 11, 16));
      r.Some? <==> ReadHourMinute(opts.mintime).Some? && ReadHourMinute(opts.maxtime).Some? && t.Some?
    ensures r.Some? ==>
      var t := ReadHourMinute(Slice(ts, 11, 16)).value;
      (r.value <==> (!timecut ||
        (!Later(ReadHourMinute(opts.mintime).value, t) && !Later(t, ReadHourMinute(opts.maxtime).value))))
  {
    var tswy := Slice(ts, 11, 16);
    var cmin :- CompareTimestamps(opts.mintime, tswy);
    var cmax :- CompareTimestamps(opts.maxtime, tswy);
    Some(!(timecut && (cmin == 1 || cmax == -1)))
  }

  /** One value of a line (printspec.py:147-151): `float(row[key])`, shifted by the dB
      offset and scaled when an offset is given. A missing key, a short record (value
      `None`) or an unreadable number is an exception the line's `try` catches. */
  function Value(row: map<string, Option<string>>, key: string, opts: Options, parseFloat: string -> Option<real>): Option<real> {
    if key !in row || row[key].None? then None
    else
      var v :- parseFloat(row[key].value);
      if opts.dboffset.None? then Some(v)
      else
        var o :- parseFloat(opts.dboffset.value);
        var s :- parseFloat(opts.scale);
        Some((v - o) * s)
  }

  /** The line of a row: one value per selected frequency, in order, or nothing at all
      when any of them fails. */
  function LineOf(row: map<string, Option<string>>, freqs: seq<int>, opts: Options, parseFloat: string -> Option<real>): (line: Option<seq<real>>)
    ensures line.Some? <==> forall k :: 0 <= k < |freqs| ==> Value(row, AppendHz(freqs[k]), opts, parseFloat).Some?
    ensures line.Some? ==> |line.value| == |freqs|
    ensures line.Some? ==> forall k :: 0 <= k < |freqs| ==>
      line.value[k] == Value(row, AppendHz(freqs[k]), opts, parseFloat).value
  {
    var values := seq(|freqs|, k requires 0 <= k < |freqs| => Value(row, AppendHz(freqs[k]), opts, parseFloat));
    assert forall k :: 0 <= k < |freqs| ==> values[k] == Value(row, AppendHz(freqs[k]), opts, parseFloat);
    All(values)
  }


  // ---------------------------------------------------------------------------
  // The scan over the rows

  /** The loop state of `read_csvfile`: the frequencies (known after the first row),
      the hour of the last kept row, the kept-row counter `index`, the hour ticks with
      their labels, and the value lines. */
  datatype Scan = Scan(
    freqs: Option<seq<int>>, ohour: Option<int>, index: nat,
    ticks: seq<nat>, labels: seq<string>, lines: seq<seq<real>>)

  const Start: Scan := Scan(None, None, 0, [], [], [])

  /** What holds between rows: one label per tick; ticks strictly increasing, below
      `index`, and starting at 0 once a row was kept; no more lines than kept rows, each
      as wide as the frequency list; nothing kept before the frequencies are known. */
  predicate Valid(st: Scan) {
    && |st.labels| == |st.ticks|
    && (forall i, j :: 0 <= i < j < |st.ticks| ==> st.ticks[i] < st.ticks[j])
    && (forall i :: 0 <= i < |st.ticks| ==> st.ticks[i] < st.index)
    && (st.index > 0 <==> |st.ticks| > 0)
    && (st.index > 0 ==> st.ticks[0] == 0)
    && (st.ohour.Some? <==> st.index > 0)
    && |st.lines| <= st.index
    && (st.freqs.None? ==> st.index == 0)
    && (st.freqs.Some? ==> forall t :: 0 <= t < |st.lines| ==> |st.lines[t]| == |st.freqs.value|)
  }

  /** A kept row's bookkeeping (printspec.py:137-157): a tick at the current `index`,
      labelled with the shortened timestamp, exactly when the hour differs from the
      previous kept row's (`is not` between small ints compares values); the line when
      it parses; `index` advances in any case. */
  function Keep(st: Scan, freqs: seq<int>, hour: int, ts: string, line: Option<seq<real>>): (r: Scan)
    requires Valid(st) && (st.freqs.Some? ==> st.freqs.value == freqs)
    requires line.Some? ==> |line.value| == |freqs|
    ensures Valid(r)
    ensures r.freqs == Some(freqs) && r.ohour == Some(hour) && r.index == st.index + 1
    ensures var tick := st.ohour.None? || hour != st.ohour.value;
      && r.ticks == st.ticks + (if tick then [st.index] else [])
      && r.labels == st.labels + (if tick then [ShortenTimestamp(ts)] else [])
    ensures r.lines == st.lines + (if line.Some? then [line.value] else [])
  {
    var tick := st.ohour.None? || hour != st.ohour.value;
    Scan(Some(freqs), Some(hour), st.index + 1,
      st.ticks + (if tick then [st.index] else []),
      st.labels + (if tick then [ShortenTimestamp(ts)] else []),
      st.lines + (if line.Some? then [line.value] else []))
  }

  /** One iteration of the row loop. An empty record is a blank line `DictReader`
      skips. The first row fixes the frequencies; a missing timestamp value, an
      unreadable `HH:MM` or hour is fatal; a row outside the time window is skipped
      without counting. */
  function Step(opts: Options, timecut: bool, header: seq<string>, st: Scan, record: seq<string>,
                parseFloat: string -> Option<real>): (r: Option<Scan>)
    requires Valid(st)
    ensures r.Some? ==> Valid(r.value)
    ensures r.Some? ==> r.value.index == st.index || r.value.index == st.index + 1
    ensures r.Some? && st.freqs.Some? ==> r.value.freqs == st.freqs
    ensures r.Some? && r.value.index == st.index ==> r.value.ticks == st.ticks && r.value.lines == st.lines
    ensures |record| == 0 ==> r == Some(st)
  {
    if |record| == 0 then Some(st)
    else
      var row := DictRow(header, record);
      var freqs :- if st.freqs.Some? then Some(st.freqs.value)
                   else SelectFrequencies(header, |record| > |header|, opts.minfreq, opts.maxfreq);
      var ts :- if "timestamp" in row then row["timestamp"] else None;
      var kept :- Admit(opts, timecut, ts);
      if !kept then Some(st.(freqs := Some(freqs)))
      else
        var hour :- GetHour(ts);
        Some(Keep(st, freqs, hour, ts, LineOf(row, freqs, opts, parseFloat)))
  }

  /** The loop over all records after the header, stopping at the first fatal row. */
  function ScanAll(opts: Options, timecut: bool, header: seq<string>, records: seq<seq<string>>,
                   parseFloat: string -> Option<real>): (r: Option<Scan>)
    ensures r.Some? ==> Valid(r.value)
    ensures r.Some? ==> r.value.index <= |records|
  {
    if |records| == 0 then Some(Start)
    else
      var st :- ScanAll(opts, timecut, header, records[..|records| - 1], parseFloat);
      Step(opts, timecut, header, st, records[|records| - 1], parseFloat)
  }

  /** `zip(*lines)`: one tuple per frequency holding that frequency's value from every
      line; no lines at all give no tuples. */
  function Transpose(lines: seq<seq<real>>, width: nat): (r: seq<seq<real>>)
    requires forall t :: 0 <= t < |lines| ==> |lines[t]| == width
    ensures |lines| == 0 ==> r == []
    ensures |lines| > 0 ==> |r| == width
    ensures forall k :: 0 <= k < |r| ==> |r[k]| == |lines|
  {
    if |lines| == 0 then []
    else seq(width, k requires 0 <= k < width => seq(|lines|, t requires 0 <= t < |lines| => lines[t][k]))
  }

  /** Transposing back gives the lines again: no value is lost or moved. */
  lemma TransposeTwice(lines: seq<seq<real>>, width: nat)
    requires width > 0 && forall t :: 0 <= t < |lines| ==> |lines[t]| == width
    ensures Transpose(Transpose(lines, width), |lines|) == lines
  {
    var cols := Transpose(lines, width);
    if |lines| > 0 {
      var back := Transpose(cols, |lines|);
      assert |back| == |lines|;
      forall t | 0 <= t < |lines| ensures back[t] == lines[t] {
        assert |back[t]| == width;
        forall k | 0 <= k < width ensures back[t][k] == lines[t][k] {
          assert back[t][k] == cols[k][t];
        }
      }
    }
  }

  /** What `read_csvfile` returns: the frequencies (`None` when the file had no row),
      the tick positions and labels, and the value matrix, one row per frequency. */
  datatype Plot = Plot(frequencies: Option<seq<int>>, ticks: seq<nat>, labels: seq<string>, values: seq<seq<real>>)

  /** `read_csvfile` (printspec.py:88-165). `mintime` and `maxtime` are compared first
      (an unreadable one is fatal); their comparing equal switches the time cut off.
      Without a dB offset the matrix is normalized with `float(scale)`. */
  function ReadCsv(opts: Options, header: seq<string>, records: seq<seq<string>>,
                   parseFloat: string -> Option<real>): (r: Option<Plot>)
    ensures r.Some? ==> |r.value.labels| == |r.value.ticks|
    ensures r.Some? ==> forall i, j :: 0 <= i < j < |r.value.ticks| ==> r.value.ticks[i] < r.value.ticks[j]
    ensures r.Some? && |r.value.ticks| > 0 ==> r.value.ticks[0] == 0
    ensures r.Some? && r.value.frequencies.Some? && |r.value.values| > 0 ==>
      |r.value.values| == |r.value.frequencies.value|
  {
    var c :- CompareTimestamps(opts.mintime, opts.maxtime);
    var st :- ScanAll(opts, c != 0, header, records, parseFloat);
    var width := if st.freqs.Some? then |st.freqs.value| else 0;
    assert st.freqs.None? ==> |st.lines| == 0;
    var matrix := Transpose(st.lines, width);
    var values :- if opts.dboffset.Some? then Some(matrix)
                  else
                    var s :- parseFloat(opts.scale);
                    NormalizeValues(matrix, s);
    Some(Plot(st.freqs, st.ticks, st.labels, values))
  }
}
