/** What the stream processor writes, read back by the plotting script: the row
    timestamp (main.c:344-346) through `get_hour`, `shorten_timestamp` and the `HH:MM`
    window key (printspec.py:31-40, 131, 137), and the header's frequency columns
    (main.c:193-199) through the column selection (printspec.py:121-128). */
module Interop {
  import opened Wrappers
  import opened Decimal
  import opened Csv
  import opened Timestamp
  import opened FileStore
  import opened Printspec
  import opened CsvReader
  import RunLaws

  // ---------------------------------------------------------------------------
  // Timestamps

  /** The hour the script reads from a written row is the hour that was written. */
  lemma HourReadsBack(dt: DateTime)
    requires InRange(dt)
    ensures GetHour(FormatTimestamp(dt)) == Some(dt.hour)
  {
    TimestampLayout(dt);
    assert Slice(FormatTimestamp(dt), 11, 13) == FormatInt(dt.hour, 2);
    FormatIntRoundTrip(dt.hour, 2);
  }

  /** A written timestamp is well formed for the script, and its short form is the
      written date, hour and minute. */
  lemma ShortFormReadsBack(dt: DateTime)
    requires InRange(dt)
    ensures WellFormed(FormatTimestamp(dt))
    ensures ShortenTimestamp(FormatTimestamp(dt)) ==
      FormatDate(dt) + " " + FormatInt(dt.hour, 2) + ":" + FormatInt(dt.minute, 2)
  {
    TimestampLayout(dt);
    var ts := FormatTimestamp(dt);
    assert ts == (FormatDate(dt) + " " + FormatInt(dt.hour, 2) + ":" + FormatInt(dt.minute, 2)) + (":" + FormatInt(dt.second, 2));
    FormatIntWidth(dt.hour, 2);
    FormatIntWidth(dt.minute, 2);
    DateLayout(dt);
  }

  /** The window key `timestamp[11:16]` of a written row reads as the written hour and
      minute, so the time cut compares exactly those. */
  lemma ClockReadsBack(dt: DateTime)
    requires InRange(dt)
    ensures ReadHourMinute(Slice(FormatTimestamp(dt), 11, 16)) == Some(HourMinute(dt.hour, dt.minute))
  {
    TimestampLayout(dt);
    var key := Slice(FormatTimestamp(dt), 11, 16);
    assert key == FormatTimestamp(dt)[11..16];
    assert Slice(key, 0, 2) == FormatInt(dt.hour, 2);
    assert Slice(key, 3, 5) == FormatInt(dt.minute, 2);
    FormatIntRoundTrip(dt.hour, 2);
    FormatIntRoundTrip(dt.minute, 2);
  }

  // ---------------------------------------------------------------------------
  // Frequency columns

  /** The C program's column name of bin `i` is the script's name of frequency `i`, and
      its frequency reads back as `i`. */
  lemma LabelReadsBack(i: int)
    ensures HzLabel(i) == AppendHz(i)
    ensures ColumnFrequency(HzLabel(i)) == Some(i)
  {
  }

  /** The integers `a, a+1, ..., b-1`. */
  function Interval(a: int, b: int): (r: seq<int>)
    ensures |r| == if a < b then b - a else 0
    ensures forall k :: 0 <= k < |r| ==> r[k] == a + k
    decreases b - a
  {
    if a < b then [a] + Interval(a + 1, b) else []
  }

  lemma IntervalFirst(a: int, b: int)
    requires a < b
    ensures Interval(a, b) == [a] + Interval(a + 1, b)
    ensures Interval(a, b)[0] == a && Interval(a, b)[1..] == Interval(a + 1, b)
  {
  }

  lemma {:induction false} SortInterval(a: int, b: int)
    ensures Sort(Interval(a, b)) == Interval(a, b)
    decreases b - a
  {
    if a < b {
      IntervalFirst(a, b);
      SortInterval(a + 1, b);
    }
  }

  lemma FilterFirst(xs: seq<int>, keep: int -> bool)
    requires |xs| > 0
    ensures Filter(xs, keep) == if keep(xs[0]) then [xs[0]] + Filter(xs[1..], keep) else Filter(xs[1..], keep)
  {
  }

  lemma {:induction false} FilterFrom(a: int, b: int, keep: int -> bool, lo: int)
    requires forall x :: keep(x) <==> x >= lo
    ensures Filter(Interval(a, b), keep) == Interval(if a < lo then lo else a, b)
    decreases b - a
  {
    if a < b {
      IntervalFirst(a, b);
      FilterFirst(Interval(a, b), keep);
      FilterFrom(a + 1, b, keep, lo);
    }
  }

  lemma {:induction false} FilterUpTo(a: int, b: int, keep: int -> bool, hi: int)
    requires forall x :: keep(x) <==> x <= hi
    ensures Filter(Interval(a, b), keep) == Interval(a, if b < hi + 1 then b else hi + 1)
    decreases b - a
  {
    if a < b {
      IntervalFirst(a, b);
      FilterFirst(Interval(a, b), keep);
      FilterUpTo(a + 1, b, keep, hi);
    }
  }

  lemma {:induction false} DedupeDistinct(xs: seq<string>)
    requires Distinct(xs)
    ensures Dedupe(xs) == xs
  {
    if |xs| > 0 {
      var n := |xs| - 1;
      DedupeDistinct(xs[..n]);
      assert xs[n] !in xs[..n];
      assert xs[..n] + [xs[n]] == xs;
    }
  }

  /** The header record of a written file: "timestamp" and the bin names. */
  function HeaderRecord(written: int): seq<string> {
    ["timestamp"] + FreqLabels(written)
  }

  lemma LabelNoComma(i: int)
    ensures NoComma(HzLabel(i))
  {
    RunLaws.NumberNoComma(i, 1);
    RunLaws.AppendNoComma(FormatInt(i, 1), " Hz");
  }

  lemma HeaderNoCommas(written: int)
    ensures NoCommas(HeaderRecord(written))
  {
    var header := HeaderRecord(written);
    forall j | 0 <= j < |header| ensures NoComma(header[j]) {
      if j > 0 {
        assert header[j] == HzLabel(j);
        LabelNoComma(j);
      }
    }
  }

  /** No two columns of a written header have the same name. */
  lemma HeaderDistinct(written: int)
    ensures Distinct(HeaderRecord(written))
  {
    var header := HeaderRecord(written);
    forall i, j | 0 <= i < j < |header| ensures header[i] != header[j] {
      assert header[j] == HzLabel(j);
      LabelReadsBack(j);
      if i == 0 {
        assert header[j][|header[j]| - 1] == 'z';
      } else {
        assert header[i] == HzLabel(i);
        LabelReadsBack(i);
      }
    }
  }

  /** The written header line splits back into its names. */
  lemma HeaderSplits(written: int)
    ensures var line := CsvHeader(written); |line| >= 1 && Split(line[..|line| - 1]) == HeaderRecord(written)
  {
    var header := HeaderRecord(written);
    HeaderFields(written);
    HeaderNoCommas(written);
    SplitJoin(header);
    var line := CsvHeader(written);
    assert line[..|line| - 1] == Join(header);
  }

  /** The frequency columns of a written header are its bin names. */
  lemma WrittenNames(written: int)
    ensures "timestamp" in HeaderRecord(written)
    ensures FrequencyNames(HeaderRecord(written)) == FreqLabels(written)
  {
    var header := HeaderRecord(written);
    assert header[0] == "timestamp";
    HeaderDistinct(written);
    DedupeDistinct(header);
  }

  /** The bin names read as `1 .. written-1`. */
  lemma WrittenFrequencies(written: int)
    ensures ParseAll(FreqLabels(written)) == Some(Interval(1, written))
  {
    var names := FreqLabels(written);
    var parsed := Interval(1, written);
    forall i | 0 <= i < |names| ensures ColumnFrequency(names[i]) == Some(parsed[i]) {
      assert names[i] == HzLabel(i + 1);
      LabelReadsBack(i + 1);
    }
    var r := ParseAll(names);
    assert r.Some?;
    assert r.value == parsed;
  }

  /** The two range filters cut `a .. b-1` to `max(a, lo) .. min(b-1, hi)`. */
  lemma BoundsCut(a: int, b: int, minfreq: string, maxfreq: string, lo: int, hi: int)
    requires ParseInt(minfreq) == Some(lo) && ParseInt(maxfreq) == Some(hi)
    ensures var lower := Bounded(Interval(a, b), minfreq, true);
      && lower == Some(Interval(if a < lo then lo else a, b))
      && Bounded(lower.value, maxfreq, false) ==
           Some(Interval(if a < lo then lo else a, if b < hi + 1 then b else hi + 1))
  {
    var from := if a < lo then lo else a;
    if a < b {
      FilterFrom(a, b, x => if true then x >= lo else x <= lo, lo);
    }
    if from < b {
      FilterUpTo(from, b, x => if false then x >= hi else x <= hi, hi);
    }
  }

  /** Reading the header of a written file with both bounds readable selects exactly
      the bins `max(1, lo) .. min(written - 1, hi)`, in ascending order: the columns
      `1 .. written-1` the C program wrote, cut to the window. */
  lemma WrittenHeaderSelects(written: int, minfreq: string, maxfreq: string, lo: int, hi: int)
    requires ParseInt(minfreq) == Some(lo) && ParseInt(maxfreq) == Some(hi)
    ensures var line := CsvHeader(written);
      |line| >= 1 &&
      SelectFrequencies(Split(line[..|line| - 1]), false, minfreq, maxfreq) ==
        Some(Interval(if lo < 1 then 1 else lo, if written < hi + 1 then written else hi + 1))
  {
    HeaderSplits(written);
    WrittenNames(written);
    WrittenFrequencies(written);
    SortInterval(1, written);
    BoundsCut(1, written, minfreq, maxfreq, lo, hi);
  }

  // ---------------------------------------------------------------------------
  // Rows

  /** A written data row, read with the written header, has as many fields as the
      header; its "timestamp" is the written timestamp and the column of frequency `f`
      holds the cell written for bin `f`. */
  lemma RowReadsBack(written: int, dt: DateTime, cells: seq<string>)
    requires NoCommas(cells) && |cells| == |FreqLabels(written)|
    ensures var row := CsvRow(dt, cells); |row| >= 1
    ensures var row := CsvRow(dt, cells); var record := Split(row[..|row| - 1]);
      && |record| == |HeaderRecord(written)|
      && "timestamp" in DictRow(HeaderRecord(written), record)
      && DictRow(HeaderRecord(written), record)["timestamp"] == Some(FormatTimestamp(dt))
    ensures var row := CsvRow(dt, cells); var dict := DictRow(HeaderRecord(written), Split(row[..|row| - 1]));
      forall f :: 1 <= f < written ==> AppendHz(f) in dict && dict[AppendHz(f)] == Some(cells[f - 1])
  {
    HeaderSplits(written);
    HeaderDistinct(written);
    var header := HeaderRecord(written);
    var fields := [FormatTimestamp(dt)] + cells;
    RowFields(dt, cells);
    RunLaws.TimestampNoComma(dt);
    assert NoCommas(fields) by {
      forall j | 0 <= j < |fields| ensures NoComma(fields[j]) {
        if j > 0 {
          assert fields[j] == cells[j - 1];
        }
      }
    }
    SplitJoin(fields);
    var row := CsvRow(dt, cells);
    assert row[..|row| - 1] == Join(fields);
    var record := Split(row[..|row| - 1]);
    assert record == fields;
    DictRowValue(header, record, 0);
    forall f | 1 <= f < written
      ensures AppendHz(f) in DictRow(header, record) && DictRow(header, record)[AppendHz(f)] == Some(cells[f - 1])
    {
      LabelReadsBack(f);
      assert header[f] == AppendHz(f);
      DictRowValue(header, record, f);
    }
  }
}
