/** Local calendar time as `localtime` reports it, and the two texts the program makes
    from it: the dated CSV path (main.c:327-330) and the row timestamp (main.c:344-346). */
module Timestamp {
  import opened Decimal

  /** A broken-down local time with the offsets of `struct tm` already applied:
      `year` is `tm_year + 1900` and `month` is `tm_mon + 1`. */
  datatype DateTime = DateTime(year: int, month: int, day: int, hour: int, minute: int, second: int)

  const OUTPUT_MARKER: string := "out"

  /** Fields that print at their precision: a year of at most four digits and the other
      fields of at most two, as `localtime` gives them for years 0 to 9999. */
  predicate InRange(dt: DateTime) {
    && 0 <= dt.year <= 9999
    && 0 <= dt.month <= 99 && 0 <= dt.day <= 99
    && 0 <= dt.hour <= 99 && 0 <= dt.minute <= 99 && 0 <= dt.second <= 99
  }

  /** `%4.4i-%2.2i-%2.2i`. */
  function FormatDate(dt: DateTime): string {
    FormatInt(dt.year, 4) + "-" + FormatInt(dt.month, 2) + "-" + FormatInt(dt.day, 2)
  }

  /** `%4.4i-%2.2i-%2.2i %2.2i:%2.2i:%2.2i`, the first column of a data row. */
  function FormatTimestamp(dt: DateTime): string {
    FormatDate(dt) + " " + FormatInt(dt.hour, 2) + ":" + FormatInt(dt.minute, 2) + ":" + FormatInt(dt.second, 2)
  }

  /** `%s/%4.4i-%2.2i-%2.2i_%s.csv` with the output directory and the marker "out". */
  function CsvPath(dir: string, dt: DateTime): string {
    dir + "/" + FormatDate(dt) + "_" + OUTPUT_MARKER + ".csv"
  }

  /** The row timestamp of an in-range time is 19 characters, `YYYY-MM-DD HH:MM:SS`,
      with each field at its fixed position. */
  lemma TimestampLayout(dt: DateTime)
    requires InRange(dt)
    ensures var ts := FormatTimestamp(dt);
      && |ts| == 19
      && ts[4] == '-' && ts[7] == '-' && ts[10] == ' ' && ts[13] == ':' && ts[16] == ':'
      && ts[0..4] == FormatInt(dt.year, 4) && ts[5..7] == FormatInt(dt.month, 2)
      && ts[8..10] == FormatInt(dt.day, 2) && ts[11..13] == FormatInt(dt.hour, 2)
      && ts[14..16] == FormatInt(dt.minute, 2) && ts[17..19] == FormatInt(dt.second, 2)
  {
    DateLayout(dt);
    FormatIntWidth(dt.hour, 2);
    FormatIntWidth(dt.minute, 2);
    FormatIntWidth(dt.second, 2);
    var date, h, mi, se := FormatDate(dt), FormatInt(dt.hour, 2), FormatInt(dt.minute, 2), FormatInt(dt.second, 2);
    var ts := FormatTimestamp(dt);
    assert ts == date + " " + h + ":" + mi + ":" + se;
    PieceAt(date, " " + h + ":" + mi + ":" + se);
    assert ts[..10] == date;
    assert ts[0..4] == date[0..4] && ts[5..7] == date[5..7] && ts[8..10] == date[8..10];
    assert ts[11..13] == h;
    assert ts[14..16] == mi;
    assert ts[17..19] == se;
  }

  /** The first part of a concatenation. */
  lemma PieceAt(p: string, q: string)
    ensures (p + q)[..|p|] == p
  {
  }

  predicate SameDate(a: DateTime, b: DateTime) {
    a.year == b.year && a.month == b.month && a.day == b.day
  }

  lemma DateLayout(dt: DateTime)
    requires InRange(dt)
    ensures var d := FormatDate(dt);
      && |d| == 10
      && d[0..4] == FormatInt(dt.year, 4) && d[5..7] == FormatInt(dt.month, 2)
      && d[8..10] == FormatInt(dt.day, 2)
  {
    FormatIntWidth(dt.year, 4);
    FormatIntWidth(dt.month, 2);
    FormatIntWidth(dt.day, 2);
  }

  lemma FormatIntInjective(u: int, v: int, precision: nat)
    requires FormatInt(u, precision) == FormatInt(v, precision)
    ensures u == v
  {
    FormatIntRoundTrip(u, precision);
    FormatIntRoundTrip(v, precision);
  }

  lemma MiddleEqual(p: string, x: string, y: string, s: string)
    requires |x| == |y| && p + x + s == p + y + s
    ensures x == y
  {
    assert x == (p + x + s)[|p|..|p| + |x|];
    assert y == (p + y + s)[|p|..|p| + |y|];
  }

  /** The CSV file is keyed by calendar date: two in-range times share a path exactly
      when they fall on the same date, whatever their time of day. */
  lemma PathKeyedByDate(dir: string, a: DateTime, b: DateTime)
    requires InRange(a) && InRange(b)
    ensures CsvPath(dir, a) == CsvPath(dir, b) <==> SameDate(a, b)
  {
    if CsvPath(dir, a) == CsvPath(dir, b) {
      var da, db := FormatDate(a), FormatDate(b);
      DateLayout(a);
      DateLayout(b);
      var suffix := "_" + OUTPUT_MARKER + ".csv";
      assert CsvPath(dir, a) == (dir + "/") + da + suffix;
      assert CsvPath(dir, b) == (dir + "/") + db + suffix;
      MiddleEqual(dir + "/", da, db, suffix);
      FormatIntInjective(a.year, b.year, 4);
      FormatIntInjective(a.month, b.month, 2);
      FormatIntInjective(a.day, b.day, 2);
    }
  }
}
