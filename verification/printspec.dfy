/** The string and list helpers of the plotting script (printspec.py:28-86): the
    column name of a frequency, the hour and the short form of a row timestamp, the
    `HH:MM` comparison, and the baseline removal applied to the value matrix. */
module Printspec {
  import opened Wrappers
  import opened Decimal

  /** `"%i Hz" % v`: the column name of frequency `v`. Cutting the three characters
      " Hz" off and reading the rest as an integer gives `v` back. */
  function AppendHz(v: int): (r: string)
    ensures ParseInt(DropLast(r, 3)) == Some(v)
  {
    var r := FormatInt(v, 1) + " Hz";
    assert DropLast(r, 3) == FormatInt(v, 1);
    FormatIntRoundTrip(v, 1);
    r
  }

  /** `int(str[11:13])`: the hour of a `YYYY-MM-DD HH:MM:SS` timestamp; `None` is the
      `ValueError` of a string whose characters 11 and 12 are not a number. */
  function GetHour(s: string): Option<int> {
    ParseInt(Slice(s, 11, 13))
  }

  /** `"%s-%s-%s %s:%s" % (str[0:4], str[5:7], str[8:10], str[11:13], str[14:16])`:
      the timestamp without its seconds. */
  function ShortenTimestamp(s: string): (r: string)
    ensures |r| <= 16
    ensures WellFormed(s) ==> r == s[..16]
  {
    var r := Slice(s, 0, 4) + "-" + Slice(s, 5, 7) + "-" + Slice(s, 8, 10) + " " + Slice(s, 11, 13) + ":" + Slice(s, 14, 16);
    if WellFormed(s) then
      assert r == s[..16];
      r
    else r
  }

  /** The separators of `YYYY-MM-DD HH:MM` are where the script's slices assume them. */
  predicate WellFormed(s: string) {
    |s| >= 16 && s[4] == '-' && s[7] == '-' && s[10] == ' ' && s[13] == ':'
  }

  /** An hour and a minute as read by `compare_timestamps`. */
  datatype HourMinute = HourMinute(hour: int, minute: int)

  /** `int(t[0:2])` and `int(t[3:5])`. */
  function ReadHourMinute(t: string): Option<HourMinute> {
    var h :- ParseInt(Slice(t, 0, 2));
    var m :- ParseInt(Slice(t, 3, 5));
    Some(HourMinute(h, m))
  }

  /** Lexicographic order on (hour, minute). */
  predicate Later(a: HourMinute, b: HourMinute) {
    a.hour > b.hour || (a.hour == b.hour && a.minute > b.minute)
  }

  /** `compare_timestamps(time2, time1)`: 1 when `time2` is later, 0 when both read as
      the same hour and minute, -1 when earlier, by (hour, minute) in lexicographic
      order. `None` is the `ValueError` of an unreadable hour or minute. */
  function CompareTimestamps(t2: string, t1: string): (r: Option<int>)
    ensures r.Some? <==> ReadHourMinute(t2).Some? && ReadHourMinute(t1).Some?
    ensures r.Some? ==> -1 <= r.value <= 1
    ensures r.Some? ==> (r.value == 1 <==> Later(ReadHourMinute(t2).value, ReadHourMinute(t1).value))
    ensures r.Some? ==> (r.value == -1 <==> Later(ReadHourMinute(t1).value, ReadHourMinute(t2).value))
    ensures r.Some? ==> (r.value == 0 <==> ReadHourMinute(t2).value == ReadHourMinute(t1).value)
  {
    var a :- ReadHourMinute(t2);
    var b :- ReadHourMinute(t1);
    if a.hour > b.hour then Some(1)
    else if a.hour < b.hour then Some(-1)
    else if a.minute > b.minute then Some(1)
    else if a.minute < b.minute then Some(-1)
    else Some(0)
  }

  /** Swapping the arguments negates the result. */
  lemma CompareAntisymmetric(t2: string, t1: string)
    ensures CompareTimestamps(t2, t1).Some? <==> CompareTimestamps(t1, t2).Some?
    ensures CompareTimestamps(t2, t1).Some? ==>
      CompareTimestamps(t1, t2).value == -CompareTimestamps(t2, t1).value
  {
  }

  /** The smoothing half-width `rng` of `normalize_values`. */
  const RNG: nat := 10

  /** The smallest element of a non-empty list (`min`). */
  function Least(xs: seq<real>): (m: real)
    requires |xs| > 0
    ensures m in xs
    ensures forall k :: 0 <= k < |xs| ==> m <= xs[k]
  {
    if |xs| == 1 then xs[0]
    else
      var m := Least(xs[..|xs| - 1]);
      if xs[|xs| - 1] < m then xs[|xs| - 1] else m
  }

  /** The greatest element of a non-empty list. */
  function Greatest(xs: seq<real>): (m: real)
    requires |xs| > 0
    ensures m in xs
    ensures forall k :: 0 <= k < |xs| ==> xs[k] <= m
  {
    if |xs| == 1 then xs[0]
    else
      var m := Greatest(xs[..|xs| - 1]);
      if xs[|xs| - 1] > m then xs[|xs| - 1] else m
  }

  function Sum(xs: seq<real>): real {
    if |xs| == 0 then 0.0 else Sum(xs[..|xs| - 1]) + xs[|xs| - 1]
  }

  /** The window `[a, e)` around row `i` of `n`: `a = max(0, i - rng)`,
      `e = min(n, i + rng)`. It is never empty and always holds `i`. */
  function Window(i: nat, n: nat): (w: (nat, nat))
    requires i < n
    ensures w.0 <= i < w.1 <= n
    ensures w.1 - w.0 <= 2 * RNG
  {
    var a := if i < RNG then 0 else i - RNG;
    var e := if i + RNG > n then n else i + RNG;
    (a, e)
  }

  /** The minimum of every row: `None` is the `ValueError` of `min` on an empty row. */
  function RowMinima(values: seq<seq<real>>): (m: Option<seq<real>>)
    ensures m.None? <==> exists i :: 0 <= i < |values| && |values[i]| == 0
    ensures m.Some? ==> |m.value| == |values|
    ensures m.Some? ==> forall i, j :: 0 <= i < |values| && 0 <= j < |values[i]| ==> m.value[i] <= values[i][j]
    ensures m.Some? ==> forall i :: 0 <= i < |values| ==> m.value[i] in values[i]
  {
    if exists i :: 0 <= i < |values| && |values[i]| == 0 then None
    else
      var m := seq(|values|, i requires 0 <= i < |values| => Least(values[i]));
      Some(m)
  }

  /** The values `minvs[a:e]` in the window of row `i`. */
  function InWindow(minvs: seq<real>, i: nat): (xs: seq<real>)
    requires i < |minvs|
    ensures |xs| == Window(i, |minvs|).1 - Window(i, |minvs|).0 >= 1
    ensures forall k :: 0 <= k < |xs| ==> xs[k] == minvs[Window(i, |minvs|).0 + k]
  {
    var w := Window(i, |minvs|);
    minvs[w.0..w.1]
  }

  /** The least minimum in the window of row `i`: one of the window's minima, and never
      above any of them. */
  function WindowMin(minvs: seq<real>, i: nat): (m: real)
    requires i < |minvs|
    ensures m in minvs[Window(i, |minvs|).0..Window(i, |minvs|).1]
    ensures forall k :: Window(i, |minvs|).0 <= k < Window(i, |minvs|).1 ==> m <= minvs[k]
  {
    var xs := InWindow(minvs, i);
    assert forall k :: Window(i, |minvs|).0 <= k < Window(i, |minvs|).1 ==> Least(xs) <= minvs[k] by {
      forall k | Window(i, |minvs|).0 <= k < Window(i, |minvs|).1 ensures Least(xs) <= minvs[k] {
        assert xs[k - Window(i, |minvs|).0] == minvs[k];
      }
    }
    Least(xs)
  }

  /** First pass: each row's minimum replaced by the least minimum in its window, which
      is one of the window's minima and is never above any of them, the row's own included. */
  function SmoothMin(minvs: seq<real>): (r: seq<real>)
    ensures |r| == |minvs|
    ensures forall i :: 0 <= i < |r| ==> r[i] <= minvs[i]
    ensures forall i, k :: 0 <= i < |r| && Window(i, |minvs|).0 <= k < Window(i, |minvs|).1 ==> r[i] <= minvs[k]
    ensures forall i :: 0 <= i < |r| ==> r[i] in minvs[Window(i, |minvs|).0..Window(i, |minvs|).1]
  {
    seq(|minvs|, i requires 0 <= i < |minvs| => WindowMin(minvs, i))
  }

  /** Second pass: each value replaced by the mean over its window. */
  function SmoothMean(minvs: seq<real>): (r: seq<real>)
    ensures |r| == |minvs|
  {
    seq(|minvs|, i requires 0 <= i < |minvs| => Sum(InWindow(minvs, i)) / |InWindow(minvs, i)| as real)
  }

  lemma {:induction false} SumBetween(xs: seq<real>, lo: real, hi: real)
    requires forall k :: 0 <= k < |xs| ==> lo <= xs[k] <= hi
    ensures |xs| as real * lo <= Sum(xs) <= |xs| as real * hi
  {
    if |xs| > 0 {
      SumBetween(xs[..|xs| - 1], lo, hi);
    }
  }

  /** The mean of a non-empty list lies between its least and its greatest element. */
  lemma MeanOfBetween(xs: seq<real>)
    requires |xs| > 0
    ensures Least(xs) <= Sum(xs) / |xs| as real <= Greatest(xs)
  {
    BoundedMean(xs, Least(xs), Greatest(xs));
  }

  lemma BoundedMean(xs: seq<real>, lo: real, hi: real)
    requires |xs| > 0
    requires forall k :: 0 <= k < |xs| ==> lo <= xs[k] <= hi
    ensures lo <= Sum(xs) / |xs| as real <= hi
  {
    SumBetween(xs, lo, hi);
    MeanBetween(Sum(xs), |xs| as real, lo, hi);
  }

  /** The mean over a window lies between the least and the greatest value in it. */
  lemma SmoothMeanBetween(minvs: seq<real>, i: nat)
    requires i < |minvs|
    ensures Least(InWindow(minvs, i)) <= SmoothMean(minvs)[i] <= Greatest(InWindow(minvs, i))
  {
    var xs := InWindow(minvs, i);
    MeanOfBetween(xs);
    assert SmoothMean(minvs)[i] == Sum(xs) / |xs| as real;
  }

  lemma MeanBetween(total: real, n: real, lo: real, hi: real)
    requires n > 0.0 && n * lo <= total <= n * hi
    ensures lo <= total / n <= hi
  {
    assert total / n * n == total;
  }

  /** The baseline subtracted from row `i`. */
  function Baseline(minvs: seq<real>): (b: seq<real>)
    ensures |b| == |minvs|
  {
    SmoothMean(SmoothMin(minvs))
  }

  /** `normalize_values(values, offset, scale)` (the offset is not used): every value
      of row `i` minus the row's baseline, times `scale`. The shape is kept. */
  function NormalizeValues(values: seq<seq<real>>, scale: real): (r: Option<seq<seq<real>>>)
    ensures r.None? <==> exists i :: 0 <= i < |values| && |values[i]| == 0
    ensures r.Some? ==> |r.value| == |values|
    ensures r.Some? ==> forall i :: 0 <= i < |values| ==> |r.value[i]| == |values[i]|
  {
    var minvs :- RowMinima(values);
    Some(Shifted(values, Baseline(minvs), scale))
  }

  /** `map(lambda x: (x - o) * s, values[i])` for every row, `o` the row's baseline. */
  function Shifted(values: seq<seq<real>>, base: seq<real>, scale: real): (r: seq<seq<real>>)
    requires |base| == |values|
    ensures |r| == |values|
    ensures forall i :: 0 <= i < |values| ==> |r[i]| == |values[i]|
  {
    seq(|values|, i requires 0 <= i < |values| =>
      seq(|values[i]|, j requires 0 <= j < |values[i]| => (values[i][j] - base[i]) * scale))
  }
}
