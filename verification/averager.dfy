/** The averaging matrix `power_spectrum[avg_int_in_sec][samplerate/2+1]` and its ring
    cursor `aind` (main.c:280-281, 314-319), and the per-bin mean written for each
    completed cycle (main.c:348-357). */
module Averager {
  import opened Arith

  /** The matrix rows (`slots`) and the cursor. */
  datatype Window = Window(cursor: nat, slots: seq<seq<real>>)

  predicate Valid(w: Window, avg: nat) {
    avg >= 1 && |w.slots| == avg && w.cursor < avg
  }

  /** A window of `avg` rows of `width` zeros with the cursor at 0 (the matrix contents
      before the first cycle are never read, see `FeedCycles`). */
  function Fresh(avg: nat, width: nat): (w: Window)
    requires avg >= 1
    ensures Valid(w, avg) && w.cursor == 0
    ensures forall j :: 0 <= j < avg ==> |w.slots[j]| == width
  {
    Window(0, seq(avg, _ => seq(width, _ => 0.0)))
  }

  /** `ps = power_spectrum[aind++]` filled with the new spectrum, followed by the test
      `aind == avg_int_in_sec`: stores at the cursor, advances it, and reports a completed
      cycle when it wraps. */
  function Push(w: Window, ps: seq<real>, avg: nat): (r: (Window, bool))
    requires Valid(w, avg)
    ensures Valid(r.0, avg)
    ensures r.1 <==> w.cursor + 1 == avg
    ensures r.0.cursor == (w.cursor + 1) % avg
    ensures r.0.slots[w.cursor] == ps
    ensures forall j :: 0 <= j < avg && j != w.cursor ==> r.0.slots[j] == w.slots[j]
  {
    ModSuccessor(w.cursor, avg);
    var slots := w.slots[w.cursor := ps];
    if w.cursor + 1 == avg then (Window(0, slots), true) else (Window(w.cursor + 1, slots), false)
  }

  /** Pushes every spectrum in order; returns the final window and, for each completed
      cycle, the matrix at that moment. */
  function Feed(w: Window, spectra: seq<seq<real>>, avg: nat): (r: (Window, seq<seq<seq<real>>>))
    requires Valid(w, avg)
    ensures Valid(r.0, avg)
    decreases |spectra|
  {
    if |spectra| == 0 then (w, [])
    else
      var (w1, done) := Push(w, spectra[0], avg);
      var (w2, cycles) := Feed(w1, spectra[1..], avg);
      (w2, if done then [w1.slots] + cycles else cycles)
  }

  /** The matrix rows filled so far in the current cycle hold the pending spectra. */
  predicate Holds(w: Window, pending: seq<seq<real>>) {
    |pending| == w.cursor <= |w.slots| && w.slots[..w.cursor] == pending
  }

  /** The complete cycles of a run of spectra, in order: consecutive groups of `avg`. */
  function Cycles(all: seq<seq<real>>, avg: nat): seq<seq<seq<real>>>
    requires avg >= 1
    decreases |all|
  {
    if |all| < avg then [] else [all[..avg]] + Cycles(all[avg..], avg)
  }

  /** The spectra after the last complete cycle. */
  function Leftover(all: seq<seq<real>>, avg: nat): seq<seq<real>>
    requires avg >= 1
    decreases |all|
  {
    if |all| < avg then all else Leftover(all[avg..], avg)
  }

  /** What feeding promises when `pending` are the spectra of the unfinished cycle:
      the matrix at each completed cycle is that cycle's spectra in order, and the cursor
      is left at the remainder with the unfinished cycle's spectra in the first rows. */
  predicate FeedsCycles(w': Window, cycles: seq<seq<seq<real>>>, all: seq<seq<real>>, avg: nat)
    requires avg >= 1
  {
    && cycles == Cycles(all, avg)
    && w'.cursor == |all| % avg
    && Holds(w', Leftover(all, avg))
  }

  /** The cadence, for any starting cursor. */
  lemma {:induction false} FeedCycles(w: Window, pending: seq<seq<real>>, spectra: seq<seq<real>>, avg: nat)
    requires Valid(w, avg) && Holds(w, pending)
    ensures FeedsCycles(Feed(w, spectra, avg).0, Feed(w, spectra, avg).1, pending + spectra, avg)
    decreases |spectra|
  {
    var all := pending + spectra;
    if |spectra| == 0 {
      assert all == pending;
      DivModUnique(|all|, avg, 0, |all|);
    } else {
      var (w1, done) := Push(w, spectra[0], avg);
      var p1 := pending + [spectra[0]];
      assert w1.slots[..w.cursor + 1] == p1 by {
        assert forall j :: 0 <= j < w.cursor ==> w1.slots[j] == w.slots[j];
      }
      assert p1 + spectra[1..] == all;
      var rest := spectra[1..];
      if done {
        assert Holds(w1, []);
        FeedCycles(w1, [], rest, avg);
        assert [] + rest == rest;
        assert all[..avg] == p1 && all[avg..] == rest;
        assert w1.slots == w1.slots[..w.cursor + 1];
        assert Feed(w, spectra, avg).1 == [w1.slots] + Feed(w1, rest, avg).1;
        DivModStep(|all|, avg);
      } else {
        assert Holds(w1, p1);
        FeedCycles(w1, p1, rest, avg);
      }
    }
  }

  /** Number and contents of the complete cycles. */
  lemma {:induction false} CyclesShape(all: seq<seq<real>>, avg: nat)
    requires avg >= 1
    ensures |Cycles(all, avg)| == |all| / avg
    ensures forall e :: 0 <= e < |Cycles(all, avg)| ==>
      (e + 1) * avg <= |all| && Cycles(all, avg)[e] == all[e * avg..(e + 1) * avg]
    decreases |all|
  {
    if |all| < avg {
      DivModUnique(|all|, avg, 0, |all|);
      assert Cycles(all, avg) == [];
    } else {
      var rest := all[avg..];
      CyclesShape(rest, avg);
      DivModStep(|all|, avg);
      var c := Cycles(all, avg);
      forall e | 0 <= e < |c|
        ensures (e + 1) * avg <= |all| && c[e] == all[e * avg..(e + 1) * avg]
      {
        if e == 0 {
          assert c[0] == all[..avg];
          assert 0 * avg == 0 && (0 + 1) * avg == avg;
        } else {
          var k := e - 1;
          assert c[e] == Cycles(rest, avg)[k];
          assert (k + 1) * avg <= |rest| && Cycles(rest, avg)[k] == rest[k * avg..(k + 1) * avg];
          BlockShift(all, rest, avg, k);
          assert k + 1 == e;
        }
      }
    }
  }

  /** The same, with the cycles named as blocks. */
  lemma CyclesAreBlocks(all: seq<seq<real>>, avg: nat)
    requires avg >= 1
    ensures |Cycles(all, avg)| == |all| / avg
    ensures forall e :: 0 <= e < |all| / avg ==> Cycles(all, avg)[e] == Block(all, avg, e)
  {
    CyclesShape(all, avg);
    forall e | 0 <= e < |all| / avg
      ensures Cycles(all, avg)[e] == Block(all, avg, e)
    {
      var b := Block(all, avg, e);
      assert e * avg + avg == (e + 1) * avg <= |all|;
      assert b == all[e * avg..(e + 1) * avg];
    }
  }

  /** From a fresh start: after `m` spectra the completed cycles are the consecutive
      groups of `avg` spectra (`m / avg` of them, see `CyclesShape`) and the cursor is
      `m % avg`. */
  lemma Cadence(w: Window, spectra: seq<seq<real>>, avg: nat)
    requires Valid(w, avg) && w.cursor == 0
    ensures Feed(w, spectra, avg).1 == Cycles(spectra, avg)
    ensures |Feed(w, spectra, avg).1| == |spectra| / avg
    ensures Feed(w, spectra, avg).0.cursor == |spectra| % avg
  {
    assert Holds(w, []);
    FeedCycles(w, [], spectra, avg);
    assert [] + spectra == spectra;
    CyclesShape(spectra, avg);
  }

  /** Sum over the rows of the matrix of the value at bin `k`. */
  function SumAt(rows: seq<seq<real>>, k: nat): real
    requires forall j :: 0 <= j < |rows| ==> k < |rows[j]|
  {
    if |rows| == 0 then 0.0 else SumAt(rows[..|rows| - 1], k) + rows[|rows| - 1][k]
  }

  /** Rows wide enough for every bin `1 .. maxfreq-1`. */
  predicate WideEnough(rows: seq<seq<real>>, maxfreq: int) {
    forall j :: 0 <= j < |rows| ==> maxfreq - 1 < |rows[j]|
  }

  /** The value columns of one output row: for bins `1 .. maxfreq-1`, the sum over the
      matrix divided by `avg_int_in_sec`. A `maxfreq` of 1 or less gives no column. */
  function Means(rows: seq<seq<real>>, maxfreq: int): (m: seq<real>)
    requires |rows| >= 1 && WideEnough(rows, maxfreq)
    ensures |m| == if maxfreq >= 1 then maxfreq - 1 else 0
  {
    var n := if maxfreq >= 1 then maxfreq - 1 else 0;
    seq(n, i requires 0 <= i < n => SumAt(rows, i + 1) / |rows| as real)
  }

  lemma {:induction false} SumBounds(rows: seq<seq<real>>, k: nat, lo: real, hi: real)
    requires forall j :: 0 <= j < |rows| ==> k < |rows[j]| && lo <= rows[j][k] <= hi
    ensures |rows| as real * lo <= SumAt(rows, k) <= |rows| as real * hi
  {
    if |rows| > 0 {
      SumBounds(rows[..|rows| - 1], k, lo, hi);
    }
  }

  /** Each column is a mean: it lies between the least and the greatest value the
      matrix holds at that bin, so columns of power spectra are never negative. */
  lemma MeansBetween(rows: seq<seq<real>>, maxfreq: int, lo: real, hi: real)
    requires |rows| >= 1 && WideEnough(rows, maxfreq)
    requires forall j, k :: 0 <= j < |rows| && 1 <= k < maxfreq ==> lo <= rows[j][k] <= hi
    ensures forall i :: 0 <= i < |Means(rows, maxfreq)| ==> lo <= Means(rows, maxfreq)[i] <= hi
  {
    var m := Means(rows, maxfreq);
    var n := |rows| as real;
    forall i | 0 <= i < |m|
      ensures lo <= m[i] <= hi
    {
      SumBounds(rows, i + 1, lo, hi);
      var s := SumAt(rows, i + 1);
      assert m[i] == s / n;
      assert n * lo <= s <= n * hi;
      assert lo <= s / n <= hi;
    }
  }

  /** A matrix whose rows all equal one spectrum averages back to that spectrum. */
  lemma MeansOfConstant(rows: seq<seq<real>>, ps: seq<real>, maxfreq: int)
    requires |rows| >= 1 && maxfreq - 1 < |ps|
    requires forall j :: 0 <= j < |rows| ==> rows[j] == ps
    ensures forall i :: 0 <= i < |Means(rows, maxfreq)| ==> Means(rows, maxfreq)[i] == ps[i + 1]
  {
    forall i | 0 <= i < |Means(rows, maxfreq)|
      ensures Means(rows, maxfreq)[i] == ps[i + 1]
    {
      SumBounds(rows, i + 1, ps[i + 1], ps[i + 1]);
      var n := |rows| as real;
      assert SumAt(rows, i + 1) == n * ps[i + 1];
    }
  }
}
