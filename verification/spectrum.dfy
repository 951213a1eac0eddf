/** Folding the output of a real-to-complex FFT into a power spectrum
    (`calc_power_spectrum`, main.c:94-116). The transform itself is foreign code: its
    output `out` of length N is taken as given, in the "halfcomplex" order the library
    produces: real parts r0 .. r(N/2) at indices 0 .. N/2, then the imaginary parts
    in reverse, so that the imaginary part of bin k sits at index N-k for
    0 < k < (N+1)/2. Bin 0, and bin N/2 when N is even, have no imaginary part. */
module Spectrum {

  /** A stand-in for the transform: any total function that keeps the length. */
  type Fft = f: seq<real> -> seq<real> | forall x :: |f(x)| == |x| witness (x: seq<real>) => x

  /** Real part of bin `k`. */
  function Re(out: seq<real>, k: nat): real
    requires k <= |out| / 2 && |out| >= 1
  {
    out[k]
  }

  /** Imaginary part of bin `k`, zero for bin 0 and the Nyquist bin. */
  function Im(out: seq<real>, k: nat): real
    requires k <= |out| / 2 && |out| >= 1
  {
    if 0 < k < (|out| + 1) / 2 then out[|out| - k] else 0.0
  }

  /** The power of every bin 0 .. N/2 as squared magnitude: the reference the folding
      loop is measured against. */
  function PowerSpectrum(out: seq<real>): (ps: seq<real>)
    requires |out| >= 1
    ensures |ps| == |out| / 2 + 1
  {
    seq(|out| / 2 + 1, k requires 0 <= k < |out| / 2 + 1 => Re(out, k) * Re(out, k) + Im(out, k) * Im(out, k))
  }

  /** Indices `calc_power_spectrum` writes, in the order it writes them: 0, then
      1 .. (N+1)/2 - 1, then N/2 if N is even. */
  function WriteOrder(n: nat): (w: seq<nat>)
    requires n >= 1
  {
    [0] + seq((n + 1) / 2 - 1, i requires 0 <= i < (n + 1) / 2 - 1 => i + 1)
    + (if n % 2 == 0 then [n / 2] else [])
  }

  /** Each of the indices 0 .. N/2 is written exactly once, for even and for odd N: the
      write order is the identity on 0 .. N/2. */
  lemma WriteOrderCoversOnce(n: nat)
    requires n >= 1
    ensures WriteOrder(n) == seq(n / 2 + 1, i requires 0 <= i < n / 2 + 1 => i)
  {
    var w := WriteOrder(n);
    if n % 2 == 0 {
      assert |w| == n / 2 + 1;
    } else {
      assert |w| == n / 2 + 1;
    }
  }

  /** `calc_power_spectrum` after the transform: overwrites the row `prior` (the slot of
      the averaging matrix, width N/2+1) in the order of `WriteOrder`. Every index is
      overwritten, so nothing of `prior` survives. */
  method CalcPowerSpectrum(out: seq<real>, prior: seq<real>) returns (ps: seq<real>, ghost written: seq<nat>)
    requires |out| >= 1 && |prior| == |out| / 2 + 1
    ensures ps == PowerSpectrum(out)
    ensures forall k :: 0 <= k < |ps| ==> ps[k] >= 0.0
    ensures written == WriteOrder(|out|)
  {
    var n := |out|;
    ps := prior[0 := out[0] * out[0]];
    written := [0];
    var k := 1;
    while k < (n + 1) / 2
      invariant 1 <= k <= (n + 1) / 2
      invariant |ps| == n / 2 + 1
      invariant forall j :: 0 <= j < k ==> ps[j] == PowerSpectrum(out)[j]
      invariant written == [0] + seq(k - 1, i requires 0 <= i < k - 1 => i + 1)
    {
      ps := ps[k := out[k] * out[k] + out[n - k] * out[n - k]];
      written := written + [k];
      k := k + 1;
    }
    if n % 2 == 0 {
      ps := ps[n / 2 := out[n / 2] * out[n / 2]];
      written := written + [n / 2];
    }
    assert forall j :: 0 <= j < |ps| ==> ps[j] == PowerSpectrum(out)[j];
    SquaresNonNegative(out);
  }

  lemma SquaresNonNegative(out: seq<real>)
    requires |out| >= 1
    ensures forall k :: 0 <= k < |out| / 2 + 1 ==> PowerSpectrum(out)[k] >= 0.0
  {
    forall k | 0 <= k < |out| / 2 + 1
      ensures PowerSpectrum(out)[k] >= 0.0
    {
      var a := Re(out, k);
      var b := Im(out, k);
      assert a * a >= 0.0 && b * b >= 0.0;
    }
  }
}
