/** Facts about quotient, remainder and fixed-size blocks of a sequence, used for the
    read loop and the averaging cadence. */
module Arith {

  /** Quotient and remainder are determined by `n == q * d + r` with `0 <= r < d`. */
  lemma DivModUnique(n: nat, d: nat, q: nat, r: nat)
    requires d >= 1 && n == q * d + r && r < d
    ensures n / d == q && n % d == r
  {
    var q0, r0 := n / d, n % d;
    assert n == q0 * d + r0;
    if q0 > q {
      MulDistributes(q0 - q, q, d);
      MulAtLeast(q0 - q, d);
    } else if q0 < q {
      MulDistributes(q - q0, q0, d);
      MulAtLeast(q - q0, d);
    }
  }

  lemma MulDistributes(a: nat, b: nat, d: nat)
    ensures (a + b) * d == a * d + b * d
  {
  }

  lemma MulAtLeast(a: nat, d: nat)
    requires a >= 1
    ensures a * d >= d
  {
  }

  /** `m / n` whole blocks of `n` fit in `m`. */
  lemma QuotientFits(m: nat, n: nat)
    requires n >= 1
    ensures (m / n) * n <= m
  {
    DivModUnique(m, n, m / n, m % n);
  }

  /** Block `i` of size `d` ends within `n` whenever `i < n / d`. */
  lemma BlockFits(n: nat, d: nat, i: nat)
    requires d >= 1 && i < n / d
    ensures (i + 1) * d <= n
  {
    QuotientFits(n, d);
    MulDistributes(n / d - (i + 1), i + 1, d);
  }

  /** Advancing a cursor below `d` by one wraps it to 0 exactly at `d`. */
  lemma ModSuccessor(c: nat, d: nat)
    requires c < d
    ensures (c + 1) % d == if c + 1 == d then 0 else c + 1
  {
    if c + 1 == d {
      DivModUnique(c + 1, d, 1, 0);
    } else {
      DivModUnique(c + 1, d, 0, c + 1);
    }
  }

  /** Taking one block of `d` off `n` lowers the quotient by one and keeps the remainder. */
  lemma DivModStep(n: nat, d: nat)
    requires d >= 1 && n >= d
    ensures (n - d) / d + 1 == n / d
    ensures (n - d) % d == n % d
  {
    var q, r := (n - d) / d, (n - d) % d;
    assert n == (q + 1) * d + r;
    DivModUnique(n, d, q + 1, r);
  }

  /** Block `e` of size `d` after the first `d` elements is block `e + 1` of the whole. */
  lemma BlockShift<T>(all: seq<T>, rest: seq<T>, d: nat, e: nat)
    requires d >= 1 && |all| >= d && all[d..] == rest && (e + 1) * d <= |rest|
    ensures (e + 2) * d <= |all|
    ensures rest[e * d..(e + 1) * d] == all[(e + 1) * d..(e + 2) * d]
  {
    MulDistributes(e, 1, d);
    MulDistributes(e + 1, 1, d);
  }

  /** Block `i` of `n` consecutive elements, for `i < |s| / n`. */
  function Block<T>(s: seq<T>, n: nat, i: nat): (b: seq<T>)
    requires n >= 1 && i < |s| / n
    ensures |b| == n && i * n + n == (i + 1) * n <= |s|
  {
    MulDistributes(i, 1, n);
    MulAtLeast(|s| / n - i, n);
    MulDistributes(|s| / n - i, i, n);
    s[i * n..(i + 1) * n]
  }
}
