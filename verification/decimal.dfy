/** Decimal text of integers, both directions: printf's `%i` / `%W.Pi` conversions used by
    the C program, and Python 2's `int()` used by the plotting script to read them back. */
module Decimal {
  import opened Wrappers

  predicate IsDigit(c: char) {
    '0' <= c <= '9'
  }

  predicate AllDigits(s: string) {
    forall i :: 0 <= i < |s| ==> IsDigit(s[i])
  }

  function DigitChar(d: nat): (c: char)
    requires d < 10
    ensures IsDigit(c)
    ensures c as int - '0' as int == d
  {
    ('0' as int + d) as char
  }

  /** The value of a string of ASCII digits, most significant first. */
  function DigitsValue(s: string): (n: nat)
    requires AllDigits(s)
  {
    if |s| == 0 then 0 else DigitsValue(s[..|s| - 1]) * 10 + (s[|s| - 1] as int - '0' as int)
  }

  /** Shortest decimal digit string of `n` ("0" for zero). */
  function Digits(n: nat): (s: string)
    ensures |s| >= 1 && AllDigits(s)
    ensures n < 10 <==> |s| == 1
  {
    if n < 10 then [DigitChar(n)] else Digits(n / 10) + [DigitChar(n % 10)]
  }

  /** `n` in decimal with at least `precision` digits, padded on the left with zeros. */
  function ZeroPadded(n: nat, precision: nat): (s: string)
    ensures AllDigits(s)
    ensures |s| == if |Digits(n)| < precision then precision else |Digits(n)|
  {
    var d := Digits(n);
    if |d| < precision then Zeros(precision - |d|) + d else d
  }

  function Zeros(k: nat): (s: string)
    ensures |s| == k && AllDigits(s)
    ensures forall i :: 0 <= i < k ==> s[i] == '0'
  {
    if k == 0 then [] else ['0'] + Zeros(k - 1)
  }

  /** printf's `%W.Pi` for `W <= P`: a minus sign for negative values, then at least
      `precision` digits; `%i` is precision 1. The field width never adds spaces here,
      because the digits alone already fill it. */
  function FormatInt(v: int, precision: nat): (s: string)
    ensures |s| >= 1
    ensures forall i :: 0 <= i < |s| ==> IsDigit(s[i]) || (i == 0 && s[i] == '-' && v < 0)
  {
    if v < 0 then "-" + ZeroPadded(-v, precision) else ZeroPadded(v, precision)
  }

  /** Python 2's whitespace set for `str.strip()` and `int()`. */
  predicate IsSpace(c: char) {
    c == ' ' || c == '\t' || c == '\n' || c == '\r' || c as int == 0x0b || c as int == 0x0c
  }

  function StripLeft(s: string): (r: string)
    ensures |r| <= |s|
    ensures |r| > 0 ==> !IsSpace(r[0])
  {
    if |s| > 0 && IsSpace(s[0]) then StripLeft(s[1..]) else s
  }

  function StripRight(s: string): (r: string)
    ensures |r| <= |s|
    ensures |r| > 0 ==> !IsSpace(r[|r| - 1])
  {
    if |s| > 0 && IsSpace(s[|s| - 1]) then StripRight(s[..|s| - 1]) else s
  }

  /** Python 2's `int(s)` in base 10: surrounding whitespace, an optional sign, optional
      whitespace after the sign, then one or more ASCII digits. `None` stands for the
      `ValueError` it raises. */
  function ParseInt(s: string): Option<int>
  {
    var t := StripRight(StripLeft(s));
    if |t| > 0 && (t[0] == '-' || t[0] == '+') then
      var body := StripLeft(t[1..]);
      if |body| > 0 && AllDigits(body) then
        var m: int := DigitsValue(body);
        Some(if t[0] == '-' then -m else m)
      else None
    else if |t| > 0 && AllDigits(t) then
      Some(DigitsValue(t))
    else None
  }

  lemma {:induction false} DigitsValueOfDigits(n: nat)
    ensures DigitsValue(Digits(n)) == n
  {
    if n >= 10 {
      var d := Digits(n);
      assert d[..|d| - 1] == Digits(n / 10);
      DigitsValueOfDigits(n / 10);
    }
  }

  /** A leading zero does not change the value. */
  lemma {:induction false} LeadingZero(s: string)
    requires AllDigits(s)
    ensures DigitsValue(['0'] + s) == DigitsValue(s)
  {
    if |s| > 0 {
      var t := ['0'] + s;
      assert t[..|t| - 1] == ['0'] + s[..|s| - 1];
      LeadingZero(s[..|s| - 1]);
    }
  }

  lemma {:induction false} LeadingZeros(k: nat, s: string)
    requires AllDigits(s)
    ensures DigitsValue(Zeros(k) + s) == DigitsValue(s)
  {
    if k > 0 {
      var rest := Zeros(k - 1) + s;
      assert Zeros(k) + s == ['0'] + rest;
      LeadingZero(rest);
      LeadingZeros(k - 1, s);
      assert DigitsValue(['0'] + rest) == DigitsValue(s);
    } else {
      assert Zeros(k) + s == s;
    }
  }

  lemma ZeroPaddedValue(n: nat, precision: nat)
    ensures DigitsValue(ZeroPadded(n, precision)) == n
  {
    DigitsValueOfDigits(n);
    var d := Digits(n);
    if |d| < precision {
      assert ZeroPadded(n, precision) == Zeros(precision - |d|) + d;
      LeadingZeros(precision - |d|, d);
    } else {
      assert ZeroPadded(n, precision) == d;
    }
  }

  /** What printf writes with `%i` or `%W.Pi`, Python's `int()` reads back unchanged:
      any integer, any precision. */
  lemma FormatIntRoundTrip(v: int, precision: nat)
    ensures ParseInt(FormatInt(v, precision)) == Some(v)
  {
    var d := ZeroPadded(if v < 0 then -v else v, precision);
    ZeroPaddedValue(if v < 0 then -v else v, precision);
    if v < 0 {
      ParseNegative(d);
      assert ParseInt("-" + d) == Some(v);
    } else {
      ParseNonNegative(d);
      assert ParseInt(d) == Some(v);
    }
  }

  /** `int()` of a minus sign followed by digits. */
  lemma ParseNegative(d: string)
    requires |d| > 0 && AllDigits(d)
    ensures ParseInt("-" + d) == Some(-(DigitsValue(d) as int))
  {
    var s := "-" + d;
    assert s[1..] == d;
    assert StripRight(StripLeft(s)) == s by {
      assert IsDigit(d[|d| - 1]) && s[|s| - 1] == d[|d| - 1];
      StripNothing(s);
    }
    assert StripLeft(d) == d by {
      assert IsDigit(d[0]);
    }
    ParseMinus(s, d);
  }

  /** `int()` of a string that needs no stripping: a minus sign, then digits that
      need none either. */
  lemma ParseMinus(s: string, d: string)
    requires |s| >= 2 && s[0] == '-' && s[1..] == d && AllDigits(d)
    requires StripRight(StripLeft(s)) == s && StripLeft(d) == d
    ensures ParseInt(s) == Some(-(DigitsValue(d) as int))
  {
  }

  /** `int()` of digits alone. */
  lemma ParseNonNegative(d: string)
    requires |d| > 0 && AllDigits(d)
    ensures ParseInt(d) == Some(DigitsValue(d) as int)
  {
    assert IsDigit(d[0]) && IsDigit(d[|d| - 1]);
    StripNothing(d);
  }

  lemma StripNothing(s: string)
    requires |s| > 0 && !IsSpace(s[0]) && !IsSpace(s[|s| - 1])
    ensures StripRight(StripLeft(s)) == s
  {
  }

  /** Zero padding to the precision gives exactly `precision` characters whenever the
      value has no more digits than that. */
  lemma {:induction false} DigitsLength(n: nat, k: nat)
    requires n < Pow10(k)
    ensures |Digits(n)| <= if k == 0 then 1 else k
  {
    if n >= 10 {
      DigitsLength(n / 10, k - 1);
    }
  }

  function Pow10(k: nat): (p: nat)
    ensures p >= 1
  {
    if k == 0 then 1 else 10 * Pow10(k - 1)
  }

  lemma FormatIntWidth(v: nat, precision: nat)
    requires 1 <= precision && v < Pow10(precision)
    ensures |FormatInt(v, precision)| == precision
    ensures AllDigits(FormatInt(v, precision))
  {
    DigitsLength(v, precision);
  }

  /** Python slice `s[a:b]` for non-negative bounds: both bounds are clamped to the
      length, and an empty slice results when `b <= a`. */
  function Slice(s: string, a: nat, b: nat): (r: string)
    ensures |r| <= |s|
    ensures a <= b <= |s| ==> r == s[a..b]
  {
    var lo := if a < |s| then a else |s|;
    var hi := if b < lo then lo else if b < |s| then b else |s|;
    s[lo..hi]
  }

  /** Python slice `s[:-k]`: all but the last `k` characters, empty if there are fewer. */
  function DropLast(s: string, k: nat): (r: string)
    ensures |s| >= k ==> r == s[..|s| - k]
    ensures |s| < k ==> r == []
  {
    if |s| >= k then s[..|s| - k] else []
  }
}
