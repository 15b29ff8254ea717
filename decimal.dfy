/** Decimal numerals: Python's `int(s)` on a digit string, `str(n)` on an integer,
    and zero padding as in the format specifications `02d` and `%d`/`%m`/`%Y`. */
module Decimal {
  import opened PyStr

  function DigitChar(d: nat): (c: char)
    requires d < 10
    ensures IsDigit(c)
  {
    ('0' as int + d) as char
  }

  function DigitValue(c: char): (d: nat)
    requires IsDigit(c)
    ensures d < 10 && DigitChar(d) == c
  {
    c as int - '0' as int
  }

  predicate AllDigits(s: string) {
    forall i :: 0 <= i < |s| ==> IsDigit(s[i])
  }

  /** `int(s)` for a string of ASCII digits; leading zeros do not count. */
  function DecimalValue(s: string): (n: nat)
    requires AllDigits(s)
  {
    if s == [] then 0 else DecimalValue(s[..|s| - 1]) * 10 + DigitValue(s[|s| - 1])
  }

  /** A canonical numeral: digits only, no leading zero unless it is "0". */
  predicate Canonical(s: string) {
    IsDigits(s) && (|s| > 1 ==> s[0] != '0')
  }

  /** `str(n)` for a natural number. */
  function NatToDecimal(n: nat): (s: string)
    ensures Canonical(s)
    ensures n < 10 <==> |s| == 1
  {
    if n < 10 then [DigitChar(n)] else NatToDecimal(n / 10) + [DigitChar(n % 10)]
  }

  /** `str(n)` for any integer. */
  function IntToDecimal(n: int): (s: string)
    ensures n >= 0 ==> s == NatToDecimal(n)
    ensures n < 0 ==> s == "-" + NatToDecimal(-n)
  {
    if n < 0 then "-" + NatToDecimal(-n) else NatToDecimal(n)
  }

  /** `int(str(n)) == n`. */
  lemma {:induction false} DecimalRoundTrip(n: nat)
    ensures DecimalValue(NatToDecimal(n)) == n
  {
    if n >= 10 {
      var s := NatToDecimal(n);
      assert s[..|s| - 1] == NatToDecimal(n / 10);
      DecimalRoundTrip(n / 10);
    }
  }

  /** `str` is one-to-one on the naturals. */
  lemma NatToDecimalInjective(m: nat, n: nat)
    requires NatToDecimal(m) == NatToDecimal(n)
    ensures m == n
  {
    DecimalRoundTrip(m);
    DecimalRoundTrip(n);
  }

  function Pow10(k: nat): (p: nat)
    ensures p >= 1
  {
    if k == 0 then 1 else 10 * Pow10(k - 1)
  }

  lemma AllDigitsConcat(a: string, b: string)
    requires AllDigits(a) && AllDigits(b)
    ensures AllDigits(a + b)
  {
    forall i | 0 <= i < |a + b| ensures IsDigit((a + b)[i]) {
      if i >= |a| { assert (a + b)[i] == b[i - |a|]; }
    }
  }

  lemma {:induction false} DecimalValueConcat(a: string, b: string)
    requires AllDigits(a) && AllDigits(b)
    ensures AllDigits(a + b)
    ensures DecimalValue(a + b) == DecimalValue(a) * Pow10(|b|) + DecimalValue(b)
    decreases |b|
  {
    AllDigitsConcat(a, b);
    if b == [] {
      assert a + b == a;
    } else {
      var b' := b[..|b| - 1];
      var c := b[|b| - 1];
      assert AllDigits(b');
      assert (a + b)[..|a + b| - 1] == a + b';
      assert (a + b)[|a + b| - 1] == c;
      DecimalValueConcat(a, b');
      var x, p, y, d := DecimalValue(a), Pow10(|b'|), DecimalValue(b'), DigitValue(c);
      assert DecimalValue(a + b) == DecimalValue(a + b') * 10 + d;
      assert DecimalValue(b) == y * 10 + d;
      Arith(x, p, y, d);
    }
  }

  lemma Arith(x: int, p: int, y: int, d: int)
    ensures (x * p + y) * 10 + d == x * (10 * p) + (y * 10 + d)
  {
  }

  function Zeros(k: nat): (z: string)
    ensures |z| == k && AllDigits(z)
    ensures forall i :: 0 <= i < k ==> z[i] == '0'
  {
    seq(k, i => '0')
  }

  lemma {:induction false} ZerosValue(k: nat)
    ensures DecimalValue(Zeros(k)) == 0
  {
    if k > 0 {
      assert Zeros(k)[..k - 1] == Zeros(k - 1);
      ZerosValue(k - 1);
    }
  }

  /** `n` in decimal, left-padded with zeros to at least `width` characters. */
  function Pad(n: nat, width: nat): (s: string)
    ensures |s| == if |NatToDecimal(n)| >= width then |NatToDecimal(n)| else width
    ensures IsDigits(s)
    ensures DecimalValue(s) == n
    ensures |s| > width ==> s == NatToDecimal(n)
  {
    var d := NatToDecimal(n);
    DecimalRoundTrip(n);
    if |d| >= width then d
    else
      var z := Zeros(width - |d|);
      DecimalValueConcat(z, d);
      ZerosValue(width - |d|);
      z + d
  }

  /** A number below `Pow10(width)` pads to exactly `width` characters. */
  lemma {:induction false} PadWidth(n: nat, width: nat)
    requires width > 0 && n < Pow10(width)
    ensures |Pad(n, width)| == width
  {
    NumeralBound(n, width);
  }

  lemma {:induction false} NumeralBound(n: nat, k: nat)
    requires n < Pow10(k) && k > 0
    ensures |NatToDecimal(n)| <= k
  {
    if n >= 10 {
      assert n / 10 < Pow10(k - 1);
      NumeralBound(n / 10, k - 1);
    }
  }
}
