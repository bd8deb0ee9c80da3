/**
 Decimal rendering of natural numbers, as Python's `str` does it for a
 non-negative `int`, and Python's `str.zfill`, together with the digit
 parser that undoes them.
 */
module Decimal {

  predicate IsDigit(c: char) {
    '0' <= c <= '9'
  }

  predicate AllDigits(s: string) {
    forall i :: 0 <= i < |s| ==> IsDigit(s[i])
  }

  function DigitValue(c: char): (d: nat)
    requires IsDigit(c)
    ensures d < 10
  {
    c as int - '0' as int
  }

  /** The character for the digit `d`. */
  function DigitChar(d: nat): (c: char)
    requires d < 10
    ensures IsDigit(c) && DigitValue(c) == d
  {
    ('0' as int + d) as char
  }

  predicate AllZeros(s: string) {
    forall i :: 0 <= i < |s| ==> s[i] == '0'
  }

  /** `n` zero characters. */
  function Zeros(n: nat): (z: string)
    ensures |z| == n && AllZeros(z)
  {
    seq(n, _ => '0')
  }

  function Max(a: int, b: int): int {
    if a < b then b else a
  }

  function Pow10(k: nat): (p: nat)
    ensures p >= 1
  {
    if k == 0 then 1 else 10 * Pow10(k - 1)
  }

  /** `str(n)` for a non-negative integer: the shortest decimal, no sign. */
  function NatToDecimal(n: nat): (s: string)
    ensures |s| >= 1 && AllDigits(s)
    ensures |s| == 1 || s[0] != '0'
    decreases n
  {
    if n < 10 then [DigitChar(n)] else NatToDecimal(n / 10) + [DigitChar(n % 10)]
  }

  /** The number a digit string denotes; leading zeros are allowed. */
  function DecimalValue(s: string): nat
    requires AllDigits(s)
  {
    if |s| == 0 then 0 else DecimalValue(s[..|s| - 1]) * 10 + DigitValue(s[|s| - 1])
  }

  predicate HasSign(s: string) {
    |s| > 0 && (s[0] == '+' || s[0] == '-')
  }

  /**
   Python's `s.zfill(width)`: pad on the left with '0' up to `width`
   characters, keeping a leading sign in front; never truncates.
   */
  function ZFill(s: string, width: int): string {
    if |s| >= width then s
    else if HasSign(s) then [s[0]] + Zeros(width - |s|) + s[1..]
    else Zeros(width - |s|) + s
  }

  /**
   What `zfill` promises: the result is `width` long unless `s` is longer
   already, in which case it is `s` itself; otherwise `s` ends the result and
   only '0's come before it (after the sign, when `s` has one).
   */
  lemma ZFillSpec(s: string, width: int)
    ensures var r := ZFill(s, width);
            && |r| == Max(|s|, width)
            && (|s| >= width ==> r == s)
            && (!HasSign(s) ==> r[|r| - |s|..] == s)
            && (!HasSign(s) ==> forall i :: 0 <= i < |r| - |s| ==> r[i] == '0')
            && (HasSign(s) ==> r[0] == s[0] && r[|r| - |s| + 1..] == s[1..])
            && (HasSign(s) ==> forall i :: 1 <= i <= |r| - |s| ==> r[i] == '0')
  {
    var r := ZFill(s, width);
    if |s| < width && HasSign(s) {
      assert r[|r| - |s| + 1..] == s[1..];
    } else if |s| < width {
      assert r[|r| - |s|..] == s;
    }
  }

  /** Reading back the decimal of `n` gives `n`. */
  lemma {:induction false} DecimalRoundTrip(n: nat)
    ensures DecimalValue(NatToDecimal(n)) == n
    decreases n
  {
    var s := NatToDecimal(n);
    if n < 10 {
      assert s[..|s| - 1] == [];
    } else {
      assert s[..|s| - 1] == NatToDecimal(n / 10);
      DecimalRoundTrip(n / 10);
    }
  }

  lemma {:induction false} ZerosValue(n: nat)
    ensures DecimalValue(Zeros(n)) == 0
  {
    if n > 0 {
      assert Zeros(n)[..n - 1] == Zeros(n - 1);
      ZerosValue(n - 1);
    }
  }

  /** Leading zeros do not change the value of a digit string. */
  lemma {:induction false} LeadingZerosIgnored(z: nat, s: string)
    requires AllDigits(s)
    ensures AllDigits(Zeros(z) + s)
    ensures DecimalValue(Zeros(z) + s) == DecimalValue(s)
    decreases |s|
  {
    var t := Zeros(z) + s;
    if |s| == 0 {
      assert t == Zeros(z);
      ZerosValue(z);
    } else {
      assert t[..|t| - 1] == Zeros(z) + s[..|s| - 1];
      LeadingZerosIgnored(z, s[..|s| - 1]);
    }
  }

  /**
   The zero-padded decimal of `n` is all digits, reads back as `n`, and is
   exactly `width` characters long unless the decimal is already longer.
   */
  lemma PaddedDecimalRoundTrip(n: nat, width: int)
    ensures AllDigits(ZFill(NatToDecimal(n), width))
    ensures DecimalValue(ZFill(NatToDecimal(n), width)) == n
  {
    var s := NatToDecimal(n);
    DecimalRoundTrip(n);
    ZFillSpec(s, width);
    if |s| < width {
      LeadingZerosIgnored(width - |s|, s);
    }
  }

  /** The decimal of `n` has more than `k` digits exactly when `n >= 10^k`. */
  lemma {:induction false} DecimalLength(n: nat, k: nat)
    requires n > 0 || k > 0
    ensures |NatToDecimal(n)| > k <==> n >= Pow10(k)
    decreases n
  {
    if n >= 10 && k > 0 {
      DecimalLength(n / 10, k - 1);
    } else if n < 10 && k > 0 {
      assert |NatToDecimal(n)| == 1;
      PowGrows(k);
    }
  }

  lemma {:induction false} PowGrows(k: nat)
    requires k > 0
    ensures Pow10(k) >= 10
  {
    if k > 1 {
      PowGrows(k - 1);
    }
  }

  /**
   Padding never truncates: from 10000 on, the four-wide zero fill of the
   decimal is the full decimal itself; below it, it is exactly four wide.
   */
  lemma FourWidePadding(n: nat)
    ensures n >= 10000 ==> ZFill(NatToDecimal(n), 4) == NatToDecimal(n)
    ensures n < 10000 ==> |ZFill(NatToDecimal(n), 4)| == 4
  {
    DecimalLength(n, 4);
    ZFillSpec(NatToDecimal(n), 4);
    assert Pow10(4) == 10000;
  }
}
