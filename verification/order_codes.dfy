/**
 Order codes: a category prefix, a dash, and a sequence number rendered as a
 decimal zero-filled to four characters (`M-0001`, `Κ-0042`, `A-12345`).
 */
module OrderCodes {
  import opened Wrappers
  import opened Decimal

  /**
   The five order categories offered by the order form: transportation,
   installation, pick-up (Greek capital Pi), retail (Greek capital Kappa) and
   special client.
   */
  const OrderPrefixes: seq<string> := ["M", "T", "\U{03A0}", "\U{039A}", "A"]

  predicate IsOrderPrefix(p: string) {
    p in OrderPrefixes
  }

  /** Every category prefix is dash-free, so the first dash of a code ends it. */
  lemma PrefixesHaveNoDash(p: string)
    requires IsOrderPrefix(p)
    ensures '-' !in p
  {
  }

  /** `f"{prefix}-{str(n).zfill(4)}"` */
  function FormatCode(prefix: string, n: nat): string {
    prefix + "-" + ZFill(NatToDecimal(n), 4)
  }

  /** Index of the first '-' in `s`, or `|s|` when there is none. */
  function FirstDash(s: string): (k: nat)
    ensures k <= |s|
    ensures k < |s| ==> s[k] == '-'
    ensures '-' !in s[..k]
  {
    if |s| == 0 || s[0] == '-' then 0 else 1 + FirstDash(s[1..])
  }

  /**
   Splits a code at its first dash into the prefix and the number the digits
   after the dash denote; None when there is no dash or the tail is not a
   non-empty digit string.
   */
  function ParseOrderCode(code: string): Option<(string, nat)> {
    var k := FirstDash(code);
    if k == |code| then None
    else
      var tail := code[k + 1..];
      if |tail| == 0 || !AllDigits(tail) then None
      else Some((code[..k], DecimalValue(tail)))
  }

  /** Parsing a formatted code gives back its prefix and sequence number. */
  lemma ParseFormatRoundTrip(prefix: string, n: nat)
    requires '-' !in prefix
    ensures ParseOrderCode(FormatCode(prefix, n)) == Some((prefix, n))
  {
    var digits := ZFill(NatToDecimal(n), 4);
    ZFillSpec(NatToDecimal(n), 4);
    var code := FormatCode(prefix, n);
    assert code[|prefix|] == '-';
    assert forall i :: 0 <= i < |prefix| ==> code[i] == prefix[i];
    var k := FirstDash(code);
    assert k == |prefix|;
    assert code[..k] == prefix;
    assert code[k + 1..] == digits;
    PaddedDecimalRoundTrip(n, 4);
  }

  /**
   Two dash-free prefixes with two sequence numbers give the same code only
   when both the prefixes and the numbers agree.
   */
  lemma FormatCodeInjective(p1: string, n1: nat, p2: string, n2: nat)
    requires '-' !in p1 && '-' !in p2
    ensures FormatCode(p1, n1) == FormatCode(p2, n2) <==> p1 == p2 && n1 == n2
  {
    ParseFormatRoundTrip(p1, n1);
    ParseFormatRoundTrip(p2, n2);
  }

  /** The layout of a formatted code: prefix, dash, then at least four digits. */
  lemma FormatCodeShape(prefix: string, n: nat)
    ensures var code := FormatCode(prefix, n);
            && code[..|prefix| + 1] == prefix + "-"
            && |code| == |prefix| + 1 + Max(4, |NatToDecimal(n)|)
            && AllDigits(code[|prefix| + 1..])
  {
    PaddedDecimalRoundTrip(n, 4);
    ZFillSpec(NatToDecimal(n), 4);
    var code := FormatCode(prefix, n);
    assert code[|prefix| + 1..] == ZFill(NatToDecimal(n), 4);
  }

  /** Below ten, the code is the prefix, a dash, three zeros and the digit. */
  lemma SingleDigitCode(prefix: string, n: nat)
    requires 1 <= n < 10
    ensures FormatCode(prefix, n) == prefix + "-000" + [DigitChar(n)]
  {
    assert ZFill(NatToDecimal(n), 4) == "000" + [DigitChar(n)];
  }

  /** Worked values of the code format: the first codes of category M. */
  lemma FirstCodes()
    ensures FormatCode("M", 1) == "M-0001"
    ensures FormatCode("M", 2) == "M-0002"
    ensures FormatCode("M", 3) == "M-0003"
  {
    SingleDigitCode("M", 1);
    SingleDigitCode("M", 2);
    SingleDigitCode("M", 3);
  }

  /** Past 9999 the number is written out in full: `A-12345`. */
  lemma WideCode()
    ensures FormatCode("A", 12345) == "A-12345"
  {
    assert NatToDecimal(12345) == "12345" by {
      assert NatToDecimal(1) == "1";
      assert NatToDecimal(12) == "12";
      assert NatToDecimal(123) == "123";
      assert NatToDecimal(1234) == "1234";
    }
  }
}
