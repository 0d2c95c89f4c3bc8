/** Decimal digit strings and the natural numbers they denote: the conversion
    `+value` applies to a digit-only string, and the text a template string
    `${n}` produces for a non-negative integer (no leading zeros). */
module Decimal {

  /** JavaScript's `\d`: the ASCII digits. */
  predicate IsDigit(c: char) {
    '0' <= c <= '9'
  }

  predicate AllDigits(s: string) {
    forall i :: 0 <= i < |s| ==> IsDigit(s[i])
  }

  function DigitValue(c: char): (d: nat)
    requires IsDigit(c)
    ensures d < 10
  {
    (c as int) - ('0' as int)
  }

  function DigitChar(d: nat): (c: char)
    requires d < 10
    ensures IsDigit(c) && DigitValue(c) == d
  {
    (('0' as int) + d) as char
  }

  /** The number a digit string denotes, read most significant digit first. */
  function DigitsToNat(s: string): nat
    requires AllDigits(s)
    decreases |s|
  {
    if s == [] then 0 else DigitsToNat(s[..|s| - 1]) * 10 + DigitValue(s[|s| - 1])
  }

  /** Canonical decimal text of `n`. */
  function NatToDecimal(n: nat): (r: string)
    ensures |r| >= 1 && AllDigits(r)
    ensures r[0] == '0' ==> n == 0 && r == "0"
    decreases n
  {
    if n < 10 then [DigitChar(n)] else NatToDecimal(n / 10) + [DigitChar(n % 10)]
  }

  /** Reading back the canonical text gives the number. */
  lemma {:induction false} DecimalRoundTrip(n: nat)
    ensures DigitsToNat(NatToDecimal(n)) == n
    decreases n
  {
    if n >= 10 {
      DecimalRoundTrip(n / 10);
      var r := NatToDecimal(n);
      assert r[..|r| - 1] == NatToDecimal(n / 10);
    }
  }

  /** `s` without its leading zeros. */
  function StripZeros(s: string): (r: string)
    ensures AllDigits(s) ==> AllDigits(r)
    decreases |s|
  {
    if s != [] && s[0] == '0' then StripZeros(s[1..]) else s
  }

  /** The text JavaScript prints for the number a digit string denotes: the
      digits without leading zeros, or "0" when only zeros are left. */
  function CanonicalDigits(s: string): string {
    var t := StripZeros(s);
    if t == [] then "0" else t
  }

  lemma {:induction false} LeadingZeroIgnored(t: string)
    requires AllDigits(t)
    ensures DigitsToNat("0" + t) == DigitsToNat(t)
    decreases |t|
  {
    if t != [] {
      var s := "0" + t;
      assert s[..|s| - 1] == "0" + t[..|t| - 1];
      LeadingZeroIgnored(t[..|t| - 1]);
    }
  }

  lemma {:induction false} StripZerosValue(s: string)
    requires AllDigits(s)
    ensures DigitsToNat(StripZeros(s)) == DigitsToNat(s)
    decreases |s|
  {
    if s != [] && s[0] == '0' {
      StripZerosValue(s[1..]);
      LeadingZeroIgnored(s[1..]);
      assert "0" + s[1..] == s;
    }
  }

  /** A digit string with a non-zero leading digit denotes at least that digit. */
  lemma {:induction false} LeadingDigitBound(s: string)
    requires |s| >= 1 && AllDigits(s)
    ensures DigitsToNat(s) >= DigitValue(s[0])
    decreases |s|
  {
    if |s| > 1 {
      LeadingDigitBound(s[..|s| - 1]);
    }
  }

  /** A digit string without leading zeros is the canonical text of its value. */
  lemma {:induction false} CanonicalRoundTrip(s: string)
    requires |s| >= 1 && AllDigits(s) && s[0] != '0'
    ensures NatToDecimal(DigitsToNat(s)) == s
    decreases |s|
  {
    if |s| > 1 {
      var init := s[..|s| - 1];
      CanonicalRoundTrip(init);
      LeadingDigitBound(init);
      var n := DigitsToNat(s);
      assert n / 10 == DigitsToNat(init);
      assert n % 10 == DigitValue(s[|s| - 1]);
      assert [DigitChar(DigitValue(s[|s| - 1]))] == [s[|s| - 1]];
      assert s == init + [s[|s| - 1]];
    } else {
      assert [DigitChar(DigitValue(s[0]))] == s;
    }
  }

  /** Printing the number a digit string denotes drops its leading zeros:
      `007` prints as `7` and `000` as `0`. */
  lemma IntegerText(s: string)
    requires AllDigits(s)
    ensures NatToDecimal(DigitsToNat(s)) == CanonicalDigits(s)
  {
    StripZerosValue(s);
    var t := StripZeros(s);
    if t == [] {
      assert NatToDecimal(0) == "0";
    } else {
      StripZerosNoLeadingZero(s);
      CanonicalRoundTrip(t);
    }
  }

  lemma {:induction false} StripZerosNoLeadingZero(s: string)
    ensures StripZeros(s) != [] ==> StripZeros(s)[0] != '0'
    decreases |s|
  {
    if s != [] && s[0] == '0' {
      StripZerosNoLeadingZero(s[1..]);
    }
  }
}
