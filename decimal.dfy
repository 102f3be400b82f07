/**
 * Decimal rendering of integers, as Python's `str(int)` and f-string
 * interpolation `{n}` produce it: an optional minus sign followed by the
 * digits of the magnitude, without leading zeros.
 */
module Decimal {

  predicate IsDigit(c: char) {
    '0' <= c <= '9'
  }

  function DigitChar(d: nat): (c: char)
    requires d < 10
    ensures IsDigit(c) && c as int - '0' as int == d
  {
    ['0', '1', '2', '3', '4', '5', '6', '7', '8', '9'][d]
  }

  /** The digits of `n`, most significant first. */
  function NatDigits(n: nat): (s: string)
    ensures |s| >= 1
    ensures forall i :: 0 <= i < |s| ==> IsDigit(s[i])
    ensures s[0] == '0' ==> n == 0 && |s| == 1
    decreases n
  {
    if n < 10 then [DigitChar(n)] else NatDigits(n / 10) + [DigitChar(n % 10)]
  }

  /** `str(n)` for any Python integer. */
  function FromInt(n: int): (s: string)
    ensures |s| >= 1
    ensures n >= 0 ==> forall i :: 0 <= i < |s| ==> IsDigit(s[i])
    ensures n < 0 ==> s[0] == '-' && |s| >= 2 && s[1..] == NatDigits(-n)
    ensures forall i :: 0 <= i < |s| ==> IsDigit(s[i]) || (i == 0 && s[i] == '-')
  {
    if n < 0 then "-" + NatDigits(-n) else NatDigits(n)
  }

  /** The value of a string of decimal digits (the empty string reads as 0). */
  function DigitsValue(s: string): nat
    requires forall i :: 0 <= i < |s| ==> IsDigit(s[i])
  {
    if s == [] then 0
    else
      assert IsDigit(s[|s| - 1]);
      DigitsValue(s[..|s| - 1]) * 10 + (s[|s| - 1] as int - '0' as int)
  }

  /** Reading back a rendered integer: the inverse of `FromInt`. */
  function ToInt(s: string): int
    requires |s| >= 1
    requires forall i :: 1 <= i < |s| ==> IsDigit(s[i])
    requires s[0] == '-' || IsDigit(s[0])
  {
    if s[0] == '-' then -(DigitsValue(s[1..]) as int) else DigitsValue(s)
  }

  lemma {:induction false} NatDigitsRoundTrip(n: nat)
    ensures DigitsValue(NatDigits(n)) == n
    decreases n
  {
    if n >= 10 {
      var s := NatDigits(n);
      assert s[..|s| - 1] == NatDigits(n / 10);
      NatDigitsRoundTrip(n / 10);
    }
  }

  /** Rendering then reading back gives the original integer. */
  lemma FromIntRoundTrip(n: int)
    ensures ToInt(FromInt(n)) == n
  {
    var s := FromInt(n);
    if n < 0 {
      var d := NatDigits(-n);
      assert s == "-" + d;
      assert s[1..] == d;
      NatDigitsRoundTrip(-n);
    } else {
      assert s == NatDigits(n);
      assert s[0] != '-';
      NatDigitsRoundTrip(n);
    }
  }

  /** Distinct integers render as distinct strings. */
  lemma FromIntInjective(m: int, n: int)
    ensures FromInt(m) == FromInt(n) ==> m == n
  {
    FromIntRoundTrip(m);
    FromIntRoundTrip(n);
  }

}
