/**
 * Decimal rendering of a summed count, as an f-string prints it: the digits
 * of an integer, and of an integral float with its ".0".
 */
module Decimal {
  import opened Wrappers

  predicate IsDigit(c: char) {
    '0' <= c <= '9'
  }

  function DigitChar(d: nat): (c: char)
    requires d < 10
  {
    (('0' as int) + d) as char
  }

  function DigitValue(c: char): nat
    requires IsDigit(c)
  {
    (c as int) - ('0' as int)
  }

  /** The decimal digits of `n`, most significant first, with no leading zero. */
  function NatToString(n: nat): string
    decreases n
  {
    if n < 10 then [DigitChar(n)] else NatToString(n / 10) + [DigitChar(n % 10)]
  }

  /** `str(n)` of an integer: a minus sign for negative values, then the digits. */
  function IntToString(n: int): string {
    if n < 0 then "-" + NatToString(-n) else NatToString(n)
  }

  predicate AllDigits(s: string) {
    forall i :: 0 <= i < |s| ==> IsDigit(s[i])
  }

  function ParseDigits(s: string): nat
    requires AllDigits(s)
  {
    if s == [] then 0 else 10 * ParseDigits(s[..|s| - 1]) + DigitValue(s[|s| - 1])
  }

  /** Reads back what `IntToString` writes: an optional minus sign and at least one digit. */
  function ParseInt(s: string): (r: Option<int>)
    ensures r.Some? ==> s != []
  {
    if s == [] then None
    else if s[0] == '-' then
      if |s| > 1 && AllDigits(s[1..]) then Some(-(ParseDigits(s[1..]) as int)) else None
    else if AllDigits(s) then Some(ParseDigits(s))
    else None
  }

  /** The digits are digits, there is at least one, and only 0 starts with a zero. */
  lemma {:induction false} NatToStringShape(n: nat)
    ensures |NatToString(n)| >= 1 && AllDigits(NatToString(n))
    ensures NatToString(n)[0] == '0' <==> n == 0
    decreases n
  {
    if n >= 10 {
      NatToStringShape(n / 10);
    }
  }

  lemma {:induction false} NatRoundTrip(n: nat)
    ensures AllDigits(NatToString(n)) && ParseDigits(NatToString(n)) == n
    decreases n
  {
    NatToStringShape(n);
    if n >= 10 {
      NatRoundTrip(n / 10);
      var s := NatToString(n);
      assert s[..|s| - 1] == NatToString(n / 10);
    }
  }

  /** Reading back the printed integer gives the integer. */
  lemma IntRoundTrip(n: int)
    ensures ParseInt(IntToString(n)) == Some(n)
  {
    if n < 0 {
      NegativeRoundTrip(-n);
    } else {
      NatRoundTrip(n);
      NatToStringShape(n);
    }
  }

  lemma NegativeRoundTrip(m: nat)
    ensures ParseInt("-" + NatToString(m)) == Some(-(m as int))
  {
    NatRoundTrip(m);
    NatToStringShape(m);
    var s := "-" + NatToString(m);
    assert s[0] == '-' && s[1..] == NatToString(m);
  }

  /** Two different integers never print the same. */
  lemma IntToStringInjective(a: int, b: int)
    requires IntToString(a) == IntToString(b)
    ensures a == b
  {
    IntRoundTrip(a);
    IntRoundTrip(b);
  }

  /**
   * The printed form of a sum: with a trailing ".0" when the count column was
   * read as floats. Only integral floats below 10^16 print this way.
   */
  function CountToString(n: int, asFloat: bool): string {
    IntToString(n) + (if asFloat then ".0" else "")
  }

  /** The printed sum still reads back as the sum, once the float suffix is removed. */
  lemma CountRoundTrip(n: int, asFloat: bool)
    ensures var s := CountToString(n, asFloat);
            var digits := if asFloat then s[..|s| - 2] else s;
            (asFloat ==> |s| >= 2 && s[|s| - 2..] == ".0") && ParseInt(digits) == Some(n)
  {
    IntRoundTrip(n);
    var s := CountToString(n, asFloat);
    if asFloat {
      assert s[..|s| - 2] == IntToString(n);
      assert s[|s| - 2..] == ".0";
    } else {
      assert s == IntToString(n);
    }
  }
}
