/** Decimal text for integers: Python's `str(n)`, `f"{n:02d}"`, and the
    inverse parse used to show that these spellings are injective. */
module Decimal {
  import opened Wrappers

  predicate IsDigit(c: char) {
    '0' <= c <= '9'
  }

  predicate AllDigits(s: string) {
    forall i :: 0 <= i < |s| ==> IsDigit(s[i])
  }

  function DigitChar(d: nat): (c: char)
    requires d < 10
    ensures IsDigit(c) && c as int - '0' as int == d
  {
    ('0' as int + d) as char
  }

  function DigitValue(c: char): (d: nat)
    requires IsDigit(c)
    ensures d < 10 && DigitChar(d) == c
  {
    c as int - '0' as int
  }

  /** Python's `str(n)` for a natural number: no sign, no leading zero. */
  function NatToDecimal(n: nat): (s: string)
    ensures |s| >= 1 && AllDigits(s)
    ensures |s| > 1 ==> s[0] != '0'
  {
    if n < 10 then [DigitChar(n)] else NatToDecimal(n / 10) + [DigitChar(n % 10)]
  }

  /** The number a string of decimal digits denotes (leading zeros allowed). */
  function DecimalValue(s: string): nat
    requires AllDigits(s)
  {
    if s == [] then 0 else 10 * DecimalValue(s[..|s| - 1]) + DigitValue(s[|s| - 1])
  }

  /** Reading back what `NatToDecimal` printed gives the number again. */
  lemma {:induction false} DecimalRoundTrip(n: nat)
    ensures DecimalValue(NatToDecimal(n)) == n
  {
    if n >= 10 {
      var s := NatToDecimal(n);
      assert s[..|s| - 1] == NatToDecimal(n / 10);
      DecimalRoundTrip(n / 10);
    }
  }

  lemma NatToDecimalInjective(m: nat, n: nat)
    requires NatToDecimal(m) == NatToDecimal(n)
    ensures m == n
  {
    DecimalRoundTrip(m);
    DecimalRoundTrip(n);
  }

  /** Python's `str(i)` for an integer: a minus sign before negative values. */
  function IntToDecimal(i: int): (s: string)
    ensures |s| >= 1
    ensures forall k :: 0 <= k < |s| ==> IsDigit(s[k]) || (k == 0 && s[k] == '-')
  {
    if i < 0 then "-" + NatToDecimal(-i) else NatToDecimal(i)
  }

  /** Parses an optional minus sign followed by one or more digits. */
  function ParseDecimalInt(s: string): (r: Option<int>)
    ensures r.Some? ==> |s| >= 1
  {
    if |s| > 1 && s[0] == '-' && AllDigits(s[1..]) then Some(0 - DecimalValue(s[1..]) as int)
    else if |s| > 0 && AllDigits(s) then Some(DecimalValue(s) as int)
    else None
  }

  /** Every integer reads back from its decimal spelling. */
  lemma IntRoundTrip(i: int)
    ensures ParseDecimalInt(IntToDecimal(i)) == Some(i)
  {
    if i < 0 {
      var s := IntToDecimal(i);
      assert s[1..] == NatToDecimal(-i);
      DecimalRoundTrip(-i);
    } else {
      DecimalRoundTrip(i);
    }
  }

  lemma IntToDecimalInjective(i: int, j: int)
    requires IntToDecimal(i) == IntToDecimal(j)
    ensures i == j
  {
    IntRoundTrip(i);
    IntRoundTrip(j);
  }

  /** Python's `f"{n:02d}"`: at least two digits, zero padded on the left. */
  function ZeroPad2(n: nat): (s: string)
    ensures |s| >= 2 && AllDigits(s)
    ensures n >= 10 ==> s == NatToDecimal(n)
  {
    if n < 10 then "0" + NatToDecimal(n) else NatToDecimal(n)
  }

  /** The padded spelling still denotes `n`, so distinct numbers get distinct spellings. */
  lemma ZeroPad2Value(n: nat)
    ensures DecimalValue(ZeroPad2(n)) == n
  {
    DecimalRoundTrip(n);
    if n < 10 {
      var s := ZeroPad2(n);
      assert s[..|s| - 1] == "0";
    }
  }
}
