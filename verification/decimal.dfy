/** JavaScript's `String(x)` for the integers the page prints: the shortest
    decimal numeral, with a leading `-` for negatives, and a parser that
    inverts it.
 */
module Decimal {
  import opened Text

  function DigitChar(d: nat): (c: char)
    requires d < 10
    ensures IsDigit(c)
  {
    (('0' as int) + d) as char
  }

  function DigitValue(c: char): (d: nat)
    requires IsDigit(c)
    ensures d < 10 && DigitChar(d) == c
  {
    (c as int) - ('0' as int)
  }

  /** `String(n)` for a natural number `n`. */
  function NatToDecimal(n: nat): (s: string)
    ensures 1 <= |s| && AllDigits(s)
    ensures 1 < |s| ==> s[0] != '0'
    decreases n
  {
    if n < 10 then [DigitChar(n)] else NatToDecimal(n / 10) + [DigitChar(n % 10)]
  }

  /** The value of a string of decimal digits (the empty string counts 0). */
  function DecimalValue(s: string): nat
    requires AllDigits(s)
    decreases |s|
  {
    if s == [] then 0 else DecimalValue(s[..|s| - 1]) * 10 + DigitValue(s[|s| - 1])
  }

  /** Reading back the printed numeral yields the number printed. */
  lemma {:induction false} DecimalRoundTrip(n: nat)
    ensures DecimalValue(NatToDecimal(n)) == n
    decreases n
  {
    var s := NatToDecimal(n);
    if n >= 10 {
      DecimalRoundTrip(n / 10);
      assert s[..|s| - 1] == NatToDecimal(n / 10);
    }
  }

  /** The numeral of `n` has four or more digits exactly when `n` is at
      least one thousand. */
  lemma DecimalLengthThousand(n: nat)
    ensures 4 <= |NatToDecimal(n)| <==> 1000 <= n
  {
    if n >= 10 {
      var m := n / 10;
      if m >= 10 {
        var k := m / 10;
        if k >= 10 {
          assert |NatToDecimal(k)| >= 2;
        } else {
          assert |NatToDecimal(k)| == 1;
        }
      }
    }
  }

  /** `String(i)` for an integer `i`. */
  function IntToDecimal(i: int): (s: string)
    ensures 1 <= |s|
  {
    if i < 0 then "-" + NatToDecimal(-i) else NatToDecimal(i)
  }

  /** Parses an optional `-` followed by at least one digit. */
  function ParseInt(s: string): Option<int> {
    if |s| > 0 && s[0] == '-' then
      (if |s| > 1 && AllDigits(s[1..]) then Some(0 - DecimalValue(s[1..]) as int) else None)
    else if |s| > 0 && AllDigits(s) then Some(DecimalValue(s))
    else None
  }

  /** Every integer the page prints reads back as itself, so distinct
      integers always print differently. */
  lemma IntRoundTrip(i: int)
    ensures ParseInt(IntToDecimal(i)) == Some(i)
  {
    var s := IntToDecimal(i);
    if i < 0 {
      assert s[0] == '-' && s[1..] == NatToDecimal(-i);
      DecimalRoundTrip(-i);
    } else {
      assert IsDigit(s[0]);
      DecimalRoundTrip(i);
    }
  }
}
