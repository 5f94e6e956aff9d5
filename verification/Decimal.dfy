/** Decimal numerals without sign, as the printers write them and the parsers read them. */
module Decimal {
  function Digit(d: nat): char
    requires d < 10
  {
    "0123456789"[d]
  }

  predicate IsDigit(c: char) {
    '0' <= c <= '9'
  }

  function DigitValue(c: char): nat
    requires IsDigit(c)
  {
    c as int - '0' as int
  }

  function Print(n: nat): (s: string)
    ensures |s| > 0
  {
    if n < 10 then [Digit(n)] else Print(n / 10) + [Digit(n % 10)]
  }

  predicate IsNumeral(s: string) {
    forall k | 0 <= k < |s| :: IsDigit(s[k])
  }

  function Value(s: string): nat
    requires IsNumeral(s)
  {
    if s == [] then 0 else Value(s[..|s| - 1]) * 10 + DigitValue(s[|s| - 1])
  }

  lemma {:induction false} PrintReadsBack(n: nat)
    ensures IsNumeral(Print(n)) && Value(Print(n)) == n
  {
    if n >= 10 {
      PrintReadsBack(n / 10);
      assert Print(n)[..|Print(n)| - 1] == Print(n / 10);
    }
  }

  lemma PrintIsShort(n: nat)
    requires n < 1000
    ensures |Print(n)| <= 3
  {
    var m := n / 10;
    assert |Print(m)| <= 2 by {
      if m >= 10 {
        assert |Print(m / 10)| == 1;
      }
    }
  }
}
