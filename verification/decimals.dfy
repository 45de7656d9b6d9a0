/** Decimal digits: writing natural numbers and reading them back. */
module Decimals {
  function Digit(d: nat): char
    requires d < 10
  {
    "0123456789"[d]
  }

  function DigitValue(c: char): int { c as int - '0' as int }

  predicate AllDigits(s: string) {
    forall i :: 0 <= i < |s| ==> '0' <= s[i] <= '9'
  }

  function Decimal(n: nat): string {
    if n < 10 then [Digit(n)] else Decimal(n / 10) + [Digit(n % 10)]
  }

  /** Python's `{n:02d}` for a natural number. */
  function TwoDigits(n: nat): string {
    if n < 10 then "0" + Decimal(n) else Decimal(n)
  }

  /** The number a string of digits denotes. */
  function Read(s: string): int {
    if s == [] then 0 else Read(s[..|s| - 1]) * 10 + DigitValue(s[|s| - 1])
  }

  lemma {:induction false} DigitReads(d: nat)
    requires d < 10
    ensures '0' <= Digit(d) <= '9' && DigitValue(Digit(d)) == d
  {
  }

  lemma {:induction false} ReadNothing()
    ensures Read("") == 0
  {
  }

  /** Reading one digit more. */
  lemma {:induction false} ReadAppend(s: string, d: nat)
    requires d < 10 && AllDigits(s)
    ensures AllDigits(s + [Digit(d)]) && Read(s + [Digit(d)]) == Read(s) * 10 + d
  {
    DigitReads(d);
    hide Digit, DigitValue;
    assert (s + [Digit(d)])[..|s|] == s;
  }

  lemma {:induction false} ReadDecimal(n: nat)
    ensures AllDigits(Decimal(n)) && Read(Decimal(n)) == n
  {
    hide Digit, DigitValue, Read;
    if n < 10 {
      ReadNothing();
      ReadAppend("", n);
      assert "" + [Digit(n)] == Decimal(n);
    } else {
      ReadDecimal(n / 10);
      ReadAppend(Decimal(n / 10), n % 10);
    }
  }

  /** Reading back a padded number gives the number. */
  lemma {:induction false} ReadTwoDigits(n: nat)
    ensures AllDigits(TwoDigits(n)) && Read(TwoDigits(n)) == n
  {
    ReadDecimal(n);
    if n < 10 {
      assert Read(['0']) == Read([]) * 10 + 0;
      ReadAppend("0", n);
      assert "0" + [Digit(n)] == TwoDigits(n);
    }
  }
}
