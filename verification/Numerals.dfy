/** Decimal numerals, as `str` writes them. */
module Numerals {

  const DIGITS := "0123456789"

  function Decimal(n: nat): (s: string)
    ensures s != ""
  {
    if n < 10 then [DIGITS[n]] else Decimal(n / 10) + [DIGITS[n % 10]]
  }

  function DigitValue(c: char): nat {
    if '0' <= c <= '9' then (c as int - '0' as int) else 0
  }

  /** What a numeral stands for. */
  function ValueOf(s: string): nat {
    if s == "" then 0 else 10 * ValueOf(s[..|s| - 1]) + DigitValue(s[|s| - 1])
  }

  lemma {:induction false} DecimalValue(n: nat)
    ensures ValueOf(Decimal(n)) == n
  {
    assert DigitValue(DIGITS[n % 10]) == n % 10;
    if n < 10 {
      assert ValueOf(Decimal(n)[..0]) == 0;
    } else {
      DecimalValue(n / 10);
      var s := Decimal(n);
      assert s[..|s| - 1] == Decimal(n / 10);
    }
  }

  /** Different numbers have different numerals. */
  lemma DecimalInjective(m: nat, n: nat)
    requires Decimal(m) == Decimal(n)
    ensures m == n
  {
    DecimalValue(m);
    DecimalValue(n);
  }

  lemma {:induction false} DecimalDigits(n: nat)
    ensures '-' !in Decimal(n)
  {
    if n >= 10 { DecimalDigits(n / 10); }
  }

  function Power(w: nat): nat { if w == 0 then 1 else 10 * Power(w - 1) }

  lemma {:induction false} DecimalShort(n: nat, w: nat)
    requires 0 < w && n < Power(w)
    ensures |Decimal(n)| <= w
  {
    if n >= 10 { DecimalShort(n / 10, w - 1); }
  }
}
