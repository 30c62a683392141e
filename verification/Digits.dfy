/** Decimal notation, as written and read by several components. */
module Digits {

  predicate IsDigit(c: char) {
    '0' <= c <= '9'
  }

  predicate AreDigits(s: string) {
    forall i :: 0 <= i < |s| ==> IsDigit(s[i])
  }

  function DigitOf(n: nat): (c: char)
    requires n < 10
    ensures IsDigit(c)
  {
    ('0' as int + n) as char
  }

  function DigitValue(c: char): (n: nat)
    requires IsDigit(c)
    ensures n < 10 && c == DigitOf(n)
  {
    c as int - '0' as int
  }

  /** The number a string of digits denotes. */
  function Value(s: string): nat
    requires AreDigits(s)
  {
    if s == "" then 0 else Value(s[..|s| - 1]) * 10 + DigitValue(s[|s| - 1])
  }

  /** Plain decimal notation. */
  function Decimal(n: nat): (s: string)
    ensures s != "" && AreDigits(s)
  {
    if n < 10 then [DigitOf(n)] else Decimal(n / 10) + [DigitOf(n % 10)]
  }

  function Pow10(e: nat): nat {
    if e == 0 then 1 else 10 * Pow10(e - 1)
  }

  /** Decimal notation denotes its number, and is no longer than the number is large. */
  lemma {:induction false} DecimalMeaning(n: nat, width: nat)
    requires 0 < width && n < Pow10(width)
    ensures Value(Decimal(n)) == n && |Decimal(n)| <= width
  {
    if n < 10 {
      assert Value([DigitOf(n)]) == n by { assert [DigitOf(n)][..0] == []; }
    } else {
      DecimalMeaning(n / 10, width - 1);
      assert Decimal(n)[..|Decimal(n)| - 1] == Decimal(n / 10);
    }
  }

  lemma {:induction false} BelowAPower(n: nat)
    ensures n < Pow10(n + 1)
  {
    if n > 0 { BelowAPower(n - 1); }
  }

  lemma DecimalIsInjective(m: nat, n: nat)
    ensures Decimal(m) == Decimal(n) <==> m == n
  {
    BelowAPower(m);
    BelowAPower(n);
    DecimalMeaning(m, m + 1);
    DecimalMeaning(n, n + 1);
  }
}
