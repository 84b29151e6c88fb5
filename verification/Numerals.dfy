/** Decimal numerals, as indices are printed in paths and keys. */
module Numerals {

  function Digit(n: nat): char
    requires n < 10
  {
    "0123456789"[n]
  }

  /** How an index is printed. */
  function Decimal(n: nat): string {
    if n < 10 then [Digit(n)] else Decimal(n / 10) + [Digit(n % 10)]
  }

  lemma DecimalSplit(n: nat)
    ensures var d := Decimal(n);
      && d != [] && d[|d| - 1] == Digit(n % 10) && (n < 10 <==> |d| == 1)
      && (n >= 10 ==> d[..|d| - 1] == Decimal(n / 10))
  {
    if n >= 10 {
      assert Decimal(n / 10) != [];
    }
  }

  lemma DigitInjective(m: nat, n: nat)
    requires m < 10 && n < 10 && Digit(m) == Digit(n)
    ensures m == n
  {}

  lemma {:induction false} DecimalInjective(m: nat, n: nat)
    requires Decimal(m) == Decimal(n)
    ensures m == n
  {
    hide Decimal, Digit;
    DecimalSplit(m);
    DecimalSplit(n);
    DigitInjective(m % 10, n % 10);
    if m >= 10 {
      DecimalInjective(m / 10, n / 10);
    }
  }
}
