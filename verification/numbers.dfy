/** Numbers printed in decimal. */
module Numbers {
  import opened Chars

  function Digit(n: nat): (c: char)
    requires n < 10
    ensures c == '0' + n as char
  {
    "0123456789"[n]
  }

  /** `%u`, or `%d` of a number that is not negative. */
  function Decimal(n: nat): (s: string)
    ensures s != []
  {
    if n < 10 then [Digit(n)] else Decimal(n / 10) + [Digit(n % 10)]
  }

  function Pow10(k: nat): (r: nat) { if k == 0 then 1 else 10 * Pow10(k - 1) }

  lemma {:induction false} DecimalLength(n: nat, k: nat)
    requires k >= 1 && n < Pow10(k)
    ensures |Decimal(n)| <= k
  {
    if n >= 10 {
      DecimalLength(n / 10, k - 1);
    }
  }

  /** A number of 32 bits has no more than ten digits. */
  lemma TenDigits(n: nat)
    requires n < 0x1_0000_0000
    ensures |Decimal(n)| <= 10
  {
    assert Pow10(5) == 100_000;
    assert Pow10(10) == 10_000_000_000;
    DecimalLength(n, 10);
  }

  lemma {:induction false} DecimalDigits(n: nat)
    ensures Decimal(n) != [] && forall k | 0 <= k < |Decimal(n)| :: IsDigit(Decimal(n)[k])
  {
    if n >= 10 {
      DecimalDigits(n / 10);
    }
  }

  lemma {:induction false} DecimalInjective(m: nat, n: nat)
    requires Decimal(m) == Decimal(n)
    ensures m == n
  {
    DecimalDigits(m / 10);
    DecimalDigits(n / 10);
    var d := Decimal(m);
    if m >= 10 && n >= 10 {
      assert d[..|d| - 1] == Decimal(m / 10) && d[..|d| - 1] == Decimal(n / 10);
      DecimalInjective(m / 10, n / 10);
      assert d[|d| - 1] == Digit(m % 10) && d[|d| - 1] == Digit(n % 10);
    }
  }
}
