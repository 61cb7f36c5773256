/** The facts about division and remainder by a variable that the solver does not find alone. */
module Modular {

  lemma AtLeastOnce(x: nat, k: int)
    requires k >= 1
    ensures x * k >= x
  {
    assert x * k == x * (k - 1) + x;
    assert x * (k - 1) >= 0;
  }

  /** Quotient and remainder are unique. */
  lemma Remainder(n: int, r: nat, q: int, t: int)
    requires 0 < r && n == r * q + t && 0 <= t < r
    ensures n % r == t && n / r == q
  {
    var q', t' := n / r, n % r;
    assert n == r * q' + t';
    assert r * (q - q') == r * q - r * q' && r * (q' - q) == r * q' - r * q;
    if q > q' {
      AtLeastOnce(r, q - q');
    } else if q < q' {
      AtLeastOnce(r, q' - q);
    }
  }

  lemma Small(n: nat, r: nat)
    requires n < r
    ensures n % r == n
  {
    Remainder(n, r, 0, n);
  }

  lemma AddTurn(k: int, r: nat)
    requires 0 < r
    ensures (r + k) % r == k % r
  {
    assert r + k == r * (k / r + 1) + k % r;
    Remainder(r + k, r, k / r + 1, k % r);
  }
}
