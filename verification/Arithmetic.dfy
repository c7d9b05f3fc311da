/** Euclidean division, shared by the modules that count in blocks. */
module Arithmetic {

  /** A quotient is determined by its remainder being in range. */
  lemma DivisionUnique(n: int, d: int, q: int, r: int)
    requires d > 0 && 0 <= r < d && n == q * d + r
    ensures n / d == q
  {
    var k := n / d - q;
    assert k * d == r - n % d;
    assert k > 0 ==> k * d >= d;
    assert k < 0 ==> k * d <= -d;
  }

  function Div(n: nat, d: nat): nat
    requires d > 0
  {
    n / d
  }

  lemma DivisionSteps(n: nat, d: nat)
    requires 0 < d <= n
    ensures n / d == (n - d) / d + 1
  {
    var q, r := (n - d) / d, (n - d) % d;
    assert n == (q + 1) * d + r;
    DivisionUnique(n, d, q + 1, r);
  }
}
