// Quotient and remainder by a variable divisor.
module Arithmetic {

  lemma {:induction false} NoSmallMultiple(m: int, k: int)
    requires -m < m * k < m
    ensures k == 0
  {
  }

  lemma {:induction false} Division(n: int, q: int, r: int, m: int)
    requires m > 0 && n == q * m + r && 0 <= r < m
    ensures n / m == q && n % m == r
  {
    var k := n / m - q;
    assert m * k == r - n % m;
    NoSmallMultiple(m, k);
  }
}
