/** Powers of two, and division with remainder. */
module Arithmetic {

  function Pow2(k: nat): (p: nat)
    ensures p > 0
  {
    if k == 0 then 1 else 2 * Pow2(k - 1)
  }

  lemma {:induction false} FactorOfPow2(n: nat, q: nat, m: nat) returns (k: nat)
    requires n * q == Pow2(m)
    ensures k <= m && n == Pow2(k)
  {
    if m == 0 {
      MultipleBounds(q, n - 1);
      k := 0;
    } else if n % 2 == 0 {
      assert 2 * (n / 2 * q) == (2 * (n / 2)) * q;
      k := FactorOfPow2(n / 2, q, m - 1);
      k := k + 1;
    } else {
      Parity(n, q);
      assert n * (q / 2) * 2 == n * ((q / 2) * 2);
      k := FactorOfPow2(n, q / 2, m - 1);
    }
  }

  lemma Parity(n: nat, q: nat)
    requires n % 2 == 1
    ensures (n * q) % 2 == q % 2
  {
    var a, b := n / 2, q / 2;
    assert n * q == (2 * a + 1) * (2 * b + q % 2) == 2 * (2 * a * b + a * (q % 2) + b) + q % 2;
  }

  lemma DoubleProduct(a: int, b: int)
    ensures a * (2 * b) == 2 * (a * b)
  {}

  lemma {:induction false} Pow2Sum(k: nat, m: nat)
    ensures Pow2(k + m) == Pow2(k) * Pow2(m)
  {
    if m > 0 {
      Pow2Sum(k, m - 1);
      DoubleProduct(Pow2(k), Pow2(m - 1));
    }
  }

  lemma MultipleBounds(n: int, d: int)
    requires n >= 0
    ensures d >= 1 ==> n * d >= n
    ensures d <= -1 ==> n * d <= -n
  {}

  lemma QuotientAndRemainder(x: int, n: int, q: int, r: int)
    requires n > 0 && x == n * q + r && 0 <= r < n
    ensures x / n == q && x % n == r
  {
    var q', r' := x / n, x % n;
    assert x == n * q' + r';
    assert n * (q - q') == r' - r;
    MultipleBounds(n, q - q');
  }
}
