/** Facts about division that the solver needs to be told. */
module Arithmetic {
  lemma Spread(k: int, m: nat)
    ensures k == 0 || k * m >= m || k * m <= 0 - m
  {}

  lemma Distribute(q: int, y: int, m: nat)
    ensures (q - y) * m == q * m - y * m
  {}

  lemma Remainder(n: nat, q: nat, r: nat, m: nat)
    requires r < m && n == q * m + r
    ensures n % m == r
  {
    Distribute(q, n / m, m);
    Spread(q - n / m, m);
  }

  lemma Quotient(n: nat, m: nat)
    requires m > 0
    ensures n == n / m * m + n % m
  {}

  lemma Multiple(n: nat, m: nat)
    requires m > 0
    ensures (n - n % m) % m == 0 && n - n % m >= 0
  {
    Quotient(n, m);
    Remainder(n - n % m, n / m, 0, m);
  }

  lemma AfterMultiple(n: nat, k: nat, m: nat)
    requires m > 0 && n % m == 0 && k <= m
    ensures (n + k) % m == if k == m then 0 else k
  {
    Quotient(n, m);
    var q := n / m;
    if k == m {
      Distribute(q, -1, m);
      Remainder(n + k, q + 1, 0, m);
    } else {
      Remainder(n + k, q, k, m);
    }
  }

  lemma MulMono(x: int, y: int, u: nat)
    requires x <= y
    ensures x * u <= y * u
  {}

  lemma NextMul(x: int, u: int)
    ensures (x + 1) * u == x * u + u && (x - 1) * u == x * u - u
  {}
}
