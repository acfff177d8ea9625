/** Quotients and remainders of integers. */
module Division {

  lemma Order(x: int, y: int, p: int)
    requires p >= 0
    ensures x <= y ==> x * p <= y * p
  {
    if x <= y { assert (y - x) * p >= 0; }
  }

  lemma Euclid(n: int, d: int)
    requires d > 0
    ensures n == (n / d) * d + n % d && 0 <= n % d < d
  {
  }

  lemma SameFloor(x: int, p: int, r: int, s: int)
    requires p > 0 && r * p <= x < (r + 1) * p && s * p <= x < (s + 1) * p
    ensures r == s
  {
    Order(r + 1, s, p);
    Order(s + 1, r, p);
  }

  lemma QuotientIs(n: int, d: int, q: int, r: int)
    requires d > 0 && n == q * d + r && 0 <= r < d
    ensures n / d == q && n % d == r
  {
    Euclid(n, d);
    var p := n / d;
    assert (q + 1) * d == q * d + d && (p + 1) * d == p * d + d;
    SameFloor(n, d, q, p);
  }
}
