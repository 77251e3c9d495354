/** Products of variables, and division by a divisor that is not a literal. */
module Arithmetic {
  lemma Associates(a: int, b: int, c: int)
    ensures (a * b) * c == a * (b * c)
  {}

  lemma Distributes(a: int, b: int, c: int)
    ensures (a + b) * c == a * c + b * c
    ensures (a - b) * c == a * c - b * c
  {}

  lemma AtLeastOnce(k: int, m: int)
    requires k >= 1 && m > 0
    ensures k * m >= m
  {}

  lemma ProductGrows(a: nat, b: nat, m: nat)
    requires a <= b
    ensures a * m <= b * m
  {
    assert b * m == a * m + (b - a) * m;
  }

  lemma DivModUnique(x: int, q: int, r: int, m: int)
    requires m > 0 && 0 <= r < m && x == q * m + r
    ensures x % m == r && x / m == q
  {
    var k := q - x / m;
    assert k * m == x % m - r by {
      assert x == (x / m) * m + x % m;
    }
    if k >= 1 { AtLeastOnce(k, m); }
    if k <= -1 { AtLeastOnce(-k, m); }
  }

  lemma QuotientMonotone(a: nat, b: nat, d: nat)
    requires d > 0 && a <= b
    ensures 0 <= a / d <= b / d && b / d * d <= b
  {
    var p, q := a / d, b / d;
    assert a == p * d + a % d && b == q * d + b % d;
    assert p * d - q * d == (p - q) * d;
    if p > q { AtLeastOnce(p - q, d); }
  }

  lemma QuotientBounds(a: nat, b: nat, d: nat)
    requires d > 0 && a <= b
    ensures a / d * d == a <==> a % d == 0
    ensures 0 <= a / d <= b / d && b / d * d <= b < (b / d + 1) * d
  {
    QuotientMonotone(a, b, d);
    assert a == a / d * d + a % d;
    assert b == b / d * d + b % d;
    Distributes(b / d, 1, d);
  }
}
