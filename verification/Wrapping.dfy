/** Counters that wrap at a modulus. */
module Wrapping {

  lemma MulAtLeast(m: int, d: int)
    requires m > 0
    ensures d >= 1 ==> m * d >= m
    ensures d <= -1 ==> m * d <= -m
  {
    if d >= 1 {
      assert m * d == m + m * (d - 1);
    } else if d <= -1 {
      assert m * d == -m + m * (d + 1);
    }
  }

  /** Quotient and remainder are unique. */
  lemma Remainder(x: int, m: int, q: int, r: int)
    requires 0 <= r < m && x == m * q + r
    ensures x % m == r
  {
    var d := q - x / m;
    assert m * d == m * q - m * (x / m);
    assert x == m * (x / m) + x % m;
    MulAtLeast(m, d);
  }

  lemma AddMultiple(x: int, m: int, k: int)
    requires m > 0
    ensures (x + m * k) % m == x % m
  {
    assert x == m * (x / m) + x % m;
    assert x + m * k == m * (x / m + k) + x % m;
    Remainder(x + m * k, m, x / m + k, x % m);
  }

  lemma DifferenceOfWrapped(m: int, a: int, b: int)
    requires m > 0
    ensures (a % m - b % m) % m == (a - b) % m
  {
    var qa, qb := a / m, b / m;
    assert a == m * qa + a % m && b == m * qb + b % m;
    assert m * (qa - qb) == m * qa - m * qb;
    AddMultiple(a % m - b % m, m, qa - qb);
  }

  lemma NextWrapped(m: int, x: int)
    requires m > 0
    ensures (x % m + 1) % m == (x + 1) % m
  {
    assert x == m * (x / m) + x % m;
    AddMultiple(x % m + 1, m, x / m);
  }

  /** Wrapping at a multiple of `n` keeps the position modulo `n`. */
  lemma WrapKeepsPosition(x: int, m: int, n: int)
    requires n > 0 && m > 0 && m % n == 0
    ensures (x % m) % n == x % n
  {
    var k, q := m / n, x / m;
    assert m == n * k;
    assert x == m * q + x % m;
    assert m * q == n * (k * q) by { Associate(n, k, q); }
    AddMultiple(x % m, n, k * q);
  }

  lemma Associate(a: int, b: int, c: int)
    ensures (a * b) * c == a * (b * c)
  {
  }
}
