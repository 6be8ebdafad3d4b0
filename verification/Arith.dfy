/** Division facts used by the fixed-point and modular arguments. */
module Arith {
  lemma MulGrows(m: int, d: int)
    requires m > 0
    ensures d >= 1 ==> m * d >= m
    ensures d <= -1 ==> m * d <= -m
  {
    if d >= 1 {
      assert m * d == m + m * (d - 1);
    } else if d <= -1 {
      assert m * d == -m + m * (d + 1);
    }
  }

  /** Quotient and remainder are unique. */
  lemma DivModUnique(n: int, q: int, r: int, m: int)
    requires 0 <= r < m && n == m * q + r
    ensures n / m == q && n % m == r
  {
    assert n == m * (n / m) + n % m;
    assert m * (q - n / m) == n % m - r;
    MulGrows(m, q - n / m);
  }

  lemma NextIndex(n: nat, lim: nat)
    requires 0 < lim
    ensures (n + 1) % lim == if n % lim + 1 < lim then n % lim + 1 else 0
  {
    var q, r := n / lim, n % lim;
    assert n == lim * q + r;
    if r + 1 < lim {
      DivModUnique(n + 1, q, r + 1, lim);
    } else {
      assert n + 1 == lim * (q + 1);
      DivModUnique(n + 1, q + 1, 0, lim);
    }
  }

  /** Numbers less than `lim` apart have different remainders. */
  lemma DistinctMod(m: nat, n: nat, lim: nat)
    requires 0 < lim && m < n && n - m < lim
    ensures m % lim != n % lim
  {
    var q, r := m / lim, m % lim;
    assert m == lim * q + r;
    if r + (n - m) < lim {
      DivModUnique(n, q, r + (n - m), lim);
    } else {
      assert n == lim * (q + 1) + (r + (n - m) - lim);
      DivModUnique(n, q + 1, r + (n - m) - lim, lim);
    }
  }

  lemma DivBounds(n: nat, d: nat)
    requires d > 0
    ensures d * (n / d) <= n < d * (n / d) + d
  {
  }

  function Quotient(n: nat, d: nat): nat
    requires d > 0
  {
    n / d
  }

  lemma DivMod(n: nat, d: nat)
    requires d > 0
    ensures n == d * (n / d) + n % d && n % d < d
  {
  }

  lemma Scale(a: nat, b: nat, k: nat)
    requires a <= b
    ensures k * a <= k * b
  {
  }

  lemma CancelLeft(m: nat, a: nat, b: nat)
    requires m > 0 && m * a <= m * b
    ensures a <= b
  {
    MulGrows(m, a - b);
    assert m * (a - b) == m * a - m * b;
  }

  lemma CancelLess(m: nat, a: nat, b: nat)
    requires m > 0 && m * a < m * b
    ensures a < b
  {
    MulGrows(m, a - b);
    assert m * (a - b) == m * a - m * b;
  }

  lemma QuotientOrder(n: nat, a: nat, b: nat, qa: nat, qb: nat)
    requires 0 < a <= b && b * qb <= n < a * qa + a
    ensures qb <= qa
  {
    Scale(a, b, qb);
    assert qb * a == a * qb && qb * b == b * qb;
    assert a * (qa + 1) == a * qa + a;
    CancelLess(a, qb, qa + 1);
  }

  /** A larger divisor gives a smaller quotient. */
  lemma DivMonotone(n: nat, a: nat, b: nat)
    requires 0 < a <= b
    ensures n / b <= n / a
  {
    DivBounds(n, a);
    DivBounds(n, b);
    QuotientOrder(n, a, b, n / a, n / b);
  }

  /** With quotient k of the quotient q, what is left over is less than the product. */
  lemma Remainders(n: nat, a: nat, b: nat, q: nat, k: nat)
    requires 0 < a && 0 < b
    requires a * q <= n < a * q + a && b * k <= q < b * k + b
    ensures 0 < a * b && (a * b) * k <= n < (a * b) * k + a * b
  {
    MulGrows(a, b);
    Scale(b * k, q, a);
    Scale(q, b * k + (b - 1), a);
    assert a * (b * k) == (a * b) * k;
    assert a * (b * k + (b - 1)) == a * (b * k) + (a * b - a);
  }

  /** Dividing twice is dividing by the product. */
  lemma DivTwice(n: nat, a: nat, b: nat)
    requires 0 < a && 0 < b
    ensures 0 < a * b && n / a / b == n / (a * b)
  {
    var k := n / a / b;
    DivBounds(n, a);
    DivBounds(n / a, b);
    Remainders(n, a, b, n / a, k);
    DivModUnique(n, k, n - (a * b) * k, a * b);
  }
}
