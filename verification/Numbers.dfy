/** Division with remainder, proved once and away from other definitions. */
module Numbers {

  /** Quotient and remainder are determined by what they say. */
  lemma DivisionUnique(n: nat, q: nat, r: nat, x: nat)
    requires r < n && x == n * q + r
    ensures x / n == q && x % n == r
  {
    var d := x / n - q;
    assert n * (x / n) + x % n == x;
    Difference(n, x / n, q);
    assert n * d == r - x % n;
    if d >= 1 {
      AtLeast(n, d);
    } else if d <= -1 {
      AtLeast(n, -d);
      Negated(n, d);
    }
  }

  lemma Difference(n: nat, a: int, b: int)
    ensures n * (a - b) == n * a - n * b
  {
  }

  lemma AtLeast(n: nat, d: int)
    requires d >= 1
    ensures n * d >= n
  {
  }

  lemma Negated(n: nat, d: int)
    ensures n * -d == -(n * d)
  {
  }

  lemma Distributes(n: nat, q: int)
    ensures n * (q + 1) == n * q + n
  {
  }

  lemma NextRemainder(x: nat, n: nat)
    requires n > 0
    ensures (x + 1) % n == if x % n + 1 == n then 0 else x % n + 1
  {
    var q, r := x / n, x % n;
    assert x == n * q + r;
    if r + 1 == n {
      assert x + 1 == n * q + n;
      Distributes(n, q);
      DivisionUnique(n, q + 1, 0, x + 1);
    } else {
      DivisionUnique(n, q, r + 1, x + 1);
    }
  }

  /** Dividing by 2 and then by p is dividing by 2 * p. */
  lemma HalfThenDivide(x: nat, p: nat)
    requires p > 0
    ensures x / (2 * p) == x / 2 / p
  {
    var h := x / 2;
    var s, t := h / p, h % p;
    assert h == p * s + t;
    Doubled(p, s);
    DivisionUnique(2 * p, s, 2 * t + x % 2, x);
  }

  lemma Doubled(p: nat, s: nat)
    ensures 2 * (p * s) == 2 * p * s
  {
  }
}
