/** Euclidean division by a variable divisor. */
module Arith {

  lemma {:induction false} MulGap(a: nat, b: nat, m: nat)
    requires a < b
    ensures a * m + m <= b * m
    decreases b
  {
    if b == a + 1 {
      assert (a + 1) * m == a * m + m;
    } else {
      MulGap(a, b - 1, m);
      assert b * m == (b - 1) * m + m;
    }
  }

  /** The only quotient and remainder */
  lemma DivModUnique(x: nat, m: nat, q: nat, r: nat)
    requires m > 0 && r < m && x == q * m + r
    ensures x / m == q && x % m == r
  {
    var p, s := x / m, x % m;
    assert x == p * m + s;
    if p < q {
      MulGap(p, q, m);
    } else if q < p {
      MulGap(q, p, m);
    }
  }

  lemma ModSmall(x: nat, m: nat)
    requires x < m
    ensures x % m == x
  {
    DivModUnique(x, m, 0, x);
  }

  lemma ModAdd(x: nat, m: nat)
    requires m > 0
    ensures (x + m) % m == x % m
  {
    var q, r := x / m, x % m;
    assert x + m == (q + 1) * m + r;
    DivModUnique(x + m, m, q + 1, r);
  }

  lemma ModSucc(x: nat, m: nat)
    requires m > 0
    ensures (x + 1) % m == if x % m + 1 == m then 0 else x % m + 1
  {
    var q, r := x / m, x % m;
    assert x == q * m + r;
    if r + 1 == m {
      assert x + 1 == (q + 1) * m + 0;
      DivModUnique(x + 1, m, q + 1, 0);
    } else {
      DivModUnique(x + 1, m, q, r + 1);
    }
  }

  /** Fewer than m apart, two numbers have different remainders. */
  lemma ModDistinct(a: nat, b: nat, m: nat)
    requires a < b < a + m
    ensures a % m != b % m
  {
    var q, r := a / m, a % m;
    assert a == q * m + r;
    if r + (b - a) < m {
      DivModUnique(b, m, q, r + (b - a));
    } else {
      assert b == (q + 1) * m + (r + (b - a) - m);
      DivModUnique(b, m, q + 1, r + (b - a) - m);
    }
  }

  /** Going d back from x, with m added to stay non-negative */
  lemma ModBack(x: nat, d: nat, m: nat)
    requires 0 < d <= m && d <= x
    ensures (x % m + m - d) % m == (x - d) % m
  {
    var q, r := x / m, x % m;
    assert x == q * m + r;
    if r >= d {
      DivModUnique(x - d, m, q, r - d);
      ModAdd(r - d, m);
      ModSmall(r - d, m);
    } else {
      assert x - d == (q - 1) * m + (r - d + m);
      DivModUnique(x - d, m, q - 1, r - d + m);
      ModSmall(r - d + m, m);
    }
  }
}
