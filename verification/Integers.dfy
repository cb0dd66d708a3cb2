/** Facts of integer arithmetic that several proofs share. */
module Integers {

  lemma {:induction false} SignOfProduct(x: int, y: int)
    requires x > 0
    ensures x * y > 0 <==> y > 0
    ensures x * y == 0 <==> y == 0
  {
  }

  lemma {:induction false} Cancel(x: int, y: int, z: int)
    requires x != 0 && x * y == x * z
    ensures y == z
  {
    assert x * (y - z) == 0;
    if x > 0 { SignOfProduct(x, y - z); } else { SignOfProduct(-x, z - y); }
  }

  /** The only multiple of d strictly between -d and d is zero. */
  lemma {:induction false} SmallMultiple(d: int, k: int)
    requires d > 0 && -d < d * k < d
    ensures k == 0
  {
    SignOfProduct(d, k - 1);
    SignOfProduct(d, -k - 1);
    assert d * (k - 1) == d * k - d && d * (-k - 1) == -(d * k) - d;
    SignOfProduct(d, k);
  }

  lemma {:induction false} DivideExactly(n: int, d: int, q: int)
    requires d > 0 && n == d * q
    ensures n / d == q && n % d == 0
  {
    var q', r := n / d, n % d;
    assert n == d * q' + r && d * (q - q') == d * q - d * q';
    SmallMultiple(d, q - q');
  }

  lemma {:induction false} ScaleUp(p: nat, x: int, y: int)
    requires x <= y
    ensures p * x <= p * y && x * p <= y * p
  {
    if x < y && p > 0 { SignOfProduct(p, y - x); }
    assert p * (y - x) == p * y - p * x;
    Commute(p, x);
    Commute(p, y);
  }

  lemma {:induction false} Commute(x: int, y: int)
    ensures x * y == y * x
  {
  }

  lemma {:induction false} QuotientAtLeast(x: int, c: int, q: int)
    requires c > 0 && x >= c * q
    ensures x / c >= q
  {
    var k := x / c;
    assert x == c * k + x % c;
    assert c * (k + 1 - q) == c * k + c - c * q;
    SignOfProduct(c, k + 1 - q);
  }

  /** A larger divisor gives no larger quotient. */
  lemma {:induction false} QuotientFalls(x: nat, c: int, e: int)
    requires 0 < c <= e
    ensures x / e <= x / c
  {
    var q := x / e;
    ScaleUp(q, c, e);
    assert x >= e * q;
    QuotientAtLeast(x, c, q);
  }

  lemma {:induction false} ExpandSquare(u: int, v: int, x: int, y: int)
    ensures (u * x + v * y) * (u * x + v * y) == (u * u) * (x * x) + (2 * (u * v)) * (x * y) + (v * v) * (y * y)
  {
  }

  lemma {:induction false} ExpandProduct(p: int, q: int, r: int, s: int, x: int, y: int)
    ensures (p * x + q * y) * (r * x + s * y) == (p * r) * (x * x) + (p * s + q * r) * (x * y) + (q * s) * (y * y)
  {
  }

  /** A 3x3 double sum read by rows and by columns. */
  lemma {:induction false} Exchange(a: int, b: int, c: int, a1: int, b1: int, c1: int, a2: int, b2: int, c2: int,
          a3: int, b3: int, c3: int, x: int, y: int, z: int)
    ensures (a * a1 + b * b1 + c * c1) * x + (a * a2 + b * b2 + c * c2) * y + (a * a3 + b * b3 + c * c3) * z
         == a * (a1 * x + a2 * y + a3 * z) + b * (b1 * x + b2 * y + b3 * z) + c * (c1 * x + c2 * y + c3 * z)
  {
  }
}
