/** A prime outside any finite list. */
module Primes {

  predicate Divides(d: nat, n: nat)
    requires d > 0
  {
    n % d == 0
  }

  predicate IsPrime(n: nat) {
    n >= 2 && forall d :: 2 <= d < n ==> !Divides(d, n)
  }

  /** The least divisor from d on, when there is none before. */
  function LeastFactor(n: nat, d: nat): (f: nat)
    requires 2 <= d <= n && forall e :: 2 <= e < d ==> !Divides(e, n)
    ensures 2 <= f <= n && Divides(f, n) && forall e :: 2 <= e < f ==> !Divides(e, n)
    decreases n - d
  {
    Multiple(n, 1);
    if Divides(d, n) then d else LeastFactor(n, d + 1)
  }

  lemma {:induction false} Multiple(d: nat, k: int)
    requires d > 0
    ensures (d * k) % d == 0
  {
    var r, e := (d * k) % d, k - (d * k) / d;
    assert r == d * e;
    assert e >= 1 ==> d * e >= d;
    assert e <= -1 ==> d * e <= -(d as int);
  }

  lemma {:induction false} FactorOfFactor(d: nat, f: nat, n: nat)
    requires d > 0 && f > 0 && Divides(d, f) && Divides(f, n)
    ensures Divides(d, n)
  {
    var k, j := f / d, n / f;
    assert n == d * (k * j) by { Reassociate(d, k, j); }
    Multiple(d, k * j);
  }

  lemma {:induction false} Reassociate(d: int, k: int, j: int)
    ensures (d * k) * j == d * (k * j)
  {
  }

  lemma {:induction false} LeastFactorIsPrime(n: nat)
    requires n >= 2
    ensures IsPrime(LeastFactor(n, 2))
  {
    var f := LeastFactor(n, 2);
    forall d | 2 <= d < f ensures !Divides(d, f) {
      if Divides(d, f) { FactorOfFactor(d, f, n); }
    }
  }

  /** The product of the list, without its zeros. */
  function Bulk(ps: seq<nat>): (n: nat)
    ensures n >= 1
  {
    if ps == [] then 1 else Grown(Bulk(ps[..|ps| - 1]), ps[|ps| - 1])
  }

  function Grown(n: nat, p: nat): (r: nat)
    requires n >= 1
    ensures r >= 1
  {
    if p == 0 then n else Larger(n, p); n * p
  }

  lemma {:induction false} Larger(n: nat, p: nat)
    requires n >= 1 && p >= 1
    ensures n * p >= 1
  {
  }

  lemma {:induction false} BulkDivisible(ps: seq<nat>, i: nat)
    requires i < |ps| && ps[i] > 0
    ensures Bulk(ps) % ps[i] == 0
  {
    var F, p := ps[..|ps| - 1], ps[|ps| - 1];
    if i == |ps| - 1 {
      assert Bulk(F) * p == p * Bulk(F);
      Multiple(p, Bulk(F));
    } else {
      BulkDivisible(F, i);
      if p > 0 {
        var k := Bulk(F) / ps[i];
        assert Bulk(F) * p == ps[i] * (k * p) by { Reassociate(ps[i], k, p); }
        Multiple(ps[i], k * p);
      }
    }
  }

  /** Euclid: a prime that is not in the list. */
  function NextPrime(ps: seq<nat>): (p: nat)
    ensures IsPrime(p) && p !in ps
  {
    var p := LeastFactor(Bulk(ps) + 1, 2);
    LeastFactorIsPrime(Bulk(ps) + 1);
    NotListed(ps, p);
    p
  }

  lemma {:induction false} NotListed(ps: seq<nat>, p: nat)
    requires p >= 2 && (Bulk(ps) + 1) % p == 0
    ensures p !in ps
  {
    forall i | 0 <= i < |ps| ensures ps[i] != p {
      if ps[i] == p {
        BulkDivisible(ps, i);
        Consecutive(Bulk(ps), p);
      }
    }
  }

  lemma {:induction false} Consecutive(n: nat, p: nat)
    requires p >= 2
    ensures n % p == 0 ==> (n + 1) % p == 1
  {
    if n % p == 0 {
      var k := n / p;
      assert n + 1 == p * k + 1;
      var r, e := (n + 1) % p, (n + 1) / p - k;
      assert p * e + r == 1;
      assert e >= 1 ==> p * e >= p;
      assert e <= -1 ==> p * e <= -(p as int);
    }
  }
}
