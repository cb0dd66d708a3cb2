/** Scalars modulo a prime: inverses, no zero divisors, and the weights that single out the top coefficient of
    a polynomial from its values at distinct places. */
module PrimeFields {
  import opened Primes
  import opened Curves
  import opened Selectors

  // ---------------------------------------------------------------------------- congruences

  lemma {:induction false} SamePlus(q: int, a: int, b: int, c: int, d: int)
    requires q > 0 && Same(q, a, b) && Same(q, c, d)
    ensures Same(q, a + c, b + d) && Same(q, a - c, b - d)
  {
    var k := SameGives(q, a, b);
    var l := SameGives(q, c, d);
    Distribute(q, k, l);
    SameWitness(q, a + c, b + d, k + l);
    SameWitness(q, a - c, b - d, k - l);
  }

  lemma {:induction false} SameBoth(q: int, a: int, b: int, c: int)
    requires q > 0 && Same(q, a, b) && Same(q, b, c)
    ensures Same(q, a, c) && Same(q, b, a)
  {
    var k := SameGives(q, a, b);
    var l := SameGives(q, b, c);
    Distribute(q, k, l);
    SameWitness(q, a, c, k + l);
    Negated(q, k);
    SameWitness(q, b, a, -k);
  }

  lemma {:induction false} Negated(q: int, k: int)
    ensures q * (-k) == -(q * k)
  {
  }

  lemma {:induction false} SameMul(q: int, c: int, a: int, b: int)
    requires q > 0 && Same(q, a, b)
    ensures Same(q, c * a, c * b) && Same(q, a * c, b * c)
  {
    var k := SameGives(q, a, b);
    Scaled(q, c, b, k);
    SameWitness(q, c * a, c * b, c * k);
  }

  lemma {:induction false} Scaled(q: int, c: int, b: int, k: int)
    ensures c * (b + q * k) == c * b + q * (c * k)
  {
  }

  lemma {:induction false} ZeroIs(q: int, a: int)
    requires q > 0
    ensures Same(q, a, 0) <==> a % q == 0
  {
  }

  // -------------------------------------------------------------------------------- inverses

  /** Bezout's identity for naturals. */
  lemma {:induction false} CommonDivisor(a: nat, b: nat) returns (g: nat, x: int, y: int)
    requires a > 0 || b > 0
    ensures g > 0 && a % g == 0 && b % g == 0 && g == a * x + b * y
    decreases b
  {
    if b == 0 {
      g, x, y := a, 1, 0;
      Multiple(a, 1);
    } else {
      var u, v;
      g, u, v := CommonDivisor(b, a % b);
      x, y := v, u - a / b * v;
      EuclidStep(a, b, u, v);
      DividesSum(g, b, a / b, a % b);
      Quotient(a, b);
    }
  }

  lemma {:induction false} Quotient(a: nat, b: nat)
    requires b > 0
    ensures a == b * (a / b) + a % b
  {
  }

  lemma {:induction false} EuclidStep(a: int, b: int, u: int, v: int)
    requires b > 0
    ensures b * u + (a % b) * v == a * v + b * (u - a / b * v)
  {
    var d := a / b;
    assert a % b == a - b * d;
    assert (a - b * d) * v == a * v - b * (d * v);
    assert b * (u - d * v) == b * u - b * (d * v);
  }

  lemma {:induction false} DividesSum(g: nat, b: nat, d: int, r: nat)
    requires g > 0 && b % g == 0 && r % g == 0
    ensures (b * d + r) % g == 0
  {
    var i, j := b / g, r / g;
    assert b * d + r == g * (i * d + j) by { Gather(g, i, d, j); }
    MultipleHasNoRemainder(g, i * d + j);
  }

  lemma {:induction false} Gather(g: int, i: int, d: int, j: int)
    ensures (g * i) * d + g * j == g * (i * d + j)
  {
  }

  /** What is not zero modulo a prime has an inverse. */
  lemma {:induction false} Inverse(q: nat, a: int) returns (b: int)
    requires IsPrime(q) && a % q != 0
    ensures Same(q, a * b, 1)
  {
    var r := a % q;
    var g, x, y := CommonDivisor(q, r);
    assert g <= r by { if g > r { SmallIsSelf(r, g); } }
    assert Divides(g, q) && g < q;
    assert g == 1;
    b := y;
    assert r * y == 1 + q * (-x);
    SameWitness(q, r * y, 1, -x);
    ReducedIsSame(q, a);
    SameMul(q, y, r, a);
    ReducedIsSame(q, a * y);
    SameBoth(q, r * y, a * y, a * y);
    SameBoth(q, a * y, r * y, 1);
  }

  lemma {:induction false} SmallIsSelf(r: nat, g: nat)
    requires 0 < r < g
    ensures r % g != 0
  {
  }

  /** A product is zero modulo a prime only if a factor is. */
  lemma {:induction false} NoZeroDivisors(q: nat, a: int, b: int)
    requires IsPrime(q) && (a * b) % q == 0 && a % q != 0
    ensures b % q == 0
  {
    var c := Inverse(q, a);
    ZeroIs(q, a * b);
    SameMul(q, c, a * b, 0);
    Rearranged(a, b, c);
    SameMul(q, b, a * c, 1);
    ReducedIsSame(q, b);
    SameBoth(q, (a * c) * b, b, b);
    SameBoth(q, b, (a * c) * b, 0);
    ZeroIs(q, b);
  }

  lemma {:induction false} Rearranged(a: int, b: int, c: int)
    ensures c * (a * b) == (a * c) * b && c * 0 == 0
  {
  }

  // ------------------------------------------------------------------------------- moments

  /** The sum of w[i] * xs[i]^k. */
  function Moment(w: seq<int>, xs: seq<int>, k: nat): int
    requires |w| == |xs|
  {
    if w == [] then 0 else
      var n := |w| - 1;
      Moment(w[..n], xs[..n], k) + w[n] * Power(xs[n], k)
  }

  predicate DistinctMod(q: int, xs: seq<int>)
    requires q > 0
  {
    forall i, j :: 0 <= i < j < |xs| ==> (xs[i] - xs[j]) % q != 0
  }

  /** w picks the top coefficient: the moments below the last are zero, the last is one. */
  ghost predicate Picks(q: int, w: seq<int>, xs: seq<int>)
    requires q > 0
  {
    |w| == |xs| && forall k :: 0 <= k < |xs| ==> Same(q, Moment(w, xs, k), if k == |xs| - 1 then 1 else 0)
  }

  /** Dividing the weights by the distances from y lowers the degree by one. */
  lemma {:induction false} MomentStep(q: int, w: seq<int>, v: seq<int>, xs: seq<int>, y: int, k: nat)
    requires q > 0 && |w| == |v| == |xs| && forall i :: 0 <= i < |w| ==> Same(q, w[i] * (xs[i] - y), v[i])
    ensures Same(q, Moment(w, xs, k + 1), Moment(v, xs, k) + y * Moment(w, xs, k))
  {
    if w == [] {
      ReducedIsSame(q, 0);
    } else {
      var n := |w| - 1;
      MomentStep(q, w[..n], v[..n], xs[..n], y, k);
      var p, x := Power(xs[n], k), xs[n];
      SameMul(q, p, w[n] * (x - y), v[n]);
      ReducedIsSame(q, y * (w[n] * p));
      SamePlus(q, (w[n] * (x - y)) * p, v[n] * p, y * (w[n] * p), y * (w[n] * p));
      PowerStep(w[n], x, y, p);
      SamePlus(q, Moment(w[..n], xs[..n], k + 1), Moment(v[..n], xs[..n], k) + y * Moment(w[..n], xs[..n], k),
               w[n] * (p * x), v[n] * p + y * (w[n] * p));
      Curves.Distribute(y, Moment(w[..n], xs[..n], k), w[n] * p);
    }
  }

  lemma {:induction false} PowerStep(w: int, x: int, y: int, p: int)
    ensures (w * (x - y)) * p + y * (w * p) == w * (p * x)
  {
  }

  /** The weights for one more place y, the old weights divided by the distances from it. */
  lemma {:induction false} Lowered(q: nat, v: seq<int>, xs: seq<int>, y: int) returns (w: seq<int>)
    requires IsPrime(q) && |v| == |xs| && forall i :: 0 <= i < |xs| ==> (xs[i] - y) % q != 0
    ensures |w| == |v| && forall i :: 0 <= i < |w| ==> Same(q, w[i] * (xs[i] - y), v[i])
  {
    if v == [] {
      w := [];
    } else {
      var n := |v| - 1;
      var front := Lowered(q, v[..n], xs[..n], y);
      var u := Inverse(q, xs[n] - y);
      SameMul(q, v[n], (xs[n] - y) * u, 1);
      Reordered(v[n], xs[n] - y, u);
      w := front + [v[n] * u];
    }
  }

  lemma {:induction false} Reordered(v: int, d: int, u: int)
    ensures v * (d * u) == (v * u) * d && v * 1 == v
  {
  }

  /** The moments with the new place, whose weight is minus the sum of the others. */
  lemma {:induction false} MomentWith(w: seq<int>, xs: seq<int>, y: int, k: nat)
    requires |w| == |xs|
    ensures var t := Moment(w, xs, 0);
      Moment(w + [-t], xs + [y], k) == Moment(w, xs, k) - t * Power(y, k)
  {
    var t := Moment(w, xs, 0);
    assert (w + [-t])[..|w|] == w && (xs + [y])[..|xs|] == xs;
    assert (-t) * Power(y, k) == -(t * Power(y, k));
  }

  lemma {:induction false} LoweredPicks(q: int, w: seq<int>, v: seq<int>, xs: seq<int>, y: int, k: nat)
    requires q > 0 && xs != [] && Picks(q, v, xs) && |w| == |xs| && k <= |xs|
    requires forall i :: 0 <= i < |w| ==> Same(q, w[i] * (xs[i] - y), v[i])
    ensures Same(q, Moment(w, xs, k) - Moment(w, xs, 0) * Power(y, k), if k == |xs| then 1 else 0)
  {
    var t := Moment(w, xs, 0);
    if k == 0 {
      assert Power(y, 0) == 1;
      ReducedIsSame(q, 0);
    } else {
      LoweredPicks(q, w, v, xs, y, k - 1);
      MomentStep(q, w, v, xs, y, k - 1);
      var old_, p := Moment(w, xs, k - 1), Power(y, k - 1);
      ReducedIsSame(q, t * Power(y, k));
      SamePlus(q, Moment(w, xs, k), Moment(v, xs, k - 1) + y * old_, t * Power(y, k), t * Power(y, k));
      StepIdentity(Moment(v, xs, k - 1), y, old_, t, p);
      SameMul(q, y, old_ - t * p, 0);
      SamePlus(q, Moment(v, xs, k - 1), if k - 1 == |xs| - 1 then 1 else 0, y * (old_ - t * p), 0);
      SameBoth(q, Moment(w, xs, k) - t * Power(y, k), Moment(v, xs, k - 1) + y * (old_ - t * p),
               if k == |xs| then 1 else 0);
    }
  }

  lemma {:induction false} StepIdentity(m: int, y: int, o: int, t: int, p: int)
    ensures m + y * o - t * (p * y) == m + y * (o - t * p) && y * 0 == 0
  {
  }

  /** Distinct places modulo a prime have weights that pick the top coefficient. */
  lemma {:induction false} WeightsExist(q: nat, xs: seq<int>) returns (w: seq<int>)
    requires IsPrime(q) && xs != [] && DistinctMod(q, xs)
    ensures Picks(q, w, xs)
  {
    var n := |xs| - 1;
    if n == 0 {
      w := [1];
      assert w[..0] == [] && xs[..0] == [];
      assert Moment(w[..0], xs[..0], 0) == 0;
      assert Moment(w, xs, 0) == 1 * Power(xs[0], 0) == 1;
      ReducedIsSame(q, 1);
    } else {
      var front, y := xs[..n], xs[n];
      assert xs == front + [y];
      var v := WeightsExist(q, front);
      var u := Lowered(q, v, front, y);
      w := u + [-Moment(u, front, 0)];
      forall k | 0 <= k < |xs| ensures Same(q, Moment(w, xs, k), if k == n then 1 else 0) {
        MomentWith(u, front, y, k);
        LoweredPicks(q, u, v, front, y, k);
      }
    }
  }
}
