/** Points of prime order q as a module over the scalars, with scalars given by integer
    representatives that every operation reduces modulo q. */
module Curves {

  datatype Curve<!P> = Curve(q: int, add: (P, P) -> P, neg: P -> P, zero: P, act: (int, P) -> P,
                             G: P, H: P, U: P)

  ghost predicate Associates<P>(C: Curve<P>, a: P, b: P, c: P) {
    C.add(C.add(a, b), c) == C.add(a, C.add(b, c))
  }

  ghost predicate Commutes<P>(C: Curve<P>, a: P, b: P) {
    C.add(a, b) == C.add(b, a)
  }

  ghost predicate HasUnits<P>(C: Curve<P>, a: P) {
    && C.add(a, C.zero) == a && C.add(a, C.neg(a)) == C.zero
    && C.act(1, a) == a && C.act(C.q, a) == C.zero
  }

  ghost predicate Distributes<P>(C: Curve<P>, k: int, a: P, b: P) {
    C.act(k, C.add(a, b)) == C.add(C.act(k, a), C.act(k, b))
  }

  ghost predicate ActsLinearly<P>(C: Curve<P>, j: int, k: int, a: P) {
    && C.act(j + k, a) == C.add(C.act(j, a), C.act(k, a))
    && C.act(j * k, a) == C.act(j, C.act(k, a))
  }

  /** U has order q: only multiples of q kill it. */
  ghost predicate FullOrder<P>(C: Curve<P>, k: int)
    requires C.q > 0
  {
    C.act(k, C.U) == C.zero ==> k % C.q == 0
  }

  /** A scalar acts through its residue. */
  ghost predicate ActsByResidue<P>(C: Curve<P>, k: int, a: P)
    requires C.q > 0
  {
    C.act(k, a) == C.act(k % C.q, a)
  }

  /** The laws that hold for all points of the curve, those with a low-order part included. */
  ghost predicate Scalars<P(!new)>(C: Curve<P>) {
    && C.q > 1
    && (forall a, b, c :: Associates(C, a, b, c))
    && (forall a, b :: Commutes(C, a, b))
    && (forall a :: HasUnits(C, a))
    && (forall k, a, b :: Distributes(C, k, a, b))
    && (forall k, a :: ActsByResidue(C, k, a))
  }

  /** The points of prime order. */
  ghost predicate PrimeOrder<P(!new)>(C: Curve<P>) {
    && Scalars(C) && C.q % 2 == 1
    && (forall j, k, a :: ActsLinearly(C, j, k, a))
    && (forall k :: FullOrder(C, k))
  }

  function Sub<P>(C: Curve<P>, a: P, b: P): P {
    C.add(a, C.neg(b))
  }

  /** MultByCofactor. */
  function ByCofactor<P>(C: Curve<P>, a: P): P {
    C.act(8, a)
  }

  /** A Pedersen commitment v*H + r*G. */
  function Commit<P>(C: Curve<P>, v: int, r: int): P {
    C.add(C.act(v, C.H), C.act(r, C.G))
  }

  // ---------------------------------------------------------------- laws of points

  lemma {:induction false} Regroup<P(!new)>(C: Curve<P>, a: P, b: P, c: P, d: P)
    requires Scalars(C)
    ensures C.add(C.add(a, b), C.add(c, d)) == C.add(C.add(a, c), C.add(b, d))
  {
    assert Associates(C, a, b, C.add(c, d)) && Associates(C, b, c, d);
    assert Commutes(C, b, c);
    assert Associates(C, c, b, d) && Associates(C, a, c, C.add(b, d));
  }

  lemma {:induction false} Cancels<P(!new)>(C: Curve<P>, a: P, b: P)
    requires Scalars(C)
    ensures Sub(C, C.add(a, b), a) == b && Sub(C, C.add(b, a), a) == b
  {
    assert Commutes(C, a, b) && Associates(C, b, a, C.neg(a)) && HasUnits(C, a) && HasUnits(C, b);
  }

  lemma {:induction false} NegUnique<P(!new)>(C: Curve<P>, a: P, b: P)
    requires Scalars(C) && C.add(a, b) == C.zero
    ensures b == C.neg(a)
  {
    assert HasUnits(C, a) && HasUnits(C, b) && HasUnits(C, C.neg(a));
    assert Associates(C, b, a, C.neg(a)) && Commutes(C, a, b) && Commutes(C, C.zero, C.neg(a));
  }

  lemma {:induction false} NegAdd<P(!new)>(C: Curve<P>, a: P, b: P)
    requires Scalars(C)
    ensures C.neg(C.add(a, b)) == C.add(C.neg(a), C.neg(b))
  {
    Regroup(C, a, b, C.neg(a), C.neg(b));
    assert HasUnits(C, a) && HasUnits(C, b) && HasUnits(C, C.zero);
    NegUnique(C, C.add(a, b), C.add(C.neg(a), C.neg(b)));
  }

  lemma {:induction false} ActZero<P(!new)>(C: Curve<P>, a: P)
    requires Scalars(C)
    ensures C.act(0, a) == C.zero && C.add(C.zero, a) == a && C.neg(C.zero) == C.zero
  {
    assert ActsByResidue(C, C.q, a) && HasUnits(C, a) && HasUnits(C, C.zero) && Commutes(C, a, C.zero);
    NegUnique(C, C.zero, C.zero);
  }

  lemma {:induction false} ActOnZero<P(!new)>(C: Curve<P>, k: int)
    requires Scalars(C)
    ensures C.act(k, C.zero) == C.zero
  {
    var z := C.act(k, C.zero);
    assert HasUnits(C, C.zero) && HasUnits(C, z) && Distributes(C, k, C.zero, C.zero);
    Cancels(C, z, z);
  }

  lemma {:induction false} ActNeg<P(!new)>(C: Curve<P>, k: int, a: P)
    requires PrimeOrder(C)
    ensures C.act(-k, a) == C.neg(C.act(k, a))
  {
    assert ActsLinearly(C, k, -k, a);
    ActZero(C, a);
    NegUnique(C, C.act(k, a), C.act(-k, a));
  }

  lemma {:induction false} ActSub<P(!new)>(C: Curve<P>, j: int, k: int, a: P)
    requires PrimeOrder(C)
    ensures C.act(j - k, a) == Sub(C, C.act(j, a), C.act(k, a))
  {
    assert ActsLinearly(C, j, -k, a);
    ActNeg(C, k, a);
  }

  // ------------------------------------------------------- scalars modulo the order

  /** Two integers stand for the same scalar. */
  predicate Same(q: int, a: int, b: int)
    requires q > 0
  {
    (a - b) % q == 0
  }

  lemma {:induction false} SameWitness(q: int, a: int, b: int, k: int)
    requires q > 0 && a == b + q * k
    ensures Same(q, a, b)
  {
    MultipleHasNoRemainder(q, k);
  }

  lemma {:induction false} MultipleHasNoRemainder(q: int, k: int)
    requires q > 0
    ensures (q * k) % q == 0
  {
    var r, d := (q * k) % q, k - (q * k) / q;
    assert r == q * d;
    assert d >= 1 ==> q * d >= q;
    assert d <= -1 ==> q * d <= -q;
  }

  lemma {:induction false} SameGives(q: int, a: int, b: int) returns (k: int)
    requires q > 0 && Same(q, a, b)
    ensures a == b + q * k
  {
    k := (a - b) / q;
  }

  lemma {:induction false} ReducedIsSame(q: int, a: int)
    requires q > 0
    ensures Same(q, a % q, a) && Same(q, a, a)
  {
    SameWitness(q, a % q, a, -(a / q));
  }

  lemma {:induction false} SameSum(q: int, a: int, b: int, c: int, d: int)
    requires q > 0 && Same(q, a, b) && Same(q, c, d)
    ensures Same(q, (a + c) % q, b + d) && Same(q, (a - c) % q, b - d)
  {
    var k := SameGives(q, a, b);
    var l := SameGives(q, c, d);
    Distribute(q, k, l);
    SameReduced(q, a + c, b + d, k + l);
    SameReduced(q, a - c, b - d, k - l);
  }

  lemma {:induction false} Distribute(q: int, k: int, l: int)
    ensures q * (k + l) == q * k + q * l && q * (k - l) == q * k - q * l
  {
  }

  lemma {:induction false} SameReduced(q: int, a: int, b: int, k: int)
    requires q > 0 && a == b + q * k
    ensures Same(q, a % q, b)
  {
    Distribute(q, k, a / q);
    SameWitness(q, a % q, b, k - a / q);
  }

  lemma {:induction false} SameProduct(q: int, a: int, b: int, c: int, d: int)
    requires q > 0 && Same(q, a, b) && Same(q, c, d)
    ensures Same(q, (a * c) % q, b * d)
  {
    var k := SameGives(q, a, b);
    var l := SameGives(q, c, d);
    ProductIdentity(q, b, d, k, l);
    SameReduced(q, a * c, b * d, b * l + d * k + q * (k * l));
  }

  lemma {:induction false} ProductIdentity(q: int, b: int, d: int, k: int, l: int)
    ensures (b + q * k) * (d + q * l) == b * d + q * (b * l + d * k + q * (k * l))
  {
  }

  lemma {:induction false} SameResidue(q: int, a: int, b: int)
    requires q > 0 && Same(q, a, b)
    ensures a % q == b % q
  {
    var d := a % q - b % q;
    var k := SameGives(q, a, b);
    var m := k - a / q + b / q;
    assert d == q * m by {
      Distribute(q, k, a / q);
      Distribute(q, k - a / q, b / q);
    }
    assert m >= 1 ==> q * m >= q;
    assert m <= -1 ==> q * m <= -q;
  }

  /** Representatives of one scalar act alike. */
  lemma {:induction false} SameActs<P(!new)>(C: Curve<P>, a: int, b: int, p: P)
    requires Scalars(C) && Same(C.q, a, b)
    ensures C.act(a, p) == C.act(b, p)
  {
    SameResidue(C.q, a, b);
    assert ActsByResidue(C, a, p) && ActsByResidue(C, b, p);
  }

  /** On points of prime order the residue law is no extra demand: it follows from linearity. */
  lemma {:induction false} ResiduesFollow<P>(C: Curve<P>, k: int, p: P)
    requires C.q > 0 && HasUnits(C, p) && HasUnits(C, C.act(k % C.q, p)) && C.act(k / C.q, C.zero) == C.zero
    requires ActsLinearly(C, k % C.q, k / C.q * C.q, p) && ActsLinearly(C, k / C.q, C.q, p)
    ensures ActsByResidue(C, k, p)
  {
    assert k == k % C.q + k / C.q * C.q;
  }
}
