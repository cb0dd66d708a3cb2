/** Anonymous spends over rings whose members carry a low-order part. The full curve group is the
    prime-order group times the integers modulo the cofactor; scalars act through their canonical
    residue, so on the low-order part their products no longer agree. */
module TwistedRings {
  import opened Curves
  import opened Bits
  import opened Selectors
  import opened AnonSpend

  /** The low-order group has the order of the cofactor. */
  type Twist = t: nat | t < 8

  /** A point: its part of prime order and its low-order part. */
  datatype Twisted<P> = Twisted(p: P, t: Twist)

  function Residue(q: int, k: int): int {
    if q > 0 then k % q else k
  }

  /** The full group; the base points have prime order. */
  function Full<P>(C: Curve<P>): Curve<Twisted<P>> {
    Curve(C.q,
          (a: Twisted<P>, b: Twisted<P>) => Twisted(C.add(a.p, b.p), (a.t + b.t) % 8),
          (a: Twisted<P>) => Twisted(C.neg(a.p), (-(a.t as int)) % 8),
          Twisted(C.zero, 0),
          (k: int, a: Twisted<P>) => Twisted(C.act(k, a.p), (Residue(C.q, k) * a.t) % 8),
          Twisted(C.G, 0), Twisted(C.H, 0), Twisted(C.U, 0))
  }

  lemma {:induction false} FullUnits<P(!new)>(C: Curve<P>, a: Twisted<P>)
    requires Scalars(C)
    ensures HasUnits(Full(C), a)
  {
    assert HasUnits(C, a.p);
    assert Residue(C.q, 1) == 1 && Residue(C.q, C.q) == 0;
    NegTwist(a.t);
  }

  lemma {:induction false} NegTwist(t: Twist)
    ensures (t + (-(t as int)) % 8) % 8 == 0 && (t + 0) % 8 == t && (1 * t) % 8 == t && (0 * t) % 8 == 0
  {
  }

  lemma {:induction false} AssocMod(a: Twist, b: Twist, c: Twist)
    ensures ((a + b) % 8 + c) % 8 == (a + (b + c) % 8) % 8 && (a + b) % 8 == (b + a) % 8
  {
    LeftMod(a + b, c);
    LeftMod(b + c, a);
    assert a + b + c == b + c + a;
  }

  lemma {:induction false} LeftMod(x: int, c: Twist)
    ensures (x % 8 + c) % 8 == (x + c) % 8 && (c + x % 8) % 8 == (x + c) % 8
  {
    AddMod(x, c);
    assert c % 8 == c;
  }

  lemma {:induction false} FullAdd<P(!new)>(C: Curve<P>, a: Twisted<P>, b: Twisted<P>, c: Twisted<P>)
    requires Scalars(C)
    ensures Associates(Full(C), a, b, c) && Commutes(Full(C), a, b)
  {
    assert Associates(C, a.p, b.p, c.p) && Commutes(C, a.p, b.p);
    AssocMod(a.t, b.t, c.t);
  }

  lemma {:induction false} FullDistributes<P(!new)>(C: Curve<P>, k: int, a: Twisted<P>, b: Twisted<P>)
    requires Scalars(C)
    ensures Distributes(Full(C), k, a, b)
  {
    var r := Residue(C.q, k);
    assert Distributes(C, k, a.p, b.p);
    MulMod(r, a.t + b.t);
    AddMod(r * a.t, r * b.t);
    Curves.Distribute(r, a.t, b.t);
  }

  lemma {:induction false} FullResidue<P(!new)>(C: Curve<P>, k: int, a: Twisted<P>)
    requires Scalars(C)
    ensures ActsByResidue(Full(C), k, a)
  {
    assert ActsByResidue(C, k, a.p);
    SameResidue(C.q, k);
  }

  lemma {:induction false} SameResidue(q: int, k: int)
    requires q > 0
    ensures Residue(q, k % q) == Residue(q, k)
  {
    var r := k % q;
    assert 0 <= r < q;
    assert r % q == r;
  }

  /** The laws that prover and verifier rely on hold for the full group too. */
  lemma {:induction false} FullScalars<P(!new)>(C: Curve<P>)
    requires Scalars(C)
    ensures Scalars(Full(C))
  {
    var F := Full(C);
    forall a, b, c ensures Associates(F, a, b, c) { FullAdd(C, a, b, c); }
    forall a, b ensures Commutes(F, a, b) { FullAdd(C, a, b, b); }
    forall a ensures HasUnits(F, a) { FullUnits(C, a); }
    forall k, a, b ensures Distributes(F, k, a, b) { FullDistributes(C, k, a, b); }
    forall k, a ensures ActsByResidue(F, k, a) { FullResidue(C, k, a); }
  }

  function Parts<P>(s: seq<Twisted<P>>): (r: seq<P>)
    ensures |r| == |s| && forall i :: 0 <= i < |s| ==> r[i] == s[i].p
  {
    seq(|s|, i requires 0 <= i < |s| => s[i].p)
  }

  function Twists<P>(s: seq<Twisted<P>>): (r: seq<int>)
    ensures |r| == |s| && forall i :: 0 <= i < |s| ==> r[i] == s[i].t
  {
    seq(|s|, i requires 0 <= i < |s| => s[i].t)
  }

  /** The canonical residues of ks against ts. */
  function Dot(q: int, ks: seq<int>, ts: seq<int>): int
    requires |ks| == |ts|
  {
    if ks == [] then 0 else
      var n := |ks| - 1;
      Dot(q, ks[..n], ts[..n]) + Residue(q, ks[n]) * ts[n]
  }

  // ------------------------------------------------------------------ arithmetic modulo eight

  lemma {:induction false} AddMod(a: int, b: int)
    ensures (a % 8 + b % 8) % 8 == (a + b) % 8
  {
  }

  lemma {:induction false} MulMod(k: int, t: int)
    ensures (k * (t % 8)) % 8 == (k * t) % 8
  {
    var d := t / 8;
    assert k * t == k * (t % 8) + 8 * (k * d) by { Spread(k, t % 8, d); }
    Shift(k * (t % 8), k * d);
  }

  lemma {:induction false} Spread(k: int, r: int, d: int)
    ensures k * (8 * d + r) == k * r + 8 * (k * d)
  {
  }

  lemma {:induction false} Shift(a: int, d: int)
    ensures (a + 8 * d) % 8 == a % 8
  {
  }

  lemma {:induction false} DotMod(q: int, ks: seq<int>, ts: seq<int>, us: seq<int>)
    requires |ks| == |ts| == |us| && forall i :: 0 <= i < |ts| ==> us[i] == ts[i] % 8
    ensures Dot(q, ks, us) % 8 == Dot(q, ks, ts) % 8
  {
    if ks != [] {
      var n := |ks| - 1;
      DotMod(q, ks[..n], ts[..n], us[..n]);
      var r := Residue(q, ks[n]);
      MulMod(r, ts[n]);
      AddMod(Dot(q, ks[..n], us[..n]), r * us[n]);
      AddMod(Dot(q, ks[..n], ts[..n]), r * ts[n]);
    }
  }

  // ------------------------------------------------------------------ part by part

  lemma {:induction false} AddScaled<P>(C: Curve<P>, p: P, d: int, k: int, r: Twisted<P>)
    ensures Full(C).add(Twisted(p, d % 8), Full(C).act(k, r))
         == Twisted(C.add(p, C.act(k, r.p)), (d + Residue(C.q, k) * r.t) % 8)
  {
    AddMod(d, Residue(C.q, k) * r.t);
  }

  /** A combination of points, in both parts. */
  lemma {:induction false} LinCombParts<P>(C: Curve<P>, ks: seq<int>, ps: seq<Twisted<P>>)
    requires |ks| == |ps|
    ensures LinComb(Full(C), ks, ps) == Twisted(LinComb(C, ks, Parts(ps)), Dot(C.q, ks, Twists(ps)) % 8)
  {
    if ks != [] {
      var n := |ks| - 1;
      LinCombParts(C, ks[..n], ps[..n]);
      assert Parts(ps)[..n] == Parts(ps[..n]) && Twists(ps)[..n] == Twists(ps[..n]);
      AddScaled(C, LinComb(C, ks[..n], Parts(ps[..n])), Dot(C.q, ks[..n], Twists(ps[..n])), ks[n], ps[n]);
    }
  }

  function Coefficient(l: nat, a: seq<int>, k: nat, i: nat): int
    requires k < |a|
  {
    Selector(i, l, a, |a|)[k]
  }

  /** The coefficients of one degree, over the first n members. */
  function Column(l: nat, a: seq<int>, k: nat, n: nat): (c: seq<int>)
    requires k < |a|
    ensures |c| == n && forall i :: 0 <= i < n ==> c[i] == Coefficient(l, a, k, i)
  {
    seq(n, i requires 0 <= i < n => Coefficient(l, a, k, i))
  }

  lemma {:induction false} SumsStep<P>(C: Curve<P>, ring: seq<P>, l: nat, a: seq<int>, n: nat, k: nat)
    requires 0 < n <= |ring| && k < |a|
    ensures Sums(C, ring, l, a, n)[k]
         == C.add(Sums(C, ring, l, a, n - 1)[k], C.act(Coefficient(l, a, k, n - 1), ring[n - 1]))
  {
  }

  lemma {:induction false} CombSnoc<P>(C: Curve<P>, ks: seq<int>, ps: seq<P>, k: int, p: P)
    requires |ks| == |ps|
    ensures LinComb(C, ks + [k], ps + [p]) == C.add(LinComb(C, ks, ps), C.act(k, p))
  {
    assert (ks + [k])[..|ks|] == ks && (ps + [p])[..|ps|] == ps;
  }

  lemma {:induction false} ColumnComb<P>(C: Curve<P>, ring: seq<P>, l: nat, a: seq<int>, n: nat, k: nat)
    requires 0 < n <= |ring| && k < |a|
    ensures LinComb(C, Column(l, a, k, n), ring[..n])
         == C.add(LinComb(C, Column(l, a, k, n - 1), ring[..n - 1]), C.act(Coefficient(l, a, k, n - 1), ring[n - 1]))
  {
    ColumnSnoc(l, a, k, n);
    PrefixSnoc(ring, n);
    CombSnoc(C, Column(l, a, k, n - 1), ring[..n - 1], Coefficient(l, a, k, n - 1), ring[n - 1]);
  }

  lemma {:induction false} ColumnSnoc(l: nat, a: seq<int>, k: nat, n: nat)
    requires 0 < n && k < |a|
    ensures Column(l, a, k, n) == Column(l, a, k, n - 1) + [Coefficient(l, a, k, n - 1)]
  {
  }

  lemma {:induction false} PrefixSnoc<X>(s: seq<X>, n: nat)
    requires 0 < n <= |s|
    ensures s[..n] == s[..n - 1] + [s[n - 1]]
  {
  }

  /** One degree of the prover's sums is a combination of the ring. */
  lemma {:induction false} SumsColumn<P>(C: Curve<P>, ring: seq<P>, l: nat, a: seq<int>, n: nat, k: nat)
    requires n <= |ring| && k < |a|
    ensures Sums(C, ring, l, a, n)[k] == LinComb(C, Column(l, a, k, n), ring[..n])
  {
    if n > 0 {
      SumsColumn(C, ring, l, a, n - 1, k);
      SumsStep(C, ring, l, a, n, k);
      ColumnComb(C, ring, l, a, n, k);
    }
  }

  /** It splits into its two parts. */
  lemma {:induction false} SumParts<P>(C: Curve<P>, ring: seq<Twisted<P>>, l: nat, a: seq<int>, k: nat)
    requires k < |a|
    ensures var n := |ring|;
      Sums(Full(C), ring, l, a, n)[k]
        == Twisted(Sums(C, Parts(ring), l, a, n)[k], Dot(C.q, Column(l, a, k, n), Twists(ring)) % 8)
  {
    var n := |ring|;
    SumsColumn(Full(C), ring, l, a, n, k);
    SumsColumn(C, Parts(ring), l, a, n, k);
    assert ring[..n] == ring && Parts(ring)[..n] == Parts(ring);
    LinCombParts(C, Column(l, a, k, n), ring);
  }

  // ------------------------------------------------------------------ the ring equation

  /** The same over the whole ring, per degree. */
  function TwistSums(q: int, ts: seq<int>, l: nat, a: seq<int>): (s: seq<int>)
    ensures |s| == |a| && forall k :: 0 <= k < |a| ==> s[k] == Dot(q, Column(l, a, k, |ts|), ts)
  {
    seq(|a|, k requires 0 <= k < |a| => Dot(q, Column(l, a, k, |ts|), ts))
  }

  /** The two sides of the ring equation agree in the low-order parts. They may drift apart because the
      products of scalars were reduced modulo the order, which is not a multiple of the cofactor. */
  predicate InStep(q: int, ts: seq<int>, l: nat, a: seq<int>, f: seq<int>, x: int) {
    Level(q, ts, TwistSums(q, ts, l, a), f, x)
  }

  /** The same for arbitrary low-order parts of the sums. */
  predicate Level(q: int, ts: seq<int>, ds: seq<int>, f: seq<int>, x: int) {
    Dot(q, Values(f, x, |ts|), ts) % 8 == Dot(q, Powers(x, |ds|), ds) % 8
  }

  lemma {:induction false} RingParts<P>(C: Curve<P>, ring: seq<Twisted<P>>, f: seq<int>, cd: seq<Twisted<P>>, x: int,
          zd: int)
    requires |cd| == |f|
    ensures RingEquation(Full(C), ring, f, cd, x, zd)
       <==> RingEquation(C, Parts(ring), f, Parts(cd), x, zd) && Level(C.q, Twists(ring), Twists(cd), f, x)
  {
    assert |Parts(ring)| == |ring| && |Twists(ring)| == |ring| && |Parts(cd)| == |f| && |Twists(cd)| == |f|;
    CombParts(C, Values(f, x, |ring|), ring, Powers(x, |f|), cd, zd);
  }

  lemma {:induction false} CombParts<P>(C: Curve<P>, vs: seq<int>, ring: seq<Twisted<P>>, ks: seq<int>,
          cd: seq<Twisted<P>>, zd: int)
    requires |vs| == |ring| && |ks| == |cd|
    ensures Sub(Full(C), LinComb(Full(C), vs, ring), LinComb(Full(C), ks, cd)) == Full(C).act(zd, Full(C).G)
       <==> && Sub(C, LinComb(C, vs, Parts(ring)), LinComb(C, ks, Parts(cd))) == C.act(zd, C.G)
            && Dot(C.q, vs, Twists(ring)) % 8 == Dot(C.q, ks, Twists(cd)) % 8
  {
    LinCombParts(C, vs, ring);
    LinCombParts(C, ks, cd);
    SidesParts(C, LinComb(Full(C), vs, ring), LinComb(Full(C), ks, cd), zd);
  }

  lemma {:induction false} SidesParts<P>(C: Curve<P>, u: Twisted<P>, v: Twisted<P>, zd: int)
    ensures Sub(Full(C), u, v) == Full(C).act(zd, Full(C).G)
       <==> Sub(C, u.p, v.p) == C.act(zd, C.G) && u.t == v.t
  {
    SameTwist(u.t, v.t);
    BasePart(C, zd);
  }

  lemma {:induction false} SameTwist(s: Twist, t: Twist)
    ensures (s + (-(t as int)) % 8) % 8 == 0 <==> s == t
  {
  }

  /** Multiples of the base points have no low-order part. */
  lemma {:induction false} BasePart<P>(C: Curve<P>, k: int)
    ensures Full(C).act(k, Full(C).G) == Twisted(C.act(k, C.G), 0)
    ensures Full(C).act(k, Full(C).H) == Twisted(C.act(k, C.H), 0)
    ensures Full(C).act(k, Full(C).U) == Twisted(C.act(k, C.U), 0)
  {
    assert (Residue(C.q, k) * 0) % 8 == 0;
  }

  lemma {:induction false} BlindOne<P>(C: Curve<P>, p: P, d: int, r: int)
    ensures Full(C).add(Twisted(p, d % 8), Full(C).act(r, Full(C).G)) == Twisted(C.add(p, C.act(r, C.G)), d % 8)
  {
    BasePart(C, r);
    AddMod(d, 0);
  }

  /** The blinded sums, in both parts. */
  lemma {:induction false} BlindedParts<P>(C: Curve<P>, ring: seq<Twisted<P>>, l: nat, a: seq<int>, rho: seq<int>,
          cd: seq<Twisted<P>>, k: nat)
    requires |rho| == |a| && k < |a|
    requires cd == Pointwise(Full(C), Sums(Full(C), ring, l, a, |ring|), Multiples(Full(C), rho, |a|, Full(C).G))
    ensures cd[k].t == TwistSums(C.q, Twists(ring), l, a)[k] % 8
    ensures cd[k].p
         == Pointwise(C, Sums(C, Parts(ring), l, a, |ring|), Multiples(C, rho, |a|, C.G))[k]
  {
    SumParts(C, ring, l, a, k);
    BlindOne(C, Sums(C, Parts(ring), l, a, |ring|)[k], TwistSums(C.q, Twists(ring), l, a)[k], rho[k]);
  }

  lemma {:induction false} HonestSums<P>(C: Curve<P>, ring: seq<Twisted<P>>, l: nat, a: seq<int>, rho: seq<int>,
          cd: seq<Twisted<P>>)
    requires |rho| == |a| == |cd|
    requires cd == Pointwise(Full(C), Sums(Full(C), ring, l, a, |ring|), Multiples(Full(C), rho, |a|, Full(C).G))
    ensures Parts(cd) == Pointwise(C, Sums(C, Parts(ring), l, a, |ring|), Multiples(C, rho, |a|, C.G))
    ensures forall k :: 0 <= k < |a| ==> Twists(cd)[k] == TwistSums(C.q, Twists(ring), l, a)[k] % 8
  {
    forall k | 0 <= k < |a|
      ensures Twists(cd)[k] == TwistSums(C.q, Twists(ring), l, a)[k] % 8
      ensures Parts(cd)[k] == Pointwise(C, Sums(C, Parts(ring), l, a, |ring|), Multiples(C, rho, |a|, C.G))[k]
    {
      BlindedParts(C, ring, l, a, rho, cd, k);
    }
  }

  lemma {:induction false} SameLevel(q: int, ts: seq<int>, ds: seq<int>, es: seq<int>, f: seq<int>, x: int)
    requires |ds| == |es| && forall k :: 0 <= k < |ds| ==> es[k] == ds[k] % 8
    ensures Level(q, ts, es, f, x) <==> Level(q, ts, ds, f, x)
  {
    DotMod(q, Powers(x, |ds|), ds, es);
  }

  /** With honest sums the full equation is the one over the prime-order parts and low-order
      parts in step. */
  lemma {:induction false} HonestRing<P>(C: Curve<P>, ring: seq<Twisted<P>>, l: nat, a: seq<int>, rho: seq<int>,
          f: seq<int>, cd: seq<Twisted<P>>, x: int, zd: int)
    requires |rho| == |a| == |f| == |cd|
    requires cd == Pointwise(Full(C), Sums(Full(C), ring, l, a, |ring|), Multiples(Full(C), rho, |a|, Full(C).G))
    ensures Parts(cd) == Pointwise(C, Sums(C, Parts(ring), l, a, |ring|), Multiples(C, rho, |a|, C.G))
    ensures RingEquation(Full(C), ring, f, cd, x, zd)
       <==> RingEquation(C, Parts(ring), f, Parts(cd), x, zd) && InStep(C.q, Twists(ring), l, a, f, x)
  {
    HonestSums(C, ring, l, a, rho, cd);
    RingParts(C, ring, f, cd, x, zd);
    SameLevel(C.q, Twists(ring), TwistSums(C.q, Twists(ring), l, a), Twists(cd), f, x);
  }

  // ------------------------------------------------------------------ acceptance

  function Project<P>(pf: Proof<Twisted<P>>): Proof<P> {
    Proof(pf.m, Parts(pf.cl), Parts(pf.ca), Parts(pf.cb), Parts(pf.cdO), Parts(pf.cdt), Parts(pf.cdV),
          pf.f, pf.za, pf.zb, pf.zdO, pf.zdV)
  }

  lemma {:induction false} CommitPart<P>(C: Curve<P>, v: int, r: int)
    ensures Commit(Full(C), v, r) == Twisted(Commit(C, v, r), 0)
  {
    BasePart(C, v);
    BasePart(C, r);
  }

  lemma {:induction false} AddUntwisted<P>(C: Curve<P>, k: int, p: P, r: P)
    ensures Full(C).add(Full(C).act(k, Twisted(p, 0)), Twisted(r, 0)) == Twisted(C.add(C.act(k, p), r), 0)
  {
    assert (Residue(C.q, k) * 0) % 8 == 0;
  }

  lemma {:induction false} HonestBits<P>(C: Curve<P>, l: nat, rnd: Randomness, pf: Proof<Twisted<P>>, x: int, j: nat)
    requires C.q > 0 && Shaped(pf, pf.m) && j < pf.m && HonestBit(Full(C), l, rnd, pf, x, j)
    ensures HonestBit(C, l, rnd, Project(pf), x, j)
    ensures pf.cl[j].t == 0 && pf.ca[j].t == 0 && pf.cb[j].t == 0
  {
    CommitPart(C, Bit(l, j), rnd.rl(j));
    CommitPart(C, rnd.a(j), rnd.ra(j));
    CommitPart(C, Bit(l, j) * rnd.a(j), rnd.rb(j));
  }

  lemma {:induction false} BitsParts<P>(C: Curve<P>, pf: Proof<Twisted<P>>, x: int, j: nat)
    requires Shaped(pf, pf.m) && j < pf.m && pf.cl[j].t == 0 && pf.ca[j].t == 0 && pf.cb[j].t == 0
    ensures BitEquations(Full(C), pf, x, j) <==> BitEquations(C, Project(pf), x, j)
  {
    BitPart(C, x, pf.cl[j], pf.ca[j], pf.f[j], pf.za[j]);
    BitPart(C, x - pf.f[j], pf.cl[j], pf.cb[j], 0, pf.zb[j]);
  }

  lemma {:induction false} BitPart<P>(C: Curve<P>, k: int, u: Twisted<P>, v: Twisted<P>, f: int, z: int)
    requires u.t == 0 && v.t == 0
    ensures Full(C).add(Full(C).act(k, u), v) == Commit(Full(C), f, z) <==> C.add(C.act(k, u.p), v.p) == Commit(C, f, z)
  {
    CommitPart(C, f, z);
    AddUntwisted(C, k, u.p, v.p);
  }

  lemma {:induction false} DotZeros(q: int, ks: seq<int>, ts: seq<int>)
    requires |ks| == |ts| && forall i :: 0 <= i < |ts| ==> ts[i] == 0
    ensures Dot(q, ks, ts) == 0
  {
    if ks != [] { DotZeros(q, ks[..|ks| - 1], ts[..|ks| - 1]); }
  }

  /** The tag and its commitments are multiples of a base point. */
  lemma {:induction false} TagParts<P>(C: Curve<P>, sk: int, rho: seq<int>, cdt: seq<Twisted<P>>)
    requires cdt == Multiples(Full(C), rho, |rho|, Full(C).U)
    ensures Full(C).act(sk, Full(C).U) == Twisted(C.act(sk, C.U), 0)
    ensures Parts(cdt) == Multiples(C, rho, |rho|, C.U) && forall k :: 0 <= k < |cdt| ==> Twists(cdt)[k] == 0
  {
    BasePart(C, sk);
    forall k | 0 <= k < |cdt| ensures cdt[k] == Twisted(C.act(rho[k], C.U), 0) {
      BasePart(C, rho[k]);
    }
  }

  lemma {:induction false} Untwisted<P>(C: Curve<P>, k: int, p: P)
    ensures Full(C).act(k, Twisted(p, 0)) == Twisted(C.act(k, p), 0)
  {
    assert (Residue(C.q, k) * 0) % 8 == 0;
  }

  lemma {:induction false} HonestTag<P>(C: Curve<P>, t: P, cdt: seq<Twisted<P>>, x: int, zd: int)
    requires forall k :: 0 <= k < |cdt| ==> Twists(cdt)[k] == 0
    ensures TagEquation(Full(C), Twisted(t, 0), cdt, x, zd) <==> TagEquation(C, t, Parts(cdt), x, zd)
  {
    var ks := Powers(x, |cdt|);
    LinCombParts(C, ks, cdt);
    DotZeros(C.q, ks, Twists(cdt));
    var sum := LinComb(C, ks, Parts(cdt));
    Untwisted(C, 8, t);
    Untwisted(C, 8, sum);
    Untwisted(C, Power(x, |cdt|), C.act(8, t));
    SubUntwisted(C, C.act(Power(x, |cdt|), C.act(8, t)), C.act(8, sum));
    BasePart(C, zd);
    Untwisted(C, 8, C.act(zd, C.U));
  }

  lemma {:induction false} SubUntwisted<P>(C: Curve<P>, p: P, r: P)
    ensures Sub(Full(C), Twisted(p, 0), Twisted(r, 0)) == Twisted(Sub(C, p, r), 0)
  {
  }

  /** The prime-order parts of an honest proof are an honest proof over the prime-order parts. */
  lemma {:induction false} HonestParts<P>(C: Curve<P>, own: seq<Twisted<P>>, val: seq<Twisted<P>>, l: nat, sk: int,
          d: int, rnd: Randomness, hash: Transcript<Twisted<P>> -> int, pf: Proof<Twisted<P>>, T: Twisted<P>, x: int)
    requires C.q > 0 && IsHonest(Full(C), own, val, l, sk, d, rnd, hash, pf, T) && x == hash(TranscriptOf(T, pf))
    ensures T == Twisted(C.act(sk, C.U), 0)
    ensures IsHonest(C, Parts(own), Parts(val), l, sk, d, rnd, _ => x, Project(pf), T.p)
  {
    var m := pf.m;
    var a, rhoO, rhoV := Draw(rnd.a, m), Draw(rnd.rhoO, m), Draw(rnd.rhoV, m);
    HonestSums(C, own, l, a, rhoO, pf.cdO);
    HonestSums(C, val, l, a, rhoV, pf.cdV);
    TagParts(C, sk, rhoO, pf.cdt);
    forall j | 0 <= j < m ensures HonestBit(C, l, rnd, Project(pf), x, j) {
      assert HonestBit(Full(C), l, rnd, pf, x, j);
      HonestBits(C, l, rnd, pf, x, j);
    }
  }

  /** An honest proof is accepted exactly when its prime-order parts are and both rings are in step. */
  lemma {:induction false} AcceptsParts<P>(C: Curve<P>, own: seq<Twisted<P>>, val: seq<Twisted<P>>, l: nat, sk: int,
          d: int, rnd: Randomness, hash: Transcript<Twisted<P>> -> int, pf: Proof<Twisted<P>>, T: Twisted<P>, x: int)
    requires C.q > 0 && IsHonest(Full(C), own, val, l, sk, d, rnd, hash, pf, T) && x == hash(TranscriptOf(T, pf))
    ensures Accepts(Full(C), own, val, T, pf, hash)
       <==> && Accepts(C, Parts(own), Parts(val), T.p, Project(pf), _ => x)
            && InStep(C.q, Twists(own), l, Draw(rnd.a, pf.m), pf.f, x)
            && InStep(C.q, Twists(val), l, Draw(rnd.a, pf.m), pf.f, x)
  {
    var m := pf.m;
    var a, rhoO, rhoV := Draw(rnd.a, m), Draw(rnd.rhoO, m), Draw(rnd.rhoV, m);
    HonestRing(C, own, l, a, rhoO, pf.f, pf.cdO, x, pf.zdO);
    HonestRing(C, val, l, a, rhoV, pf.f, pf.cdV, x, pf.zdV);
    TagParts(C, sk, rhoO, pf.cdt);
    HonestTag(C, T.p, pf.cdt, x, pf.zdO);
    Untwisted(C, 8, T.p);
    forall j | 0 <= j < m ensures BitEquations(Full(C), pf, x, j) <==> BitEquations(C, Project(pf), x, j) {
      assert HonestBit(Full(C), l, rnd, pf, x, j);
      HonestBits(C, l, rnd, pf, x, j);
      BitsParts(C, pf, x, j);
    }
  }

  /** Completeness over the full group: an honest proof is accepted exactly when the secret is a non-zero
      scalar and the low-order parts of both rings are in step. */
  lemma {:induction false} FullCompleteness<P(!new)>(C: Curve<P>, own: seq<Twisted<P>>, val: seq<Twisted<P>>, l: nat,
          sk: int, d: int, rnd: Randomness, hash: Transcript<Twisted<P>> -> int, pf: Proof<Twisted<P>>, T: Twisted<P>)
    requires PrimeOrder(C) && IsHonest(Full(C), own, val, l, sk, d, rnd, hash, pf, T)
    requires own[l].p == C.act(sk, C.G) && val[l].p == C.act(d, C.G)
    ensures var (x, a) := (hash(TranscriptOf(T, pf)), Draw(rnd.a, pf.m));
      Accepts(Full(C), own, val, T, pf, hash) <==>
        && sk % C.q != 0 && InStep(C.q, Twists(own), l, a, pf.f, x)
        && InStep(C.q, Twists(val), l, a, pf.f, x)
  {
    var x := hash(TranscriptOf(T, pf));
    HonestParts(C, own, val, l, sk, d, rnd, hash, pf, T, x);
    AcceptsParts(C, own, val, l, sk, d, rnd, hash, pf, T, x);
    Completeness(C, Parts(own), Parts(val), l, sk, d, rnd, _ => x, Project(pf), T.p);
  }

  // ------------------------------------------------------------------ a ring that drifts

  lemma {:induction false} DotSecond(q: int, ks: seq<int>, ts: seq<int>)
    requires |ks| == |ts| == 4 && ts[0] == 0 && ts[1] == 1 && ts[2] == 0 && ts[3] == 0
    ensures Dot(q, ks, ts) == Residue(q, ks[1])
  {
    assert ks[..3][..2] == ks[..2] && ks[..2][..1] == ks[..1] && ts[..3][..2] == ts[..2] && ts[..2][..1] == ts[..1];
    assert Dot(q, ks[..1], ts[..1]) == 0;
    assert Dot(q, ks[..2], ts[..2]) == Residue(q, ks[1]);
    assert Dot(q, ks[..3], ts[..3]) == Residue(q, ks[1]);
  }

  /** The selector of the second member when the first one is spent, with both masks one. */
  lemma {:induction false} SecondSelector(a: seq<int>, x: int)
    requires a == [1, 1]
    ensures SelectorValue(1, a, x, 2) == x - 1
    ensures Coefficient(0, a, 0, 1) == -1 && Coefficient(0, a, 1, 1) == 1
  {
    assert Bit(1, 0) == 1 && Bit(1, 1) == 0 && Bit(0, 0) == 0 && Bit(0, 1) == 0;
    assert SelectorValue(1, a, x, 0) == 1;
    assert SelectorValue(1, a, x, 1) == 1;
    assert Selector(1, 0, a, 0) == [1];
    assert Selector(1, 0, a, 1) == [1, 0];
    assert Selector(1, 0, a, 2) == [-1, 1, 0];
  }

  /** In a ring of four, a low-order part of the second member makes an honest spend
      of the first one fail for every non-zero challenge when both masks are one. */
  lemma {:induction false} SomeRingDrifts(q: int, x: int, ts: seq<int>, a: seq<int>)
    requires q > 1 && q % 2 == 1 && 1 <= x < q && ts == [0, 1, 0, 0] && a == [1, 1]
    ensures !InStep(q, ts, 0, a, a, x)
  {
    DriftSides(q, x, ts, a);
    TwoTerms(q, x, TwistSums(q, ts, 0, a));
    OddRest(q, x);
  }

  lemma {:induction false} OddRest(q: int, x: int)
    requires q % 2 == 1
    ensures (x - 1) % 8 != (q - 1 + x) % 8
  {
    assert (x - 1) % 2 != (q - 1 + x) % 2;
  }

  lemma {:induction false} DriftSides(q: int, x: int, ts: seq<int>, a: seq<int>)
    requires q > 1 && 1 <= x < q && ts == [0, 1, 0, 0] && a == [1, 1]
    ensures Dot(q, Values(a, x, |ts|), ts) == x - 1
    ensures TwistSums(q, ts, 0, a)[0] == q - 1 && TwistSums(q, ts, 0, a)[1] == 1
  {
    SecondSelector(a, x);
    DotSecond(q, Values(a, x, |ts|), ts);
    DotSecond(q, Column(0, a, 0, |ts|), ts);
    DotSecond(q, Column(0, a, 1, |ts|), ts);
    Residues(q, x);
  }

  lemma {:induction false} Residues(q: int, x: int)
    requires q > 1 && 1 <= x < q
    ensures Residue(q, x - 1) == x - 1 && Residue(q, -1) == q - 1 && Residue(q, 1) == 1 && Residue(q, x) == x
  {
    Curves.SameWitness(q, -1, q - 1, -1);
    assert -1 == q * -1 + (q - 1);
  }

  lemma {:induction false} TwoTerms(q: int, x: int, sums: seq<int>)
    requires q > 1 && 1 <= x < q && |sums| == 2 && sums[0] == q - 1 && sums[1] == 1
    ensures Dot(q, Powers(x, |sums|), sums) == q - 1 + x
  {
    var ks := Powers(x, |sums|);
    PowersTwo(x, ks);
    Residues(q, x);
    var k1, s1 := ks[..1], sums[..1];
    assert Dot(q, k1[..0], s1[..0]) == 0;
    assert Dot(q, k1, s1) == q - 1;
  }

  lemma {:induction false} PowersTwo(x: int, ks: seq<int>)
    requires ks == Powers(x, 2)
    ensures |ks| == 2 && ks[0] == 1 && ks[1] == x
  {
    var one := 1;
    assert Power(x, one - 1) == 1 && Power(x, one) == x;
  }
}
