/** The joint anonymous-spend proof: one hidden index shared by an ownership ring and a value
    ring. The specification works on integer representatives of scalars; the methods reduce
    every scalar modulo the group order, as the code does. */
module AnonSpend {
  import opened Bits
  import opened Curves
  import opened Selectors

  // -------------------------------------------------------------- linear combinations

  function LinComb<P>(C: Curve<P>, ks: seq<int>, ps: seq<P>): P
    requires |ks| == |ps|
  {
    if ks == [] then C.zero
    else
      var n := |ks| - 1;
      C.add(LinComb(C, ks[..n], ps[..n]), C.act(ks[n], ps[n]))
  }

  function Pointwise<P>(C: Curve<P>, s: seq<P>, t: seq<P>): seq<P>
    requires |s| == |t|
  {
    seq(|s|, k requires 0 <= k < |s| => C.add(s[k], t[k]))
  }

  /** The points p[k]*r for the first m coefficients. */
  function Multiples<P>(C: Curve<P>, p: seq<int>, m: nat, r: P): seq<P>
    requires m <= |p|
  {
    seq(m, k requires 0 <= k < m => C.act(p[k], r))
  }

  function Powers(x: int, m: nat): seq<int> {
    seq(m, k requires 0 <= k < m => Power(x, k))
  }

  lemma {:induction false} LinCombPointwise<P(!new)>(C: Curve<P>, ks: seq<int>, s: seq<P>, t: seq<P>)
    requires Scalars(C) && |ks| == |s| == |t|
    ensures LinComb(C, ks, Pointwise(C, s, t)) == C.add(LinComb(C, ks, s), LinComb(C, ks, t))
  {
    if ks == [] {
      ActZero(C, C.zero);
    } else {
      var n := |ks| - 1;
      LinCombPointwise(C, ks[..n], s[..n], t[..n]);
      assert Pointwise(C, s, t)[..n] == Pointwise(C, s[..n], t[..n]);
      assert Distributes(C, ks[n], s[n], t[n]);
      Regroup(C, LinComb(C, ks[..n], s[..n]), LinComb(C, ks[..n], t[..n]), C.act(ks[n], s[n]), C.act(ks[n], t[n]));
    }
  }

  /** Sum over k of x^k * (p[k]*r) is p's lower part at x, times r. */
  lemma {:induction false} LinCombMultiples<P(!new)>(C: Curve<P>, p: seq<int>, m: nat, x: int, r: P)
    requires PrimeOrder(C) && m <= |p|
    ensures LinComb(C, Powers(x, m), Multiples(C, p, m, r)) == C.act(Eval(p[..m], x), r)
  {
    if m == 0 {
      ActZero(C, r);
    } else {
      var n := m - 1;
      LinCombMultiples(C, p, n, x, r);
      assert Powers(x, m)[..n] == Powers(x, n) && Multiples(C, p, m, r)[..n] == Multiples(C, p, n, r);
      assert p[..m] == p[..n] + [p[n]];
      EvalSnoc(p[..n], p[n], x);
      assert ActsLinearly(C, Power(x, n), p[n], r);
      assert Power(x, n) * p[n] == p[n] * Power(x, n);
      assert ActsLinearly(C, Eval(p[..n], x), p[n] * Power(x, n), r);
    }
  }

  lemma {:induction false} LinCombZeros<P(!new)>(C: Curve<P>, ks: seq<int>)
    requires Scalars(C)
    ensures LinComb(C, ks, seq(|ks|, _ => C.zero)) == C.zero
  {
    if ks != [] {
      var n := |ks| - 1;
      LinCombZeros(C, ks[..n]);
      assert seq(|ks|, _ => C.zero)[..n] == seq(n, _ => C.zero);
      ActOnZero(C, ks[n]);
      ActZero(C, C.zero);
    }
  }

  // ------------------------------------------------------------------ ring equation

  /** Sum over the first n ring members of the lower coefficients of p_i, one point per degree. */
  function Sums<P>(C: Curve<P>, ring: seq<P>, l: nat, a: seq<int>, n: nat): (s: seq<P>)
    requires n <= |ring|
    ensures |s| == |a|
  {
    if n == 0 then seq(|a|, _ => C.zero)
    else Pointwise(C, Sums(C, ring, l, a, n - 1), Multiples(C, Selector(n - 1, l, a, |a|), |a|, ring[n - 1]))
  }

  function Values(f: seq<int>, x: int, n: nat): seq<int> {
    seq(n, i requires 0 <= i < n => SelectorValue(i, f, x, |f|))
  }

  /** x^m times the hidden member, once it is among the first n. */
  function HiddenTerm<P>(C: Curve<P>, ring: seq<P>, l: nat, w: int, n: nat): P
    requires l < |ring|
  {
    if l < n then C.act(w, ring[l]) else C.zero
  }

  /** One ring member: the value of its selector splits into the lower degrees and the top. */
  lemma {:induction false} MemberTerm<P(!new)>(C: Curve<P>, r: P, i: nat, l: nat, a: seq<int>, x: int)
    requires PrimeOrder(C) && i < Exp2(|a|) && l < Exp2(|a|)
    ensures C.act(SelectorValue(i, Responses(l, a, x), x, |a|), r)
         == C.add(LinComb(C, Powers(x, |a|), Multiples(C, Selector(i, l, a, |a|), |a|, r)),
                  if i == l then C.act(Power(x, |a|), r) else C.zero)
  {
    var m := |a|;
    var p, top := Selector(i, l, a, m), if i == l then Power(x, m) else 0;
    MemberValue(i, l, a, x);
    LinCombMultiples(C, p, m, x, r);
    assert ActsLinearly(C, Eval(p[..m], x), top, r);
    ActZero(C, r);
  }

  lemma {:induction false} MemberValue(i: nat, l: nat, a: seq<int>, x: int)
    requires i < Exp2(|a|) && l < Exp2(|a|)
    ensures SelectorValue(i, Responses(l, a, x), x, |a|)
         == Eval(Selector(i, l, a, |a|)[..|a|], x) + if i == l then Power(x, |a|) else 0
  {
    var m := |a|;
    var p := Selector(i, l, a, m);
    SelectorEvaluates(i, l, a, x, m);
    SelectorPicks(i, l, a, m);
    assert p == p[..m] + [p[m]];
    EvalSnoc(p[..m], p[m], x);
    assert p[m] * Power(x, m) == if i == l then Power(x, m) else 0;
  }

  /** Exchanging the two sums: the ring evaluated at the selectors is the lower-degree sums
      evaluated at x, plus x^m times the hidden member. */
  lemma {:induction false} ExchangeSums<P(!new)>(C: Curve<P>, ring: seq<P>, l: nat, a: seq<int>, x: int, n: nat)
    requires PrimeOrder(C) && n <= |ring| == Exp2(|a|) && l < |ring|
    ensures LinComb(C, Values(Responses(l, a, x), x, n), ring[..n])
         == C.add(LinComb(C, Powers(x, |a|), Sums(C, ring, l, a, n)), HiddenTerm(C, ring, l, Power(x, |a|), n))
  {
    var m, f := |a|, Responses(l, a, x);
    var ks, w := Powers(x, m), Power(x, m);
    if n == 0 {
      LinCombZeros(C, ks);
      ActZero(C, C.zero);
    } else {
      var i := n - 1;
      ExchangeSums(C, ring, l, a, x, i);
      ValuesSnoc(C, f, x, ring, n);
      MemberTerm(C, ring[i], i, l, a, x);
      var low := Multiples(C, Selector(i, l, a, m), m, ring[i]);
      LinCombPointwise(C, ks, Sums(C, ring, l, a, i), low);
      var top, here := HiddenTerm(C, ring, l, w, i), if i == l then C.act(w, ring[i]) else C.zero;
      Regroup(C, LinComb(C, ks, Sums(C, ring, l, a, i)), top, LinComb(C, ks, low), here);
      HiddenSnoc(C, ring, l, w, n);
    }
  }

  lemma {:induction false} ValuesSnoc<P>(C: Curve<P>, f: seq<int>, x: int, ring: seq<P>, n: nat)
    requires 0 < n <= |ring|
    ensures LinComb(C, Values(f, x, n), ring[..n])
         == C.add(LinComb(C, Values(f, x, n - 1), ring[..n - 1]), C.act(SelectorValue(n - 1, f, x, |f|), ring[n - 1]))
  {
    assert Values(f, x, n)[..n - 1] == Values(f, x, n - 1) && ring[..n][..n - 1] == ring[..n - 1];
  }

  lemma {:induction false} HiddenSnoc<P(!new)>(C: Curve<P>, ring: seq<P>, l: nat, w: int, n: nat)
    requires PrimeOrder(C) && 0 < n <= |ring| && l < |ring|
    ensures C.add(HiddenTerm(C, ring, l, w, n - 1), if n - 1 == l then C.act(w, ring[n - 1]) else C.zero)
         == HiddenTerm(C, ring, l, w, n)
  {
    var top, here := HiddenTerm(C, ring, l, w, n - 1), if n - 1 == l then C.act(w, ring[n - 1]) else C.zero;
    assert HasUnits(C, top) && HasUnits(C, here) && Commutes(C, C.zero, here);
  }

  // ------------------------------------------------------------------ the verifier

  datatype Proof<P> = Proof(m: nat, cl: seq<P>, ca: seq<P>, cb: seq<P>, cdO: seq<P>, cdt: seq<P>, cdV: seq<P>,
                            f: seq<int>, za: seq<int>, zb: seq<int>, zdO: int, zdV: int)

  /** What the challenge hash is fed besides the fixed rings and context: the tag and every
      commitment. The hash itself is arbitrary. */
  datatype Transcript<P> = Transcript(tag: P, cl: seq<P>, ca: seq<P>, cb: seq<P>,
                                      cdO: seq<P>, cdt: seq<P>, cdV: seq<P>)

  function TranscriptOf<P>(T: P, pf: Proof<P>): Transcript<P> {
    Transcript(T, pf.cl, pf.ca, pf.cb, pf.cdO, pf.cdt, pf.cdV)
  }

  function TrailingZeros(n: nat): nat
    requires n > 0
  {
    if n % 2 == 1 then 0 else 1 + TrailingZeros(n / 2)
  }

  /** The n & (n-1) test. */
  predicate PowerOfTwo(n: nat) {
    n > 0 && n == Exp2(TrailingZeros(n))
  }

  predicate Shaped<P>(pf: Proof<P>, m: nat) {
    && pf.m == m == |pf.cl| == |pf.ca| == |pf.cb| == |pf.cdO| == |pf.cdt| == |pf.cdV|
    && m == |pf.f| == |pf.za| == |pf.zb|
  }

  predicate BitEquations<P(==)>(C: Curve<P>, pf: Proof<P>, x: int, j: nat)
    requires Shaped(pf, pf.m) && j < pf.m
  {
    && C.add(C.act(x, pf.cl[j]), pf.ca[j]) == Commit(C, pf.f[j], pf.za[j])
    && C.add(C.act(x - pf.f[j], pf.cl[j]), pf.cb[j]) == Commit(C, 0, pf.zb[j])
  }

  predicate RingEquation<P(==)>(C: Curve<P>, ring: seq<P>, f: seq<int>, cd: seq<P>, x: int, zd: int)
    requires |cd| == |f|
  {
    Sub(C, LinComb(C, Values(f, x, |ring|), ring), LinComb(C, Powers(x, |f|), cd)) == C.act(zd, C.G)
  }

  predicate TagEquation<P(==)>(C: Curve<P>, T: P, cdt: seq<P>, x: int, zd: int) {
    Sub(C, C.act(Power(x, |cdt|), ByCofactor(C, T)), ByCofactor(C, LinComb(C, Powers(x, |cdt|), cdt)))
      == ByCofactor(C, C.act(zd, C.U))
  }

  /** Everything VerifyAnonSpend checks. */
  predicate Accepts<P(==)>(C: Curve<P>, own: seq<P>, val: seq<P>, T: P, pf: Proof<P>, hash: Transcript<P> -> int) {
    && PowerOfTwo(|own|) && |val| == |own|
    && ByCofactor(C, T) != C.zero
    && Shaped(pf, TrailingZeros(|own|))
    && var x := hash(TranscriptOf(T, pf));
    && (forall j :: 0 <= j < pf.m ==> BitEquations(C, pf, x, j))
    && RingEquation(C, own, pf.f, pf.cdO, x, pf.zdO)
    && TagEquation(C, T, pf.cdt, x, pf.zdO)
    && RingEquation(C, val, pf.f, pf.cdV, x, pf.zdV)
  }

  // ------------------------------------------------------------ the honest prover

  datatype Randomness = Randomness(a: nat -> int, rl: nat -> int, ra: nat -> int, rb: nat -> int,
                                   rhoO: nat -> int, rhoV: nat -> int)

  function Draw(s: nat -> int, m: nat): seq<int> {
    seq(m, j requires 0 <= j < m => s(j))
  }

  /** z_d = s*x^m - sum of rho_k*x^k. */
  function FinalResponse(s: int, rho: seq<int>, x: int): int {
    s * Power(x, |rho|) - Eval(rho, x)
  }

  /** The commitments and responses the prover is meant to send, with scalars up to the order. */
  ghost predicate IsHonest<P>(C: Curve<P>, own: seq<P>, val: seq<P>, l: nat, sk: int, d: int, rnd: Randomness,
          hash: Transcript<P> -> int, pf: Proof<P>, T: P)
    requires C.q > 0
  {
    && Shaped(pf, pf.m) && |own| == |val| == Exp2(pf.m) && l < |own|
    && var (m, a, rhoO, rhoV) := (pf.m, Draw(rnd.a, pf.m), Draw(rnd.rhoO, pf.m), Draw(rnd.rhoV, pf.m));
    && T == C.act(sk, C.U)
    && pf.cdO == Pointwise(C, Sums(C, own, l, a, |own|), Multiples(C, rhoO, m, C.G))
    && pf.cdV == Pointwise(C, Sums(C, val, l, a, |val|), Multiples(C, rhoV, m, C.G))
    && pf.cdt == Multiples(C, rhoO, m, C.U)
    && var x := hash(TranscriptOf(T, pf));
    && (forall j :: 0 <= j < m ==> HonestBit(C, l, rnd, pf, x, j))
    && Same(C.q, pf.zdO, FinalResponse(sk, rhoO, x))
    && Same(C.q, pf.zdV, FinalResponse(d, rhoV, x))
  }

  ghost predicate HonestBit<P>(C: Curve<P>, l: nat, rnd: Randomness, pf: Proof<P>, x: int, j: nat)
    requires C.q > 0 && Shaped(pf, pf.m) && j < pf.m
  {
    && CommittedBit(C, l, rnd, pf.cl[j], pf.ca[j], pf.cb[j], j)
    && AnsweredBit(C.q, l, rnd, x, pf.f[j], pf.za[j], pf.zb[j], j)
  }

  ghost predicate CommittedBit<P>(C: Curve<P>, l: nat, rnd: Randomness, cl: P, ca: P, cb: P, j: nat) {
    && cl == Commit(C, Bit(l, j), rnd.rl(j))
    && ca == Commit(C, rnd.a(j), rnd.ra(j))
    && cb == Commit(C, Bit(l, j) * rnd.a(j), rnd.rb(j))
  }

  ghost predicate AnsweredBit(q: int, l: nat, rnd: Randomness, x: int, f: int, za: int, zb: int, j: nat)
    requires q > 0
  {
    var exact := Bit(l, j) * x + rnd.a(j);
    && Same(q, f, exact)
    && Same(q, za, rnd.rl(j) * x + rnd.ra(j))
    && Same(q, zb, rnd.rl(j) * (x - exact) + rnd.rb(j))
  }

  // ---------------------------------------------------------------- completeness

  /** Two scalar lists that agree modulo the order. */
  ghost predicate SameList(q: int, s: seq<int>, t: seq<int>)
    requires q > 0
  {
    |s| == |t| && forall i :: 0 <= i < |s| ==> Same(q, s[i], t[i])
  }

  lemma {:induction false} ScaledCommit<P(!new)>(C: Curve<P>, k: int, v: int, r: int, w: int, t: int)
    requires PrimeOrder(C)
    ensures C.add(C.act(k, Commit(C, v, r)), Commit(C, w, t)) == Commit(C, k * v + w, k * r + t)
  {
    assert Distributes(C, k, C.act(v, C.H), C.act(r, C.G));
    assert ActsLinearly(C, k, v, C.H) && ActsLinearly(C, k, r, C.G);
    Regroup(C, C.act(k * v, C.H), C.act(k * r, C.G), C.act(w, C.H), C.act(t, C.G));
    assert ActsLinearly(C, k * v, w, C.H) && ActsLinearly(C, k * r, t, C.G);
  }

  lemma {:induction false} SameCommit<P(!new)>(C: Curve<P>, v: int, v': int, r: int, r': int)
    requires PrimeOrder(C) && Same(C.q, v, v') && Same(C.q, r, r')
    ensures Commit(C, v, r) == Commit(C, v', r')
  {
    SameActs(C, v, v', C.H);
    SameActs(C, r, r', C.G);
  }

  /** A committed bit passes both checks; the second needs b*b = b. */
  lemma {:induction false} BitsVerify<P(!new)>(C: Curve<P>, l: nat, rnd: Randomness, pf: Proof<P>, x: int, j: nat)
    requires PrimeOrder(C) && Shaped(pf, pf.m) && j < pf.m && HonestBit(C, l, rnd, pf, x, j)
    ensures BitEquations(C, pf, x, j)
  {
    var b, a, rl := Bit(l, j), rnd.a(j), rnd.rl(j);
    var f := b * x + a;
    ScaledCommit(C, x, b, rl, a, rnd.ra(j));
    assert x * b + a == f && x * rl + rnd.ra(j) == rl * x + rnd.ra(j);
    SameCommit(C, pf.f[j], f, pf.za[j], rl * x + rnd.ra(j));
    ReducedIsSame(C.q, x);
    SameDifference(C.q, x, pf.f[j], f);
    SameActs(C, x - pf.f[j], x - f, pf.cl[j]);
    ScaledCommit(C, x - f, b, rl, b * a, rnd.rb(j));
    assert (x - f) * b + b * a == 0 by { BitIsIdempotent(b, x, a); }
    assert (x - f) * rl == rl * (x - f);
    ReducedIsSame(C.q, 0);
    SameCommit(C, 0, 0, pf.zb[j], rl * (x - f) + rnd.rb(j));
  }

  lemma {:induction false} BitIsIdempotent(b: int, x: int, a: int)
    requires b == 0 || b == 1
    ensures (x - (b * x + a)) * b + b * a == 0
  {
  }

  lemma {:induction false} SameDifference(q: int, x: int, f: int, f': int)
    requires q > 0 && Same(q, f, f')
    ensures Same(q, x - f, x - f')
  {
    var k := SameGives(q, f, f');
    SameWitness(q, x - f, x - f', -k);
  }

  lemma {:induction false} SameSelectorValue(q: int, i: nat, f: seq<int>, f': seq<int>, x: int, m: nat)
    requires q > 0 && m <= |f| && SameList(q, f, f')
    ensures Same(q, SelectorValue(i, f, x, m), SelectorValue(i, f', x, m))
  {
    if m == 0 {
      ReducedIsSame(q, 1);
    } else {
      SameSelectorValue(q, i, f, f', x, m - 1);
      SameDifference(q, x, f[m - 1], f'[m - 1]);
      SameTimes(q, SelectorValue(i, f, x, m - 1), SelectorValue(i, f', x, m - 1),
                if Bit(i, m - 1) == 1 then f[m - 1] else x - f[m - 1],
                if Bit(i, m - 1) == 1 then f'[m - 1] else x - f'[m - 1]);
    }
  }

  lemma {:induction false} SameTimes(q: int, a: int, b: int, c: int, d: int)
    requires q > 0 && Same(q, a, b) && Same(q, c, d)
    ensures Same(q, a * c, b * d)
  {
    var k := SameGives(q, a, b);
    var l := SameGives(q, c, d);
    ProductIdentity(q, b, d, k, l);
    SameWitness(q, a * c, b * d, b * l + d * k + q * (k * l));
  }

  lemma {:induction false} SameLinComb<P(!new)>(C: Curve<P>, ks: seq<int>, js: seq<int>, ps: seq<P>)
    requires Scalars(C) && SameList(C.q, ks, js) && |ks| == |ps|
    ensures LinComb(C, ks, ps) == LinComb(C, js, ps)
  {
    if ks != [] {
      var n := |ks| - 1;
      SameLinComb(C, ks[..n], js[..n], ps[..n]);
      SameActs(C, ks[n], js[n], ps[n]);
    }
  }

  /** The ring equation for a ring whose l-th member is s*G, with the honest commitments. */
  lemma {:induction false} RingVerifies<P(!new)>(C: Curve<P>, ring: seq<P>, l: nat, a: seq<int>, rho: seq<int>,
          s: int, x: int, f: seq<int>, cd: seq<P>, zd: int)
    requires PrimeOrder(C) && |ring| == Exp2(|a|) && l < |ring| && ring[l] == C.act(s, C.G)
    requires |a| == |rho| == |f| == |cd|
    requires cd == Pointwise(C, Sums(C, ring, l, a, |ring|), Multiples(C, rho, |a|, C.G))
    requires SameList(C.q, f, Responses(l, a, x))
    requires Same(C.q, zd, FinalResponse(s, rho, x))
    ensures RingEquation(C, ring, f, cd, x, zd)
  {
    SameResponses(C, ring, f, Responses(l, a, x), x);
    RingExact(C, ring, l, a, rho, s, x);
    SameActs(C, zd, FinalResponse(s, rho, x), C.G);
  }

  lemma {:induction false} SameResponses<P(!new)>(C: Curve<P>, ring: seq<P>, f: seq<int>, f': seq<int>, x: int)
    requires Scalars(C) && SameList(C.q, f, f')
    ensures LinComb(C, Values(f, x, |ring|), ring) == LinComb(C, Values(f', x, |ring|), ring)
  {
    forall i | 0 <= i < |ring| ensures Same(C.q, Values(f, x, |ring|)[i], Values(f', x, |ring|)[i]) {
      SameSelectorValue(C.q, i, f, f', x, |f|);
    }
    SameLinComb(C, Values(f, x, |ring|), Values(f', x, |ring|), ring);
  }

  /** The ring equation with the exact responses: only the hidden member's term survives. */
  lemma {:induction false} RingExact<P(!new)>(C: Curve<P>, ring: seq<P>, l: nat, a: seq<int>, rho: seq<int>, s: int,
          x: int)
    requires PrimeOrder(C) && |ring| == Exp2(|a|) && l < |ring| && ring[l] == C.act(s, C.G) && |rho| == |a|
    ensures Sub(C, LinComb(C, Values(Responses(l, a, x), x, |ring|), ring),
                   LinComb(C, Powers(x, |a|), Pointwise(C, Sums(C, ring, l, a, |ring|), Multiples(C, rho, |a|, C.G))))
         == C.act(FinalResponse(s, rho, x), C.G)
  {
    var m, n := |a|, |ring|;
    var w, r := Power(x, m), Eval(rho, x);
    var common := LinComb(C, Powers(x, m), Sums(C, ring, l, a, n));
    var whole := LinComb(C, Values(Responses(l, a, x), x, n), ring);
    var blinded := LinComb(C, Powers(x, m), Pointwise(C, Sums(C, ring, l, a, n), Multiples(C, rho, m, C.G)));
    WholeRing(C, ring, l, a, x);
    BlindedRing(C, Sums(C, ring, l, a, n), rho, x);
    Remainder(C, whole, blinded, common, C.act(w, ring[l]), C.act(r, C.G));
    HiddenPart(C, s, w, r);
  }

  lemma {:induction false} Remainder<P(!new)>(C: Curve<P>, whole: P, blinded: P, common: P, u: P, v: P)
    requires PrimeOrder(C) && whole == C.add(common, u) && blinded == C.add(common, v)
    ensures Sub(C, whole, blinded) == Sub(C, u, v)
  {
    DropCommon(C, common, u, v);
  }

  lemma {:induction false} WholeRing<P(!new)>(C: Curve<P>, ring: seq<P>, l: nat, a: seq<int>, x: int)
    requires PrimeOrder(C) && |ring| == Exp2(|a|) && l < |ring|
    ensures LinComb(C, Values(Responses(l, a, x), x, |ring|), ring)
         == C.add(LinComb(C, Powers(x, |a|), Sums(C, ring, l, a, |ring|)), C.act(Power(x, |a|), ring[l]))
  {
    ExchangeSums(C, ring, l, a, x, |ring|);
    assert ring[..|ring|] == ring;
  }

  lemma {:induction false} BlindedRing<P(!new)>(C: Curve<P>, sums: seq<P>, rho: seq<int>, x: int)
    requires PrimeOrder(C) && |sums| == |rho|
    ensures LinComb(C, Powers(x, |rho|), Pointwise(C, sums, Multiples(C, rho, |rho|, C.G)))
         == C.add(LinComb(C, Powers(x, |rho|), sums), C.act(Eval(rho, x), C.G))
  {
    LinCombPointwise(C, Powers(x, |rho|), sums, Multiples(C, rho, |rho|, C.G));
    LinCombMultiples(C, rho, |rho|, x, C.G);
    assert rho[..|rho|] == rho;
  }

  lemma {:induction false} HiddenPart<P(!new)>(C: Curve<P>, s: int, w: int, r: int)
    requires PrimeOrder(C)
    ensures Sub(C, C.act(w, C.act(s, C.G)), C.act(r, C.G)) == C.act(s * w - r, C.G)
  {
    assert ActsLinearly(C, w, s, C.G);
    assert w * s == s * w;
    ActSub(C, s * w, r, C.G);
  }

  lemma {:induction false} DropCommon<P(!new)>(C: Curve<P>, u: P, v: P, w: P)
    requires PrimeOrder(C)
    ensures Sub(C, C.add(u, v), C.add(u, w)) == Sub(C, v, w)
  {
    NegAdd(C, u, w);
    Regroup(C, u, v, C.neg(u), C.neg(w));
    assert HasUnits(C, u);
    ActZero(C, Sub(C, v, w));
  }

  lemma {:induction false} TagVerifies<P(!new)>(C: Curve<P>, sk: int, rho: seq<int>, cdt: seq<P>, x: int, zd: int)
    requires PrimeOrder(C) && cdt == Multiples(C, rho, |rho|, C.U)
    requires Same(C.q, zd, FinalResponse(sk, rho, x))
    ensures TagEquation(C, C.act(sk, C.U), cdt, x, zd)
  {
    var m := |rho|;
    var w, r := Power(x, m), Eval(rho, x);
    LinCombMultiples(C, rho, m, x, C.U);
    assert rho[..m] == rho;
    assert ActsLinearly(C, 8, sk, C.U) && ActsLinearly(C, w, 8 * sk, C.U) && ActsLinearly(C, 8, r, C.U);
    ActSub(C, w * (8 * sk), 8 * r, C.U);
    assert w * (8 * sk) - 8 * r == 8 * (sk * w - r) by { CofactorIdentity(w, sk, r); }
    assert ActsLinearly(C, 8, sk * w - r, C.U);
    SameActs(C, zd, FinalResponse(sk, rho, x), C.U);
  }

  lemma {:induction false} CofactorIdentity(w: int, s: int, r: int)
    ensures w * (8 * s) - 8 * r == 8 * (s * w - r)
  {
  }

  /** The tag survives cofactor clearing exactly when the secret is not zero as a scalar. */
  lemma {:induction false} TagNotLowOrder<P(!new)>(C: Curve<P>, sk: int)
    requires PrimeOrder(C)
    ensures ByCofactor(C, C.act(sk, C.U)) != C.zero <==> sk % C.q != 0
  {
    assert ActsLinearly(C, 8, sk, C.U) && FullOrder(C, 8 * sk);
    if sk % C.q == 0 {
      SameActs(C, sk, 0, C.U);
      ActZero(C, C.U);
      ActOnZero(C, 8);
    } else {
      OddOrderHalves(C.q, 4 * sk);
      OddOrderHalves(C.q, 2 * sk);
      OddOrderHalves(C.q, sk);
    }
  }

  lemma {:induction false} OddOrderHalves(q: int, x: int)
    requires q > 1 && q % 2 == 1
    ensures (2 * x) % q == 0 ==> x % q == 0
  {
    if (2 * x) % q == 0 {
      var k, h := (2 * x) / q, q / 2;
      var n := x - h * k;
      assert q * k == 2 * (h * k) + k;
      assert k == 2 * n && q * k == 2 * (q * n);
      MultipleHasNoRemainder(q, n);
    }
  }

  /** Completeness. For every ring of size 2^m, hidden index, openings of the two ring members,
      randomness and challenge hash: an honest proof is accepted exactly when the secret is a
      non-zero scalar. */
  lemma {:induction false} Completeness<P(!new)>(C: Curve<P>, own: seq<P>, val: seq<P>, l: nat, sk: int, d: int,
          rnd: Randomness, hash: Transcript<P> -> int, pf: Proof<P>, T: P)
    requires PrimeOrder(C) && IsHonest(C, own, val, l, sk, d, rnd, hash, pf, T)
    requires own[l] == C.act(sk, C.G) && val[l] == C.act(d, C.G)
    ensures Accepts(C, own, val, T, pf, hash) <==> sk % C.q != 0
  {
    var m, x := pf.m, hash(TranscriptOf(T, pf));
    var a, rhoO, rhoV := Draw(rnd.a, m), Draw(rnd.rhoO, m), Draw(rnd.rhoV, m);
    TrailingZerosOfPower(m);
    TagNotLowOrder(C, sk);
    HonestBitsVerify(C, l, rnd, pf, x);
    RingVerifies(C, own, l, a, rhoO, sk, x, pf.f, pf.cdO, pf.zdO);
    RingVerifies(C, val, l, a, rhoV, d, x, pf.f, pf.cdV, pf.zdV);
    TagVerifies(C, sk, rhoO, pf.cdt, x, pf.zdO);
  }

  lemma {:induction false} HonestBitsVerify<P(!new)>(C: Curve<P>, l: nat, rnd: Randomness, pf: Proof<P>, x: int)
    requires PrimeOrder(C) && Shaped(pf, pf.m) && forall j :: 0 <= j < pf.m ==> HonestBit(C, l, rnd, pf, x, j)
    ensures forall j :: 0 <= j < pf.m ==> BitEquations(C, pf, x, j)
    ensures SameList(C.q, pf.f, Responses(l, Draw(rnd.a, pf.m), x))
  {
    forall j | 0 <= j < pf.m
      ensures BitEquations(C, pf, x, j) && Same(C.q, pf.f[j], Responses(l, Draw(rnd.a, pf.m), x)[j])
    {
      assert HonestBit(C, l, rnd, pf, x, j);
      BitsVerify(C, l, rnd, pf, x, j);
    }
  }

  lemma {:induction false} TrailingZerosOfPower(m: nat)
    ensures Exp2(m) > 0 && TrailingZeros(Exp2(m)) == m
  {
    if m > 0 { TrailingZerosOfPower(m - 1); }
  }
}
