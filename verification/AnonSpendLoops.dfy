/** The loops of the anonymous-spend prover and verifier, every scalar reduced modulo the group
    order, proved against the specification in AnonSpend. */
module AnonSpendLoops {
  import opened Wrappers
  import opened Bits
  import opened Curves
  import opened Selectors
  import opened AnonSpend

  /** polyMulLinear: accumulate coef*c0 at i and coef*c1 at i + 1. */
  method PolyMulLinear(q: int, p: seq<int>, c0: int, c1: int, ghost pe: seq<int>, ghost e0: int, ghost e1: int)
    returns (out: seq<int>)
    requires q > 0 && SameList(q, p, pe) && Same(q, c0, e0) && Same(q, c1, e1)
    ensures SameList(q, out, MulLinear(pe, e0, e1))
  {
    out := seq(|p| + 1, _ => 0);
    ghost var target := MulLinear(pe, e0, e1);
    ReducedIsSame(q, 0);
    for i := 0 to |p|
      invariant |out| == |p| + 1
      invariant forall k :: 0 <= k < i ==> Same(q, out[k], target[k])
      invariant Same(q, out[i], if i > 0 then pe[i - 1] * e1 else 0)
      invariant forall k :: i < k <= |p| ==> out[k] == 0
    {
      SameProduct(q, p[i], pe[i], c0, e0);
      SameSum(q, out[i], if i > 0 then pe[i - 1] * e1 else 0, (p[i] * c0) % q, pe[i] * e0);
      SameProduct(q, p[i], pe[i], c1, e1);
      SameSum(q, 0, 0, (p[i] * c1) % q, pe[i] * e1);
      assert target[i] == pe[i] * e0 + (if i > 0 then pe[i - 1] * e1 else 0);
      out := out[i := (out[i] + (p[i] * c0) % q) % q];
      out := out[i + 1 := (out[i + 1] + (p[i] * c1) % q) % q];
    }
    assert target[|p|] == if |p| > 0 then pe[|p| - 1] * e1 else 0;
  }

  /** The selector polynomial of index i, one factor per bit. */
  method SelectorPoly(q: int, i: nat, lj: seq<int>, aj: seq<int>, ghost l: nat) returns (poly: seq<int>)
    requires q > 1 && |lj| == |aj| && forall j :: 0 <= j < |lj| ==> lj[j] == Bit(l, j)
    ensures SameList(q, poly, Selector(i, l, aj, |aj|))
  {
    poly := [1];
    ReducedIsSame(q, 1);
    for j := 0 to |aj|
      invariant SameList(q, poly, Selector(i, l, aj, j))
    {
      ReducedIsSame(q, aj[j]);
      ReducedIsSame(q, -aj[j]);
      ReducedIsSame(q, lj[j]);
      ReducedIsSame(q, 1 - lj[j]);
      if Bit(i, j) == 1 {
        poly := PolyMulLinear(q, poly, aj[j], lj[j], Selector(i, l, aj, j), Constant(i, aj, j), Slope(i, l, j));
      } else {
        poly := PolyMulLinear(q, poly, (-aj[j]) % q, (1 - lj[j]) % q,
                              Selector(i, l, aj, j), Constant(i, aj, j), Slope(i, l, j));
      }
    }
  }

  /** polySumsOverRing: sum[k] accumulates p_{i,k}*ring[i] over the ring. */
  method PolySumsOverRing<P(!new)>(C: Curve<P>, ring: seq<P>, lj: seq<int>, aj: seq<int>, ghost l: nat)
    returns (sum: seq<P>)
    requires Scalars(C) && |lj| == |aj| && forall j :: 0 <= j < |lj| ==> lj[j] == Bit(l, j)
    ensures sum == Sums(C, ring, l, aj, |ring|)
  {
    var m := |aj|;
    sum := seq(m, _ => C.zero);
    for i := 0 to |ring|
      invariant sum == Sums(C, ring, l, aj, i)
    {
      var poly := SelectorPoly(C.q, i, lj, aj, l);
      sum := AddMultiples(C, sum, poly, ring[i], Selector(i, l, aj, m));
    }
  }

  method AddMultiples<P(!new)>(C: Curve<P>, s: seq<P>, poly: seq<int>, r: P, ghost exact: seq<int>)
    returns (sum: seq<P>)
    requires Scalars(C) && SameList(C.q, poly, exact) && |s| <= |poly|
    ensures sum == Pointwise(C, s, Multiples(C, exact, |s|, r))
  {
    sum := s;
    ghost var target := Pointwise(C, s, Multiples(C, exact, |s|, r));
    for k := 0 to |s|
      invariant |sum| == |s|
      invariant forall j :: 0 <= j < k ==> sum[j] == target[j]
      invariant forall j :: k <= j < |s| ==> sum[j] == s[j]
    {
      SameActs(C, poly[k], exact[k], r);
      sum := sum[k := C.add(sum[k], C.act(poly[k], r))];
    }
  }

  /** The powers 1, x, ..., x^m. */
  method PowersOf(q: int, x: int, m: nat) returns (xpow: seq<int>)
    requires q > 0
    ensures SameList(q, xpow, Powers(x, m + 1))
  {
    xpow := [1];
    ReducedIsSame(q, 1);
    ReducedIsSame(q, x);
    for k := 1 to m + 1
      invariant SameList(q, xpow, Powers(x, k))
    {
      SameProduct(q, xpow[k - 1], Power(x, k - 1), x, x);
      xpow := xpow + [(xpow[k - 1] * x) % q];
    }
  }

  /** z_d: s*x^m with each rho_k*x^k taken off in turn. */
  method FinalResponseOf(q: int, s: int, rho: seq<int>, x: int) returns (zd: int)
    requires q > 0
    ensures Same(q, zd, FinalResponse(s, rho, x))
  {
    var m := |rho|;
    var xpow := PowersOf(q, x, m);
    ReducedIsSame(q, s);
    SameProduct(q, s, s, xpow[m], Power(x, m));
    zd := (s * xpow[m]) % q;
    for k := 0 to m
      invariant Same(q, zd, s * Power(x, m) - Eval(rho[..k], x))
    {
      ReducedIsSame(q, rho[k]);
      SameProduct(q, rho[k], rho[k], xpow[k], Power(x, k));
      SameSum(q, zd, s * Power(x, m) - Eval(rho[..k], x), (rho[k] * xpow[k]) % q, rho[k] * Power(x, k));
      assert rho[..k + 1] == rho[..k] + [rho[k]];
      EvalSnoc(rho[..k], rho[k], x);
      zd := (zd - (rho[k] * xpow[k]) % q) % q;
    }
    assert rho[..m] == rho;
  }

  // ------------------------------------------------------------------- the prover

  method CommitBits<P(!new)>(C: Curve<P>, l: nat, rnd: Randomness, m: nat)
    returns (lj: seq<int>, aj: seq<int>, cl: seq<P>, ca: seq<P>, cb: seq<P>)
    requires Scalars(C)
    ensures |lj| == m && aj == Draw(rnd.a, m) && |cl| == |ca| == |cb| == m
    ensures forall j :: 0 <= j < m ==> lj[j] == Bit(l, j)
    ensures forall j :: 0 <= j < m ==> CommittedBit(C, l, rnd, cl[j], ca[j], cb[j], j)
  {
    lj, aj, cl, ca, cb := [], [], [], [], [];
    for j := 0 to m
      invariant |lj| == |cl| == |ca| == |cb| == j && aj == Draw(rnd.a, j)
      invariant forall i :: 0 <= i < j ==> lj[i] == Bit(l, i)
      invariant forall i :: 0 <= i < j ==> CommittedBit(C, l, rnd, cl[i], ca[i], cb[i], i)
    {
      var b := Bit(l, j);
      ReducedIsSame(C.q, b * rnd.a(j));
      SameActs(C, (b * rnd.a(j)) % C.q, b * rnd.a(j), C.H);
      lj, aj := lj + [b], aj + [rnd.a(j)];
      cl := cl + [Commit(C, b, rnd.rl(j))];
      ca := ca + [Commit(C, rnd.a(j), rnd.ra(j))];
      cb := cb + [Commit(C, (b * rnd.a(j)) % C.q, rnd.rb(j))];
    }
  }

  /** cd[k] = sums[k] + rho_k*G. */
  method BlindSums<P>(C: Curve<P>, sums: seq<P>, rho: seq<int>, base: P) returns (cd: seq<P>)
    requires |sums| == |rho|
    ensures cd == Pointwise(C, sums, Multiples(C, rho, |rho|, base))
  {
    cd := [];
    for k := 0 to |rho|
      invariant |cd| == k
      invariant forall j :: 0 <= j < k ==> cd[j] == C.add(sums[j], C.act(rho[j], base))
    {
      cd := cd + [C.add(sums[k], C.act(rho[k], base))];
    }
  }

  /** The responses f_j, za_j, zb_j. */
  method Respond(q: int, l: nat, rnd: Randomness, x: int, m: nat) returns (f: seq<int>, za: seq<int>, zb: seq<int>)
    requires q > 0
    ensures |f| == |za| == |zb| == m
    ensures forall j :: 0 <= j < m ==> AnsweredBit(q, l, rnd, x, f[j], za[j], zb[j], j)
  {
    f, za, zb := [], [], [];
    for j := 0 to m
      invariant |f| == |za| == |zb| == j
      invariant forall i :: 0 <= i < j ==> AnsweredBit(q, l, rnd, x, f[i], za[i], zb[i], i)
    {
      var fj := MulAdd(q, Bit(l, j), x, rnd.a(j));
      var zaj := MulAdd(q, rnd.rl(j), x, rnd.ra(j));
      var zbj := BlindedBit(q, rnd.rl(j), x, fj, rnd.rb(j), Bit(l, j) * x + rnd.a(j));
      f, za, zb := f + [fj], za + [zaj], zb + [zbj];
    }
  }

  method MulAdd(q: int, a: int, x: int, b: int) returns (r: int)
    requires q > 0
    ensures Same(q, r, a * x + b)
  {
    ReducedIsSame(q, a);
    ReducedIsSame(q, x);
    ReducedIsSame(q, b);
    SameProduct(q, a, a, x, x);
    r := ((a * x) % q + b) % q;
    SameSum(q, (a * x) % q, a * x, b, b);
  }

  method BlindedBit(q: int, r: int, x: int, f: int, b: int, ghost exact: int) returns (z: int)
    requires q > 0 && Same(q, f, exact)
    ensures Same(q, z, r * (x - exact) + b)
  {
    ReducedIsSame(q, r);
    ReducedIsSame(q, x);
    ReducedIsSame(q, b);
    SameSum(q, x, x, f, exact);
    SameProduct(q, r, r, (x - f) % q, x - exact);
    z := ((r * ((x - f) % q)) % q + b) % q;
    SameSum(q, (r * ((x - f) % q)) % q, r * (x - exact), b, b);
  }

  /** ProveAnonSpend fails exactly on a ring that is not a power of two, rings of different
      lengths or an index outside the ring; otherwise it emits an honest proof and the tag. */
  method ProveAnonSpend<P(!new)>(C: Curve<P>, own: seq<P>, val: seq<P>, l: int, sk: int, d: int, rnd: Randomness,
          hash: Transcript<P> -> int)
    returns (r: Option<(Proof<P>, P)>)
    requires Scalars(C)
    ensures r.Some? <==> PowerOfTwo(|own|) && |val| == |own| && 0 <= l < |own|
    ensures r.Some? ==> IsHonest(C, own, val, l, sk, d, rnd, hash, r.value.0, r.value.1)
  {
    if !PowerOfTwo(|own|) || |val| != |own| || l < 0 || l >= |own| {
      return None;
    }
    var m := TrailingZeros(|own|);
    var T := C.act(sk, C.U);
    var lj, aj, cl, ca, cb := CommitBits(C, l, rnd, m);
    var sumsO := PolySumsOverRing(C, own, lj, aj, l);
    var sumsV := PolySumsOverRing(C, val, lj, aj, l);
    var rhoO, rhoV := Draw(rnd.rhoO, m), Draw(rnd.rhoV, m);
    var cdO := BlindSums(C, sumsO, rhoO, C.G);
    var cdt := Multiples(C, rhoO, m, C.U);
    var cdV := BlindSums(C, sumsV, rhoV, C.G);
    var x := hash(Transcript(T, cl, ca, cb, cdO, cdt, cdV));
    var f, za, zb := Respond(C.q, l, rnd, x, m);
    var zdO := FinalResponseOf(C.q, sk, rhoO, x);
    var zdV := FinalResponseOf(C.q, d, rhoV, x);
    var pf := Proof(m, cl, ca, cb, cdO, cdt, cdV, f, za, zb, zdO, zdV);
    forall j | 0 <= j < m ensures HonestBit(C, l, rnd, pf, x, j) {
      assert CommittedBit(C, l, rnd, cl[j], ca[j], cb[j], j) && AnsweredBit(C.q, l, rnd, x, f[j], za[j], zb[j], j);
    }
    return Some((pf, T));
  }

  // ------------------------------------------------------------------ the verifier

  method CheckBits<P(!new,==)>(C: Curve<P>, pf: Proof<P>, x: int) returns (ok: bool)
    requires Scalars(C) && Shaped(pf, pf.m)
    ensures ok <==> forall j :: 0 <= j < pf.m ==> BitEquations(C, pf, x, j)
  {
    for j := 0 to pf.m
      invariant forall i :: 0 <= i < j ==> BitEquations(C, pf, x, i)
    {
      ReducedIsSame(C.q, x - pf.f[j]);
      SameActs(C, (x - pf.f[j]) % C.q, x - pf.f[j], pf.cl[j]);
      var lhs := C.add(C.act(x, pf.cl[j]), pf.ca[j]);
      var lhs2 := C.add(C.act((x - pf.f[j]) % C.q, pf.cl[j]), pf.cb[j]);
      if lhs != Commit(C, pf.f[j], pf.za[j]) || lhs2 != Commit(C, 0, pf.zb[j]) {
        assert !BitEquations(C, pf, x, j);
        return false;
      }
    }
    return true;
  }

  /** p_i(x) for every ring index: the product of f_j or x - f_j over the bits of i. */
  method SelectorValues(q: int, f: seq<int>, x: int, n: nat) returns (pi: seq<int>)
    requires q > 0
    ensures SameList(q, pi, Values(f, x, n))
  {
    pi := [];
    for i := 0 to n
      invariant SameList(q, pi, Values(f, x, i))
    {
      var p := 1;
      ReducedIsSame(q, 1);
      ReducedIsSame(q, x);
      for j := 0 to |f|
        invariant Same(q, p, SelectorValue(i, f, x, j))
      {
        ReducedIsSame(q, f[j]);
        ReducedIsSame(q, x - f[j]);
        if Bit(i, j) == 1 {
          SameProduct(q, p, SelectorValue(i, f, x, j), f[j], f[j]);
          p := (p * f[j]) % q;
        } else {
          SameProduct(q, p, SelectorValue(i, f, x, j), (x - f[j]) % q, x - f[j]);
          p := (p * ((x - f[j]) % q)) % q;
        }
      }
      pi := pi + [p];
    }
  }

  /** acc starts at the identity and gains each pi[i]*ring[i]. */
  method Combine<P(!new)>(C: Curve<P>, ks: seq<int>, ps: seq<P>, ghost exact: seq<int>) returns (acc: P)
    requires Scalars(C) && |ks| == |ps| && SameList(C.q, ks, exact)
    ensures acc == LinComb(C, exact, ps)
  {
    acc := C.zero;
    for i := 0 to |ks|
      invariant acc == LinComb(C, ks[..i], ps[..i])
    {
      assert ks[..i + 1][..i] == ks[..i] && ps[..i + 1][..i] == ps[..i];
      acc := C.add(acc, C.act(ks[i], ps[i]));
    }
    assert ks[..|ks|] == ks && ps[..|ps|] == ps;
    SameLinComb(C, ks, exact, ps);
  }

  /** acc with each xpow[k]*cd[k], times a cofactor c, taken off. */
  method TakeOff<P(!new)>(C: Curve<P>, start: P, c: int, xpow: seq<int>, cd: seq<P>, x: int) returns (acc: P)
    requires Scalars(C) && |xpow| == |cd| + 1 && SameList(C.q, xpow, Powers(x, |cd| + 1))
    ensures acc == Sub(C, start, C.act(c, LinComb(C, Powers(x, |cd|), cd)))
  {
    acc := start;
    var m := |cd|;
    var ks := xpow[..m];
    ActOnZero(C, c);
    ActZero(C, start);
    assert HasUnits(C, start);
    for k := 0 to m
      invariant acc == Sub(C, start, C.act(c, LinComb(C, ks[..k], cd[..k])))
    {
      var before, term := LinComb(C, ks[..k], cd[..k]), C.act(ks[k], cd[k]);
      assert ks[..k + 1][..k] == ks[..k] && cd[..k + 1][..k] == cd[..k];
      assert Distributes(C, c, before, term);
      NegAdd(C, C.act(c, before), C.act(c, term));
      assert Associates(C, start, C.neg(C.act(c, before)), C.neg(C.act(c, term)));
      acc := Sub(C, acc, C.act(c, C.act(ks[k], cd[k])));
    }
    assert ks[..m] == ks && cd[..m] == cd;
    SameLinComb(C, ks, Powers(x, m), cd);
  }

  method CheckRing<P(!new,==)>(C: Curve<P>, ring: seq<P>, f: seq<int>, pi: seq<int>, xpow: seq<int>, cd: seq<P>,
          x: int, zd: int)
    returns (ok: bool)
    requires Scalars(C) && |cd| == |f| && SameList(C.q, pi, Values(f, x, |ring|))
    requires SameList(C.q, xpow, Powers(x, |f| + 1))
    ensures ok == RingEquation(C, ring, f, cd, x, zd)
  {
    var acc := Combine(C, pi, ring, Values(f, x, |ring|));
    acc := TakeOff(C, acc, 1, xpow, cd, x);
    assert HasUnits(C, LinComb(C, Powers(x, |f|), cd));
    ok := acc == C.act(zd, C.G);
  }

  /** VerifyAnonSpend decides the acceptance predicate. */
  method VerifyAnonSpend<P(!new,==)>(C: Curve<P>, own: seq<P>, val: seq<P>, T: P, pf: Proof<P>,
          hash: Transcript<P> -> int)
    returns (ok: bool)
    requires Scalars(C)
    ensures ok == Accepts(C, own, val, T, pf, hash)
  {
    if !PowerOfTwo(|own|) || |val| != |own| || ByCofactor(C, T) == C.zero || !Shaped(pf, TrailingZeros(|own|)) {
      return false;
    }
    var m, x := pf.m, hash(TranscriptOf(T, pf));
    ok := CheckBits(C, pf, x);
    if !ok { return; }
    var xpow := PowersOf(C.q, x, m);
    var pi := SelectorValues(C.q, pf.f, x, |own|);
    ok := CheckRing(C, own, pf.f, pi, xpow, pf.cdO, x, pf.zdO);
    if !ok { return; }
    SameActs(C, xpow[m], Power(x, m), ByCofactor(C, T));
    var accU := TakeOff(C, C.act(xpow[m], ByCofactor(C, T)), 8, xpow, pf.cdt, x);
    if accU != ByCofactor(C, C.act(pf.zdO, C.U)) {
      assert !TagEquation(C, T, pf.cdt, x, pf.zdO);
      return false;
    }
    ok := CheckRing(C, val, pf.f, pi, xpow, pf.cdV, x, pf.zdV);
  }

  /** Prover and verifier end to end: whatever the randomness and the hash, what the prover emits
      for a member it owns is accepted exactly when its secret is a non-zero scalar. */
  method ProveThenVerify<P(!new,==)>(C: Curve<P>, own: seq<P>, val: seq<P>, l: nat, sk: int, d: int, rnd: Randomness,
          hash: Transcript<P> -> int)
    returns (ok: bool)
    requires PrimeOrder(C) && PowerOfTwo(|own|) && |val| == |own| && l < |own|
    requires own[l] == C.act(sk, C.G) && val[l] == C.act(d, C.G)
    ensures ok <==> sk % C.q != 0
  {
    var r := ProveAnonSpend(C, own, val, l, sk, d, rnd, hash);
    Completeness(C, own, val, l, sk, d, rnd, hash, r.value.0, r.value.1);
    ok := VerifyAnonSpend(C, own, val, r.value.1, r.value.0, hash);
  }
}
