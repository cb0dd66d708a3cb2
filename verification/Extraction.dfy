/** What an accepted anonymous spend proves: whoever can answer enough challenges on one set of commitments knows
    the secret of some ring member, and the tag is that secret's. */
module Extraction {
  import opened Primes
  import opened Bits
  import opened Curves
  import opened Selectors
  import opened AnonSpend
  import opened TwistedRings
  import opened PrimeFields

  /** The commitment bases are independent: a commitment to nothing opens to zero alone. */
  ghost predicate Independent<P(!new)>(C: Curve<P>)
    requires C.q > 0
  {
    forall v, r :: Opens(C, v, r)
  }

  ghost predicate Opens<P>(C: Curve<P>, v: int, r: int)
    requires C.q > 0
  {
    Commit(C, v, r) == C.zero ==> v % C.q == 0 && r % C.q == 0
  }

  // -------------------------------------------------------------------------------- points

  lemma {:induction false} Moves<P(!new)>(C: Curve<P>, a: P, b: P, c: P)
    requires Scalars(C) && C.add(a, b) == c
    ensures a == Sub(C, c, b) && b == Sub(C, c, a)
  {
    Cancels(C, a, b);
    Cancels(C, b, a);
  }

  lemma {:induction false} SubCommit<P(!new)>(C: Curve<P>, v: int, r: int, w: int, t: int)
    requires PrimeOrder(C)
    ensures Sub(C, Commit(C, v, r), Commit(C, w, t)) == Commit(C, v - w, r - t)
  {
    NegAdd(C, C.act(w, C.H), C.act(t, C.G));
    Regroup(C, C.act(v, C.H), C.act(r, C.G), C.neg(C.act(w, C.H)), C.neg(C.act(t, C.G)));
    ActSub(C, v, w, C.H);
    ActSub(C, r, t, C.G);
  }

  lemma {:induction false} ScaleCommit<P(!new)>(C: Curve<P>, k: int, v: int, r: int)
    requires PrimeOrder(C)
    ensures C.act(k, Commit(C, v, r)) == Commit(C, k * v, k * r)
  {
    assert Distributes(C, k, C.act(v, C.H), C.act(r, C.G));
    assert ActsLinearly(C, k, v, C.H) && ActsLinearly(C, k, r, C.G);
  }

  /** A commitment opens to one value. */
  lemma {:induction false} OpensOnce<P(!new)>(C: Curve<P>, v: int, r: int, w: int, t: int)
    requires PrimeOrder(C) && Independent(C) && Commit(C, v, r) == Commit(C, w, t)
    ensures Same(C.q, v, w) && Same(C.q, r, t)
  {
    SubCommit(C, v, r, w, t);
    assert HasUnits(C, Commit(C, v, r));
    assert Opens(C, v - w, r - t);
  }

  lemma {:induction false} UndoScale<P(!new)>(C: Curve<P>, k: int, u: int, a: P)
    requires PrimeOrder(C) && Same(C.q, k * u, 1)
    ensures C.act(u, C.act(k, a)) == a
  {
    assert ActsLinearly(C, u, k, a) && u * k == k * u;
    SameActs(C, k * u, 1, a);
    assert HasUnits(C, a);
  }

  // ---------------------------------------------------------------------------------- bits

  /** The first bit equation at two challenges opens the commitments to the bit and its mask. */
  lemma {:induction false} OpenBit<P(!new)>(C: Curve<P>, cl: P, ca: P, x: int, f: int, z: int, x': int, f': int,
          z': int)
    returns (b: int, r: int, a: int, s: int)
    requires PrimeOrder(C) && IsPrime(C.q) && (x - x') % C.q != 0
    requires C.add(C.act(x, cl), ca) == Commit(C, f, z) && C.add(C.act(x', cl), ca) == Commit(C, f', z')
    ensures cl == Commit(C, b, r) && ca == Commit(C, a, s)
  {
    var u := Inverse(C.q, x - x');
    TwoAnswers(C, cl, ca, x, x', Commit(C, f, z), Commit(C, f', z'));
    SubCommit(C, f, z, f', z');
    UndoScale(C, x - x', u, cl);
    ScaleCommit(C, u, f - f', z - z');
    b, r := u * (f - f'), u * (z - z');
    Moves(C, C.act(x, cl), ca, Commit(C, f, z));
    ScaleCommit(C, x, b, r);
    SubCommit(C, f, z, x * b, x * r);
    a, s := f - x * b, z - x * r;
  }

  lemma {:induction false} TwoAnswers<P(!new)>(C: Curve<P>, p: P, c: P, x: int, x': int, e: P, e': P)
    requires PrimeOrder(C) && C.add(C.act(x, p), c) == e && C.add(C.act(x', p), c) == e'
    ensures C.act(x - x', p) == Sub(C, e, e')
  {
    ActSub(C, x, x', p);
    assert Commutes(C, C.act(x, p), c) && Commutes(C, C.act(x', p), c);
    DropCommon(C, c, C.act(x, p), C.act(x', p));
  }

  /** Every answer then is the committed bit times the challenge plus the mask. */
  lemma {:induction false} AnswerIs<P(!new)>(C: Curve<P>, b: int, r: int, a: int, s: int, x: int, f: int, z: int)
    requires PrimeOrder(C) && Independent(C)
    requires C.add(C.act(x, Commit(C, b, r)), Commit(C, a, s)) == Commit(C, f, z)
    ensures Same(C.q, f, b * x + a)
  {
    ScaledCommit(C, x, b, r, a, s);
    OpensOnce(C, f, z, x * b + a, x * r + s);
  }

  /** What the second bit equation says of the third commitment. */
  lemma {:induction false} ThirdCommitment<P(!new)>(C: Curve<P>, b: int, r: int, cb: P, x: int, f: int, z: int)
    requires PrimeOrder(C) && C.add(C.act(x - f, Commit(C, b, r)), cb) == Commit(C, 0, z)
    ensures cb == Commit(C, 0 - (x - f) * b, z - (x - f) * r)
  {
    Moves(C, C.act(x - f, Commit(C, b, r)), cb, Commit(C, 0, z));
    ScaleCommit(C, x - f, b, r);
    SubCommit(C, 0, z, (x - f) * b, (x - f) * r);
  }

  /** At two challenges it leaves only zero and one. */
  lemma {:induction false} BitOrNot(q: nat, b: int, a: int, x: int, f: int, x': int, f': int)
    requires IsPrime(q) && (x - x') % q != 0 && Same(q, f, b * x + a) && Same(q, f', b * x' + a)
    requires Same(q, 0 - (x - f) * b, 0 - (x' - f') * b)
    ensures b % q == 0 || (b - 1) % q == 0
  {
    SameDifference(q, x, f, b * x + a);
    SameDifference(q, x', f', b * x' + a);
    SamePlus(q, x - f, x - (b * x + a), x' - f', x' - (b * x' + a));
    SameMul(q, b, (x - f) - (x' - f'), (x - (b * x + a)) - (x' - (b * x' + a)));
    ReducedIsSame(q, 0);
    BitIdentity(b, a, x, x');
    Transposed(q, (x - f) * b, (x' - f') * b);
    var d := ((x - f) - (x' - f')) * b;
    assert d == (x - f) * b - (x' - f') * b;
    SameBoth(q, d, (x - x') * (b * (1 - b)), (x - x') * (b * (1 - b)));
    SameBoth(q, (x - x') * (b * (1 - b)), d, 0);
    ZeroIs(q, (x - x') * (b * (1 - b)));
    NoZeroDivisors(q, x - x', b * (1 - b));
    if b % q != 0 {
      NoZeroDivisors(q, b, 1 - b);
      Flipped(q, 1 - b);
    }
  }

  lemma {:induction false} BitIdentity(b: int, a: int, x: int, x': int)
    ensures ((x - (b * x + a)) - (x' - (b * x' + a))) * b == (x - x') * (b * (1 - b))
  {
  }

  lemma {:induction false} Transposed(q: int, u: int, v: int)
    requires q > 0 && Same(q, 0 - u, 0 - v)
    ensures Same(q, u - v, 0)
  {
    var k := SameGives(q, 0 - u, 0 - v);
    Negated(q, k);
    SameWitness(q, u - v, 0, -k);
  }

  lemma {:induction false} Flipped(q: int, a: int)
    requires q > 0 && a % q == 0
    ensures (-a) % q == 0
  {
    Negated(q, a / q);
    MultipleHasNoRemainder(q, -(a / q));
  }

  // -------------------------------------------------------------------------------- answers

  /** Accepted proofs on one set of commitments, at challenges that differ modulo the order. */
  ghost predicate Answered<P(!new)>(C: Curve<P>, own: seq<P>, val: seq<P>, T: P, pfs: seq<Proof<P>>, xs: seq<int>)
    requires C.q > 0
  {
    && |pfs| == |xs| && DistinctMod(C.q, xs)
    && (forall i {:trigger pfs[i]} :: 0 <= i < |pfs| ==> Accepts(C, own, val, T, pfs[i], _ => xs[i]))
    && (forall i {:trigger pfs[i]} :: 0 <= i < |pfs| ==> TranscriptOf(T, pfs[i]) == TranscriptOf(T, pfs[0]))
  }

  lemma {:induction false} Unpack<P(!new)>(C: Curve<P>, own: seq<P>, val: seq<P>, T: P, pfs: seq<Proof<P>>,
          xs: seq<int>, i: nat)
    requires C.q > 0 && Answered(C, own, val, T, pfs, xs) && i < |pfs|
    ensures var (pf, first, x) := (pfs[i], pfs[0], xs[i]);
      && PowerOfTwo(|own|) && |val| == |own| && Shaped(pf, TrailingZeros(|own|)) && Shaped(first, TrailingZeros(|own|))
      && pf.cl == first.cl && pf.ca == first.ca && pf.cb == first.cb
      && pf.cdO == first.cdO && pf.cdt == first.cdt && pf.cdV == first.cdV
      && (forall j :: 0 <= j < pf.m ==> BitEquations(C, pf, x, j))
      && RingEquation(C, own, pf.f, first.cdO, x, pf.zdO) && RingEquation(C, val, pf.f, first.cdV, x, pf.zdV)
      && TagEquation(C, T, first.cdt, x, pf.zdO) && ByCofactor(C, T) != C.zero
  {
    assert TranscriptOf(T, pfs[i]) == TranscriptOf(T, pfs[0]);
    assert Accepts(C, own, val, T, pfs[i], _ => xs[i]) && Accepts(C, own, val, T, pfs[0], _ => xs[0]);
  }

  /** Both bit equations at two challenges. */
  lemma {:induction false} TwoBits<P(!new)>(C: Curve<P>, cl: P, ca: P, cb: P, x: int, f: int, za: int, zb: int,
          x': int, f': int, za': int, zb': int)
    returns (b: int, r: int, a: int, s: int)
    requires PrimeOrder(C) && IsPrime(C.q) && Independent(C) && (x - x') % C.q != 0
    requires C.add(C.act(x, cl), ca) == Commit(C, f, za) && C.add(C.act(x', cl), ca) == Commit(C, f', za')
    requires C.add(C.act(x - f, cl), cb) == Commit(C, 0, zb) && C.add(C.act(x' - f', cl), cb) == Commit(C, 0, zb')
    ensures cl == Commit(C, b, r) && ca == Commit(C, a, s) && (b % C.q == 0 || (b - 1) % C.q == 0)
  {
    b, r, a, s := OpenBit(C, cl, ca, x, f, za, x', f', za');
    AnswerIs(C, b, r, a, s, x, f, za);
    AnswerIs(C, b, r, a, s, x', f', za');
    ThirdCommitment(C, b, r, cb, x, f, zb);
    ThirdCommitment(C, b, r, cb, x', f', zb');
    OpensOnce(C, 0 - (x - f) * b, zb - (x - f) * r, 0 - (x' - f') * b, zb' - (x' - f') * r);
    BitOrNot(C.q, b, a, x, f, x', f');
  }

  /** Every answer to bit j is b times the challenge plus a. */
  ghost predicate BitAnswers<P>(q: int, pfs: seq<Proof<P>>, xs: seq<int>, j: nat, b: int, a: int)
    requires q > 0 && |pfs| == |xs|
  {
    forall i :: 0 <= i < |pfs| ==> j < |pfs[i].f| && Same(q, pfs[i].f[j], b * xs[i] + a)
  }

  lemma {:induction false} SameAnswer(q: int, f: int, c: int, b: int, x: int, a: int)
    requires q > 0 && Same(q, f, c * x + a) && Same(q, c, b)
    ensures Same(q, f, b * x + a)
  {
    SameMul(q, x, c, b);
    ReducedIsSame(q, a);
    SamePlus(q, c * x, b * x, a, a);
    SameBoth(q, f, c * x + a, b * x + a);
  }

  /** The committed bit, its mask, and that every answer is made from them. */
  lemma {:induction false} ExtractBit<P(!new)>(C: Curve<P>, own: seq<P>, val: seq<P>, T: P, pfs: seq<Proof<P>>,
          xs: seq<int>, j: nat)
    returns (b: int, a: int)
    requires PrimeOrder(C) && IsPrime(C.q) && Independent(C) && Answered(C, own, val, T, pfs, xs)
    requires |xs| >= 2 && PowerOfTwo(|own|) && j < TrailingZeros(|own|)
    ensures (b == 0 || b == 1) && BitAnswers(C.q, pfs, xs, j, b, a)
  {
    var c, r, s;
    c, r, a, s := FirstTwo(C, own, val, T, pfs, xs, j);
    forall i | 0 <= i < |pfs| ensures j < |pfs[i].f| && Same(C.q, pfs[i].f[j], c * xs[i] + a) {
      EachAnswer(C, own, val, T, pfs, xs, i, j, c, r, a, s);
    }
    b := RoundAnswers(C.q, pfs, xs, j, c, a);
  }

  lemma {:induction false} RoundAnswers<P>(q: int, pfs: seq<Proof<P>>, xs: seq<int>, j: nat, c: int, a: int)
        returns (b: int)
    requires q > 0 && |pfs| == |xs| && BitAnswers(q, pfs, xs, j, c, a) && (c % q == 0 || (c - 1) % q == 0)
    ensures (b == 0 || b == 1) && BitAnswers(q, pfs, xs, j, b, a)
  {
    b := if c % q == 0 then 0 else 1;
    forall i | 0 <= i < |pfs| ensures j < |pfs[i].f| && Same(q, pfs[i].f[j], b * xs[i] + a) {
      SameAnswer(q, pfs[i].f[j], c, b, xs[i], a);
    }
  }

  lemma {:induction false} EachAnswer<P(!new)>(C: Curve<P>, own: seq<P>, val: seq<P>, T: P, pfs: seq<Proof<P>>,
          xs: seq<int>, i: nat, j: nat, b: int, r: int, a: int, s: int)
    requires PrimeOrder(C) && Independent(C) && Answered(C, own, val, T, pfs, xs)
    requires i < |pfs| && PowerOfTwo(|own|) && j < TrailingZeros(|own|) && j < |pfs[0].cl| && j < |pfs[0].ca|
    requires pfs[0].cl[j] == Commit(C, b, r) && pfs[0].ca[j] == Commit(C, a, s)
    ensures j < |pfs[i].f| && Same(C.q, pfs[i].f[j], b * xs[i] + a)
  {
    BitAt(C, own, val, T, pfs, xs, i, j);
    AnswerIs(C, b, r, a, s, xs[i], pfs[i].f[j], pfs[i].za[j]);
  }

  lemma {:induction false} FirstTwo<P(!new)>(C: Curve<P>, own: seq<P>, val: seq<P>, T: P, pfs: seq<Proof<P>>,
          xs: seq<int>, j: nat)
    returns (b: int, r: int, a: int, s: int)
    requires PrimeOrder(C) && IsPrime(C.q) && Independent(C) && Answered(C, own, val, T, pfs, xs)
    requires |xs| >= 2 && PowerOfTwo(|own|) && j < TrailingZeros(|own|)
    ensures j < |pfs[0].cl| && j < |pfs[0].ca| && (b % C.q == 0 || (b - 1) % C.q == 0)
    ensures pfs[0].cl[j] == Commit(C, b, r) && pfs[0].ca[j] == Commit(C, a, s)
  {
    var cl, ca, cb, x, u, x', v := BothAt(C, own, val, T, pfs, xs, j);
    b, r, a, s := TwoBits(C, cl, ca, cb, x, u.f, u.za, u.zb, x', v.f, v.za, v.zb);
  }

  /** What a proof answers about one bit. */
  datatype BitAnswer = BitAnswer(f: int, za: int, zb: int)

  lemma {:induction false} BothAt<P(!new)>(C: Curve<P>, own: seq<P>, val: seq<P>, T: P, pfs: seq<Proof<P>>,
          xs: seq<int>, j: nat)
    returns (cl: P, ca: P, cb: P, x: int, u: BitAnswer, x': int, v: BitAnswer)
    requires C.q > 0 && Answered(C, own, val, T, pfs, xs) && |xs| >= 2 && PowerOfTwo(|own|)
    requires j < TrailingZeros(|own|)
    ensures j < |pfs[0].cl| && j < |pfs[0].ca| && cl == pfs[0].cl[j] && ca == pfs[0].ca[j] && (x - x') % C.q != 0
    ensures C.add(C.act(x, cl), ca) == Commit(C, u.f, u.za) && C.add(C.act(x', cl), ca) == Commit(C, v.f, v.za)
    ensures C.add(C.act(x - u.f, cl), cb) == Commit(C, 0, u.zb) && C.add(C.act(x' - v.f, cl), cb) == Commit(C, 0, v.zb)
  {
    BitAt(C, own, val, T, pfs, xs, 0, j);
    BitAt(C, own, val, T, pfs, xs, 1, j);
    var p, p' := pfs[0], pfs[1];
    cl, ca, cb, x, x' := p.cl[j], p.ca[j], p.cb[j], xs[0], xs[1];
    u, v := BitAnswer(p.f[j], p.za[j], p.zb[j]), BitAnswer(p'.f[j], p'.za[j], p'.zb[j]);
  }

  lemma {:induction false} BitAt<P(!new)>(C: Curve<P>, own: seq<P>, val: seq<P>, T: P, pfs: seq<Proof<P>>,
          xs: seq<int>, i: nat, j: nat)
    requires C.q > 0 && Answered(C, own, val, T, pfs, xs) && i < |pfs| && PowerOfTwo(|own|)
    requires j < TrailingZeros(|own|)
    ensures var (pf, first, x) := (pfs[i], pfs[0], xs[i]);
      && j < |pf.f| && j < |pf.za| && j < |pf.zb| && j < |first.cl| && j < |first.ca| && j < |first.cb|
      && C.add(C.act(x, first.cl[j]), first.ca[j]) == Commit(C, pf.f[j], pf.za[j])
      && C.add(C.act(x - pf.f[j], first.cl[j]), first.cb[j]) == Commit(C, 0, pf.zb[j])
  {
    Unpack(C, own, val, T, pfs, xs, i);
    assert BitEquations(C, pfs[i], xs[i], j);
  }

  // ---------------------------------------------------------------------------- the index

  function FromBits(bs: seq<int>): int {
    if bs == [] then 0 else bs[0] + 2 * FromBits(bs[1..])
  }

  ghost predicate AreBits(bs: seq<int>) {
    forall j :: 0 <= j < |bs| ==> bs[j] == 0 || bs[j] == 1
  }

  lemma {:induction false} IndexBound(bs: seq<int>)
    requires AreBits(bs)
    ensures 0 <= FromBits(bs) < Exp2(|bs|)
  {
    if bs != [] { IndexBound(bs[1..]); }
  }

  lemma {:induction false} IndexBit(bs: seq<int>, j: nat)
    requires AreBits(bs) && j < |bs|
    ensures FromBits(bs) >= 0 && Bit(FromBits(bs), j) == bs[j]
  {
    IndexBound(bs);
    IndexBound(bs[1..]);
    var l := FromBits(bs);
    if j > 0 {
      IndexBit(bs[1..], j - 1);
      ShrOfHalf(l, j - 1);
    } else {
      assert Shr(l, 0) == l;
    }
  }

  /** All bits together: an index and masks of which every answer is made. */
  ghost predicate Matches<P>(q: int, l: nat, a: seq<int>, pfs: seq<Proof<P>>, xs: seq<int>)
    requires q > 0
  {
    |pfs| == |xs| && forall i :: 0 <= i < |pfs| ==> SameList(q, pfs[i].f, Responses(l, a, xs[i]))
  }

  lemma {:induction false} ExtractBits<P(!new)>(C: Curve<P>, own: seq<P>, val: seq<P>, T: P, pfs: seq<Proof<P>>,
          xs: seq<int>, m: nat)
    returns (bs: seq<int>, a: seq<int>)
    requires PrimeOrder(C) && IsPrime(C.q) && Independent(C) && Answered(C, own, val, T, pfs, xs)
    requires |xs| >= 2 && PowerOfTwo(|own|) && m <= TrailingZeros(|own|)
    ensures |bs| == |a| == m && AreBits(bs) && forall j :: 0 <= j < m ==> BitAnswers(C.q, pfs, xs, j, bs[j], a[j])
  {
    if m == 0 {
      bs, a := [], [];
    } else {
      bs, a := ExtractBits(C, own, val, T, pfs, xs, m - 1);
      var b, c := ExtractBit(C, own, val, T, pfs, xs, m - 1);
      bs, a := bs + [b], a + [c];
    }
  }

  lemma {:induction false} ExtractIndex<P(!new)>(C: Curve<P>, own: seq<P>, val: seq<P>, T: P, pfs: seq<Proof<P>>,
          xs: seq<int>)
    returns (l: nat, a: seq<int>)
    requires PrimeOrder(C) && IsPrime(C.q) && Independent(C) && Answered(C, own, val, T, pfs, xs)
    requires PowerOfTwo(|own|) && |xs| == TrailingZeros(|own|) + 1
    ensures l < |own| && |own| == Exp2(|a|) && |a| + 1 == |xs| && Matches(C.q, l, a, pfs, xs)
  {
    var m := TrailingZeros(|own|);
    var bs: seq<int> := [];
    a := [];
    if m > 0 { bs, a := ExtractBits(C, own, val, T, pfs, xs, m); }
    IndexBound(bs);
    l := FromBits(bs);
    forall i | 0 <= i < |pfs| ensures SameList(C.q, pfs[i].f, Responses(l, a, xs[i])) {
      Unpack(C, own, val, T, pfs, xs, i);
      forall j | 0 <= j < m ensures Same(C.q, pfs[i].f[j], Responses(l, a, xs[i])[j]) {
        IndexBit(bs, j);
        assert BitAnswers(C.q, pfs, xs, j, bs[j], a[j]);
      }
    }
  }

  // ------------------------------------------------------------------ the top coefficient

  function Negs<P>(C: Curve<P>, s: seq<P>): (r: seq<P>)
    ensures |r| == |s|
  {
    seq(|s|, k requires 0 <= k < |s| => C.neg(s[k]))
  }

  lemma {:induction false} ActOnNeg<P(!new)>(C: Curve<P>, k: int, p: P)
    requires Scalars(C)
    ensures C.act(k, C.neg(p)) == C.neg(C.act(k, p))
  {
    assert Distributes(C, k, p, C.neg(p)) && HasUnits(C, p);
    ActOnZero(C, k);
    NegUnique(C, C.act(k, p), C.act(k, C.neg(p)));
  }

  lemma {:induction false} LinCombNegs<P(!new)>(C: Curve<P>, ks: seq<int>, ps: seq<P>)
    requires Scalars(C) && |ks| == |ps|
    ensures LinComb(C, ks, Negs(C, ps)) == C.neg(LinComb(C, ks, ps))
  {
    if ks == [] {
      ActZero(C, C.zero);
    } else {
      var n := |ks| - 1;
      LinCombNegs(C, ks[..n], ps[..n]);
      assert Negs(C, ps)[..n] == Negs(C, ps[..n]);
      ActOnNeg(C, ks[n], ps[n]);
      NegAdd(C, LinComb(C, ks[..n], ps[..n]), C.act(ks[n], ps[n]));
    }
  }

  lemma {:induction false} LinCombTop<P>(C: Curve<P>, x: int, m: nat, ps: seq<P>, p: P)
    requires |ps| == m
    ensures LinComb(C, Powers(x, m + 1), ps + [p]) == C.add(LinComb(C, Powers(x, m), ps), C.act(Power(x, m), p))
  {
    assert Powers(x, m + 1)[..m] == Powers(x, m) && (ps + [p])[..m] == ps;
  }

  /** ks plus c times js. */
  function Mixed(ks: seq<int>, c: int, js: seq<int>): (r: seq<int>)
    requires |ks| == |js|
    ensures |r| == |ks|
  {
    seq(|ks|, k requires 0 <= k < |ks| => ks[k] + c * js[k])
  }

  lemma {:induction false} LinCombMixed<P(!new)>(C: Curve<P>, ks: seq<int>, c: int, js: seq<int>, ps: seq<P>)
    requires PrimeOrder(C) && |ks| == |js| == |ps|
    ensures LinComb(C, Mixed(ks, c, js), ps) == C.add(LinComb(C, ks, ps), C.act(c, LinComb(C, js, ps)))
  {
    if ks == [] {
      ActOnZero(C, c);
      ActZero(C, C.zero);
    } else {
      var n := |ks| - 1;
      LinCombMixed(C, ks[..n], c, js[..n], ps[..n]);
      assert Mixed(ks, c, js)[..n] == Mixed(ks[..n], c, js[..n]);
      var A, B, p := LinComb(C, ks[..n], ps[..n]), LinComb(C, js[..n], ps[..n]), ps[n];
      assert ActsLinearly(C, ks[n], c * js[n], p) && ActsLinearly(C, c, js[n], p);
      Regroup(C, A, C.act(c, B), C.act(ks[n], p), C.act(c, C.act(js[n], p)));
      assert Distributes(C, c, B, C.act(js[n], p));
    }
  }

  function Moments(w: seq<int>, xs: seq<int>, n: nat): (s: seq<int>)
    requires |w| == |xs|
    ensures |s| == n
  {
    seq(n, k requires 0 <= k < n => Moment(w, xs, k))
  }

  lemma {:induction false} MomentsMore(w: seq<int>, xs: seq<int>, k: nat, n: nat)
    requires |w| == |xs| && k < |w|
    ensures Moments(w[..k + 1], xs[..k + 1], n) == Mixed(Moments(w[..k], xs[..k], n), w[k], Powers(xs[k], n))
  {
    assert w[..k + 1][..k] == w[..k] && xs[..k + 1][..k] == xs[..k];
  }

  /** The sum of w[i] * zs[i]. */
  function Combined(w: seq<int>, zs: seq<int>): int
    requires |w| == |zs|
  {
    if w == [] then 0 else Combined(w[..|w| - 1], zs[..|w| - 1]) + w[|w| - 1] * zs[|w| - 1]
  }

  /** The equations of all challenges, weighted and added up. */
  lemma {:induction false} AddedUp<P(!new)>(C: Curve<P>, w: seq<int>, xs: seq<int>, zs: seq<int>, E: seq<P>, B: P,
          n: nat)
    requires PrimeOrder(C) && |w| == |xs| == |zs| && n <= |w|
    requires forall i :: 0 <= i < |xs| ==> LinComb(C, Powers(xs[i], |E|), E) == C.act(zs[i], B)
    ensures LinComb(C, Moments(w[..n], xs[..n], |E|), E) == C.act(Combined(w[..n], zs[..n]), B)
  {
    if n == 0 {
      assert Moments(w[..0], xs[..0], |E|) == seq(|E|, _ => 0);
      NoCoefficients(C, E);
      ActZero(C, B);
    } else {
      var k := n - 1;
      AddedUp(C, w, xs, zs, E, B, k);
      MomentsMore(w, xs, k, |E|);
      CombinedMore(w, zs, k);
      AddOne(C, Moments(w[..k], xs[..k], |E|), Combined(w[..k], zs[..k]), w[k], Powers(xs[k], |E|), zs[k], E, B);
    }
  }

  lemma {:induction false} CombinedMore(w: seq<int>, zs: seq<int>, k: nat)
    requires |w| == |zs| && k < |w|
    ensures Combined(w[..k + 1], zs[..k + 1]) == Combined(w[..k], zs[..k]) + w[k] * zs[k]
  {
    assert w[..k + 1][..k] == w[..k] && zs[..k + 1][..k] == zs[..k];
  }

  lemma {:induction false} AddOne<P(!new)>(C: Curve<P>, ks: seq<int>, s: int, c: int, js: seq<int>, z: int,
          E: seq<P>, B: P)
    requires PrimeOrder(C) && |ks| == |js| == |E|
    requires LinComb(C, ks, E) == C.act(s, B) && LinComb(C, js, E) == C.act(z, B)
    ensures LinComb(C, Mixed(ks, c, js), E) == C.act(s + c * z, B)
  {
    LinCombMixed(C, ks, c, js, E);
    assert ActsLinearly(C, c, z, B) && ActsLinearly(C, s, c * z, B);
  }

  lemma {:induction false} NoCoefficients<P(!new)>(C: Curve<P>, E: seq<P>)
    requires Scalars(C)
    ensures LinComb(C, seq(|E|, _ => 0), E) == C.zero
  {
    if E != [] {
      var n := |E| - 1;
      NoCoefficients(C, E[..n]);
      assert seq(|E|, _ => 0)[..n] == seq(n, _ => 0);
      ActZero(C, E[n]);
      ActZero(C, C.zero);
    }
  }

  function UnitTop(n: nat): (s: seq<int>)
    ensures |s| == n
  {
    seq(n, k requires 0 <= k < n => if k == n - 1 then 1 else 0)
  }

  /** Equations at as many challenges as there are coefficients open the top one. */
  lemma {:induction false} TopOpened<P(!new)>(C: Curve<P>, w: seq<int>, xs: seq<int>, zs: seq<int>, E: seq<P>, B: P)
    requires PrimeOrder(C) && |xs| == |zs| == |E| > 0 && Picks(C.q, w, xs)
    requires forall i :: 0 <= i < |xs| ==> LinComb(C, Powers(xs[i], |E|), E) == C.act(zs[i], B)
    ensures E[|E| - 1] == C.act(Combined(w, zs), B)
  {
    var n := |E|;
    AddedUp(C, w, xs, zs, E, B, n);
    assert w[..n] == w && xs[..n] == xs && zs[..n] == zs;
    forall k | 0 <= k < n ensures Same(C.q, Moments(w, xs, n)[k], UnitTop(n)[k]) {
      assert Same(C.q, Moment(w, xs, k), if k == |xs| - 1 then 1 else 0);
    }
    SameLinComb(C, Moments(w, xs, n), UnitTop(n), E);
    assert UnitTop(n)[..n - 1] == seq(n - 1, _ => 0);
    NoCoefficients(C, E[..n - 1]);
    assert HasUnits(C, E[n - 1]);
    ActZero(C, E[n - 1]);
  }

  // ------------------------------------------------------------------------ rings and tag

  /** What the ring equation leaves below the hidden member's term. */
  function LowerTerms<P>(C: Curve<P>, ring: seq<P>, l: nat, a: seq<int>, cd: seq<P>): (s: seq<P>)
    requires |cd| == |a|
    ensures |s| == |a|
  {
    Pointwise(C, Sums(C, ring, l, a, |ring|), Negs(C, cd))
  }

  lemma {:induction false} RingAsPolynomial<P(!new)>(C: Curve<P>, ring: seq<P>, l: nat, a: seq<int>, x: int,
          f: seq<int>, cd: seq<P>, zd: int)
    requires PrimeOrder(C) && |ring| == Exp2(|a|) && l < |ring| && |cd| == |a| == |f|
    requires SameList(C.q, f, Responses(l, a, x)) && RingEquation(C, ring, f, cd, x, zd)
    ensures LinComb(C, Powers(x, |a| + 1), LowerTerms(C, ring, l, a, cd) + [ring[l]]) == C.act(zd, C.G)
  {
    var m, ks := |a|, Powers(x, |a|);
    var sums, top := LinComb(C, ks, Sums(C, ring, l, a, |ring|)), C.act(Power(x, m), ring[l]);
    var off := C.neg(LinComb(C, ks, cd));
    SameResponses(C, ring, f, Responses(l, a, x), x);
    WholeRing(C, ring, l, a, x);
    LinCombTop(C, x, m, LowerTerms(C, ring, l, a, cd), ring[l]);
    LinCombPointwise(C, ks, Sums(C, ring, l, a, |ring|), Negs(C, cd));
    LinCombNegs(C, ks, cd);
    LastTwo(C, sums, off, top);
  }

  lemma {:induction false} LastTwo<P(!new)>(C: Curve<P>, a: P, b: P, c: P)
    requires Scalars(C)
    ensures C.add(C.add(a, b), c) == C.add(C.add(a, c), b)
  {
    assert Associates(C, a, b, c) && Associates(C, a, c, b) && Commutes(C, b, c);
  }

  /** The ring member at the index opens to the combined responses. */
  lemma {:induction false} MemberOpened<P(!new)>(C: Curve<P>, ring: seq<P>, l: nat, a: seq<int>, cd: seq<P>,
          fs: seq<seq<int>>, xs: seq<int>, zs: seq<int>, w: seq<int>)
    requires PrimeOrder(C) && |ring| == Exp2(|a|) && l < |ring| && |cd| == |a| && Picks(C.q, w, xs)
    requires |fs| == |xs| == |zs| == |a| + 1
    requires forall i :: 0 <= i < |xs| ==> RingAnswer(C, ring, l, a, cd, fs[i], xs[i], zs[i])
    ensures ring[l] == C.act(Combined(w, zs), C.G)
  {
    var E := LowerTerms(C, ring, l, a, cd) + [ring[l]];
    forall i | 0 <= i < |xs| ensures LinComb(C, Powers(xs[i], |E|), E) == C.act(zs[i], C.G) {
      assert RingAnswer(C, ring, l, a, cd, fs[i], xs[i], zs[i]);
      RingAsPolynomial(C, ring, l, a, xs[i], fs[i], cd, zs[i]);
    }
    TopOpened(C, w, xs, zs, E, C.G);
  }

  ghost predicate RingAnswer<P>(C: Curve<P>, ring: seq<P>, l: nat, a: seq<int>, cd: seq<P>, f: seq<int>, x: int, z: int)
    requires C.q > 0
  {
    |cd| == |a| == |f| && SameList(C.q, f, Responses(l, a, x)) && RingEquation(C, ring, f, cd, x, z)
  }

  function ByEight<P>(C: Curve<P>, s: seq<P>): (r: seq<P>)
    ensures |r| == |s|
  {
    seq(|s|, k requires 0 <= k < |s| => C.act(8, s[k]))
  }

  lemma {:induction false} LinCombByEight<P(!new)>(C: Curve<P>, ks: seq<int>, ps: seq<P>)
    requires PrimeOrder(C) && |ks| == |ps|
    ensures LinComb(C, ks, ByEight(C, ps)) == C.act(8, LinComb(C, ks, ps))
  {
    if ks == [] {
      ActOnZero(C, 8);
    } else {
      var n := |ks| - 1;
      LinCombByEight(C, ks[..n], ps[..n]);
      assert ByEight(C, ps)[..n] == ByEight(C, ps[..n]);
      assert ActsLinearly(C, ks[n], 8, ps[n]) && ActsLinearly(C, 8, ks[n], ps[n]) && ks[n] * 8 == 8 * ks[n];
      assert Distributes(C, 8, LinComb(C, ks[..n], ps[..n]), C.act(ks[n], ps[n]));
    }
  }

  lemma {:induction false} TagAsPolynomial<P(!new)>(C: Curve<P>, T: P, cdt: seq<P>, x: int, zd: int)
    requires PrimeOrder(C) && TagEquation(C, T, cdt, x, zd)
    ensures LinComb(C, Powers(x, |cdt| + 1), Negs(C, ByEight(C, cdt)) + [ByCofactor(C, T)])
         == C.act(zd, ByCofactor(C, C.U))
  {
    var m, ks := |cdt|, Powers(x, |cdt|);
    LinCombTop(C, x, m, Negs(C, ByEight(C, cdt)), ByCofactor(C, T));
    LinCombNegs(C, ks, ByEight(C, cdt));
    LinCombByEight(C, ks, cdt);
    assert Commutes(C, C.act(Power(x, m), ByCofactor(C, T)), C.neg(C.act(8, LinComb(C, ks, cdt))));
    assert ActsLinearly(C, 8, zd, C.U) && ActsLinearly(C, zd, 8, C.U) && 8 * zd == zd * 8;
  }

  /** The tag, cleared of the cofactor, is the combined responses times the tag base. */
  lemma {:induction false} TagOpened<P(!new)>(C: Curve<P>, T: P, cdt: seq<P>, xs: seq<int>, zs: seq<int>, w: seq<int>)
    requires PrimeOrder(C) && |xs| == |zs| == |cdt| + 1 && Picks(C.q, w, xs)
    requires forall i :: 0 <= i < |xs| ==> TagEquation(C, T, cdt, xs[i], zs[i])
    ensures ByCofactor(C, T) == ByCofactor(C, C.act(Combined(w, zs), C.U))
  {
    var E, s := Negs(C, ByEight(C, cdt)) + [ByCofactor(C, T)], Combined(w, zs);
    forall i | 0 <= i < |xs| ensures LinComb(C, Powers(xs[i], |E|), E) == C.act(zs[i], ByCofactor(C, C.U)) {
      TagAsPolynomial(C, T, cdt, xs[i], zs[i]);
    }
    TopOpened(C, w, xs, zs, E, ByCofactor(C, C.U));
    assert ActsLinearly(C, 8, s, C.U) && ActsLinearly(C, s, 8, C.U) && 8 * s == s * 8;
  }

  // ------------------------------------------------------------------------- the theorems

  /** A member of the first ring, with its secret, and the member of the second at the same place, with its
      opening; the tag is the secret's up to the cofactor, and the secret is not zero. */
  ghost predicate Witnessed<P>(C: Curve<P>, own: seq<P>, val: seq<P>, T: P, l: nat, s: int, d: int)
    requires C.q > 0
  {
    && l < |own| == |val| && own[l] == C.act(s, C.G) && val[l] == C.act(d, C.G)
    && ByCofactor(C, T) == ByCofactor(C, C.act(s, C.U)) && s % C.q != 0
  }

  function OwnResponses<P>(pfs: seq<Proof<P>>): (zs: seq<int>)
    ensures |zs| == |pfs| && forall i :: 0 <= i < |pfs| ==> zs[i] == pfs[i].zdO
  {
    seq(|pfs|, i requires 0 <= i < |pfs| => pfs[i].zdO)
  }

  function ValResponses<P>(pfs: seq<Proof<P>>): (zs: seq<int>)
    ensures |zs| == |pfs| && forall i :: 0 <= i < |pfs| ==> zs[i] == pfs[i].zdV
  {
    seq(|pfs|, i requires 0 <= i < |pfs| => pfs[i].zdV)
  }

  function BitResponses<P>(pfs: seq<Proof<P>>): (fs: seq<seq<int>>)
    ensures |fs| == |pfs| && forall i :: 0 <= i < |pfs| ==> fs[i] == pfs[i].f
  {
    seq(|pfs|, i requires 0 <= i < |pfs| => pfs[i].f)
  }

  /** Soundness: accepted answers to m + 1 distinct challenges on one set of commitments, for rings of 2^m, give
      a ring member with its secret and its opening, and the tag belongs to that secret. */
  lemma {:induction false} Extract<P(!new)>(C: Curve<P>, own: seq<P>, val: seq<P>, T: P, pfs: seq<Proof<P>>,
          xs: seq<int>)
    returns (l: nat, s: int, d: int)
    requires PrimeOrder(C) && IsPrime(C.q) && Independent(C) && Answered(C, own, val, T, pfs, xs)
    requires |xs| > 0 && |own| == Exp2(|xs| - 1)
    ensures Witnessed(C, own, val, T, l, s, d)
  {
    TrailingZerosOfPower(|xs| - 1);
    var a;
    l, a := ExtractIndex(C, own, val, T, pfs, xs);
    var w := WeightsExist(C.q, xs);
    var zO, zV, fs := OwnResponses(pfs), ValResponses(pfs), BitResponses(pfs);
    var first := pfs[0];
    forall i | 0 <= i < |xs|
      ensures RingAnswer(C, own, l, a, first.cdO, fs[i], xs[i], zO[i])
      ensures RingAnswer(C, val, l, a, first.cdV, fs[i], xs[i], zV[i])
      ensures TagEquation(C, T, first.cdt, xs[i], zO[i])
    {
      Unpack(C, own, val, T, pfs, xs, i);
    }
    Unpack(C, own, val, T, pfs, xs, 0);
    s, d := Combined(w, zO), Combined(w, zV);
    MemberOpened(C, own, l, a, first.cdO, fs, xs, zO, w);
    MemberOpened(C, val, l, a, first.cdV, fs, xs, zV, w);
    TagOpened(C, T, first.cdt, xs, zO, w);
    TagNotLowOrder(C, s);
  }

  lemma {:induction false} SecretUnique<P(!new)>(C: Curve<P>, s: int, t: int)
    requires PrimeOrder(C) && Independent(C)
    ensures C.act(s, C.G) == C.act(t, C.G) ==> Same(C.q, s, t)
  {
    ActZero(C, C.H);
    ActZero(C, C.act(s - t, C.G));
    ActSub(C, s, t, C.G);
    assert HasUnits(C, C.act(s, C.G)) && Opens(C, 0, s - t);
  }

  lemma {:induction false} TagUnique<P(!new)>(C: Curve<P>, s: int, t: int)
    requires PrimeOrder(C)
    ensures ByCofactor(C, C.act(s, C.U)) == ByCofactor(C, C.act(t, C.U)) <==> Same(C.q, s, t)
  {
    TagNotLowOrder(C, s - t);
    var p, r := C.act(s, C.U), C.act(t, C.U);
    ActSub(C, s, t, C.U);
    assert Distributes(C, 8, p, C.neg(r));
    ActOnNeg(C, 8, r);
    var a, b := ByCofactor(C, p), ByCofactor(C, r);
    assert ByCofactor(C, Sub(C, p, r)) == Sub(C, a, b);
    assert HasUnits(C, b);
    if Sub(C, a, b) == C.zero { SubZero(C, a, b); }
  }

  lemma {:induction false} SubZero<P(!new)>(C: Curve<P>, a: P, b: P)
    requires Scalars(C) && Sub(C, a, b) == C.zero
    ensures a == b
  {
    assert Associates(C, a, C.neg(b), b) && Commutes(C, C.neg(b), b) && HasUnits(C, a) && HasUnits(C, b);
    ActZero(C, b);
  }

  /** Linkability: of two spends, on whatever rings, the canonical tags agree exactly when the members behind
      them are the same key. So a coin has one nullifier, and different coins different ones. */
  lemma {:induction false} SameCoinSameTag<P(!new)>(C: Curve<P>, own: seq<P>, val: seq<P>, T: P, l: nat, s: int,
          d: int, own': seq<P>, val': seq<P>, T': P, l': nat, s': int, d': int)
    requires PrimeOrder(C) && Independent(C)
    requires Witnessed(C, own, val, T, l, s, d) && Witnessed(C, own', val', T', l', s', d')
    ensures ByCofactor(C, T) == ByCofactor(C, T') <==> own[l] == own'[l']
  {
    SecretUnique(C, s, s');
    TagUnique(C, s, s');
    if Same(C.q, s, s') { SameActs(C, s, s', C.G); }
  }

  /** One proof at one challenge fits one canonical tag only, honest or not. */
  lemma {:induction false} ProofFixesTag<P(!new)>(C: Curve<P>, own: seq<P>, val: seq<P>, T: P, T': P, pf: Proof<P>,
          h: Transcript<P> -> int, h': Transcript<P> -> int)
    requires PrimeOrder(C) && IsPrime(C.q) && Accepts(C, own, val, T, pf, h) && Accepts(C, own, val, T', pf, h')
    requires h(TranscriptOf(T, pf)) == h'(TranscriptOf(T', pf))
    ensures var x := h(TranscriptOf(T, pf));
      && C.act(Power(x, pf.m), ByCofactor(C, T)) == C.act(Power(x, pf.m), ByCofactor(C, T'))
      && (x % C.q != 0 ==> ByCofactor(C, T) == ByCofactor(C, T'))
  {
    var x := h(TranscriptOf(T, pf));
    var w, sum := Power(x, pf.m), ByCofactor(C, LinComb(C, Powers(x, pf.m), pf.cdt));
    var a, b := C.act(w, ByCofactor(C, T)), C.act(w, ByCofactor(C, T'));
    assert TagEquation(C, T, pf.cdt, x, pf.zdO) && TagEquation(C, T', pf.cdt, x, pf.zdO);
    Moves(C, a, C.neg(sum), Sub(C, a, sum));
    Moves(C, b, C.neg(sum), Sub(C, b, sum));
    if x % C.q != 0 {
      PowerNotZero(C.q, x, pf.m);
      var u := Inverse(C.q, w);
      UndoScale(C, w, u, ByCofactor(C, T));
      UndoScale(C, w, u, ByCofactor(C, T'));
    }
  }

  lemma {:induction false} PowerNotZero(q: nat, x: int, m: nat)
    requires IsPrime(q) && x % q != 0
    ensures Power(x, m) % q != 0
  {
    if m > 0 {
      PowerNotZero(q, x, m - 1);
      if (Power(x, m - 1) * x) % q == 0 { NoZeroDivisors(q, Power(x, m - 1), x); }
    }
  }

  // ---------------------------------------------------------------------- the full group

  lemma {:induction false} CofactorPart<P>(C: Curve<P>, a: Twisted<P>)
    requires C.q > 8
    ensures ByCofactor(Full(C), a) == Twisted(ByCofactor(C, a.p), 0)
  {
    assert Residue(C.q, 8) == 8;
    assert (8 * a.t) % 8 == 0;
  }

  lemma {:induction false} BitEquationsPart<P>(C: Curve<P>, pf: Proof<Twisted<P>>, x: int, j: nat)
    requires Shaped(pf, pf.m) && j < pf.m && BitEquations(Full(C), pf, x, j)
    ensures BitEquations(C, Project(pf), x, j)
  {
    CommitPart(C, pf.f[j], pf.za[j]);
    CommitPart(C, 0, pf.zb[j]);
  }

  lemma {:induction false} TagEquationPart<P>(C: Curve<P>, T: Twisted<P>, cdt: seq<Twisted<P>>, x: int, zd: int)
    requires TagEquation(Full(C), T, cdt, x, zd)
    ensures TagEquation(C, T.p, Parts(cdt), x, zd)
  {
    LinCombParts(C, Powers(x, |cdt|), cdt);
    BasePart(C, zd);
  }

  /** What is accepted over the full group is accepted in the prime-order parts. */
  lemma {:induction false} AcceptedPart<P>(C: Curve<P>, own: seq<Twisted<P>>, val: seq<Twisted<P>>, T: Twisted<P>,
          pf: Proof<Twisted<P>>, x: int)
    requires C.q > 8 && Accepts(Full(C), own, val, T, pf, _ => x)
    ensures Accepts(C, Parts(own), Parts(val), T.p, Project(pf), _ => x)
  {
    CofactorPart(C, T);
    forall j | 0 <= j < pf.m ensures BitEquations(C, Project(pf), x, j) {
      assert BitEquations(Full(C), pf, x, j);
      BitEquationsPart(C, pf, x, j);
    }
    RingParts(C, own, pf.f, pf.cdO, x, pf.zdO);
    RingParts(C, val, pf.f, pf.cdV, x, pf.zdV);
    TagEquationPart(C, T, pf.cdt, x, pf.zdO);
  }

  function Projects<P>(pfs: seq<Proof<Twisted<P>>>): (r: seq<Proof<P>>)
    ensures |r| == |pfs| && forall i :: 0 <= i < |pfs| ==> r[i] == Project(pfs[i])
  {
    seq(|pfs|, i requires 0 <= i < |pfs| => Project(pfs[i]))
  }

  /** Soundness for rings and tags with any low-order parts. */
  lemma {:induction false} ExtractFull<P(!new)>(C: Curve<P>, own: seq<Twisted<P>>, val: seq<Twisted<P>>,
          T: Twisted<P>, pfs: seq<Proof<Twisted<P>>>, xs: seq<int>)
    returns (l: nat, s: int, d: int)
    requires PrimeOrder(C) && IsPrime(C.q) && C.q > 8 && Independent(C) && Answered(Full(C), own, val, T, pfs, xs)
    requires |xs| > 0 && |own| == Exp2(|xs| - 1)
    ensures Witnessed(C, Parts(own), Parts(val), T.p, l, s, d)
  {
    var qs := Projects(pfs);
    forall i | 0 <= i < |qs|
      ensures Accepts(C, Parts(own), Parts(val), T.p, qs[i], _ => xs[i])
      ensures TranscriptOf(T.p, qs[i]) == TranscriptOf(T.p, qs[0])
    {
      assert Accepts(Full(C), own, val, T, pfs[i], _ => xs[i]) && TranscriptOf(T, pfs[i]) == TranscriptOf(T, pfs[0]);
      AcceptedPart(C, own, val, T, pfs[i], xs[i]);
    }
    l, s, d := Extract(C, Parts(own), Parts(val), T.p, qs, xs);
  }

  /** The challenge hash is fed the tag and every commitment: equal inputs mean equal ones of all. */
  lemma {:induction false} TranscriptBinds<P>(T: P, pf: Proof<P>, T': P, pf': Proof<P>)
    requires TranscriptOf(T, pf) == TranscriptOf(T', pf')
    ensures T == T' && pf.cl == pf'.cl && pf.ca == pf'.ca && pf.cb == pf'.cb
    ensures pf.cdO == pf'.cdO && pf.cdt == pf'.cdt && pf.cdV == pf'.cdV
  {
  }
}
