/** The dynamic accumulator acc = g^(product of members) and the proofs over it. */
module Accumulators {
  import opened Sequences
  import opened Wrappers
  import opened Groups
  import opened ClassGroup

  function Product(s: seq<int>): int {
    if s == [] then 1 else Product(s[..|s| - 1]) * s[|s| - 1]
  }

  lemma {:induction false} ProductConcat(s: seq<int>, t: seq<int>)
    ensures Product(s + t) == Product(s) * Product(t)
  {
    if t == [] {
      assert s + t == s;
    } else {
      var u := t[..|t| - 1];
      assert (s + t)[..|s + t| - 1] == s + u;
      ProductConcat(s, u);
      assert Product(s) * (Product(u) * t[|t| - 1]) == (Product(s) * Product(u)) * t[|t| - 1];
    }
  }

  /** The product of a finite set, in whatever order it is enumerated. */
  ghost function SetProduct(s: set<int>): int {
    if s == {} then 1 else PickOne(s) * SetProduct(s - {PickOne(s)})
  }

  ghost function PickOne<T>(s: set<T>): T
    requires s != {}
    ensures PickOne(s) in s
  {
    var x :| x in s; x
  }

  lemma {:induction false} SetProductPick(s: set<int>, x: int)
    requires x in s
    ensures SetProduct(s) == x * SetProduct(s - {x})
  {
    var y := PickOne(s);
    if x != y {
      SetProductPick(s - {y}, x);
      SetProductPick(s - {x}, y);
      assert s - {y} - {x} == s - {x} - {y};
      SwapFactors(x, y, SetProduct(s - {x} - {y}));
    }
  }

  lemma {:induction false} SwapFactors(x: int, y: int, r: int)
    ensures y * (x * r) == x * (y * r)
  {
  }

  lemma {:induction false} SetProductInsert(s: set<int>, x: int)
    requires x !in s
    ensures SetProduct(s + {x}) == SetProduct(s) * x
  {
    SetProductPick(s + {x}, x);
    assert s + {x} - {x} == s;
  }

  /** The product of a set, enumerated in any order. */
  method ProductOf(s: set<int>) returns (prod: int)
    ensures prod == SetProduct(s)
  {
    prod := 1;
    var rest := s;
    while rest != {}
      invariant prod * SetProduct(rest) == SetProduct(s)
      decreases |rest|
    {
      var m :| m in rest;
      SetProductPick(rest, m);
      assert (prod * m) * SetProduct(rest - {m}) == prod * (m * SetProduct(rest - {m}));
      prod := prod * m;
      rest := rest - {m};
    }
  }

  ghost function Elements(s: seq<int>): set<int> {
    set x | x in s
  }

  /** The two modes agree: on distinct primes the set mode holds the same product and the
      same size as the counting mode. */
  lemma {:induction false} ModesAgree(s: seq<int>)
    requires Distinct(s)
    ensures SetProduct(Elements(s)) == Product(s) && |Elements(s)| == |s|
  {
    if s != [] {
      var t, x := s[..|s| - 1], s[|s| - 1];
      ModesAgree(t);
      LastElement(s);
      SetProductPick(Elements(s), x);
    } else {
      assert Elements(s) == {};
    }
  }

  lemma {:induction false} LastElement(s: seq<int>)
    requires Distinct(s) && s != []
    ensures var (t, x) := (s[..|s| - 1], s[|s| - 1]);
      Distinct(t) && x in Elements(s) && Elements(s) - {x} == Elements(t) && |Elements(s)| == |Elements(t)| + 1
  {
    var t, x := s[..|s| - 1], s[|s| - 1];
    assert x !in t;
    assert s == t + [x];
    assert Elements(s) == Elements(t) + {x};
  }

  class Accumulator<T(!new,==)> {
    const G: Group<T>
    const valueOnly: bool
    var acc: T
    var members: set<int>
    var count: nat
    /** Every prime folded in so far, in order; only the counting mode relies on it. */
    ghost var log: seq<int>

    ghost predicate Valid()
      reads this
    {
      && Abelian(G)
      && (if valueOnly
          then acc == PowZ(G, G.gen, Product(log)) && count == |log| && members == {}
          else acc == PowZ(G, G.gen, SetProduct(members)))
    }

    constructor (G: Group<T>, valueOnly: bool)
      requires Abelian(G)
      ensures Valid() && this.G == G && this.valueOnly == valueOnly
      ensures acc == G.gen && members == {} && count == 0 && log == []
    {
      this.G, this.valueOnly := G, valueOnly;
      acc, members, count, log := G.gen, {}, 0, [];
      new;
      PowZFirst(G, G.gen);
    }

    method Size() returns (n: nat)
      requires Valid()
      ensures n == if valueOnly then |log| else |members|
    {
      n := if valueOnly then count else |members|;
    }

    /** acc' = acc^p; the member mode refuses a prime it already holds. */
    method Add(p: int) returns (ok: bool)
      requires Valid()
      modifies this
      ensures Valid()
      ensures ok == (valueOnly || p !in old(members))
      ensures !ok ==> acc == old(acc) && members == old(members) && log == old(log)
      ensures ok ==> log == old(log) + [p]
      ensures ok && !valueOnly ==> members == old(members) + {p}
    {
      if valueOnly {
        PowZMul(G, G.gen, Product(log), p);
        acc := Exp(G, acc, p);
        log := log + [p];
        count := count + 1;
        assert log[..|log| - 1] == old(log);
        return true;
      }
      if p in members {
        return false;
      }
      SetProductInsert(members, p);
      PowZMul(G, G.gen, SetProduct(members), p);
      acc := Exp(G, acc, p);
      log := log + [p];
      members := members + {p};
      return true;
    }

    /** One exponentiation by the product of n primes: what n calls of Add would give. */
    method AddBatch(product: int, n: nat, ghost ps: seq<int>)
      requires Valid() && valueOnly
      requires product == Product(ps) && n == |ps|
      modifies this
      ensures Valid() && log == old(log) + ps && members == old(members)
    {
      if n == 0 {
        return;
      }
      PowZMul(G, G.gen, Product(log), product);
      ProductConcat(log, ps);
      acc := Exp(G, acc, product);
      count := count + n;
      log := log + ps;
    }

    /** Removal rebuilds the accumulator without p; it fails exactly on an absent p. */
    method Remove(p: int) returns (ok: bool)
      requires Valid()
      modifies this
      ensures Valid() && ok == (p in old(members)) && members == old(members) - {p}
      ensures ok ==> PowZ(G, acc, p) == old(acc)
      ensures !ok ==> acc == old(acc) && log == old(log)
    {
      if p !in members {
        assert members - {p} == members;
        return false;
      }
      SetProductPick(members, p);
      var prod := ProductOf(members - {p});
      members := members - {p};
      acc := Exp(G, G.gen, prod);
      PowZMul(G, G.gen, prod, p);
      assert prod * p == p * prod;
      return true;
    }

    /** The witness w = g^(product of the others); it exists exactly for a held prime and
        then w^p = acc. */
    method MembershipWitness(p: int) returns (w: Option<T>)
      requires Valid()
      ensures w.Some? <==> p in members
      ensures w.Some? ==> VerifyMembership(G, acc, w.value, p)
    {
      if valueOnly || p !in members {
        return None;
      }
      SetProductPick(members, p);
      var prod := ProductOf(members - {p});
      var v := Exp(G, G.gen, prod);
      PowZMul(G, G.gen, prod, p);
      assert prod * p == p * prod;
      return Some(v);
    }

    /** A Bezout proof that x is absent. A node that keeps its members gets one exactly when x
        is coprime to their product, and it verifies. */
    method ProveNonMembership(x: int) returns (pf: Option<NonMembership<T>>)
      requires Valid()
      ensures pf.Some? <==> Xgcd(SetProduct(members), x).0 == 1
      ensures pf.Some? && !valueOnly ==> VerifyNonMembership(G, acc, x, pf.value)
    {
      var s := ProductOf(members);
      var (g, a, b) := Xgcd(s, x);
      if g != 1 {
        return None;
      }
      var d := Exp(G, G.gen, b);
      NonMembershipComplete(G, s, a, b, x);
      return Some(NonMembership(a, d));
    }
  }

  // -------------------------------------------------------------------- verifiers

  ghost predicate VerifyMembership<T>(G: Group<T>, acc: T, w: T, p: int) {
    PowZ(G, w, p) == acc
  }

  datatype NonMembership<T> = NonMembership(a: int, d: T)

  ghost predicate VerifyNonMembership<T>(G: Group<T>, acc: T, x: int, pf: NonMembership<T>) {
    G.op(PowZ(G, acc, pf.a), PowZ(G, pf.d, x)) == G.gen
  }

  lemma {:induction false} NonMembershipComplete<T(!new)>(G: Group<T>, s: int, a: int, b: int, x: int)
    requires Abelian(G) && s * a + x * b == 1
    ensures VerifyNonMembership(G, PowZ(G, G.gen, s), x, NonMembership(a, PowZ(G, G.gen, b)))
  {
    PowZMul(G, G.gen, s, a);
    PowZMul(G, G.gen, b, x);
    PowZAdd(G, G.gen, s * a, b * x);
    PowZFirst(G, G.gen);
  }

  // ------------------------------------------------- proofs of (knowledge of) exponent

  /** x = q*l + r splits any power, negative exponents included. */
  lemma {:induction false} SplitPower<T(!new)>(G: Group<T>, a: T, x: int, l: int)
    requires Abelian(G) && l > 0
    ensures G.op(PowZ(G, PowZ(G, a, x / l), l), PowZ(G, a, x % l)) == PowZ(G, a, x)
  {
    PowZMul(G, a, x / l, l);
    PowZAdd(G, a, (x / l) * l, x % l);
    assert (x / l) * l + x % l == x;
  }

  /** Wesolowski's proof: the quotient power convinces the verifier for every challenge l. */
  lemma {:induction false} PoEComplete<T(!new)>(G: Group<T>, base: T, exp: int, l: int)
    requires Abelian(G) && l > 0
    ensures VerifyPoE(G, base, PowZ(G, base, exp), exp, ProvePoE(G, base, exp, l), l)
  {
    SplitPower(G, base, exp, l);
  }

  ghost function ProvePoE<T>(G: Group<T>, base: T, exp: int, l: int): T
    requires l > 0
  {
    PowZ(G, base, exp / l)
  }

  ghost predicate VerifyPoE<T>(G: Group<T>, base: T, acc: T, exp: int, q: T, l: int)
    requires l > 0
  {
    G.op(PowZ(G, q, l), PowZ(G, base, exp % l)) == acc
  }

  datatype PoKE2<T> = PoKE2(z: T, q: T, r: int)

  /** l and alpha stand for the two hashes of the transcript. */
  ghost function ProvePoKE2<T>(G: Group<T>, base: T, x: int, l: int, alpha: int): PoKE2<T>
    requires l > 0
  {
    PoKE2(PowZ(G, G.gen, x), PowZ(G, G.op(base, PowZ(G, G.gen, alpha)), x / l), x % l)
  }

  ghost predicate VerifyPoKE2<T>(G: Group<T>, base: T, target: T, pf: PoKE2<T>, l: int, alpha: int) {
    && 0 <= pf.r < l
    && G.op(PowZ(G, pf.q, l), PowZ(G, G.op(base, PowZ(G, G.gen, alpha)), pf.r)) == G.op(target, PowZ(G, pf.z, alpha))
  }

  /** Every honest proof of knowledge of an exponent verifies, for negative exponents too. */
  lemma {:induction false} PoKE2Complete<T(!new)>(G: Group<T>, base: T, x: int, l: int, alpha: int)
    requires Abelian(G) && l > 0
    ensures VerifyPoKE2(G, base, PowZ(G, base, x), ProvePoKE2(G, base, x, l, alpha), l, alpha)
  {
    var g := PowZ(G, G.gen, alpha);
    SplitPower(G, G.op(base, g), x, l);
    PowZOp(G, base, g, x);
    PowZMul(G, G.gen, alpha, x);
    PowZMul(G, G.gen, x, alpha);
    assert alpha * x == x * alpha;
  }

  datatype MultiPoKE<T> = MultiPoKE(z1: T, z2: T, q: T, r1: int, r2: int)

  /** l, a1, a2 stand for the three hashes of the transcript, which prover and verifier share. */
  ghost function ProveMultiPoKE<T>(G: Group<T>, b1: T, b2: T, x1: int, x2: int, l: int, a1: int, a2: int): MultiPoKE<T>
    requires l > 0
  {
    var (q1, q2) := (x1 / l, x2 / l);
    MultiPoKE(PowZ(G, G.gen, x1), PowZ(G, G.gen, x2),
              G.op(G.op(PowZ(G, b1, q1), PowZ(G, b2, q2)), PowZ(G, G.gen, a1 * q1 + a2 * q2)),
              x1 % l, x2 % l)
  }

  ghost predicate VerifyMultiPoKE<T>(G: Group<T>, b1: T, b2: T, t: T, pf: MultiPoKE<T>, l: int, a1: int, a2: int) {
    && 0 <= pf.r1 < l && 0 <= pf.r2 < l
    && G.op(G.op(PowZ(G, pf.q, l), G.op(PowZ(G, b1, pf.r1), PowZ(G, b2, pf.r2))),
            PowZ(G, G.gen, a1 * pf.r1 + a2 * pf.r2))
    == G.op(t, G.op(PowZ(G, pf.z1, a1), PowZ(G, pf.z2, a2)))
  }

  /** Every honest two-exponent proof verifies, for negative exponents and any challenges. */
  lemma {:induction false} MultiPoKEComplete<T(!new)>(G: Group<T>, b1: T, b2: T, x1: int, x2: int, l: int, a1: int,
          a2: int)
    requires Abelian(G) && l > 0
    ensures VerifyMultiPoKE(G, b1, b2, G.op(PowZ(G, b1, x1), PowZ(G, b2, x2)),
                            ProveMultiPoKE(G, b1, b2, x1, x2, l, a1, a2), l, a1, a2)
  {
    BasesPart(G, b1, b2, x1, x2, l);
    GeneratorPart(G, x1, x2, l, a1, a2);
    PairedSplit(G, G.op(PowZ(G, b1, x1 / l), PowZ(G, b2, x2 / l)), PowZ(G, G.gen, a1 * (x1 / l) + a2 * (x2 / l)), l,
                G.op(PowZ(G, b1, x1 % l), PowZ(G, b2, x2 % l)), PowZ(G, G.gen, a1 * (x1 % l) + a2 * (x2 % l)));
  }

  lemma {:induction false} PairedSplit<T(!new)>(G: Group<T>, u: T, v: T, l: int, b: T, c: T)
    requires Abelian(G)
    ensures G.op(G.op(PowZ(G, G.op(u, v), l), b), c) == G.op(G.op(PowZ(G, u, l), b), G.op(PowZ(G, v, l), c))
  {
    PowZOp(G, u, v, l);
    assert Associates(G, G.op(PowZ(G, u, l), PowZ(G, v, l)), b, c);
    Regroup(G, PowZ(G, u, l), PowZ(G, v, l), b, c);
  }

  lemma {:induction false} BasesPart<T(!new)>(G: Group<T>, b1: T, b2: T, x1: int, x2: int, l: int)
    requires Abelian(G) && l > 0
    ensures G.op(PowZ(G, G.op(PowZ(G, b1, x1 / l), PowZ(G, b2, x2 / l)), l),
                 G.op(PowZ(G, b1, x1 % l), PowZ(G, b2, x2 % l)))
         == G.op(PowZ(G, b1, x1), PowZ(G, b2, x2))
  {
    var p1, p2 := PowZ(G, b1, x1 / l), PowZ(G, b2, x2 / l);
    PowZOp(G, p1, p2, l);
    Regroup(G, PowZ(G, p1, l), PowZ(G, p2, l), PowZ(G, b1, x1 % l), PowZ(G, b2, x2 % l));
    SplitPower(G, b1, x1, l);
    SplitPower(G, b2, x2, l);
  }

  lemma {:induction false} GeneratorPart<T(!new)>(G: Group<T>, x1: int, x2: int, l: int, a1: int, a2: int)
    requires Abelian(G) && l > 0
    ensures G.op(PowZ(G, PowZ(G, G.gen, a1 * (x1 / l) + a2 * (x2 / l)), l),
                 PowZ(G, G.gen, a1 * (x1 % l) + a2 * (x2 % l)))
         == G.op(PowZ(G, PowZ(G, G.gen, x1), a1), PowZ(G, PowZ(G, G.gen, x2), a2))
  {
    var (q1, q2, r1, r2) := (x1 / l, x2 / l, x1 % l, x2 % l);
    PowZMul(G, G.gen, a1 * q1 + a2 * q2, l);
    PowZAdd(G, G.gen, (a1 * q1 + a2 * q2) * l, a1 * r1 + a2 * r2);
    ExponentIdentity(a1, a2, q1, q2, r1, r2, l);
    assert q1 * l + r1 == x1 && q2 * l + r2 == x2;
    PowZMul(G, G.gen, x1, a1);
    PowZMul(G, G.gen, x2, a2);
    PowZAdd(G, G.gen, x1 * a1, x2 * a2);
  }

  lemma {:induction false} ExponentIdentity(a1: int, a2: int, q1: int, q2: int, r1: int, r2: int, l: int)
    ensures (a1 * q1 + a2 * q2) * l + (a1 * r1 + a2 * r2) == (q1 * l + r1) * a1 + (q2 * l + r2) * a2
  {
  }

  /** Blinding the witness by h^s is undone by the exponent -s*p. */
  lemma {:induction false} BlindedWitness<T(!new)>(G: Group<T>, h: T, p: int, w: T, s: int)
    requires Abelian(G)
    ensures G.op(PowZ(G, G.op(w, PowZ(G, h, s)), p), PowZ(G, h, -(s * p))) == PowZ(G, w, p)
  {
    PowZOp(G, w, PowZ(G, h, s), p);
    PowZMul(G, h, s, p);
    PowZInverse(G, h, s * p);
    Undo(G, PowZ(G, w, p), PowZ(G, h, s * p));
  }

  /** The witness-hiding proof: blinding w by h^s and opening with -s*p always verifies. */
  lemma {:induction false} ZKMembershipComplete<T(!new)>(G: Group<T>, h: T, acc: T, p: int, w: T, s: int, l: int,
          a1: int, a2: int)
    requires Abelian(G) && l > 0 && VerifyMembership(G, acc, w, p)
    ensures VerifyMultiPoKE(G, G.op(w, PowZ(G, h, s)), h, acc,
                            ProveMultiPoKE(G, G.op(w, PowZ(G, h, s)), h, p, -(s * p), l, a1, a2), l, a1, a2)
  {
    BlindedWitness(G, h, p, w, s);
    MultiPoKEComplete(G, G.op(w, PowZ(G, h, s)), h, p, -(s * p), l, a1, a2);
  }

  // ------------------------------------------------------------------- what proofs rule out

  /** A membership and a non-membership proof for one exponent give a root of the generator. */
  lemma {:induction false} BothProofsRoot<T(!new)>(G: Group<T>, acc: T, w: T, p: int, pf: NonMembership<T>)
    requires Abelian(G) && VerifyMembership(G, acc, w, p) && VerifyNonMembership(G, acc, p, pf)
    ensures PowZ(G, G.op(PowZ(G, w, pf.a), pf.d), p) == G.gen
  {
    PowZOp(G, PowZ(G, w, pf.a), pf.d, p);
    PowZMul(G, w, pf.a, p);
    PowZMul(G, w, p, pf.a);
    assert pf.a * p == p * pf.a;
  }

  /** A witness for an exponent that is coprime to what was accumulated gives a root of the generator. */
  lemma {:induction false} FalseMembership<T(!new)>(G: Group<T>, s: int, w: T, p: int, a: int, b: int)
    requires Abelian(G) && s * a + p * b == 1 && VerifyMembership(G, PowZ(G, G.gen, s), w, p)
    ensures PowZ(G, G.op(PowZ(G, w, a), PowZ(G, G.gen, b)), p) == G.gen
  {
    NonMembershipComplete(G, s, a, b, p);
    BothProofsRoot(G, PowZ(G, G.gen, s), w, p, NonMembership(a, PowZ(G, G.gen, b)));
  }

  /** So does a proof that an accumulated exponent is absent. */
  lemma {:induction false} FalseAbsence<T(!new)>(G: Group<T>, k: int, p: int, pf: NonMembership<T>)
    requires Abelian(G) && VerifyNonMembership(G, PowZ(G, G.gen, k * p), p, pf)
    ensures PowZ(G, G.op(PowZ(G, PowZ(G, G.gen, k), pf.a), pf.d), p) == G.gen
  {
    PowZMul(G, G.gen, k, p);
    BothProofsRoot(G, PowZ(G, G.gen, k * p), PowZ(G, G.gen, k), p, pf);
  }

  lemma {:induction false} MoveOver<T(!new)>(G: Group<T>, a: T, b: T, c: T, k: int)
    requires Abelian(G)
    ensures G.op(a, PowZ(G, b, k)) == c <==> a == G.op(c, PowZ(G, b, -k))
  {
    PowZInverse(G, b, k);
    Undo(G, a, PowZ(G, b, k));
    PowZInverse(G, b, -k);
    Undo(G, c, PowZ(G, b, -k));
  }

  /** The verifier of exponentiation accepts exactly the roots of what is claimed in excess: a false claim is
      accepted only by someone who takes an l-th root of an element that is not one. */
  lemma {:induction false} PoERoot<T(!new)>(G: Group<T>, base: T, acc: T, exp: int, q: T, l: int)
    requires Abelian(G) && l > 0
    ensures var excess := G.op(acc, PowZ(G, base, -exp));
      VerifyPoE(G, base, acc, exp, q, l) <==> PowZ(G, G.op(q, PowZ(G, base, -(exp / l))), l) == excess
  {
    RootShift(G, base, acc, exp, q, l, exp % l);
  }

  lemma {:induction false} RootShift<T(!new)>(G: Group<T>, base: T, acc: T, exp: int, q: T, l: int, r: int)
    requires Abelian(G) && l > 0 && r == exp % l
    ensures G.op(PowZ(G, q, l), PowZ(G, base, r)) == acc <==>
            PowZ(G, G.op(q, PowZ(G, base, -(exp / l))), l) == G.op(acc, PowZ(G, base, -exp))
  {
    var k := exp / l;
    PowZOp(G, q, PowZ(G, base, -k), l);
    PowZMul(G, base, -k, l);
    assert (-k) * l == -(k * l) && exp == k * l + r;
    MoveOver(G, PowZ(G, q, l), base, acc, r);
    PowZAdd(G, base, -r, -(k * l));
    var a, b, c := PowZ(G, q, l), PowZ(G, base, -r), PowZ(G, base, -(k * l));
    assert Associates(G, acc, b, c);
    SameFactor(G, a, G.op(acc, b), c);
  }

  lemma {:induction false} SameFactor<T(!new)>(G: Group<T>, a: T, b: T, c: T)
    requires Abelian(G)
    ensures a == b <==> G.op(a, c) == G.op(b, c)
  {
    Undo(G, a, c);
    Undo(G, b, c);
  }

  /** The same for the proof of knowledge, of someone who committed to the exponent x and answers with its
      residue: what target has beyond base^x is an l-th power. */
  lemma {:induction false} PoKE2Root<T(!new)>(G: Group<T>, base: T, target: T, x: int, q: T, l: int, alpha: int)
    requires Abelian(G) && l > 0
    ensures var (bg, excess) := (G.op(base, PowZ(G, G.gen, alpha)), G.op(target, PowZ(G, base, -x)));
      VerifyPoKE2(G, base, target, PoKE2(PowZ(G, G.gen, x), q, x % l), l, alpha) <==>
      PowZ(G, G.op(q, PowZ(G, bg, -(x / l))), l) == excess
  {
    var g := PowZ(G, G.gen, alpha);
    var bg := G.op(base, g);
    RootShift(G, bg, G.op(target, PowZ(G, PowZ(G, G.gen, x), alpha)), x, q, l, x % l);
    PowZOp(G, base, g, -x);
    PowZMul(G, G.gen, alpha, -x);
    PowZMul(G, G.gen, x, alpha);
    assert alpha * (-x) == -(x * alpha);
    PowZInverse(G, G.gen, x * alpha);
    Shuffled(G, target, PowZ(G, G.gen, x * alpha), PowZ(G, base, -x), PowZ(G, G.gen, -(x * alpha)));
  }

  lemma {:induction false} Shuffled<T(!new)>(G: Group<T>, t: T, u: T, b: T, v: T)
    requires Abelian(G) && v == G.inv(u)
    ensures G.op(G.op(t, u), G.op(b, v)) == G.op(t, b)
  {
    Regroup(G, t, u, b, v);
    Undo(G, G.op(t, b), u);
    assert Associates(G, G.op(t, b), u, v);
  }

  lemma {:induction false} Ratio<T(!new)>(G: Group<T>, a: T, b: T, w: T, z: T, c: T, d: T)
    requires Abelian(G) && G.op(a, w) == G.op(b, z)
    ensures G.op(c, w) == G.op(d, z) <==> G.op(c, G.inv(a)) == G.op(d, G.inv(b))
  {
    var y := G.op(a, w);
    CrossOut(G, a, w, y);
    CrossOut(G, b, z, y);
    Quotients(G, c, a, y);
    Quotients(G, d, b, y);
    SameFactor(G, G.op(c, G.inv(a)), G.op(d, G.inv(b)), y);
  }

  /** w is y without a. */
  lemma {:induction false} CrossOut<T(!new)>(G: Group<T>, a: T, w: T, y: T)
    requires Abelian(G) && G.op(a, w) == y
    ensures w == G.op(G.inv(a), y)
  {
    assert Commutes(G, a, w) && Commutes(G, y, G.inv(a));
    Undo(G, w, a);
  }

  lemma {:induction false} Quotients<T(!new)>(G: Group<T>, c: T, a: T, y: T)
    requires Abelian(G)
    ensures G.op(c, G.op(G.inv(a), y)) == G.op(G.op(c, G.inv(a)), y)
  {
    assert Associates(G, c, G.inv(a), y);
  }

  /** The two-exponent verifier, against commitments to x1 and x2 and their residues: it accepts exactly the
      l-th roots, shifted, of what the target has in excess of the two powers. */
  lemma {:induction false} MultiPoKERoot<T(!new)>(G: Group<T>, b1: T, b2: T, t: T, x1: int, x2: int, q: T, l: int,
          a1: int, a2: int)
    requires Abelian(G) && l > 0
    ensures var (honest, power) := (ProveMultiPoKE(G, b1, b2, x1, x2, l, a1, a2), G.op(PowZ(G, b1, x1), PowZ(G, b2,
          x2)));
      VerifyMultiPoKE(G, b1, b2, t, honest.(q := q), l, a1, a2) <==>
      PowZ(G, G.op(q, G.inv(honest.q)), l) == G.op(t, G.inv(power))
  {
    var honest, power := ProveMultiPoKE(G, b1, b2, x1, x2, l, a1, a2), G.op(PowZ(G, b1, x1), PowZ(G, b2, x2));
    MultiPoKEComplete(G, b1, b2, x1, x2, l, a1, a2);
    var r, g := G.op(PowZ(G, b1, honest.r1), PowZ(G, b2, honest.r2)), PowZ(G, G.gen, a1 * honest.r1 + a2 * honest.r2);
    var z := G.op(PowZ(G, honest.z1, a1), PowZ(G, honest.z2, a2));
    assert Associates(G, PowZ(G, honest.q, l), r, g) && Associates(G, PowZ(G, q, l), r, g);
    Ratio(G, PowZ(G, honest.q, l), power, G.op(r, g), z, PowZ(G, q, l), t);
    PowZOp(G, q, G.inv(honest.q), l);
    InversePower(G, honest.q, l);
  }

  lemma {:induction false} InversePower<T(!new)>(G: Group<T>, a: T, l: int)
    requires Abelian(G)
    ensures PowZ(G, G.inv(a), l) == G.inv(PowZ(G, a, l))
  {
    PowZInverse(G, a, 1);
    PowZFirst(G, a);
    PowZMul(G, a, -1, l);
    assert (-1) * l == -l;
    PowZInverse(G, a, l);
  }
}
