/** Which low-order parts a ring may carry: the exact condition, on the ring and the spender's place alone,
    under which honest anonymous spends never fail. */
module RingDrift {
  import opened Bits
  import opened Selectors
  import opened Curves
  import opened AnonSpend
  import opened AnonSpendLoops
  import opened TwistedRings

  // ------------------------------------------------------------------ bits against the hidden index

  predicate Differ(i: nat, l: nat, k: nat) {
    Bit(i, k) != Bit(l, k)
  }

  /** In how many of the first m bits two indices differ. */
  function Distance(i: nat, l: nat, m: nat): (d: nat)
    ensures d <= m
  {
    if m == 0 then 0 else Distance(i, l, m - 1) + if Differ(i, l, m - 1) then 1 else 0
  }

  /** Wherever j differs from l, i does too. */
  ghost predicate Inside(j: nat, i: nat, l: nat, m: nat) {
    forall k :: 0 <= k < m && Differ(j, l, k) ==> Differ(i, l, k)
  }

  lemma {:induction false} BitIsBinary(i: nat, k: nat)
    ensures Bit(i, k) == 0 || Bit(i, k) == 1
  {
  }

  /** The index that differs from l in every one of m bits. */
  function Opposite(l: nat, m: nat): nat
    requires l < Exp2(m)
  {
    Exp2(m) - 1 - l
  }

  lemma {:induction false} OppositeShr(l: nat, m: nat, k: nat)
    requires l < Exp2(m) && k <= m
    ensures Shr(l, k) < Exp2(m - k) && Shr(Opposite(l, m), k) == Exp2(m - k) - 1 - Shr(l, k)
  {
    if k > 0 {
      OppositeShr(l, m, k - 1);
      assert Exp2(m - (k - 1)) == 2 * Exp2(m - k);
    }
  }

  lemma {:induction false} OppositeDiffers(l: nat, m: nat, k: nat)
    requires l < Exp2(m) && k < m
    ensures Differ(Opposite(l, m), l, k)
  {
    OppositeShr(l, m, k);
    assert Exp2(m - k) == 2 * Exp2(m - k - 1);
    OddFlip(Exp2(m - k - 1), Shr(l, k));
  }

  lemma {:induction false} OddFlip(h: nat, s: nat)
    requires s < 2 * h
    ensures (2 * h - 1 - s) % 2 != s % 2
  {
  }

  /** Indices below 2^m with the same m bits are equal. */
  lemma {:induction false} SameBits(i: nat, j: nat, m: nat)
    requires i < Exp2(m) && j < Exp2(m) && Agree(i, j, m)
    ensures i == j
  {
    ShrSmall(i, m);
    ShrSmall(j, m);
    AgreeingTails(i, j, m, 0);
  }

  /** Only the opposite index differs everywhere. */
  lemma {:induction false} FullDistance(i: nat, l: nat, m: nat)
    requires i < Exp2(m) && l < Exp2(m)
    ensures Distance(i, l, m) == m <==> i == Opposite(l, m)
    ensures Distance(i, l, m) == 0 <==> i == l
  {
    DistanceExtremes(i, l, m);
    if Distance(i, l, m) == m {
      forall k | 0 <= k < m ensures Bit(i, k) == Bit(Opposite(l, m), k) {
        OppositeDiffers(l, m, k);
        assert Differ(i, l, k);
        BitIsBinary(i, k);
        BitIsBinary(l, k);
        BitIsBinary(Opposite(l, m), k);
      }
      SameBits(i, Opposite(l, m), m);
    }
    if i == Opposite(l, m) {
      forall k | 0 <= k < m ensures Differ(i, l, k) { OppositeDiffers(l, m, k); }
    }
    if Distance(i, l, m) == 0 {
      assert Agree(i, l, m) by {
        forall k | 0 <= k < m ensures Bit(i, k) == Bit(l, k) { assert !Differ(i, l, k); }
      }
      SameBits(i, l, m);
    }
  }

  lemma {:induction false} DistanceExtremes(i: nat, l: nat, m: nat)
    ensures Distance(i, l, m) == m <==> forall k :: 0 <= k < m ==> Differ(i, l, k)
    ensures Distance(i, l, m) == 0 <==> forall k :: 0 <= k < m ==> !Differ(i, l, k)
  {
    if m > 0 { DistanceExtremes(i, l, m - 1); }
  }

  /** Inside and not the same means strictly closer to l. */
  lemma {:induction false} InsideCloser(j: nat, i: nat, l: nat, m: nat)
    requires Inside(j, i, l, m)
    ensures Distance(j, l, m) <= Distance(i, l, m)
    ensures Distance(j, l, m) == Distance(i, l, m) ==> forall k :: 0 <= k < m ==> Differ(j, l, k) == Differ(i, l, k)
  {
    if m > 0 {
      assert Inside(j, i, l, m - 1);
      InsideCloser(j, i, l, m - 1);
    }
  }

  lemma {:induction false} InsideStrict(j: nat, i: nat, l: nat, m: nat)
    requires Inside(j, i, l, m) && i != j && i < Exp2(m) && j < Exp2(m)
    ensures Distance(j, l, m) < Distance(i, l, m)
  {
    InsideCloser(j, i, l, m);
    if forall k :: 0 <= k < m ==> Differ(j, l, k) == Differ(i, l, k) {
      forall k | 0 <= k < m ensures Bit(i, k) == Bit(j, k) {
        assert Differ(j, l, k) == Differ(i, l, k);
        BitIsBinary(i, k);
        BitIsBinary(j, k);
        BitIsBinary(l, k);
      }
      SameBits(i, j, m);
    }
  }

  // ------------------------------------------------------------------ masks that single out a member

  /** Zero where i agrees with l, else a sign: all factors but the first differing one become one. */
  function MaskAt(i: nat, l: nat, k: nat): int {
    if !Differ(i, l, k) then 0
    else if (Bit(i, k) == 1) == (Distance(i, l, k) > 0) then 1 else -1
  }

  function Masks(i: nat, l: nat, m: nat): (a: seq<int>)
    ensures |a| == m && forall k :: 0 <= k < m ==> a[k] == MaskAt(i, l, k)
  {
    seq(m, k requires 0 <= k < m => MaskAt(i, l, k))
  }

  /** One coefficient, at one place. */
  ghost predicate Single(p: seq<int>, at: int, c: int) {
    forall k :: 0 <= k < |p| ==> p[k] == if k == at then c else 0
  }

  function Sign(d: nat): int { if d == 0 then 1 else -1 }

  lemma {:induction false} MulLinearAt(p: seq<int>, c0: int, c1: int, k: nat)
    requires p != [] && k <= |p|
    ensures MulLinear(p, c0, c1)[k] == (if k < |p| then p[k] * c0 else 0) + (if k > 0 then p[k - 1] * c1 else 0)
  {
  }

  lemma {:induction false} SingleShift(p: seq<int>, at: int, c: int, c0: int, c1: int)
    requires p != [] && Single(p, at, c) && 0 <= at < |p|
    ensures c0 == 0 && c1 == 1 ==> Single(MulLinear(p, c0, c1), at + 1, c)
    ensures c1 == 0 ==> Single(MulLinear(p, c0, c1), at, c * c0)
  {
    forall k | 0 <= k <= |p|
      ensures c0 == 0 && c1 == 1 ==> MulLinear(p, c0, c1)[k] == if k == at + 1 then c else 0
      ensures c1 == 0 ==> MulLinear(p, c0, c1)[k] == if k == at then c * c0 else 0
    {
      MulLinearAt(p, c0, c1, k);
    }
  }

  /** With the masks of i its own selector is a single power. */
  lemma {:induction false} OwnSelector(i: nat, l: nat, a: seq<int>, m: nat)
    requires m <= |a| && forall k :: 0 <= k < m ==> a[k] == MaskAt(i, l, k)
    ensures Single(Selector(i, l, a, m), m - Distance(i, l, m), Sign(Distance(i, l, m)))
  {
    if m > 0 {
      var k := m - 1;
      OwnSelector(i, l, a, k);
      BitIsBinary(i, k);
      BitIsBinary(l, k);
      SingleShift(Selector(i, l, a, k), k - Distance(i, l, k), Sign(Distance(i, l, k)), Constant(i, a, k), Slope(i,
            l, k));
    }
  }

  /** The selector of a member that differs where i does not vanishes. */
  lemma {:induction false} ForeignSelector(j: nat, i: nat, l: nat, a: seq<int>, m: nat)
    requires m <= |a| && (forall k :: 0 <= k < m ==> a[k] == MaskAt(i, l, k)) && !Inside(j, i, l, m)
    ensures Single(Selector(j, l, a, m), 0, 0)
  {
    var k := m - 1;
    var p := Selector(j, l, a, k);
    BitIsBinary(j, k);
    BitIsBinary(l, k);
    if !Inside(j, i, l, k) {
      ForeignSelector(j, i, l, a, k);
    } else {
      assert Differ(j, l, k) && !Differ(i, l, k);
    }
    ZeroProduct(p, Constant(j, a, k), Slope(j, l, k));
  }

  lemma {:induction false} ZeroProduct(p: seq<int>, c0: int, c1: int)
    requires p != [] && (Single(p, 0, 0) || (c0 == 0 && c1 == 0))
    ensures Single(MulLinear(p, c0, c1), 0, 0)
  {
    forall k | 0 <= k <= |p| ensures MulLinear(p, c0, c1)[k] == 0 {
      MulLinearAt(p, c0, c1, k);
    }
  }

  /** The selector of the opposite member is a constant, whatever the masks. */
  lemma {:induction false} OppositeSelector(i: nat, l: nat, a: seq<int>, m: nat) returns (c: int)
    requires m <= |a| && forall k :: 0 <= k < m ==> Differ(i, l, k)
    ensures Single(Selector(i, l, a, m), 0, c)
  {
    if m == 0 {
      c := 1;
    } else {
      var k := m - 1;
      var before := OppositeSelector(i, l, a, k);
      BitIsBinary(i, k);
      BitIsBinary(l, k);
      assert Differ(i, l, k);
      SingleShift(Selector(i, l, a, k), 0, before, Constant(i, a, k), Slope(i, l, k));
      c := before * Constant(i, a, k);
    }
  }

  lemma {:induction false} EvalSingle(p: seq<int>, at: nat, c: int, x: int)
    requires Single(p, at, c) && at < |p|
    ensures Eval(p, x) == c * Power(x, at)
  {
    var n := |p| - 1;
    assert p == p[..n] + [p[n]];
    EvalSnoc(p[..n], p[n], x);
    if at == n {
      EvalZeros(p[..n], x);
    } else {
      EvalSingle(p[..n], at, c, x);
    }
  }

  lemma {:induction false} EvalZeros(p: seq<int>, x: int)
    requires forall k :: 0 <= k < |p| ==> p[k] == 0
    ensures Eval(p, x) == 0
  {
    if p != [] { EvalZeros(p[1..], x); }
  }

  // ------------------------------------------------------------------ one member left in the sums

  /** A term that vanishes modulo the cofactor. */
  predicate Quiet(q: int, k: int, t: int) {
    Residue(q, k) == 0 || t % 8 == 0
  }

  lemma {:induction false} QuietTerm(q: int, k: int, t: int)
    requires Quiet(q, k, t)
    ensures (Residue(q, k) * t) % 8 == 0
  {
    MulMod(Residue(q, k), t);
  }

  lemma {:induction false} DotQuiet(q: int, ks: seq<int>, ts: seq<int>)
    requires |ks| == |ts| && forall i :: 0 <= i < |ts| ==> Quiet(q, ks[i], ts[i])
    ensures Dot(q, ks, ts) % 8 == 0
  {
    if ks != [] {
      var n := |ks| - 1;
      DotQuiet(q, ks[..n], ts[..n]);
      QuietTerm(q, ks[n], ts[n]);
      AddMod(Dot(q, ks[..n], ts[..n]), Residue(q, ks[n]) * ts[n]);
    }
  }

  /** If all other terms vanish, the sum is the one that is left. */
  lemma {:induction false} DotSingle(q: int, ks: seq<int>, ts: seq<int>, at: nat)
    requires |ks| == |ts| && at < |ts| && forall i :: 0 <= i < |ts| && i != at ==> Quiet(q, ks[i], ts[i])
    ensures Dot(q, ks, ts) % 8 == (Residue(q, ks[at]) * ts[at]) % 8
  {
    var n := |ks| - 1;
    var front, last := Dot(q, ks[..n], ts[..n]), Residue(q, ks[n]) * ts[n];
    assert Dot(q, ks, ts) == front + last;
    if at == n {
      DotQuiet(q, ks[..n], ts[..n]);
      QuietSum(last, front);
    } else {
      DotSingle(q, ks[..n], ts[..n], at);
      QuietTerm(q, ks[n], ts[n]);
      QuietSum(front, last);
    }
  }

  lemma {:induction false} QuietSum(a: int, b: int)
    requires b % 8 == 0
    ensures (a + b) % 8 == a % 8 && (b + a) % 8 == a % 8
  {
  }

  /** Every other member has no low-order part or a vanishing selector. */
  ghost predicate OthersQuiet(ts: seq<int>, l: nat, a: seq<int>, i: nat) {
    forall j :: 0 <= j < |ts| && j != i ==> ts[j] % 8 == 0 || Single(Selector(j, l, a, |a|), 0, 0)
  }

  lemma {:induction false} ResidueOfZero(q: int)
    ensures Residue(q, 0) == 0
  {
  }

  lemma {:induction false} ValueOf(l: nat, a: seq<int>, x: int, n: nat, j: nat, at: nat, c: int)
    requires j < n && at <= |a| && Single(Selector(j, l, a, |a|), at, c)
    ensures Values(Responses(l, a, x), x, n)[j] == c * Power(x, at)
  {
    SelectorEvaluates(j, l, a, x, |a|);
    EvalSingle(Selector(j, l, a, |a|), at, c, x);
  }

  /** The left side: the member's power. */
  lemma {:induction false} LeftSide(q: int, ts: seq<int>, l: nat, a: seq<int>, x: int, i: nat, at: nat, c: int)
    requires i < |ts| && at <= |a| && Single(Selector(i, l, a, |a|), at, c) && OthersQuiet(ts, l, a, i)
    ensures Dot(q, Values(Responses(l, a, x), x, |ts|), ts) % 8 == (Residue(q, c * Power(x, at)) * ts[i]) % 8
  {
    var vs := Values(Responses(l, a, x), x, |ts|);
    ResidueOfZero(q);
    forall j | 0 <= j < |ts| && j != i ensures Quiet(q, vs[j], ts[j]) {
      if ts[j] % 8 != 0 { ValueOf(l, a, x, |ts|, j, 0, 0); }
    }
    ValueOf(l, a, x, |ts|, i, at, c);
    DotSingle(q, vs, ts, i);
  }

  /** The sums of the prover, degree by degree. */
  lemma {:induction false} SumOf(q: int, ts: seq<int>, l: nat, a: seq<int>, i: nat, at: nat, c: int, k: nat)
    requires i < |ts| && k < |a| && Single(Selector(i, l, a, |a|), at, c) && OthersQuiet(ts, l, a, i)
    ensures TwistSums(q, ts, l, a)[k] % 8 == if k == at then (Residue(q, c) * ts[i]) % 8 else 0
  {
    var col := Column(l, a, k, |ts|);
    ResidueOfZero(q);
    forall j | 0 <= j < |ts| && j != i ensures Quiet(q, col[j], ts[j]) {
      assert ts[j] % 8 == 0 || Single(Selector(j, l, a, |a|), 0, 0);
    }
    DotSingle(q, col, ts, i);
    assert col[i] == Selector(i, l, a, |a|)[k];
    if k != at { QuietTerm(q, col[i], ts[i]); }
  }

  lemma {:induction false} RightSide(q: int, ts: seq<int>, l: nat, a: seq<int>, x: int, i: nat, at: nat, c: int)
    requires i < |ts| && at <= |a| && Single(Selector(i, l, a, |a|), at, c) && OthersQuiet(ts, l, a, i)
    ensures Dot(q, Powers(x, |a|), TwistSums(q, ts, l, a)) % 8
         == if at == |a| then 0 else (Residue(q, Power(x, at)) * (Residue(q, c) * ts[i])) % 8
  {
    var ks, sums := Powers(x, |a|), TwistSums(q, ts, l, a);
    forall k | 0 <= k < |a| && k != at ensures Quiet(q, ks[k], sums[k]) {
      SumOf(q, ts, l, a, i, at, c, k);
    }
    if at == |a| {
      DotQuiet(q, ks, sums);
    } else {
      DotSingle(q, ks, sums, at);
      SumOf(q, ts, l, a, i, at, c, at);
      MulMod(Residue(q, Power(x, at)), sums[at]);
      MulMod(Residue(q, Power(x, at)), Residue(q, c) * ts[i]);
    }
  }

  // ------------------------------------------------------------------ the law

  /** Honest spends at place l are in step for all masks and challenges. */
  ghost predicate NeverDrifts(q: int, ts: seq<int>, l: nat, m: nat) {
    forall a: seq<int>, x: int {:trigger Responses(l, a, x)} ::
      |a| == m && 1 <= x < q ==> InStep(q, ts, l, a, Responses(l, a, x), x)
  }

  /** No low-order part except at the opposite place. */
  predicate Harmless(ts: seq<int>, l: nat, m: nat)
    requires l < Exp2(m)
  {
    forall i :: 0 <= i < |ts| && (m == 0 || i != Opposite(l, m)) ==> ts[i] % 8 == 0
  }

  /** The opposite member's selector is a constant, so it never drifts, for any challenge at all. */
  lemma {:induction false} HarmlessInStep(q: int, ts: seq<int>, l: nat, a: seq<int>, x: int)
    requires q > 1 && |ts| == Exp2(|a|) && l < Exp2(|a|) && Harmless(ts, l, |a|)
    ensures InStep(q, ts, l, a, Responses(l, a, x), x)
  {
    var m := |a|;
    if m == 0 {
      NothingDrifts(q, ts, l, a, x);
    } else {
      var i := Opposite(l, m);
      forall k | 0 <= k < m ensures Differ(i, l, k) { OppositeDiffers(l, m, k); }
      var c := OppositeSelector(i, l, a, m);
      ConstantInStep(q, ts, l, a, x, i, c);
    }
  }

  lemma {:induction false} NothingDrifts(q: int, ts: seq<int>, l: nat, a: seq<int>, x: int)
    requires a == [] && forall i :: 0 <= i < |ts| ==> ts[i] % 8 == 0
    ensures InStep(q, ts, l, a, Responses(l, a, x), x)
  {
    DotQuiet(q, Values(Responses(l, a, x), x, |ts|), ts);
    DotQuiet(q, Powers(x, |a|), TwistSums(q, ts, l, a));
  }

  lemma {:induction false} ConstantInStep(q: int, ts: seq<int>, l: nat, a: seq<int>, x: int, i: nat, c: int)
    requires q > 1 && a != [] && i < |ts| && Single(Selector(i, l, a, |a|), 0, c) && OthersQuiet(ts, l, a, i)
    ensures InStep(q, ts, l, a, Responses(l, a, x), x)
  {
    LeftSide(q, ts, l, a, x, i, 0, c);
    RightSide(q, ts, l, a, x, i, 0, c);
    UnitScalar(q, x, c, Residue(q, c) * ts[i]);
  }

  lemma {:induction false} UnitScalar(q: int, x: int, c: int, v: int)
    requires q > 1
    ensures c * Power(x, 0) == c && Residue(q, Power(x, 0)) * v == v
  {
    assert Power(x, 0) == 1 && Residue(q, 1) == 1;
  }

  lemma {:induction false} OddCancels(u: int, t: int)
    requires u % 2 == 1 && (u * t) % 8 == 0
    ensures t % 8 == 0
  {
    MulMod(u, t);
    MulMod(t % 8, u);
    assert u * (t % 8) == (t % 8) * u;
    SmallOdd(u % 8, t % 8);
  }

  lemma {:induction false} SmallOdd(u: int, t: int)
    requires 0 <= u < 8 && u % 2 == 1 && 0 <= t < 8 && (t * u) % 8 == 0
    ensures t == 0
  {
    assert u == 1 || u == 3 || u == 5 || u == 7;
    assert u == 3 ==> (3 * t) % 8 == 0;
  }

  lemma {:induction false} PowerOfTwoIs(e: nat)
    ensures Power(2, e) == Exp2(e)
  {
    if e > 0 { PowerOfTwoIs(e - 1); }
  }

  lemma {:induction false} Exp2Grows(e: nat, m: nat)
    requires e <= m
    ensures 0 < Exp2(e) <= Exp2(m)
  {
    if e < m {
      Exp2Grows(e, m - 1);
    } else if e > 0 {
      Exp2Grows(e - 1, e - 1);
    }
  }

  /** The masks of a member leave only it and those inside it. */
  lemma {:induction false} MasksQuiet(ts: seq<int>, l: nat, i: nat, m: nat)
    requires forall j :: 0 <= j < |ts| && j != i && Inside(j, i, l, m) ==> ts[j] % 8 == 0
    ensures OthersQuiet(ts, l, Masks(i, l, m), i)
  {
    forall j | 0 <= j < |ts| && j != i
      ensures ts[j] % 8 == 0 || Single(Selector(j, l, Masks(i, l, m), m), 0, 0)
    {
      if !Inside(j, i, l, m) { ForeignSelector(j, i, l, Masks(i, l, m), m); }
    }
  }

  /** The spender's own part shows with no masks at all, at challenge one. */
  lemma {:induction false} OwnPartZero(q: int, ts: seq<int>, l: nat, a: seq<int>)
    requires q > 1 && l < |ts| && Single(Selector(l, l, a, |a|), |a|, 1) && OthersQuiet(ts, l, a, l)
    requires InStep(q, ts, l, a, Responses(l, a, 1), 1)
    ensures ts[l] % 8 == 0
  {
    var x := OwnNumbers(q, |a|);
    Balance(q, ts, l, a, x, l, |a|, x, x, x, x);
    Unit(x, ts[l]);
  }

  lemma {:induction false} Unit(x: int, t: int)
    requires x == 1
    ensures x * t == t
  {
  }

  lemma {:induction false} OwnNumbers(q: int, m: nat) returns (x: int)
    requires q > 1
    ensures x == 1 && x == Residue(q, x * Power(x, m)) && x == Residue(q, Power(x, m)) && x == Residue(q, x)
  {
    x := 1;
    PowerOfOne(m);
    assert Residue(q, 1) == 1;
  }

  /** What being in step says of the one member left. */
  lemma {:induction false} Balance(q: int, ts: seq<int>, l: nat, a: seq<int>, x: int, i: nat, at: nat, c: int,
          value: int, power: int, scale: int)
    requires i < |ts| && at <= |a| && Single(Selector(i, l, a, |a|), at, c) && OthersQuiet(ts, l, a, i)
    requires value == Residue(q, c * Power(x, at)) && power == Residue(q, Power(x, at)) && scale == Residue(q, c)
    requires InStep(q, ts, l, a, Responses(l, a, x), x)
    ensures (value * ts[i]) % 8 == if at == |a| then 0 else (power * (scale * ts[i])) % 8
  {
    LeftSide(q, ts, l, a, x, i, at, c);
    RightSide(q, ts, l, a, x, i, at, c);
  }

  lemma {:induction false} PowerOfOne(e: nat)
    ensures Power(1, e) == 1
  {
    if e > 0 { PowerOfOne(e - 1); }
  }

  /** Any other part shows with the masks of its member, at challenge two. */
  lemma {:induction false} OtherPartZero(q: int, ts: seq<int>, l: nat, a: seq<int>, i: nat, e: nat)
    requires q > 2 && q % 2 == 1 && i < |ts| && 0 < e < |a| && Exp2(e) < q
    requires Single(Selector(i, l, a, |a|), e, -1) && OthersQuiet(ts, l, a, i)
    requires InStep(q, ts, l, a, Responses(l, a, 2), 2)
    ensures ts[i] % 8 == 0
  {
    var x, c, p := OtherNumbers(q, e);
    Balance(q, ts, l, a, x, i, e, c, q - p, p, q - 1);
    Unbalanced(q, p, ts[i]);
  }

  lemma {:induction false} OtherNumbers(q: int, e: nat) returns (x: int, c: int, p: int)
    requires q > 2 && e > 0 && Exp2(e) < q
    ensures x == 2 && c == -1 && p % 2 == 0
    ensures q - p == Residue(q, c * Power(x, e)) && p == Residue(q, Power(x, e)) && q - 1 == Residue(q, c)
  {
    x, c, p := 2, -1, Exp2(e);
    PowerOfTwoIs(e);
    Exp2Grows(0, e);
    NegatedResidue(q, p);
    NegatedResidue(q, 1);
    assert c * p == -p;
  }

  lemma {:induction false} NegatedResidue(q: int, p: int)
    requires 0 < p < q
    ensures Residue(q, -p) == q - p && Residue(q, p) == p
  {
    assert -p == q * -1 + (q - p);
    SameWitness(q, -p, q - p, -1);
    Curves.SameResidue(q, -p, q - p);
  }

  /** The two sides differ by an odd multiple of the part. */
  lemma {:induction false} Unbalanced(q: int, p: int, t: int)
    requires q % 2 == 1 && p % 2 == 0 && ((q - p) * t) % 8 == (p * ((q - 1) * t)) % 8
    ensures t % 8 == 0
  {
    var u := q - q * p;
    assert (q - p) * t - p * ((q - 1) * t) == u * t by { SidesDiffer(q, p, t); }
    SameRest((q - p) * t, p * ((q - 1) * t));
    OddDifference(q, p);
    OddCancels(u, t);
  }

  lemma {:induction false} SidesDiffer(q: int, p: int, t: int)
    ensures (q - p) * t - p * ((q - 1) * t) == (q - q * p) * t
  {
  }

  lemma {:induction false} SameRest(a: int, b: int)
    requires a % 8 == b % 8
    ensures (a - b) % 8 == 0
  {
  }

  lemma {:induction false} OddDifference(q: int, p: int)
    requires q % 2 == 1 && p % 2 == 0
    ensures (q - q * p) % 2 == 1
  {
    var h := p / 2;
    assert q * p == 2 * (q * h) by { assert p == 2 * h; }
  }

  /** If spends never drift, a member that is not opposite has no low-order part. */
  lemma {:induction false} PartZero(q: int, ts: seq<int>, l: nat, m: nat, i: nat)
    requires q > 1 && q % 2 == 1 && |ts| == Exp2(m) < q && l < Exp2(m) && NeverDrifts(q, ts, l, m)
    requires i < |ts| && (m == 0 || i != Opposite(l, m))
    ensures ts[i] % 8 == 0
    decreases Distance(i, l, m)
  {
    var a, d := Masks(i, l, m), Distance(i, l, m);
    FullDistance(i, l, m);
    forall j | 0 <= j < |ts| && j != i && Inside(j, i, l, m) ensures ts[j] % 8 == 0 {
      InsideStrict(j, i, l, m);
      FullDistance(j, l, m);
      PartZero(q, ts, l, m, j);
    }
    MasksQuiet(ts, l, i, m);
    OwnSelector(i, l, a, m);
    if d == 0 {
      assert InStep(q, ts, l, a, Responses(l, a, 1), 1);
      OwnPartZero(q, ts, l, a);
    } else {
      Exp2Grows(m - d, m);
      Exp2Grows(1, m);
      assert InStep(q, ts, l, a, Responses(l, a, 2), 2);
      OtherPartZero(q, ts, l, a, i, m - d);
    }
  }

  /** Honest spends at a place never drift, whatever the masks and the challenge, exactly when no member
      but the one at the opposite place has a low-order part. */
  lemma {:induction false} DriftLaw(q: int, ts: seq<int>, l: nat, m: nat)
    requires q > 1 && q % 2 == 1 && |ts| == Exp2(m) < q && l < Exp2(m)
    ensures NeverDrifts(q, ts, l, m) <==> Harmless(ts, l, m)
  {
    if NeverDrifts(q, ts, l, m) {
      forall i | 0 <= i < |ts| && (m == 0 || i != Opposite(l, m)) ensures ts[i] % 8 == 0 {
        PartZero(q, ts, l, m, i);
      }
    }
    if Harmless(ts, l, m) {
      forall a: seq<int>, x: int | |a| == m && 1 <= x < q ensures InStep(q, ts, l, a, Responses(l, a, x), x) {
        HarmlessInStep(q, ts, l, a, x);
      }
    }
  }

  // ------------------------------------------------------------------ honest proofs

  lemma {:induction false} DotSame(q: int, ks: seq<int>, js: seq<int>, ts: seq<int>)
    requires q > 0 && |ks| == |ts| && SameList(q, ks, js)
    ensures Dot(q, ks, ts) == Dot(q, js, ts)
  {
    if ks != [] {
      var n := |ks| - 1;
      DotSame(q, ks[..n], js[..n], ts[..n]);
      Curves.SameResidue(q, ks[n], js[n]);
    }
  }

  /** Responses count up to the order only. */
  lemma {:induction false} SameStep(q: int, ts: seq<int>, l: nat, a: seq<int>, f: seq<int>, x: int)
    requires q > 0 && SameList(q, f, Responses(l, a, x))
    ensures InStep(q, ts, l, a, f, x) <==> InStep(q, ts, l, a, Responses(l, a, x), x)
  {
    var g := Responses(l, a, x);
    forall i | 0 <= i < |ts| ensures Same(q, Values(f, x, |ts|)[i], Values(g, x, |ts|)[i]) {
      SameSelectorValue(q, i, f, g, x, |f|);
    }
    DotSame(q, Values(f, x, |ts|), Values(g, x, |ts|), ts);
  }

  lemma {:induction false} HonestResponses<P>(C: Curve<P>, own: seq<Twisted<P>>, val: seq<Twisted<P>>, l: nat,
          sk: int, d: int, rnd: Randomness, hash: Transcript<Twisted<P>> -> int, pf: Proof<Twisted<P>>, T: Twisted<P>)
    requires C.q > 0 && IsHonest(Full(C), own, val, l, sk, d, rnd, hash, pf, T)
    ensures SameList(C.q, pf.f, Responses(l, Draw(rnd.a, pf.m), hash(TranscriptOf(T, pf))))
  {
    var x := hash(TranscriptOf(T, pf));
    forall j | 0 <= j < pf.m ensures Same(C.q, pf.f[j], Responses(l, Draw(rnd.a, pf.m), x)[j]) {
      assert HonestBit(Full(C), l, rnd, pf, x, j);
    }
  }

  /** Both rings carry no low-order part but at the place opposite to the spender's. */
  predicate BothHarmless<P>(own: seq<Twisted<P>>, val: seq<Twisted<P>>, l: nat, m: nat)
    requires l < Exp2(m)
  {
    Harmless(Twists(own), l, m) && Harmless(Twists(val), l, m)
  }

  /** On harmless rings an honest proof is accepted exactly when the secret is not zero. */
  lemma {:induction false} HarmlessAccepted<P(!new)>(C: Curve<P>, own: seq<Twisted<P>>, val: seq<Twisted<P>>, l: nat,
          sk: int, d: int, rnd: Randomness, hash: Transcript<Twisted<P>> -> int, pf: Proof<Twisted<P>>, T: Twisted<P>)
    requires PrimeOrder(C) && IsHonest(Full(C), own, val, l, sk, d, rnd, hash, pf, T)
    requires own[l].p == C.act(sk, C.G) && val[l].p == C.act(d, C.G) && BothHarmless(own, val, l, pf.m)
    ensures Accepts(Full(C), own, val, T, pf, hash) <==> sk % C.q != 0
  {
    var x, a := hash(TranscriptOf(T, pf)), Draw(rnd.a, pf.m);
    FullCompleteness(C, own, val, l, sk, d, rnd, hash, pf, T);
    HonestResponses(C, own, val, l, sk, d, rnd, hash, pf, T);
    SameStep(C.q, Twists(own), l, a, pf.f, x);
    SameStep(C.q, Twists(val), l, a, pf.f, x);
    HarmlessInStep(C.q, Twists(own), l, a, x);
    HarmlessInStep(C.q, Twists(val), l, a, x);
  }

  /** Prover and verifier end to end on rings with any low-order parts: what the run decides, and what the
      rings decide beforehand. */
  method FullProveThenVerify<P(!new,==)>(C: Curve<P>, own: seq<Twisted<P>>, val: seq<Twisted<P>>, l: nat, sk: int,
          d: int, rnd: Randomness, hash: Transcript<Twisted<P>> -> int)
    returns (ok: bool, pf: Proof<Twisted<P>>, T: Twisted<P>)
    requires PrimeOrder(C) && PowerOfTwo(|own|) && |val| == |own| && l < |own|
    requires own[l].p == C.act(sk, C.G) && val[l].p == C.act(d, C.G)
    ensures var (x, a) := (hash(TranscriptOf(T, pf)), Draw(rnd.a, pf.m));
      ok <==> && sk % C.q != 0 && InStep(C.q, Twists(own), l, a, pf.f, x)
              && InStep(C.q, Twists(val), l, a, pf.f, x)
    ensures BothHarmless(own, val, l, TrailingZeros(|own|)) ==> (ok <==> sk % C.q != 0)
  {
    FullScalars(C);
    var r := ProveAnonSpend(Full(C), own, val, l, sk, d, rnd, hash);
    pf, T := r.value.0, r.value.1;
    FullCompleteness(C, own, val, l, sk, d, rnd, hash, pf, T);
    TrailingZerosOfPower(pf.m);
    if BothHarmless(own, val, l, pf.m) {
      HarmlessAccepted(C, own, val, l, sk, d, rnd, hash, pf, T);
    }
    ok := VerifyAnonSpend(Full(C), own, val, T, pf, hash);
  }

  // ------------------------------------------------------------------ every run of a spender

  function HonestTranscript<P>(C: Curve<P>, own: seq<P>, val: seq<P>, l: nat, sk: int, rnd: Randomness,
          m: nat): Transcript<P> {
    var a, rhoO, rhoV := Draw(rnd.a, m), Draw(rnd.rhoO, m), Draw(rnd.rhoV, m);
    Transcript(
      C.act(sk, C.U),
      seq(m, j requires 0 <= j < m => Commit(C, Bit(l, j), rnd.rl(j))),
      seq(m, j requires 0 <= j < m => Commit(C, rnd.a(j), rnd.ra(j))),
      seq(m, j requires 0 <= j < m => Commit(C, Bit(l, j) * rnd.a(j), rnd.rb(j))),
      Pointwise(C, Sums(C, own, l, a, |own|), Multiples(C, rhoO, m, C.G)),
      Multiples(C, rhoO, m, C.U),
      Pointwise(C, Sums(C, val, l, a, |val|), Multiples(C, rhoV, m, C.G)))
  }

  /** The proof that randomness and challenge determine. */
  function HonestProof<P>(C: Curve<P>, t: Transcript<P>, l: nat, sk: int, d: int, rnd: Randomness, x: int,
          m: nat): Proof<P> {
    var a := Draw(rnd.a, m);
    var f := Responses(l, a, x);
    Proof(m, t.cl, t.ca, t.cb, t.cdO, t.cdt, t.cdV, f,
          seq(m, j requires 0 <= j < m => rnd.rl(j) * x + rnd.ra(j)),
          seq(m, j requires 0 <= j < m => rnd.rl(j) * (x - (Bit(l, j) * x + rnd.a(j))) + rnd.rb(j)),
          FinalResponse(sk, Draw(rnd.rhoO, m), x), FinalResponse(d, Draw(rnd.rhoV, m), x))
  }

  lemma {:induction false} HonestExists<P>(C: Curve<P>, own: seq<P>, val: seq<P>, l: nat, sk: int, d: int,
          rnd: Randomness, hash: Transcript<P> -> int, m: nat)
    returns (pf: Proof<P>, T: P)
    requires C.q > 0 && |own| == |val| == Exp2(m) && l < |own|
    ensures IsHonest(C, own, val, l, sk, d, rnd, hash, pf, T) && pf.m == m
  {
    var t := HonestTranscript(C, own, val, l, sk, rnd, m);
    var x := hash(t);
    T, pf := t.tag, HonestProof(C, t, l, sk, d, rnd, x, m);
    assert TranscriptOf(T, pf) == t;
    forall j | 0 <= j < m ensures HonestBit(C, l, rnd, pf, x, j) {
      ReducedIsSame(C.q, pf.f[j]);
      ReducedIsSame(C.q, pf.za[j]);
      ReducedIsSame(C.q, pf.zb[j]);
    }
    ReducedIsSame(C.q, pf.zdO);
    ReducedIsSame(C.q, pf.zdV);
  }

  /** Whatever the randomness and the challenge function, the spender's honest proof is accepted. */
  ghost predicate AlwaysAccepted<P(!new)>(C: Curve<P>, own: seq<Twisted<P>>, val: seq<Twisted<P>>, l: nat, sk: int,
          d: int)
    requires C.q > 0
  {
    forall rnd: Randomness, hash: Transcript<Twisted<P>> -> int, pf: Proof<Twisted<P>>, T: Twisted<P> ::
      IsHonest(Full(C), own, val, l, sk, d, rnd, hash, pf, T) ==> Accepts(Full(C), own, val, T, pf, hash)
  }

  function Masked(a: seq<int>): Randomness {
    var zero: nat -> int := _ => 0;
    Randomness((j: nat) => if j < |a| then a[j] else 0, zero, zero, zero, zero, zero)
  }

  lemma {:induction false} MaskedDraws(a: seq<int>)
    ensures Draw(Masked(a).a, |a|) == a
  {
  }

  /** One mask and one challenge, taken up by an honest run. */
  lemma {:induction false} AcceptedInStep<P(!new)>(C: Curve<P>, own: seq<Twisted<P>>, val: seq<Twisted<P>>, l: nat,
          sk: int, d: int, a: seq<int>, x: int)
    requires PrimeOrder(C) && |own| == |val| == Exp2(|a|) && l < |own|
    requires own[l].p == C.act(sk, C.G) && val[l].p == C.act(d, C.G) && AlwaysAccepted(C, own, val, l, sk, d)
    ensures sk % C.q != 0
    ensures InStep(C.q, Twists(own), l, a, Responses(l, a, x), x)
    ensures InStep(C.q, Twists(val), l, a, Responses(l, a, x), x)
  {
    var rnd, hash := Masked(a), (_: Transcript<Twisted<P>>) => x;
    var pf, T := HonestExists(Full(C), own, val, l, sk, d, rnd, hash, |a|);
    MaskedDraws(a);
    FullCompleteness(C, own, val, l, sk, d, rnd, hash, pf, T);
    HonestResponses(C, own, val, l, sk, d, rnd, hash, pf, T);
    SameStep(C.q, Twists(own), l, a, pf.f, x);
    SameStep(C.q, Twists(val), l, a, pf.f, x);
  }

  /** Honest spends from a place are accepted for all randomness and every challenge function exactly when
      the secret is not zero and no member of either ring but the opposite one has a low-order part. */
  lemma {:induction false} AcceptanceLaw<P(!new)>(C: Curve<P>, own: seq<Twisted<P>>, val: seq<Twisted<P>>, l: nat,
          sk: int, d: int, m: nat)
    requires PrimeOrder(C) && |own| == |val| == Exp2(m) < C.q && l < |own|
    requires own[l].p == C.act(sk, C.G) && val[l].p == C.act(d, C.G)
    ensures AlwaysAccepted(C, own, val, l, sk, d) <==> sk % C.q != 0 && BothHarmless(own, val, l, m)
  {
    if AlwaysAccepted(C, own, val, l, sk, d) {
      forall a: seq<int>, x: int | |a| == m
        ensures sk % C.q != 0
        ensures InStep(C.q, Twists(own), l, a, Responses(l, a, x), x)
        ensures InStep(C.q, Twists(val), l, a, Responses(l, a, x), x)
      {
        AcceptedInStep(C, own, val, l, sk, d, a, x);
      }
      AcceptedInStep(C, own, val, l, sk, d, seq(m, _ => 0), 1);
      DriftLaw(C.q, Twists(own), l, m);
      DriftLaw(C.q, Twists(val), l, m);
    }
    if sk % C.q != 0 && BothHarmless(own, val, l, m) {
      forall rnd: Randomness, hash: Transcript<Twisted<P>> -> int, pf: Proof<Twisted<P>>, T: Twisted<P>
        | IsHonest(Full(C), own, val, l, sk, d, rnd, hash, pf, T)
        ensures Accepts(Full(C), own, val, T, pf, hash)
      {
        SameDepth(pf.m, m);
        HarmlessAccepted(C, own, val, l, sk, d, rnd, hash, pf, T);
      }
    }
  }

  lemma {:induction false} SameDepth(j: nat, k: nat)
    requires Exp2(j) == Exp2(k)
    ensures j == k
  {
    TrailingZerosOfPower(j);
    TrailingZerosOfPower(k);
  }
}
