/** The selector polynomials of the one-of-many proof over the integers: p_i is built by
    repeated multiplication with a linear factor, one per bit of the index. */
module Selectors {
  import opened Bits

  function Power(x: int, k: nat): int {
    if k == 0 then 1 else Power(x, k - 1) * x
  }

  /** Coefficients low to high, Horner. */
  function Eval(p: seq<int>, x: int): int {
    if p == [] then 0 else p[0] + x * Eval(p[1..], x)
  }

  function Scale(p: seq<int>, c: int): seq<int> {
    seq(|p|, i requires 0 <= i < |p| => p[i] * c)
  }

  function Plus(p: seq<int>, r: seq<int>): seq<int>
    requires |p| == |r|
  {
    seq(|p|, i requires 0 <= i < |p| => p[i] + r[i])
  }

  /** p(x) * (c0 + c1*x). */
  function MulLinear(p: seq<int>, c0: int, c1: int): seq<int> {
    Plus(Scale(p, c0) + [0], [0] + Scale(p, c1))
  }

  lemma {:induction false} EvalScale(p: seq<int>, c: int, x: int)
    ensures Eval(Scale(p, c), x) == Eval(p, x) * c
  {
    if p != [] {
      EvalScale(p[1..], c, x);
      assert Scale(p, c)[1..] == Scale(p[1..], c);
      ScaleStep(p[0], c, x, Eval(p[1..], x));
    }
  }

  lemma {:induction false} ScaleStep(a: int, c: int, x: int, e: int)
    ensures a * c + x * (e * c) == (a + x * e) * c
  {
  }

  lemma {:induction false} EvalPlus(p: seq<int>, r: seq<int>, x: int)
    requires |p| == |r|
    ensures Eval(Plus(p, r), x) == Eval(p, x) + Eval(r, x)
  {
    if p != [] {
      EvalPlus(p[1..], r[1..], x);
      assert Plus(p, r)[1..] == Plus(p[1..], r[1..]);
      assert x * (Eval(p[1..], x) + Eval(r[1..], x)) == x * Eval(p[1..], x) + x * Eval(r[1..], x);
    }
  }

  /** The last coefficient contributes its power. */
  lemma {:induction false} EvalSnoc(p: seq<int>, c: int, x: int)
    ensures Eval(p + [c], x) == Eval(p, x) + c * Power(x, |p|)
  {
    if p == [] {
      assert (p + [c])[1..] == [];
    } else {
      EvalSnoc(p[1..], c, x);
      assert (p + [c])[1..] == p[1..] + [c];
      SnocStep(x, Eval(p[1..], x), c, Power(x, |p| - 1));
    }
  }

  lemma {:induction false} SnocStep(x: int, e: int, c: int, w: int)
    ensures x * (e + c * w) == x * e + c * (w * x)
  {
  }

  lemma {:induction false} EvalMulLinear(p: seq<int>, c0: int, c1: int, x: int)
    ensures Eval(MulLinear(p, c0, c1), x) == Eval(p, x) * (c0 + c1 * x)
  {
    EvalPlus(Scale(p, c0) + [0], [0] + Scale(p, c1), x);
    EvalSnoc(Scale(p, c0), 0, x);
    EvalScale(p, c0, x);
    EvalScale(p, c1, x);
    assert ([0] + Scale(p, c1))[1..] == Scale(p, c1);
    LinearStep(Eval(p, x), c0, c1, x);
  }

  lemma {:induction false} LinearStep(e: int, c0: int, c1: int, x: int)
    ensures e * c0 + x * (e * c1) == e * (c0 + c1 * x)
  {
  }

  // ------------------------------------------------------------ selector polynomials

  /** Factor j of p_i: a_j + l_j*x when bit j of i is set, else -a_j + (1 - l_j)*x. */
  function Constant(i: nat, a: seq<int>, j: nat): int
    requires j < |a|
  {
    if Bit(i, j) == 1 then a[j] else -a[j]
  }

  function Slope(i: nat, l: nat, j: nat): int {
    if Bit(i, j) == 1 then Bit(l, j) else 1 - Bit(l, j)
  }

  function Selector(i: nat, l: nat, a: seq<int>, m: nat): (p: seq<int>)
    requires m <= |a|
    ensures |p| == m + 1
  {
    if m == 0 then [1]
    else MulLinear(Selector(i, l, a, m - 1), Constant(i, a, m - 1), Slope(i, l, m - 1))
  }

  /** What the verifier multiplies: f_j for a set bit, x - f_j otherwise. */
  function Response(l: nat, a: seq<int>, x: int, j: nat): int
    requires j < |a|
  {
    Bit(l, j) * x + a[j]
  }

  function SelectorValue(i: nat, f: seq<int>, x: int, m: nat): int
    requires m <= |f|
  {
    if m == 0 then 1
    else SelectorValue(i, f, x, m - 1) * (if Bit(i, m - 1) == 1 then f[m - 1] else x - f[m - 1])
  }

  function Responses(l: nat, a: seq<int>, x: int): seq<int> {
    seq(|a|, j requires 0 <= j < |a| => Response(l, a, x, j))
  }

  /** The verifier's product is the value of the prover's polynomial. */
  lemma {:induction false} SelectorEvaluates(i: nat, l: nat, a: seq<int>, x: int, m: nat)
    requires m <= |a|
    ensures Eval(Selector(i, l, a, m), x) == SelectorValue(i, Responses(l, a, x), x, m)
  {
    if m == 0 {
      assert Selector(i, l, a, 0)[1..] == [];
    } else {
      SelectorEvaluates(i, l, a, x, m - 1);
      EvalMulLinear(Selector(i, l, a, m - 1), Constant(i, a, m - 1), Slope(i, l, m - 1), x);
      var f := Response(l, a, x, m - 1);
      assert Responses(l, a, x)[m - 1] == f;
      assert Bit(i, m - 1) != 1 ==> Constant(i, a, m - 1) + Slope(i, l, m - 1) * x == x - f by {
        assert (1 - Bit(l, m - 1)) * x == x - Bit(l, m - 1) * x;
      }
    }
  }

  function Agree(i: nat, l: nat, m: nat): bool {
    forall j :: 0 <= j < m ==> Bit(i, j) == Bit(l, j)
  }

  /** The top coefficient is 1 when the low m bits of i and l agree, and 0 otherwise. */
  lemma {:induction false} TopCoefficient(i: nat, l: nat, a: seq<int>, m: nat)
    requires m <= |a|
    ensures Selector(i, l, a, m)[m] == if Agree(i, l, m) then 1 else 0
  {
    if m > 0 {
      TopCoefficient(i, l, a, m - 1);
      var p := Selector(i, l, a, m - 1);
      assert Selector(i, l, a, m)[m] == p[m - 1] * Slope(i, l, m - 1);
      assert Bit(i, m - 1) == 0 || Bit(i, m - 1) == 1;
      assert Bit(l, m - 1) == 0 || Bit(l, m - 1) == 1;
    }
  }

  lemma {:induction false} ShrSmall(i: nat, m: nat)
    requires i < Exp2(m)
    ensures Shr(i, m) == 0
  {
    if m > 0 {
      ShrSmall(i / 2, m - 1);
      ShrOfHalf(i, m - 1);
    }
  }

  lemma {:induction false} AgreeingTails(i: nat, l: nat, m: nat, k: nat)
    requires k <= m && Agree(i, l, m) && Shr(i, m) == Shr(l, m)
    ensures Shr(i, k) == Shr(l, k)
    decreases m - k
  {
    if k < m {
      AgreeingTails(i, l, m, k + 1);
      assert Bit(i, k) == Bit(l, k);
    }
  }

  /** Indices below 2^m are told apart by their m bits: the top coefficient picks out l alone. */
  lemma {:induction false} SelectorPicks(i: nat, l: nat, a: seq<int>, m: nat)
    requires m <= |a| && i < Exp2(m) && l < Exp2(m)
    ensures Selector(i, l, a, m)[m] == if i == l then 1 else 0
  {
    TopCoefficient(i, l, a, m);
    ShrSmall(i, m);
    ShrSmall(l, m);
    if Agree(i, l, m) {
      AgreeingTails(i, l, m, 0);
    }
  }
}
