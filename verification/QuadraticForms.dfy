/** Binary quadratic forms a*x^2 + b*x*y + c*y^2 of a fixed negative discriminant D:
    normalisation, reduction, and the proof that the reduced form is a canonical
    representative of its SL2(Z) class. */
module QuadraticForms {
  import opened Integers

  datatype Form = Form(a: int, b: int, c: int)

  function Eval(f: Form, x: int, y: int): int {
    f.a * (x * x) + f.b * (x * y) + f.c * (y * y)
  }

  function Disc(f: Form): int {
    f.b * f.b - 4 * f.a * f.c
  }

  /** A positive-definite form of discriminant D. */
  predicate PosDef(D: int, f: Form) {
    D < 0 && f.a > 0 && Disc(f) == D
  }

  predicate Normal(f: Form) {
    -f.a < f.b <= f.a
  }

  predicate Reduced(f: Form) {
    Normal(f) && f.a <= f.c && (f.a == f.c ==> f.b >= 0)
  }

  lemma {:induction false} LastCoefficientPositive(D: int, f: Form)
    requires PosDef(D, f)
    ensures f.c > 0
  {
    assert f.b * f.b >= 0;
    SignOfProduct(f.a, f.c);
  }

  /** For a given first coefficient and discriminant, the middle one fixes the last. */
  lemma {:induction false} MiddleFixesLast(D: int, f: Form, g: Form)
    requires PosDef(D, f) && PosDef(D, g) && f.a == g.a && f.b == g.b
    ensures f == g
  {
    Cancel(f.a, f.c, g.c);
  }

  // ---------------------------------------------------------------- normalisation

  /** c' = (b'^2 - D) / (4a), the division every routine of the class group uses. */
  function LastCoefficient(D: int, a: int, b: int): int
    requires a > 0
  {
    (b * b - D) / (4 * a)
  }

  function Shift(f: Form): int
    requires f.a > 0
  {
    if Normal(f) then 0 else (f.a - f.b) / (2 * f.a)
  }

  function Normalize(D: int, f: Form): Form
    requires f.a > 0
  {
    if Normal(f) then f
    else
      var b := f.b + 2 * f.a * Shift(f);
      Form(f.a, b, LastCoefficient(D, f.a, b))
  }

  /** The translate of f by (x, y) -> (x + k*y, y). */
  function Translate(f: Form, k: int): Form {
    Form(f.a, f.b + 2 * f.a * k, f.a * k * k + f.b * k + f.c)
  }

  lemma {:induction false} TranslateKeepsDisc(f: Form, k: int)
    ensures Disc(Translate(f, k)) == Disc(f)
  {
    var a, b, c := f.a, f.b, f.c;
    assert (b + 2 * a * k) * (b + 2 * a * k) == b * b + 4 * (a * k) * b + 4 * (a * k) * (a * k);
    assert a * (a * k * k + b * k + c) == (a * k) * (a * k) + (a * k) * b + a * c;
  }

  lemma {:induction false} LastCoefficientExact(D: int, f: Form)
    requires f.a > 0 && Disc(f) == D
    ensures (f.b * f.b - D) % (4 * f.a) == 0
    ensures LastCoefficient(D, f.a, f.b) == f.c
  {
    assert f.b * f.b - D == (4 * f.a) * f.c;
    DivideExactly(f.b * f.b - D, 4 * f.a, f.c);
  }

  /** Normalisation is a translation, and its division by 4a is exact. */
  lemma {:induction false} NormalizeTranslates(D: int, f: Form)
    requires PosDef(D, f)
    ensures Normalize(D, f) == Translate(f, Shift(f))
    ensures PosDef(D, Normalize(D, f)) && Normal(Normalize(D, f))
  {
    if !Normal(f) {
      var k := Shift(f);
      var r := (f.a - f.b) % (2 * f.a);
      assert f.a - f.b == (2 * f.a) * k + r;
      TranslateKeepsDisc(f, k);
      LastCoefficientExact(D, Translate(f, k));
    }
  }

  // -------------------------------------------------------------------- reduction

  predicate Settled(f: Form) {
    f.a < f.c || (f.a == f.c && f.b >= 0)
  }

  function Rho(f: Form): Form {
    Form(f.c, -f.b, f.a)
  }

  /** Reduction of a form that is already normal: the specification of the loop below. */
  function ReduceNormal(D: int, f: Form): (g: Form)
    requires PosDef(D, f) && Normal(f)
    ensures PosDef(D, g) && Reduced(g)
    decreases f.a
  {
    LastCoefficientPositive(D, f);
    if Settled(f) then f
    else if f.a == f.c then Form(f.a, -f.b, f.c)
    else
      NormalizeTranslates(D, Rho(f));
      ReduceNormal(D, Normalize(D, Rho(f)))
  }

  function Reduce(D: int, f: Form): (g: Form)
    requires PosDef(D, f)
    ensures PosDef(D, g) && Reduced(g)
  {
    NormalizeTranslates(D, f);
    ReduceNormal(D, Normalize(D, f))
  }

  // ------------------------------------------------------------ SL2(Z) equivalence

  datatype Matrix = Matrix(p: int, q: int, r: int, s: int)

  predicate Unimodular(m: Matrix) {
    m.p * m.s - m.q * m.r == 1
  }

  /** The substitution (x, y) -> (p*x + q*y, r*x + s*y). */
  function Act(f: Form, m: Matrix): Form {
    Form(Eval(f, m.p, m.r),
         f.a * (2 * (m.p * m.q)) + f.b * (m.p * m.s + m.q * m.r) + f.c * (2 * (m.r * m.s)),
         Eval(f, m.q, m.s))
  }

  ghost predicate Equivalent(f: Form, g: Form) {
    exists m :: Unimodular(m) && g == Act(f, m)
  }

  function Times(m: Matrix, n: Matrix): Matrix {
    Matrix(m.p * n.p + m.q * n.r, m.p * n.q + m.q * n.s,
           m.r * n.p + m.s * n.r, m.r * n.q + m.s * n.s)
  }

  /** Substituting in a form and evaluating it commute. */
  lemma {:induction false} ActEval(f: Form, m: Matrix, x: int, y: int)
    ensures Eval(Act(f, m), x, y) == Eval(f, m.p * x + m.q * y, m.r * x + m.s * y)
  {
    var (p, q, r, s) := (m.p, m.q, m.r, m.s);
    ExpandSquare(p, q, x, y);
    ExpandProduct(p, q, r, s, x, y);
    ExpandSquare(r, s, x, y);
    Exchange(f.a, f.b, f.c, p * p, p * r, r * r, 2 * (p * q), p * s + q * r, 2 * (r * s),
             q * q, q * s, s * s, x * x, x * y, y * y);
  }

  /** The middle coefficient by polarisation. */
  lemma {:induction false} MiddleByPolarisation(f: Form, m: Matrix)
    ensures Act(f, m).b == Eval(f, m.p + m.q, m.r + m.s) - Eval(f, m.p, m.r) - Eval(f, m.q, m.s)
  {
    ActEval(f, m, 1, 1);
  }

  lemma {:induction false} ActTimesMiddle(f: Form, m: Matrix, n: Matrix)
    ensures Act(Act(f, m), n).b == Act(f, Times(m, n)).b
  {
    var k := Times(m, n);
    var x, y := n.p + n.q, n.r + n.s;
    assert k.p + k.q == m.p * x + m.q * y && k.r + k.s == m.r * x + m.s * y;
    ActEval(f, m, n.p, n.r);
    ActEval(f, m, n.q, n.s);
    ActEval(f, m, x, y);
    MiddleByPolarisation(Act(f, m), n);
    MiddleByPolarisation(f, k);
  }

  lemma {:induction false} ActTimes(f: Form, m: Matrix, n: Matrix)
    ensures Act(Act(f, m), n) == Act(f, Times(m, n))
  {
    ActEval(f, m, n.p, n.r);
    ActEval(f, m, n.q, n.s);
    ActTimesMiddle(f, m, n);
  }

  lemma {:induction false} TimesUnimodular(m: Matrix, n: Matrix)
    requires Unimodular(m) && Unimodular(n)
    ensures Unimodular(Times(m, n))
  {
    var k := Times(m, n);
    assert k.p * k.s - k.q * k.r == (m.p * m.s - m.q * m.r) * (n.p * n.s - n.q * n.r);
  }

  lemma {:induction false} EquivalentTransitive(f: Form, g: Form, h: Form)
    requires Equivalent(f, g) && Equivalent(g, h)
    ensures Equivalent(f, h)
  {
    var m :| Unimodular(m) && g == Act(f, m);
    var n :| Unimodular(n) && h == Act(g, n);
    ActTimes(f, m, n);
    TimesUnimodular(m, n);
  }

  lemma {:induction false} EquivalentReflexive(f: Form)
    ensures Equivalent(f, f)
  {
    assert f == Act(f, Matrix(1, 0, 0, 1));
  }

  function Inverse(m: Matrix): Matrix {
    Matrix(m.s, -m.q, -m.r, m.p)
  }

  lemma {:induction false} TimesInverse(m: Matrix)
    requires Unimodular(m)
    ensures Times(m, Inverse(m)) == Matrix(1, 0, 0, 1)
    ensures Unimodular(Inverse(m))
  {
  }

  lemma {:induction false} InverseUndoes(f: Form, m: Matrix)
    requires Unimodular(m)
    ensures Unimodular(Inverse(m)) && Act(Act(f, m), Inverse(m)) == f
  {
    TimesInverse(m);
    ActTimes(f, m, Inverse(m));
    assert Act(f, Matrix(1, 0, 0, 1)) == f;
  }

  lemma {:induction false} EquivalentSymmetric(f: Form, g: Form)
    requires Equivalent(f, g)
    ensures Equivalent(g, f)
  {
    var m :| Unimodular(m) && g == Act(f, m);
    InverseUndoes(f, m);
  }

  lemma {:induction false} TranslateEquivalent(f: Form, k: int)
    ensures Equivalent(f, Translate(f, k))
  {
    assert Unimodular(Matrix(1, k, 0, 1)) && Translate(f, k) == Act(f, Matrix(1, k, 0, 1));
  }

  lemma {:induction false} RhoEquivalent(f: Form)
    ensures Equivalent(f, Rho(f))
  {
    assert Unimodular(Matrix(0, -1, 1, 0)) && Rho(f) == Act(f, Matrix(0, -1, 1, 0));
  }

  lemma {:induction false} ReduceNormalIsEquivalent(D: int, f: Form)
    requires PosDef(D, f) && Normal(f)
    ensures Equivalent(f, ReduceNormal(D, f))
    decreases f.a
  {
    LastCoefficientPositive(D, f);
    if Settled(f) {
      EquivalentReflexive(f);
    } else {
      RhoEquivalent(f);
      if f.a != f.c {
        var g := Rho(f);
        NormalizeTranslates(D, g);
        var h := Normalize(D, g);
        TranslateEquivalent(g, Shift(g));
        EquivalentTransitive(f, g, h);
        ReduceNormalIsEquivalent(D, h);
        EquivalentTransitive(f, h, ReduceNormal(D, h));
      }
    }
  }

  /** Reduction stays in the SL2(Z) class of its argument. */
  lemma {:induction false} ReduceIsEquivalent(D: int, f: Form)
    requires PosDef(D, f)
    ensures Equivalent(f, Reduce(D, f))
  {
    NormalizeTranslates(D, f);
    TranslateEquivalent(f, Shift(f));
    var g := Normalize(D, f);
    ReduceNormalIsEquivalent(D, g);
    EquivalentTransitive(f, g, ReduceNormal(D, g));
  }

  /** One turn of the reduction loop: the leading coefficient falls, the result stays. */
  lemma {:induction false} RhoStep(D: int, f: Form)
    requires PosDef(D, f) && Normal(f) && f.a > f.c
    ensures f.c > 0 && PosDef(D, Rho(f))
    ensures var g := Normalize(D, Rho(f));
            PosDef(D, g) && Normal(g) && g.a < f.a && ReduceNormal(D, f) == ReduceNormal(D, g)
  {
    LastCoefficientPositive(D, f);
    NormalizeTranslates(D, Rho(f));
  }

  /** The reduction loop: it stops because the leading coefficient falls at every rho step. */
  method ReduceLoop(D: int, f: Form) returns (r: Form)
    requires PosDef(D, f)
    ensures r == Reduce(D, f)
  {
    NormalizeTranslates(D, f);
    r := Normalize(D, f);
    while r.a >= r.c && !(r.a == r.c && r.b >= 0)
      invariant PosDef(D, r) && Normal(r)
      invariant ReduceNormal(D, r) == Reduce(D, f)
      decreases r.a
    {
      if r.a == r.c {
        return Form(r.a, -r.b, r.c);
      }
      RhoStep(D, r);
      r := Normalize(D, Rho(r));
    }
  }

  lemma {:induction false} ReduceFixesReduced(D: int, f: Form)
    requires PosDef(D, f)
    ensures Reduce(D, f) == f <==> Reduced(f)
  {
  }

  // ------------------------------------------------------------------- uniqueness

  lemma {:induction false} PositiveNorm(x: int, y: int)
    requires x != 0 || y != 0
    ensures x * x - x * y + y * y >= 1 && x * x + x * y + y * y >= 1
  {
    var xx, xy, yy := x * x, x * y, y * y;
    assert (x - y) * (x - y) == xx - 2 * xy + yy;
    assert (x + y) * (x + y) == xx + 2 * xy + yy;
    SquarePositive(x);
    SquarePositive(y);
    SquarePositive(x - y);
    SquarePositive(x + y);
    if x == 0 || y == 0 {
      assert xy == 0;
    } else {
      assert xx >= 1 && yy >= 1;
    }
  }

  lemma {:induction false} SquarePositive(x: int)
    ensures x * x >= 0 && (x != 0 ==> x * x >= 1)
  {
    if x != 0 { SignOfProduct(if x > 0 then x else -x, if x > 0 then x else -x); }
  }

  lemma {:induction false} BoundBelow(a: int, b: int, c: int, xx: int, xy: int, yy: int)
    requires 0 < a <= c && -a <= b <= a && yy >= 0
    requires xx - xy + yy >= 1 && xx + xy + yy >= 1
    ensures a * xx + b * xy + c * yy >= a
    ensures yy >= 1 ==> a * xx + b * xy + c * yy >= c
  {
    assert a * (xx - xy + yy) >= a && a * (xx + xy + yy) >= a;
    assert xy >= 0 ==> (a + b) * xy >= 0;
    assert xy <= 0 ==> (a - b) * xy <= 0;
    assert (c - a) * yy >= 0;
    assert yy >= 1 ==> (c - a) * yy >= c - a;
  }

  /** A reduced form takes no value below a, and none below c off the x axis. */
  lemma {:induction false} ReducedMinimum(f: Form, x: int, y: int)
    requires Reduced(f) && f.a > 0
    requires x != 0 || y != 0
    ensures Eval(f, x, y) >= f.a
    ensures y != 0 ==> Eval(f, x, y) >= f.c
  {
    PositiveNorm(x, y);
    BoundBelow(f.a, f.b, f.c, x * x, x * y, y * y);
    assert y != 0 ==> y * y >= 1;
  }

  /** One direction of the comparison of two equivalent reduced forms. */
  lemma {:induction false} ReducedLeast(f: Form, m: Matrix)
    requires Reduced(f) && f.a > 0 && Unimodular(m)
    ensures Act(f, m).a >= f.a
    ensures m.r != 0 ==> Act(f, m).a >= f.c
  {
    assert m.p != 0 || m.r != 0;
    ReducedMinimum(f, m.p, m.r);
  }

  /** Two equivalent reduced forms of one discriminant are equal. */
  lemma {:induction false} ReducedIsUnique(D: int, f: Form, g: Form)
    requires PosDef(D, f) && PosDef(D, g) && Reduced(f) && Reduced(g)
    requires Equivalent(f, g)
    ensures f == g
  {
    var m :| Unimodular(m) && g == Act(f, m);
    InverseUndoes(f, m);
    ReducedLeast(f, m);
    ReducedLeast(g, Inverse(m));
    assert f.a == g.a;
    if m.r == 0 {
      UpperTriangular(f, m);
    } else {
      assert f.c == f.a && g.c == g.a;
      assert f.b * f.b == g.b * g.b;
      EqualSquares(f.b, g.b);
    }
    MiddleFixesLast(D, f, g);
  }

  lemma {:induction false} EqualSquares(x: int, y: int)
    requires x >= 0 && y >= 0 && x * x == y * y
    ensures x == y
  {
    assert (x - y) * (x + y) == 0;
  }

  lemma {:induction false} UpperTriangular(f: Form, m: Matrix)
    requires Unimodular(m) && m.r == 0 && f.a > 0
    requires Normal(f) && Normal(Act(f, m)) && Act(f, m).a == f.a
    ensures Act(f, m).b == f.b
  {
    assert m.p * m.s == 1;
    assert Act(f, m).b == f.b + (2 * f.a) * (m.p * m.q);
    SmallMultiple(2 * f.a, m.p * m.q);
  }

  /** Reduction decides equivalence: two forms have the same reduced form exactly
      when they are in the same class. */
  lemma {:induction false} ReduceIsCanonical(D: int, f: Form, g: Form)
    requires PosDef(D, f) && PosDef(D, g)
    ensures Reduce(D, f) == Reduce(D, g) <==> Equivalent(f, g)
  {
    var u, v := Reduce(D, f), Reduce(D, g);
    ReduceIsEquivalent(D, f);
    ReduceIsEquivalent(D, g);
    EquivalentSymmetric(g, v);
    if u == v {
      EquivalentTransitive(f, u, g);
    }
    if Equivalent(f, g) {
      EquivalentSymmetric(f, u);
      EquivalentTransitive(u, f, g);
      EquivalentTransitive(u, g, v);
      ReducedIsUnique(D, u, v);
    }
  }
}
