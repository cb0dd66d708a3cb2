/** Dirichlet composition of binary quadratic forms, as the class-group backend computes it.
    Every result holds for ANY Bezout coefficients the extended-gcd routine may return. */
module ClassGroup {
  import opened Integers
  import opened QuadraticForms

  /** The discriminants the backend accepts: negative and 1 modulo 8. */
  predicate ValidDiscriminant(D: int) {
    D < 0 && D % 8 == 1
  }

  /** What the two extended-gcd calls return: a1*x + a2*y = g and g*u + s*v = e. */
  datatype Bezout = Bezout(g: int, x: int, y: int, e: int, u: int, v: int)

  function HalfSum(f1: Form, f2: Form): int {
    (f1.b + f2.b) / 2
  }

  function HalfDifference(f1: Form, f2: Form): int {
    (f1.b - f2.b) / 2
  }

  predicate IsBezout(f1: Form, f2: Form, w: Bezout) {
    && w.g > 0 && f1.a % w.g == 0 && f2.a % w.g == 0
    && f1.a * w.x + f2.a * w.y == w.g
    && w.e > 0 && w.g % w.e == 0 && HalfSum(f1, f2) % w.e == 0
    && w.g * w.u + HalfSum(f1, f2) * w.v == w.e
  }

  /** Extended Euclid on naturals. */
  function ExtendedGcd(a: nat, b: nat): (r: (int, int, int))
    ensures a * r.1 + b * r.2 == r.0 >= 0
    ensures a > 0 || b > 0 ==> r.0 > 0 && a % r.0 == 0 && b % r.0 == 0
    decreases b
  {
    if b == 0 then
      (a, 1, 0)
    else
      var (g, x, y) := ExtendedGcd(b, a % b);
      GcdStep(a, b, g, x, y);
      (g, y, x - (a / b) * y)
  }

  lemma {:induction false} GcdStep(a: nat, b: nat, g: int, x: int, y: int)
    requires b > 0 && g > 0 && b % g == 0 && (a % b) % g == 0
    requires b * x + (a % b) * y == g
    ensures a * y + b * (x - (a / b) * y) == g
    ensures a % g == 0
  {
    var q, r := a / b, a % b;
    assert a == b * q + r;
    assert a * y == b * (q * y) + r * y;
    assert b * (x - q * y) == b * x - b * (q * y);
    assert b == g * (b / g) && r == g * (r / g);
    assert a == g * ((b / g) * q + r / g);
    DivideExactly(a, g, (b / g) * q + r / g);
  }

  /** The sign handling around the library's gcd on absolute values. */
  function Xgcd(a: int, b: int): (r: (int, int, int))
    ensures a * r.1 + b * r.2 == r.0 >= 0
    ensures a != 0 || b != 0 ==> r.0 > 0 && a % r.0 == 0 && b % r.0 == 0
  {
    var (g, x, y) := ExtendedGcd(Abs(a), Abs(b));
    NegatedMultiple(a, g);
    NegatedMultiple(b, g);
    NegatedFactor(a, x);
    NegatedFactor(b, y);
    (g, if a < 0 then -x else x, if b < 0 then -y else y)
  }

  lemma {:induction false} NegatedFactor(a: int, x: int)
    ensures a * (if a < 0 then -x else x) == Abs(a) * x
  {
  }

  function Abs(a: int): nat {
    if a < 0 then -a else a
  }

  lemma {:induction false} NegatedMultiple(a: int, g: int)
    ensures g > 0 && Abs(a) % g == 0 ==> a % g == 0
  {
    if g > 0 && Abs(a) % g == 0 {
      var k := Abs(a) / g;
      assert Abs(a) == g * k;
      DivideExactly(a, g, if a < 0 then -k else k);
    }
  }

  function BezoutOf(f1: Form, f2: Form): (w: Bezout)
    requires f1.a > 0 && f2.a > 0
    ensures IsBezout(f1, f2, w)
  {
    var (g, x, y) := Xgcd(f1.a, f2.a);
    var (e, u, v) := Xgcd(g, HalfSum(f1, f2));
    Bezout(g, x, y, e, u, v)
  }

  // ------------------------------------------------------------------ composition

  lemma {:induction false} QuotientsPositive(f1: Form, f2: Form, w: Bezout)
    requires f1.a > 0 && f2.a > 0 && IsBezout(f1, f2, w)
    ensures f1.a == w.e * (f1.a / w.e) && f1.a / w.e > 0
    ensures f2.a == w.e * (f2.a / w.e) && f2.a / w.e > 0
    ensures w.g == w.e * (w.g / w.e) && HalfSum(f1, f2) == w.e * (HalfSum(f1, f2) / w.e)
    ensures (f1.a * f2.a) % (w.e * w.e) == 0
    ensures (f1.a * f2.a) / (w.e * w.e) == (f1.a / w.e) * (f2.a / w.e) > 0
  {
    var n := w.g / w.e;
    DivisorOfDivisor(f1.a, w.g, w.e);
    DivisorOfDivisor(f2.a, w.g, w.e);
    var (p, q) := (f1.a / w.e, f2.a / w.e);
    SignOfProduct(w.e, p);
    SignOfProduct(w.e, q);
    SignOfProduct(p, q);
    SignOfProduct(w.e, w.e);
    RegroupProduct(w.e, p, q);
    DivideExactly(f1.a * f2.a, w.e * w.e, p * q);
  }

  lemma {:induction false} RegroupProduct(e: int, p: int, q: int)
    ensures (e * p) * (e * q) == (e * e) * (p * q)
  {
  }

  lemma {:induction false} DivisorOfDivisor(a: int, g: int, e: int)
    requires g > 0 && e > 0 && a % g == 0 && g % e == 0
    ensures a % e == 0 && a == e * (a / e)
  {
    assert a == g * (a / g) && g == e * (g / e);
    assert a == e * ((g / e) * (a / g));
    DivideExactly(a, e, (g / e) * (a / g));
  }

  /** t, the remainder modulo a1/e. */
  function Root(f1: Form, f2: Form, w: Bezout): int
    requires f1.a > 0 && f2.a > 0 && IsBezout(f1, f2, w)
  {
    QuotientsPositive(f1, f2, w);
    (HalfDifference(f1, f2) * w.y * w.u - f2.c * w.v) % (f1.a / w.e)
  }

  /** The composed form before reduction. */
  function ComposeRaw(D: int, f1: Form, f2: Form, w: Bezout): Form
    requires f1.a > 0 && f2.a > 0 && IsBezout(f1, f2, w)
  {
    QuotientsPositive(f1, f2, w);
    var a3 := (f1.a * f2.a) / (w.e * w.e);
    var B := 2 * (f2.a / w.e) * Root(f1, f2, w) + f2.b;
    Form(a3, B, (B * B - D) / (4 * a3))
  }

  /** t solves the two congruences that define the composition, modulo a1/e. */
  predicate Solves(f1: Form, f2: Form, e: int, t: int)
    requires e > 0 && f1.a / e > 0
  {
    && ((f2.a / e) * t - HalfDifference(f1, f2)) % (f1.a / e) == 0
    && ((HalfSum(f1, f2) / e) * t + f2.c) % (f1.a / e) == 0
  }

  lemma {:induction false} SolutionWitness(f1: Form, f2: Form, e: int, t: int) returns (k: int, l: int)
    requires e > 0 && f1.a / e > 0 && Solves(f1, f2, e, t)
    ensures (f2.a / e) * t == HalfDifference(f1, f2) + (f1.a / e) * k
    ensures (HalfSum(f1, f2) / e) * t == -f2.c + (f1.a / e) * l
  {
    k := ((f2.a / e) * t - HalfDifference(f1, f2)) / (f1.a / e);
    l := ((HalfSum(f1, f2) / e) * t + f2.c) / (f1.a / e);
  }

  lemma {:induction false} ParityOfMiddle(f: Form)
    ensures Disc(f) % 2 == f.b % 2
  {
    var k, r := f.b / 2, f.b % 2;
    var m := f.b * f.b;
    assert f.b == 2 * k + r;
    assert m == 2 * (k * f.b) + r * f.b;
    assert r == 0 || r == 1;
    assert Disc(f) == 2 * (k * f.b - 2 * (f.a * f.c)) + r * f.b;
  }

  /** Halving b1 + b2 and b1 - b2 is exact, and the two discriminants agree. */
  lemma {:induction false} Halves(D: int, f1: Form, f2: Form)
    requires PosDef(D, f1) && PosDef(D, f2)
    ensures f1.b + f2.b == 2 * HalfSum(f1, f2) && f1.b - f2.b == 2 * HalfDifference(f1, f2)
    ensures HalfDifference(f1, f2) * HalfSum(f1, f2) == f1.a * f1.c - f2.a * f2.c
  {
    ParityOfMiddle(f1);
    ParityOfMiddle(f2);
    var s, h := HalfSum(f1, f2), HalfDifference(f1, f2);
    assert f1.b == s + h && f2.b == s - h;
    assert (s + h) * (s + h) - (s - h) * (s - h) == 4 * (h * s);
  }

  lemma {:induction false} FirstIdentity(A1: int, A2: int, S: int, x: int, y: int, u: int, v: int, h: int, c1: int,
          c2: int)
    ensures A2 * (h * y * u - c2 * v)
         == h * ((A1 * x + A2 * y) * u + S * v) - A1 * (h * (x * u) + c1 * v) + (A1 * c1 - A2 * c2 - h * S) * v
  {
  }

  lemma {:induction false} SecondIdentity(A1: int, A2: int, S: int, x: int, y: int, u: int, v: int, h: int, c1: int,
          c2: int)
    ensures S * (h * y * u - c2 * v)
         == -c2 * ((A1 * x + A2 * y) * u + S * v) + A1 * (c1 * (y * u) + c2 * (x * u))
            + (h * S - A1 * c1 + A2 * c2) * (y * u)
  {
  }

  /** The heart of the composition: t0 = h*y*u - c2*v solves both congruences modulo A1. */
  lemma {:induction false} BezoutSolves(A1: int, A2: int, G: int, S: int, x: int, y: int, u: int, v: int, h: int,
          c1: int, c2: int)
    requires A1 * x + A2 * y == G && G * u + S * v == 1
    requires h * S == A1 * c1 - A2 * c2
    ensures A2 * (h * y * u - c2 * v) == h - A1 * (h * (x * u) + c1 * v)
    ensures S * (h * y * u - c2 * v) == -c2 + A1 * (c1 * (y * u) + c2 * (x * u))
  {
    FirstIdentity(A1, A2, S, x, y, u, v, h, c1, c2);
    SecondIdentity(A1, A2, S, x, y, u, v, h, c1, c2);
  }

  /** Dividing the gcd data by e. */
  lemma {:induction false} DividedSystem(D: int, f1: Form, f2: Form, w: Bezout)
    requires PosDef(D, f1) && PosDef(D, f2) && IsBezout(f1, f2, w)
    ensures (f1.a / w.e) * w.x + (f2.a / w.e) * w.y == w.g / w.e
    ensures (w.g / w.e) * w.u + (HalfSum(f1, f2) / w.e) * w.v == 1
    ensures HalfDifference(f1, f2) * (HalfSum(f1, f2) / w.e) == (f1.a / w.e) * f1.c - (f2.a / w.e) * f2.c
  {
    QuotientsPositive(f1, f2, w);
    Halves(D, f1, f2);
    var e, A1, A2, G, S := w.e, f1.a / w.e, f2.a / w.e, w.g / w.e, HalfSum(f1, f2) / w.e;
    var h := HalfDifference(f1, f2);
    DivideEquation(e, A1, w.x, A2, w.y, G);
    DivideEquation(e, G, w.u, S, w.v, 1);
    assert h * (e * S) == (e * S) * h;
    DivideEquation(e, S, h, A2, f2.c, A1 * f1.c);
  }

  lemma {:induction false} DivideEquation(e: int, p: int, x: int, q: int, y: int, r: int)
    requires e > 0 && (e * p) * x + (e * q) * y == e * r
    ensures p * x + q * y == r
  {
    assert (e * p) * x + (e * q) * y == e * (p * x + q * y);
    Cancel(e, p * x + q * y, r);
  }

  /** The remainder the code computes solves the congruences. */
  lemma {:induction false} ComposeSolves(D: int, f1: Form, f2: Form, w: Bezout)
    requires PosDef(D, f1) && PosDef(D, f2) && IsBezout(f1, f2, w)
    ensures 0 <= Root(f1, f2, w) < f1.a / w.e && Solves(f1, f2, w.e, Root(f1, f2, w))
  {
    QuotientsPositive(f1, f2, w);
    DividedSystem(D, f1, f2, w);
    var A1, A2, S := f1.a / w.e, f2.a / w.e, HalfSum(f1, f2) / w.e;
    var h := HalfDifference(f1, f2);
    BezoutSolves(A1, A2, w.g / w.e, S, w.x, w.y, w.u, w.v, h, f1.c, f2.c);
    var t0 := h * w.y * w.u - f2.c * w.v;
    var k, l := h * (w.x * w.u) + f1.c * w.v, f1.c * (w.y * w.u) + f2.c * (w.x * w.u);
    var q := t0 / A1;
    assert t0 == A1 * q + t0 % A1;
    MovedBack(A1, A2, t0 % A1, q, h, -k);
    MovedBack(A1, S, t0 % A1, q, -f2.c, l);
  }

  /** If m*(t + n*q) = h + n*k then m*t = h modulo n. */
  lemma {:induction false} MovedBack(n: int, m: int, t: int, q: int, h: int, k: int)
    requires n > 0 && m * (n * q + t) == h + n * k
    ensures (m * t - h) % n == 0
  {
    assert m * (n * q + t) == n * (m * q) + m * t;
    assert m * t - h == n * (k - m * q);
    DivideExactly(m * t - h, n, k - m * q);
  }

  lemma {:induction false} SquareIdentity(A2: int, t: int, b2: int)
    ensures (2 * A2 * t + b2) * (2 * A2 * t + b2) == b2 * b2 + 4 * (A2 * (t * (b2 + A2 * t)))
  {
  }

  /** A solution t makes B^2 - D divisible by 4*a3: the composed form exists. */
  lemma {:induction false} SolutionGivesForm(D: int, f1: Form, f2: Form, w: Bezout, t: int)
    requires PosDef(D, f1) && PosDef(D, f2) && IsBezout(f1, f2, w)
    requires f1.a / w.e > 0 && Solves(f1, f2, w.e, t)
    ensures f2.a / w.e > 0
    ensures var (a3, B) := ((f1.a / w.e) * (f2.a / w.e), 2 * (f2.a / w.e) * t + f2.b);
            a3 > 0 && (B * B - D) % (4 * a3) == 0 && PosDef(D, Form(a3, B, (B * B - D) / (4 * a3)))
  {
    QuotientsPositive(f1, f2, w);
    Halves(D, f1, f2);
    var e, A1, A2, S := w.e, f1.a / w.e, f2.a / w.e, HalfSum(f1, f2) / w.e;
    var h := HalfDifference(f1, f2);
    var k, l := SolutionWitness(f1, f2, e, t);
    var B, m := 2 * A2 * t + f2.b, e * l + k * t;
    SolutionIdentity(A1, A2, e, S, f2.b, f2.c, h, t, k, l);
    DivideExactly(B * B - D, 4 * (A1 * A2), m);
  }

  lemma {:induction false} SolutionIdentity(A1: int, A2: int, e: int, S: int, b2: int, c2: int, h: int, t: int,
          k: int, l: int)
    requires A2 * t == h + A1 * k && S * t == -c2 + A1 * l && b2 + h == e * S
    ensures (2 * A2 * t + b2) * (2 * A2 * t + b2)
         == b2 * b2 - 4 * ((e * A2) * c2) + (4 * (A1 * A2)) * (e * l + k * t)
  {
    var m := e * l + k * t;
    SquareIdentity(A2, t, b2);
    MiddleIdentity(A1, e, S, k, l, t);
    assert b2 + A2 * t == e * S + A1 * k;
    assert t * (b2 + A2 * t) == A1 * m - e * c2;
    LastIdentity(A1, A2, e, c2, m);
  }

  lemma {:induction false} MiddleIdentity(A1: int, e: int, S: int, k: int, l: int, t: int)
    ensures t * (e * S + A1 * k) == e * (S * t - A1 * l) + A1 * (e * l + k * t)
  {
  }

  lemma {:induction false} LastIdentity(A1: int, A2: int, e: int, c2: int, m: int)
    ensures 4 * (A2 * (A1 * m - e * c2)) + 4 * ((e * A2) * c2) == (4 * (A1 * A2)) * m
  {
  }

  /** Every division in compose is exact and the composed triple is a form of discriminant D. */
  lemma {:induction false} ComposeExact(D: int, f1: Form, f2: Form, w: Bezout)
    requires PosDef(D, f1) && PosDef(D, f2) && IsBezout(f1, f2, w)
    ensures f1.a % w.e == 0 && f2.a % w.e == 0 && (f1.a * f2.a) % (w.e * w.e) == 0
    ensures var F := ComposeRaw(D, f1, f2, w);
            && F.a > 0 && F.a * (w.e * w.e) == f1.a * f2.a
            && (F.b * F.b - D) % (4 * F.a) == 0 && PosDef(D, F)
  {
    QuotientsPositive(f1, f2, w);
    DivideExactly(f1.a, w.e, f1.a / w.e);
    DivideExactly(f2.a, w.e, f2.a / w.e);
    RegroupProduct(w.e, f1.a / w.e, f2.a / w.e);
    ComposeSolves(D, f1, f2, w);
    SolutionGivesForm(D, f1, f2, w, Root(f1, f2, w));
  }

  // ------------------------------------------- independence of the gcd coefficients

  /** e is the same for all Bezout data: each candidate divides the other. */
  lemma {:induction false} SameGcd(f1: Form, f2: Form, w: Bezout, w': Bezout)
    requires f1.a > 0 && f2.a > 0 && IsBezout(f1, f2, w) && IsBezout(f1, f2, w')
    ensures w.e == w'.e
  {
    GcdDivides(f1, f2, w, w');
    GcdDivides(f1, f2, w', w);
    MutualDivisors(w.e, w'.e);
  }

  lemma {:induction false} GcdDivides(f1: Form, f2: Form, w: Bezout, w': Bezout)
    requires f1.a > 0 && f2.a > 0 && IsBezout(f1, f2, w) && IsBezout(f1, f2, w')
    ensures w'.e % w.e == 0
  {
    QuotientsPositive(f1, f2, w);
    var e, A1, A2, S := w.e, f1.a / w.e, f2.a / w.e, HalfSum(f1, f2) / w.e;
    CombineMultiples(e, A1, w'.x, A2, w'.y);
    CombineMultiples(e, A1 * w'.x + A2 * w'.y, w'.u, S, w'.v);
    DivideExactly(w'.e, e, (A1 * w'.x + A2 * w'.y) * w'.u + S * w'.v);
  }

  lemma {:induction false} CombineMultiples(e: int, p: int, x: int, q: int, y: int)
    ensures (e * p) * x + (e * q) * y == e * (p * x + q * y)
  {
  }

  lemma {:induction false} MutualDivisors(d: int, e: int)
    requires d > 0 && e > 0 && d % e == 0 && e % d == 0
    ensures d == e
  {
    var p, q := d / e, e / d;
    assert d == e * p && e == d * q;
    SignOfProduct(e, p);
    SignOfProduct(d, q);
    assert e * (p - 1) == d - e && d * (q - 1) == e - d;
    SignOfProduct(e, p - 1);
    SignOfProduct(d, q - 1);
  }

  /** The congruences have one solution modulo a1/e. */
  lemma {:induction false} SolutionUnique(D: int, f1: Form, f2: Form, w: Bezout, t: int, t': int)
    requires PosDef(D, f1) && PosDef(D, f2) && IsBezout(f1, f2, w) && f1.a / w.e > 0
    requires Solves(f1, f2, w.e, t) && Solves(f1, f2, w.e, t')
    requires 0 <= t < f1.a / w.e && 0 <= t' < f1.a / w.e
    ensures t == t'
  {
    DividedSystem(D, f1, f2, w);
    var A1, A2, S, G := f1.a / w.e, f2.a / w.e, HalfSum(f1, f2) / w.e, w.g / w.e;
    var k, l := SolutionWitness(f1, f2, w.e, t);
    var k', l' := SolutionWitness(f1, f2, w.e, t');
    assert A2 * (t - t') == A1 * (k - k') && S * (t - t') == A1 * (l - l') by {
      assert A2 * (t - t') == A2 * t - A2 * t' && A1 * (k - k') == A1 * k - A1 * k';
      assert S * (t - t') == S * t - S * t' && A1 * (l - l') == A1 * l - A1 * l';
    }
    SmallSolution(A1, A2, S, w.x, w.y, w.u, w.v, t - t', k - k', l - l');
  }

  lemma {:induction false} SmallSolution(A1: int, A2: int, S: int, x: int, y: int, u: int, v: int, d: int, k: int,
          l: int)
    requires A1 > 0 && -A1 < d < A1 && (A1 * x + A2 * y) * u + S * v == 1
    requires A2 * d == A1 * k && S * d == A1 * l
    ensures d == 0
  {
    var n := MultipleOf(A1, A2, S, x, y, u, v, d, k, l);
    SmallMultiple(A1, n);
  }

  lemma {:induction false} MultipleOf(A1: int, A2: int, S: int, x: int, y: int, u: int, v: int, d: int, k: int,
          l: int)
    returns (n: int)
    requires (A1 * x + A2 * y) * u + S * v == 1 && A2 * d == A1 * k && S * d == A1 * l
    ensures d == A1 * n
  {
    UnitCombination(A1, A2, S, x, y, u, v, d);
    UniqueIdentity(A1, k, l, x, y, u, v, d);
    n := (x * u) * d + (y * u) * k + v * l;
  }

  lemma {:induction false} UnitCombination(A1: int, A2: int, S: int, x: int, y: int, u: int, v: int, d: int)
    ensures ((A1 * x + A2 * y) * u + S * v) * d == A1 * ((x * u) * d) + (y * u) * (A2 * d) + v * (S * d)
  {
  }

  lemma {:induction false} UniqueIdentity(A1: int, k: int, l: int, x: int, y: int, u: int, v: int, d: int)
    ensures A1 * ((x * u) * d) + (y * u) * (A1 * k) + v * (A1 * l) == A1 * ((x * u) * d + (y * u) * k + v * l)
  {
  }

  /** The composed form does not depend on which Bezout coefficients the gcd returned. */
  lemma {:induction false} ComposeIndependent(D: int, f1: Form, f2: Form, w: Bezout, w': Bezout)
    requires PosDef(D, f1) && PosDef(D, f2) && IsBezout(f1, f2, w) && IsBezout(f1, f2, w')
    ensures ComposeRaw(D, f1, f2, w) == ComposeRaw(D, f1, f2, w')
  {
    SameGcd(f1, f2, w, w');
    ComposeSolves(D, f1, f2, w);
    ComposeSolves(D, f1, f2, w');
    SolutionUnique(D, f1, f2, w, Root(f1, f2, w), Root(f1, f2, w'));
  }

  // ---------------------------------------------------------------- the group laws

  function Compose(D: int, f1: Form, f2: Form): (f: Form)
    requires PosDef(D, f1) && PosDef(D, f2)
    ensures PosDef(D, f) && Reduced(f)
  {
    ComposeExact(D, f1, f2, BezoutOf(f1, f2));
    Reduce(D, ComposeRaw(D, f1, f2, BezoutOf(f1, f2)))
  }

  /** Forms with the same leading coefficient and middle ones equal modulo 2a reduce alike. */
  lemma {:induction false} TranslatesReduceAlike(D: int, f: Form, g: Form, k: int)
    requires PosDef(D, f) && PosDef(D, g) && f.a == g.a && g.b == f.b + 2 * f.a * k
    ensures Reduce(D, f) == Reduce(D, g)
  {
    TranslateKeepsDisc(f, k);
    MiddleFixesLast(D, Translate(f, k), g);
    TranslateEquivalent(f, k);
    ReduceIsCanonical(D, f, g);
  }

  function Swapped(w: Bezout): Bezout {
    Bezout(w.g, w.y, w.x, w.e, w.u, w.v)
  }

  lemma {:induction false} CrossIdentity(A1: int, A2: int, x: int, y: int, u: int, v: int, p: int, q: int, r: int)
    ensures ((A1 * x) * (A2 * p) + (A2 * y) * (A1 * q)) * u + v * ((A1 * A2) * r)
         == (A1 * A2) * ((x * p + y * q) * u + v * r)
  {
  }

  lemma {:induction false} SpreadIdentity(A1: int, A2: int, S: int, x: int, y: int, u: int, v: int, d: int)
    ensures ((A1 * x + A2 * y) * u + S * v) * d == ((A1 * x) * d + (A2 * y) * d) * u + v * (S * d)
  {
  }

  lemma {:induction false} SIdentity(A1: int, A2: int, S: int, h: int, c1: int, c2: int, t: int, t': int, l: int,
          l': int)
    requires S * t == -c2 + A1 * l && S * t' == -c1 + A2 * l' && h * S == A1 * c1 - A2 * c2
    ensures S * (A2 * t - A1 * t' - h) == (A1 * A2) * (l - l')
  {
    assert S * (A2 * t - A1 * t' - h) == A2 * (S * t) - A1 * (S * t') - h * S;
    assert A2 * (-c2 + A1 * l) == -(A2 * c2) + (A1 * A2) * l;
    assert A1 * (-c1 + A2 * l') == -(A1 * c1) + (A1 * A2) * l';
    assert (A1 * A2) * (l - l') == (A1 * A2) * l - (A1 * A2) * l';
  }

  /** The two middle coefficients of f1*f2 and f2*f1 differ by a multiple of 2*a3. */
  lemma {:induction false} MiddlesCongruent(A1: int, A2: int, S: int, x: int, y: int, u: int, v: int, h: int,
          c1: int, c2: int, t: int, t': int, k: int, k': int, l: int, l': int)
    returns (m: int)
    requires (A1 * x + A2 * y) * u + S * v == 1 && h * S == A1 * c1 - A2 * c2
    requires A2 * t == h + A1 * k && S * t == -c2 + A1 * l
    requires A1 * t' == -h + A2 * k' && S * t' == -c1 + A2 * l'
    ensures A2 * t - A1 * t' - h == (A1 * A2) * m
  {
    var d, p, q := A2 * t - A1 * t' - h, t - k', k - t';
    assert d == A1 * q && d == A2 * p;
    SIdentity(A1, A2, S, h, c1, c2, t, t', l, l');
    SpreadIdentity(A1, A2, S, x, y, u, v, d);
    CrossIdentity(A1, A2, x, y, u, v, p, q, l - l');
    m := (x * p + y * q) * u + v * (l - l');
  }

  /** Composition is commutative, exactly: both orders give the same reduced form. */
  lemma {:induction false} ComposeCommutes(D: int, f1: Form, f2: Form)
    requires PosDef(D, f1) && PosDef(D, f2)
    ensures Compose(D, f1, f2) == Compose(D, f2, f1)
  {
    var w := BezoutOf(f1, f2);
    var w' := Swapped(w);
    ComposeIndependent(D, f2, f1, BezoutOf(f2, f1), w');
    ComposeExact(D, f1, f2, w);
    ComposeExact(D, f2, f1, w');
    var m := RawOrdersCongruent(D, f1, f2, w);
    var F, F' := ComposeRaw(D, f1, f2, w), ComposeRaw(D, f2, f1, w');
    TranslatesReduceAlike(D, F', F, m);
  }

  lemma {:induction false} RawOrdersCongruent(D: int, f1: Form, f2: Form, w: Bezout) returns (m: int)
    requires PosDef(D, f1) && PosDef(D, f2) && IsBezout(f1, f2, w)
    ensures IsBezout(f2, f1, Swapped(w))
    ensures ComposeRaw(D, f1, f2, w).a == ComposeRaw(D, f2, f1, Swapped(w)).a
    ensures ComposeRaw(D, f1, f2, w).b
         == ComposeRaw(D, f2, f1, Swapped(w)).b + 2 * ComposeRaw(D, f2, f1, Swapped(w)).a * m
  {
    var w' := Swapped(w);
    QuotientsPositive(f1, f2, w);
    QuotientsPositive(f2, f1, w');
    Halves(D, f1, f2);
    Halves(D, f2, f1);
    var A1, A2, h := f1.a / w.e, f2.a / w.e, HalfDifference(f1, f2);
    var t, t' := Root(f1, f2, w), Root(f2, f1, w');
    m := RootsCongruent(D, f1, f2, w);
    assert 2 * A2 * t + f2.b - (2 * A1 * t' + f1.b) == 2 * (A2 * t - A1 * t' - h);
    assert 2 * (A2 * A1) * m == 2 * ((A1 * A2) * m);
  }

  lemma {:induction false} RootsCongruent(D: int, f1: Form, f2: Form, w: Bezout) returns (m: int)
    requires PosDef(D, f1) && PosDef(D, f2) && IsBezout(f1, f2, w) && IsBezout(f2, f1, Swapped(w))
    ensures (f2.a / w.e) * Root(f1, f2, w) - (f1.a / w.e) * Root(f2, f1, Swapped(w)) - HalfDifference(f1, f2)
         == ((f1.a / w.e) * (f2.a / w.e)) * m
  {
    var w' := Swapped(w);
    ComposeSolves(D, f1, f2, w);
    ComposeSolves(D, f2, f1, w');
    DividedSystem(D, f1, f2, w);
    Halves(D, f1, f2);
    Halves(D, f2, f1);
    var t, t' := Root(f1, f2, w), Root(f2, f1, w');
    var k, l := SolutionWitness(f1, f2, w.e, t);
    var k', l' := SolutionWitness(f2, f1, w.e, t');
    m := MiddlesCongruent(f1.a / w.e, f2.a / w.e, HalfSum(f1, f2) / w.e, w.x, w.y, w.u, w.v,
                          HalfDifference(f1, f2), f1.c, f2.c, t, t', k, k', l, l');
  }

  function Identity(D: int): (f: Form)
    requires ValidDiscriminant(D)
    ensures PosDef(D, f) && Reduced(f) && f == Form(1, 1, (1 - D) / 4)
  {
    Reduce(D, Form(1, 1, (1 - D) / 4))
  }

  /** The principal form is neutral on both sides, so on reduced forms it changes nothing. */
  lemma {:induction false} IdentityNeutral(D: int, f: Form)
    requires ValidDiscriminant(D) && PosDef(D, f)
    ensures Compose(D, Identity(D), f) == Reduce(D, f) == Compose(D, f, Identity(D))
    ensures Reduced(f) ==> Compose(D, f, Identity(D)) == f
  {
    var one := Identity(D);
    var w := BezoutOf(one, f);
    DivisorOfDivisor(1, w.g, w.e);
    MutualDivisors(w.e, 1);
    QuotientsPositive(one, f, w);
    LastCoefficientExact(D, f);
    assert ComposeRaw(D, one, f, w) == f;
    ComposeCommutes(D, f, one);
  }

  /** Any form of discriminant D that starts or ends with 1 is in the principal class. */
  lemma {:induction false} UnitForm(D: int, f: Form)
    requires ValidDiscriminant(D) && PosDef(D, f) && (f.a == 1 || f.c == 1)
    ensures Reduce(D, f) == Identity(D)
  {
    if f.a == 1 {
      UnitLeading(D, f);
    } else {
      RhoEquivalent(f);
      ReduceIsCanonical(D, f, Rho(f));
      UnitLeading(D, Rho(f));
    }
  }

  lemma {:induction false} UnitLeading(D: int, f: Form)
    requires ValidDiscriminant(D) && PosDef(D, f) && f.a == 1
    ensures Reduce(D, f) == Identity(D)
  {
    OddMiddle(D, f);
    var one, k := Identity(D), (f.b - 1) / 2;
    assert f.b == one.b + 2 * one.a * k;
    TranslatesReduceAlike(D, one, f, k);
    ReduceFixesReduced(D, one);
  }

  lemma {:induction false} OddMiddle(D: int, f: Form)
    requires ValidDiscriminant(D) && Disc(f) == D
    ensures f.b == 1 + 2 * ((f.b - 1) / 2)
  {
    ParityOfMiddle(f);
    assert D % 2 == 1;
  }

  function InverseForm(D: int, f: Form): (g: Form)
    requires PosDef(D, f)
    ensures PosDef(D, g) && Reduced(g)
  {
    Reduce(D, Form(f.a, -f.b, f.c))
  }

  predicate Divides(d: int, n: int) {
    d != 0 && n % d == 0
  }

  /** No integer above 1 divides all three coefficients. */
  ghost predicate Primitive(f: Form) {
    forall d :: d > 1 ==> !(Divides(d, f.a) && Divides(d, f.b) && Divides(d, f.c))
  }

  /** A reduced form is either ambiguous, and then its own inverse, or (a, -b, c) is its inverse. */
  lemma {:induction false} InverseOfReduced(D: int, f: Form)
    requires PosDef(D, f) && Reduced(f) && D % 2 == 1
    ensures InverseForm(D, f) == if f.b == f.a || f.a == f.c then f else Form(f.a, -f.b, f.c)
  {
    ParityOfMiddle(f);
    var g := Form(f.a, -f.b, f.c);
    if f.b == f.a {
      TranslatesReduceAlike(D, g, f, 1);
    } else if f.a == f.c {
      RhoEquivalent(f);
      ReduceIsCanonical(D, f, g);
    }
  }

  lemma {:induction false} GcdOfEquals(a: int, s: int, w: Bezout)
    requires a > 0 && w.g > 0 && a % w.g == 0 && a * w.x + a * w.y == w.g
    requires w.e > 0 && w.g % w.e == 0 && w.g * w.u + s * w.v == w.e && s % a == 0
    ensures w.g == a && w.e == a
  {
    DivideExactly(w.g, a, w.x + w.y);
    MutualDivisors(a, w.g);
    assert w.e == a * w.u + (a * (s / a)) * w.v;
    assert w.e == a * (w.u + (s / a) * w.v);
    DivideExactly(w.e, a, w.u + (s / a) * w.v);
    MutualDivisors(a, w.e);
  }

  /** f composed with its inverse is the principal form, for every reduced primitive form. */
  lemma {:induction false} InverseCancels(D: int, f: Form)
    requires ValidDiscriminant(D) && PosDef(D, f) && Reduced(f) && Primitive(f)
    ensures Compose(D, f, InverseForm(D, f)) == Identity(D) == Compose(D, InverseForm(D, f), f)
  {
    var g := InverseForm(D, f);
    InverseRaw(D, f, g, BezoutOf(f, g));
    ComposeUnit(D, f, g);
    ComposeCommutes(D, f, g);
  }

  lemma {:induction false} ComposeUnit(D: int, f: Form, g: Form)
    requires ValidDiscriminant(D) && PosDef(D, f) && PosDef(D, g)
    requires var raw := ComposeRaw(D, f, g, BezoutOf(f, g)); raw.a == 1 || raw.c == 1
    ensures Compose(D, f, g) == Identity(D)
  {
    ComposeExact(D, f, g, BezoutOf(f, g));
    UnitForm(D, ComposeRaw(D, f, g, BezoutOf(f, g)));
  }

  lemma {:induction false} InverseRaw(D: int, f: Form, g: Form, w: Bezout)
    requires PosDef(D, f) && Reduced(f) && Primitive(f) && D % 2 == 1
    requires g == InverseForm(D, f) && IsBezout(f, g, w)
    ensures g.a > 0 && (ComposeRaw(D, f, g, w).a == 1 || ComposeRaw(D, f, g, w).c == 1)
  {
    InverseOfReduced(D, f);
    if f.b == f.a || f.a != f.c {
      EqualLeading(D, f, g, w);
    } else {
      SquareOfAmbiguous(D, f, w);
    }
  }

  /** Equal leading coefficients that divide the half sum cancel to a leading coefficient of 1. */
  lemma {:induction false} EqualLeading(D: int, f: Form, g: Form, w: Bezout)
    requires f.a > 0 && g.a == f.a && IsBezout(f, g, w) && (HalfSum(f, g) == 0 || HalfSum(f, g) == f.a)
    ensures ComposeRaw(D, f, g, w).a == 1
  {
    GcdOfEquals(f.a, HalfSum(f, g), w);
    LeadingOfRaw(D, f, g, w);
    SquareOverSquare(f.a);
  }

  lemma {:induction false} LeadingOfRaw(D: int, f: Form, g: Form, w: Bezout)
    requires f.a > 0 && g.a > 0 && IsBezout(f, g, w)
    ensures w.e * w.e != 0 && ComposeRaw(D, f, g, w).a == (f.a * g.a) / (w.e * w.e)
  {
    QuotientsPositive(f, g, w);
  }

  lemma {:induction false} SquareOverSquare(a: int)
    requires a > 0
    ensures a * a > 0 && (a * a) / (a * a) == 1
  {
    SignOfProduct(a, a);
    DivideExactly(a * a, a * a, 1);
  }

  lemma {:induction false} SquareOfAmbiguous(D: int, f: Form, w: Bezout)
    requires PosDef(D, f) && D % 2 == 1 && f.a == f.c && Primitive(f) && IsBezout(f, f, w)
    ensures ComposeRaw(D, f, f, w).c == 1
  {
    QuotientsPositive(f, f, w);
    Halves(D, f, f);
    assert Divides(w.e, f.a) && Divides(w.e, f.b) && Divides(w.e, f.c);
    assert w.e == 1;
    AmbiguousRoot(f, w);
    assert f.b * f.b - D == (4 * (f.a * f.a)) * 1;
    DivideExactly(f.b * f.b - D, 4 * (f.a * f.a), 1);
  }

  lemma {:induction false} AmbiguousRoot(f: Form, w: Bezout)
    requires f.a > 0 && f.a == f.c && IsBezout(f, f, w) && w.e == 1
    ensures Root(f, f, w) == 0
  {
    assert HalfDifference(f, f) * w.y * w.u == 0;
    DivideExactly(-(f.c * w.v), f.a, -w.v);
  }

  /** A discriminant with no square factor has only primitive forms; -D prime is such a case. */
  lemma {:induction false} SquareFreeIsPrimitive(D: int, f: Form)
    requires PosDef(D, f)
    requires forall d :: d > 1 ==> !Divides(d * d, D)
    ensures Primitive(f)
  {
    forall d | d > 1
      ensures !(Divides(d, f.a) && Divides(d, f.b) && Divides(d, f.c))
    {
      CommonDivisorSquared(f, d);
    }
  }

  lemma {:induction false} CommonDivisorSquared(f: Form, d: int)
    requires d > 1
    ensures Divides(d, f.a) && Divides(d, f.b) && Divides(d, f.c) ==> Divides(d * d, Disc(f))
  {
    if Divides(d, f.a) && Divides(d, f.b) && Divides(d, f.c) {
      var p, q, r := f.a / d, f.b / d, f.c / d;
      DiscOfMultiple(d, p, q, r);
      SignOfProduct(d, d);
      DivideExactly(Disc(f), d * d, q * q - 4 * (p * r));
    }
  }

  lemma {:induction false} DiscOfMultiple(d: int, p: int, q: int, r: int)
    ensures (d * q) * (d * q) - 4 * (d * p) * (d * r) == (d * d) * (q * q - 4 * (p * r))
  {
  }
}
