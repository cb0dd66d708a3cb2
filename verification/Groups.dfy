/** The group interface the accumulator is written against, integer powers in it, and the
    4-bit windowed exponentiation of the class-group backend. */
module Groups {
  import opened Bits

  datatype Group<!T> = Group(op: (T, T) -> T, one: T, inv: T -> T, gen: T)

  ghost predicate Associates<T>(G: Group<T>, a: T, b: T, c: T) {
    G.op(G.op(a, b), c) == G.op(a, G.op(b, c))
  }

  ghost predicate Commutes<T>(G: Group<T>, a: T, b: T) {
    G.op(a, b) == G.op(b, a)
  }

  ghost predicate HasUnits<T>(G: Group<T>, a: T) {
    G.op(a, G.one) == a && G.op(a, G.inv(a)) == G.one
  }

  /** The laws the interface documents. */
  ghost predicate Abelian<T(!new)>(G: Group<T>) {
    && (forall a, b, c :: Associates(G, a, b, c))
    && (forall a, b :: Commutes(G, a, b))
    && (forall a :: HasUnits(G, a))
  }

  /** n-fold composition, the reference for every exponentiation. */
  function Pow<T>(G: Group<T>, a: T, n: nat): T {
    if n == 0 then G.one else G.op(Pow(G, a, n - 1), a)
  }

  function PowZ<T>(G: Group<T>, a: T, e: int): T {
    if e < 0 then Pow(G, G.inv(a), -e) else Pow(G, a, e)
  }

  // -------------------------------------------------------------- laws of powers

  lemma {:induction false} PowAdd<T(!new)>(G: Group<T>, a: T, m: nat, n: nat)
    requires Abelian(G)
    ensures Pow(G, a, m + n) == G.op(Pow(G, a, m), Pow(G, a, n))
  {
    if n == 0 {
      assert HasUnits(G, Pow(G, a, m));
    } else {
      PowAdd(G, a, m, n - 1);
      assert Associates(G, Pow(G, a, m), Pow(G, a, n - 1), a);
    }
  }

  lemma {:induction false} PowMul<T(!new)>(G: Group<T>, a: T, m: nat, n: nat)
    requires Abelian(G)
    ensures Pow(G, Pow(G, a, m), n) == Pow(G, a, m * n)
  {
    if n == 0 {
      assert m * 0 == 0;
    } else {
      PowMul(G, a, m, n - 1);
      PowAdd(G, a, m * (n - 1), m);
      assert m * (n - 1) + m == m * n;
    }
  }

  lemma {:induction false} Regroup<T(!new)>(G: Group<T>, a: T, b: T, c: T, d: T)
    requires Abelian(G)
    ensures G.op(G.op(a, b), G.op(c, d)) == G.op(G.op(a, c), G.op(b, d))
  {
    assert Associates(G, a, b, G.op(c, d)) && Associates(G, b, c, d);
    assert Commutes(G, b, c);
    assert Associates(G, c, b, d) && Associates(G, a, c, G.op(b, d));
  }

  lemma {:induction false} PowOp<T(!new)>(G: Group<T>, a: T, b: T, n: nat)
    requires Abelian(G)
    ensures Pow(G, G.op(a, b), n) == G.op(Pow(G, a, n), Pow(G, b, n))
  {
    if n == 0 {
      assert HasUnits(G, G.one);
    } else {
      PowOp(G, a, b, n - 1);
      Regroup(G, Pow(G, a, n - 1), Pow(G, b, n - 1), a, b);
    }
  }

  lemma {:induction false} PowOne<T(!new)>(G: Group<T>, n: nat)
    requires Abelian(G)
    ensures Pow(G, G.one, n) == G.one
  {
    if n > 0 {
      PowOne(G, n - 1);
      assert HasUnits(G, G.one);
    }
  }

  lemma {:induction false} InverseUnique<T(!new)>(G: Group<T>, a: T, b: T)
    requires Abelian(G) && G.op(a, b) == G.one
    ensures b == G.inv(a)
  {
    assert HasUnits(G, a) && HasUnits(G, b) && HasUnits(G, G.inv(a));
    assert Associates(G, b, a, G.inv(a));
    assert Commutes(G, a, b) && Commutes(G, G.one, G.inv(a));
  }

  lemma {:induction false} PowInverse<T(!new)>(G: Group<T>, a: T, n: nat)
    requires Abelian(G)
    ensures Pow(G, G.inv(a), n) == G.inv(Pow(G, a, n))
  {
    PowOp(G, a, G.inv(a), n);
    assert HasUnits(G, a);
    PowOne(G, n);
    InverseUnique(G, Pow(G, a, n), Pow(G, G.inv(a), n));
  }

  lemma {:induction false} InverseOfInverse<T(!new)>(G: Group<T>, a: T)
    requires Abelian(G)
    ensures G.inv(G.inv(a)) == a
  {
    assert HasUnits(G, a) && Commutes(G, a, G.inv(a));
    InverseUnique(G, G.inv(a), a);
  }

  lemma {:induction false} InverseOfOp<T(!new)>(G: Group<T>, a: T, b: T)
    requires Abelian(G)
    ensures G.inv(G.op(a, b)) == G.op(G.inv(a), G.inv(b))
  {
    Regroup(G, a, b, G.inv(a), G.inv(b));
    assert HasUnits(G, a) && HasUnits(G, b) && HasUnits(G, G.one);
    InverseUnique(G, G.op(a, b), G.op(G.inv(a), G.inv(b)));
  }

  lemma {:induction false} Undo<T(!new)>(G: Group<T>, p: T, q: T)
    requires Abelian(G)
    ensures G.op(G.op(p, q), G.inv(q)) == p
    ensures G.op(q, G.inv(G.op(p, q))) == G.inv(p)
  {
    assert Associates(G, p, q, G.inv(q)) && HasUnits(G, q) && HasUnits(G, p);
    InverseOfOp(G, p, q);
    assert Commutes(G, G.inv(p), G.inv(q)) && Associates(G, q, G.inv(q), G.inv(p));
    assert Commutes(G, G.one, G.inv(p)) && HasUnits(G, G.inv(p));
  }

  /** a^(m-n) for naturals, as a quotient. */
  lemma {:induction false} PowDifference<T(!new)>(G: Group<T>, a: T, m: nat, n: nat)
    requires Abelian(G)
    ensures PowZ(G, a, m - n) == G.op(Pow(G, a, m), G.inv(Pow(G, a, n)))
  {
    if m >= n {
      PositiveQuotient(G, a, m - n, n);
    } else {
      NegativeQuotient(G, a, n - m, m);
    }
  }

  lemma {:induction false} PositiveQuotient<T(!new)>(G: Group<T>, a: T, k: nat, n: nat)
    requires Abelian(G)
    ensures Pow(G, a, k) == G.op(Pow(G, a, k + n), G.inv(Pow(G, a, n)))
  {
    PowAdd(G, a, k, n);
    Undo(G, Pow(G, a, k), Pow(G, a, n));
  }

  lemma {:induction false} NegativeQuotient<T(!new)>(G: Group<T>, a: T, k: nat, m: nat)
    requires Abelian(G)
    ensures Pow(G, G.inv(a), k) == G.op(Pow(G, a, m), G.inv(Pow(G, a, k + m)))
  {
    PowAdd(G, a, k, m);
    PowInverse(G, a, k);
    Undo(G, Pow(G, a, k), Pow(G, a, m));
  }

  lemma {:induction false} PowZAdd<T(!new)>(G: Group<T>, a: T, d: int, e: int)
    requires Abelian(G)
    ensures PowZ(G, a, d + e) == G.op(PowZ(G, a, d), PowZ(G, a, e))
  {
    var (p, q) := (if d < 0 then 0 else d, if d < 0 then -d else 0);
    var (r, s) := (if e < 0 then 0 else e, if e < 0 then -e else 0);
    PowDifference(G, a, p, q);
    PowDifference(G, a, r, s);
    PowDifference(G, a, p + r, q + s);
    assert d == p - q && e == r - s && d + e == (p + r) - (q + s);
    PowAdd(G, a, p, r);
    PowAdd(G, a, q, s);
    InverseOfOp(G, Pow(G, a, q), Pow(G, a, s));
    Regroup(G, Pow(G, a, p), Pow(G, a, r), G.inv(Pow(G, a, q)), G.inv(Pow(G, a, s)));
  }

  lemma {:induction false} PowZInverse<T(!new)>(G: Group<T>, a: T, e: int)
    requires Abelian(G)
    ensures PowZ(G, a, -e) == G.inv(PowZ(G, a, e)) == PowZ(G, G.inv(a), e)
  {
    var n: nat := if e < 0 then -e else e;
    PowInverse(G, a, n);
    InverseOfInverse(G, a);
    InverseOfInverse(G, Pow(G, a, n));
    assert HasUnits(G, G.one);
    InverseUnique(G, G.one, G.one);
  }

  lemma {:induction false} PowZMulNat<T(!new)>(G: Group<T>, a: T, d: int, n: nat)
    requires Abelian(G)
    ensures Pow(G, PowZ(G, a, d), n) == PowZ(G, a, d * n)
  {
    if d >= 0 {
      PowMul(G, a, d, n);
    } else {
      PowMul(G, G.inv(a), -d, n);
      assert (-d) * n == -(d * n) && d * n <= 0;
    }
  }

  lemma {:induction false} PowZMul<T(!new)>(G: Group<T>, a: T, d: int, e: int)
    requires Abelian(G)
    ensures PowZ(G, PowZ(G, a, d), e) == PowZ(G, a, d * e)
  {
    if e >= 0 {
      PowZMulNat(G, a, d, e);
    } else {
      PowZInverse(G, a, d);
      PowZMulNat(G, a, -d, -e);
      assert (-d) * (-e) == d * e;
    }
  }

  lemma {:induction false} PowZOp<T(!new)>(G: Group<T>, a: T, b: T, e: int)
    requires Abelian(G)
    ensures PowZ(G, G.op(a, b), e) == G.op(PowZ(G, a, e), PowZ(G, b, e))
  {
    if e >= 0 {
      PowOp(G, a, b, e);
    } else {
      InverseOfOp(G, a, b);
      PowOp(G, G.inv(a), G.inv(b), -e);
    }
  }

  lemma {:induction false} PowZFirst<T(!new)>(G: Group<T>, a: T)
    requires Abelian(G)
    ensures PowZ(G, a, 1) == a
  {
    assert Pow(G, a, 0) == G.one;
    assert Commutes(G, G.one, a) && HasUnits(G, a);
  }

  // -------------------------------------------------- windowed exponentiation

  /** The exponentiation of the backend: a table of 16 powers, four squarings per window,
      one multiplication per non-zero window. */
  method Exp<T(!new)>(G: Group<T>, a: T, e: int) returns (result: T)
    requires Abelian(G)
    ensures result == PowZ(G, a, e)
  {
    if e == 0 {
      return G.one;
    }
    if e < 0 {
      result := ExpPositive(G, G.inv(a), -e);
    } else {
      result := ExpPositive(G, a, e);
    }
  }

  method ExpPositive<T(!new)>(G: Group<T>, base: T, exp: nat) returns (result: T)
    requires Abelian(G)
    ensures result == Pow(G, base, exp)
  {
    var tbl := PowerTable(G, base);
    result := G.one;
    var nbits := BitLen(exp);
    var pos := (nbits + 3) / 4 * 4;
    NothingPastBitLen(exp, pos);
    while pos > 0
      invariant pos % 4 == 0 && pos >= 0
      invariant IsTable(G, base, tbl[..])
      invariant result == Pow(G, base, Shr(exp, pos))
    {
      pos := pos - 4;
      result := WindowStep(G, base, exp, nbits, pos, tbl, result);
    }
  }

  method WindowStep<T(!new)>(G: Group<T>, ghost base: T, exp: nat, nbits: nat, pos: nat, tbl: array<T>, r: T)
    returns (r': T)
    requires Abelian(G) && nbits == BitLen(exp) && IsTable(G, base, tbl[..])
    requires r == Pow(G, base, Shr(exp, pos + 4))
    ensures r' == Pow(G, base, Shr(exp, pos))
  {
    ghost var high := Shr(exp, pos + 4);
    r' := FourSquarings(G, base, high, r);
    var win := Window(exp, nbits, pos);
    PowAdd(G, base, 16 * high, win);
    if win != 0 {
      assert tbl[..][win] == Pow(G, base, win);
      r' := G.op(r', tbl[win]);
    } else {
      assert HasUnits(G, r');
    }
  }

  ghost predicate IsTable<T(!new)>(G: Group<T>, base: T, s: seq<T>) {
    |s| == 16 && forall j {:trigger s[j]} :: 0 <= j < 16 ==> s[j] == Pow(G, base, j)
  }

  method PowerTable<T(!new)>(G: Group<T>, base: T) returns (tbl: array<T>)
    requires Abelian(G)
    ensures fresh(tbl) && tbl.Length == 16 && IsTable(G, base, tbl[..])
  {
    tbl := new T[16](_ => G.one);
    tbl[1] := base;
    assert Commutes(G, G.one, base) && HasUnits(G, base);
    assert Pow(G, base, 1) == base;
    for i := 2 to 16
      invariant tbl[0] == Pow(G, base, 0)
      invariant forall j :: 0 <= j < i ==> tbl[j] == Pow(G, base, j)
    {
      tbl[i] := G.op(tbl[i - 1], base);
    }
  }

  method FourSquarings<T(!new)>(G: Group<T>, ghost base: T, ghost n: nat, r: T) returns (r': T)
    requires Abelian(G) && r == Pow(G, base, n)
    ensures r' == Pow(G, base, 16 * n)
  {
    r' := r;
    ghost var m := n;
    for s := 0 to 4
      invariant r' == Pow(G, base, m)
      invariant m == [1, 2, 4, 8, 16][s] * n
    {
      PowAdd(G, base, m, m);
      r' := G.op(r', r');
      m := 2 * m;
    }
  }

  /** The four bits of exp from pos upward, read from the top. */
  method Window(exp: nat, nbits: nat, pos: nat) returns (win: nat)
    requires nbits == BitLen(exp)
    ensures win < 16 && Shr(exp, pos) == 16 * Shr(exp, pos + 4) + win
  {
    win := 0;
    var b := pos + 4;
    while b > pos
      invariant pos <= b <= pos + 4
      invariant win < [16, 8, 4, 2, 1][b - pos]
      invariant Shr(exp, b) == [16, 8, 4, 2, 1][b - pos] * Shr(exp, pos + 4) + win
    {
      b := b - 1;
      win := 2 * win;
      if b < nbits {
        if Bit(exp, b) == 1 {
          win := win + 1;
        }
      } else {
        NothingPastBitLen(exp, b);
      }
    }
  }
}
