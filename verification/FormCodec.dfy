/** The wire form of a class-group element: length-prefixed a and |b|, a sign byte for b,
    and c recovered from the discriminant. */
module FormCodec {
  import opened Wrappers
  import opened Bits
  import opened QuadraticForms

  /** Minimal big-endian bytes of a natural. */
  function ToBytes(n: nat): seq<byte> {
    if n == 0 then [] else ToBytes(n / 256) + [n % 256]
  }

  lemma {:induction false} FromToBytes(n: nat)
    ensures FromBytes(ToBytes(n)) == n
  {
    if n > 0 {
      var s := ToBytes(n);
      FromToBytes(n / 256);
      assert s[..|s| - 1] == ToBytes(n / 256);
    }
  }

  /** A proper prefix of a number's bytes is a smaller number. */
  lemma {:induction false} PrefixIsSmaller(n: nat, k: nat)
    requires k < |ToBytes(n)|
    ensures FromBytes(ToBytes(n)[..k]) < n
  {
    var s := ToBytes(n);
    assert s[..|s| - 1] == ToBytes(n / 256);
    FromToBytes(n / 256);
    if k < |s| - 1 {
      PrefixIsSmaller(n / 256, k);
      assert s[..k] == ToBytes(n / 256)[..k];
    }
  }

  lemma {:induction false} FewerBytes(m: nat, n: nat)
    requires m <= n
    ensures |ToBytes(m)| <= |ToBytes(n)|
  {
    if m > 0 { FewerBytes(m / 256, n / 256); }
  }

  function Length16(n: nat): seq<byte> {
    [(n / 256) % 256, n % 256]
  }

  function Magnitude(b: int): nat {
    if b < 0 then -b else b
  }

  function Marshal(f: Form): seq<byte>
    requires f.a >= 0
  {
    var ab, bb := ToBytes(f.a), ToBytes(Magnitude(f.b));
    Length16(|ab|) + ab + [if f.b < 0 then 1 else 0] + Length16(|bb|) + bb
  }

  /** The fields of a buffer: the bytes of a, the sign byte, the bytes of |b|. */
  datatype Fields = Fields(a: seq<byte>, sign: byte, b: seq<byte>)

  /** None is the short-buffer and bad-length errors. */
  function Parse(buf: seq<byte>): Option<Fields> {
    if |buf| < 5 then None
    else
      var la: int := (buf[0] as int) * 256 + buf[1];
      if 2 + la + 3 > |buf| then None
      else
        var lb: int := (buf[la + 3] as int) * 256 + buf[la + 4];
        if la + 5 + lb > |buf| then None
        else Some(Fields(buf[2..2 + la], buf[la + 2], buf[la + 5..la + 5 + lb]))
  }

  function Unmarshal(D: int, buf: seq<byte>): (r: Option<Form>)
    requires D < 0
    ensures r.Some? ==> PosDef(D, r.value) && Reduced(r.value)
  {
    var p := Parse(buf);
    if p.None? then None
    else
      var m: int := FromBytes(p.value.b);
      Rebuild(D, FromBytes(p.value.a), if p.value.sign == 1 then -m else m)
  }

  /** The checks after parsing: a positive, c integral, the form reduced. */
  function Rebuild(D: int, A: int, B: int): (r: Option<Form>)
    requires D < 0
    ensures r.Some? ==> PosDef(D, r.value) && Reduced(r.value)
  {
    if A <= 0 || (B * B - D) % (4 * A) != 0 then None
    else
      var f := Form(A, B, (B * B - D) / (4 * A));
      assert Disc(f) == D by { assert B * B - D == (4 * A) * f.c; }
      if Reduce(D, f) == f then Some(f) else None
  }

  lemma {:induction false} RebuildKnown(D: int, f: Form)
    requires PosDef(D, f) && Reduced(f)
    ensures Rebuild(D, f.a, f.b) == Some(f)
  {
    LastCoefficientExact(D, f);
    ReduceFixesReduced(D, f);
  }

  lemma {:induction false} MarshalLayout(f: Form)
    requires f.a >= 0
    ensures var (buf, ab, bb) := (Marshal(f), ToBytes(f.a), ToBytes(Magnitude(f.b)));
            && |buf| == 5 + |ab| + |bb|
            && buf[0] == (|ab| / 256) % 256 && buf[1] == |ab| % 256
            && buf[2..2 + |ab|] == ab
            && buf[|ab| + 2] == (if f.b < 0 then 1 else 0)
            && buf[|ab| + 3] == (|bb| / 256) % 256 && buf[|ab| + 4] == |bb| % 256
            && buf[|ab| + 5..] == bb
  {
    var buf, ab, bb := Marshal(f), ToBytes(f.a), ToBytes(Magnitude(f.b));
    var head := Length16(|ab|) + ab;
    var mid := head + [if f.b < 0 then 1 else 0] + Length16(|bb|);
    assert buf == mid + bb && |head| == 2 + |ab| && |mid| == 5 + |ab|;
    assert forall i :: 0 <= i < |mid| ==> buf[i] == mid[i];
    assert head == mid[..|head|] == buf[..|head|];
    assert mid[|head|] == (if f.b < 0 then 1 else 0);
    assert mid[|head| + 1] == Length16(|bb|)[0] && mid[|head| + 2] == Length16(|bb|)[1];
  }

  lemma {:induction false} ParseShort(f: Form, tail: seq<byte>)
    requires f.a >= 0 && |ToBytes(f.a)| < 65536 && |ToBytes(Magnitude(f.b))| < 65536
    ensures Parse(Marshal(f) + tail)
         == Some(Fields(ToBytes(f.a), if f.b < 0 then 1 else 0, ToBytes(Magnitude(f.b))))
  {
    var ab, bb, buf := ToBytes(f.a), ToBytes(Magnitude(f.b)), Marshal(f) + tail;
    MarshalLayout(f);
    Length16Back(|ab|);
    Length16Back(|bb|);
    ParseAt(buf, ab, bb);
  }

  lemma {:induction false} Length16Back(n: nat)
    requires n < 65536
    ensures ((n / 256) % 256) * 256 + n % 256 == n
  {
  }

  lemma {:induction false} ParseAt(buf: seq<byte>, ab: seq<byte>, bb: seq<byte>)
    requires |buf| >= 5 + |ab| + |bb| && buf[2..2 + |ab|] == ab && buf[|ab| + 5..|ab| + 5 + |bb|] == bb
    requires (buf[0] as int) * 256 + buf[1] == |ab|
    requires (buf[|ab| + 3] as int) * 256 + buf[|ab| + 4] == |bb|
    ensures Parse(buf) == Some(Fields(ab, buf[|ab| + 2], bb))
  {
  }

  lemma {:induction false} ParseLong(f: Form, tail: seq<byte>)
    requires f.a >= 0 && |ToBytes(f.a)| >= 65536
    ensures var p := Parse(Marshal(f) + tail); p.Some? ==> FromBytes(p.value.a) < f.a
  {
    var ab, buf := ToBytes(f.a), Marshal(f) + tail;
    MarshalLayout(f);
    var la: int := (buf[0] as int) * 256 + buf[1];
    assert la < |ab|;
    PrefixIsSmaller(f.a, la);
    assert buf[2..2 + la] == ab[..la];
  }

  /** Unmarshal undoes Marshal on reduced forms, whatever bytes follow, exactly when the
      length of a fits the 16-bit prefix; past that the prefix wraps and the form is lost.
      So an element has many encodings: bytes after the form are ignored. */
  lemma {:induction false} RoundTrip(D: int, f: Form, tail: seq<byte>)
    requires PosDef(D, f) && Reduced(f)
    ensures Unmarshal(D, Marshal(f) + tail) == Some(f) <==> |ToBytes(f.a)| < 65536
  {
    if |ToBytes(f.a)| < 65536 {
      FewerBytes(Magnitude(f.b), f.a);
      ParseShort(f, tail);
      FromToBytes(f.a);
      FromToBytes(Magnitude(f.b));
      RebuildKnown(D, f);
    } else {
      ParseLong(f, tail);
    }
  }

  lemma {:induction false} PowerLength(k: nat)
    ensures Pow256(k) > 0 && |ToBytes(Pow256(k))| == k + 1
  {
    if k == 0 {
      assert ToBytes(0) == [];
    } else {
      PowerLength(k - 1);
      assert Pow256(k) / 256 == Pow256(k - 1);
    }
  }

  /** Such forms exist: past every length there is a reduced form that does not survive. */
  lemma {:induction false} LongForm(k: nat, tail: seq<byte>)
    requires k >= 65535
    ensures var f := Form(Pow256(k), 1, Pow256(k));
      PosDef(Disc(f), f) && Reduced(f) && Unmarshal(Disc(f), Marshal(f) + tail) != Some(f)
  {
    PowerLength(k);
    SquareForm(Pow256(k));
    var f := Form(Pow256(k), 1, Pow256(k));
    RoundTrip(Disc(f), f, tail);
  }

  lemma {:induction false} SquareForm(a: int)
    requires a > 0
    ensures var f := Form(a, 1, a); PosDef(Disc(f), f) && Reduced(f)
  {
    assert a * a >= 1;
  }

  /** The layout by an example: two bytes of length, the coefficient, the sign of b, and b likewise. */
  lemma {:induction false} MarshalExample(c: int)
    ensures Marshal(Form(0x102, -3, c)) == [0, 2, 1, 2, 1, 0, 1, 3]
  {
    assert ToBytes(0) == [];
    assert ToBytes(1) == [1] && ToBytes(3) == [3];
    assert ToBytes(0x102) == ToBytes(1) + [2];
  }
}
