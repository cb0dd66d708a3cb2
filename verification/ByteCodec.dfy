/** Self-delimiting byte encodings: words, length-prefixed strings, and rows of both. Each can be cut
    off the front of a longer string in only one way. */
module ByteCodec {
  import opened Bits
  import opened FormCodec

  type Str = seq<byte>

  const WORD: nat := 0x1_0000_0000_0000_0000

  // -------------------------------------------------------------------------------- words

  function BigEndian(n: nat, k: nat): (s: Str)
    ensures |s| == k
  {
    if k == 0 then [] else BigEndian(n / 256, k - 1) + [n % 256]
  }

  lemma {:induction false} BigEndianExact(n: nat, k: nat)
    requires n < Pow256(k)
    ensures FromBytes(BigEndian(n, k)) == n
  {
    if k > 0 {
      var s := BigEndian(n, k);
      assert n / 256 < Pow256(k - 1);
      BigEndianExact(n / 256, k - 1);
      assert s[..k - 1] == BigEndian(n / 256, k - 1);
    }
  }

  /** Eight bytes, big-endian. */
  function Word(n: nat): (s: Str)
    ensures |s| == 8
  {
    BigEndian(n, 8)
  }

  lemma {:induction false} CutWord(n: nat, m: nat, r: Str, s: Str)
    requires n < WORD && m < WORD && Word(n) + r == Word(m) + s
    ensures n == m && r == s
  {
    assert Pow256(4) == 0x1_0000_0000;
    assert Pow256(8) == WORD;
    assert (Word(n) + r)[..8] == Word(n) && (Word(m) + s)[..8] == Word(m);
    assert (Word(n) + r)[8..] == r && (Word(m) + s)[8..] == s;
    BigEndianExact(n, 8);
    BigEndianExact(m, 8);
  }

  // ------------------------------------------------------------------------------ strings

  function Prefixed(b: Str): Str { Word(|b|) + b }

  lemma {:induction false} CutPrefixed(a: Str, b: Str, r: Str, s: Str)
    requires |a| < WORD && |b| < WORD && Prefixed(a) + r == Prefixed(b) + s
    ensures a == b && r == s
  {
    assert Prefixed(a) + r == Word(|a|) + (a + r) && Prefixed(b) + s == Word(|b|) + (b + s);
    CutWord(|a|, |b|, a + r, b + s);
    CutSame(a, b, r, s);
  }

  lemma {:induction false} Assoc(a: Str, b: Str, c: Str)
    ensures a + b + c == a + (b + c)
  {
  }

  lemma {:induction false} CutSame(a: Str, b: Str, r: Str, s: Str)
    requires |a| == |b| && a + r == b + s
    ensures a == b && r == s
  {
    assert (a + r)[..|a|] == a && (b + s)[..|b|] == b;
    assert (a + r)[|a|..] == r && (b + s)[|b|..] == s;
  }

  // --------------------------------------------------------------------------------- rows

  datatype Kind = Number | Text

  datatype Field = Num(n: nat) | Txt(b: Str)

  predicate FieldFits(k: Kind, f: Field) {
    match k
    case Number => f.Num? && f.n < WORD
    case Text => f.Txt? && |f.b| < WORD
  }

  predicate FieldsFit(schema: seq<Kind>, fs: seq<Field>) {
    |fs| == |schema| && forall i :: 0 <= i < |fs| ==> FieldFits(schema[i], fs[i])
  }

  function FieldBytes(f: Field): Str {
    match f
    case Num(n) => Word(n)
    case Txt(b) => Prefixed(b)
  }

  function FieldsBytes(fs: seq<Field>): Str {
    if fs == [] then [] else FieldBytes(fs[0]) + FieldsBytes(fs[1..])
  }

  lemma {:induction false} CutFields(schema: seq<Kind>, fs: seq<Field>, gs: seq<Field>, r: Str, s: Str)
    requires FieldsFit(schema, fs) && FieldsFit(schema, gs) && FieldsBytes(fs) + r == FieldsBytes(gs) + s
    ensures fs == gs && r == s
    decreases |schema|
  {
    if schema == [] {
      CutSame([], [], r, s);
    } else {
      Assoc(FieldBytes(fs[0]), FieldsBytes(fs[1..]), r);
      Assoc(FieldBytes(gs[0]), FieldsBytes(gs[1..]), s);
      CutField(schema[0], fs[0], gs[0], FieldsBytes(fs[1..]) + r, FieldsBytes(gs[1..]) + s);
      CutFields(schema[1..], fs[1..], gs[1..], r, s);
      assert fs == [fs[0]] + fs[1..] && gs == [gs[0]] + gs[1..];
    }
  }

  lemma {:induction false} CutField(k: Kind, f: Field, g: Field, r: Str, s: Str)
    requires FieldFits(k, f) && FieldFits(k, g) && FieldBytes(f) + r == FieldBytes(g) + s
    ensures f == g && r == s
  {
    match k
    case Number => CutWord(f.n, g.n, r, s);
    case Text => CutPrefixed(f.b, g.b, r, s);
  }

  datatype Row = Row(key: Str, fields: seq<Field>)

  predicate RowFits(schema: seq<Kind>, row: Row) { |row.key| < WORD && FieldsFit(schema, row.fields) }

  predicate RowsFit(schema: seq<Kind>, rows: seq<Row>) {
    |rows| < WORD && forall i :: 0 <= i < |rows| ==> RowFits(schema, rows[i])
  }

  function RowBytes(row: Row): Str { Prefixed(row.key) + FieldsBytes(row.fields) }

  function RowsBytes(rows: seq<Row>): Str {
    if rows == [] then [] else RowBytes(rows[0]) + RowsBytes(rows[1..])
  }

  lemma {:induction false} CutRow(schema: seq<Kind>, a: Row, b: Row, r: Str, s: Str)
    requires RowFits(schema, a) && RowFits(schema, b) && RowBytes(a) + r == RowBytes(b) + s
    ensures a == b && r == s
  {
    Assoc(Prefixed(a.key), FieldsBytes(a.fields), r);
    Assoc(Prefixed(b.key), FieldsBytes(b.fields), s);
    CutPrefixed(a.key, b.key, FieldsBytes(a.fields) + r, FieldsBytes(b.fields) + s);
    CutFields(schema, a.fields, b.fields, r, s);
  }

  lemma {:induction false} CutRows(schema: seq<Kind>, xs: seq<Row>, ys: seq<Row>, r: Str, s: Str)
    requires RowsFit(schema, xs) && RowsFit(schema, ys) && |xs| == |ys| && RowsBytes(xs) + r == RowsBytes(ys) + s
    ensures xs == ys && r == s
    decreases |xs|
  {
    if xs == [] {
      CutSame([], [], r, s);
    } else {
      Assoc(RowBytes(xs[0]), RowsBytes(xs[1..]), r);
      Assoc(RowBytes(ys[0]), RowsBytes(ys[1..]), s);
      CutRow(schema, xs[0], ys[0], RowsBytes(xs[1..]) + r, RowsBytes(ys[1..]) + s);
      CutRows(schema, xs[1..], ys[1..], r, s);
      assert xs == [xs[0]] + xs[1..] && ys == [ys[0]] + ys[1..];
    }
  }

  // ------------------------------------------------------------------------------ sections

  /** A named table: the name, the number of rows, the rows. */
  datatype Section = Section(name: Str, schema: seq<Kind>, rows: seq<Row>)

  function SectionBytes(x: Section): Str { x.name + (Word(|x.rows|) + RowsBytes(x.rows)) }

  function SectionsBytes(xs: seq<Section>): Str {
    if xs == [] then [] else SectionBytes(xs[0]) + SectionsBytes(xs[1..])
  }

  predicate SameShape(x: Section, y: Section) {
    x.name == y.name && x.schema == y.schema && RowsFit(x.schema, x.rows) && RowsFit(y.schema, y.rows)
  }

  lemma {:induction false} CutSection(x: Section, y: Section, r: Str, s: Str)
    requires SameShape(x, y) && SectionBytes(x) + r == SectionBytes(y) + s
    ensures x == y && r == s
  {
    var (xb, yb) := (Word(|x.rows|) + RowsBytes(x.rows), Word(|y.rows|) + RowsBytes(y.rows));
    Assoc(x.name, xb, r);
    Assoc(y.name, yb, s);
    CutSame(x.name, y.name, xb + r, yb + s);
    Assoc(Word(|x.rows|), RowsBytes(x.rows), r);
    Assoc(Word(|y.rows|), RowsBytes(y.rows), s);
    CutWord(|x.rows|, |y.rows|, RowsBytes(x.rows) + r, RowsBytes(y.rows) + s);
    CutRows(x.schema, x.rows, y.rows, r, s);
  }

  /** Tables of the same names and schemas are told apart by their bytes. */
  lemma {:induction false} CutSections(xs: seq<Section>, ys: seq<Section>)
    requires |xs| == |ys| && SectionsBytes(xs) == SectionsBytes(ys)
    requires forall i :: 0 <= i < |xs| ==> SameShape(xs[i], ys[i])
    ensures xs == ys
    decreases |xs|
  {
    if xs != [] {
      assert SameShape(xs[0], ys[0]);
      CutSection(xs[0], ys[0], SectionsBytes(xs[1..]), SectionsBytes(ys[1..]));
      CutSections(xs[1..], ys[1..]);
      assert xs == [xs[0]] + xs[1..] && ys == [ys[0]] + ys[1..];
    }
  }
}
