/** The preimage of the state root: an encoding of the residual consensus state that no two states
    share and that does not depend on the order in which maps are enumerated. */
module StateRoot {
  import opened ByteCodec

  // ------------------------------------------------------------------------- sorted keys

  /** Byte-wise order of strings. */
  predicate Less(a: Str, b: Str) {
    b != [] && (a == [] || a[0] < b[0] || (a[0] == b[0] && Less(a[1..], b[1..])))
  }

  lemma {:induction false} LessTotal(a: Str, b: Str)
    ensures Less(a, b) || Less(b, a) || a == b
    ensures !(Less(a, b) && Less(b, a)) && !Less(a, a)
  {
    if a != [] && b != [] {
      LessTotal(a[1..], b[1..]);
      assert a == [a[0]] + a[1..] && b == [b[0]] + b[1..];
    }
    if a != [] { LessTotal(a[1..], a[1..]); }
  }

  lemma {:induction false} LessTrans(a: Str, b: Str, c: Str)
    requires Less(a, b) && Less(b, c)
    ensures Less(a, c)
  {
    if a != [] && a[0] == b[0] == c[0] { LessTrans(a[1..], b[1..], c[1..]); }
  }

  predicate Ascending(s: seq<Str>) {
    forall i, j :: 0 <= i < j < |s| ==> Less(s[i], s[j])
  }

  ghost predicate Sorts(s: seq<Str>, ks: set<Str>) {
    Ascending(s) && forall k :: k in s <==> k in ks
  }

  /** A set of strings has one ascending enumeration. */
  lemma {:induction false} SortsOnce(s: seq<Str>, t: seq<Str>, ks: set<Str>)
    requires Sorts(s, ks) && Sorts(t, ks)
    ensures s == t
  {
    SortsEmpty(s, ks);
    SortsEmpty(t, ks);
    if ks != {} {
      SortsFirst(s, t, ks);
      SortsRest(s, ks);
      SortsRest(t, ks);
      SortsOnce(s[1..], t[1..], ks - {s[0]});
      assert s == [s[0]] + s[1..] && t == [t[0]] + t[1..];
    }
  }

  lemma {:induction false} SortsEmpty(s: seq<Str>, ks: set<Str>)
    requires Sorts(s, ks)
    ensures s == [] <==> ks == {}
  {
    if s != [] { assert s[0] in ks; }
    if ks != {} {
      var k :| k in ks;
      assert k in s;
    }
  }

  lemma {:induction false} SortsFirst(s: seq<Str>, t: seq<Str>, ks: set<Str>)
    requires Sorts(s, ks) && Sorts(t, ks) && s != [] && t != []
    ensures s[0] == t[0]
  {
    assert s[0] in t && t[0] in s;
    var i :| 0 <= i < |t| && t[i] == s[0];
    var j :| 0 <= j < |s| && s[j] == t[0];
    assert (i > 0 ==> Less(t[0], t[i])) && (j > 0 ==> Less(s[0], s[j]));
    LessTotal(s[0], t[0]);
  }

  lemma {:induction false} SortsRest(s: seq<Str>, ks: set<Str>)
    requires Sorts(s, ks) && s != []
    ensures Sorts(s[1..], ks - {s[0]})
  {
    forall k | k in s[1..] ensures k in ks - {s[0]} {
      var i :| 0 <= i < |s[1..]| && s[1..][i] == k;
      assert Less(s[0], s[i + 1]);
      LessTotal(s[0], s[0]);
    }
    forall k | k in ks - {s[0]} ensures k in s[1..] {
      var i :| 0 <= i < |s| && s[i] == k;
      assert s[1..][i - 1] == k;
    }
  }

  /** sortedKeys: the keys are taken in any order and sorted. */
  method SortedKeys(ks: set<Str>) returns (s: seq<Str>)
    ensures Sorts(s, ks)
  {
    s := [];
    var rest := ks;
    while rest != {}
      invariant rest <= ks && Sorts(s, ks - rest)
      decreases rest
    {
      var k :| k in rest;
      s := Place(s, k, ks - rest);
      rest := rest - {k};
      assert ks - rest == (ks - (rest + {k})) + {k};
    }
    assert ks - rest == ks;
  }

  method Place(s: seq<Str>, k: Str, ghost ks: set<Str>) returns (r: seq<Str>)
    requires Sorts(s, ks) && k !in ks
    ensures Sorts(r, ks + {k})
  {
    var i := 0;
    while i < |s| && Less(s[i], k)
      invariant 0 <= i <= |s| && forall j :: 0 <= j < i ==> Less(s[j], k)
    {
      i := i + 1;
    }
    r := s[..i] + [k] + s[i..];
    Placed(s, k, i, ks);
  }

  lemma {:induction false} Placed(s: seq<Str>, k: Str, i: nat, ks: set<Str>)
    requires Sorts(s, ks) && k !in ks && i <= |s|
    requires (forall j :: 0 <= j < i ==> Less(s[j], k)) && (i < |s| ==> !Less(s[i], k))
    ensures Sorts(s[..i] + [k] + s[i..], ks + {k})
  {
    forall j | i <= j < |s| ensures Less(k, s[j]) {
      assert s[i] in s && s[i] != k;
      LessTotal(s[i], k);
      if j > i { LessTrans(k, s[i], s[j]); }
    }
    var r := s[..i] + [k] + s[i..];
    forall x, y | 0 <= x < y < |r| ensures Less(r[x], r[y]) {
    }
    assert s == s[..i] + s[i..];
  }

  lemma {:induction false} SortExists(ks: set<Str>)
    ensures exists s :: Sorts(s, ks)
  {
    if ks == {} {
      assert Sorts([], ks);
    } else {
      var k :| k in ks;
      SortExists(ks - {k});
      var s :| Sorts(s, ks - {k});
      var i := Rank(s, k);
      Placed(s, k, i, ks - {k});
      assert ks - {k} + {k} == ks;
    }
  }

  /** How many strings at the front are smaller. */
  function Rank(s: seq<Str>, k: Str): (i: nat)
    ensures i <= |s| && (forall j :: 0 <= j < i ==> Less(s[j], k)) && (i < |s| ==> !Less(s[i], k))
  {
    if s == [] || !Less(s[0], k) then 0 else 1 + Rank(s[1..], k)
  }

  ghost function Sorted(ks: set<Str>): (s: seq<Str>)
    ensures Sorts(s, ks)
  {
    SortExists(ks);
    var s :| Sorts(s, ks); s
  }

  // ------------------------------------------------------------------------------- tables

  type Table = map<Str, seq<Field>>

  function RowsAt(t: Table, ks: seq<Str>): (rows: seq<Row>)
    requires forall i :: 0 <= i < |ks| ==> ks[i] in t
    ensures |rows| == |ks| && forall i :: 0 <= i < |ks| ==> rows[i] == Row(ks[i], t[ks[i]])
  {
    if ks == [] then [] else [Row(ks[0], t[ks[0]])] + RowsAt(t, ks[1..])
  }

  ghost function RowsOf(t: Table): seq<Row> {
    RowsAt(t, Sorted(t.Keys))
  }

  /** The sorted rows determine the table. */
  lemma {:induction false} RowsDetermine(t: Table, u: Table)
    requires RowsOf(t) == RowsOf(u)
    ensures t == u
  {
    var (s, v) := (Sorted(t.Keys), Sorted(u.Keys));
    assert s == v by {
      forall i | 0 <= i < |s| ensures s[i] == v[i] { assert RowsOf(t)[i] == RowsOf(u)[i]; }
    }
    forall k | k in t ensures k in u && t[k] == u[k] {
      assert k in s;
      var i :| 0 <= i < |s| && s[i] == k;
      assert RowsOf(t)[i] == RowsOf(u)[i];
    }
    forall k | k in u ensures k in t { assert k in v; }
  }

  // ------------------------------------------------------------------------ residual state

  datatype SwapEntry = SwapEntry(amount: nat, unlock: nat, claimKey: Str, refundKey: Str, claimR: Str, claimT: Str)

  datatype VaultEntry = VaultEntry(amount: nat, term: nat, rate: nat, deposit: nat, owner: Str)

  datatype PqEntry = PqEntry(amount: nat, key: Str, kem: Str, viewTag: Str, commitment: Str, encAmount: Str, mac: Str)

  /** Consensus state that no other header root binds. The boolean maps hold only true, so they are
      sets. */
  datatype Residual = Residual(
    emitted: nat, pool: nat, spentCommit: Str, tagsCommit: Str, primeCommit: Str,
    swapNonces: set<Str>, accValues: set<Str>, pqNull: set<Str>, pqRoots: set<Str>,
    cmRoots: set<Str>, cmFinal: set<Str>, zkNull: set<Str>,
    referral: map<Str, nat>, pqIndex: map<Str, nat>, cmRootOrder: seq<Str>,
    swaps: map<Str, SwapEntry>, vaults: map<Str, VaultEntry>, pqUtxo: map<Str, PqEntry>)

  function SetTable(s: set<Str>): Table { map k | k in s :: [] }

  function NumTable(m: map<Str, nat>): Table { map k | k in m :: [Num(m[k])] }

  function SwapFields(e: SwapEntry): seq<Field> {
    [Num(e.amount), Num(e.unlock), Txt(e.claimKey), Txt(e.refundKey), Txt(e.claimR), Txt(e.claimT)]
  }

  function VaultFields(e: VaultEntry): seq<Field> {
    [Num(e.amount), Num(e.term), Num(e.rate), Num(e.deposit), Txt(e.owner)]
  }

  function PqFields(e: PqEntry): seq<Field> {
    [Num(e.amount), Txt(e.key), Txt(e.kem), Txt(e.viewTag), Txt(e.commitment), Txt(e.encAmount), Txt(e.mac)]
  }

  function SwapTable(m: map<Str, SwapEntry>): Table { map k | k in m :: SwapFields(m[k]) }

  function VaultTable(m: map<Str, VaultEntry>): Table { map k | k in m :: VaultFields(m[k]) }

  function PqTable(m: map<Str, PqEntry>): Table { map k | k in m :: PqFields(m[k]) }

  function ListRows(l: seq<Str>): (rows: seq<Row>)
    ensures |rows| == |l| && forall i :: 0 <= i < |l| ==> rows[i] == Row(l[i], [])
  {
    if l == [] then [] else [Row(l[0], [])] + ListRows(l[1..])
  }

  function Ascii(s: string): Str {
    if s == "" then [] else [s[0] as int % 256] + Ascii(s[1..])
  }

  const NUM := [Number]
  const SWAP := [Number, Number, Text, Text, Text, Text]
  const VAULT := [Number, Number, Number, Number, Text]
  const PQ := [Number, Text, Text, Text, Text, Text, Text]

  /** The tables in order, by name and schema. */
  const SHAPES: seq<(string, seq<Kind>)> :=
    [("|swapNonces|", []), ("|accValues|", []), ("|pqNull|", []), ("|pqRoots|", []), ("|cmRoots|", []),
     ("|cmFinal|", []), ("|zkNull|", []), ("|referral|", NUM), ("|pqIndex|", NUM), ("|cmRootOrder|", []),
     ("|swaps|", SWAP), ("|vaults|", VAULT), ("|pqUtxo|", PQ)]

  /** What is written for one table: a map, or the ordered list of anchors. */
  datatype Part = Keyed(t: Table) | Listed(l: seq<Str>)

  function Parts(rs: Residual): (ps: seq<Part>)
    ensures |ps| == |SHAPES|
  {
    [Keyed(SetTable(rs.swapNonces)), Keyed(SetTable(rs.accValues)), Keyed(SetTable(rs.pqNull)),
     Keyed(SetTable(rs.pqRoots)), Keyed(SetTable(rs.cmRoots)), Keyed(SetTable(rs.cmFinal)),
     Keyed(SetTable(rs.zkNull)), Keyed(NumTable(rs.referral)), Keyed(NumTable(rs.pqIndex)),
     Listed(rs.cmRootOrder), Keyed(SwapTable(rs.swaps)), Keyed(VaultTable(rs.vaults)), Keyed(PqTable(rs.pqUtxo))]
  }

  ghost function PartRows(p: Part): seq<Row> {
    match p
    case Keyed(t) => RowsOf(t)
    case Listed(l) => ListRows(l)
  }

  ghost function AllRows(ps: seq<Part>): (xs: seq<seq<Row>>)
    ensures |xs| == |ps| && forall i :: 0 <= i < |ps| ==> xs[i] == PartRows(ps[i])
  {
    seq(|ps|, i requires 0 <= i < |ps| => PartRows(ps[i]))
  }

  ghost function Tables(rs: Residual): (xs: seq<seq<Row>>)
    ensures |xs| == |SHAPES|
  {
    AllRows(Parts(rs))
  }

  function Build(shapes: seq<(string, seq<Kind>)>, tables: seq<seq<Row>>): (xs: seq<Section>)
    requires |shapes| == |tables|
    ensures |xs| == |tables|
  {
    if tables == [] then [] else
      [Section(Ascii(shapes[0].0), shapes[0].1, tables[0])] + Build(shapes[1..], tables[1..])
  }

  lemma {:induction false} BuildAt(shapes: seq<(string, seq<Kind>)>, tables: seq<seq<Row>>, i: nat)
    requires |shapes| == |tables| && i < |tables|
    ensures Build(shapes, tables)[i] == Section(Ascii(shapes[i].0), shapes[i].1, tables[i])
  {
    if i > 0 { BuildAt(shapes[1..], tables[1..], i - 1); }
  }

  ghost function Sections(rs: Residual): seq<Section> {
    Build(SHAPES, Tables(rs))
  }

  ghost predicate TablesFit(shapes: seq<(string, seq<Kind>)>, tables: seq<seq<Row>>) {
    |shapes| == |tables| && forall i :: 0 <= i < |tables| ==> RowsFit(shapes[i].1, tables[i])
  }

  ghost function Scalars(rs: Residual): Str {
    Ascii("|emit|") + (Word(rs.emitted) + (Word(rs.pool)
      + (Ascii("|dsets|") + (rs.spentCommit + (rs.tagsCommit + rs.primeCommit)))))
  }

  /** Everything stateRootOf writes to the hash. */
  ghost function Preimage(rs: Residual): Str {
    Ascii("OBX-stateroot-v1") + (Scalars(rs) + SectionsBytes(Sections(rs)))
  }

  /** Counters and lengths fit 64 bits and the three set commitments have 32 bytes. */
  ghost predicate Fits(rs: Residual) {
    && rs.emitted < WORD && rs.pool < WORD
    && |rs.spentCommit| == 32 && |rs.tagsCommit| == 32 && |rs.primeCommit| == 32
    && TablesFit(SHAPES, Tables(rs))
  }

  // -------------------------------------------------------------------------- injectivity

  lemma {:induction false} ScalarsLength(rs: Residual, ss: Residual)
    requires Fits(rs) && Fits(ss)
    ensures |Scalars(rs)| == |Scalars(ss)|
  {
  }

  lemma {:induction false} ScalarsDetermine(a: Residual, b: Residual)
    requires Fits(a) && Fits(b) && Scalars(a) == Scalars(b)
    ensures a.emitted == b.emitted && a.pool == b.pool
    ensures a.spentCommit == b.spentCommit && a.tagsCommit == b.tagsCommit && a.primeCommit == b.primeCommit
  {
    var (x, y) := (a.spentCommit + (a.tagsCommit + a.primeCommit), b.spentCommit + (b.tagsCommit + b.primeCommit));
    var (u, v) := (Ascii("|dsets|") + x, Ascii("|dsets|") + y);
    CutSame(Ascii("|emit|"), Ascii("|emit|"), Word(a.emitted) + (Word(a.pool) + u),
          Word(b.emitted) + (Word(b.pool) + v));
    CutWord(a.emitted, b.emitted, Word(a.pool) + u, Word(b.pool) + v);
    CutWord(a.pool, b.pool, u, v);
    CutSame(Ascii("|dsets|"), Ascii("|dsets|"), x, y);
    CutSame(a.spentCommit, b.spentCommit, a.tagsCommit + a.primeCommit, b.tagsCommit + b.primeCommit);
    CutSame(a.tagsCommit, b.tagsCommit, a.primeCommit, b.primeCommit);
  }

  lemma {:induction false} SetsEqual(a: set<Str>, b: set<Str>)
    requires RowsOf(SetTable(a)) == RowsOf(SetTable(b))
    ensures a == b
  {
    RowsDetermine(SetTable(a), SetTable(b));
    assert SetTable(a).Keys == a && SetTable(b).Keys == b;
  }

  lemma {:induction false} NumsEqual(a: map<Str, nat>, b: map<Str, nat>)
    requires RowsOf(NumTable(a)) == RowsOf(NumTable(b))
    ensures a == b
  {
    RowsDetermine(NumTable(a), NumTable(b));
    assert NumTable(a).Keys == a.Keys && NumTable(b).Keys == b.Keys;
    forall k | k in a ensures a[k] == b[k] { assert NumTable(a)[k][0] == NumTable(b)[k][0]; }
  }

  lemma {:induction false} SwapsEqual(a: map<Str, SwapEntry>, b: map<Str, SwapEntry>)
    requires RowsOf(SwapTable(a)) == RowsOf(SwapTable(b))
    ensures a == b
  {
    RowsDetermine(SwapTable(a), SwapTable(b));
    assert SwapTable(a).Keys == a.Keys && SwapTable(b).Keys == b.Keys;
    forall k | k in a ensures a[k] == b[k] {
      var (x, y) := (SwapTable(a)[k], SwapTable(b)[k]);
      assert x[0] == y[0] && x[1] == y[1] && x[2] == y[2] && x[3] == y[3] && x[4] == y[4] && x[5] == y[5];
    }
  }

  lemma {:induction false} VaultsEqual(a: map<Str, VaultEntry>, b: map<Str, VaultEntry>)
    requires RowsOf(VaultTable(a)) == RowsOf(VaultTable(b))
    ensures a == b
  {
    RowsDetermine(VaultTable(a), VaultTable(b));
    assert VaultTable(a).Keys == a.Keys && VaultTable(b).Keys == b.Keys;
    forall k | k in a ensures a[k] == b[k] {
      var (x, y) := (VaultTable(a)[k], VaultTable(b)[k]);
      assert x[0] == y[0] && x[1] == y[1] && x[2] == y[2] && x[3] == y[3] && x[4] == y[4];
    }
  }

  lemma {:induction false} PqEqual(a: map<Str, PqEntry>, b: map<Str, PqEntry>)
    requires RowsOf(PqTable(a)) == RowsOf(PqTable(b))
    ensures a == b
  {
    RowsDetermine(PqTable(a), PqTable(b));
    assert PqTable(a).Keys == a.Keys && PqTable(b).Keys == b.Keys;
    forall k | k in a ensures a[k] == b[k] {
      var (x, y) := (PqTable(a)[k], PqTable(b)[k]);
      assert x[0] == y[0] && x[1] == y[1] && x[2] == y[2] && x[3] == y[3] && x[4] == y[4] && x[5] == y[5]
            && x[6] == y[6];
    }
  }

  lemma {:induction false} ListsEqual(a: seq<Str>, b: seq<Str>)
    requires ListRows(a) == ListRows(b)
    ensures a == b
  {
    forall i | 0 <= i < |a| ensures a[i] == b[i] { assert ListRows(a)[i] == ListRows(b)[i]; }
  }

  lemma {:induction false} PartsAgree(ps: seq<Part>, qs: seq<Part>)
    requires AllRows(ps) == AllRows(qs) && |ps| == |qs| == 13
    ensures PartRows(ps[0]) == PartRows(qs[0]) && PartRows(ps[1]) == PartRows(qs[1])
          && PartRows(ps[2]) == PartRows(qs[2])
    ensures PartRows(ps[3]) == PartRows(qs[3]) && PartRows(ps[4]) == PartRows(qs[4])
          && PartRows(ps[5]) == PartRows(qs[5])
    ensures PartRows(ps[6]) == PartRows(qs[6]) && PartRows(ps[7]) == PartRows(qs[7])
          && PartRows(ps[8]) == PartRows(qs[8])
    ensures PartRows(ps[9]) == PartRows(qs[9]) && PartRows(ps[10]) == PartRows(qs[10])
          && PartRows(ps[11]) == PartRows(qs[11])
    ensures PartRows(ps[12]) == PartRows(qs[12])
  {
    assert forall i :: 0 <= i < 13 ==> AllRows(ps)[i] == PartRows(ps[i]) && AllRows(qs)[i] == PartRows(qs[i]);
  }

  lemma {:induction false} TablesDetermine(a: Residual, b: Residual)
    requires Tables(a) == Tables(b)
    ensures a.swapNonces == b.swapNonces && a.accValues == b.accValues && a.pqNull == b.pqNull && a.pqRoots == b.pqRoots
    ensures a.cmRoots == b.cmRoots && a.cmFinal == b.cmFinal && a.zkNull == b.zkNull
    ensures a.referral == b.referral && a.pqIndex == b.pqIndex && a.cmRootOrder == b.cmRootOrder
    ensures a.swaps == b.swaps && a.vaults == b.vaults && a.pqUtxo == b.pqUtxo
  {
    PartsAgree(Parts(a), Parts(b));
    SetsDetermine(a, b);
    NumsEqual(a.referral, b.referral);
    NumsEqual(a.pqIndex, b.pqIndex);
    ListsEqual(a.cmRootOrder, b.cmRootOrder);
    SwapsEqual(a.swaps, b.swaps);
    VaultsEqual(a.vaults, b.vaults);
    PqEqual(a.pqUtxo, b.pqUtxo);
  }

  lemma {:induction false} SetsDetermine(a: Residual, b: Residual)
    requires Tables(a) == Tables(b)
    ensures a.swapNonces == b.swapNonces && a.accValues == b.accValues && a.pqNull == b.pqNull && a.pqRoots == b.pqRoots
    ensures a.cmRoots == b.cmRoots && a.cmFinal == b.cmFinal && a.zkNull == b.zkNull
  {
    PartsAgree(Parts(a), Parts(b));
    SetsEqual(a.swapNonces, b.swapNonces);
    SetsEqual(a.accValues, b.accValues);
    SetsEqual(a.pqNull, b.pqNull);
    SetsEqual(a.pqRoots, b.pqRoots);
    SetsEqual(a.cmRoots, b.cmRoots);
    SetsEqual(a.cmFinal, b.cmFinal);
    SetsEqual(a.zkNull, b.zkNull);
  }

  lemma {:induction false} SectionsDetermine(shapes: seq<(string, seq<Kind>)>, s: seq<seq<Row>>, t: seq<seq<Row>>)
    requires TablesFit(shapes, s) && TablesFit(shapes, t)
          && SectionsBytes(Build(shapes, s)) == SectionsBytes(Build(shapes, t))
    ensures s == t
  {
    var (xs, ys) := (Build(shapes, s), Build(shapes, t));
    forall i | 0 <= i < |s| ensures SameShape(xs[i], ys[i]) && xs[i].rows == s[i] && ys[i].rows == t[i] {
      BuildAt(shapes, s, i);
      BuildAt(shapes, t, i);
    }
    CutSections(xs, ys);
    forall i | 0 <= i < |s| ensures s[i] == t[i] { assert xs[i] == ys[i]; }
  }

  /** Two residual states with the same preimage are the same state. */
  lemma {:induction false} PreimageInjective(a: Residual, b: Residual)
    requires Fits(a) && Fits(b) && Preimage(a) == Preimage(b)
    ensures a == b
  {
    var v := Ascii("OBX-stateroot-v1");
    CutSame(v, v, Scalars(a) + SectionsBytes(Sections(a)), Scalars(b) + SectionsBytes(Sections(b)));
    ScalarsLength(a, b);
    CutSame(Scalars(a), Scalars(b), SectionsBytes(Sections(a)), SectionsBytes(Sections(b)));
    ScalarsDetermine(a, b);
    SectionsDetermine(SHAPES, Tables(a), Tables(b));
    TablesDetermine(a, b);
  }

  // ---------------------------------------------------------------------------- streaming

  /** One table written to the hash; the map may be enumerated in any order. */
  method WriteTable(h: Str, name: string, schema: seq<Kind>, t: Table) returns (r: Str)
    ensures r == h + SectionBytes(Section(Ascii(name), schema, RowsOf(t)))
  {
    var ks := SortedKeys(t.Keys);
    SortsOnce(ks, Sorted(t.Keys), t.Keys);
    r := WriteRows(h + Ascii(name) + Word(|ks|), t, ks);
    Assoc(h + Ascii(name), Word(|ks|), RowsBytes(RowsOf(t)));
    Assoc(h, Ascii(name), Word(|ks|) + RowsBytes(RowsOf(t)));
  }

  method WriteRows(h: Str, t: Table, ks: seq<Str>) returns (r: Str)
    requires forall i :: 0 <= i < |ks| ==> ks[i] in t
    ensures r == h + RowsBytes(RowsAt(t, ks))
  {
    ghost var rows := RowsAt(t, ks);
    r := h;
    for i := 0 to |ks|
      invariant r + RowsBytes(rows[i..]) == h + RowsBytes(rows)
    {
      assert rows[i..][1..] == rows[i + 1..];
      Assoc(r, RowBytes(rows[i]), RowsBytes(rows[i + 1..]));
      Assoc(r, Prefixed(ks[i]), FieldsBytes(t[ks[i]]));
      r := WriteFields(r + Prefixed(ks[i]), t[ks[i]]);
    }
    assert rows[|ks|..] == [];
  }

  method WriteFields(h: Str, fs: seq<Field>) returns (r: Str)
    ensures r == h + FieldsBytes(fs)
  {
    r := h;
    for i := 0 to |fs|
      invariant r + FieldsBytes(fs[i..]) == h + FieldsBytes(fs)
    {
      assert fs[i..][1..] == fs[i + 1..];
      Assoc(r, FieldBytes(fs[i]), FieldsBytes(fs[i + 1..]));
      r := r + FieldBytes(fs[i]);
    }
    assert fs[|fs|..] == [];
  }

  method WritePart(h: Str, name: string, schema: seq<Kind>, p: Part) returns (r: Str)
    ensures r == h + SectionBytes(Section(Ascii(name), schema, PartRows(p)))
  {
    match p {
      case Keyed(t) => r := WriteTable(h, name, schema, t);
      case Listed(l) =>
        r := h + Ascii(name) + Word(|l|);
        ghost var start := r;
        for i := 0 to |l|
          invariant r + RowsBytes(ListRows(l)[i..]) == start + RowsBytes(ListRows(l))
        {
          ghost var rows := ListRows(l);
          assert rows[i..][1..] == rows[i + 1..] && RowBytes(rows[i]) == Prefixed(l[i]);
          Assoc(r, Prefixed(l[i]), RowsBytes(rows[i + 1..]));
          r := r + Prefixed(l[i]);
        }
        assert ListRows(l)[|l|..] == [];
        Assoc(h + Ascii(name), Word(|l|), RowsBytes(ListRows(l)));
        Assoc(h, Ascii(name), Word(|l|) + RowsBytes(ListRows(l)));
    }
  }

  /** stateRootOf writes the preimage, in whatever order it meets the map entries. */
  method StateRootOf(rs: Residual) returns (h: Str)
    ensures h == Preimage(rs)
  {
    h := Ascii("OBX-stateroot-v1") + (Ascii("|emit|") + (Word(rs.emitted) + (Word(rs.pool)
         + (Ascii("|dsets|") + (rs.spentCommit + (rs.tagsCommit + rs.primeCommit))))));
    Assoc(Ascii("OBX-stateroot-v1"), Scalars(rs), SectionsBytes(Sections(rs)));
    h := WriteParts(h, SHAPES, Parts(rs));
  }

  method WriteParts(start: Str, shapes: seq<(string, seq<Kind>)>, ps: seq<Part>) returns (h: Str)
    requires |shapes| == |ps|
    ensures h == start + SectionsBytes(Build(shapes, AllRows(ps)))
  {
    h := start;
    ghost var xs := Build(shapes, AllRows(ps));
    for i := 0 to |ps|
      invariant h + SectionsBytes(xs[i..]) == start + SectionsBytes(xs)
    {
      BuildAt(shapes, AllRows(ps), i);
      assert xs[i..][1..] == xs[i + 1..];
      Assoc(h, SectionBytes(xs[i]), SectionsBytes(xs[i + 1..]));
      h := WritePart(h, shapes[i].0, shapes[i].1, ps[i]);
    }
    assert xs[|ps|..] == [];
  }
}
