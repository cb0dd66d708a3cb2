/** Pending transactions: what the pool's index must satisfy, replacement, ranking and selection. */
module MempoolModel {
  import opened Params
  import opened Contracts
  import opened LedgerModel
  import opened LedgerChecks
  import opened Wrappers

  const MAX_TXS := 5000
  const MAX_BYTES := 32 * 1024 * 1024
  const MAX_TX_BYTES := 2_097_152
  const TTL := 7200
  const MAX_CONFLICTS := 100
  const BUDGET := MAX_BLOCK_BYTES - 65_536

  datatype Entry = Entry(id: nat, tx: Tx, added: nat)

  function SizeOf(e: Entry): nat { e.tx.size }

  /** The fee per byte, rounded down. */
  function Rate(t: Tx): nat { t.fee / (if t.size < 1 then 1 else t.size) }

  lemma {:induction false} RateLaw(t: Tx)
    requires t.size > 0
    ensures Rate(t) * t.size <= t.fee < (Rate(t) + 1) * t.size
  {
    var r := Rate(t);
    assert t.fee == r * t.size + t.fee % t.size;
  }

  // -------------------------------------------------------------------------- spend keys

  /** The pool's own conflict keys: a bare output reference, or an identifier in one of the name
      spaces "tag:", "swap:", "vaultin:", "zknull:", "pqnull:" and "pqref:". */
  datatype PoolKey = RefKey(ref: Key) | TagKey(point: Image) | SwapKey(id: Id) | VaultKey(id: Id)
    | ZkKey(nullifier: nat) | PqNullKey(id: Id) | PqRefKey(id: Id)

  /** CanonicalNullifier: the cofactor is cleared, and a low-order point is refused. */
  function Canonical(point: Image): Option<Image> {
    if point.core == 0 then None else Some(Image(point.core, 0))
  }

  /** The key of a tag falls back to its own bytes when it has no canonical form. */
  function TagKeyOf(point: Image): PoolKey {
    match Canonical(point)
    case Some(c) => TagKey(c)
    case None => TagKey(point)
  }

  function LegKeys(leg: Leg): set<PoolKey> {
    match leg
    case Spend(ref, image, _) => {RefKey(ref), TagKeyOf(image)}
    case Anon(_, tag, _, _) => {TagKeyOf(tag)}
    case SwapIn(k, _) => {SwapKey(k)}
    case VaultIn(k, _) => {VaultKey(k)}
    case ZkIn(nf, _, _, _) => {ZkKey(nf)}
    case Czk(nf, _, _, _, _) => {ZkKey(nf)}
    case PqIn(k) => {PqNullKey(k), PqRefKey(k)}
    case _ => {}
  }

  /** spendKeys. */
  function SpendKeys(L: seq<Leg>): set<PoolKey> {
    if L == [] then {} else SpendKeys(L[..|L| - 1]) + LegKeys(L[|L| - 1])
  }

  function KeysOf(e: Entry): set<PoolKey> { SpendKeys(e.tx.legs) }

  function Inputs(L: seq<Leg>): seq<Leg> {
    if L == [] then [] else
      Inputs(L[..|L| - 1]) + if IsInput(L[|L| - 1]) then [L[|L| - 1]] else []
  }

  // ------------------------------------------------------------- keys against block marks

  /** What block validation marks for the thing a pool key names, and back. */
  function MarkFor(k: PoolKey): Mark {
    match k
    case RefKey(r) => RefMark(r)
    case TagKey(p) => TagMark(p.core)
    case SwapKey(i) => SwapInMark(i)
    case VaultKey(i) => VaultInMark(i)
    case ZkKey(n) => ZkMark(n)
    case PqNullKey(i) => PqMark(i)
    case PqRefKey(i) => PqMark(i)
  }

  function KeyFor(m: Mark): PoolKey {
    match m
    case RefMark(r) => RefKey(r)
    case TagMark(c) => TagKeyOf(Image(c, 0))
    case SwapInMark(i) => SwapKey(i)
    case VaultInMark(i) => VaultKey(i)
    case ZkMark(n) => ZkKey(n)
    case PqMark(i) => PqNullKey(i)
    case _ => PqRefKey(0)
  }

  /** No input of the list has a low-order key image or tag. */
  predicate TagsProper(L: seq<Leg>) {
    forall i :: 0 <= i < |L| ==> TagProper(L[i])
  }

  predicate TagProper(leg: Leg) {
    (leg.Spend? ==> leg.image.core != 0) && (leg.Anon? ==> leg.tag.core != 0)
  }

  lemma {:induction false} OkTagsProper(S: State, h: nat, L: seq<Leg>)
    requires AllOk(S, h, L)
    ensures TagsProper(L)
  {
  }

  lemma {:induction false} LegKeysAreMarks(x: Leg)
    ensures !IsInput(x) ==> LegKeys(x) == {}
    ensures forall k :: k in LegKeys(x) ==> MarkFor(k) in Marks(x)
    ensures IsInput(x) && TagProper(x) ==> forall m :: m in Marks(x) ==>
          KeyFor(m) in LegKeys(x) && MarkFor(KeyFor(m)) == m
  {
  }

  lemma {:induction false} InputsMore(L: seq<Leg>)
    requires L != []
    ensures var (F, x) := (L[..|L| - 1], L[|L| - 1]);
      AllMarks(Inputs(L)) == AllMarks(Inputs(F)) + if IsInput(x) then Marks(x) else {}
  {
    var F, x := L[..|L| - 1], L[|L| - 1];
    if IsInput(x) {
      assert (Inputs(F) + [x])[..|Inputs(F)|] == Inputs(F);
    } else {
      assert Inputs(F) + [] == Inputs(F);
    }
  }

  /** A pool key stands for a mark of the block, always; a mark has its pool key if tags are proper. */
  lemma {:induction false} KeysAreMarks(L: seq<Leg>)
    ensures forall k :: k in SpendKeys(L) ==> MarkFor(k) in AllMarks(Inputs(L))
    ensures TagsProper(L) ==> forall m :: m in AllMarks(Inputs(L)) ==>
          KeyFor(m) in SpendKeys(L) && MarkFor(KeyFor(m)) == m
  {
    if L != [] {
      var F, x := L[..|L| - 1], L[|L| - 1];
      KeysAreMarks(F);
      InputsMore(L);
      LegKeysAreMarks(x);
      assert TagsProper(L) ==> TagsProper(F) && TagProper(x);
    }
  }

  /** Transactions that pass validation share a pool key exactly when block validation would find one
      of their inputs twice; low-order tags apart, which validation refuses, sharing a key always means that. */
  lemma {:induction false} ConflictsAreDoubleSpends(K: seq<Leg>, L: seq<Leg>)
    ensures AllMarks(Inputs(K)) !! AllMarks(Inputs(L)) ==> SpendKeys(K) !! SpendKeys(L)
    ensures TagsProper(K) && TagsProper(L) ==>
              (SpendKeys(K) !! SpendKeys(L) <==> AllMarks(Inputs(K)) !! AllMarks(Inputs(L)))
  {
    KeysAreMarks(K);
    KeysAreMarks(L);
  }

  /** Without clearing the cofactor the pool would miss a double spend: two twists of one tag. */
  lemma {:induction false} TwistsConflict(a: Image, b: Image)
    ensures a.core != 0 ==> (TagKeyOf(a) == TagKeyOf(b) <==> a.core == b.core)
    ensures a.core == 0 ==> (TagKeyOf(a) == TagKeyOf(b) <==> a == b)
  {
  }

  // ------------------------------------------------------------------------------ templates

  /** The marks of what a list of legs creates. */
  function Created(L: seq<Leg>): set<Mark> {
    if L == [] then {} else Created(L[..|L| - 1]) + if IsInput(L[|L| - 1]) then {} else Marks(L[|L| - 1])
  }

  predicate InputMark(m: Mark) {
    m.RefMark? || m.TagMark? || m.SwapInMark? || m.VaultInMark? || m.ZkMark? || m.PqMark?
  }

  lemma {:induction false} LegMarksSide(x: Leg)
    ensures forall m :: m in Marks(x) ==> InputMark(m) == IsInput(x)
  {
  }

  /** The marks of a list split into those of its inputs and those of what it creates. */
  lemma {:induction false} MarksSplit(L: seq<Leg>)
    ensures AllMarks(L) == AllMarks(Inputs(L)) + Created(L)
    ensures forall m :: m in AllMarks(Inputs(L)) ==> InputMark(m)
    ensures forall m :: m in Created(L) ==> !InputMark(m)
  {
    if L != [] {
      var F, x := L[..|L| - 1], L[|L| - 1];
      MarksSplit(F);
      InputsMore(L);
      LegMarksSide(x);
    }
  }

  predicate AllFresh(ts: seq<Tx>) {
    forall i :: 0 <= i < |ts| ==> Fresh(ts[i].legs, {})
  }

  ghost predicate KeysApart(ts: seq<Tx>) {
    forall i, j :: 0 <= i < j < |ts| ==> SpendKeys(ts[i].legs) !! SpendKeys(ts[j].legs)
  }

  ghost predicate MarksApart(ts: seq<Tx>) {
    forall i, j :: 0 <= i < j < |ts| ==> AllMarks(ts[i].legs) !! AllMarks(ts[j].legs)
  }

  /** No two create the same output key or prime, swap key or nonce, vault or post-quantum key. */
  ghost predicate CreatedApart(ts: seq<Tx>) {
    forall i, j :: 0 <= i < j < |ts| ==> Created(ts[i].legs) !! Created(ts[j].legs)
  }

  ghost predicate ApartFrom(marks: set<Mark>, ts: seq<Tx>) {
    forall i :: 0 <= i < |ts| ==> marks !! AllMarks(ts[i].legs)
  }

  lemma {:induction false} FreshSplit(B: seq<Leg>, seen: set<Mark>)
    ensures Fresh(B, seen) <==> Fresh(B, {}) && AllMarks(B) !! seen
  {
    if B != [] { FreshSplit(B[..|B| - 1], seen); }
  }

  lemma {:induction false} FlattenMarks(ts: seq<Tx>, marks: set<Mark>)
    ensures AllMarks(Flatten(ts)) !! marks <==> ApartFrom(marks, ts)
  {
    if ts != [] {
      var F, t := ts[..|ts| - 1], ts[|ts| - 1];
      FlattenMarks(F, marks);
      AllMarksConcat(Flatten(F), t.legs);
      assert ApartFrom(marks, ts) <==> ApartFrom(marks, F) && marks !! AllMarks(t.legs);
    }
  }

  /** The duplicate check of a block passes exactly when each transaction passes it alone and no two
      share a mark. */
  lemma {:induction false} FreshTogether(ts: seq<Tx>)
    ensures Fresh(Flatten(ts), {}) <==> AllFresh(ts) && MarksApart(ts)
  {
    if ts != [] {
      var F, t := ts[..|ts| - 1], ts[|ts| - 1];
      FreshTogether(F);
      FreshConcat(Flatten(F), t.legs, {});
      assert {} + AllMarks(Flatten(F)) == AllMarks(Flatten(F));
      FreshSplit(t.legs, AllMarks(Flatten(F)));
      FlattenMarks(F, AllMarks(t.legs));
      assert AllFresh(ts) <==> AllFresh(F) && Fresh(t.legs, {});
      ApartMore(ts);
    }
  }

  lemma {:induction false} ApartMore(ts: seq<Tx>)
    requires ts != []
    ensures var (F, t) := (ts[..|ts| - 1], ts[|ts| - 1]);
      MarksApart(ts) <==> MarksApart(F) && ApartFrom(AllMarks(t.legs), F)
  {
    var F, t := ts[..|ts| - 1], ts[|ts| - 1];
    if MarksApart(ts) {
      forall i, j | 0 <= i < j < |F| ensures AllMarks(F[i].legs) !! AllMarks(F[j].legs) {
        assert F[i] == ts[i] && F[j] == ts[j];
      }
      forall i | 0 <= i < |F| ensures AllMarks(t.legs) !! AllMarks(F[i].legs) {
        assert F[i] == ts[i];
      }
    }
    if MarksApart(F) && ApartFrom(AllMarks(t.legs), F) {
      forall i, j | 0 <= i < j < |ts| ensures AllMarks(ts[i].legs) !! AllMarks(ts[j].legs) {
        assert F[i] == ts[i];
        assert j < |F| ==> F[j] == ts[j];
      }
    }
  }

  lemma {:induction false} InputMarked(L: seq<Leg>, i: nat)
    requires i < |L| && IsInput(L[i])
    ensures AllMarks(L) != {}
  {
    if i < |L| - 1 {
      InputMarked(L[..|L| - 1], i);
    } else {
      LegMarked(L[i]);
    }
  }

  lemma {:induction false} LegMarked(x: Leg)
    requires IsInput(x)
    ensures Marks(x) != {}
  {
  }

  /** A block that passes validation never holds a transaction twice: the separate check of transaction
      ids adds nothing. */
  lemma {:induction false} NoDuplicateTx(S: State, b: Block, i: nat, j: nat)
    requires BlockOk(S, b) && i < j < |b.txs|
    ensures b.txs[i] != b.txs[j]
  {
    FreshConcat(b.coinbase.outs, Flatten(b.txs), {});
    FreshSplit(Flatten(b.txs), {} + AllMarks(b.coinbase.outs));
    FreshTogether(b.txs);
    var t := b.txs[i];
    assert TxOk(S, b.height, t);
    var k :| 0 <= k < |t.legs| && IsInput(t.legs[k]);
    InputMarked(t.legs, k);
  }

  /** The transactions reduced to what they consume. */
  function Spending(ts: seq<Tx>): (us: seq<Tx>)
    ensures |us| == |ts| && forall i :: 0 <= i < |ts| ==> us[i] == ts[i].(legs := Inputs(ts[i].legs))
  {
    seq(|ts|, i requires 0 <= i < |ts| => ts[i].(legs := Inputs(ts[i].legs)))
  }

  lemma {:induction false} SpendingFront(ts: seq<Tx>)
    requires ts != []
    ensures Spending(ts)[..|ts| - 1] == Spending(ts[..|ts| - 1])
    ensures Flatten(Spending(ts)) == Flatten(Spending(ts[..|ts| - 1])) + Inputs(ts[|ts| - 1].legs)
  {
  }

  /** All inputs together pass the duplicate check of a block exactly when those of each transaction
      do and no two transactions share a pool key. */
  lemma {:induction false} TemplateInputsFresh(ts: seq<Tx>)
    requires forall i :: 0 <= i < |ts| ==> TagsProper(ts[i].legs)
    ensures Fresh(Flatten(Spending(ts)), {}) <==> AllFresh(Spending(ts)) && KeysApart(ts)
  {
    var us := Spending(ts);
    FreshTogether(us);
    forall i, j | 0 <= i < j < |ts|
      ensures AllMarks(us[i].legs) !! AllMarks(us[j].legs) <==> SpendKeys(ts[i].legs) !! SpendKeys(ts[j].legs)
    {
      ConflictsAreDoubleSpends(ts[i].legs, ts[j].legs);
    }
  }

  /** Of what the pool admitted as valid and keeps free of conflicts, any selection passes the duplicate
      check of a block exactly when no two of its transactions create the same thing, which the pool
      does not look at. */
  lemma {:induction false} SelectionFresh(S: State, h: nat, ts: seq<Tx>)
    requires AllTxsOk(S, h, ts) && AllFresh(ts) && KeysApart(ts)
    ensures Fresh(Flatten(ts), {}) <==> CreatedApart(ts)
  {
    FreshTogether(ts);
    forall i, j | 0 <= i < j < |ts|
      ensures AllMarks(ts[i].legs) !! AllMarks(ts[j].legs)
         <==> Created(ts[i].legs) !! Created(ts[j].legs)
    {
      PairApart(S, h, ts[i], ts[j]);
    }
  }

  lemma {:induction false} PairApart(S: State, h: nat, t: Tx, u: Tx)
    requires TxOk(S, h, t) && TxOk(S, h, u) && SpendKeys(t.legs) !! SpendKeys(u.legs)
    ensures AllMarks(t.legs) !! AllMarks(u.legs) <==> Created(t.legs) !! Created(u.legs)
  {
    ConflictsAreDoubleSpends(t.legs, u.legs);
    MarksSplit(t.legs);
    MarksSplit(u.legs);
  }

  /** No valid block creates anything twice. */
  lemma {:induction false} BlockCreatesOnce(S: State, b: Block)
    requires BlockOk(S, b) && AllFresh(b.txs) && KeysApart(b.txs)
    ensures CreatedApart(b.txs)
  {
    FreshConcat(b.coinbase.outs, Flatten(b.txs), {});
    FreshSplit(Flatten(b.txs), {} + AllMarks(b.coinbase.outs));
    SelectionFresh(S, b.height, b.txs);
  }

  /** A template of such a selection is a valid block exactly when, besides its coinbase, nothing is
      created twice and the vault yields it claims fit the pool together. */
  lemma {:induction false} TemplateValid(S: State, b: Block)
    requires AllTxsOk(S, b.height, b.txs) && AllFresh(b.txs) && KeysApart(b.txs)
    ensures BlockOk(S, b) <==>
              && b.height == S.height + 1 && CoinbaseOk(S, b) && AllOk(S, b.height, b.coinbase.outs)
              && Fresh(b.coinbase.outs, {}) && ApartFrom(AllMarks(b.coinbase.outs), b.txs)
              && CreatedApart(b.txs) && YieldSum(AllLegs(b)) <= S.pool
  {
    var A, B := b.coinbase.outs, Flatten(b.txs);
    SelectionFresh(S, b.height, b.txs);
    FreshConcat(A, B, {});
    assert {} + AllMarks(A) == AllMarks(A);
    FreshSplit(B, AllMarks(A));
    FlattenMarks(b.txs, AllMarks(A));
  }

  // ------------------------------------------------------------------------------- index

  ghost predicate Owns(txs: map<nat, Entry>, spentBy: map<PoolKey, nat>, id: nat)
    requires id in txs
  {
    txs[id].id == id && forall k :: k in KeysOf(txs[id]) ==> k in spentBy && spentBy[k] == id
  }

  ghost predicate OwnedBy(txs: map<nat, Entry>, spentBy: map<PoolKey, nat>, k: PoolKey)
    requires k in spentBy
  {
    spentBy[k] in txs && k in KeysOf(txs[spentBy[k]])
  }

  /** spentBy is the inverse of the spend keys; in particular no two entries share one. */
  ghost predicate IndexOk(txs: map<nat, Entry>, spentBy: map<PoolKey, nat>) {
    && (forall id {:trigger Owns(txs, spentBy, id)} :: id in txs ==> Owns(txs, spentBy, id))
    && (forall k {:trigger OwnedBy(txs, spentBy, k)} :: k in spentBy ==> OwnedBy(txs, spentBy, k))
  }

  lemma {:induction false} NoSharedKey(txs: map<nat, Entry>, spentBy: map<PoolKey, nat>, i: nat, j: nat)
    requires IndexOk(txs, spentBy) && i in txs && j in txs && i != j
    ensures KeysOf(txs[i]) !! KeysOf(txs[j])
  {
    assert Owns(txs, spentBy, i) && Owns(txs, spentBy, j);
  }

  lemma {:induction false} DeleteKeeps(txs: map<nat, Entry>, spentBy: map<PoolKey, nat>, id: nat)
    requires IndexOk(txs, spentBy) && id in txs
    ensures IndexOk(txs - {id}, spentBy - KeysOf(txs[id]))
  {
    var txs', spentBy' := txs - {id}, spentBy - KeysOf(txs[id]);
    assert Owns(txs, spentBy, id);
    forall j | j in txs' ensures Owns(txs', spentBy', j) {
      assert Owns(txs, spentBy, j);
      NoSharedKey(txs, spentBy, id, j);
    }
    forall k | k in spentBy' ensures OwnedBy(txs', spentBy', k) {
      assert OwnedBy(txs, spentBy, k);
    }
  }

  function Reserve(spentBy: map<PoolKey, nat>, keys: set<PoolKey>, id: nat): map<PoolKey, nat> {
    spentBy + map k | k in keys :: id
  }

  lemma {:induction false} InsertKeeps(txs: map<nat, Entry>, spentBy: map<PoolKey, nat>, e: Entry)
    requires IndexOk(txs, spentBy) && e.id !in txs && KeysOf(e) !! spentBy.Keys
    ensures IndexOk(txs[e.id := e], Reserve(spentBy, KeysOf(e), e.id))
  {
    var txs', spentBy' := txs[e.id := e], Reserve(spentBy, KeysOf(e), e.id);
    forall j | j in txs' ensures Owns(txs', spentBy', j) {
      if j != e.id {
        assert Owns(txs, spentBy, j);
      }
    }
    forall k | k in spentBy' ensures OwnedBy(txs', spentBy', k) {
      assert k in spentBy ==> OwnedBy(txs, spentBy, k);
    }
  }

  // ----------------------------------------------------------------------------- ranking

  /** Fee rate, then fee, both high first, then the lower id. */
  predicate Before(a: Entry, b: Entry) {
    if Rate(a.tx) != Rate(b.tx) then Rate(a.tx) > Rate(b.tx)
    else if a.tx.fee != b.tx.fee then a.tx.fee > b.tx.fee
    else a.id < b.id
  }

  predicate Ranked(s: seq<Entry>) {
    forall i, j :: 0 <= i < j < |s| ==> Before(s[i], s[j])
  }

  /** s lists the entries of the pool in order. */
  ghost predicate IsRanking(s: seq<Entry>, es: set<Entry>) {
    Ranked(s) && forall e :: e in s <==> e in es
  }

  /** There is only one ranking, whatever order the map is enumerated in. */
  lemma {:induction false} RankingUnique(s: seq<Entry>, t: seq<Entry>, es: set<Entry>)
    requires IsRanking(s, es) && IsRanking(t, es)
    ensures s == t
  {
    EmptyRanking(s, es);
    EmptyRanking(t, es);
    if es != {} {
      FirstAgree(s, t, es);
      RestRanking(s, es);
      RestRanking(t, es);
      RankingUnique(s[1..], t[1..], es - {s[0]});
      assert s == [s[0]] + s[1..] && t == [t[0]] + t[1..];
    }
  }

  lemma {:induction false} EmptyRanking(s: seq<Entry>, es: set<Entry>)
    requires IsRanking(s, es)
    ensures s == [] <==> es == {}
  {
    if s != [] { assert s[0] in es; }
    if es != {} {
      var e :| e in es;
      assert e in s;
    }
  }

  lemma {:induction false} FirstAgree(s: seq<Entry>, t: seq<Entry>, es: set<Entry>)
    requires IsRanking(s, es) && IsRanking(t, es) && s != [] && t != []
    ensures s[0] == t[0]
  {
    assert s[0] in t && t[0] in s;
    var i :| 0 <= i < |t| && t[i] == s[0];
    var j :| 0 <= j < |s| && s[j] == t[0];
    assert i > 0 ==> Before(t[0], t[i]);
    assert j > 0 ==> Before(s[0], s[j]);
  }

  lemma {:induction false} RestRanking(s: seq<Entry>, es: set<Entry>)
    requires IsRanking(s, es) && s != []
    ensures IsRanking(s[1..], es - {s[0]})
  {
    forall e | e in s[1..] ensures e in es - {s[0]} {
      var i :| 0 <= i < |s[1..]| && s[1..][i] == e;
      assert Before(s[0], s[i + 1]);
    }
    forall e | e in es - {s[0]} ensures e in s[1..] {
      var i :| 0 <= i < |s| && s[i] == e;
      assert s[1..][i - 1] == e;
    }
  }

  /** The greedy scan: the first n that fit, in rank order. */
  function Greedy(s: seq<Entry>, n: int, budget: int): seq<Entry> {
    if s == [] then [] else
      var out := Greedy(s[..|s| - 1], n, budget);
      var e := s[|s| - 1];
      if |out| >= n || Used(out) + e.tx.size > budget then out else out + [e]
  }

  function Used(s: seq<Entry>): nat {
    if s == [] then 0 else Used(s[..|s| - 1]) + s[|s| - 1].tx.size
  }

  lemma {:induction false} UsedMore(s: seq<Entry>, e: Entry)
    ensures Used(s + [e]) == Used(s) + e.tx.size
  {
    assert (s + [e])[..|s + [e]| - 1] == s;
  }

  /** The selection stays within both limits and keeps the rank order. */
  lemma {:induction false} GreedyFits(s: seq<Entry>, n: nat, budget: nat)
    requires Ranked(s)
    ensures var out := Greedy(s, n, budget);
      |out| <= n && Used(out) <= budget && Ranked(out) && forall e :: e in out ==> e in s
  {
    if s != [] {
      var F, e := s[..|s| - 1], s[|s| - 1];
      GreedyFits(F, n, budget);
      var out := Greedy(F, n, budget);
      UsedMore(out, e);
      forall x | x in out ensures Before(x, e) && x in s {
        var i :| 0 <= i < |F| && F[i] == x;
        assert s[i] == x;
      }
    }
  }

  // ----------------------------------------------------------------- what a selection pays

  /** a comes first: no lower fee rate, on equal rates no lower fee, and on equal fees the lower id. */
  predicate PaysMore(a: Entry, b: Entry) {
    && Rate(a.tx) >= Rate(b.tx)
    && (Rate(a.tx) == Rate(b.tx) ==> a.tx.fee >= b.tx.fee && (a.tx.fee == b.tx.fee ==> a.id < b.id))
  }

  ghost predicate BestFirst(s: seq<Entry>) {
    forall i, j :: 0 <= i < j < |s| ==> PaysMore(s[i], s[j])
  }

  /** Among those taken, the ones that come before e already number n or leave no room for it. */
  ghost predicate CrowdedOut(out: seq<Entry>, e: Entry, n: nat, budget: nat) {
    exists k :: 0 <= k <= |out| && Filled(out[..k], e, n, budget)
  }

  ghost predicate Filled(taken: seq<Entry>, e: Entry, n: nat, budget: nat) {
    (forall i :: 0 <= i < |taken| ==> PaysMore(taken[i], e)) && (|taken| >= n || Used(taken) + e.tx.size > budget)
  }

  lemma {:induction false} RankedPays(s: seq<Entry>)
    requires Ranked(s)
    ensures BestFirst(s)
  {
    forall i, j | 0 <= i < j < |s| ensures PaysMore(s[i], s[j]) { assert Before(s[i], s[j]); }
  }

  lemma {:induction false} CrowdedStays(out: seq<Entry>, more: seq<Entry>, e: Entry, n: nat, budget: nat)
    requires CrowdedOut(out, e, n, budget) && out <= more
    ensures CrowdedOut(more, e, n, budget)
  {
    var k :| 0 <= k <= |out| && Filled(out[..k], e, n, budget);
    assert more[..k] == out[..k];
  }

  /** Whatever the greedy scan leaves out was crowded out by better ones. */
  lemma {:induction false} GreedyLeaves(s: seq<Entry>, n: nat, budget: nat, e: Entry)
    requires Ranked(s) && e in s
    ensures e in Greedy(s, n, budget) || CrowdedOut(Greedy(s, n, budget), e, n, budget)
  {
    var F, x := s[..|s| - 1], s[|s| - 1];
    var out := Greedy(F, n, budget);
    if e in F {
      GreedyLeaves(F, n, budget, e);
      if e !in out { CrowdedStays(out, Greedy(s, n, budget), e, n, budget); }
    } else if |out| >= n || Used(out) + x.tx.size > budget {
      LastCrowded(s, n, budget);
    }
  }

  lemma {:induction false} LastCrowded(s: seq<Entry>, n: nat, budget: nat)
    requires s != [] && Ranked(s)
    requires var out := Greedy(s[..|s| - 1], n, budget); |out| >= n || Used(out) + s[|s| - 1].tx.size > budget
    ensures CrowdedOut(Greedy(s, n, budget), s[|s| - 1], n, budget)
  {
    var F, e := s[..|s| - 1], s[|s| - 1];
    var out := Greedy(F, n, budget);
    GreedyFits(F, n, budget);
    forall i | 0 <= i < |out| ensures PaysMore(out[i], e) {
      assert out[i] in F;
      var k :| 0 <= k < |F| && F[k] == out[i];
      assert Before(s[k], s[|s| - 1]);
    }
    assert out[..|out|] == out;
    assert Filled(out[..|out|], e, n, budget);
  }
}
