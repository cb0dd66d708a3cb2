/** Runs from genesis that reach the corner cases: a time lock passed by, a leaf stranded by its twin, a
    conflict-free selection that is no valid block. */
module CornerRuns {
  import opened Params
  import opened LedgerModel
  import opened LedgerEffects
  import opened LedgerBalance
  import opened LedgerRuns
  import opened MempoolModel
  import opened PendingTxs
  import opened MinerRuns
  import opened Primes

  const SIZE: nat := 1000
  const FEE: nat := SIZE * FEE_PER_BYTE

  // ------------------------------------------------------------------------- small transactions

  /** Valid legs that balance, with an input first and an output last, are a valid transaction. */
  lemma {:induction false} SmallTx(S: State, h: nat, L: seq<Leg>, fee: nat, size: nat)
    requires 0 < |L| <= MAX_LEGS && IsInput(L[0]) && IsOutput(L[|L| - 1]) && AllOk(S, h, L)
    requires forall i :: 0 <= i < |L| ==> !IsPq(L[i])
    requires var y := TallyOf(S, L);
      && y.publicIn <= MAX64 && size * FEE_PER_BYTE <= fee && fee + y.publicOut <= MAX64
      && y.pseudo + y.publicIn == y.outs + y.publicOut + fee
    ensures TxOk(S, h, Tx(L, fee, size, true))
  {
    var t := Tx(L, fee, size, true);
    forall k | 0 <= k < 12 ensures Count(t.legs, k) <= MAX_LEGS { CountBound(L, k); }
    assert ShapeOk(t);
    assert !HasPq(t);
  }

  lemma {:induction false} Snoc(S: State, L: seq<Leg>, x: Leg)
    ensures TallyOf(S, L + [x]) == Add(TallyOf(S, L), LedgerModel.Entry(S, x))
    ensures AllMarks(L + [x]) == AllMarks(L) + Marks(x)
    ensures Fresh(L, {}) && Marks(x) !! AllMarks(L) ==> Fresh(L + [x], {})
    ensures !x.VaultIn? ==> YieldSum(L + [x]) == YieldSum(L)
  {
    assert (L + [x])[..|L|] == L;
  }

  lemma {:induction false} SnocNotes(L: seq<Leg>, x: Leg)
    ensures NewNotes(L + [x]) == NewNotes(L) + NotesOf(x)
    ensures NewNullifiers(L + [x]) == NewNullifiers(L) + NullifiersOf(x)
    ensures NewRedeems(L + [x]) == NewRedeems(L) + RedeemsOf(x)
  {
    assert (L + [x])[..|L|] == L;
  }

  lemma {:induction false} TwoLegs(S: State, L: seq<Leg>)
    requires |L| == 2 && !L[0].VaultIn? && !L[1].VaultIn?
    ensures TallyOf(S, L) == Add(LedgerModel.Entry(S, L[0]), LedgerModel.Entry(S, L[1])) && YieldSum(L) == 0
    ensures AllMarks(L) == Marks(L[0]) + Marks(L[1])
    ensures Marks(L[0]) !! Marks(L[1]) ==> Fresh(L, {})
  {
    var none, x, y := L[..0], L[0], L[1];
    assert L[..1] == none + [x] && L == L[..1] + [y];
    Snoc(S, none, x);
    Snoc(S, L[..1], y);
  }

  lemma {:induction false} ThreeLegs(S: State, L: seq<Leg>)
    requires |L| == 3 && !L[0].VaultIn? && !L[1].VaultIn? && !L[2].VaultIn?
    ensures TallyOf(S, L)
         == Add(Add(LedgerModel.Entry(S, L[0]), LedgerModel.Entry(S, L[1])), LedgerModel.Entry(S, L[2]))
    ensures AllMarks(L) == Marks(L[0]) + Marks(L[1]) + Marks(L[2]) && YieldSum(L) == 0
    ensures Marks(L[0]) !! Marks(L[1]) && (Marks(L[0]) + Marks(L[1])) !! Marks(L[2]) ==> Fresh(L, {})
  {
    assert L == L[..2] + [L[2]];
    TwoLegs(S, L[..2]);
    Snoc(S, L[..2], L[2]);
  }

  lemma {:induction false} FlattenOne(t: Tx)
    ensures Flatten([t]) == t.legs && Fees([t]) <= t.fee
  {
    assert [t][..0] == [];
  }

  lemma {:induction false} OneTxOk(S: State, h: nat, t: Tx)
    requires TxOk(S, h, t)
    ensures AllTxsOk(S, h, [t])
  {
  }

  lemma {:induction false} RewardMarks(S: State, lock: nat, ts: seq<Tx>)
    ensures forall m :: m in Marks(Reward(S, lock, ts)) ==> m.KeyMark? || m.PrimeMark?
  {
  }

  /** A valid transaction that creates nothing the reward creates can be mined alone. */
  lemma {:induction false} MinedApart(S: State, lock: nat, t: Tx)
    requires TxOk(S, S.height + 1, t) && Fresh(t.legs, {}) && YieldSum(t.legs) == 0 && t.fee <= SUPPLY_CAP / 2
    requires AllMarks(t.legs) !! Marks(Reward(S, lock, [t]))
    ensures BlockOk(S, MinerBlock(S, lock, [t]))
  {
    FlattenOne(t);
    OneTxOk(S, S.height + 1, t);
    var ts := [t];
    MinerBlockOk(S, lock, ts);
  }

  /** So can one without outputs of its own. */
  lemma {:induction false} MinedAlone(S: State, lock: nat, t: Tx)
    requires TxOk(S, S.height + 1, t) && Fresh(t.legs, {}) && YieldSum(t.legs) == 0 && t.fee <= SUPPLY_CAP / 2
    requires forall m :: m in AllMarks(t.legs) ==> !m.KeyMark? && !m.PrimeMark?
    ensures BlockOk(S, MinerBlock(S, lock, [t]))
  {
    RewardMarks(S, lock, [t]);
    MinedApart(S, lock, t);
  }

  // ------------------------------------------------------------------------------- time lock

  function OpenSpend(T: State, i: nat): Leg
    requires i < |T.coins|
  {
    Spend(T.coins[i].key, Image(T.coins[i].key.secret, 0), T.coins[i].value)
  }

  lemma {:induction false} OpenSpendOk(T: State, n: nat, lock: nat, i: nat)
    requires Plain(T, n, lock) && lock <= n + 1 && i + 60 <= n
    ensures LegOk(T, n + 1, OpenSpend(T, i))
  {
    assert Minted(T.coins[i], i, lock);
    forall j | 0 <= j < n && T.coins[j].key == T.coins[i].key ensures j == i {
      assert Minted(T.coins[j], j, lock);
    }
  }

  lemma {:induction false} PlainCoins(T: State, n: nat, lock: nat)
    requires Plain(T, n, lock)
    ensures CoinsOk(T.coins)
  {
    forall i, j | 0 <= i < j < n ensures T.coins[i].key != T.coins[j].key {
      assert Minted(T.coins[i], i, lock) && Minted(T.coins[j], j, lock);
    }
    forall i | 0 <= i < n ensures T.coins[i].value <= MAX64 {
      assert Minted(T.coins[i], i, lock);
    }
  }

  /** A coin that is locked for ever in the open is spent from its pool after 75 blocks. */
  lemma {:induction false} LockPassedBy(S: State, n: nat, lock: nat)
    requires IsGenesis(S) && n >= 75 && lock > n + 1
    ensures var T := StateAfter(S, Mined(S, lock, n));
      Reachable(T) && |T.coins| == n && T.coins[0].lock > n + 1 && Spendable(T, n + 1, 0)
  {
    var T := StateAfter(S, Mined(S, lock, n));
    MinedOk(S, lock, n);
    assert Leads(S, Mined(S, lock, n), T);
    MinedPlain(S, lock, n);
    PlainPool(T, n, lock);
  }

  lemma {:induction false} PlainPool(T: State, n: nat, lock: nat)
    requires Plain(T, n, lock) && n >= 75 && lock > n + 1
    ensures T.coins[0].lock > n + 1 && Spendable(T, n + 1, 0)
  {
    PlainCoins(T, n, lock);
    assert Minted(T.coins[0], 0, lock);
    forall i | 0 <= i < RING ensures Mature(T.coins[i], n + 1) {
      assert Minted(T.coins[i], i, lock);
    }
    assert PoolUsable(T.coins, 0, n + 1);
    LockHolds(T, n + 1, 0);
  }

  // ------------------------------------------------------------------------- stranded leaves

  const LEAF: nat := 3_000_000

  /** Spends the first coin into two leaves that share a nullifier. */
  function TwinTx(T: State, nf: nat): Tx
    requires |T.coins| > 0 && T.coins[0].value >= 2 * LEAF
  {
    Tx([OpenSpend(T, 0), ZkOut(Note(nf, LEAF, 0), LEAF), ZkOut(Note(nf, LEAF, 1), LEAF)],
       T.coins[0].value - 2 * LEAF, SIZE, true)
  }

  /** Spends the first of them into a leaf with another nullifier. */
  function RedeemTx(nf: nat, other: nat): Tx {
    Tx([ZkIn(nf, 2, LEAF, 0), ZkOut(Note(other, LEAF - FEE, 0), LEAF - FEE)], FEE, SIZE, true)
  }

  lemma {:induction false} TwinOk(T: State, n: nat, nf: nat)
    requires Plain(T, n, 0) && n >= 60
    ensures T.coins[0].value >= 2 * LEAF && BlockOk(T, MinerBlock(T, 0, [TwinTx(T, nf)]))
  {
    var lock: nat := 0;
    assert Minted(T.coins[0], 0, lock);
    OpenSpendOk(T, n, lock, 0);
    var t := TwinTx(T, nf);
    ThreeLegs(T, t.legs);
    SmallTx(T, n + 1, t.legs, t.fee, SIZE);
    MinedAlone(T, lock, t);
  }

  /** Only what matters of the state after the twins were mined. */
  predicate HasTwins(T: State, nf: nat) {
    && |T.notes| == 2 && T.notes[0] == Note(nf, LEAF, 0) && T.notes[1] == Note(nf, LEAF, 1)
    && T.anchors == [2] && T.zkNull == {}
  }

  lemma {:induction false} TwinEffects(T: State, n: nat, nf: nat)
    requires Plain(T, n, 0) && n >= 60 && T.coins[0].value >= 2 * LEAF
    ensures HasTwins(After(T, MinerBlock(T, 0, [TwinTx(T, nf)])), nf)
  {
    var t := TwinTx(T, nf);
    var b := MinerBlock(T, 0, [t]);
    FlattenOne(t);
    NotesWith(b.coinbase.outs[0], t.legs);
    TwinNotes(t.legs);
  }

  lemma {:induction false} TwinNotes(L: seq<Leg>)
    requires |L| == 3 && L[0].Spend? && L[1].ZkOut? && L[2].ZkOut?
    ensures NewNotes(L) == [L[1].leaf, L[2].leaf] && NewNullifiers(L) == []
  {
    assert L[..1] == L[..0] + [L[0]] && L[..2] == L[..1] + [L[1]] && L == L[..2] + [L[2]];
    SnocLeaf(L[..0], L[0]);
    SnocLeaf(L[..1], L[1]);
    SnocLeaf(L[..2], L[2]);
    NoNullifiers(L);
  }

  lemma {:induction false} SnocLeaf(L: seq<Leg>, x: Leg)
    ensures NewNotes(L + [x]) == NewNotes(L) + NotesOf(x)
  {
    assert (L + [x])[..|L|] == L;
  }

  lemma {:induction false} NoNullifiers(L: seq<Leg>)
    requires forall i :: 0 <= i < |L| ==> !L[i].ZkIn? && !L[i].Czk?
    ensures NewNullifiers(L) == []
  {
    if L != [] {
      NoNullifiers(L[..|L| - 1]);
      assert NullifiersOf(L[|L| - 1]) == [];
    }
  }

  lemma {:induction false} NotesWith(x: Leg, L: seq<Leg>)
    requires x.Out?
    ensures NewNotes([x] + L) == NewNotes(L) && NewNullifiers([x] + L) == NewNullifiers(L)
    ensures NewRedeems([x] + L) == NewRedeems(L)
  {
    if L == [] {
      assert [x] + L == [] + [x];
      SnocNotes([], x);
    } else {
      var F, y := L[..|L| - 1], L[|L| - 1];
      NotesWith(x, F);
      assert [x] + L == [x] + F + [y] && L == F + [y];
      SnocNotes([x] + F, y);
      SnocNotes(F, y);
    }
  }

  lemma {:induction false} RedeemOk(T: State, nf: nat, other: nat)
    requires HasTwins(T, nf)
    ensures BlockOk(T, MinerBlock(T, 0, [RedeemTx(nf, other)]))
  {
    var t := RedeemTx(nf, other);
    TwoLegs(T, t.legs);
    SmallTx(T, T.height + 1, t.legs, t.fee, SIZE);
    MinedAlone(T, 0, t);
  }

  lemma {:induction false} RedeemNotes(L: seq<Leg>)
    requires |L| == 2 && L[0].ZkIn? && L[1].ZkOut?
    ensures NewNullifiers(L) == [L[0].nullifier] && NewRedeems(L) == [L[0].at]
  {
    assert L[..1] == L[..0] + [L[0]] && L == L[..1] + [L[1]];
    SnocNotes(L[..0], L[0]);
    SnocNotes(L[..1], L[1]);
  }

  lemma {:induction false} RedeemStrands(T: State, K: History, nf: nat, other: nat)
    requires HasTwins(T, nf) && K.redeems == []
    ensures var b := MinerBlock(T, 0, [RedeemTx(nf, other)]);
      Stranded(After(T, b), Recorded(T, K, b), 1) && After(T, b).notes[1] == Note(nf, LEAF, 1)
  {
    var t := RedeemTx(nf, other);
    var b := MinerBlock(T, 0, [t]);
    FlattenOne(t);
    NotesWith(b.coinbase.outs[0], t.legs);
    RedeemNotes(t.legs);
  }

  /** Whatever valid blocks follow, the leaf is worth v, counted in the supply and never spendable. */
  ghost predicate LostForEver(T: State, K: History, at: nat, v: nat) {
    forall cs :: RunOk(T, cs) ==> LostAfter(T, K, cs, at, v)
  }

  ghost predicate LostAfter(T: State, K: History, cs: seq<Block>, at: nat, v: nat) {
    var (T', K') := (StateAfter(T, cs), HistoryAfter(T, K, cs));
    && at < |T'.notes| && T'.notes[at].value == v && at !in K'.redeems && Supply(T', K') >= v
    && forall h, leg :: RedeemsOf(leg) == [at] ==> !LegOk(T', h, leg)
  }

  lemma {:induction false} NothingRedeemed(T: State, K: History)
    requires Inv(T, K)
    ensures K.redeems != [] ==> T.zkNull != {}
  {
    if K.redeems != [] { assert T.notes[K.redeems[0]].nullifier in T.zkNull; }
  }

  lemma {:induction false} TwinsRun(S: State, n: nat, nf: nat) returns (bs: seq<Block>)
    requires IsGenesis(S) && n >= 60
    ensures RunOk(S, bs) && HasTwins(StateAfter(S, bs), nf)
  {
    var lock: nat := 0;
    var front := Mined(S, lock, n);
    var T := StateAfter(S, front);
    MinedOk(S, lock, n);
    MinedPlain(S, lock, n);
    TwinOk(T, n, nf);
    TwinEffects(T, n, nf);
    bs := front + [MinerBlock(T, 0, [TwinTx(T, nf)])];
    RunSnoc(S, front, MinerBlock(T, 0, [TwinTx(T, nf)]));
  }

  /** Some run mints two leaves with one nullifier and spends the first; the second is lost. */
  lemma {:induction false} SomeRunStrands(S: State, H: History, nf: nat) returns (bs: seq<Block>)
    requires IsGenesis(S) && IsBlank(H)
    ensures RunOk(S, bs) && LostForEver(StateAfter(S, bs), HistoryAfter(S, H, bs), 1, LEAF)
  {
    var n: nat := 60;
    var front := TwinsRun(S, n, nf);
    var T, K := StateAfter(S, front), HistoryAfter(S, H, front);
    EveryRun(S, H, front);
    NothingRedeemed(T, K);
    RedeemOk(T, nf, nf + 1);
    RedeemStrands(T, K, nf, nf + 1);
    var b := MinerBlock(T, 0, [RedeemTx(nf, nf + 1)]);
    bs := front + [b];
    RunSnoc(S, front, b);
    assert HistoryAfter(S, H, bs) == Recorded(T, K, b) by { assert bs[..|front|] == front; }
    LostOnce(After(T, b), Recorded(T, K, b), Note(nf, LEAF, 1));
  }

  lemma {:induction false} LostOnce(T: State, K: History, leaf: Note)
    requires Stranded(T, K, 1) && T.notes[1] == leaf
    ensures LostForEver(T, K, 1, leaf.value)
  {
    forall cs | RunOk(T, cs) ensures LostAfter(T, K, cs, 1, leaf.value) {
      SharedNullifierStrands(T, K, cs, 1);
    }
  }

  // ----------------------------------------------------------------------------- templates

  /** Spends the coin at a position to a key. */
  function PayTx(T: State, i: nat, key: Key, prime: nat): Tx
    requires i < |T.coins| && T.coins[i].value >= FEE
  {
    Tx([OpenSpend(T, i), Out(key, prime, T.coins[i].value - FEE, 0)], FEE, SIZE, true)
  }

  lemma {:induction false} NewKeyOk(T: State, n: nat, lock: nat)
    requires Plain(T, n, lock)
    ensures IndexOf(T.coins, Key(n + 1, 0)) == |T.coins|
  {
    forall i | 0 <= i < n ensures T.coins[i].key != Key(n + 1, 0) {
      assert Minted(T.coins[i], i, lock);
    }
  }

  lemma {:induction false} PayValid(T: State, n: nat, i: nat, key: Key, prime: nat) returns (t: Tx)
    requires Plain(T, n, 0) && i + 60 <= n && prime !in T.primes
    requires key != Key(0, 0) && IndexOf(T.coins, key) == |T.coins|
    ensures TxOk(T, T.height + 1, t) && Fresh(t.legs, {}) && IsPayment(t, Key(i + 1, 0), key)
    ensures t.legs[1].prime == prime && YieldSum(t.legs) == 0 && t.fee == FEE
  {
    var lock: nat := 0;
    assert Minted(T.coins[i], i, lock);
    OpenSpendOk(T, n, lock, i);
    t := PayTx(T, i, key, prime);
    TwoLegs(T, t.legs);
    SmallTx(T, n + 1, t.legs, t.fee, SIZE);
  }

  /** A spend and an output: the keys are those of the spend, the marks created those of the output. */
  predicate IsPayment(t: Tx, ref: Key, key: Key) {
    && |t.legs| == 2 && t.legs[0].Spend? && t.legs[0].ref == ref && t.legs[0].image == Image(ref.secret, 0)
    && t.legs[1].Out? && t.legs[1].key == key
  }

  lemma {:induction false} PaymentKeys(t: Tx, ref: Key, key: Key)
    requires IsPayment(t, ref, key) && ref.secret != 0
    ensures forall k :: k in SpendKeys(t.legs) ==> k == RefKey(ref) || k == TagKey(Image(ref.secret, 0))
  {
    var L := t.legs;
    assert L[..1][..0] == [];
    assert SpendKeys(L[..1]) == LegKeys(L[0]);
  }

  lemma {:induction false} PaymentCreates(t: Tx, ref: Key, key: Key)
    requires IsPayment(t, ref, key)
    ensures KeyMark(key) in Created(t.legs)
  {
  }

  lemma {:induction false} PaymentsApart(t: Tx, u: Tx, ref: Key, other: Key, key: Key)
    requires IsPayment(t, ref, key) && IsPayment(u, other, key)
    requires ref.secret != 0 && other.secret != 0 && ref.secret != other.secret
    ensures SpendKeys(t.legs) !! SpendKeys(u.legs)
  {
    PaymentKeys(t, ref, key);
    PaymentKeys(u, other, key);
  }

  lemma {:induction false} BothApart(ts: seq<Tx>)
    requires |ts| == 2 && SpendKeys(ts[0].legs) !! SpendKeys(ts[1].legs)
    ensures KeysApart(ts)
  {
    forall i, j | 0 <= i < j < |ts| ensures SpendKeys(ts[i].legs) !! SpendKeys(ts[j].legs) {
      assert i == 0 && j == 1;
    }
  }

  lemma {:induction false} BothCreate(ts: seq<Tx>, m: Mark)
    requires |ts| == 2 && m in Created(ts[0].legs) && m in Created(ts[1].legs)
    ensures !CreatedApart(ts)
  {
  }

  /** Valid and conflict-free for the pool, but creating something twice. */
  ghost predicate Clashing(T: State, ts: seq<Tx>) {
    AllTxsOk(T, T.height + 1, ts) && AllFresh(ts) && KeysApart(ts) && !CreatedApart(ts)
  }

  lemma {:induction false} NeverTogether(T: State, b: Block)
    requires Clashing(T, b.txs)
    ensures !BlockOk(T, b)
  {
    if BlockOk(T, b) { BlockCreatesOnce(T, b); }
  }

  lemma {:induction false} PairValid(T: State, h: nat, t: Tx, u: Tx)
    ensures TxOk(T, h, t) && TxOk(T, h, u) ==> AllTxsOk(T, h, [t, u])
    ensures Fresh(t.legs, {}) && Fresh(u.legs, {}) ==> AllFresh([t, u])
  {
  }

  lemma {:induction false} TwoPrimes(ps: seq<nat>) returns (p: nat, r: nat)
    ensures p == NextPrime(ps) && p !in ps && r !in ps && p != r
  {
    p := NextPrime(ps);
    r := NextPrime(ps + [p]);
    assert p in ps + [p];
  }

  lemma {:induction false} TwoPayments(T: State, n: nat, i: nat, j: nat) returns (ts: seq<Tx>)
    requires Plain(T, n, 0) && i + 60 <= n && j + 60 <= n
    ensures AllTxsOk(T, T.height + 1, ts) && AllFresh(ts) && |ts| == 2
    ensures IsPayment(ts[0], Key(i + 1, 0), Key(n + 1, 0)) && IsPayment(ts[1], Key(j + 1, 0), Key(n + 1, 0))
  {
    var p, r := TwoPrimes(T.primes);
    NewKeyOk(T, n, 0);
    var t := PayValid(T, n, i, Key(n + 1, 0), p);
    var u := PayValid(T, n, j, Key(n + 1, 0), r);
    PairValid(T, T.height + 1, t, u);
    ts := [t, u];
  }

  lemma {:induction false} PaymentsClash(ts: seq<Tx>, ref: Key, other: Key, key: Key)
    requires |ts| == 2 && IsPayment(ts[0], ref, key) && IsPayment(ts[1], other, key)
    requires ref.secret != 0 && other.secret != 0 && ref.secret != other.secret
    ensures KeysApart(ts) && !CreatedApart(ts)
  {
    PaymentsApart(ts[0], ts[1], ref, other, key);
    BothApart(ts);
    PaymentCreates(ts[0], ref, key);
    PaymentCreates(ts[1], other, key);
    BothCreate(ts, KeyMark(key));
  }

  lemma {:induction false} PlainClash(T: State, n: nat) returns (ts: seq<Tx>)
    requires Plain(T, n, 0) && n >= 61
    ensures Clashing(T, ts)
  {
    var i: nat, j: nat := 0, 1;
    ts := TwoPayments(T, n, i, j);
    PaymentsClash(ts, Key(i + 1, 0), Key(j + 1, 0), Key(n + 1, 0));
    Together(T, ts);
  }

  lemma {:induction false} Together(T: State, ts: seq<Tx>)
    ensures AllTxsOk(T, T.height + 1, ts) && AllFresh(ts) && KeysApart(ts) && !CreatedApart(ts) ==> Clashing(T, ts)
  {
  }

  lemma {:induction false} NoBlockHolds(T: State, ts: seq<Tx>)
    requires Clashing(T, ts)
    ensures forall b: Block :: b.txs == ts ==> !BlockOk(T, b)
  {
    forall b: Block | b.txs == ts ensures !BlockOk(T, b) {
      NeverTogether(T, b);
    }
  }

  /** After some run the pool may hold valid transactions without a common spend key that no block can
      hold together. */
  lemma {:induction false} SomeSelectionFails(S: State) returns (bs: seq<Block>, ts: seq<Tx>)
    requires IsGenesis(S)
    ensures RunOk(S, bs) && Clashing(StateAfter(S, bs), ts)
    ensures forall b: Block :: b.txs == ts ==> !BlockOk(StateAfter(S, bs), b)
  {
    var n: nat, lock: nat := 61, 0;
    bs := Mined(S, lock, n);
    MinedOk(S, lock, n);
    MinedPlain(S, lock, n);
    ts := PlainClash(StateAfter(S, bs), n);
    NoBlockHolds(StateAfter(S, bs), ts);
  }

  // ------------------------------------------------------------------- outdated transactions

  /** Valid before a valid block that spends nothing of it, and not valid after it. */
  ghost predicate Outdated(T: State, b: Block, t: Tx) {
    BlockOk(T, b) && TxOk(T, b.height, t) && KeysFree(t, b) && !TxOk(After(T, b), b.height + 1, t)
  }

  lemma {:induction false} RewardCreates(T: State, lock: nat)
    ensures KeyMark(Key(NextSecret(T.coins), 0)) in Created(AllLegs(MinerBlock(T, lock, [])))
  {
    var L := AllLegs(MinerBlock(T, lock, []));
    assert L == [Reward(T, lock, [])];
    assert Created(L[..0]) == {};
  }

  lemma {:induction false} PaidTwice(T: State, n: nat) returns (t: Tx)
    requires Plain(T, n, 0) && n >= 60
    ensures TxOk(T, T.height + 1, t) && !Outlasts(T, MinerBlock(T, 0, []), t)
  {
    var p, r := TwoPrimes(T.primes);
    NewKeyOk(T, n, 0);
    t := PayValid(T, n, 0, Key(n + 1, 0), p);
    PaymentCreates(t, Key(1, 0), Key(n + 1, 0));
    RewardCreates(T, 0);
  }

  /** After some run a pending transaction turns invalid by a block that spends nothing of it: the reward
      goes to the key that it pays to. */
  lemma {:induction false} SomePendingOutdated(S: State) returns (bs: seq<Block>, b: Block, t: Tx)
    requires IsGenesis(S)
    ensures RunOk(S, bs) && Outdated(StateAfter(S, bs), b, t)
  {
    var n: nat, lock: nat := 60, 0;
    bs := Mined(S, lock, n);
    MinedOk(S, lock, n);
    MinedPlain(S, lock, n);
    var T := StateAfter(S, bs);
    b := MinerBlock(T, 0, []);
    EmptyBlockOk(T, 0);
    t := PaidTwice(T, n);
    assert Leads(S, bs, T) && KeysFree(t, b);
    PendingStaysValid(S, bs, T, b, t);
  }

  // ------------------------------------------------------------------------ stranded coins

  lemma {:induction false} KinKeyOk(T: State, n: nat)
    requires Plain(T, n, 0)
    ensures IndexOf(T.coins, Key(1, 1)) == |T.coins|
  {
    var lock: nat := 0;
    forall i | 0 <= i < n ensures T.coins[i].key != Key(1, 1) {
      assert Minted(T.coins[i], i, lock);
    }
  }

  /** The owner of the first coin pays it to the same secret under another low-order part. */
  lemma {:induction false} KinPayment(T: State, n: nat) returns (t: Tx)
    requires Plain(T, n, 0) && n >= 60
    ensures IsPayment(t, Key(1, 0), Key(1, 1)) && BlockOk(T, MinerBlock(T, 0, [t]))
  {
    var p, r := TwoPrimes(T.primes);
    KinKeyOk(T, n);
    t := PayValid(T, n, 0, Key(1, 1), r);
    PaymentApart(T, t, Key(1, 0), Key(1, 1));
    MinedApart(T, 0, t);
  }

  lemma {:induction false} PaymentApart(T: State, t: Tx, ref: Key, key: Key)
    requires IsPayment(t, ref, key) && key.twist != 0 && t.legs[1].prime != NextPrime(T.primes)
    ensures AllMarks(t.legs) !! Marks(Reward(T, 0, [t]))
  {
    PaymentMarks(T, t, ref, key);
  }

  lemma {:induction false} PaymentMarks(T: State, t: Tx, ref: Key, key: Key)
    requires IsPayment(t, ref, key)
    ensures AllMarks(t.legs) == {RefMark(ref), TagMark(ref.secret), KeyMark(key), PrimeMark(t.legs[1].prime)}
  {
    TwoLegs(T, t.legs);
  }

  lemma {:induction false} SnocSpend(S: State, L: seq<Leg>, x: Leg)
    ensures NewTags(L + [x]) == NewTags(L) + TagsOf(x) && NewUses(S, L + [x]) == NewUses(S, L) + UsesOf(S, x)
  {
    assert (L + [x])[..|L|] == L;
  }

  lemma {:induction false} SnocCoin(L: seq<Leg>, x: Leg, h: nat, n: nat)
    ensures NewCoins(L + [x], h, n) == NewCoins(L, h, n) + CoinsOf(x, h, |L| < n)
  {
    assert (L + [x])[..|L|] == L;
  }

  /** What an output, a spend and an output do. */
  lemma {:induction false} PaymentEffects(S: State, L: seq<Leg>, h: nat)
    requires |L| == 3 && L[0].Out? && L[1].Spend? && L[2].Out?
    ensures NewTags(L) == [L[1].image.core] && NewUses(S, L) == [IndexOf(S.coins, L[1].ref)]
    ensures |NewCoins(L, h, 1)| == 2 && NewCoins(L, h, 1)[1].key == L[2].key
  {
    assert L[..1] == L[..0] + [L[0]] && L[..2] == L[..1] + [L[1]] && L == L[..2] + [L[2]];
    SnocSpend(S, L[..0], L[0]);
    SnocSpend(S, L[..1], L[1]);
    SnocSpend(S, L[..2], L[2]);
    PaymentCoins(L, h);
  }

  lemma {:induction false} PaymentCoins(L: seq<Leg>, h: nat)
    requires |L| == 3 && L[0].Out? && L[1].Spend? && L[2].Out?
    ensures |NewCoins(L, h, 1)| == 2 && NewCoins(L, h, 1)[1].key == L[2].key
  {
    var n: nat := 1;
    assert L[..2] == L[..1] + [L[1]] && L == L[..2] + [L[2]];
    OneCoin(L[..1], h, n);
    SnocCoin(L[..1], L[1], h, n);
    SnocCoin(L[..2], L[2], h, n);
  }

  lemma {:induction false} OneCoin(L: seq<Leg>, h: nat, n: nat)
    requires |L| == 1 && L[0].Out?
    ensures |NewCoins(L, h, n)| == 1
  {
    assert L == [] + [L[0]];
    SnocCoin([], L[0], h, n);
  }

  lemma {:induction false} PaymentLegs(b: Block, t: Tx)
    requires |b.coinbase.outs| == 1 && b.txs == [t] && |t.legs| == 2
    ensures |AllLegs(b)| == 3 && AllLegs(b)[0] == b.coinbase.outs[0]
    ensures AllLegs(b)[1] == t.legs[0] && AllLegs(b)[2] == t.legs[1]
  {
    FlattenOne(t);
  }

  lemma {:induction false} KinStrands(T: State, K: History, n: nat, t: Tx, b: Block)
    requires |T.coins| == n > 0 && T.coins[0].key == Key(1, 0) && K.uses == []
    requires IsPayment(t, Key(1, 0), Key(1, 1)) && b.txs == [t]
    requires |b.coinbase.outs| == 1 && b.coinbase.outs[0].Out?
    ensures StrandedCoin(After(T, b), Recorded(T, K, b), n + 1)
  {
    PaymentLegs(b, t);
    PaymentEffects(T, AllLegs(b), b.height);
    FirstIndex(T.coins);
    assert Recorded(T, K, b).uses == [0];
    assert 1 in After(T, b).tags;
  }

  lemma {:induction false} FirstIndex(coins: seq<Coin>)
    requires coins != []
    ensures IndexOf(coins, coins[0].key) == 0
  {
  }

  /** Whatever valid blocks follow, the coin is counted in the supply and never spendable. */
  ghost predicate CoinLost(T: State, K: History, i: nat) {
    i < |T.coins| && forall cs :: RunOk(T, cs) ==> CoinLostAfter(T, K, cs, i)
  }

  ghost predicate CoinLostAfter(T: State, K: History, cs: seq<Block>, i: nat)
    requires i < |T.coins|
  {
    var (T', K') := (StateAfter(T, cs), HistoryAfter(T, K, cs));
    && i < |T'.coins| && T'.coins[i] == T.coins[i] && i !in K'.uses && Supply(T', K') >= T.coins[i].value
    && forall h, leg :: UsesOf(T', leg) == [i] ==> !LegOk(T', h, leg)
  }

  lemma {:induction false} StrandedLost(T: State, K: History, i: nat)
    requires StrandedCoin(T, K, i)
    ensures CoinLost(T, K, i)
  {
    forall cs | RunOk(T, cs) ensures CoinLostAfter(T, K, cs, i) {
      SharedSecretStrands(T, K, cs, i);
    }
  }

  lemma {:induction false} FirstMinted(T: State, n: nat)
    requires Plain(T, n, 0) && n > 0
    ensures |T.coins| == n && T.coins[0].key == Key(1, 0)
  {
    var lock: nat := 0;
    assert Minted(T.coins[0], 0, lock);
  }

  lemma {:induction false} HistorySnoc(S: State, H: History, bs: seq<Block>, b: Block)
    ensures HistoryAfter(S, H, bs + [b]) == Recorded(StateAfter(S, bs), HistoryAfter(S, H, bs), b)
  {
    assert (bs + [b])[..|bs|] == bs;
  }

  lemma {:induction false} NothingUsed(S: State, H: History, n: nat)
    requires IsGenesis(S) && IsBlank(H)
    ensures HistoryAfter(S, H, Mined(S, 0, n)).uses == []
  {
    var lock: nat := 0;
    MinedOk(S, lock, n);
    MinedPlain(S, lock, n);
    EveryRun(S, H, Mined(S, lock, n));
  }

  lemma {:induction false} KinRun(S: State, H: History, n: nat) returns (bs: seq<Block>)
    requires IsGenesis(S) && IsBlank(H) && n >= 60
    ensures RunOk(S, bs) && StrandedCoin(StateAfter(S, bs), HistoryAfter(S, H, bs), n + 1)
  {
    var lock: nat := 0;
    var front := Mined(S, lock, n);
    var T, K := StateAfter(S, front), HistoryAfter(S, H, front);
    MinedOk(S, lock, n);
    MinedPlain(S, lock, n);
    NothingUsed(S, H, n);
    var t := KinPayment(T, n);
    FirstMinted(T, n);
    var b := MinerBlock(T, 0, [t]);
    KinStrands(T, K, n, t, b);
    bs := front + [b];
    RunSnoc(S, front, b);
    HistorySnoc(S, H, front, b);
  }

  /** Some run pays a coin to a second key of its own secret, which is then lost. */
  lemma {:induction false} SomeRunStrandsCoin(S: State, H: History) returns (bs: seq<Block>, i: nat)
    requires IsGenesis(S) && IsBlank(H)
    ensures RunOk(S, bs) && CoinLost(StateAfter(S, bs), HistoryAfter(S, H, bs), i)
  {
    var n: nat := 60;
    bs := KinRun(S, H, n);
    i := n + 1;
    StrandedLost(StateAfter(S, bs), HistoryAfter(S, H, bs), i);
  }
}
