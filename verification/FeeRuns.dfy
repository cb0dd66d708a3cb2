/** A run on which a replacement is accepted for less than what it replaces: claims on flexible vaults are
    capped by their entitlement alone, so two of them can carry fees that exceed 64 bits together. */
module FeeRuns {
  import opened Contracts
  import opened LedgerModel
  import opened LedgerEffects
  import opened LedgerRuns
  import opened MempoolModel
  import opened Mempool
  import opened MempoolFees
  import opened MinerRuns
  import opened CornerRuns
  import Strategies

  /** A principal whose flexible yield is 65536 per block. */
  const PRINCIPAL: nat := 344_457_216_000
  const HALF: nat := 0x8000_0000_0000_0000
  /** After so many blocks the yield reaches half of 2^64. */
  const WAIT: nat := 0x8000_0000_0000
  const CHEAP: nat := 10_000_000_000_000_000
  const LARGE: nat := 2_000_000

  // -------------------------------------------------------------------------------- deposits

  /** Two coins into two flexible vaults. */
  function DepositTx(T: State): Tx
    requires |T.coins| >= 2 && T.coins[0].value + T.coins[1].value >= 2 * PRINCIPAL
  {
    Tx([OpenSpend(T, 0), OpenSpend(T, 1), VaultOut(0, PRINCIPAL, 0), VaultOut(1, PRINCIPAL, 0)],
       T.coins[0].value + T.coins[1].value - 2 * PRINCIPAL, SIZE, true)
  }

  lemma {:induction false} FourLegs(S: State, L: seq<Leg>)
    requires |L| == 4 && forall i :: 0 <= i < 4 ==> !L[i].VaultIn?
    ensures TallyOf(S, L)
         == Add(Add(Add(LedgerModel.Entry(S, L[0]), LedgerModel.Entry(S, L[1])), LedgerModel.Entry(S, L[2])),
                LedgerModel.Entry(S, L[3]))
    ensures AllMarks(L) == Marks(L[0]) + Marks(L[1]) + Marks(L[2]) + Marks(L[3]) && YieldSum(L) == 0
    ensures (&& Marks(L[0]) !! Marks(L[1]) && (Marks(L[0]) + Marks(L[1])) !! Marks(L[2])
             && (Marks(L[0]) + Marks(L[1]) + Marks(L[2])) !! Marks(L[3])) ==> Fresh(L, {})
  {
    assert L == L[..3] + [L[3]];
    ThreeLegs(S, L[..3]);
    Snoc(S, L[..3], L[3]);
  }

  lemma {:induction false} DepositOk(T: State, n: nat)
    requires Plain(T, n, 0) && n >= 61
    ensures T.coins[0].value + T.coins[1].value >= 2 * PRINCIPAL && BlockOk(T, MinerBlock(T, 0, [DepositTx(T)]))
  {
    var lock: nat := 0;
    assert Minted(T.coins[0], 0, lock) && Minted(T.coins[1], 1, lock);
    OpenSpendOk(T, n, lock, 0);
    OpenSpendOk(T, n, lock, 1);
    var t := DepositTx(T);
    FourLegs(T, t.legs);
    SmallTx(T, n + 1, t.legs, t.fee, SIZE);
    MinedAlone(T, lock, t);
  }

  /** Two equal flexible vaults opened at a height. */
  predicate TwoVaults(T: State, h: nat) {
    T.vaults == map[0 := Vault(PRINCIPAL, 0, FLEX_RATE, h), 1 := Vault(PRINCIPAL, 0, FLEX_RATE, h)]
  }

  lemma {:induction false} SnocOps(L: seq<Leg>, x: Leg, h: nat)
    ensures VaultOps(L + [x], h) == VaultOps(L, h) + VaultOpsOf(x, h)
  {
    assert (L + [x])[..|L|] == L;
  }

  lemma {:induction false} SameSnoc(x: Leg, L: seq<Leg>)
    requires L != []
    ensures [x] + L == [x] + L[..|L| - 1] + [L[|L| - 1]] && L == L[..|L| - 1] + [L[|L| - 1]]
  {
  }

  lemma {:induction false} OpsWith(x: Leg, L: seq<Leg>, h: nat)
    requires x.Out?
    ensures VaultOps([x] + L, h) == VaultOps(L, h)
  {
    if L == [] {
      assert [x] + L == [] + [x];
      SnocOps([], x, h);
    } else {
      var F, y := L[..|L| - 1], L[|L| - 1];
      OpsWith(x, F, h);
      SnocOps([x] + F, y, h);
      SnocOps(F, y, h);
      SameSnoc(x, L);
    }
  }

  lemma {:induction false} DepositOps(L: seq<Leg>, h: nat)
    requires |L| == 4 && L[0].Spend? && L[1].Spend? && L[2].VaultOut? && L[3].VaultOut?
    ensures VaultOps(L, h) == VaultOpsOf(L[2], h) + VaultOpsOf(L[3], h)
  {
    assert L[..1] == L[..0] + [L[0]] && L[..2] == L[..1] + [L[1]] && L[..3] == L[..2] + [L[2]] && L == L[..3] + [L[3]];
    SnocOps(L[..0], L[0], h);
    SnocOps(L[..1], L[1], h);
    assert VaultOps(L[..2], h) == [];
    SnocOps(L[..2], L[2], h);
    SnocOps(L[..3], L[3], h);
  }

  lemma {:induction false} DepositEffects(T: State, n: nat)
    requires T.vaults == map[] && T.height == n
    requires |T.coins| >= 2 && T.coins[0].value + T.coins[1].value >= 2 * PRINCIPAL
    ensures TwoVaults(After(T, MinerBlock(T, 0, [DepositTx(T)])), n + 1)
    ensures After(T, MinerBlock(T, 0, [DepositTx(T)])).height == n + 1
  {
    DepositVaults(T, n, DepositTx(T), MinerBlock(T, 0, [DepositTx(T)]));
  }

  lemma {:induction false} DepositVaults(T: State, n: nat, t: Tx, b: Block)
    requires T.vaults == map[] && b.height == n + 1 && b.txs == [t] && |b.coinbase.outs| == 1 && b.coinbase.outs[0].Out?
    requires |t.legs| == 4 && t.legs[0].Spend? && t.legs[1].Spend?
    requires t.legs[2] == VaultOut(0, PRINCIPAL, 0) && t.legs[3] == VaultOut(1, PRINCIPAL, 0)
    ensures TwoVaults(After(T, b), n + 1) && After(T, b).height == n + 1
  {
    DepositBlockOps(T, n, t, b);
    VaultsAfter(T, b);
    DepositMap(t.legs[2], t.legs[3], n + 1, VaultOps(AllLegs(b), n + 1));
  }

  lemma {:induction false} DepositMap(x: Leg, y: Leg, h: nat, ops: seq<Op>)
    requires x == VaultOut(0, PRINCIPAL, 0) && y == VaultOut(1, PRINCIPAL, 0)
    requires ops == VaultOpsOf(x, h) + VaultOpsOf(y, h)
    ensures Run(map[], ops) == map[0 := Vault(PRINCIPAL, 0, FLEX_RATE, h), 1 := Vault(PRINCIPAL, 0, FLEX_RATE, h)]
  {
    TwoPuts(VaultOpsOf(x, h)[0], VaultOpsOf(y, h)[0], ops);
  }

  lemma {:induction false} DepositBlockOps(T: State, n: nat, t: Tx, b: Block)
    requires |t.legs| == 4 && t.legs[0].Spend? && t.legs[1].Spend? && t.legs[2].VaultOut? && t.legs[3].VaultOut?
    requires b.txs == [t] && |b.coinbase.outs| == 1 && b.coinbase.outs[0].Out?
    ensures VaultOps(AllLegs(b), n + 1) == VaultOpsOf(t.legs[2], n + 1) + VaultOpsOf(t.legs[3], n + 1)
  {
    FlattenOne(t);
    assert b.coinbase.outs == [b.coinbase.outs[0]];
    OpsWith(b.coinbase.outs[0], t.legs, n + 1);
    DepositOps(t.legs, n + 1);
  }

  lemma {:induction false} VaultsAfter(T: State, b: Block)
    ensures After(T, b).vaults == Run(T.vaults, VaultOps(AllLegs(b), b.height)) && After(T, b).height == b.height
  {
  }

  lemma {:induction false} TwoPuts(p: Op, r: Op, ops: seq<Op>)
    requires p.Put? && r.Put? && p.key == 0 && r.key == 1 && ops == [p] + [r]
    ensures Run(map[], ops) == map[0 := p.contract, 1 := r.contract]
  {
    assert ops[..1] == [p] && ops[..1][..0] == [];
    assert Run(map[], ops[..1]) == map[0 := p.contract];
  }

  // -------------------------------------------------------------------------------- the wait

  /** The vaults are untouched by empty blocks. */
  function WaitingSince(h: nat): (State, nat) -> bool {
    (T: State, n: nat) => TwoVaults(T, h) && T.height == h + n
  }

  lemma {:induction false} WaitStep(T: State, h: nat, k: nat)
    requires TwoVaults(T, h) && T.height == h + k
    ensures TwoVaults(After(T, EmptyBlock(T, 0)), h) && After(T, EmptyBlock(T, 0)).height == h + k + 1
  {
    var b := EmptyBlock(T, 0);
    assert AllLegs(b) == [b.coinbase.outs[0]];
    OutAlone(b.coinbase.outs[0], b.height);
  }

  lemma {:induction false} WaitKeeps(T: State, h: nat, n: nat)
    requires TwoVaults(T, h) && T.height == h
    ensures var U := StateAfter(T, Mined(T, 0, n)); TwoVaults(U, h) && U.height == h + n
  {
    var lock: nat := 0;
    var next, inv := Miner(lock), WaitingSince(h);
    forall U: State, k: nat ensures Strategies.KeepsAt(After, next, inv, U, k) {
      if inv(U, k) { WaitStep(U, h, k); }
    }
    Strategies.ChosenKeeps(After, next, inv, T, n);
    StateIsFold(T, Mined(T, lock, n));
  }

  // -------------------------------------------------------------------------------- claims

  lemma {:induction false} FlexYield(e: nat)
    ensures PRINCIPAL * FLEX_RATE * e / (BLOCKS_PER_YEAR * 10_000) == 65_536 * e
  {
  }

  /** Late enough, each vault is entitled to half of 2^64. */
  predicate Ripe(T: State, h: nat) {
    TwoVaults(T, h) && T.height == h + WAIT
  }

  lemma {:induction false} ClaimLegOk(T: State, h: nat, k: Id, y: nat)
    requires Ripe(T, h) && k < 2 && y <= HALF
    ensures LegOk(T, T.height + 1, VaultIn(k, y))
    ensures LedgerModel.Entry(T, VaultIn(k, y)) == Tally(0, PRINCIPAL + y, 0, 0)
  {
    FlexYield(WAIT + 1);
  }

  function Change(): Leg { ZkOut(Note(0, 1, 0), 1) }

  /** Claims one vault and gives half of 2^64 in fees. */
  function ClaimTx(k: Id): Tx {
    Tx([VaultIn(k, HALF + 1 - PRINCIPAL), Change()], HALF, LARGE, true)
  }

  /** Claims both vaults for little. */
  function CheapTx(): Tx {
    Tx([VaultIn(0, CHEAP + 1 - 2 * PRINCIPAL), VaultIn(1, 0), Change()], CHEAP, SIZE, true)
  }

  lemma {:induction false} ClaimLegs(S: State, L: seq<Leg>)
    requires |L| == 2 && L[0].VaultIn? && L[1].ZkOut?
    ensures TallyOf(S, L) == Add(LedgerModel.Entry(S, L[0]), LedgerModel.Entry(S, L[1])) && Fresh(L, {})
  {
    assert L[..1] == L[..0] + [L[0]] && L == L[..1] + [L[1]];
    Snoc(S, L[..0], L[0]);
    Snoc(S, L[..1], L[1]);
  }

  lemma {:induction false} CheapLegs(S: State, L: seq<Leg>)
    requires |L| == 3 && L[0].VaultIn? && L[1].VaultIn? && L[0].vault != L[1].vault && L[2].ZkOut?
    ensures TallyOf(S, L)
         == Add(Add(LedgerModel.Entry(S, L[0]), LedgerModel.Entry(S, L[1])), LedgerModel.Entry(S, L[2]))
    ensures Fresh(L, {})
  {
    assert L[..1] == L[..0] + [L[0]] && L[..2] == L[..1] + [L[1]] && L == L[..2] + [L[2]];
    Snoc(S, L[..0], L[0]);
    Snoc(S, L[..1], L[1]);
    Snoc(S, L[..2], L[2]);
  }

  lemma {:induction false} ClaimOk(T: State, h: nat, k: Id) returns (t: Tx)
    requires Ripe(T, h) && k < 2
    ensures StandsAlone(T, T.height + 1, t)
    ensures t.fee == HALF && t.size == LARGE && SpendKeys(t.legs) == {VaultKey(k)}
  {
    t := ClaimTx(k);
    ClaimKeys(t.legs);
    ClaimLegOk(T, h, k, t.legs[0].interest);
    ClaimLegs(T, t.legs);
    SmallTx(T, T.height + 1, t.legs, t.fee, LARGE);
  }

  lemma {:induction false} CheapOk(T: State, h: nat) returns (t: Tx)
    requires Ripe(T, h)
    ensures StandsAlone(T, T.height + 1, t)
    ensures t.fee == CHEAP && t.size == SIZE && SpendKeys(t.legs) == {VaultKey(0), VaultKey(1)}
  {
    t := CheapTx();
    CheapKeys(t.legs);
    ClaimLegOk(T, h, 0, t.legs[0].interest);
    ClaimLegOk(T, h, 1, t.legs[1].interest);
    CheapLegs(T, t.legs);
    SmallTx(T, T.height + 1, t.legs, t.fee, SIZE);
  }

  // -------------------------------------------------------------------------------- the pool

  lemma {:induction false} SnocKeys(L: seq<Leg>, x: Leg)
    ensures SpendKeys(L + [x]) == SpendKeys(L) + LegKeys(x)
  {
    assert (L + [x])[..|L|] == L;
  }

  lemma {:induction false} ClaimKeys(L: seq<Leg>)
    requires |L| == 2 && L[0].VaultIn? && L[1].ZkOut?
    ensures SpendKeys(L) == {VaultKey(L[0].vault)}
  {
    assert L[..1] == L[..0] + [L[0]] && L == L[..1] + [L[1]];
    SnocKeys(L[..0], L[0]);
    SnocKeys(L[..1], L[1]);
  }

  lemma {:induction false} CheapKeys(L: seq<Leg>)
    requires |L| == 3 && L[0].VaultIn? && L[1].VaultIn? && L[2].ZkOut?
    ensures SpendKeys(L) == {VaultKey(L[0].vault), VaultKey(L[1].vault)}
  {
    assert L[..1] == L[..0] + [L[0]] && L[..2] == L[..1] + [L[1]] && L == L[..2] + [L[2]];
    SnocKeys(L[..0], L[0]);
    SnocKeys(L[..1], L[1]);
    SnocKeys(L[..2], L[2]);
  }

  /** The pool of two transactions. */
  function PoolOf(i: nat, a: Tx, j: nat, b: Tx): map<nat, MempoolModel.Entry> {
    map[i := MempoolModel.Entry(i, a, 0), j := MempoolModel.Entry(j, b, 0)]
  }

  /** The claims in the pool, and the cheap one that is accepted in their place. */
  lemma {:induction false} ClaimsUndercut(x: Tx, y: Tx, t: Tx)
    requires x.fee == y.fee == HALF && x.size == y.size == LARGE && t.fee == CHEAP && t.size == SIZE
    requires SpendKeys(x.legs) == {VaultKey(0)} && SpendKeys(y.legs) == {VaultKey(1)}
    requires SpendKeys(t.legs) == {VaultKey(0), VaultKey(1)}
    ensures Undercuts(PoolOf(0, x, 1, y), map[VaultKey(0) := 0, VaultKey(1) := 1], t)
  {
    var a, b := MempoolModel.Entry(0, x, 0), MempoolModel.Entry(1, y, 0);
    TwoRivals(a, b, t, VaultKey(0), VaultKey(1));
    Cheaper(map[a.id := a, b.id := b], a, b, t);
  }

  lemma {:induction false} BothValid(i: nat, x: Tx, j: nat, y: Tx, T: State, h: nat)
    requires i != j
    ensures StandsAlone(T, h, x) && StandsAlone(T, h, y) ==>
          StillValid(PoolOf(i, x, j, y), PoolOf(i, x, j, y).Keys, T, h)
  {
  }

  /** A pool in which a replacement is cheaper than what it replaces, all of them valid on a state. */
  ghost predicate UndercutsOn(T: State, txs: map<nat, MempoolModel.Entry>, spentBy: map<PoolKey, nat>, t: Tx) {
    Undercuts(txs, spentBy, t) && StillValid(txs, txs.Keys, T, T.height + 1) && StandsAlone(T, T.height + 1, t)
  }

  /** On a state some replacement is cheaper than what it replaces. */
  ghost predicate Undercuttable(T: State) {
    exists txs, spentBy, t :: UndercutsOn(T, txs, spentBy, t)
  }

  lemma {:induction false} Assemble(T: State, txs: map<nat, MempoolModel.Entry>, spentBy: map<PoolKey, nat>, t: Tx)
    ensures (&& Undercuts(txs, spentBy, t) && StillValid(txs, txs.Keys, T, T.height + 1)
             && StandsAlone(T, T.height + 1, t)) ==> Undercuttable(T)
  {
    if Undercuts(txs, spentBy, t) && StillValid(txs, txs.Keys, T, T.height + 1) && StandsAlone(T, T.height + 1, t) {
      assert UndercutsOn(T, txs, spentBy, t);
    }
  }

  lemma {:induction false} RipeUndercuts(T: State, h: nat)
    requires Ripe(T, h)
    ensures Undercuttable(T)
  {
    var i: nat, j: nat := 0, 1;
    var x := ClaimOk(T, h, i);
    var y := ClaimOk(T, h, j);
    var t := CheapOk(T, h);
    PoolUndercuts(T, x, y, t);
  }

  lemma {:induction false} PoolUndercuts(T: State, x: Tx, y: Tx, t: Tx)
    requires x.fee == y.fee == HALF && x.size == y.size == LARGE && t.fee == CHEAP && t.size == SIZE
    requires SpendKeys(x.legs) == {VaultKey(0)} && SpendKeys(y.legs) == {VaultKey(1)}
    requires SpendKeys(t.legs) == {VaultKey(0), VaultKey(1)}
    ensures StandsAlone(T, T.height + 1, x) && StandsAlone(T, T.height + 1, y) && StandsAlone(T, T.height + 1, t) ==>
              Undercuttable(T)
  {
    BothValid(0, x, 1, y, T, T.height + 1);
    ClaimsUndercut(x, y, t);
    Assemble(T, PoolOf(0, x, 1, y), map[VaultKey(0) := 0, VaultKey(1) := 1], t);
  }

  lemma {:induction false} RipeRun(S: State) returns (bs: seq<Block>, h: nat)
    requires IsGenesis(S)
    ensures RunOk(S, bs) && Ripe(StateAfter(S, bs), h)
  {
    var n: nat, wait: nat := 61, WAIT;
    var front := DepositRun(S, n);
    h := n + 1;
    bs := Matured(S, front, h, wait);
  }

  lemma {:induction false} DepositRun(S: State, n: nat) returns (bs: seq<Block>)
    requires IsGenesis(S) && n >= 61
    ensures RunOk(S, bs) && TwoVaults(StateAfter(S, bs), n + 1) && StateAfter(S, bs).height == n + 1
  {
    var lock: nat := 0;
    var front := Mined(S, lock, n);
    var T := StateAfter(S, front);
    MinedOk(S, lock, n);
    MinedPlain(S, lock, n);
    DepositOk(T, n);
    DepositEffects(T, n);
    RunSnoc(S, front, MinerBlock(T, 0, [DepositTx(T)]));
    bs := front + [MinerBlock(T, 0, [DepositTx(T)])];
  }

  lemma {:induction false} Matured(S: State, front: seq<Block>, h: nat, wait: nat) returns (bs: seq<Block>)
    requires RunOk(S, front) && TwoVaults(StateAfter(S, front), h) && StateAfter(S, front).height == h && wait == WAIT
    ensures RunOk(S, bs) && Ripe(StateAfter(S, bs), h)
  {
    var lock: nat := 0;
    var T := StateAfter(S, front);
    MinedOk(T, lock, wait);
    WaitKeeps(T, h, wait);
    RunsJoin(S, front, Mined(T, lock, wait));
    bs := front + Mined(T, lock, wait);
  }

  /** After some run two valid claims whose fees sum to 2^64 may sit in the pool, and a valid transaction
      that pays less than a thousandth of them replaces both. */
  lemma {:induction false} SomeRunUndercuts(S: State) returns (bs: seq<Block>)
    requires IsGenesis(S)
    ensures RunOk(S, bs) && Undercuttable(StateAfter(S, bs))
  {
    var h: nat;
    bs, h := RipeRun(S);
    RipeUndercuts(StateAfter(S, bs), h);
  }
}
