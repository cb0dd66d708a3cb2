/** Runs that a single miner can make: the chain can always be extended, and some runs reach the corner
    cases that the general laws leave open. */
module MinerRuns {
  import opened Params
  import opened LedgerModel
  import opened LedgerEffects
  import opened LedgerRuns
  import opened MempoolModel
  import opened Primes
  import Strategies

  // --------------------------------------------------------------------- one block of one miner

  /** A secret above those of all coins. */
  function NextSecret(coins: seq<Coin>): (n: nat)
    ensures n > 0 && forall i :: 0 <= i < |coins| ==> coins[i].key.secret < n
  {
    if coins == [] then 1 else
      var n, s := NextSecret(coins[..|coins| - 1]), coins[|coins| - 1].key.secret;
      if s < n then n else s + 1
  }

  function Payout(S: State, txs: seq<Tx>): nat {
    BlockReward(S.emitted) - PoolShare(S.emitted) + Fees(txs)
  }

  function Reward(S: State, lock: nat, txs: seq<Tx>): Leg {
    Out(Key(NextSecret(S.coins), 0), NextPrime(S.primes), Payout(S, txs), lock)
  }

  /** The block of a miner who pays the whole reward to one new key. */
  function MinerBlock(S: State, lock: nat, txs: seq<Tx>): Block {
    Block(S.height + 1, Coinbase([Reward(S, lock, txs)], Payout(S, txs), S.height + 1), txs)
  }

  lemma {:induction false} RewardBounds(emitted: nat)
    ensures TAIL_EMISSION <= BlockReward(emitted) <= SUPPLY_CAP / 524_288
    ensures 20 * PoolShare(emitted) <= BlockReward(emitted)
  {
  }

  lemma {:induction false} RewardOk(S: State, lock: nat, txs: seq<Tx>)
    requires Fees(txs) <= SUPPLY_CAP / 2
    ensures LegOk(S, S.height + 1, Reward(S, lock, txs)) && CoinbaseOk(S, MinerBlock(S, lock, txs))
  {
    RewardBounds(S.emitted);
    var x := Reward(S, lock, txs);
    assert [x][..0] == [];
    assert TallyOf(S, [x]) == Tally(0, 0, x.value, 0);
  }

  lemma {:induction false} OneLeg(x: Leg)
    ensures AllMarks([x]) == Marks(x) && Fresh([x], {})
  {
    assert [x][..0] == [];
  }

  lemma {:induction false} LegsWith(x: Leg, L: seq<Leg>)
    requires x.Out? && Fresh(L, {}) && AllMarks(L) !! Marks(x) && YieldSum(L) == 0
    ensures Fresh([x] + L, {}) && YieldSum([x] + L) == 0
  {
    OneLeg(x);
    LedgerChecks.FreshConcat([x], L, {});
    assert {} + AllMarks([x]) == AllMarks([x]);
    FreshSplit(L, AllMarks([x]));
    NoYield(x, L);
  }

  lemma {:induction false} OneOk(S: State, h: nat, x: Leg)
    requires LegOk(S, h, x)
    ensures AllOk(S, h, [x])
  {
  }

  /** Valid transactions that create nothing twice and claim no yield make a valid block. */
  lemma {:induction false} MinerBlockOk(S: State, lock: nat, txs: seq<Tx>)
    requires Fees(txs) <= SUPPLY_CAP / 2 && AllTxsOk(S, S.height + 1, txs) && Fresh(Flatten(txs), {})
    requires AllMarks(Flatten(txs)) !! Marks(Reward(S, lock, txs)) && YieldSum(Flatten(txs)) == 0
    ensures BlockOk(S, MinerBlock(S, lock, txs))
  {
    RewardOk(S, lock, txs);
    OneOk(S, S.height + 1, Reward(S, lock, txs));
    LegsWith(Reward(S, lock, txs), Flatten(txs));
  }

  lemma {:induction false} NoYield(x: Leg, L: seq<Leg>)
    requires !x.VaultIn?
    ensures YieldSum([x] + L) == YieldSum(L)
  {
    if L == [] {
      assert [x] + L == [x] && [x][..0] == [];
    } else {
      assert ([x] + L)[..|L|] == [x] + L[..|L| - 1];
      NoYield(x, L[..|L| - 1]);
    }
  }

  // ------------------------------------------------------------------------------ empty blocks

  function EmptyBlock(S: State, lock: nat): Block {
    MinerBlock(S, lock, [])
  }

  /** The block that a miner with a fixed lock finds on each state. */
  function Miner(lock: nat): State -> Block {
    (S: State) => EmptyBlock(S, lock)
  }

  /** n blocks without transactions, each reward locked until a height. */
  function Mined(S: State, lock: nat, n: nat): seq<Block> {
    Strategies.Chosen(After, Miner(lock), S, n)
  }

  lemma {:induction false} StateIsFold(S: State, bs: seq<Block>)
    ensures StateAfter(S, bs) == Strategies.Fold(After, S, bs)
  {
    if bs != [] { StateIsFold(S, bs[..|bs| - 1]); }
  }

  lemma {:induction false} RunIsValid(S: State, bs: seq<Block>)
    ensures RunOk(S, bs) <==> Strategies.Valid(BlockOk, After, S, bs)
  {
    if bs != [] {
      RunIsValid(S, bs[..|bs| - 1]);
      StateIsFold(S, bs[..|bs| - 1]);
    }
  }

  /** A run can be cut anywhere. */
  lemma {:induction false} RunsJoin(S: State, A: seq<Block>, B: seq<Block>)
    ensures StateAfter(S, A + B) == StateAfter(StateAfter(S, A), B)
    ensures RunOk(S, A) && RunOk(StateAfter(S, A), B) ==> RunOk(S, A + B)
  {
    StateIsFold(S, A);
    StateIsFold(StateAfter(S, A), B);
    StateIsFold(S, A + B);
    Strategies.FoldConcat(After, S, A, B);
    RunIsValid(S, A);
    RunIsValid(StateAfter(S, A), B);
    RunIsValid(S, A + B);
    Strategies.ValidConcat(BlockOk, After, S, A, B);
  }

  lemma {:induction false} EmptyBlockOk(S: State, lock: nat)
    ensures BlockOk(S, EmptyBlock(S, lock))
  {
    MinerBlockOk(S, lock, []);
  }

  /** From every state the chain can be extended for ever. */
  lemma {:induction false} MinedOk(S: State, lock: nat, n: nat)
    ensures RunOk(S, Mined(S, lock, n)) && |Mined(S, lock, n)| == n
  {
    var next := Miner(lock);
    forall T: State ensures BlockOk(T, next(T)) {
      EmptyBlockOk(T, lock);
    }
    Strategies.ChosenValid(BlockOk, After, next, S, n);
    RunIsValid(S, Mined(S, lock, n));
  }

  /** There are runs on which the counter is no longer the supply. */
  lemma {:induction false} SomeRunSaturates(S: State, H: History, n: nat)
    requires IsGenesis(S) && IsBlank(H) && n * TAIL_EMISSION > MAX64
    ensures var bs := Mined(S, 0, n);
      && RunOk(S, bs) && StateAfter(S, bs).emitted == MAX64
      && Supply(StateAfter(S, bs), HistoryAfter(S, H, bs)) > MAX64
  {
    var lock: nat := 0;
    MinedOk(S, lock, n);
    CounterSaturates(S, H, Mined(S, lock, n));
    IssuedByHeight(S, H, Mined(S, lock, n));
  }

  /** The coin that an empty block at height i + 1 pays out. */
  predicate Minted(c: Coin, i: nat, lock: nat) {
    c.key == Key(i + 1, 0) && c.height == i + 1 && c.coinbase && c.lock == lock
    && 500_000_000_000 <= c.value <= SUPPLY_CAP / 524_288
  }

  /** The state after n empty blocks, as far as coins, notes and vaults are concerned. */
  predicate Plain(T: State, n: nat, lock: nat) {
    && T.height == n && |T.coins| == n && NextSecret(T.coins) == n + 1
    && (forall i :: 0 <= i < n ==> Minted(T.coins[i], i, lock))
    && T.spent == {} && T.tags == [] && T.notes == [] && T.anchors == [] && T.zkNull == {}
    && T.vaults == map[]
  }

  /** What a single output does. */
  lemma {:induction false} OutAlone(x: Leg, h: nat)
    requires x.Out?
    ensures NewCoins([x], h, 1) == [Coin(x.key, x.value, h, true, x.lock)]
    ensures NewRefs([x]) == {} && NewTags([x]) == [] && NewNotes([x]) == [] && NewNullifiers([x]) == []
    ensures VaultOps([x], h) == []
  {
    assert [x][..0] == [];
  }

  lemma {:induction false} CoinAdded(coins: seq<Coin>, c: Coin, n: nat, lock: nat)
    requires |coins| == n && NextSecret(coins) == n + 1 && Minted(c, n, lock)
    requires forall i :: 0 <= i < n ==> Minted(coins[i], i, lock)
    ensures NextSecret(coins + [c]) == n + 2
    ensures forall i :: 0 <= i < n + 1 ==> Minted((coins + [c])[i], i, lock)
  {
    assert (coins + [c])[..n] == coins;
  }

  lemma {:induction false} PlainStep(T: State, n: nat, lock: nat)
    requires Plain(T, n, lock)
    ensures Plain(After(T, EmptyBlock(T, lock)), n + 1, lock)
  {
    var b := EmptyBlock(T, lock);
    var x := b.coinbase.outs[0];
    assert AllLegs(b) == [x];
    OutAlone(x, n + 1);
    RewardBounds(T.emitted);
    var c := Coin(x.key, x.value, n + 1, true, lock);
    assert After(T, b).coins == T.coins + [c];
    CoinAdded(T.coins, c, n, lock);
  }

  function PlainFor(lock: nat): (State, nat) -> bool {
    (T: State, n: nat) => Plain(T, n, lock)
  }

  lemma {:induction false} MinedPlain(S: State, lock: nat, n: nat)
    requires IsGenesis(S)
    ensures Plain(StateAfter(S, Mined(S, lock, n)), n, lock)
  {
    var next, inv := Miner(lock), PlainFor(lock);
    forall T: State, k: nat ensures Strategies.KeepsAt(After, next, inv, T, k) {
      if inv(T, k) { PlainStep(T, k, lock); }
    }
    Strategies.ChosenKeeps(After, next, inv, S, n);
    StateIsFold(S, Mined(S, lock, n));
  }
}
