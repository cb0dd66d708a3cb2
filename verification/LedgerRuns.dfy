/** What holds after every run of validated blocks from genesis. */
module LedgerRuns {
  import opened Params
  import opened Sequences
  import opened Contracts
  import opened HiddenValue
  import opened LedgerModel
  import opened LedgerEffects
  import opened LedgerFlows
  import opened LedgerSteps
  import opened LedgerBalance

  function StateAfter(S: State, bs: seq<Block>): State {
    if bs == [] then S else After(StateAfter(S, bs[..|bs| - 1]), bs[|bs| - 1])
  }

  function HistoryAfter(S: State, H: History, bs: seq<Block>): History {
    if bs == [] then H else
      var front := bs[..|bs| - 1];
      Recorded(StateAfter(S, front), HistoryAfter(S, H, front), bs[|bs| - 1])
  }

  /** Each block validates on the state its predecessors left. */
  predicate RunOk(S: State, bs: seq<Block>) {
    bs != [] ==> RunOk(S, bs[..|bs| - 1]) && BlockOk(StateAfter(S, bs[..|bs| - 1]), bs[|bs| - 1])
  }

  /** blockTagsFromTxs of all blocks, in order. */
  function ChainTags(bs: seq<Block>): seq<nat> {
    if bs == [] then [] else ChainTags(bs[..|bs| - 1]) + NewTags(AllLegs(bs[|bs| - 1]))
  }

  lemma {:induction false} GenesisOk(S: State, H: History)
    requires IsGenesis(S) && IsBlank(H)
    ensures Inv(S, H)
  {
  }

  /** A run of valid blocks from genesis leads here. */
  predicate Leads(S: State, bs: seq<Block>, T: State) {
    IsGenesis(S) && RunOk(S, bs) && T == StateAfter(S, bs)
  }

  ghost predicate Reachable(T: State) {
    exists S, bs :: Leads(S, bs, T)
  }

  lemma {:induction false} GenesisReachable(S: State)
    requires IsGenesis(S)
    ensures Reachable(S)
  {
    var none: seq<Block> := [];
    assert Leads(S, none, S);
  }

  /** One more valid block leads to a reachable state. */
  lemma {:induction false} RunGrows(T: State, b: Block)
    requires Reachable(T) && BlockOk(T, b)
    ensures Reachable(After(T, b))
  {
    var S, bs :| Leads(S, bs, T);
    LeadsOn(S, bs, T, b);
  }

  lemma {:induction false} LeadsOn(S: State, bs: seq<Block>, T: State, b: Block)
    requires Leads(S, bs, T)
    ensures BlockOk(T, b) ==> Leads(S, bs + [b], After(T, b))
  {
    RunSnoc(S, bs, b);
  }

  lemma {:induction false} RunSnoc(S: State, bs: seq<Block>, b: Block)
    ensures RunOk(S, bs + [b]) <==> RunOk(S, bs) && BlockOk(StateAfter(S, bs), b)
    ensures StateAfter(S, bs + [b]) == After(StateAfter(S, bs), b)
  {
    assert (bs + [b])[..|bs|] == bs;
  }

  lemma {:induction false} RunFacts(T: State)
    requires Reachable(T)
    ensures Distinct(T.primes) && T.pool <= MAX64
  {
    var S, bs :| Leads(S, bs, T);
    var zero: nat := 0;
    EveryRun(S, History([], [], [], zero, zero), bs);
  }

  /** The invariant holds after every run. */
  lemma {:induction false} EveryRun(S: State, H: History, bs: seq<Block>)
    requires IsGenesis(S) && IsBlank(H) && RunOk(S, bs)
    ensures Inv(StateAfter(S, bs), HistoryAfter(S, H, bs))
  {
    if bs == [] {
      GenesisOk(S, H);
    } else {
      var front := bs[..|bs| - 1];
      EveryRun(S, H, front);
      Step(StateAfter(S, front), HistoryAfter(S, H, front), bs[|bs| - 1]);
    }
  }

  lemma {:induction false} TagLog(S: State, bs: seq<Block>)
    requires S.tags == []
    ensures StateAfter(S, bs).tags == ChainTags(bs)
  {
    if bs != [] { TagLog(S, bs[..|bs| - 1]); }
  }

  /** The nullifier log is the concatenation of all block tags; it has no repetition, and neither has
      the list of coins behind it: each coin is spent at most once, openly or anonymously. */
  lemma {:induction false} SpentOnce(S: State, H: History, bs: seq<Block>)
    requires IsGenesis(S) && IsBlank(H) && RunOk(S, bs)
    ensures var uses := HistoryAfter(S, H, bs).uses;
      && StateAfter(S, bs).tags == ChainTags(bs) && Distinct(ChainTags(bs)) && Distinct(uses)
      && |uses| == |ChainTags(bs)| && Within(uses, |StateAfter(S, bs).coins|)
  {
    EveryRun(S, H, bs);
    TagLog(S, bs);
    var T := StateAfter(S, bs);
    NoDoubleSpend(T.coins, T.tags, HistoryAfter(S, H, bs).uses);
  }

  // ----------------------------------------------------------------------------- supply

  /** A twentieth of what was issued covers the incentive pool and the shares it dropped, and a share
      is dropped only long after 64 bits' worth has been issued. */
  predicate SharesBounded(S: State, H: History) {
    20 * (S.pool + H.forgone) <= H.issued && (H.forgone > 0 ==> H.issued > 20 * MAX64)
  }

  lemma {:induction false} ShareIsTwentieth(emitted: nat)
    ensures 20 * PoolShare(emitted) <= BlockReward(emitted)
  {
  }

  lemma {:induction false} SharesStep(S: State, H: History, b: Block)
    requires SharesBounded(S, H)
    ensures SharesBounded(After(S, b), Recorded(S, H, b))
  {
    ShareIsTwentieth(S.emitted);
    var L := AllLegs(b);
    PoolMoves(S.pool, YieldSum(L), PoolShare(S.emitted), BlockReward(S.emitted), H.forgone, H.issued);
  }

  lemma {:induction false} PoolMoves(pool: nat, taken: nat, share: nat, reward: nat, forgone: nat, issued: nat)
    requires 20 * (pool + forgone) <= issued && (forgone > 0 ==> issued > 20 * MAX64) && 20 * share <= reward
    ensures var paid := if taken <= pool then pool - taken else 0;
      var (pool', forgone') := if paid + share <= MAX64 then (paid + share, forgone) else (paid, forgone + share);
      20 * (pool' + forgone') <= issued + reward && (forgone' > 0 ==> issued + reward > 20 * MAX64)
  {
  }

  lemma {:induction false} SharesAfter(S: State, H: History, bs: seq<Block>)
    requires IsGenesis(S) && IsBlank(H)
    ensures SharesBounded(StateAfter(S, bs), HistoryAfter(S, H, bs))
  {
    if bs != [] {
      var front := bs[..|bs| - 1];
      SharesAfter(S, H, front);
      SharesStep(StateAfter(S, front), HistoryAfter(S, H, front), bs[|bs| - 1]);
    }
  }

  /** Hidden coins, swaps, vaults, notes and the pool hold what the counter says was emitted, exactly
      until more than 64 bits' worth has been issued; as long as a node sees its counter below the
      64-bit maximum, the two agree. */
  lemma {:induction false} SupplyIsEmitted(S: State, H: History, bs: seq<Block>)
    requires IsGenesis(S) && IsBlank(H) && RunOk(S, bs)
    ensures var (T, K) := (StateAfter(S, bs), HistoryAfter(S, H, bs));
      && Supply(T, K) + K.forgone == K.issued && T.emitted <= K.issued
      && (Supply(T, K) == T.emitted <==> K.issued <= MAX64)
      && (T.emitted < MAX64 ==> Supply(T, K) == T.emitted)
  {
    EveryRun(S, H, bs);
    SharesAfter(S, H, bs);
  }

  /** What the first n blocks issue, whatever they hold: rewards depend on the counter alone. */
  function Emission(n: nat): nat {
    if n == 0 then 0 else Emission(n - 1) + BlockReward(Saturating(Emission(n - 1), 0))
  }

  lemma {:induction false} IssuedByHeight(S: State, H: History, bs: seq<Block>)
    requires IsGenesis(S) && IsBlank(H) && RunOk(S, bs)
    ensures HistoryAfter(S, H, bs).issued == Emission(|bs|) && StateAfter(S, bs).height == |bs|
  {
    if bs != [] {
      var front := bs[..|bs| - 1];
      IssuedByHeight(S, H, front);
      EveryRun(S, H, front);
    }
  }

  /** Issuance never stops: every block issues at least the tail reward. */
  lemma {:induction false} EmissionGrows(m: nat, n: nat)
    requires m <= n
    ensures Emission(n) >= Emission(m) + (n - m) * TAIL_EMISSION
  {
    if m < n { EmissionGrows(m, n - 1); }
  }

  /** The height alone decides whether the counter still is the supply; past the height at which it
      saturates it never is again. */
  lemma {:induction false} CounterSaturates(S: State, H: History, bs: seq<Block>)
    requires IsGenesis(S) && IsBlank(H) && RunOk(S, bs)
    ensures var (T, K) := (StateAfter(S, bs), HistoryAfter(S, H, bs));
      && (Supply(T, K) == T.emitted <==> Emission(T.height) <= MAX64)
      && (Emission(T.height) > MAX64 ==> Supply(T, K) > T.emitted == MAX64)
      && (T.height * TAIL_EMISSION > MAX64 ==> Emission(T.height) > MAX64)
  {
    EveryRun(S, H, bs);
    SharesAfter(S, H, bs);
    IssuedByHeight(S, H, bs);
    EmissionGrows(0, |bs|);
  }

  /** A swap is closed at most once: closings have distinct adaptor nonces, and an open swap's nonce
      was never closed. */
  lemma {:induction false} ClosedOnce(S: State, H: History, bs: seq<Block>, k: Id)
    requires IsGenesis(S) && IsBlank(H) && RunOk(S, bs)
    ensures var (T, K) := (StateAfter(S, bs), HistoryAfter(S, H, bs));
      Distinct(K.closed) && (k in T.swaps ==> T.swaps[k].Swap? && T.swaps[k].nonce !in K.closed)
  {
    EveryRun(S, H, bs);
    var T, K := StateAfter(S, bs), HistoryAfter(S, H, bs);
    assert k in T.swaps ==> SwapOk(T.swaps, T.nonces, K.closed, k);
  }

  // ------------------------------------------------------------------ post-quantum value

  ghost predicate NoPqCoins(S: State) {
    forall k :: k !in S.pqUtxo
  }

  lemma {:induction false} NoPqTx(S: State, h: nat, t: Tx)
    requires NoPqCoins(S) && TxOk(S, h, t)
    ensures !HasPq(t)
  {
    var i :| 0 <= i < |t.legs| && IsInput(t.legs[i]);
    assert LegOk(S, h, t.legs[i]);
    assert !t.legs[i].PqIn?;
    assert !IsPq(t.legs[i]);
  }

  lemma {:induction false} NoPqLegs(L: seq<Leg>)
    requires forall i :: 0 <= i < |L| ==> !IsPq(L[i])
    ensures PqPuts(L) == [] && PqDels(L) == []
  {
    if L != [] {
      NoPqLegs(L[..|L| - 1]);
      assert !IsPq(L[|L| - 1]);
    }
  }

  lemma {:induction false} FlattenNoPq(S: State, h: nat, txs: seq<Tx>)
    requires NoPqCoins(S) && AllTxsOk(S, h, txs)
    ensures forall i :: 0 <= i < |Flatten(txs)| ==> !IsPq(Flatten(txs)[i])
  {
    if txs != [] {
      var F, t := txs[..|txs| - 1], txs[|txs| - 1];
      FlattenNoPq(S, h, F);
      assert TxOk(S, h, t);
      NoPqTx(S, h, t);
      forall i | 0 <= i < |Flatten(txs)| ensures !IsPq(Flatten(txs)[i]) {
        if i >= |Flatten(F)| { assert !IsPq(t.legs[i - |Flatten(F)|]); }
      }
    }
  }

  predicate NoPqIn(b: Block) {
    forall j {:trigger b.txs[j]} :: 0 <= j < |b.txs| ==> !HasPq(b.txs[j])
  }

  predicate NoPqRun(bs: seq<Block>) {
    bs != [] ==> NoPqRun(bs[..|bs| - 1]) && NoPqIn(bs[|bs| - 1])
  }

  lemma {:induction false} NoPqBlock(S: State, b: Block)
    requires NoPqCoins(S) && BlockOk(S, b)
    ensures NoPqIn(b) && NoPqCoins(After(S, b))
  {
    forall j | 0 <= j < |b.txs| ensures !HasPq(b.txs[j]) {
      NoPqTx(S, b.height, b.txs[j]);
    }
    FlattenNoPq(S, b.height, b.txs);
    NoPqLegs(AllLegs(b));
  }

  /** No post-quantum coin ever exists: minting is closed in the coinbase and nothing else creates
      the first one, so no post-quantum transaction is ever valid. */
  lemma {:induction false} NoPqEver(S: State, bs: seq<Block>)
    requires NoPqCoins(S) && RunOk(S, bs)
    ensures NoPqCoins(StateAfter(S, bs))
    ensures NoPqRun(bs)
  {
    if bs != [] {
      var front, b := bs[..|bs| - 1], bs[|bs| - 1];
      NoPqEver(S, front);
      NoPqBlock(StateAfter(S, front), b);
    }
  }

  lemma {:induction false} HistoryOf(S: State, bs: seq<Block>, T: State) returns (H: History)
    requires Leads(S, bs, T)
    ensures Inv(T, H) && NoPqCoins(T)
  {
    var zero: nat := 0;
    var blank := History([], [], [], zero, zero);
    EveryRun(S, blank, bs);
    NoPqEver(S, bs);
    H := HistoryAfter(S, blank, bs);
  }

  // ------------------------------------------------------------------ shared nullifiers

  /** On a reachable state a leaf of ordinary value can be spent in full exactly while its nullifier has
      not been revealed. */
  lemma {:induction false} LeafSpendable(S: State, H: History, h: nat, at: nat)
    requires Inv(S, H) && at < |S.notes| && S.notes[at].value <= SUPPLY_CAP
    ensures LegOk(S, h, ZkIn(S.notes[at].nullifier, |S.notes|, S.notes[at].value, at))
       <==> S.notes[at].nullifier !in S.zkNull
  {
  }

  /** The leaf was not spent, but its nullifier was revealed. */
  predicate Stranded(S: State, H: History, at: nat) {
    at < |S.notes| && at !in H.redeems && S.notes[at].nullifier in S.zkNull
  }

  /** A leaf is stranded exactly when it is unspent and another one with its nullifier was spent. */
  lemma {:induction false} StrandedByTwin(S: State, H: History, at: nat)
    requires Inv(S, H) && at < |S.notes|
    ensures Stranded(S, H, at) <==>
              at !in H.redeems && exists i :: 0 <= i < |H.redeems| && H.redeems[i] < |S.notes|
                                      && S.notes[H.redeems[i]].nullifier == S.notes[at].nullifier
  {
  }

  /** No leg of a valid block spends a leaf whose nullifier was revealed. */
  lemma {:induction false} NoLateRedeem(S: State, h: nat, L: seq<Leg>, at: nat)
    requires AllOk(S, h, L) && at < |S.notes| && S.notes[at].nullifier in S.zkNull
    ensures at !in NewRedeems(L)
  {
    if L != [] {
      AllOkFront(S, h, L);
      NoLateRedeem(S, h, L[..|L| - 1], at);
    }
  }

  lemma {:induction false} StrandedStep(S: State, H: History, b: Block, at: nat)
    requires Stranded(S, H, at) && BlockOk(S, b)
    ensures Stranded(After(S, b), Recorded(S, H, b), at) && After(S, b).notes[at] == S.notes[at]
  {
    LegsOk(S, b);
    NoLateRedeem(S, b.height, AllLegs(b), at);
  }

  lemma {:induction false} StrandedStays(S: State, H: History, bs: seq<Block>, at: nat)
    requires RunOk(S, bs) && Stranded(S, H, at)
    ensures var (T, K) := (StateAfter(S, bs), HistoryAfter(S, H, bs));
      Stranded(T, K, at) && T.notes[at] == S.notes[at]
  {
    if bs != [] {
      var front := bs[..|bs| - 1];
      StrandedStays(S, H, front, at);
      StrandedStep(StateAfter(S, front), HistoryAfter(S, H, front), bs[|bs| - 1], at);
    }
  }

  lemma {:induction false} StrandedValue(S: State, H: History, at: nat)
    requires Stranded(S, H, at)
    ensures Supply(S, H) >= S.notes[at].value
    ensures forall h, leg :: RedeemsOf(leg) == [at] ==> !LegOk(S, h, leg)
  {
    LiveUse(NoteValues(S.notes), Positions(H.redeems), at);
  }

  /** Once stranded, a leaf stays so in every continuation of the chain: no spend of it is ever valid
      again, and its value remains part of the supply. */
  lemma {:induction false} SharedNullifierStrands(S: State, H: History, bs: seq<Block>, at: nat)
    requires RunOk(S, bs) && Stranded(S, H, at)
    ensures var (T, K) := (StateAfter(S, bs), HistoryAfter(S, H, bs));
      && at < |T.notes| && T.notes[at] == S.notes[at] && at !in K.redeems && Supply(T, K) >= S.notes[at].value
      && forall h, leg :: RedeemsOf(leg) == [at] ==> !LegOk(T, h, leg)
  {
    StrandedStays(S, H, bs, at);
    StrandedValue(StateAfter(S, bs), HistoryAfter(S, H, bs), at);
  }

  lemma {:induction false} RevealedStays(S: State, bs: seq<Block>, t: nat)
    requires t in S.zkNull
    ensures t in StateAfter(S, bs).zkNull
  {
    if bs != [] { RevealedStays(S, bs[..|bs| - 1], t); }
  }

  /** A nullifier is accepted once: after it was revealed no spend that shows it is valid again. */
  lemma {:induction false} NullifierOnce(S: State, bs: seq<Block>, h: nat, leg: Leg)
    requires (leg.ZkIn? || leg.Czk?) && leg.nullifier in S.zkNull
    ensures !LegOk(StateAfter(S, bs), h, leg)
  {
    RevealedStays(S, bs, leg.nullifier);
  }

  // ------------------------------------------------------------------------ shared secrets

  /** The coin was not spent, but its secret's tag was recorded. */
  predicate StrandedCoin(S: State, H: History, i: nat) {
    i < |S.coins| && i !in H.uses && S.coins[i].key.secret in S.tags
  }

  /** One secret under two low-order parts. */
  predicate Kin(c: Coin, d: Coin) {
    c.key.secret == d.key.secret && c.key.twist != d.key.twist
  }

  /** A coin is stranded exactly when it is unspent and a coin with its secret under another low-order
      part was spent. */
  lemma {:induction false} StrandedByKin(S: State, H: History, i: nat)
    requires Inv(S, H) && i < |S.coins|
    ensures StrandedCoin(S, H, i) <==>
              && i !in H.uses
              && (exists j :: 0 <= j < |H.uses| && H.uses[j] < |S.coins| && Kin(S.coins[H.uses[j]], S.coins[i]))
  {
    if StrandedCoin(S, H, i) {
      var j :| 0 <= j < |S.tags| && S.tags[j] == S.coins[i].key.secret;
      assert H.uses[j] != i;
      assert S.coins[H.uses[j]].key != S.coins[i].key;
      assert Kin(S.coins[H.uses[j]], S.coins[i]);
    }
  }

  /** No leg of a valid block spends a coin whose tag was recorded. */
  lemma {:induction false} NoLateUse(S: State, h: nat, L: seq<Leg>, i: nat)
    requires AllOk(S, h, L) && i < |S.coins| && S.coins[i].key.secret in S.tags
    ensures i !in NewUses(S, L)
  {
    if L != [] {
      AllOkFront(S, h, L);
      NoLateUse(S, h, L[..|L| - 1], i);
      if UsesOf(S, L[|L| - 1]) == [i] { TaggedRefused(S, h, L[|L| - 1], i); }
    }
  }

  lemma {:induction false} TaggedRefused(S: State, h: nat, x: Leg, i: nat)
    requires i < |S.coins| && S.coins[i].key.secret in S.tags && UsesOf(S, x) == [i]
    ensures !LegOk(S, h, x)
  {
  }

  lemma {:induction false} StrandedCoinStep(S: State, H: History, b: Block, i: nat)
    requires StrandedCoin(S, H, i) && BlockOk(S, b)
    ensures StrandedCoin(After(S, b), Recorded(S, H, b), i) && After(S, b).coins[i] == S.coins[i]
  {
    LegsOk(S, b);
    NoLateUse(S, b.height, AllLegs(b), i);
  }

  lemma {:induction false} StrandedCoinStays(S: State, H: History, bs: seq<Block>, i: nat)
    requires RunOk(S, bs) && StrandedCoin(S, H, i)
    ensures var (T, K) := (StateAfter(S, bs), HistoryAfter(S, H, bs));
      StrandedCoin(T, K, i) && T.coins[i] == S.coins[i]
  {
    if bs != [] {
      var front := bs[..|bs| - 1];
      StrandedCoinStays(S, H, front, i);
      StrandedCoinStep(StateAfter(S, front), HistoryAfter(S, H, front), bs[|bs| - 1], i);
    }
  }

  lemma {:induction false} StrandedCoinValue(S: State, H: History, i: nat)
    requires StrandedCoin(S, H, i)
    ensures Supply(S, H) >= S.coins[i].value
    ensures forall h, leg :: UsesOf(S, leg) == [i] ==> !LegOk(S, h, leg)
  {
    LiveUse(CoinValues(S.coins), Positions(H.uses), i);
    forall h, leg | UsesOf(S, leg) == [i] ensures !LegOk(S, h, leg) {
      TaggedRefused(S, h, leg, i);
    }
  }

  /** Once stranded, a coin stays so in every continuation of the chain: no spend of it, open or
      anonymous, is ever valid again, and its value remains part of the supply. */
  lemma {:induction false} SharedSecretStrands(S: State, H: History, bs: seq<Block>, i: nat)
    requires RunOk(S, bs) && StrandedCoin(S, H, i)
    ensures var (T, K) := (StateAfter(S, bs), HistoryAfter(S, H, bs));
      && i < |T.coins| && T.coins[i] == S.coins[i] && i !in K.uses && Supply(T, K) >= S.coins[i].value
      && forall h, leg :: UsesOf(T, leg) == [i] ==> !LegOk(T, h, leg)
  {
    StrandedCoinStays(S, H, bs, i);
    StrandedCoinValue(StateAfter(S, bs), HistoryAfter(S, H, bs), i);
  }

  // -------------------------------------------------------------------------- time locks

  /** Some valid input at the height spends the coin at a position. */
  ghost predicate Spendable(S: State, h: nat, i: nat) {
    exists leg :: UsesOf(S, leg) == [i] && LegOk(S, h, leg)
  }

  predicate Unspent(S: State, i: nat)
    requires i < |S.coins|
  {
    S.coins[i].key.secret != 0 && S.coins[i].key.secret !in S.tags && S.coins[i].key !in S.spent
  }

  /** The coins from a multiple of sixteen on that share a coin's pool are all there, and those of them that
      a coinbase minted are sixty blocks old. */
  ghost predicate RingRipe(coins: seq<Coin>, i: nat, h: nat) {
    var first := i - i % 16;
    first + 16 <= |coins| && forall j :: first <= j < first + 16 && coins[j].coinbase ==> h >= coins[j].height + 60
  }

  lemma {:induction false} RingOf(coins: seq<Coin>, i: nat, h: nat)
    ensures PoolUsable(coins, i / RING, h) <==> RingRipe(coins, i, h)
  {
    assert RING * (i / RING) == i - i % 16;
  }

  /** The time lock of a coin binds open spends only: before it has passed, the coin can be spent exactly
      when its anonymity pool is complete and ripe. */
  lemma {:induction false} LockHolds(S: State, h: nat, i: nat)
    requires CoinsOk(S.coins) && i < |S.coins| && Unspent(S, i)
    ensures h < S.coins[i].lock ==> (Spendable(S, h, i) <==> RingRipe(S.coins, i, h))
    ensures h >= S.coins[i].lock ==>
              (Spendable(S, h, i) <==>
                 RingRipe(S.coins, i, h) || !S.coins[i].coinbase || h >= S.coins[i].height + 60)
  {
    RingOf(S.coins, i, h);
    var c := S.coins[i];
    var open := Spend(c.key, Image(c.key.secret, 0), c.value);
    var anon := Anon(i / RING, Image(c.key.secret, 0), c.value, i % RING);
    assert IndexOf(S.coins, c.key) == i;
    assert RING * (i / RING) + i % RING == i;
    assert UsesOf(S, open) == [i] && UsesOf(S, anon) == [i];
    if Mature(c, h) && h >= c.lock { assert LegOk(S, h, open); }
    if PoolUsable(S.coins, i / RING, h) { assert LegOk(S, h, anon); }
    forall leg | UsesOf(S, leg) == [i] && LegOk(S, h, leg)
      ensures PoolUsable(S.coins, i / RING, h) || (Mature(c, h) && h >= c.lock)
    {
      if leg.Anon? { PoolOf(leg.pool, leg.member, i); }
    }
  }

  lemma {:induction false} PoolOf(pool: nat, member: nat, i: nat)
    requires member < RING && RING * pool + member == i
    ensures i / RING == pool
  {
  }
}
