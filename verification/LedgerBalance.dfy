/** Conservation: the proofs of single transactions add up to the supply law over every run. */
module LedgerBalance {
  import opened Params
  import opened Contracts
  import opened HiddenValue
  import opened LedgerModel
  import opened LedgerEffects
  import opened LedgerFlows
  import opened LedgerSteps

  // ------------------------------------------------------- from the group to the integers

  lemma {:induction false} PseudoBound(S: State, h: nat, L: seq<Leg>)
    requires CoinsOk(S.coins) && AllOk(S, h, L)
    ensures TallyOf(S, L).pseudo <= MAX64 * (Count(L, 0) + Count(L, 1))
  {
    if L != [] {
      AllOkFront(S, h, L);
      PseudoBound(S, h, L[..|L| - 1]);
    }
  }

  lemma {:induction false} OutsBound(S: State, h: nat, L: seq<Leg>)
    requires AllOk(S, h, L)
    ensures TallyOf(S, L).outs <= MAX64 * Count(L, 6)
  {
    if L != [] {
      AllOkFront(S, h, L);
      OutsBound(S, h, L[..|L| - 1]);
    }
  }

  lemma {:induction false} CountBound(L: seq<Leg>, kind: nat)
    ensures Count(L, kind) <= |L|
  {
    if L != [] { CountBound(L[..|L| - 1], kind); }
  }

  /** A multiple of the group order that is smaller than it is zero. */
  lemma {:induction false} NoWrap(x: int)
    requires x % ORDER == 0 && -(ORDER as int) < x < ORDER
    ensures x == 0
  {
  }

  /** A commitment balance over range-checked amounts is a balance of the amounts. */
  lemma {:induction false} ClassicBalance(S: State, h: nat, t: Tx)
    requires CoinsOk(S.coins) && TxOk(S, h, t) && !HasPq(t)
    ensures Classic(Flows(S, t.legs)) == -(t.fee as int)
  {
    PseudoBound(S, h, t.legs);
    OutsBound(S, h, t.legs);
    BalanceExact(TallyOf(S, t.legs), t.fee, Count(t.legs, 0), Count(t.legs, 1), Count(t.legs, 6));
    FlowsAreTally(S, t.legs);
  }

  lemma {:induction false} BalanceExact(y: Tally, fee: nat, spends: nat, anons: nat, outs: nat)
    requires y.pseudo <= MAX64 * (spends + anons) && y.outs <= MAX64 * outs
    requires spends <= MAX_LEGS && anons <= MAX_LEGS && outs <= MAX_LEGS
    requires y.publicIn <= MAX64 && fee + y.publicOut <= MAX64
    ensures Conserves(y, fee + y.publicOut) ==> y.pseudo + y.publicIn == y.outs + y.publicOut + fee
  {
    if Conserves(y, fee + y.publicOut) {
      NoWrap(y.pseudo + y.publicIn - y.outs - (fee + y.publicOut));
    }
  }

  lemma {:induction false} PqLegFlow(S: State, x: Leg)
    requires IsPq(x)
    ensures Classic(FlowOf(S, x)) == 0
  {
  }

  lemma {:induction false} OnlyPqFlow(S: State, L: seq<Leg>)
    requires forall i :: 0 <= i < |L| ==> IsPq(L[i])
    ensures Classic(Flows(S, L)) == 0
  {
    if L != [] {
      var F, x := L[..|L| - 1], L[|L| - 1];
      OnlyPqFlow(S, F);
      PqLegFlow(S, x);
      assert Flows(S, L) == Plus(Flows(S, F), FlowOf(S, x));
    }
  }

  lemma {:induction false} NoPqFlow(S: State, L: seq<Leg>)
    requires forall i :: 0 <= i < |L| ==> !IsPq(L[i])
    ensures Flows(S, L).pq == 0
  {
    if L != [] {
      NoPqFlow(S, L[..|L| - 1]);
      assert !IsPq(L[|L| - 1]);
    }
  }

  function PqFees(txs: seq<Tx>): nat {
    if txs == [] then 0 else PqFees(txs[..|txs| - 1]) + if HasPq(txs[|txs| - 1]) then txs[|txs| - 1].fee else 0
  }

  lemma {:induction false} TxFlow(S: State, h: nat, t: Tx)
    requires CoinsOk(S.coins) && TxOk(S, h, t)
    ensures Classic(Flows(S, t.legs)) == if HasPq(t) then 0 else -(t.fee as int)
    ensures Flows(S, t.legs).pq == if HasPq(t) then -(t.fee as int) else 0
  {
    if HasPq(t) {
      OnlyPqFlow(S, t.legs);
      PqFlow(S, t.legs);
    } else {
      ClassicBalance(S, h, t);
      NoPqFlow(S, t.legs);
    }
  }

  /** All transactions of a block together give up exactly their fees. */
  lemma {:induction false} TxsFlow(S: State, h: nat, txs: seq<Tx>)
    requires CoinsOk(S.coins) && AllTxsOk(S, h, txs)
    ensures Classic(Flows(S, Flatten(txs))) == -(Fees(txs) as int)
    ensures Flows(S, Flatten(txs)).pq == -(PqFees(txs) as int)
  {
    if txs != [] {
      var F, t := txs[..|txs| - 1], txs[|txs| - 1];
      TxsFlow(S, h, F);
      TxFlow(S, h, t);
      FlowsConcat(S, Flatten(F), t.legs);
    }
  }

  lemma {:induction false} CoinbaseFlow(S: State, b: Block)
    requires CoinbaseOk(S, b) && AllOk(S, b.height, b.coinbase.outs)
    ensures Classic(Flows(S, b.coinbase.outs)) == b.coinbase.minted && Flows(S, b.coinbase.outs).pq == 0
  {
    var L := b.coinbase.outs;
    OutsBound(S, b.height, L);
    CountBound(L, 6);
    NoWrap(b.coinbase.minted - TallyOf(S, L).outs);
    OutsOnly(S, L);
    FlowsAreTally(S, L);
    NoPqFlow(S, L);
  }

  lemma {:induction false} OutsOnly(S: State, L: seq<Leg>)
    requires OnlyOuts(L)
    ensures TallyOf(S, L) == Tally(0, 0, TallyOf(S, L).outs, 0)
  {
    if L != [] { OutsOnly(S, L[..|L| - 1]); }
  }

  lemma {:induction false} FlattenOk(S: State, h: nat, txs: seq<Tx>)
    requires AllTxsOk(S, h, txs)
    ensures AllOk(S, h, Flatten(txs))
  {
    if txs != [] {
      FlattenOk(S, h, txs[..|txs| - 1]);
      assert TxOk(S, h, txs[|txs| - 1]);
    }
  }

  lemma {:induction false} LegsOk(S: State, b: Block)
    requires BlockOk(S, b)
    ensures AllOk(S, b.height, AllLegs(b))
  {
    FlattenOk(S, b.height, b.txs);
  }

  /** A block issues its coinbase and nothing else: fees come back once, post-quantum fees never. */
  lemma {:induction false} BlockFlow(S: State, b: Block)
    requires CoinsOk(S.coins) && BlockOk(S, b)
    ensures Classic(Flows(S, AllLegs(b))) == BlockReward(S.emitted) - PoolShare(S.emitted)
    ensures Flows(S, AllLegs(b)).pq == -(PqFees(b.txs) as int)
  {
    FlowsConcat(S, b.coinbase.outs, Flatten(b.txs));
    CoinbaseFlow(S, b);
    TxsFlow(S, b.height, b.txs);
  }

  // ----------------------------------------------------------------------- parts of the state

  lemma {:induction false} CoinsMove(S: State, H: History, h: nat, L: seq<Leg>, n: nat)
    requires TagsOk(S.coins, S.tags, H.uses) && AllOk(S, h, L) && Fresh(L, {})
    ensures Live(CoinValues(S.coins + NewCoins(L, h, n)), Positions(H.uses + NewUses(S, L)))
         == Live(CoinValues(S.coins), Positions(H.uses)) + Flows(S, L).coins
  {
    CoinFlow(S, h, L, n);
    TagsStep(S, H, h, L, []);
    NoDoubleSpend(S.coins + [], S.tags + NewTags(L), H.uses + NewUses(S, L));
    LiveAfter(CoinValues(S.coins), H.uses, CoinValues(NewCoins(L, h, n)), NewUses(S, L));
    CoinValuesConcat(S.coins, NewCoins(L, h, n));
  }

  lemma {:induction false} NotesMove(S: State, H: History, h: nat, L: seq<Leg>)
    requires NotesOk(S.notes, S.zkNull, H.redeems) && AllOk(S, h, L) && Fresh(L, {})
    ensures Live(NoteValues(S.notes + NewNotes(L)), Positions(H.redeems + NewRedeems(L)))
         == Live(NoteValues(S.notes), Positions(H.redeems)) + Flows(S, L).notes
  {
    NoteFlow(S, h, L);
    NotesStep(S, H, h, L, NewNotes(L));
    LiveAfter(NoteValues(S.notes), H.redeems, NoteValues(NewNotes(L)), NewRedeems(L));
    NoteValuesConcat(S.notes, NewNotes(L));
  }

  lemma {:induction false} ContractsMove(S: State, b: Block)
    requires BlockOk(S, b)
    ensures Total(After(S, b).swaps) == Total(S.swaps) + Flows(S, AllLegs(b)).swaps
    ensures Total(After(S, b).vaults) == Total(S.vaults) + Flows(S, AllLegs(b)).vaults
  {
    var L := AllLegs(b);
    LegsOk(S, b);
    SwapOpsClean(S, b.height, L);
    TotalOfRun(S.swaps, SwapDels(L) + SwapPuts(L));
    NetConcat(S.swaps, SwapDels(L), SwapPuts(L));
    SwapFlow(S, L);
    VaultOpsClean(S, b.height, L, {});
    TotalOfRun(S.vaults, VaultOps(L, b.height));
    VaultFlow(S, L, b.height);
  }

  /** Post-quantum value only shrinks, by the fees burned. */
  lemma {:induction false} PqMoves(S: State, b: Block)
    requires CoinsOk(S.coins) && PqOk(S) && BlockOk(S, b)
    ensures Total(After(S, b).pqUtxo) == Total(S.pqUtxo) - PqFees(b.txs)
  {
    var L := AllLegs(b);
    LegsOk(S, b);
    BlockFlow(S, b);
    PqOpsClean(S, b.height, L);
    TotalOfRun(S.pqUtxo, PqPuts(L) + PqDels(L));
    NetConcat(S.pqUtxo, PqPuts(L), PqDels(L));
    PqMapFlow(S, L);
  }

  lemma {:induction false} SupplyMoves(S: State, H: History, b: Block)
    requires Inv(S, H) && BlockOk(S, b)
    ensures Supply(After(S, b), Recorded(S, H, b)) - After(S, b).pool
         == Supply(S, H) - S.pool + BlockReward(S.emitted) - PoolShare(S.emitted) + YieldSum(AllLegs(b))
  {
    LegsOk(S, b);
    CoinsMove(S, H, b.height, AllLegs(b), |b.coinbase.outs|);
    NotesMove(S, H, b.height, AllLegs(b));
    ContractsMove(S, b);
    BlockFlow(S, b);
    FlowsAreTally(S, AllLegs(b));
  }

  lemma {:induction false} MoneyStep(S: State, H: History, b: Block)
    requires Inv(S, H) && BlockOk(S, b)
    ensures Conserved(After(S, b), Recorded(S, H, b)) && CountersOk(After(S, b), Recorded(S, H, b))
  {
    SupplyMoves(S, H, b);
    assert S.pool <= Supply(S, H);
  }

  // ------------------------------------------------------------------------- the whole step

  lemma {:induction false} VaultsTyped(vaults: map<Id, Contract>, L: seq<Leg>, h: nat)
    requires forall k :: k in vaults ==> vaults[k].Vault?
    ensures forall k :: k in Run(vaults, VaultOps(L, h)) ==> Run(vaults, VaultOps(L, h))[k].Vault?
  {
    if L != [] {
      var F, x := L[..|L| - 1], L[|L| - 1];
      VaultsTyped(vaults, F, h);
      if x.VaultIn? || x.VaultOut? {
        assert VaultOps(L, h)[..|VaultOps(F, h)|] == VaultOps(F, h);
      } else {
        assert VaultOps(L, h) == VaultOps(F, h);
      }
    }
  }

  lemma {:induction false} PqDelsShrink(m: map<Id, Contract>, p: seq<Op>, q: seq<Op>, k: Id)
    requires k in Run(m, p + q) && forall i :: 0 <= i < |q| ==> q[i].Del?
    ensures k in Run(m, p) && Run(m, p + q)[k] == Run(m, p)[k]
  {
    if q == [] {
      assert p + q == p;
    } else {
      assert (p + q)[..|p + q| - 1] == p + q[..|q| - 1];
      PqDelsShrink(m, p, q[..|q| - 1], k);
    }
  }

  lemma {:induction false} PqPutsTyped(m: map<Id, Contract>, L: seq<Leg>, k: Id)
    requires k in Run(m, PqPuts(L))
    ensures (k in m && Run(m, PqPuts(L))[k] == m[k]) || (k in NewPqKeys(L) && Run(m, PqPuts(L))[k].PqCoin?)
  {
    if L != [] {
      var F, x := L[..|L| - 1], L[|L| - 1];
      var ops := PqPuts(L);
      if x.PqOut? {
        assert ops[..|ops| - 1] == PqPuts(F);
        if k != x.pq { PqPutsTyped(m, F, k); }
      } else {
        assert PqPuts(L) == PqPuts(F) && NewPqKeys(L) == NewPqKeys(F);
        PqPutsTyped(m, F, k);
      }
    }
  }

  lemma {:induction false} PqStep(S: State, b: Block)
    requires PqOk(S) && BlockOk(S, b)
    ensures PqOk(After(S, b))
  {
    var L := AllLegs(b);
    var T := After(S, b);
    forall i | 0 <= i < |PqDels(L)| ensures PqDels(L)[i].Del? { PqDelMarked(L, i); }
    forall k | k in T.pqUtxo ensures k in T.pqKeys && T.pqUtxo[k].PqCoin? {
      PqDelsShrink(S.pqUtxo, PqPuts(L), PqDels(L), k);
      PqPutsTyped(S.pqUtxo, L, k);
    }
  }

  lemma {:induction false} AnchorsStep(anchors: seq<nat>, n: nat, m: nat)
    requires AnchorsOk(anchors, n) && n <= m
    ensures AnchorsOk(Anchored(anchors, m), m)
  {
    if m != 0 && m !in anchors {
      Front(anchors, m);
      var more := anchors + [m];
      assert more[|more| - 1] == m;
      if |more| > ANCHOR_WINDOW {
        var kept := more[|more| - ANCHOR_WINDOW..];
        assert kept[|kept| - 1] == m;
        assert forall i :: 0 <= i < |kept| ==> kept[i] == more[i + 1];
      }
    }
  }

  /** A valid block keeps everything. */
  lemma {:induction false} Step(S: State, H: History, b: Block)
    requires Inv(S, H) && BlockOk(S, b)
    ensures Inv(After(S, b), Recorded(S, H, b))
  {
    var L, h, n := AllLegs(b), b.height, |b.coinbase.outs|;
    LegsOk(S, b);
    CoinsStep(S, h, L, {}, n);
    PrimesFresh(S, h, L, {}, n);
    TagsStep(S, H, h, L, NewCoins(L, h, n));
    NotesStep(S, H, h, L, NewNotes(L));
    SwapsStep(S, H, h, L);
    VaultsTyped(S.vaults, L, h);
    PqStep(S, b);
    AnchorsStep(S.anchors, |S.notes|, |S.notes + NewNotes(L)|);
    MoneyStep(S, H, b);
  }
}
