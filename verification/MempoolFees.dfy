/** What backs the fees of pending transactions, and when a replacement pays for what it replaces. */
module MempoolFees {
  import opened Params
  import opened Contracts
  import opened LedgerModel
  import opened LedgerEffects
  import opened LedgerFlows
  import opened LedgerSteps
  import opened LedgerBalance
  import opened LedgerRuns
  import opened MempoolModel
  import opened Mempool

  /** What the inputs among the legs bring in, hidden and public. */
  function Ins(S: State, L: seq<Leg>): nat {
    TallyOf(S, L).pseudo + TallyOf(S, L).publicIn
  }

  /** What inputs bring in is there to be taken: only vault yields come on top. */
  lemma {:induction false} InputsBacked(S: State, H: History, h: nat, L: seq<Leg>)
    requires Inv(S, H) && AllOk(S, h, L) && Fresh(L, {})
    requires TallyOf(S, L).outs == 0 && TallyOf(S, L).publicOut == 0
    ensures Ins(S, L) <= Supply(S, H) - S.pool + YieldSum(L)
  {
    CoinsMove(S, H, h, L, 0);
    NotesMove(S, H, h, L);
    SwapOpsClean(S, h, L);
    TotalOfRun(S.swaps, SwapDels(L) + SwapPuts(L));
    NetConcat(S.swaps, SwapDels(L), SwapPuts(L));
    SwapFlow(S, L);
    VaultOpsClean(S, h, L, {});
    TotalOfRun(S.vaults, VaultOps(L, h));
    VaultFlow(S, L, h);
    FlowsAreTally(S, L);
  }

  lemma {:induction false} TallySnoc(S: State, L: seq<Leg>, x: Leg)
    ensures TallyOf(S, L + [x]) == Add(TallyOf(S, L), LedgerModel.Entry(S, x))
  {
    assert (L + [x])[..|L|] == L;
  }

  lemma {:induction false} InputsSnoc(L: seq<Leg>, x: Leg)
    ensures Inputs(L + [x]) == if IsInput(x) then Inputs(L) + [x] else Inputs(L)
  {
    assert (L + [x])[..|L|] == L;
  }

  lemma {:induction false} OneSide(S: State, x: Leg)
    ensures var e := LedgerModel.Entry(S, x);
      if IsInput(x) then e.outs == 0 && e.publicOut == 0 else e.pseudo == 0 && e.publicIn == 0
  {
  }

  function InSide(y: Tally): Tally { Tally(y.pseudo, y.publicIn, 0, 0) }

  lemma {:induction false} AddSide(y: Tally, e: Tally)
    ensures e.outs == 0 && e.publicOut == 0 ==> Add(InSide(y), e) == InSide(Add(y, e))
    ensures e.pseudo == 0 && e.publicIn == 0 ==> InSide(y) == InSide(Add(y, e))
  {
  }

  lemma {:induction false} InputsTallyMore(S: State, F: seq<Leg>, x: Leg)
    requires TallyOf(S, Inputs(F)) == InSide(TallyOf(S, F))
    ensures TallyOf(S, Inputs(F + [x])) == InSide(TallyOf(S, F + [x]))
  {
    InputsSnoc(F, x);
    TallySnoc(S, F, x);
    OneSide(S, x);
    AddSide(TallyOf(S, F), LedgerModel.Entry(S, x));
    if IsInput(x) {
      TallySnoc(S, Inputs(F), x);
    }
  }

  /** The inputs alone have the same incoming side and no outgoing one. */
  lemma {:induction false} InputsTally(S: State, L: seq<Leg>)
    ensures TallyOf(S, Inputs(L)) == InSide(TallyOf(S, L))
  {
    if L != [] {
      var F, x := L[..|L| - 1], L[|L| - 1];
      InputsTally(S, F);
      InputsTallyMore(S, F, x);
      assert L == F + [x];
    }
  }

  lemma {:induction false} InputsOk(S: State, h: nat, L: seq<Leg>)
    requires AllOk(S, h, L)
    ensures AllOk(S, h, Inputs(L))
  {
    if L != [] {
      var F, x := L[..|L| - 1], L[|L| - 1];
      AllOkFront(S, h, L);
      InputsOk(S, h, F);
      if IsInput(x) {
        assert (Inputs(F) + [x])[..|Inputs(F)|] == Inputs(F);
      } else {
        assert Inputs(F) + [] == Inputs(F);
      }
    }
  }

  lemma {:induction false} InputsYield(L: seq<Leg>)
    ensures YieldSum(Inputs(L)) == YieldSum(L)
  {
    if L != [] {
      var F, x := L[..|L| - 1], L[|L| - 1];
      InputsYield(F);
      if IsInput(x) {
        assert (Inputs(F) + [x])[..|Inputs(F)|] == Inputs(F);
      } else {
        assert Inputs(F) + [] == Inputs(F);
      }
    }
  }

  lemma {:induction false} InputsFresh(L: seq<Leg>)
    requires Fresh(L, {})
    ensures Fresh(Inputs(L), {}) && AllMarks(Inputs(L)) <= AllMarks(L)
  {
    if L != [] {
      var F, x := L[..|L| - 1], L[|L| - 1];
      InputsFresh(F);
      if IsInput(x) {
        assert (Inputs(F) + [x])[..|Inputs(F)|] == Inputs(F);
      } else {
        assert Inputs(F) + [] == Inputs(F);
      }
    }
  }

  function Amounts(ts: seq<Tx>, amount: Tx -> nat): nat {
    if ts == [] then 0 else Amounts(ts[..|ts| - 1], amount) + amount(ts[|ts| - 1])
  }

  /** The yields a transaction claims from the incentive pool. */
  function YieldOf(t: Tx): nat { YieldSum(t.legs) }

  lemma {:induction false} YieldConcat(A: seq<Leg>, B: seq<Leg>)
    ensures YieldSum(A + B) == YieldSum(A) + YieldSum(B)
  {
    if B == [] {
      assert A + B == A;
    } else {
      assert (A + B)[..|A + B| - 1] == A + B[..|B| - 1];
      YieldConcat(A, B[..|B| - 1]);
    }
  }

  function InsOf(S: State): Tx -> nat {
    (t: Tx) => Ins(S, t.legs)
  }

  lemma {:induction false} FeeFromInputs(S: State, h: nat, t: Tx)
    requires CoinsOk(S.coins) && NoPqCoins(S) && TxOk(S, h, t)
    ensures FeeOf(t) <= InsOf(S)(t)
  {
    NoPqTx(S, h, t);
    ClassicBalance(S, h, t);
    FlowsAreTally(S, t.legs);
  }

  lemma {:induction false} SpendingOk(S: State, h: nat, ts: seq<Tx>)
    requires AllTxsOk(S, h, ts)
    ensures AllOk(S, h, Flatten(Spending(ts)))
  {
    if ts != [] {
      SpendingOk(S, h, ts[..|ts| - 1]);
      assert TxOk(S, h, ts[|ts| - 1]);
      InputsOk(S, h, ts[|ts| - 1].legs);
      SpendingFront(ts);
      BothOk(S, h, Flatten(Spending(ts[..|ts| - 1])), Inputs(ts[|ts| - 1].legs));
    }
  }

  lemma {:induction false} BothOk(S: State, h: nat, A: seq<Leg>, B: seq<Leg>)
    requires AllOk(S, h, A) && AllOk(S, h, B)
    ensures AllOk(S, h, A + B)
  {
  }

  lemma {:induction false} TallyConcat(S: State, A: seq<Leg>, B: seq<Leg>)
    ensures TallyOf(S, A + B) == Add(TallyOf(S, A), TallyOf(S, B))
  {
    if B == [] {
      assert A + B == A;
    } else {
      assert (A + B)[..|A + B| - 1] == A + B[..|B| - 1];
      TallyConcat(S, A, B[..|B| - 1]);
    }
  }

  lemma {:induction false} AmountsGrow(ts: seq<Tx>, small: Tx -> nat, large: Tx -> nat)
    requires forall i :: 0 <= i < |ts| ==> small(ts[i]) <= large(ts[i])
    ensures Amounts(ts, small) <= Amounts(ts, large)
  {
    if ts != [] { AmountsGrow(ts[..|ts| - 1], small, large); }
  }

  lemma {:induction false} SpendingYield(ts: seq<Tx>)
    ensures YieldSum(Flatten(Spending(ts))) == Amounts(ts, YieldOf)
  {
    if ts != [] {
      var F, t := ts[..|ts| - 1], ts[|ts| - 1];
      SpendingYield(F);
      SpendingFront(ts);
      YieldConcat(Flatten(Spending(F)), Inputs(t.legs));
      InputsYield(t.legs);
    }
  }

  /** A pure incoming side of a given size. */
  predicate Incoming(y: Tally, size: nat) {
    y.outs == 0 && y.publicOut == 0 && y.pseudo + y.publicIn == size
  }

  lemma {:induction false} AddIncoming(y: Tally, z: Tally, m: nat, n: nat)
    requires Incoming(y, m) && Incoming(z, n)
    ensures Incoming(Add(y, z), m + n)
  {
  }

  /** The inputs of all transactions together. */
  lemma {:induction false} SpendingTally(S: State, ts: seq<Tx>)
    ensures Incoming(TallyOf(S, Flatten(Spending(ts))), Amounts(ts, InsOf(S)))
  {
    if ts != [] {
      var F, t := ts[..|ts| - 1], ts[|ts| - 1];
      var A, B := Flatten(Spending(F)), Inputs(t.legs);
      SpendingTally(S, F);
      SpendingFront(ts);
      TallyConcat(S, A, B);
      InputsTally(S, t.legs);
      AddIncoming(TallyOf(S, A), TallyOf(S, B), Amounts(F, InsOf(S)), Ins(S, t.legs));
    }
  }

  /** The fees of valid transactions come out of their inputs. */
  lemma {:induction false} FeesFromInputs(S: State, h: nat, ts: seq<Tx>)
    requires CoinsOk(S.coins) && NoPqCoins(S) && AllTxsOk(S, h, ts)
    ensures Amounts(ts, FeeOf) <= Amounts(ts, InsOf(S))
  {
    forall i | 0 <= i < |ts| ensures FeeOf(ts[i]) <= InsOf(S)(ts[i]) {
      FeeFromInputs(S, h, ts[i]);
    }
    AmountsGrow(ts, FeeOf, InsOf(S));
  }

  /** Valid pending transactions that share no spend key pay, all together, at most what exists outside
      the incentive pool and the yields they claim from it. */
  lemma {:induction false} FeesBacked(S: State, H: History, h: nat, ts: seq<Tx>)
    requires Inv(S, H) && NoPqCoins(S) && AllTxsOk(S, h, ts) && AllFresh(ts) && KeysApart(ts)
    ensures Amounts(ts, FeeOf) <= Supply(S, H) - S.pool + Amounts(ts, YieldOf)
  {
    FeesFromInputs(S, h, ts);
    SpendingTally(S, ts);
    SpendingYield(ts);
    SpendingOk(S, h, ts);
    forall i | 0 <= i < |ts| ensures TagsProper(ts[i].legs) && Fresh(Spending(ts)[i].legs, {}) {
      OkTagsProper(S, h, ts[i].legs);
      InputsFresh(ts[i].legs);
    }
    TemplateInputsFresh(ts);
    InputsBacked(S, H, h, Flatten(Spending(ts)));
  }

  // --------------------------------------------------------------------------- replacement

  /** Every entry named is valid on the state, alone. */
  ghost predicate StillValid(txs: map<nat, Entry>, ids: set<nat>, S: State, h: nat) {
    (forall id :: id in ids ==> id in txs)
    && forall id {:trigger StandsAlone(S, h, txs[id].tx)} :: id in ids ==> StandsAlone(S, h, txs[id].tx)
  }

  /** A transaction passes validation on the state, apart from what others do. */
  ghost predicate StandsAlone(S: State, h: nat, t: Tx) {
    TxOk(S, h, t) && Fresh(t.legs, {})
  }

  ghost predicate Lists(txs: map<nat, Entry>, ids: set<nat>, order: seq<nat>) {
    && (forall i, j :: 0 <= i < j < |order| ==> order[i] != order[j])
    && (forall i :: 0 <= i < |order| ==> order[i] in ids && order[i] in txs)
  }

  function TxsAt(txs: map<nat, Entry>, order: seq<nat>): (ts: seq<Tx>)
    requires forall i :: 0 <= i < |order| ==> order[i] in txs
    ensures |ts| == |order| && forall i :: 0 <= i < |order| ==> ts[i] == txs[order[i]].tx
  {
    seq(|order|, i requires 0 <= i < |order| => txs[order[i]].tx)
  }

  lemma {:induction false} ListIds(txs: map<nat, Entry>, ids: set<nat>) returns (order: seq<nat>)
    requires forall id :: id in ids ==> id in txs
    ensures Lists(txs, ids, order)
    ensures Amounts(TxsAt(txs, order), FeeOf) == FeeSum(txs, ids)
    ensures Amounts(TxsAt(txs, order), YieldOf) == Over(txs, ids, YieldOf)
  {
    if ids == {} {
      order := [];
    } else {
      var id :| id in ids;
      var front := ListIds(txs, ids - {id});
      order := front + [id];
      OverPick(txs, ids, FeeOf, id);
      OverPick(txs, ids, YieldOf, id);
      assert TxsAt(txs, order)[..|front|] == TxsAt(txs, front);
    }
  }

  /** Pooled transactions that are still valid pay no more than exists, but for yields. */
  lemma {:induction false} PoolFeesBacked(txs: map<nat, Entry>, spentBy: map<PoolKey, nat>, ids: set<nat>, S: State,
          H: History, h: nat)
    requires IndexOk(txs, spentBy) && Inv(S, H) && NoPqCoins(S) && StillValid(txs, ids, S, h)
    ensures FeeSum(txs, ids) <= Supply(S, H) - S.pool + Over(txs, ids, YieldOf)
  {
    var order := ListIds(txs, ids);
    var ts := TxsAt(txs, order);
    forall i, j | 0 <= i < j < |ts| ensures SpendKeys(ts[i].legs) !! SpendKeys(ts[j].legs) {
      NoSharedKey(txs, spentBy, order[i], order[j]);
    }
    ListedValid(txs, ids, order, S, h);
    FeesBacked(S, H, h, ts);
  }

  lemma {:induction false} ListedValid(txs: map<nat, Entry>, ids: set<nat>, order: seq<nat>, S: State, h: nat)
    requires StillValid(txs, ids, S, h) && Lists(txs, ids, order)
    ensures AllTxsOk(S, h, TxsAt(txs, order)) && AllFresh(TxsAt(txs, order))
  {
    var ts := TxsAt(txs, order);
    forall i | 0 <= i < |ts| ensures TxOk(S, h, ts[i]) && Fresh(ts[i].legs, {}) {
      assert order[i] in ids && ts[i] == txs[order[i]].tx;
      assert StandsAlone(S, h, txs[order[i]].tx);
    }
  }

  lemma {:induction false} ReplacedFit(txs: map<nat, Entry>, spentBy: map<PoolKey, nat>, ids: set<nat>, S: State,
          H: History, h: nat)
    requires IndexOk(txs, spentBy) && Inv(S, H) && NoPqCoins(S) && S.emitted < MAX64
    requires StillValid(txs, ids, S, h) && Over(txs, ids, YieldOf) <= S.pool
    ensures FeeSum(txs, ids) <= S.emitted
  {
    PoolFeesBacked(txs, spentBy, ids, S, H, h);
    assert Supply(S, H) <= S.emitted;
  }

  /** On every chain whose emission counter has not saturated, the replaced fees fit 64 bits as long as
      the replaced are still valid and the yields they claim fit the incentive pool together: then a
      qualifying replacement pays for all of them and for its own bandwidth. */
  lemma {:induction false} ReplacementPaysOnChain(txs: map<nat, Entry>, spentBy: map<PoolKey, nat>, t: Tx, S: State,
          bs: seq<Block>, T: State)
    requires Leads(S, bs, T) && T.emitted < MAX64
    requires IndexOk(txs, spentBy) && Rivals(txs, t) != {} && Qualifies(txs, t) && t.fee <= MAX64
    requires StillValid(txs, Rivals(txs, t), T, T.height + 1) && Over(txs, Rivals(txs, t), YieldOf) <= T.pool
    ensures FeeSum(txs, Rivals(txs, t)) <= T.emitted
    ensures t.fee >= FeeSum(txs, Rivals(txs, t)) + t.size * FEE_PER_BYTE
  {
    var H := HistoryOf(S, bs, T);
    ReplacedFit(txs, spentBy, Rivals(txs, t), T, H, T.height + 1);
    ReplacementPays(txs, t);
  }
}
