/** The validation loops: each accepts exactly the transactions and blocks that the model admits. */
module LedgerChecks {
  import opened Params
  import opened LedgerModel

  // -------------------------------------------------------------------- prefixes of legs

  lemma {:induction false} Prefix<X>(s: seq<X>, i: nat)
    requires i < |s|
    ensures s[..i + 1][..i] == s[..i] && |s[..i + 1]| == i + 1 && s[..i + 1][i] == s[i]
    ensures s[..i + 1] == s[..i] + [s[i]]
  {
  }

  lemma {:induction false} AllMarksConcat(A: seq<Leg>, B: seq<Leg>)
    ensures AllMarks(A + B) == AllMarks(A) + AllMarks(B)
  {
    if B == [] {
      assert A + B == A;
    } else {
      assert (A + B)[..|A + B| - 1] == A + B[..|B| - 1];
      AllMarksConcat(A, B[..|B| - 1]);
    }
  }

  /** The duplicate check can be run piece by piece, carrying the marks along. */
  lemma {:induction false} FreshConcat(A: seq<Leg>, B: seq<Leg>, seen: set<Mark>)
    ensures Fresh(A + B, seen) <==> Fresh(A, seen) && Fresh(B, seen + AllMarks(A))
  {
    if B == [] {
      assert A + B == A;
    } else {
      var F := B[..|B| - 1];
      assert (A + B)[..|A + B| - 1] == A + F;
      FreshConcat(A, F, seen);
      AllMarksConcat(A, F);
      assert seen + AllMarks(A + F) == seen + AllMarks(A) + AllMarks(F);
    }
  }

  lemma {:induction false} FreshPrefix(L: seq<Leg>, i: nat, seen: set<Mark>)
    requires i <= |L| && Fresh(L, seen)
    ensures Fresh(L[..i], seen)
  {
    assert L == L[..i] + L[i..];
    FreshConcat(L[..i], L[i..], seen);
  }

  lemma {:induction false} TallyGrows(S: State, L: seq<Leg>, i: nat)
    requires i <= |L|
    ensures TallyOf(S, L[..i]).publicIn <= TallyOf(S, L).publicIn
    ensures TallyOf(S, L[..i]).publicOut <= TallyOf(S, L).publicOut
  {
    if i == |L| {
      assert L[..i] == L;
    } else {
      assert L[..|L| - 1][..i] == L[..i];
      TallyGrows(S, L[..|L| - 1], i);
    }
  }

  lemma {:induction false} PqNetGrows(S: State, L: seq<Leg>, i: nat)
    requires i <= |L|
    ensures PqNet(S, L[..i]).0 <= PqNet(S, L).0 && PqNet(S, L[..i]).1 <= PqNet(S, L).1
  {
    if i == |L| {
      assert L[..i] == L;
    } else {
      assert L[..|L| - 1][..i] == L[..i];
      PqNetGrows(S, L[..|L| - 1], i);
    }
  }

  lemma {:induction false} AllOkMore(S: State, h: nat, L: seq<Leg>, i: nat)
    requires i < |L| && AllOk(S, h, L[..i])
    ensures AllOk(S, h, L[..i + 1]) <==> LegOk(S, h, L[i])
    ensures AllOk(S, h, L) ==> LegOk(S, h, L[i])
  {
    Prefix(L, i);
    if LegOk(S, h, L[i]) {
      var P := L[..i + 1];
      forall j | 0 <= j < |P| ensures LegOk(S, h, P[j]) {
        assert j < i ==> P[j] == L[..i][j];
      }
    }
  }

  // ------------------------------------------------------------------------ transactions

  /** The leg loops shared by both kinds of transaction: state checks and duplicates. */
  method CheckLegs(S: State, h: nat, L: seq<Leg>, seen: set<Mark>) returns (ok: bool, now: set<Mark>)
    ensures ok <==> AllOk(S, h, L) && Fresh(L, seen)
    ensures ok ==> now == seen + AllMarks(L)
  {
    now := seen;
    for i := 0 to |L|
      invariant AllOk(S, h, L[..i]) && Fresh(L[..i], seen) && now == seen + AllMarks(L[..i])
    {
      Prefix(L, i);
      AllOkMore(S, h, L, i);
      if !LegOk(S, h, L[i]) {
        return false, now;
      }
      if !(Marks(L[i]) !! now) {
        if Fresh(L, seen) { FreshPrefix(L, i + 1, seen); }
        return false, now;
      }
      now := now + Marks(L[i]);
    }
    assert L[..|L|] == L;
    ok := true;
  }

  /** Public value in and out with overflow checks, then the conservation proof. */
  method CheckBalance(S: State, t: Tx) returns (ok: bool)
    ensures ok <==> ClassicOk(S, t)
  {
    var L := t.legs;
    if t.fee > MAX64 {
      return false;
    }
    var publicIn, publicOut := 0, t.fee;
    for i := 0 to |L|
      invariant publicIn == TallyOf(S, L[..i]).publicIn <= MAX64
      invariant publicOut == t.fee + TallyOf(S, L[..i]).publicOut <= MAX64
    {
      Prefix(L, i);
      TallyGrows(S, L, i + 1);
      var e := Entry(S, L[i]);
      if publicIn + e.publicIn > MAX64 || publicOut + e.publicOut > MAX64 {
        return false;
      }
      publicIn, publicOut := publicIn + e.publicIn, publicOut + e.publicOut;
    }
    assert L[..|L|] == L;
    ok := Conserves(TallyOf(S, L), publicOut);
  }

  /** Post-quantum transactions: only their own legs, public sums with overflow checks. */
  method CheckPq(S: State, t: Tx) returns (ok: bool)
    ensures ok <==> PqTxOk(S, t)
  {
    var L := t.legs;
    if exists i :: 0 <= i < |L| && !IsPq(L[i]) {
      return false;
    }
    var inSum, outSum := 0, 0;
    for i := 0 to |L|
      invariant PqNet(S, L[..i]) == (inSum, outSum) && 0 <= inSum <= MAX64 && 0 <= outSum <= MAX64
    {
      Prefix(L, i);
      PqNetGrows(S, L, i + 1);
      var a := inSum + if L[i].PqIn? && L[i].pq in S.pqUtxo then S.pqUtxo[L[i].pq].amount else 0;
      var b := outSum + if L[i].PqOut? then L[i].amount else 0;
      if a > MAX64 || b > MAX64 {
        return false;
      }
      inSum, outSum := a, b;
    }
    assert L[..|L|] == L;
    ok := outSum + t.fee <= MAX64 && inSum == outSum + t.fee;
  }

  /** validateTxLocked. */
  method CheckTx(S: State, h: nat, t: Tx, seen: set<Mark>) returns (ok: bool, now: set<Mark>)
    ensures ok <==> TxOk(S, h, t) && Fresh(t.legs, seen)
    ensures ok ==> now == seen + AllMarks(t.legs)
  {
    now := seen;
    if !ShapeOk(t) {
      return false, now;
    }
    ok, now := CheckLegs(S, h, t.legs, seen);
    if ok {
      if HasPq(t) {
        ok := CheckPq(S, t);
      } else {
        ok := CheckBalance(S, t);
      }
    }
  }

  // ------------------------------------------------------------------------------ blocks

  lemma {:induction false} FlattenMore(txs: seq<Tx>, i: nat)
    requires i < |txs|
    ensures Flatten(txs[..i + 1]) == Flatten(txs[..i]) + txs[i].legs
  {
    Prefix(txs, i);
  }

  lemma {:induction false} FlattenPrefix(txs: seq<Tx>, i: nat)
    requires i <= |txs|
    ensures |Flatten(txs[..i])| <= |Flatten(txs)| && Flatten(txs)[..|Flatten(txs[..i])|] == Flatten(txs[..i])
  {
    if i == |txs| {
      assert txs[..i] == txs;
    } else {
      var F := txs[..|txs| - 1];
      assert F[..i] == txs[..i];
      FlattenPrefix(F, i);
    }
  }

  lemma {:induction false} FeesGrow(txs: seq<Tx>, i: nat)
    requires i <= |txs|
    ensures Fees(txs[..i]) <= Fees(txs)
  {
    if i == |txs| {
      assert txs[..i] == txs;
    } else {
      assert txs[..|txs| - 1][..i] == txs[..i];
      FeesGrow(txs[..|txs| - 1], i);
    }
  }

  lemma {:induction false} FeesMore(txs: seq<Tx>, i: nat)
    requires i < |txs|
    ensures Fees(txs[..i + 1]) == Fees(txs[..i]) + if HasPq(txs[i]) then 0 else txs[i].fee
    ensures Fees(txs[..i + 1]) <= Fees(txs)
  {
    Prefix(txs, i);
    FeesGrow(txs, i + 1);
  }

  lemma {:induction false} FreshBlockPrefix(A: seq<Leg>, txs: seq<Tx>, i: nat)
    requires i <= |txs| && Fresh(A + Flatten(txs), {})
    ensures Fresh(A + Flatten(txs[..i]), {})
  {
    FlattenPrefix(txs, i);
    var n := |A| + |Flatten(txs[..i])|;
    assert (A + Flatten(txs))[..n] == A + Flatten(txs[..i]);
    FreshPrefix(A + Flatten(txs), n, {});
  }

  lemma {:induction false} FreshBlockMore(A: seq<Leg>, txs: seq<Tx>, i: nat)
    requires i < |txs| && Fresh(A + Flatten(txs[..i]), {})
    ensures Fresh(A + Flatten(txs[..i + 1]), {}) <==> Fresh(txs[i].legs, AllMarks(A + Flatten(txs[..i])))
    ensures AllMarks(A + Flatten(txs[..i + 1])) == AllMarks(A + Flatten(txs[..i])) + AllMarks(txs[i].legs)
  {
    FlattenMore(txs, i);
    var B := A + Flatten(txs[..i]);
    assert A + Flatten(txs[..i + 1]) == B + txs[i].legs;
    FreshConcat(B, txs[i].legs, {});
    assert {} + AllMarks(B) == AllMarks(B);
    AllMarksConcat(B, txs[i].legs);
  }

  /** The transaction loop of validateBlockLocked: every transaction, its duplicates and the fees. */
  method CheckTxs(S: State, h: nat, A: seq<Leg>, txs: seq<Tx>, seen: set<Mark>) returns (ok: bool, fees: nat)
    requires Fresh(A, {}) && seen == AllMarks(A)
    ensures ok <==> AllTxsOk(S, h, txs) && Fresh(A + Flatten(txs), {}) && Fees(txs) <= MAX64
    ensures ok ==> fees == Fees(txs)
  {
    fees := 0;
    var now := seen;
    assert A + Flatten(txs[..0]) == A;
    for i := 0 to |txs|
      invariant AllTxsOk(S, h, txs[..i]) && Fresh(A + Flatten(txs[..i]), {}) && fees == Fees(txs[..i]) <= MAX64
      invariant now == AllMarks(A + Flatten(txs[..i]))
    {
      FreshBlockMore(A, txs, i);
      FeesMore(txs, i);
      ok, now := CheckTx(S, h, txs[i], now);
      if !ok {
        TxRefused(S, h, A, txs, i);
        return false, fees;
      }
      TxsOkMore(S, h, txs, i);
      if !HasPq(txs[i]) {
        if fees + txs[i].fee > MAX64 {
          return false, fees;
        }
        fees := fees + txs[i].fee;
      }
    }
    assert txs[..|txs|] == txs;
    ok := true;
  }

  lemma {:induction false} TxRefused(S: State, h: nat, A: seq<Leg>, txs: seq<Tx>, i: nat)
    requires i < |txs| && Fresh(A + Flatten(txs[..i]), {})
    requires !(TxOk(S, h, txs[i]) && Fresh(txs[i].legs, AllMarks(A + Flatten(txs[..i]))))
    ensures !(AllTxsOk(S, h, txs) && Fresh(A + Flatten(txs), {}))
  {
    FreshBlockMore(A, txs, i);
    if Fresh(A + Flatten(txs), {}) { FreshBlockPrefix(A, txs, i + 1); }
  }

  lemma {:induction false} TxsOkMore(S: State, h: nat, txs: seq<Tx>, i: nat)
    requires i < |txs| && AllTxsOk(S, h, txs[..i]) && TxOk(S, h, txs[i])
    ensures AllTxsOk(S, h, txs[..i + 1])
  {
    var P := txs[..i + 1];
    forall j | 0 <= j < |P| ensures TxOk(S, h, P[j]) {
      assert j < i ==> P[j] == txs[..i][j];
    }
  }

  lemma {:induction false} YieldGrows(L: seq<Leg>, i: nat)
    requires i <= |L|
    ensures YieldSum(L[..i]) <= YieldSum(L)
  {
    if i == |L| {
      assert L[..i] == L;
    } else {
      assert L[..|L| - 1][..i] == L[..i];
      YieldGrows(L[..|L| - 1], i);
    }
  }

  /** Vault affordability: the yields stated in the block fit in the pool. */
  method Affordable(S: State, L: seq<Leg>) returns (ok: bool)
    requires S.pool <= MAX64
    ensures ok <==> YieldSum(L) <= S.pool
  {
    var total := 0;
    for i := 0 to |L|
      invariant total == YieldSum(L[..i]) <= MAX64
    {
      Prefix(L, i);
      YieldGrows(L, i + 1);
      if L[i].VaultIn? {
        if total + L[i].interest > MAX64 {
          return false;
        }
        total := total + L[i].interest;
      }
    }
    assert L[..|L|] == L;
    ok := total <= S.pool;
  }

  /** validateBlockLocked accepts exactly the blocks of the model. */
  method CheckBlock(S: State, b: Block) returns (ok: bool)
    requires S.pool <= MAX64
    ensures ok <==> BlockOk(S, b)
  {
    if b.height != S.height + 1 || exists i :: 0 <= i < |b.coinbase.outs| && !b.coinbase.outs[i].Out? {
      return false;
    }
    var seen: set<Mark>;
    ok, seen := CheckLegs(S, b.height, b.coinbase.outs, {});
    if !ok {
      if Fresh(AllLegs(b), {}) { FreshConcat(b.coinbase.outs, Flatten(b.txs), {}); }
      return;
    }
    var fees: nat;
    ok, fees := CheckTxs(S, b.height, b.coinbase.outs, b.txs, seen);
    if !ok {
      return;
    }
    ok := Affordable(S, AllLegs(b));
    if !ok {
      return;
    }
    ok := CheckCoinbase(S, b, fees);
  }

  /** Coinbase economics and its conservation proof. */
  method CheckCoinbase(S: State, b: Block, fees: nat) returns (ok: bool)
    requires fees == Fees(b.txs) <= MAX64 && OnlyOuts(b.coinbase.outs)
    ensures ok <==> CoinbaseOk(S, b)
  {
    var base, share := BlockReward(S.emitted), PoolShare(S.emitted);
    if share > base || base - share + fees > MAX64 {
      return false;
    }
    var expected := base - share + fees;
    ok := b.coinbase.minted == expected && b.coinbase.minted <= SUPPLY_CAP && b.coinbase.height == b.height
          && |b.coinbase.outs| <= MAX_BLOCK_BYTES
          && (b.coinbase.minted - TallyOf(S, b.coinbase.outs).outs) % ORDER == 0;
  }
}
