/** The rules of time on every run from genesis, with the heights written out: when an output, a swap or a
    vault that some block created can be consumed by a later one, and for how much. Block n of a run has
    height n + 1. */
module LedgerRules {
  import opened Params
  import opened Contracts
  import opened LedgerModel
  import opened LedgerEffects
  import opened LedgerSteps
  import opened LedgerBalance
  import opened LedgerChecks
  import opened LedgerRuns

  /** Leg j of block n. */
  predicate Has(bs: seq<Block>, n: nat, j: nat) {
    n < |bs| && j < |AllLegs(bs[n])|
  }

  function LegAt(bs: seq<Block>, n: nat, j: nat): Leg
    requires Has(bs, n, j)
  {
    AllLegs(bs[n])[j]
  }

  /** It is an output of the block's coinbase. */
  predicate IsMinted(bs: seq<Block>, n: nat, j: nat)
    requires Has(bs, n, j)
  {
    j < |bs[n].coinbase.outs|
  }

  // --------------------------------------------------------------------------- runs, block by block

  lemma {:induction false} RunAt(S: State, bs: seq<Block>, n: nat) returns (T: State, b: Block)
    requires RunOk(S, bs) && n < |bs|
    ensures T == StateAfter(S, bs[..n]) && b == bs[n] && RunOk(S, bs[..n]) && BlockFits(T, b)
  {
    RunPrefix(S, bs, n + 1);
    RunPrefix(S, bs, n);
    Prefix(bs, n);
    T, b := StateAfter(S, bs[..n]), bs[n];
    RunSnoc(S, bs[..n], b);
    Fits(T, b);
  }

  /** What the rules use of a valid block. */
  ghost predicate BlockFits(T: State, b: Block) {
    b.height == T.height + 1 && AllOk(T, b.height, AllLegs(b)) && Fresh(AllLegs(b), {})
  }

  lemma {:induction false} Fits(T: State, b: Block)
    ensures BlockOk(T, b) ==> BlockFits(T, b)
  {
    if BlockOk(T, b) { LegsOk(T, b); }
  }

  lemma {:induction false} RunPrefix(S: State, bs: seq<Block>, n: nat)
    requires n <= |bs|
    ensures RunOk(S, bs) ==> RunOk(S, bs[..n])
  {
    if n == |bs| {
      assert bs[..n] == bs;
    } else {
      RunPrefix(S, bs[..|bs| - 1], n);
      assert bs[..|bs| - 1][..n] == bs[..n];
    }
  }

  lemma {:induction false} HeightOf(S: State, bs: seq<Block>)
    requires IsGenesis(S) && RunOk(S, bs)
    ensures StateAfter(S, bs).height == |bs|
  {
    if bs != [] { HeightOf(S, bs[..|bs| - 1]); }
  }

  /** A leg of a block is valid on the state before it, at the block's height. */
  lemma {:induction false} LegValid(S: State, bs: seq<Block>, n: nat, j: nat)
    requires IsGenesis(S) && RunOk(S, bs) && Has(bs, n, j)
    ensures LegOk(StateAfter(S, bs[..n]), n + 1, LegAt(bs, n, j)) && bs[n].height == n + 1
  {
    var T, b := RunAt(S, bs, n);
    HeightOf(S, bs[..n]);
  }

  // ------------------------------------------------------------------------------------- coins

  lemma {:induction false} NewCoinAt(L: seq<Leg>, h: nat, n: nat, i: nat) returns (j: nat)
    requires i < |NewCoins(L, h, n)|
    ensures j < |L| && L[j].Out? && NewCoins(L, h, n)[i] == Coin(L[j].key, L[j].value, h, j < n, L[j].lock)
  {
    var F := L[..|L| - 1];
    if i < |NewCoins(F, h, n)| {
      j := NewCoinAt(F, h, n, i);
    } else {
      j := |L| - 1;
    }
  }

  /** What the last block of a run adds to and changes. */
  lemma {:induction false} LastBlock(S: State, bs: seq<Block>) returns (T: State, b: Block, n: nat)
    requires IsGenesis(S) && RunOk(S, bs) && bs != []
    ensures n == |bs| - 1 && b == bs[n] && T == StateAfter(S, bs[..n]) && RunOk(S, bs[..n]) && b.height == n + 1
    ensures var U := StateAfter(S, bs);
      && U.coins == T.coins + NewCoins(AllLegs(b), n + 1, |b.coinbase.outs|)
      && U.swaps == Run(T.swaps, SwapDels(AllLegs(b)) + SwapPuts(AllLegs(b)))
      && U.vaults == Run(T.vaults, VaultOps(AllLegs(b), n + 1))
  {
    T, b, n := LastState(S, bs);
    AfterParts(T, b);
  }

  lemma {:induction false} LastState(S: State, bs: seq<Block>) returns (T: State, b: Block, n: nat)
    requires IsGenesis(S) && RunOk(S, bs) && bs != []
    ensures n == |bs| - 1 && b == bs[n] && T == StateAfter(S, bs[..n]) && RunOk(S, bs[..n]) && b.height == n + 1
    ensures StateAfter(S, bs) == After(T, b)
  {
    n := |bs| - 1;
    b, T := bs[n], StateAfter(S, bs[..n]);
    HeightOf(S, bs[..n]);
  }

  lemma {:induction false} AfterParts(T: State, b: Block)
    ensures var U := After(T, b);
      && U.coins == T.coins + NewCoins(AllLegs(b), b.height, |b.coinbase.outs|)
      && U.swaps == Run(T.swaps, SwapDels(AllLegs(b)) + SwapPuts(AllLegs(b)))
      && U.vaults == Run(T.vaults, VaultOps(AllLegs(b), b.height))
  {
  }

  /** Every coin is an output of some block. */
  lemma {:induction false} CoinOrigin(S: State, bs: seq<Block>, i: nat) returns (k: nat, j: nat)
    requires IsGenesis(S) && RunOk(S, bs) && i < |StateAfter(S, bs).coins|
    ensures Has(bs, k, j) && IsOutputOf(StateAfter(S, bs).coins[i], bs, k, j)
  {
    assert bs != [];
    var T, b, n := LastBlock(S, bs);
    if i < |T.coins| {
      k, j := CoinOrigin(S, bs[..n], i);
      SameLeg(bs, n, k, j);
    } else {
      k := n;
      j := NewOutput(T.coins, StateAfter(S, bs).coins, bs, n, i);
    }
  }

  lemma {:induction false} NewOutput(before: seq<Coin>, after: seq<Coin>, bs: seq<Block>, n: nat, i: nat)
        returns (j: nat)
    requires n < |bs| && after == before + NewCoins(AllLegs(bs[n]), n + 1, |bs[n].coinbase.outs|)
    requires |before| <= i < |after|
    ensures Has(bs, n, j) && IsOutputOf(after[i], bs, n, j)
  {
    j := NewCoinAt(AllLegs(bs[n]), n + 1, |bs[n].coinbase.outs|, i - |before|);
  }

  lemma {:induction false} SameLeg(bs: seq<Block>, n: nat, k: nat, j: nat)
    requires n <= |bs| && Has(bs[..n], k, j)
    ensures k < n && Has(bs, k, j) && LegAt(bs[..n], k, j) == LegAt(bs, k, j)
    ensures IsMinted(bs[..n], k, j) == IsMinted(bs, k, j)
    ensures forall c :: IsOutputOf(c, bs[..n], k, j) ==> IsOutputOf(c, bs, k, j)
  {
  }

  predicate IsOutputOf(c: Coin, bs: seq<Block>, k: nat, j: nat)
    requires Has(bs, k, j)
  {
    var x := LegAt(bs, k, j);
    x.Out? && c == Coin(x.key, x.value, k + 1, IsMinted(bs, k, j), x.lock)
  }

  /** What stands behind a valid input is a coin. */
  lemma {:induction false} UsedCoin(S: State, h: nat, x: Leg, i: nat)
    requires LegOk(S, h, x) && UsesOf(S, x) == [i]
    ensures i < |S.coins| && (S.coins[i].coinbase ==> h >= S.coins[i].height + 60)
    ensures x.Spend? ==> h >= S.coins[i].lock && x.ref == S.coins[i].key && x.ref !in S.spent
  {
  }

  /** The coin behind an input of block n is an output of an earlier block k: a coinbase output at least
      sixty blocks earlier, however it is spent, and an output spent openly no sooner than its lock. */
  lemma {:induction false} SpentWhenRipe(S: State, bs: seq<Block>, n: nat, at: nat, i: nat) returns (k: nat, j: nat)
    requires IsGenesis(S) && RunOk(S, bs) && Has(bs, n, at)
    requires UsesOf(StateAfter(S, bs[..n]), LegAt(bs, n, at)) == [i]
    ensures k < n && Has(bs, k, j) && LegAt(bs, k, j).Out?
    ensures i < |StateAfter(S, bs[..n]).coins| && IsOutputOf(StateAfter(S, bs[..n]).coins[i], bs, k, j)
    ensures IsMinted(bs, k, j) ==> n >= k + 60
    ensures LegAt(bs, n, at).Spend? ==> n + 1 >= LegAt(bs, k, j).lock && LegAt(bs, n, at).ref == LegAt(bs, k, j).key
  {
    LegValid(S, bs, n, at);
    var T, b := RunAt(S, bs, n);
    UsedCoin(T, n + 1, LegAt(bs, n, at), i);
    k, j := CoinOrigin(S, bs[..n], i);
    assert bs[..n][k] == bs[k];
  }

  // ----------------------------------------------------------------------------------- contracts

  /** What a map holds after operations was there before, or one of them put it there. */
  lemma {:induction false} RunOrigin(m: map<Id, Contract>, ops: seq<Op>, k: Id) returns (i: nat)
    requires k in Run(m, ops)
    ensures (k in m && Run(m, ops)[k] == m[k]) || (i < |ops| && ops[i] == Put(k, Run(m, ops)[k]))
  {
    i := 0;
    if ops != [] {
      var F, op := ops[..|ops| - 1], ops[|ops| - 1];
      if op.Put? && op.key == k {
        i := |ops| - 1;
      } else {
        i := RunOrigin(m, F, k);
      }
    }
  }

  lemma {:induction false} SwapPutAt(L: seq<Leg>, i: nat) returns (j: nat)
    requires i < |SwapPuts(L)|
    ensures j < |L| && L[j].SwapOut? && SwapPuts(L)[i] == Put(L[j].swap, Swap(L[j].amount, L[j].unlock, L[j].nonce))
  {
    var F := L[..|L| - 1];
    if i < |SwapPuts(F)| {
      j := SwapPutAt(F, i);
    } else {
      j := |L| - 1;
    }
  }

  lemma {:induction false} VaultPutAt(L: seq<Leg>, h: nat, i: nat) returns (j: nat)
    requires i < |VaultOps(L, h)| && VaultOps(L, h)[i].Put?
    ensures j < |L| && L[j].VaultOut? && VaultOps(L, h)[i] == VaultOpsOf(L[j], h)[0]
  {
    var F := L[..|L| - 1];
    if i < |VaultOps(F, h)| {
      j := VaultPutAt(F, h, i);
    } else {
      j := |L| - 1;
    }
  }

  /** Every live swap was opened by some block, with these terms. */
  lemma {:induction false} SwapOrigin(S: State, bs: seq<Block>, id: Id) returns (k: nat, j: nat)
    requires IsGenesis(S) && RunOk(S, bs) && id in StateAfter(S, bs).swaps
    ensures Has(bs, k, j) && Opens(StateAfter(S, bs).swaps[id], LegAt(bs, k, j), id)
  {
    assert bs != [];
    var T, b, n := LastBlock(S, bs);
    var U := StateAfter(S, bs);
    if id in T.swaps && U.swaps[id] == T.swaps[id] {
      k, j := SwapOrigin(S, bs[..n], id);
      SameLeg(bs, n, k, j);
    } else {
      k := n;
      j := SwapPutBy(T.swaps, AllLegs(b), U.swaps, id);
    }
  }

  lemma {:induction false} SwapPutBy(m: map<Id, Contract>, L: seq<Leg>, after: map<Id, Contract>, id: Id)
        returns (j: nat)
    requires after == Run(m, SwapDels(L) + SwapPuts(L)) && id in after && !(id in m && after[id] == m[id])
    ensures j < |L| && Opens(after[id], L[j], id)
  {
    var dels, puts := SwapDels(L), SwapPuts(L);
    var i := RunOrigin(m, dels + puts, id);
    if i < |dels| { SwapDelMarked(L, i); }
    assert (dels + puts)[i] == puts[i - |dels|];
    j := SwapPutAt(L, i - |dels|);
  }

  predicate Opens(c: Contract, x: Leg, id: Id) {
    x.SwapOut? && x.swap == id && c == Swap(x.amount, x.unlock, x.nonce)
  }

  /** A live swap can be claimed exactly until 512 blocks before its unlock height and refunded exactly from
      that height on; it was opened at least 512 blocks before. */
  lemma {:induction false} SwapWindow(S: State, bs: seq<Block>, id: Id, h: nat) returns (k: nat, j: nat)
    requires IsGenesis(S) && RunOk(S, bs) && id in StateAfter(S, bs).swaps
    ensures Has(bs, k, j) && LegAt(bs, k, j).SwapOut? && LegAt(bs, k, j).swap == id
    ensures var (unlock, amount) := (LegAt(bs, k, j).unlock, LegAt(bs, k, j).amount);
      && k + 1 + 512 <= unlock && 0 < amount <= SUPPLY_CAP && StateAfter(S, bs).swaps[id].amount == amount
      && (LegOk(StateAfter(S, bs), h, SwapIn(id, true)) <==> h >= unlock)
      && (LegOk(StateAfter(S, bs), h, SwapIn(id, false)) <==> h + 512 <= unlock)
  {
    k, j := SwapOrigin(S, bs, id);
    LegValid(S, bs, k, j);
  }

  // -------------------------------------------------------------------------------------- vaults

  /** Yearly rates in hundredths of a percent: of the flexible term by time, of the fixed ones in full. */
  predicate Rates(term: nat, rate: nat) {
    (term == 0 && rate == 500) || (term == 21_600 && rate == 100) || (term == 64_800 && rate == 400)
    || (term == 262_800 && rate == 2000)
  }

  predicate Deposits(c: Contract, x: Leg, id: Id, k: nat) {
    && x.VaultOut? && x.vault == id && 0 < x.amount <= SUPPLY_CAP
    && c.Vault? && c.amount == x.amount && c.term == x.term && c.deposit == k + 1 && Rates(c.term, c.rate)
  }

  lemma {:induction false} DepositTerms(S: State, h: nat, x: Leg)
    requires LegOk(S, h, x) && x.VaultOut? && h > 0
    ensures var op := VaultOpsOf(x, h)[0]; op.Put? && op.key == x.vault && Deposits(op.contract, x, x.vault, h - 1)
  {
  }

  /** Every live vault was opened by some block, with these terms. */
  lemma {:induction false} VaultOrigin(S: State, bs: seq<Block>, id: Id) returns (k: nat, j: nat)
    requires IsGenesis(S) && RunOk(S, bs) && id in StateAfter(S, bs).vaults
    ensures Has(bs, k, j) && Deposits(StateAfter(S, bs).vaults[id], LegAt(bs, k, j), id, k)
  {
    assert bs != [];
    var T, b, n := LastBlock(S, bs);
    var U := StateAfter(S, bs);
    if id in T.vaults && U.vaults[id] == T.vaults[id] {
      k, j := VaultOrigin(S, bs[..n], id);
      SameLeg(bs, n, k, j);
    } else {
      k := n;
      j := NewVault(S, bs, n, T, U.vaults, id);
    }
  }

  lemma {:induction false} NewVault(S: State, bs: seq<Block>, n: nat, T: State, after: map<Id, Contract>, id: Id)
    returns (j: nat)
    requires IsGenesis(S) && RunOk(S, bs) && n < |bs| && T == StateAfter(S, bs[..n])
    requires after == Run(T.vaults, VaultOps(AllLegs(bs[n]), n + 1)) && id in after
    requires !(id in T.vaults && after[id] == T.vaults[id])
    ensures Has(bs, n, j) && Deposits(after[id], LegAt(bs, n, j), id, n)
  {
    var L := AllLegs(bs[n]);
    var i := RunOrigin(T.vaults, VaultOps(L, n + 1), id);
    j := VaultPutAt(L, n + 1, i);
    LegValid(S, bs, n, j);
    DepositTerms(T, n + 1, L[j]);
  }

  /** What a vault of these terms earns by a height, times ten thousand years' blocks where it is flexible:
      the fixed terms their rate, the flexible one five percent a year for the blocks since the deposit. */
  predicate Entitled(amount: nat, term: nat, since: nat, h: nat, y: nat) {
    match term
    case 21_600 => 10_000 * y <= amount * 100
    case 64_800 => 10_000 * y <= amount * 400
    case 262_800 => 10_000 * y <= amount * 2000
    case _ =>
      var earned := amount * 500 * (if h > since then h - since else 0);
      y == 0 || (2_628_000_000 * y <= earned < 2_628_000_000 * (MAX64 + 1))
  }

  lemma {:induction false} AtMost(y: nat, n: nat, d: nat)
    requires d > 0
    ensures y <= n / d <==> d * y <= n
  {
    var q := n / d;
    assert d * q <= n < d * (q + 1);
    if y <= q { Scaled(d, y, q); } else { Scaled(d, q + 1, y); }
  }

  lemma {:induction false} Scaled(d: nat, x: nat, y: nat)
    requires x <= y
    ensures d * x <= d * y
  {
    assert d * (y - x) >= 0;
  }

  lemma {:induction false} CapIs(v: Contract, x: Leg, id: Id, k: nat, h: nat, y: nat)
    requires Deposits(v, x, id, k)
    ensures y <= YieldCap(v, h) <==> Entitled(x.amount, x.term, k + 1, h, y)
  {
    if v.term != 0 {
      AtMost(y, v.amount * v.rate, 10_000);
    } else {
      var earned := v.amount * 500 * (if h > v.deposit then h - v.deposit else 0);
      AtMost(y, earned, 2_628_000_000);
      AtMost(MAX64 + 1, earned, 2_628_000_000);
    }
  }

  /** A live vault can be claimed exactly from the end of its term on, with any yield it is entitled to. */
  lemma {:induction false} VaultWindow(S: State, bs: seq<Block>, id: Id, h: nat, y: nat) returns (k: nat, j: nat)
    requires IsGenesis(S) && RunOk(S, bs) && id in StateAfter(S, bs).vaults
    ensures Has(bs, k, j) && LegAt(bs, k, j).VaultOut? && LegAt(bs, k, j).vault == id
    ensures var x := LegAt(bs, k, j);
      && x.term in {0, 21_600, 64_800, 262_800} && StateAfter(S, bs).vaults[id].amount == x.amount
      && (LegOk(StateAfter(S, bs), h, VaultIn(id, y)) <==>
            h >= k + 1 + x.term && Entitled(x.amount, x.term, k + 1, h, y))
  {
    k, j := VaultOrigin(S, bs, id);
    VaultClaim(StateAfter(S, bs), id, h, y, LegAt(bs, k, j), k);
  }

  lemma {:induction false} VaultClaim(T: State, id: Id, h: nat, y: nat, x: Leg, k: nat)
    requires id in T.vaults && Deposits(T.vaults[id], x, id, k)
    ensures x.term in {0, 21_600, 64_800, 262_800} && T.vaults[id].amount == x.amount
    ensures LegOk(T, h, VaultIn(id, y)) <==> h >= k + 1 + x.term && Entitled(x.amount, x.term, k + 1, h, y)
  {
    CapIs(T.vaults[id], x, id, k, h, y);
  }

  lemma {:induction false} VaultPutHere(L: seq<Leg>, h: nat, j: nat) returns (i: nat)
    requires j < |L| && L[j].VaultOut?
    ensures i < |VaultOps(L, h)| && VaultOps(L, h)[i] == VaultOpsOf(L[j], h)[0]
  {
    var F := L[..|L| - 1];
    if j < |F| {
      i := VaultPutHere(F, h, j);
    } else {
      i := |VaultOps(F, h)|;
    }
  }

  /** A vault stays until the end of its term, whatever blocks come. */
  lemma {:induction false} VaultStays(S: State, bs: seq<Block>, k: nat, j: nat)
    requires IsGenesis(S) && RunOk(S, bs) && Has(bs, k, j) && LegAt(bs, k, j).VaultOut?
    requires |bs| <= k + 1 || |bs| < k + 1 + LegAt(bs, k, j).term
    ensures var x := LegAt(bs, k, j);
      x.vault in StateAfter(S, bs).vaults && Deposits(StateAfter(S, bs).vaults[x.vault], x, x.vault, k)
  {
    var x := LegAt(bs, k, j);
    var T, b, n := LastBlock(S, bs);
    T, b := RunAt(S, bs, n);
    if k == n {
      LegValid(S, bs, n, j);
      VaultsClean(T, b);
      PutByBlock(T, AllLegs(b), n, j);
    } else {
      assert Has(bs[..n], k, j);
      SameLeg(bs, n, k, j);
      VaultStays(S, bs[..n], k, j);
      NotTouched(T, b, x, k);
      Untouched(T.vaults, VaultOps(AllLegs(b), n + 1), x.vault);
    }
  }

  lemma {:induction false} VaultsClean(T: State, b: Block)
    requires BlockFits(T, b)
    ensures Clean(T.vaults, VaultOps(AllLegs(b), b.height))
  {
    VaultOpsClean(T, b.height, AllLegs(b), {});
  }

  /** What a block deposits is there after it. */
  lemma {:induction false} PutByBlock(T: State, L: seq<Leg>, n: nat, j: nat)
    requires Clean(T.vaults, VaultOps(L, n + 1)) && j < |L| && L[j].VaultOut? && LegOk(T, n + 1, L[j])
    ensures var (x, after) := (L[j], Run(T.vaults, VaultOps(L, n + 1)));
      x.vault in after && Deposits(after[x.vault], x, x.vault, n)
  {
    DepositTerms(T, n + 1, L[j]);
    var i := VaultPutHere(L, n + 1, j);
    PutHolds(T.vaults, VaultOps(L, n + 1), i);
  }

  /** No block touches a vault before the end of its term. */
  lemma {:induction false} NotTouched(T: State, b: Block, x: Leg, k: nat)
    requires BlockFits(T, b) && x.VaultOut? && b.height < k + 1 + x.term
    requires x.vault in T.vaults && Deposits(T.vaults[x.vault], x, x.vault, k)
    ensures var ops := VaultOps(AllLegs(b), b.height); forall i :: 0 <= i < |ops| ==> ops[i].key != x.vault
  {
    var L := AllLegs(b);
    var ops := VaultOps(L, b.height);
    forall i | 0 <= i < |ops| ensures ops[i].key != x.vault {
      var j := VaultOpAt(L, b.height, i);
      assert LegOk(T, b.height, L[j]);
    }
  }

  lemma {:induction false} VaultOpAt(L: seq<Leg>, h: nat, i: nat) returns (j: nat)
    requires i < |VaultOps(L, h)|
    ensures j < |L| && (L[j].VaultIn? || L[j].VaultOut?) && L[j].vault == VaultOps(L, h)[i].key
  {
    var F := L[..|L| - 1];
    if i < |VaultOps(F, h)| {
      j := VaultOpAt(F, h, i);
    } else {
      j := |L| - 1;
    }
  }

  lemma {:induction false} PutHolds(m: map<Id, Contract>, ops: seq<Op>, i: nat)
    requires Clean(m, ops) && i < |ops| && ops[i].Put?
    ensures ops[i].key in Run(m, ops) && Run(m, ops)[ops[i].key] == ops[i].contract
  {
    var F := ops[..|ops| - 1];
    if i < |F| {
      PutHolds(m, F, i);
      assert F[i] == ops[i];
      assert ops[i].key != ops[|ops| - 1].key;
    }
  }

  // -------------------------------------------------------------------------------------- leaves

  lemma {:induction false} NewNoteAt(L: seq<Leg>, i: nat) returns (j: nat)
    requires i < |NewNotes(L)|
    ensures j < |L| && (L[j].ZkOut? || L[j].Czk?) && NewNotes(L)[i] == L[j].leaf
  {
    var F := L[..|L| - 1];
    if i < |NewNotes(F)| {
      j := NewNoteAt(F, i);
    } else {
      j := |L| - 1;
    }
  }

  lemma {:induction false} LastNotes(S: State, bs: seq<Block>) returns (T: State, b: Block, n: nat)
    requires IsGenesis(S) && RunOk(S, bs) && bs != []
    ensures n == |bs| - 1 && b == bs[n] && T == StateAfter(S, bs[..n]) && RunOk(S, bs[..n])
    ensures var U := StateAfter(S, bs);
      U.notes == T.notes + NewNotes(AllLegs(b)) && U.anchors == Anchored(T.anchors, |U.notes|)
  {
    T, b, n := LastState(S, bs);
    NotesParts(T, b);
  }

  lemma {:induction false} NotesParts(T: State, b: Block)
    ensures var U := After(T, b);
      U.notes == T.notes + NewNotes(AllLegs(b)) && U.anchors == Anchored(T.anchors, |U.notes|)
  {
  }

  /** Every leaf was appended by some block. */
  lemma {:induction false} LeafOrigin(S: State, bs: seq<Block>, i: nat) returns (k: nat, j: nat)
    requires IsGenesis(S) && RunOk(S, bs) && i < |StateAfter(S, bs).notes|
    ensures Has(bs, k, j) && Appends(LegAt(bs, k, j), StateAfter(S, bs).notes[i])
  {
    assert bs != [];
    var T, b, n := LastNotes(S, bs);
    if i < |T.notes| {
      k, j := LeafOrigin(S, bs[..n], i);
      SameLeg(bs, n, k, j);
    } else {
      k := n;
      j := NewLeaf(T.notes, StateAfter(S, bs).notes, bs, n, i);
    }
  }

  lemma {:induction false} NewLeaf(before: seq<Note>, after: seq<Note>, bs: seq<Block>, n: nat, i: nat) returns (j: nat)
    requires n < |bs| && after == before + NewNotes(AllLegs(bs[n])) && |before| <= i < |after|
    ensures Has(bs, n, j) && Appends(LegAt(bs, n, j), after[i])
  {
    j := NewNoteAt(AllLegs(bs[n]), i - |before|);
  }

  predicate Appends(x: Leg, leaf: Note) {
    (x.ZkOut? || x.Czk?) && x.leaf == leaf
  }

  /** Every anchor is the number of leaves after some block. */
  lemma {:induction false} AnchorOrigin(S: State, bs: seq<Block>, anchor: nat) returns (k: nat)
    requires IsGenesis(S) && RunOk(S, bs) && anchor in StateAfter(S, bs).anchors
    ensures IsRootAfter(S, bs, k, anchor)
  {
    assert bs != [];
    var T, b, n := LastNotes(S, bs);
    if anchor in T.anchors {
      k := AnchorOrigin(S, bs[..n], anchor);
      RootStays(S, bs, n, k, anchor);
    } else {
      k := n;
      Nested(bs, |bs|, n + 1);
      NewAnchor(T.anchors, |StateAfter(S, bs).notes|, anchor);
    }
  }

  /** So many leaves there are after block k. */
  predicate IsRootAfter(S: State, bs: seq<Block>, k: nat, anchor: nat) {
    k < |bs| && anchor == |StateAfter(S, bs[..k + 1]).notes|
  }

  lemma {:induction false} RootStays(S: State, bs: seq<Block>, n: nat, k: nat, anchor: nat)
    requires n <= |bs| && IsRootAfter(S, bs[..n], k, anchor)
    ensures IsRootAfter(S, bs, k, anchor) && k < n
  {
    Nested(bs, n, k + 1);
  }

  lemma {:induction false} NewAnchor(anchors: seq<nat>, n: nat, anchor: nat)
    requires anchor !in anchors && anchor in Anchored(anchors, n)
    ensures anchor == n
  {
  }

  lemma {:induction false} Nested<X>(s: seq<X>, n: nat, k: nat)
    requires k <= n <= |s|
    ensures s[..n][..k] == s[..k] && s[..|s|] == s
  {
  }

  predicate Redeems(x: Leg) { x.ZkIn? || x.Czk? }

  /** A redemption in block n reveals the nullifier of a leaf that an earlier block appended, under a root that
      was current after some block from that one on. */
  lemma {:induction false} RedeemedLater(S: State, bs: seq<Block>, n: nat, at: nat) returns (k: nat, j: nat, r: nat)
    requires IsGenesis(S) && RunOk(S, bs) && Has(bs, n, at) && Redeems(LegAt(bs, n, at))
    ensures k < n && r < n && Has(bs, k, j) && (LegAt(bs, k, j).ZkOut? || LegAt(bs, k, j).Czk?)
    ensures LegAt(bs, k, j).leaf.nullifier == LegAt(bs, n, at).nullifier
    ensures LegAt(bs, n, at).at < LegAt(bs, n, at).anchor && IsRootAfter(S, bs, r, LegAt(bs, n, at).anchor)
  {
    var x := RedeemFacts(S, bs, n, at);
    k, j := LeafOrigin(S, bs[..n], x.at);
    SameLeg(bs, n, k, j);
    r := AnchorOrigin(S, bs[..n], x.anchor);
    RootStays(S, bs, n, r, x.anchor);
  }

  lemma {:induction false} RedeemFacts(S: State, bs: seq<Block>, n: nat, at: nat) returns (x: Leg)
    requires IsGenesis(S) && RunOk(S, bs) && Has(bs, n, at) && Redeems(LegAt(bs, n, at))
    ensures x == LegAt(bs, n, at) && RunOk(S, bs[..n])
    ensures var T := StateAfter(S, bs[..n]);
      x.at < x.anchor && x.anchor in T.anchors && x.at < |T.notes| && T.notes[x.at].nullifier == x.nullifier
  {
    x := LegAt(bs, n, at);
    LegValid(S, bs, n, at);
    RunPrefix(S, bs, n);
  }

  /** No leaf holds more than could ever be issued before the tail. */
  lemma {:induction false} LeafBounded(S: State, bs: seq<Block>, i: nat)
    requires IsGenesis(S) && RunOk(S, bs) && i < |StateAfter(S, bs).notes|
    ensures StateAfter(S, bs).notes[i].value <= 18_400_000_000_000_000_000
  {
    var k, j := LeafOrigin(S, bs, i);
    LegValid(S, bs, k, j);
    LeafValue(StateAfter(S, bs[..k]), k + 1, LegAt(bs, k, j));
  }

  lemma {:induction false} LeafValue(T: State, h: nat, x: Leg)
    ensures LegOk(T, h, x) && (x.ZkOut? || x.Czk?) ==> x.leaf.value <= 18_400_000_000_000_000_000
    ensures LegOk(T, h, x) && x.ZkOut? ==> x.leaf.value == x.amount
    ensures LegOk(T, h, x) && x.ZkIn? ==> x.at < |T.notes| && T.notes[x.at].value == x.amount
    ensures LegOk(T, h, x) && x.Czk? ==>
              x.at < |T.notes| && T.notes[x.at].value == x.leaf.value + x.fee < 0x1000_0000_0000_0000
  {
  }

  /** A redemption takes out the whole leaf: openly its amount, confidentially a new leaf and a public fee,
      which together stay below 2^60. */
  lemma {:induction false} RedeemedInFull(S: State, bs: seq<Block>, n: nat, at: nat)
    requires IsGenesis(S) && RunOk(S, bs) && Has(bs, n, at) && Redeems(LegAt(bs, n, at))
    ensures var (x, notes) := (LegAt(bs, n, at), StateAfter(S, bs[..n]).notes);
      && x.at < |notes| && (x.ZkIn? ==> notes[x.at].value == x.amount)
      && (x.Czk? ==> notes[x.at].value == x.leaf.value + x.fee < 0x1000_0000_0000_0000)
  {
    LegValid(S, bs, n, at);
    LeafValue(StateAfter(S, bs[..n]), n + 1, LegAt(bs, n, at));
  }

  // ------------------------------------------------------------------------------------- outputs

  /** An output has a proper key and a 64-bit value, and its key and prime are new. */
  lemma {:induction false} OutputIsNew(S: State, bs: seq<Block>, n: nat, j: nat)
    requires IsGenesis(S) && RunOk(S, bs) && Has(bs, n, j) && LegAt(bs, n, j).Out?
    ensures var (x, T) := (LegAt(bs, n, j), StateAfter(S, bs[..n]));
      && x.key != Key(0, 0) && x.value <= MAX64 && x.prime !in T.primes
      && forall i :: 0 <= i < |T.coins| ==> T.coins[i].key != x.key
  {
    LegValid(S, bs, n, j);
    OutputFacts(StateAfter(S, bs[..n]), n + 1, LegAt(bs, n, j));
  }

  lemma {:induction false} OutputFacts(T: State, h: nat, x: Leg)
    ensures LegOk(T, h, x) && x.Out? ==>
              && x.key != Key(0, 0) && x.value <= MAX64 && x.prime !in T.primes
              && forall i :: 0 <= i < |T.coins| ==> T.coins[i].key != x.key
  {
  }

  // -------------------------------------------------------------------------------- transactions

  /** What every transaction of a run satisfies by itself. */
  predicate WellFormed(t: Tx) {
    && t.signed && t.fee >= 1000 * t.size
    && (exists i :: 0 <= i < |t.legs| && IsInput(t.legs[i])) && (exists i :: 0 <= i < |t.legs| && IsOutput(t.legs[i]))
    && (forall kind :: 0 <= kind < 12 ==> |OfKind(t.legs, kind)| <= 1024)
  }

  function OfKind(L: seq<Leg>, kind: nat): seq<Leg> {
    if L == [] then [] else OfKind(L[..|L| - 1], kind) + if Kind(L[|L| - 1]) == kind then [L[|L| - 1]] else []
  }

  lemma {:induction false} CountIs(L: seq<Leg>, kind: nat)
    ensures Count(L, kind) == |OfKind(L, kind)|
  {
    if L != [] { CountIs(L[..|L| - 1], kind); }
  }

  lemma {:induction false} TxWellFormed(S: State, h: nat, t: Tx)
    ensures TxOk(S, h, t) ==> WellFormed(t)
  {
    forall kind | 0 <= kind < 12 ensures Count(t.legs, kind) == |OfKind(t.legs, kind)| { CountIs(t.legs, kind); }
  }

  ghost predicate AllWellFormed(txs: seq<Tx>) {
    forall i :: 0 <= i < |txs| ==> WellFormed(txs[i])
  }

  /** All transactions of a valid block are well formed, so its fees pay for its bytes. */
  lemma {:induction false} FeesPayBytes(S: State, h: nat, txs: seq<Tx>)
    requires AllTxsOk(S, h, txs)
    ensures AllWellFormed(txs) && TotalFee(txs) >= 1000 * TotalSize(txs)
  {
    forall i | 0 <= i < |txs| ensures WellFormed(txs[i]) {
      assert TxOk(S, h, txs[i]);
      TxWellFormed(S, h, txs[i]);
    }
    FeesAddUp(txs);
  }

  lemma {:induction false} FeesAddUp(txs: seq<Tx>)
    requires AllWellFormed(txs)
    ensures TotalFee(txs) >= 1000 * TotalSize(txs)
  {
    if txs != [] {
      FeesAddUp(txs[..|txs| - 1]);
      assert WellFormed(txs[|txs| - 1]);
    }
  }

  function TotalFee(txs: seq<Tx>): nat {
    if txs == [] then 0 else TotalFee(txs[..|txs| - 1]) + txs[|txs| - 1].fee
  }

  function TotalSize(txs: seq<Tx>): nat {
    if txs == [] then 0 else TotalSize(txs[..|txs| - 1]) + txs[|txs| - 1].size
  }

  // --------------------------------------------------------------------------------------- rewards

  /** The reward is what is left of the cap over 2^19, rounded down, or the tail once that is less; a
      twentieth of it, rounded down, goes to the incentive pool; and it never rises. */
  lemma {:induction false} RewardLaw(emitted: nat, later: nat)
    requires emitted <= later
    ensures var (r, left) := (BlockReward(emitted), 18_400_000_000_000_000_000 - emitted);
      && (r > 600_000_000_000 ==> 524_288 * r <= left < 524_288 * (r + 1))
      && (left >= 524_288 * 600_000_000_001 ==> r > 600_000_000_000) && r >= 600_000_000_000
      && 20 * PoolShare(emitted) <= r < 20 * (PoolShare(emitted) + 1)
    ensures BlockReward(later) <= BlockReward(emitted)
  {
  }
}
