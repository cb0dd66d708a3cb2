/** Pending transactions across a block: when one whose spend keys the block did not touch is still valid. */
module PendingTxs {
  import opened Sequences
  import opened Contracts
  import opened LedgerModel
  import opened LedgerEffects
  import opened LedgerSteps
  import opened LedgerBalance
  import opened LedgerChecks
  import opened LedgerRuns
  import opened MempoolModel

  // ------------------------------------------------------------------------------ conditions

  /** The block spends nothing that the transaction spends. */
  ghost predicate KeysFree(t: Tx, b: Block) {
    forall j :: 0 <= j < |b.txs| ==> SpendKeys(t.legs) !! SpendKeys(b.txs[j].legs)
  }

  /** A swap is claimed or opened early enough, a yield is within its cap, at height h. */
  predicate InTime(S: State, h: nat, x: Leg) {
    match x
    case SwapIn(k, refund) => refund || (k in S.swaps && S.swaps[k].Swap? && h + SWAP_MARGIN <= S.swaps[k].unlock)
    case VaultIn(k, y) => k in S.vaults && S.vaults[k].Vault? && y <= YieldCap(S.vaults[k], h)
    case SwapOut(_, _, _, unlock) => h + SWAP_MARGIN <= unlock
    case _ => true
  }

  /** The window of anchors is full, the block adds a leaf and this anchor is the oldest. */
  predicate Evicts(S: State, b: Block, anchor: nat) {
    NewNotes(AllLegs(b)) != [] && |S.anchors| == ANCHOR_WINDOW && anchor == S.anchors[0]
  }

  predicate KeepsAnchor(S: State, b: Block, x: Leg) {
    x.ZkIn? || x.Czk? ==> !Evicts(S, b, x.anchor)
  }

  /** What the block leaves to a transaction whose spend keys it did not touch. */
  ghost predicate Outlasts(S: State, b: Block, t: Tx) {
    && (forall i :: 0 <= i < |t.legs| ==> InTime(S, b.height + 1, t.legs[i]))
    && (forall i :: 0 <= i < |t.legs| ==> KeepsAnchor(S, b, t.legs[i]))
    && Created(t.legs) !! Created(AllLegs(b))
  }

  // ---------------------------------------------------------------------- marks of the block

  lemma {:induction false} OutsMarks(L: seq<Leg>)
    requires OnlyOuts(L)
    ensures Created(L) == AllMarks(L) && forall m :: m in AllMarks(L) ==> !InputMark(m)
  {
    if L != [] { OutsMarks(L[..|L| - 1]); }
  }

  /** No input of the transaction is marked by the block. */
  lemma {:induction false} InputsFree(S: State, b: Block, t: Tx)
    requires BlockOk(S, b) && TxOk(S, b.height, t) && KeysFree(t, b)
    ensures AllMarks(Inputs(t.legs)) !! AllMarks(AllLegs(b))
  {
    var marks := AllMarks(Inputs(t.legs));
    MarksSplit(t.legs);
    OutsMarks(b.coinbase.outs);
    forall j | 0 <= j < |b.txs| ensures marks !! AllMarks(b.txs[j].legs) {
      TxApart(S, b.height, t, b.txs[j]);
    }
    FlattenMarks(b.txs, marks);
    AllMarksConcat(b.coinbase.outs, Flatten(b.txs));
  }

  lemma {:induction false} TxApart(S: State, h: nat, t: Tx, u: Tx)
    requires TxOk(S, h, t) && TxOk(S, h, u) && SpendKeys(t.legs) !! SpendKeys(u.legs)
    ensures AllMarks(Inputs(t.legs)) !! AllMarks(u.legs)
  {
    ConflictsAreDoubleSpends(t.legs, u.legs);
    MarksSplit(t.legs);
    MarksSplit(u.legs);
  }

  lemma {:induction false} InputMarks(L: seq<Leg>, i: nat)
    requires i < |L| && IsInput(L[i])
    ensures Marks(L[i]) <= AllMarks(Inputs(L))
  {
    InputsMore(L);
    if i < |L| - 1 { InputMarks(L[..|L| - 1], i); }
  }

  /** What is created meets a set of marks exactly when some created thing does. */
  lemma {:induction false} CreatedMarks(L: seq<Leg>, marks: set<Mark>)
    ensures Created(L) !! marks <==> forall i :: 0 <= i < |L| && !IsInput(L[i]) ==> Marks(L[i]) !! marks
  {
    if L != [] {
      var F, x := L[..|L| - 1], L[|L| - 1];
      CreatedMarks(F, marks);
      assert forall i :: 0 <= i < |F| ==> F[i] == L[i];
    }
  }

  // --------------------------------------------------------------- what the block's marks mean

  lemma {:induction false} RefMarked(L: seq<Leg>, r: Key)
    requires r in NewRefs(L)
    ensures RefMark(r) in AllMarks(L)
  {
    var F := L[..|L| - 1];
    if r in NewRefs(F) { RefMarked(F, r); }
  }

  lemma {:induction false} MarkedPrime(L: seq<Leg>, p: nat)
    requires PrimeMark(p) in AllMarks(L)
    ensures p in NewPrimes(L)
  {
    var F := L[..|L| - 1];
    if PrimeMark(p) in AllMarks(F) { MarkedPrime(F, p); }
  }

  lemma {:induction false} MarkedKey(L: seq<Leg>, h: nat, n: nat, key: Key)
    requires KeyMark(key) in AllMarks(L)
    ensures exists i :: 0 <= i < |NewCoins(L, h, n)| && NewCoins(L, h, n)[i].key == key
  {
    var F := L[..|L| - 1];
    if KeyMark(key) in AllMarks(F) {
      MarkedKey(F, h, n, key);
      var i :| 0 <= i < |NewCoins(F, h, n)| && NewCoins(F, h, n)[i].key == key;
      assert NewCoins(L, h, n)[i].key == key;
    } else {
      assert NewCoins(L, h, n)[|NewCoins(F, h, n)|].key == key;
    }
  }

  lemma {:induction false} MarkedNonce(L: seq<Leg>, n: Id)
    requires NonceMark(n) in AllMarks(L)
    ensures n in NewNonces(L)
  {
    var F := L[..|L| - 1];
    if NonceMark(n) in AllMarks(F) { MarkedNonce(F, n); }
  }

  ghost predicate Puts(ops: seq<Op>, k: Id) {
    exists i :: 0 <= i < |ops| && ops[i].Put? && ops[i].key == k
  }

  lemma {:induction false} PutsMore(p: seq<Op>, q: seq<Op>, k: Id)
    requires Puts(p, k) || Puts(q, k)
    ensures Puts(p + q, k)
  {
    if Puts(p, k) {
      var i :| 0 <= i < |p| && p[i].Put? && p[i].key == k;
      assert (p + q)[i] == p[i];
    } else {
      var i :| 0 <= i < |q| && q[i].Put? && q[i].key == k;
      assert (p + q)[|p| + i] == q[i];
    }
  }

  lemma {:induction false} MarkedSwap(L: seq<Leg>, k: Id)
    requires SwapOutMark(k) in AllMarks(L)
    ensures Puts(SwapPuts(L), k)
  {
    var F, x := L[..|L| - 1], L[|L| - 1];
    if SwapOutMark(k) in AllMarks(F) {
      MarkedSwap(F, k);
    } else {
      assert SwapPutsOf(x)[0].key == k;
    }
    PutsMore(SwapPuts(F), SwapPutsOf(x), k);
  }

  lemma {:induction false} MarkedVault(L: seq<Leg>, h: nat, k: Id)
    requires VaultOutMark(k) in AllMarks(L)
    ensures Puts(VaultOps(L, h), k)
  {
    var F, x := L[..|L| - 1], L[|L| - 1];
    if VaultOutMark(k) in AllMarks(F) {
      MarkedVault(F, h, k);
    } else {
      assert VaultOpsOf(x, h)[0].key == k;
    }
    PutsMore(VaultOps(F, h), VaultOpsOf(x, h), k);
  }

  /** Operations that touch no key twice leave there what they put. */
  lemma {:induction false} PutThere(m: map<Id, Contract>, ops: seq<Op>, k: Id)
    requires Clean(m, ops) && Puts(ops, k)
    ensures k in Run(m, ops)
  {
    var F := ops[..|ops| - 1];
    var i :| 0 <= i < |ops| && ops[i].Put? && ops[i].key == k;
    if i < |F| {
      assert F[i] == ops[i];
      PutThere(m, F, k);
    }
  }

  // -------------------------------------------------------------------------------- contracts

  /** A swap that the block does not claim stays as it is; an absent one stays absent exactly when the
      block does not open it. */
  lemma {:induction false} SwapAfter(S: State, b: Block, k: Id)
    requires BlockOk(S, b)
    ensures k in S.swaps && SwapInMark(k) !in AllMarks(AllLegs(b)) ==>
              k in After(S, b).swaps && After(S, b).swaps[k] == S.swaps[k]
    ensures k !in S.swaps ==> (k !in After(S, b).swaps <==> SwapOutMark(k) !in AllMarks(AllLegs(b)))
  {
    var L := AllLegs(b);
    var dels, puts := SwapDels(L), SwapPuts(L);
    LegsOk(S, b);
    SwapOpsClean(S, b.height, L);
    forall i | 0 <= i < |dels| ensures dels[i].Del? && SwapInMark(dels[i].key) in AllMarks(L) { SwapDelMarked(L, i); }
    forall i | 0 <= i < |puts| ensures puts[i].Put? && SwapOutMark(puts[i].key) in AllMarks(L) { SwapPutMarked(L, i); }
    if SwapOutMark(k) in AllMarks(L) {
      MarkedSwap(L, k);
      PutsMore(dels, puts, k);
      PutThere(S.swaps, dels + puts, k);
    }
    OpsAfter(S.swaps, dels + puts, k, SwapInMark(k) in AllMarks(L), SwapOutMark(k) in AllMarks(L));
  }

  lemma {:induction false} OpsAfter(m: map<Id, Contract>, ops: seq<Op>, k: Id, deleted: bool, put: bool)
    requires Clean(m, ops)
    requires forall i :: 0 <= i < |ops| && ops[i].key == k ==> if ops[i].Del? then deleted else put
    ensures k in m && !deleted ==> k in Run(m, ops) && Run(m, ops)[k] == m[k]
    ensures k !in m && !put ==> k !in Run(m, ops)
  {
    if (k in m && !deleted) || (k !in m && !put) {
      forall i | 0 <= i < |ops| ensures ops[i].key != k { assert Names(m, ops[i]); }
      Untouched(m, ops, k);
    }
  }

  lemma {:induction false} VaultAfter(S: State, b: Block, k: Id)
    requires BlockOk(S, b)
    ensures k in S.vaults && VaultInMark(k) !in AllMarks(AllLegs(b)) ==>
              k in After(S, b).vaults && After(S, b).vaults[k] == S.vaults[k]
    ensures k !in S.vaults ==> (k !in After(S, b).vaults <==> VaultOutMark(k) !in AllMarks(AllLegs(b)))
  {
    var L := AllLegs(b);
    var ops := VaultOps(L, b.height);
    LegsOk(S, b);
    VaultOpsClean(S, b.height, L, {});
    forall i | 0 <= i < |ops|
      ensures (if ops[i].Del? then VaultInMark(ops[i].key) else VaultOutMark(ops[i].key)) in AllMarks(L)
    {
      VaultOpMarked(L, b.height, i);
    }
    if VaultOutMark(k) in AllMarks(L) {
      MarkedVault(L, b.height, k);
      PutThere(S.vaults, ops, k);
    }
    OpsAfter(S.vaults, ops, k, VaultInMark(k) in AllMarks(L), VaultOutMark(k) in AllMarks(L));
  }

  lemma {:induction false} NonceAfter(S: State, b: Block, n: Id)
    requires n !in S.nonces
    ensures n !in After(S, b).nonces <==> NonceMark(n) !in AllMarks(AllLegs(b))
  {
    var L := AllLegs(b);
    if n in NewNonces(L) { NonceMarked(L, n); }
    if NonceMark(n) in AllMarks(L) { MarkedNonce(L, n); }
  }

  // ------------------------------------------------------------------------- coins and leaves

  lemma {:induction false} IndexInMore(A: seq<Coin>, B: seq<Coin>, key: Key)
    ensures IndexOf(A, key) < |A| ==> IndexOf(A + B, key) == IndexOf(A, key)
    ensures IndexOf(A, key) == |A| ==> IndexOf(A + B, key) == |A| + IndexOf(B, key)
  {
    if A == [] {
      assert A + B == B;
    } else {
      assert (A + B)[1..] == A[1..] + B;
      IndexInMore(A[1..], B, key);
    }
  }

  lemma {:induction false} KeyAfter(S: State, b: Block, key: Key)
    requires IndexOf(S.coins, key) == |S.coins|
    ensures IndexOf(After(S, b).coins, key) == |After(S, b).coins| <==> KeyMark(key) !in AllMarks(AllLegs(b))
  {
    var L, n := AllLegs(b), |b.coinbase.outs|;
    var coins := NewCoins(L, b.height, n);
    IndexInMore(S.coins, coins, key);
    if IndexOf(coins, key) < |coins| { KeyMarked(L, b.height, n, IndexOf(coins, key)); }
    if KeyMark(key) in AllMarks(L) { MarkedKey(L, b.height, n, key); }
  }

  lemma {:induction false} PrimeAfter(S: State, b: Block, prime: nat)
    requires prime !in S.primes
    ensures prime !in After(S, b).primes <==> PrimeMark(prime) !in AllMarks(AllLegs(b))
  {
    var L := AllLegs(b);
    if prime in NewPrimes(L) { PrimeMarked(L, prime); }
    if PrimeMark(prime) in AllMarks(L) { MarkedPrime(L, prime); }
  }

  /** An anchor is lost exactly when it is evicted. */
  lemma {:induction false} AnchorAfter(S: State, b: Block, anchor: nat)
    requires AnchorsOk(S.anchors, |S.notes|) && anchor in S.anchors
    ensures anchor in After(S, b).anchors <==> !Evicts(S, b, anchor)
  {
    var n, A := |S.notes + NewNotes(AllLegs(b))|, S.anchors;
    if NewNotes(AllLegs(b)) == [] {
      assert n == |S.notes| && (n == 0 || n in A);
    } else {
      assert n !in A;
      Dropped(A, n, anchor);
    }
  }

  lemma {:induction false} Dropped(A: seq<nat>, n: nat, anchor: nat)
    requires Distinct(A) && |A| <= ANCHOR_WINDOW && n !in A && n > 0 && anchor in A
    ensures anchor in Anchored(A, n) <==> !(|A| == ANCHOR_WINDOW && anchor == A[0])
  {
    if |A| == ANCHOR_WINDOW {
      assert Anchored(A, n) == A[1..] + [n];
    } else {
      assert Anchored(A, n) == A + [n];
    }
  }

  // -------------------------------------------------------- the new state through the marks

  /** What a block with these marks leaves of the coins and what was spent of them. */
  ghost predicate CoinsFollow(S: State, T: State, marks: set<Mark>) {
    && S.coins <= T.coins
    && (forall r :: r !in S.spent && RefMark(r) !in marks ==> r !in T.spent)
    && (forall g :: g !in S.tags && TagMark(g) !in marks ==> g !in T.tags)
    && (forall k :: IndexOf(S.coins, k) == |S.coins| ==>
          (IndexOf(T.coins, k) == |T.coins| <==> KeyMark(k) !in marks))
    && (forall p :: p !in S.primes ==> (p !in T.primes <==> PrimeMark(p) !in marks))
  }

  ghost predicate ContractsFollow(S: State, T: State, marks: set<Mark>) {
    && (forall k :: k in S.swaps && SwapInMark(k) !in marks ==> k in T.swaps && T.swaps[k] == S.swaps[k])
    && (forall k :: k !in S.swaps ==> (k !in T.swaps <==> SwapOutMark(k) !in marks))
    && (forall n :: n !in S.nonces ==> (n !in T.nonces <==> NonceMark(n) !in marks))
    && (forall k :: k in S.vaults && VaultInMark(k) !in marks ==> k in T.vaults && T.vaults[k] == S.vaults[k])
    && (forall k :: k !in S.vaults ==> (k !in T.vaults <==> VaultOutMark(k) !in marks))
  }

  ghost predicate NotesFollow(S: State, T: State, b: Block, marks: set<Mark>) {
    && S.notes <= T.notes
    && (forall n :: n !in S.zkNull && ZkMark(n) !in marks ==> n !in T.zkNull)
    && (forall a :: a in S.anchors ==> (a in T.anchors <==> !Evicts(S, b, a)))
  }

  lemma {:induction false} BlockCoins(S: State, b: Block)
    ensures CoinsFollow(S, After(S, b), AllMarks(AllLegs(b)))
  {
    var L := AllLegs(b);
    forall r | r in NewRefs(L) ensures RefMark(r) in AllMarks(L) { RefMarked(L, r); }
    forall g | g in NewTags(L) ensures TagMark(g) in AllMarks(L) { TagMarked(L, g); }
    forall k | IndexOf(S.coins, k) == |S.coins|
      ensures IndexOf(After(S, b).coins, k) == |After(S, b).coins| <==> KeyMark(k) !in AllMarks(L)
    {
      KeyAfter(S, b, k);
    }
    forall p | p !in S.primes ensures p !in After(S, b).primes <==> PrimeMark(p) !in AllMarks(L) {
      PrimeAfter(S, b, p);
    }
  }

  lemma {:induction false} BlockContracts(S: State, b: Block)
    requires BlockOk(S, b)
    ensures ContractsFollow(S, After(S, b), AllMarks(AllLegs(b)))
  {
    forall k { SwapAfter(S, b, k); }
    forall k { VaultAfter(S, b, k); }
    forall n | n !in S.nonces ensures n !in After(S, b).nonces <==> NonceMark(n) !in AllMarks(AllLegs(b)) {
      NonceAfter(S, b, n);
    }
  }

  lemma {:induction false} BlockNotes(S: State, b: Block)
    requires AnchorsOk(S.anchors, |S.notes|)
    ensures NotesFollow(S, After(S, b), b, AllMarks(AllLegs(b)))
  {
    var L := AllLegs(b);
    forall n | n in NewNullifiers(L) ensures ZkMark(n) in AllMarks(L) { NullifierMarked(L, n); }
    forall a | a in S.anchors ensures a in After(S, b).anchors <==> !Evicts(S, b, a) { AnchorAfter(S, b, a); }
  }

  // -------------------------------------------------------------------------------- one leg

  ghost predicate LegOutlasts(S: State, b: Block, marks: set<Mark>, x: Leg) {
    InTime(S, b.height + 1, x) && KeepsAnchor(S, b, x) && (!IsInput(x) ==> Marks(x) !! marks)
  }

  lemma {:induction false} CoinInStays(S: State, T: State, h: nat, marks: set<Mark>, x: Leg)
    requires CoinsFollow(S, T, marks) && LegOk(S, h, x) && (x.Spend? || x.Anon?) && Marks(x) !! marks
    ensures LegOk(T, h + 1, x)
  {
    assert T.coins == S.coins + T.coins[|S.coins|..];
    if x.Spend? {
      IndexInMore(S.coins, T.coins[|S.coins|..], x.ref);
    }
  }

  lemma {:induction false} InputStays(S: State, T: State, b: Block, marks: set<Mark>, x: Leg)
    requires CoinsFollow(S, T, marks) && ContractsFollow(S, T, marks) && NotesFollow(S, T, b, marks)
    requires LegOk(S, b.height, x) && IsInput(x) && !IsPq(x) && Marks(x) !! marks
    ensures LegOk(T, b.height + 1, x) <==> LegOutlasts(S, b, marks, x)
  {
    if x.Spend? || x.Anon? { CoinInStays(S, T, b.height, marks, x); }
  }

  lemma {:induction false} OutputStays(S: State, T: State, b: Block, marks: set<Mark>, x: Leg)
    requires CoinsFollow(S, T, marks) && ContractsFollow(S, T, marks)
    requires LegOk(S, b.height, x) && !IsInput(x) && !IsPq(x)
    ensures LegOk(T, b.height + 1, x) <==> LegOutlasts(S, b, marks, x)
  {
  }

  /** The value a leg carries does not change. */
  lemma {:induction false} EntryStays(S: State, T: State, h: nat, marks: set<Mark>, x: Leg)
    requires ContractsFollow(S, T, marks) && LegOk(S, h, x) && (IsInput(x) ==> Marks(x) !! marks)
    ensures LedgerModel.Entry(T, x) == LedgerModel.Entry(S, x)
  {
  }

  lemma {:induction false} TallyStays(S: State, T: State, L: seq<Leg>)
    requires forall i :: 0 <= i < |L| ==> LedgerModel.Entry(T, L[i]) == LedgerModel.Entry(S, L[i])
    ensures TallyOf(T, L) == TallyOf(S, L)
  {
    if L != [] { TallyStays(S, T, L[..|L| - 1]); }
  }

  // ------------------------------------------------------------------------ the transaction

  ghost predicate AllOutlast(S: State, b: Block, marks: set<Mark>, L: seq<Leg>) {
    forall i {:trigger L[i]} :: 0 <= i < |L| ==> LegOutlasts(S, b, marks, L[i])
  }

  lemma {:induction false} OutlastsIff(S: State, b: Block, t: Tx)
    ensures Outlasts(S, b, t) <==> AllOutlast(S, b, AllMarks(AllLegs(b)), t.legs)
  {
    MarksSplit(AllLegs(b));
    MarksSplit(t.legs);
    CreatedMarks(t.legs, AllMarks(AllLegs(b)));
  }

  lemma {:induction false} LegsStay(S: State, T: State, b: Block, marks: set<Mark>, L: seq<Leg>)
    requires CoinsFollow(S, T, marks) && ContractsFollow(S, T, marks) && NotesFollow(S, T, b, marks)
    requires AllOk(S, b.height, L) && AllMarks(Inputs(L)) !! marks && forall i :: 0 <= i < |L| ==> !IsPq(L[i])
    ensures AllOk(T, b.height + 1, L) <==> AllOutlast(S, b, marks, L)
    ensures TallyOf(T, L) == TallyOf(S, L)
  {
    forall i | 0 <= i < |L|
      ensures LegOk(T, b.height + 1, L[i]) <==> LegOutlasts(S, b, marks, L[i])
      ensures LedgerModel.Entry(T, L[i]) == LedgerModel.Entry(S, L[i])
    {
      if IsInput(L[i]) {
        InputMarks(L, i);
        InputStays(S, T, b, marks, L[i]);
      } else {
        OutputStays(S, T, b, marks, L[i]);
      }
      EntryStays(S, T, b.height, marks, L[i]);
    }
    TallyStays(S, T, L);
  }

  /** On every chain a pending transaction whose spend keys a block did not touch is valid after the block
      exactly when its swap legs and yields are in time for the next height, none of its anchors is evicted
      and the block creates nothing that it creates. */
  lemma {:induction false} PendingStaysValid(G: State, bs: seq<Block>, S: State, b: Block, t: Tx)
    requires Leads(G, bs, S) && BlockOk(S, b) && TxOk(S, b.height, t) && KeysFree(t, b)
    ensures TxOk(After(S, b), b.height + 1, t) <==> Outlasts(S, b, t)
  {
    var H := HistoryOf(G, bs, S);
    AcrossBlock(S, H, b, t);
  }

  lemma {:induction false} AcrossBlock(S: State, H: History, b: Block, t: Tx)
    requires Inv(S, H) && NoPqCoins(S) && BlockOk(S, b) && TxOk(S, b.height, t) && KeysFree(t, b)
    ensures TxOk(After(S, b), b.height + 1, t) <==> Outlasts(S, b, t)
  {
    NoPqTx(S, b.height, t);
    InputsFree(S, b, t);
    BlockCoins(S, b);
    BlockContracts(S, b);
    BlockNotes(S, b);
    TxStays(S, After(S, b), b, AllMarks(AllLegs(b)), t);
    OutlastsIff(S, b, t);
  }

  lemma {:induction false} TxStays(S: State, T: State, b: Block, marks: set<Mark>, t: Tx)
    requires CoinsFollow(S, T, marks) && ContractsFollow(S, T, marks) && NotesFollow(S, T, b, marks)
    requires !HasPq(t) && AllMarks(Inputs(t.legs)) !! marks
    ensures TxOk(S, b.height, t) ==> (TxOk(T, b.height + 1, t) <==> AllOutlast(S, b, marks, t.legs))
  {
    if TxOk(S, b.height, t) { LegsStay(S, T, b, marks, t.legs); }
  }
}
