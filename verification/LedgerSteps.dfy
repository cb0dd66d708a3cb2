/** Every valid block keeps the invariants: no coin or note is used twice, contract keys and nonces
    stay unique, and the value in existence equals what was issued. */
module LedgerSteps {
  import opened Params
  import opened Sequences
  import opened Contracts
  import opened HiddenValue
  import opened LedgerModel
  import opened LedgerEffects
  import opened LedgerFlows

  // ------------------------------------------------------------------- marks of the legs

  lemma {:induction false} TagMarked(L: seq<Leg>, t: nat)
    requires t in NewTags(L)
    ensures TagMark(t) in AllMarks(L)
  {
    var F := L[..|L| - 1];
    if t in NewTags(F) { TagMarked(F, t); }
  }

  lemma {:induction false} PrimeMarked(L: seq<Leg>, p: nat)
    requires p in NewPrimes(L)
    ensures PrimeMark(p) in AllMarks(L)
  {
    var F := L[..|L| - 1];
    if p in NewPrimes(F) { PrimeMarked(F, p); }
  }

  lemma {:induction false} KeyMarked(L: seq<Leg>, h: nat, n: nat, i: nat)
    requires i < |NewCoins(L, h, n)|
    ensures KeyMark(NewCoins(L, h, n)[i].key) in AllMarks(L)
  {
    var F := L[..|L| - 1];
    if i < |NewCoins(F, h, n)| { KeyMarked(F, h, n, i); }
  }

  lemma {:induction false} NullifierMarked(L: seq<Leg>, t: nat)
    requires t in NewNullifiers(L)
    ensures ZkMark(t) in AllMarks(L)
  {
    var F := L[..|L| - 1];
    if t in NewNullifiers(F) { NullifierMarked(F, t); }
  }

  lemma {:induction false} NonceMarked(L: seq<Leg>, n: Id)
    requires n in NewNonces(L)
    ensures NonceMark(n) in AllMarks(L)
  {
    var F := L[..|L| - 1];
    if n in NewNonces(F) { NonceMarked(F, n); }
  }

  lemma {:induction false} SwapDelMarked(L: seq<Leg>, i: nat)
    requires i < |SwapDels(L)|
    ensures SwapDels(L)[i].Del? && SwapInMark(SwapDels(L)[i].key) in AllMarks(L)
  {
    var F := L[..|L| - 1];
    if i < |SwapDels(F)| { SwapDelMarked(F, i); }
  }

  lemma {:induction false} SwapPutMarked(L: seq<Leg>, i: nat)
    requires i < |SwapPuts(L)|
    ensures SwapPuts(L)[i].Put? && SwapOutMark(SwapPuts(L)[i].key) in AllMarks(L)
  {
    var F := L[..|L| - 1];
    if i < |SwapPuts(F)| { SwapPutMarked(F, i); }
  }

  lemma {:induction false} VaultOpMarked(L: seq<Leg>, h: nat, i: nat)
    requires i < |VaultOps(L, h)|
    ensures var op := VaultOps(L, h)[i];
      (if op.Del? then VaultInMark(op.key) else VaultOutMark(op.key)) in AllMarks(L)
  {
    var F := L[..|L| - 1];
    if i < |VaultOps(F, h)| { VaultOpMarked(F, h, i); }
  }

  lemma {:induction false} PqPutMarked(L: seq<Leg>, i: nat)
    requires i < |PqPuts(L)|
    ensures PqPuts(L)[i].Put? && PqKeyMark(PqPuts(L)[i].key) in AllMarks(L)
  {
    var F := L[..|L| - 1];
    if i < |PqPuts(F)| { PqPutMarked(F, i); }
  }

  lemma {:induction false} PqDelMarked(L: seq<Leg>, i: nat)
    requires i < |PqDels(L)|
    ensures PqDels(L)[i].Del? && PqMark(PqDels(L)[i].key) in AllMarks(L)
  {
    var F := L[..|L| - 1];
    if i < |PqDels(F)| { PqDelMarked(F, i); }
  }

  // ------------------------------------------------------------------------- hidden things

  lemma {:induction false} TagsFresh(S: State, h: nat, L: seq<Leg>, seen: set<Mark>)
    requires Distinct(S.tags) && AllOk(S, h, L) && Fresh(L, seen)
    ensures Distinct(S.tags + NewTags(L))
  {
    if L == [] {
      assert S.tags + [] == S.tags;
    } else {
      var F, x := L[..|L| - 1], L[|L| - 1];
      AllOkFront(S, h, L);
      TagsFresh(S, h, F, seen);
      if x.Spend? || x.Anon? {
        var t := if x.Spend? then x.image.core else x.tag.core;
        assert t in NewTags(F) ==> TagMark(t) in AllMarks(F) by {
          if t in NewTags(F) { TagMarked(F, t); }
        }
        Front(S.tags + NewTags(F), t);
        assert S.tags + NewTags(L) == S.tags + NewTags(F) + [t];
      } else {
        assert NewTags(L) == NewTags(F);
      }
    }
  }

  lemma {:induction false} PrimesFresh(S: State, h: nat, L: seq<Leg>, seen: set<Mark>, n: nat)
    requires Distinct(S.primes) && AllOk(S, h, L) && Fresh(L, seen)
    ensures Distinct(S.primes + NewPrimes(L)) && |NewPrimes(L)| == |NewCoins(L, h, n)|
  {
    if L == [] {
      assert S.primes + [] == S.primes;
    } else {
      var F, x := L[..|L| - 1], L[|L| - 1];
      AllOkFront(S, h, L);
      PrimesFresh(S, h, F, seen, n);
      if x.Out? {
        assert x.prime in NewPrimes(F) ==> PrimeMark(x.prime) in AllMarks(F) by {
          if x.prime in NewPrimes(F) { PrimeMarked(F, x.prime); }
        }
        Front(S.primes + NewPrimes(F), x.prime);
        assert S.primes + NewPrimes(L) == S.primes + NewPrimes(F) + [x.prime];
      } else {
        assert NewPrimes(L) == NewPrimes(F);
      }
    }
  }

  lemma {:induction false} NullifiersFresh(S: State, h: nat, L: seq<Leg>, seen: set<Mark>)
    requires AllOk(S, h, L) && Fresh(L, seen)
    ensures Distinct(NewNullifiers(L)) && forall t :: t in NewNullifiers(L) ==> t !in S.zkNull
  {
    if L != [] {
      var F, x := L[..|L| - 1], L[|L| - 1];
      AllOkFront(S, h, L);
      NullifiersFresh(S, h, F, seen);
      if x.ZkIn? || x.Czk? {
        var t := x.nullifier;
        assert t in NewNullifiers(F) ==> ZkMark(t) in AllMarks(F) by {
          if t in NewNullifiers(F) { NullifierMarked(F, t); }
        }
        Front(NewNullifiers(F), t);
      } else {
        assert NewNullifiers(L) == NewNullifiers(F);
      }
    }
  }

  lemma {:induction false} CoinsStep(S: State, h: nat, L: seq<Leg>, seen: set<Mark>, n: nat)
    requires CoinsOk(S.coins) && AllOk(S, h, L) && Fresh(L, seen)
    ensures CoinsOk(S.coins + NewCoins(L, h, n))
  {
    if L == [] {
      assert S.coins + [] == S.coins;
    } else {
      var F, x := L[..|L| - 1], L[|L| - 1];
      AllOkFront(S, h, L);
      CoinsStep(S, h, F, seen, n);
      if x.Out? {
        forall i | 0 <= i < |NewCoins(F, h, n)| ensures NewCoins(F, h, n)[i].key != x.key {
          KeyMarked(F, h, n, i);
        }
        CoinAppended(S.coins, NewCoins(F, h, n), Coin(x.key, x.value, h, |L| - 1 < n, x.lock));
      } else {
        assert NewCoins(L, h, n) == NewCoins(F, h, n);
      }
    }
  }

  lemma {:induction false} CoinAppended(coins: seq<Coin>, more: seq<Coin>, c: Coin)
    requires CoinsOk(coins + more) && c.value <= MAX64
    requires forall i :: 0 <= i < |coins| ==> coins[i].key != c.key
    requires forall i :: 0 <= i < |more| ==> more[i].key != c.key
    ensures CoinsOk(coins + (more + [c]))
  {
    assert coins + (more + [c]) == coins + more + [c];
  }

  lemma {:induction false} TagsStep(S: State, H: History, h: nat, L: seq<Leg>, more: seq<Coin>)
    requires TagsOk(S.coins, S.tags, H.uses) && AllOk(S, h, L) && Fresh(L, {})
    ensures TagsOk(S.coins + more, S.tags + NewTags(L), H.uses + NewUses(S, L))
  {
    TagsFresh(S, h, L, {});
    UsesInRange(S, h, L);
  }

  /** No coin stands behind two tags, whether spent openly or anonymously. */
  lemma {:induction false} NoDoubleSpend(coins: seq<Coin>, tags: seq<nat>, uses: seq<nat>)
    requires TagsOk(coins, tags, uses)
    ensures Distinct(uses)
  {
    forall i, j | 0 <= i < j < |uses| ensures uses[i] != uses[j] {
      assert tags[i] != tags[j];
    }
  }

  lemma {:induction false} NotesStep(S: State, H: History, h: nat, L: seq<Leg>, more: seq<Note>)
    requires NotesOk(S.notes, S.zkNull, H.redeems) && AllOk(S, h, L) && Fresh(L, {})
    ensures NotesOk(S.notes + more, S.zkNull + (set x | x in NewNullifiers(L)), H.redeems + NewRedeems(L))
    ensures Distinct(H.redeems + NewRedeems(L))
  {
    NullifiersFresh(S, h, L, {});
    RedeemsInRange(S, h, L);
    RevealedOnce(S.notes, more, S.zkNull, H.redeems, NewNullifiers(L), NewRedeems(L));
    NullifierSet(S.notes, more, S.zkNull, H.redeems, NewNullifiers(L), NewRedeems(L));
  }

  lemma {:induction false} RevealedOnce(notes: seq<Note>, leaves: seq<Note>, zkNull: set<nat>, us: seq<nat>,
          nfs: seq<nat>, more: seq<nat>)
    requires NotesOk(notes, zkNull, us) && Within(more, |notes|) && |more| == |nfs| && Distinct(nfs)
    requires forall i :: 0 <= i < |more| ==> nfs[i] == notes[more[i]].nullifier
    requires forall t :: t in nfs ==> t !in zkNull
    ensures Within(us + more, |notes + leaves|) && Distinct(us + more)
    ensures forall i, j :: 0 <= i < j < |us + more| ==>
              (notes + leaves)[(us + more)[i]].nullifier != (notes + leaves)[(us + more)[j]].nullifier
  {
    var all, ls := us + more, notes + leaves;
    forall i, j | 0 <= i < j < |all| ensures ls[all[i]].nullifier != ls[all[j]].nullifier && all[i] != all[j] {
      if j >= |us| {
        assert nfs[j - |us|] in nfs;
        if i < |us| {
          assert notes[us[i]].nullifier in zkNull;
        } else {
          assert nfs[i - |us|] != nfs[j - |us|];
        }
      }
    }
  }

  lemma {:induction false} NullifierSet(notes: seq<Note>, leaves: seq<Note>, zkNull: set<nat>, us: seq<nat>,
          nfs: seq<nat>, more: seq<nat>)
    requires NotesOk(notes, zkNull, us) && Within(more, |notes|) && |more| == |nfs|
    requires forall i :: 0 <= i < |more| ==> nfs[i] == notes[more[i]].nullifier
    ensures Within(us + more, |notes + leaves|)
    ensures zkNull + (set x | x in nfs)
         == set i | 0 <= i < |us + more|
               && (us + more)[i] < |notes + leaves| :: (notes + leaves)[(us + more)[i]].nullifier
  {
    var all, ls := us + more, notes + leaves;
    var r := set i | 0 <= i < |all| && all[i] < |ls| :: ls[all[i]].nullifier;
    forall t | t in zkNull + (set x | x in nfs) ensures t in r {
      if t in zkNull {
        var i :| 0 <= i < |us| && us[i] < |notes| && notes[us[i]].nullifier == t;
        assert all[i] == us[i] && ls[all[i]].nullifier == t;
      } else {
        var i :| 0 <= i < |nfs| && nfs[i] == t;
        assert all[|us| + i] == more[i] && ls[all[|us| + i]].nullifier == t;
      }
    }
    forall t | t in r ensures t in zkNull + (set x | x in nfs) {
      var i :| 0 <= i < |all| && all[i] < |ls| && ls[all[i]].nullifier == t;
      if i < |us| {
        assert notes[us[i]].nullifier in zkNull;
      } else {
        assert nfs[i - |us|] == t;
      }
    }
  }

  // ----------------------------------------------------------------------------- contracts

  lemma {:induction false} CleanMore(m: map<Id, Contract>, ops: seq<Op>, op: Op)
    requires Clean(m, ops) && Names(m, op) && forall i :: 0 <= i < |ops| ==> ops[i].key != op.key
    ensures Clean(m, ops + [op])
  {
  }

  lemma {:induction false} CleanConcat(m: map<Id, Contract>, p: seq<Op>, q: seq<Op>)
    requires Clean(m, p) && Clean(m, q)
    requires forall i, j :: 0 <= i < |p| && 0 <= j < |q| ==> p[i].Del? != q[j].Del?
    ensures Clean(m, p + q)
  {
    forall i, j | 0 <= i < |p| && 0 <= j < |q| ensures p[i].key != q[j].key {
      assert Names(m, p[i]) && Names(m, q[j]);
    }
  }

  lemma {:induction false} SwapDelsClean(S: State, h: nat, L: seq<Leg>, seen: set<Mark>)
    requires AllOk(S, h, L) && Fresh(L, seen)
    ensures Clean(S.swaps, SwapDels(L))
  {
    if L != [] {
      var F, x := L[..|L| - 1], L[|L| - 1];
      AllOkFront(S, h, L);
      SwapDelsClean(S, h, F, seen);
      if x.SwapIn? {
        forall i | 0 <= i < |SwapDels(F)| ensures SwapDels(F)[i].key != x.swap { SwapDelMarked(F, i); }
        CleanMore(S.swaps, SwapDels(F), Del(x.swap));
      } else {
        assert SwapDels(L) == SwapDels(F);
      }
    }
  }

  lemma {:induction false} SwapPutsClean(S: State, h: nat, L: seq<Leg>, seen: set<Mark>)
    requires AllOk(S, h, L) && Fresh(L, seen)
    ensures Clean(S.swaps, SwapPuts(L))
  {
    if L != [] {
      var F, x := L[..|L| - 1], L[|L| - 1];
      AllOkFront(S, h, L);
      SwapPutsClean(S, h, F, seen);
      if x.SwapOut? {
        forall i | 0 <= i < |SwapPuts(F)| ensures SwapPuts(F)[i].key != x.swap { SwapPutMarked(F, i); }
        CleanMore(S.swaps, SwapPuts(F), Put(x.swap, Swap(x.amount, x.unlock, x.nonce)));
      } else {
        assert SwapPuts(L) == SwapPuts(F);
      }
    }
  }

  lemma {:induction false} SwapOpsClean(S: State, h: nat, L: seq<Leg>)
    requires AllOk(S, h, L) && Fresh(L, {})
    ensures Clean(S.swaps, SwapDels(L) + SwapPuts(L))
  {
    SwapDelsClean(S, h, L, {});
    SwapPutsClean(S, h, L, {});
    forall i | 0 <= i < |SwapDels(L)| ensures SwapDels(L)[i].Del? { SwapDelMarked(L, i); }
    forall i | 0 <= i < |SwapPuts(L)| ensures SwapPuts(L)[i].Put? { SwapPutMarked(L, i); }
    CleanConcat(S.swaps, SwapDels(L), SwapPuts(L));
  }

  lemma {:induction false} VaultOpsClean(S: State, h: nat, L: seq<Leg>, seen: set<Mark>)
    requires AllOk(S, h, L) && Fresh(L, seen)
    ensures Clean(S.vaults, VaultOps(L, h))
  {
    if L != [] {
      var F, x := L[..|L| - 1], L[|L| - 1];
      AllOkFront(S, h, L);
      VaultOpsClean(S, h, F, seen);
      if x.VaultIn? || x.VaultOut? {
        var ops := VaultOps(F, h);
        forall i | 0 <= i < |ops| ensures ops[i].key != x.vault {
          VaultOpMarked(F, h, i);
          assert Names(S.vaults, ops[i]);
        }
        CleanMore(S.vaults, ops, VaultOpsOf(x, h)[0]);
        assert VaultOps(L, h) == ops + [VaultOpsOf(x, h)[0]];
      } else {
        assert VaultOps(L, h) == VaultOps(F, h);
      }
    }
  }

  lemma {:induction false} PqPutsClean(S: State, h: nat, L: seq<Leg>, seen: set<Mark>)
    requires AllOk(S, h, L) && Fresh(L, seen) && (forall k :: k in S.pqUtxo ==> k in S.pqKeys)
    ensures Clean(S.pqUtxo, PqPuts(L))
  {
    if L != [] {
      var F, x := L[..|L| - 1], L[|L| - 1];
      AllOkFront(S, h, L);
      PqPutsClean(S, h, F, seen);
      if x.PqOut? {
        forall i | 0 <= i < |PqPuts(F)| ensures PqPuts(F)[i].key != x.pq { PqPutMarked(F, i); }
        CleanMore(S.pqUtxo, PqPuts(F), Put(x.pq, PqCoin(x.amount)));
      } else {
        assert PqPuts(L) == PqPuts(F);
      }
    }
  }

  lemma {:induction false} PqDelsClean(S: State, h: nat, L: seq<Leg>, seen: set<Mark>)
    requires AllOk(S, h, L) && Fresh(L, seen)
    ensures Clean(S.pqUtxo, PqDels(L))
  {
    if L != [] {
      var F, x := L[..|L| - 1], L[|L| - 1];
      AllOkFront(S, h, L);
      PqDelsClean(S, h, F, seen);
      if x.PqIn? {
        forall i | 0 <= i < |PqDels(F)| ensures PqDels(F)[i].key != x.pq { PqDelMarked(F, i); }
        CleanMore(S.pqUtxo, PqDels(F), Del(x.pq));
      } else {
        assert PqDels(L) == PqDels(F);
      }
    }
  }

  lemma {:induction false} PqOpsClean(S: State, h: nat, L: seq<Leg>)
    requires AllOk(S, h, L) && Fresh(L, {}) && (forall k :: k in S.pqUtxo ==> k in S.pqKeys)
    ensures Clean(S.pqUtxo, PqPuts(L) + PqDels(L))
  {
    PqPutsClean(S, h, L, {});
    PqDelsClean(S, h, L, {});
    forall i | 0 <= i < |PqPuts(L)| ensures PqPuts(L)[i].Put? { PqPutMarked(L, i); }
    forall i | 0 <= i < |PqDels(L)| ensures PqDels(L)[i].Del? { PqDelMarked(L, i); }
    CleanConcat(S.pqUtxo, PqPuts(L), PqDels(L));
  }

  // --------------------------------------------------------------------------- swap nonces

  lemma {:induction false} CloseKeeps(swaps: map<Id, Contract>, nonces: set<Id>, closed: seq<Id>, k: Id)
    requires SwapsOk(swaps, nonces, closed) && k in swaps
    ensures swaps[k].Swap? && SwapsOk(swaps - {k}, nonces, closed + [swaps[k].nonce])
  {
    assert SwapOk(swaps, nonces, closed, k);
    var closed' := closed + [swaps[k].nonce];
    Front(closed, swaps[k].nonce);
    forall j | j in swaps - {k} ensures SwapOk(swaps - {k}, nonces, closed', j) {
      assert SwapOk(swaps, nonces, closed, j);
    }
  }

  lemma {:induction false} OpenKeeps(swaps: map<Id, Contract>, nonces: set<Id>, closed: seq<Id>, k: Id, a: nat,
          u: nat, n: Id)
    requires SwapsOk(swaps, nonces, closed) && k !in swaps && n !in nonces
    ensures SwapsOk(swaps[k := Swap(a, u, n)], nonces + {n}, closed)
  {
    var swaps' := swaps[k := Swap(a, u, n)];
    forall j | j in swaps' ensures SwapOk(swaps', nonces + {n}, closed, j) {
      assert j != k ==> SwapOk(swaps, nonces, closed, j);
    }
    forall i, j | i in swaps' && j in swaps' && swaps'[i].Swap? && swaps'[j].Swap? && swaps'[i].nonce == swaps'[j].nonce
      ensures i == j
    {
      assert i != k ==> SwapOk(swaps, nonces, closed, i);
      assert j != k ==> SwapOk(swaps, nonces, closed, j);
    }
  }

  lemma {:induction false} DelsKeep(S: State, dels: seq<Op>, closed: seq<Id>)
    requires SwapsOk(S.swaps, S.nonces, closed) && Clean(S.swaps, dels) && forall i :: 0 <= i < |dels| ==> dels[i].Del?
    ensures SwapsOk(Run(S.swaps, dels), S.nonces, closed + ClosedNonces(S.swaps, dels))
  {
    if dels == [] {
      assert closed + [] == closed;
    } else {
      var F, op := dels[..|dels| - 1], dels[|dels| - 1];
      DelsKeep(S, F, closed);
      assert Names(S.swaps, op);
      Untouched(S.swaps, F, op.key);
      CloseKeeps(Run(S.swaps, F), S.nonces, closed + ClosedNonces(S.swaps, F), op.key);
      var n := S.swaps[op.key].nonce;
      assert closed + ClosedNonces(S.swaps, dels) == closed + ClosedNonces(S.swaps, F) + [n];
    }
  }

  lemma {:induction false} PutsKeep(S: State, h: nat, L: seq<Leg>, seen: set<Mark>, dels: seq<Op>, closed: seq<Id>)
    requires SwapsOk(Run(S.swaps, dels), S.nonces, closed) && AllOk(S, h, L) && Fresh(L, seen)
    requires Clean(S.swaps, dels + SwapPuts(L))
    ensures SwapsOk(Run(S.swaps, dels + SwapPuts(L)), S.nonces + NewNonces(L), closed)
  {
    if L == [] {
      assert dels + [] == dels && S.nonces + {} == S.nonces;
    } else {
      var F, x := L[..|L| - 1], L[|L| - 1];
      AllOkFront(S, h, L);
      if x.SwapOut? {
        var op := Put(x.swap, Swap(x.amount, x.unlock, x.nonce));
        var ops := dels + SwapPuts(F);
        assert dels + SwapPuts(L) == ops + [op];
        CleanFront(S.swaps, ops, op);
        PutsKeep(S, h, F, seen, dels, closed);
        Untouched(S.swaps, ops, x.swap);
        assert x.nonce in NewNonces(F) ==> NonceMark(x.nonce) in AllMarks(F) by {
          if x.nonce in NewNonces(F) { NonceMarked(F, x.nonce); }
        }
        OpenKeeps(Run(S.swaps, ops), S.nonces + NewNonces(F), closed, x.swap, x.amount, x.unlock, x.nonce);
        assert (ops + [op])[..|ops|] == ops;
        assert S.nonces + NewNonces(L) == S.nonces + NewNonces(F) + {x.nonce};
      } else {
        assert SwapPuts(L) == SwapPuts(F) && NewNonces(L) == NewNonces(F);
        PutsKeep(S, h, F, seen, dels, closed);
      }
    }
  }

  lemma {:induction false} CleanFront(m: map<Id, Contract>, ops: seq<Op>, op: Op)
    requires Clean(m, ops + [op])
    ensures Clean(m, ops) && Names(m, op) && forall i :: 0 <= i < |ops| ==> ops[i].key != op.key
  {
    var all := ops + [op];
    assert all[|ops|] == op;
    forall i | 0 <= i < |ops| ensures Names(m, ops[i]) && ops[i].key != op.key { assert all[i] == ops[i]; }
    forall i, j | 0 <= i < j < |ops| ensures ops[i].key != ops[j].key { assert all[i] == ops[i] && all[j] == ops[j]; }
  }

  lemma {:induction false} SwapsStep(S: State, H: History, h: nat, L: seq<Leg>)
    requires SwapsOk(S.swaps, S.nonces, H.closed) && AllOk(S, h, L) && Fresh(L, {})
    ensures SwapsOk(Run(S.swaps, SwapDels(L) + SwapPuts(L)), S.nonces + NewNonces(L),
                    H.closed + ClosedNonces(S.swaps, SwapDels(L)))
  {
    SwapDelsClean(S, h, L, {});
    SwapOpsClean(S, h, L);
    forall i | 0 <= i < |SwapDels(L)| ensures SwapDels(L)[i].Del? { SwapDelMarked(L, i); }
    DelsKeep(S, SwapDels(L), H.closed);
    PutsKeep(S, h, L, {}, SwapDels(L), H.closed + ClosedNonces(S.swaps, SwapDels(L)));
  }
}
