/** The chain state as the node keeps it: block templates, validation, application and the snapshot
    check, over every run of blocks. */
module Ledger {
  import opened Params
  import opened Wrappers
  import opened Sequences
  import opened Groups
  import opened Accumulators
  import opened Contracts
  import opened HiddenValue
  import opened LedgerModel
  import opened LedgerEffects
  import opened LedgerSteps
  import opened LedgerBalance
  import opened LedgerChecks
  import opened LedgerRuns
  import M = Merkle

  /** The root of an append-only list, taken to determine the list. */
  datatype Root<X> = RootOf(leaves: seq<X>)

  /** What no other root of the header binds; the disk-backed sets enter by order-free commitments.
      The state root is taken to determine it (StateRoot proves that its preimage does). */
  datatype Residue = Residue(emitted: nat, pool: nat, spent: set<Key>, tags: set<nat>, primes: set<nat>,
                             nonces: set<Id>, pqNull: set<Id>, anchors: seq<nat>, zkNull: set<nat>,
                             swaps: map<Id, Contract>, vaults: map<Id, Contract>, pqUtxo: map<Id, Contract>)

  function ResidueOf(S: State): Residue {
    Residue(S.emitted, S.pool, S.spent, (set t | t in S.tags), (set p | p in S.primes), S.nonces, S.pqNull,
            S.anchors, S.zkNull, S.swaps, S.vaults, S.pqUtxo)
  }

  /** The commitments: txRoot and numTxs to the transactions, stateRoot to the state before the block, the
      others to the state after it. */
  datatype Header<T> = Header(height: nat, txRoot: M.Digest, numTxs: nat, accValue: T, accSize: nat,
                              pqRoot: Root<Id>, nullRoot: Root<nat>, cmRoot: Root<Note>, stateRoot: Residue)

  /** What a block lists: its coinbase, then the other transactions. */
  datatype Item = Mint(coinbase: Coinbase) | Transfer(tx: Tx)

  function TxIds(idOf: Item -> M.Id, b: Block): (ids: seq<M.Id>)
    ensures |ids| == |b.txs| + 1
  {
    [idOf(Mint(b.coinbase))] + seq(|b.txs|, i requires 0 <= i < |b.txs| => idOf(Transfer(b.txs[i])))
  }

  /** The header lists the block's transactions, no id twice. */
  predicate Seals<T>(idOf: Item -> M.Id, hdr: Header<T>, b: Block) {
    Distinct(TxIds(idOf, b)) && hdr.txRoot == M.Root(TxIds(idOf, b)) && hdr.numTxs == |b.txs| + 1
  }

  /** A header seals one list of transactions. */
  lemma {:induction false} HeaderBindsTxs<T>(idOf: Item -> M.Id, hdr: Header<T>, b: Block, c: Block)
    requires Seals(idOf, hdr, b) && Seals(idOf, hdr, c)
    ensures TxIds(idOf, b) == TxIds(idOf, c)
  {
    M.MerkleRootInjective(TxIds(idOf, b), TxIds(idOf, c));
  }

  ghost predicate Commits<T(!new)>(G: Group<T>, hdr: Header<T>, S: State) {
    && hdr.height == S.height && hdr.accValue == PowZ(G, G.gen, Product(S.primes)) && hdr.accSize == |S.primes|
    && hdr.pqRoot == RootOf(S.pqKeys) && hdr.nullRoot == RootOf(S.tags) && hdr.cmRoot == RootOf(S.notes)
  }

  /** The header of a block that leads from one state to another. */
  ghost predicate Links<T(!new)>(G: Group<T>, hdr: Header<T>, before: State, after: State) {
    Commits(G, hdr, after) && hdr.stateRoot == ResidueOf(before)
  }

  class Chain<T(!new,==)> {
    const G: Group<T>
    const idOf: Item -> M.Id
    /** The live accumulator over all output primes. */
    const acc: Accumulator<T>
    /** Everything else the node keeps; applying a block rewrites it part by part. */
    var s: State
    var tip: Header<T>
    /** The state root of s, if it was computed since s last changed. */
    var memo: Option<Residue>

    /** The accumulator object holds the primes of all outputs. */
    ghost predicate AccOk()
      reads this`s, acc
    {
      acc.G == G && acc.valueOnly && acc.Valid() && acc.log == s.primes
    }

    /** Between calls: the state is that of a run of valid blocks from genesis, so all that LedgerRuns
        proves of runs holds of it, and the tip header commits to it. */
    ghost predicate Valid()
      reads this, acc
    {
      AccOk() && Reachable(s) && Commits(G, tip, s) && MemoOk()
    }

    ghost predicate MemoOk()
      reads this`s, this`memo
    {
      memo.Some? ==> memo.value == ResidueOf(s)
    }

    /** stateRootLocked, computed at most once per state. */
    method StateRoot() returns (r: Residue)
      requires MemoOk()
      modifies this`memo
      ensures MemoOk() && r == ResidueOf(s)
    {
      if memo.Some? {
        return memo.value;
      }
      r := ResidueOf(s);
      memo := Some(r);
    }

    /** initGenesis: a block that mints nothing. */
    constructor (G: Group<T>, idOf: Item -> M.Id)
      requires Abelian(G)
      ensures Valid() && this.G == G && this.idOf == idOf && fresh(acc) && IsGenesis(s)
      ensures Seals(idOf, tip, Block(0, Coinbase([], 0, 0), []))
    {
      this.G, this.idOf := G, idOf;
      acc := new Accumulator(G, true);
      var zero: nat := 0;
      var start := State(zero, [], [], {}, [], [], [], {}, map[], {}, map[], map[], [], {}, zero, zero);
      s := start;
      var genesis := Block(zero, Coinbase([], zero, zero), []);
      tip := Header(zero, M.Root(TxIds(idOf, genesis)), 1, G.gen, zero, RootOf([]), RootOf([]), RootOf([]),
                    ResidueOf(start));
      memo := None;
      new;
      GenesisReachable(s);
      GenesisCommits(G, tip, s);
    }

    // ------------------------------------------------------------------------- templates

    /** The template's accumulator prediction, which skips primes it has seen or that exist. */
    method PredictPrimes(L: seq<Leg>) returns (prod: int, added: nat)
      ensures Distinct(s.primes + NewPrimes(L)) ==> prod == Product(NewPrimes(L)) && added == |NewPrimes(L)|
    {
      prod, added := 1, 0;
      var seen: set<nat> := {};
      for i := 0 to |L|
        invariant Distinct(s.primes + NewPrimes(L)) ==>
                    prod == Product(NewPrimes(L[..i])) && added == |NewPrimes(L[..i])|
                          && seen == Positions(NewPrimes(L[..i]))
      {
        Prefix(L, i);
        NewPrimesGrow(s.primes, L, i);
        if L[i].Out? && L[i].prime !in seen && L[i].prime !in s.primes {
          prod, added, seen := prod * L[i].prime, added + 1, seen + {L[i].prime};
        }
      }
      assert L[..|L|] == L;
    }

    method PredictAcc(L: seq<Leg>) returns (value: T, size: nat)
      requires AccOk()
      ensures Distinct(s.primes + NewPrimes(L)) ==>
                && value == PowZ(G, G.gen, Product(s.primes + NewPrimes(L)))
                && size == |s.primes + NewPrimes(L)|
    {
      var prod, added := PredictPrimes(L);
      value := Exp(G, acc.acc, prod);
      size := acc.Size();
      size := size + added;
      AccumulatedPrimes(G, s.primes, NewPrimes(L));
    }

    /** BlockTemplate's commitments agree with what validation expects of a valid block. */
    method Template(b: Block) returns (hdr: Header<T>)
      requires Valid()
      modifies this`memo
      ensures Valid() && (BlockOk(s, b) ==> Links(G, hdr, s, After(s, b)))
      ensures Distinct(TxIds(idOf, b)) ==> Seals(idOf, hdr, b)
    {
      var root := StateRoot();
      var txRoot := M.MerkleRoot(TxIds(idOf, b));
      var L := AllLegs(b);
      var predicted, size := PredictAcc(L);
      hdr := Header(s.height + 1, txRoot, |b.txs| + 1, predicted, size,
                    RootOf(s.pqKeys + NewPqKeys(L)), RootOf(s.tags + NewTags(L)), RootOf(s.notes + NewNotes(L)), root);
      if BlockOk(s, b) {
        NewPrimesDistinct(s, b);
        LinksAfter(G, hdr, s, b);
      }
    }

    // ------------------------------------------------------------------------ validation

    /** The transactions against the header. */
    method CheckSeal(b: Block, hdr: Header<T>) returns (ok: bool)
      ensures ok <==> Seals(idOf, hdr, b)
    {
      var ids := TxIds(idOf, b);
      var seen: set<M.Id> := {};
      for i := 0 to |ids|
        invariant seen == Positions(ids[..i]) && Distinct(ids[..i])
      {
        if ids[i] in seen {
          return false;
        }
        seen := seen + {ids[i]};
      }
      var root := M.MerkleRoot(ids);
      return hdr.txRoot == root && hdr.numTxs == |b.txs| + 1;
    }

    /** validateBlockLocked with the header commitments. */
    method Validate(b: Block, hdr: Header<T>) returns (ok: bool)
      requires Valid()
      modifies this`memo
      ensures Valid() && (ok <==> Seals(idOf, hdr, b) && BlockOk(s, b) && Links(G, hdr, s, After(s, b)))
    {
      RunFacts(s);
      ok := CheckSeal(b, hdr);
      if !ok {
        return;
      }
      ok := CheckBlock(s, b);
      if !ok {
        return;
      }
      var L := AllLegs(b);
      var ps := NewPrimes(L);
      var prod := ProductOfSeq(ps);
      var predicted := Exp(G, acc.acc, prod);
      AccumulatedPrimes(G, s.primes, ps);
      var size := acc.Size();
      ok := hdr.height == b.height && hdr.accValue == predicted && hdr.accSize == size + |ps|
            && hdr.pqRoot == RootOf(s.pqKeys + NewPqKeys(L)) && hdr.nullRoot == RootOf(s.tags + NewTags(L))
            && hdr.cmRoot == RootOf(s.notes + NewNotes(L));
      if ok {
        var root := StateRoot();
        ok := root == hdr.stateRoot;
      }
    }

    // ----------------------------------------------------------------------- application

    /** Coins and primes of the outputs, with the product of the primes. */
    method PushOutputs(L: seq<Leg>, h: nat, n: nat) returns (prod: int, added: nat)
      modifies this`s
      ensures s == old(s).(coins := old(s).coins + NewCoins(L, h, n), primes := old(s).primes + NewPrimes(L))
      ensures prod == Product(NewPrimes(L)) && added == |NewPrimes(L)|
    {
      prod, added := 1, 0;
      for i := 0 to |L|
        invariant s == old(s).(coins := old(s).coins + NewCoins(L[..i], h, n),
              primes := old(s).primes + NewPrimes(L[..i]))
        invariant prod == Product(NewPrimes(L[..i])) && added == |NewPrimes(L[..i])|
      {
        NewPrimesGrow([], L, i);
        NewCoinsGrow(L, h, n, i);
        if L[i].Out? {
          prod, added := prod * L[i].prime, added + 1;
          Snoc(old(s).primes, NewPrimes(L[..i]), L[i].prime);
          Snoc(old(s).coins, NewCoins(L[..i], h, n), Coin(L[i].key, L[i].value, h, i < n, L[i].lock));
          s := s.(primes := s.primes + [L[i].prime],
                  coins := s.coins + [Coin(L[i].key, L[i].value, h, i < n, L[i].lock)]);
        }
      }
      assert L[..|L|] == L;
    }

    /** Outputs enter the accumulator by one batched exponentiation. */
    method AddOutputs(L: seq<Leg>, h: nat, n: nat)
      requires AccOk()
      modifies this`s, acc
      ensures AccOk()
      ensures s == old(s).(coins := old(s).coins + NewCoins(L, h, n), primes := old(s).primes + NewPrimes(L))
    {
      var prod, added := PushOutputs(L, h, n);
      acc.AddBatch(prod, added, NewPrimes(L));
    }

    /** Commitment-tree leaves, then recordCMAnchorLocked. */
    method AddNotes(L: seq<Leg>)
      modifies this`s
      ensures s == old(s).(notes := old(s).notes + NewNotes(L),
                           anchors := Anchored(old(s).anchors, |old(s).notes + NewNotes(L)|))
    {
      for i := 0 to |L|
        invariant s == old(s).(notes := old(s).notes + NewNotes(L[..i]))
      {
        Prefix(L, i);
        if L[i].ZkOut? || L[i].Czk? {
          Snoc(old(s).notes, NewNotes(L[..i]), L[i].leaf);
          s := s.(notes := s.notes + [L[i].leaf]);
          assert NewNotes(L[..i + 1]) == NewNotes(L[..i]) + [L[i].leaf];
        } else {
          assert NewNotes(L[..i + 1]) == NewNotes(L[..i]);
        }
      }
      assert L[..|L|] == L;
      var anchors := RecordAnchor(s.anchors, |s.notes|);
      s := s.(anchors := anchors);
    }

    /** Transparent and anonymous inputs: the spent set and the shared nullifier log. */
    method RecordSpends(L: seq<Leg>)
      modifies this`s
      ensures s == old(s).(spent := old(s).spent + NewRefs(L), tags := old(s).tags + NewTags(L))
    {
      for i := 0 to |L|
        invariant s == old(s).(spent := old(s).spent + NewRefs(L[..i]), tags := old(s).tags + NewTags(L[..i]))
      {
        Prefix(L, i);
        match L[i] {
          case Spend(ref, image, _) =>
            Snoc(old(s).tags, NewTags(L[..i]), image.core);
            s := s.(spent := s.spent + {ref}, tags := s.tags + [image.core]);
            assert NewTags(L[..i + 1]) == NewTags(L[..i]) + [image.core]
                  && NewRefs(L[..i + 1]) == NewRefs(L[..i]) + {ref};
          case Anon(_, tag, _, _) =>
            Snoc(old(s).tags, NewTags(L[..i]), tag.core);
            s := s.(tags := s.tags + [tag.core]);
            assert NewTags(L[..i + 1]) == NewTags(L[..i]) + [tag.core] && NewRefs(L[..i + 1]) == NewRefs(L[..i]);
          case _ =>
            assert NewTags(L[..i + 1]) == NewTags(L[..i]) && NewRefs(L[..i + 1]) == NewRefs(L[..i]);
        }
      }
      assert L[..|L|] == L;
    }

    method RecordNullifiers(L: seq<Leg>)
      modifies this`s
      ensures s == old(s).(zkNull := old(s).zkNull + set x | x in NewNullifiers(L))
    {
      for i := 0 to |L|
        invariant s == old(s).(zkNull := old(s).zkNull + set x | x in NewNullifiers(L[..i]))
      {
        Prefix(L, i);
        if L[i].ZkIn? || L[i].Czk? {
          s := s.(zkNull := s.zkNull + {L[i].nullifier});
          assert NewNullifiers(L[..i + 1]) == NewNullifiers(L[..i]) + [L[i].nullifier];
        } else {
          assert NewNullifiers(L[..i + 1]) == NewNullifiers(L[..i]);
        }
      }
      assert L[..|L|] == L;
    }

    /** Claimed and refunded swaps are deleted. */
    method CloseSwaps(L: seq<Leg>)
      modifies this`s
      ensures s == old(s).(swaps := Run(old(s).swaps, SwapDels(L)))
    {
      for i := 0 to |L|
        invariant s == old(s).(swaps := Run(old(s).swaps, SwapDels(L[..i])))
      {
        SwapDelsMore(old(s).swaps, L, i);
        if L[i].SwapIn? {
          s := s.(swaps := s.swaps - {L[i].swap});
        }
      }
      assert L[..|L|] == L;
    }

    /** New swaps are registered with their nonces. */
    method OpenSwaps(L: seq<Leg>)
      modifies this`s
      ensures s == old(s).(swaps := Run(old(s).swaps, SwapPuts(L)), nonces := old(s).nonces + NewNonces(L))
    {
      for i := 0 to |L|
        invariant s == old(s).(swaps := Run(old(s).swaps, SwapPuts(L[..i])),
              nonces := old(s).nonces + NewNonces(L[..i]))
      {
        SwapPutsMore(old(s).swaps, old(s).nonces, L, i);
        if L[i].SwapOut? {
          s := s.(swaps := s.swaps[L[i].swap := Swap(L[i].amount, L[i].unlock, L[i].nonce)],
                nonces := s.nonces + {L[i].nonce});
        }
      }
      assert L[..|L|] == L;
    }

    /** Vault claims and deposits. The pool covers every claim, so its defensive reset to zero is never
        reached. */
    method SettleVaults(L: seq<Leg>, h: nat)
      requires YieldSum(L) <= s.pool && Clean(s.vaults, VaultOps(L, h))
      modifies this`s
      ensures s == old(s).(vaults := Run(old(s).vaults, VaultOps(L, h)), pool := old(s).pool - YieldSum(L))
    {
      ghost var lives, pays := VaultPlan(s.vaults, L, h);
      for i := 0 to |L|
        invariant pays[i] <= pays[|L|] && s == old(s).(vaults := lives[i], pool := old(s).pool - pays[i])
      {
        assert VaultTurn(L, h, lives, pays, i);
        SettleVault(L[i], h);
      }
    }

    /** One leg of the vault pass, for a claim on a live vault that the pool covers: the defensive
        reset of the pool to zero is never reached. */
    method SettleVault(leg: Leg, h: nat)
      requires leg.VaultIn? ==> leg.vault in s.vaults && leg.interest <= s.pool
      modifies this`s
      ensures s == old(s).(vaults := VaultStep(old(s).vaults, leg, h),
                           pool := old(s).pool - if leg.VaultIn? then leg.interest else 0)
    {
      if leg.VaultIn? {
        PayClaim(leg.vault, leg.interest);
      } else if leg.VaultOut? {
        var rate := if VaultRate(leg.term) >= 0 then VaultRate(leg.term) else 0;
        s := s.(vaults := s.vaults[leg.vault := Vault(leg.amount, leg.term, rate, h)]);
      }
    }

    /** One claim: the stated yield leaves the pool and the vault closes. */
    method PayClaim(k: Id, interest: nat)
      modifies this`s
      ensures k !in old(s).vaults ==> s == old(s)
      ensures k in old(s).vaults ==>
                s == old(s).(vaults := old(s).vaults - {k},
                             pool := if interest <= old(s).pool then old(s).pool - interest else 0)
    {
      if k !in s.vaults {
        return;
      }
      if interest <= s.pool {
        s := s.(pool := s.pool - interest);
      } else {
        s := s.(pool := 0);
      }
      s := s.(vaults := s.vaults - {k});
    }

    method AddPq(L: seq<Leg>)
      modifies this`s
      ensures s == old(s).(pqUtxo := Run(old(s).pqUtxo, PqPuts(L)), pqKeys := old(s).pqKeys + NewPqKeys(L))
    {
      for i := 0 to |L|
        invariant s == old(s).(pqUtxo := Run(old(s).pqUtxo, PqPuts(L[..i])),
              pqKeys := old(s).pqKeys + NewPqKeys(L[..i]))
      {
        PqPutsMore(old(s).pqUtxo, old(s).pqKeys, L, i);
        if L[i].PqOut? {
          s := s.(pqUtxo := s.pqUtxo[L[i].pq := PqCoin(L[i].amount)], pqKeys := s.pqKeys + [L[i].pq]);
        }
      }
      assert L[..|L|] == L;
    }

    method SpendPq(L: seq<Leg>)
      modifies this`s
      ensures s == old(s).(pqUtxo := Run(old(s).pqUtxo, PqDels(L)), pqNull := old(s).pqNull + NewPqNulls(L))
    {
      for i := 0 to |L|
        invariant s == old(s).(pqUtxo := Run(old(s).pqUtxo, PqDels(L[..i])),
              pqNull := old(s).pqNull + NewPqNulls(L[..i]))
      {
        PqDelsMore(old(s).pqUtxo, old(s).pqNull, L, i);
        if L[i].PqIn? {
          s := s.(pqUtxo := s.pqUtxo - {L[i].pq}, pqNull := s.pqNull + {L[i].pq});
        }
      }
      assert L[..|L|] == L;
    }

    /** The base reward is counted as emitted, saturating; its share goes to the pool unless that
        would overflow. */
    method Emit()
      modifies this`s
      ensures s == old(s).(emitted := Saturating(old(s).emitted, BlockReward(old(s).emitted)),
                           pool := if old(s).pool + PoolShare(old(s).emitted) <= MAX64
                                   then old(s).pool + PoolShare(old(s).emitted) else old(s).pool)
    {
      var base, share := BlockReward(s.emitted), PoolShare(s.emitted);
      if s.emitted + base > MAX64 {
        s := s.(emitted := MAX64);
      } else {
        s := s.(emitted := s.emitted + base);
      }
      if s.pool + share <= MAX64 {
        s := s.(pool := s.pool + share);
      }
    }

    /** applyBlock: the passes over a validated block, in order. */
    method Mutate(b: Block)
      requires AccOk() && YieldSum(AllLegs(b)) <= s.pool && Clean(s.vaults, VaultOps(AllLegs(b), b.height))
      modifies this`s, this`memo, acc
      ensures AccOk() && MemoOk() && s == After(old(s), b)
    {
      memo := None;
      var L := AllLegs(b);
      AddOutputs(L, b.height, |b.coinbase.outs|);
      AddNotes(L);
      AddPq(L);
      RecordSpends(L);
      CloseSwaps(L);
      SpendPq(L);
      RecordNullifiers(L);
      OpenSwaps(L);
      SettleVaults(L, b.height);
      Emit();
      s := s.(height := b.height);
      RunConcat(old(s).swaps, SwapDels(L), SwapPuts(L));
      RunConcat(old(s).pqUtxo, PqPuts(L), PqDels(L));
    }

    /** One block offered to the chain: taken exactly when valid, refused without a trace. */
    method Extend(b: Block, hdr: Header<T>) returns (ok: bool)
      requires Valid()
      modifies this, acc
      ensures Valid()
      ensures ok <==> Seals(idOf, hdr, b) && BlockOk(old(s), b) && Links(G, hdr, old(s), After(old(s), b))
      ensures ok ==> s == After(old(s), b) && tip == hdr
      ensures !ok ==> s == old(s) && tip == old(tip)
    {
      ok := Validate(b, hdr);
      if ok {
        Applicable(s, b);
        Take(b, hdr);
      }
    }

    /** Application of a block that leads to a reachable state to which its header commits. */
    method Take(b: Block, hdr: Header<T>)
      requires AccOk() && Reachable(After(s, b)) && Commits(G, hdr, After(s, b))
      requires YieldSum(AllLegs(b)) <= s.pool && Clean(s.vaults, VaultOps(AllLegs(b), b.height))
      modifies this, acc
      ensures Valid() && s == After(old(s), b) && tip == hdr
    {
      Mutate(b);
      tip := hdr;
    }

    /** VerifyTransfer: a snapshot from another node, with the accumulator value it brings, against the
        header of its height and the next one. */
    method VerifyTransfer(x: State, value: T, at: Header<T>, next: Header<T>) returns (ok: bool)
      ensures ok <==> && value == at.accValue && RootOf(x.tags) == at.nullRoot && RootOf(x.pqKeys) == at.pqRoot
                      && RootOf(x.notes) == at.cmRoot && ResidueOf(x) == next.stateRoot
      ensures forall S, T' :: ok && Commits(G, at, S) && Links(G, next, S, T') ==>
                value == PowZ(G, G.gen, Product(S.primes)) && Agree(x, S)
    {
      ok := value == at.accValue && RootOf(x.tags) == at.nullRoot && RootOf(x.pqKeys) == at.pqRoot
            && RootOf(x.notes) == at.cmRoot && ResidueOf(x) == next.stateRoot;
      forall S, T' | ok && Commits(G, at, S) && Links(G, next, S, T')
        ensures value == PowZ(G, G.gen, Product(S.primes)) && Agree(x, S)
      {
        RootsDetermine(x, S);
      }
    }

    /** verifySnapshotLocked never refuses a node's own state. */
    method VerifySnapshot() returns (ok: bool)
      requires Valid()
      ensures ok
    {
      ok := acc.acc == tip.accValue && RootOf(s.tags) == tip.nullRoot && RootOf(s.pqKeys) == tip.pqRoot
            && RootOf(s.notes) == tip.cmRoot;
    }
  }

  /** Equal in all that validation reads besides the coin table, up to the order of the primes. */
  ghost predicate Agree(X: State, S: State) {
    && X.spent == S.spent && X.tags == S.tags && X.notes == S.notes && X.anchors == S.anchors
    && X.zkNull == S.zkNull && X.swaps == S.swaps && X.nonces == S.nonces && X.vaults == S.vaults
    && X.pqUtxo == S.pqUtxo && X.pqKeys == S.pqKeys && X.pqNull == S.pqNull
    && X.emitted == S.emitted && X.pool == S.pool && (forall p :: p in X.primes <==> p in S.primes)
  }

  lemma {:induction false} RootsDetermine(X: State, S: State)
    requires X.tags == S.tags && X.pqKeys == S.pqKeys && X.notes == S.notes && ResidueOf(X) == ResidueOf(S)
    ensures Agree(X, S)
  {
    assert forall p :: p in X.primes <==> p in ResidueOf(X).primes;
    assert forall p :: p in S.primes <==> p in ResidueOf(S).primes;
  }

  /** recordCMAnchorLocked within one epoch. */
  method RecordAnchor(known: seq<nat>, n: nat) returns (anchors: seq<nat>)
    ensures anchors == Anchored(known, n)
  {
    anchors := known;
    if n == 0 {
      return;
    }
    if n !in anchors {
      anchors := anchors + [n];
    }
    ghost var more := anchors;
    while |anchors| > ANCHOR_WINDOW
      invariant |anchors| <= |more| && anchors == more[|more| - |anchors|..]
      invariant |more| > ANCHOR_WINDOW ==> |anchors| >= ANCHOR_WINDOW
      invariant |more| <= ANCHOR_WINDOW ==> anchors == more
    {
      anchors := anchors[1..];
    }
  }

  // ------------------------------------------------------------------------------ lemmas

  lemma {:induction false} Applicable(S: State, b: Block)
    requires Reachable(S) && BlockOk(S, b)
    ensures Reachable(After(S, b))
    ensures YieldSum(AllLegs(b)) <= S.pool && Clean(S.vaults, VaultOps(AllLegs(b), b.height))
  {
    LegsOk(S, b);
    VaultOpsClean(S, b.height, AllLegs(b), {});
    RunGrows(S, b);
  }

  lemma {:induction false} LinksAfter<T(!new)>(G: Group<T>, hdr: Header<T>, S: State, b: Block)
    requires hdr.height == b.height && hdr.accValue == PowZ(G, G.gen, Product(S.primes + NewPrimes(AllLegs(b))))
    requires hdr.accSize == |S.primes + NewPrimes(AllLegs(b))| && hdr.pqRoot == RootOf(S.pqKeys + NewPqKeys(AllLegs(b)))
    requires hdr.nullRoot == RootOf(S.tags + NewTags(AllLegs(b))) && hdr.stateRoot == ResidueOf(S)
    requires hdr.cmRoot == RootOf(S.notes + NewNotes(AllLegs(b)))
    ensures Links(G, hdr, S, After(S, b))
  {
  }

  lemma {:induction false} NewPrimesDistinct(S: State, b: Block)
    requires Reachable(S) && BlockOk(S, b)
    ensures Distinct(S.primes + NewPrimes(AllLegs(b)))
  {
    RunFacts(S);
    LegsOk(S, b);
    PrimesFresh(S, b.height, AllLegs(b), {}, |b.coinbase.outs|);
  }

  lemma {:induction false} GenesisCommits<T(!new)>(G: Group<T>, hdr: Header<T>, S: State)
    requires Abelian(G) && IsGenesis(S)
    requires hdr.height == 0 && hdr.accValue == G.gen && hdr.accSize == 0
    requires hdr.pqRoot.leaves == [] && hdr.nullRoot.leaves == [] && hdr.cmRoot.leaves == []
    ensures Commits(G, hdr, S)
  {
    PowZFirst(G, G.gen);
  }

  method ProductOfSeq(ps: seq<nat>) returns (prod: int)
    ensures prod == Product(ps)
  {
    prod := 1;
    for i := 0 to |ps|
      invariant prod == Product(ps[..i])
    {
      ProductMore(ps[..i], ps[i]);
      assert ps[..i + 1] == ps[..i] + [ps[i]];
      prod := prod * ps[i];
    }
    assert ps[..|ps|] == ps;
  }

  lemma {:induction false} ProductMore(s: seq<int>, p: int)
    ensures Product(s + [p]) == Product(s) * p
  {
    assert (s + [p])[..|s + [p]| - 1] == s;
  }

  lemma {:induction false} RunMore(m: map<Id, Contract>, ops: seq<Op>, op: Op)
    ensures Run(m, ops + [op]) == Contracts.Apply(Run(m, ops), op)
  {
    assert (ops + [op])[..|ops + [op]| - 1] == ops;
  }

  lemma {:induction false} Snoc<X>(a: seq<X>, b: seq<X>, x: X)
    ensures a + b + [x] == a + (b + [x])
  {
  }

  lemma {:induction false} SwapDelsMore(m: map<Id, Contract>, L: seq<Leg>, i: nat)
    requires i < |L|
    ensures var r := Run(m, SwapDels(L[..i]));
          Run(m, SwapDels(L[..i + 1])) == if L[i].SwapIn? then r - {L[i].swap} else r
  {
    Prefix(L, i);
    if L[i].SwapIn? {
      assert SwapDels(L[..i + 1]) == SwapDels(L[..i]) + [Del(L[i].swap)];
      RunMore(m, SwapDels(L[..i]), Del(L[i].swap));
    } else {
      assert SwapDels(L[..i + 1]) == SwapDels(L[..i]);
    }
  }

  lemma {:induction false} SwapPutsMore(m: map<Id, Contract>, nonces: set<Id>, L: seq<Leg>, i: nat)
    requires i < |L|
    ensures var r := Run(m, SwapPuts(L[..i]));
      Run(m, SwapPuts(L[..i + 1])) == if L[i].SwapOut?
            then r[L[i].swap := Swap(L[i].amount, L[i].unlock, L[i].nonce)] else r
    ensures var r := nonces + NewNonces(L[..i]);
          nonces + NewNonces(L[..i + 1]) == if L[i].SwapOut? then r + {L[i].nonce} else r
  {
    Prefix(L, i);
    if L[i].SwapOut? {
      var op := Put(L[i].swap, Swap(L[i].amount, L[i].unlock, L[i].nonce));
      assert SwapPuts(L[..i + 1]) == SwapPuts(L[..i]) + [op];
      RunMore(m, SwapPuts(L[..i]), op);
    } else {
      assert SwapPuts(L[..i + 1]) == SwapPuts(L[..i]);
    }
  }

  lemma {:induction false} PqPutsMore(m: map<Id, Contract>, keys: seq<Id>, L: seq<Leg>, i: nat)
    requires i < |L|
    ensures var r := Run(m, PqPuts(L[..i]));
      Run(m, PqPuts(L[..i + 1])) == if L[i].PqOut? then r[L[i].pq := PqCoin(L[i].amount)] else r
    ensures var r := keys + NewPqKeys(L[..i]); keys + NewPqKeys(L[..i + 1]) == if L[i].PqOut? then r + [L[i].pq] else r
  {
    PqKeysMore(keys, L, i);
    Prefix(L, i);
    if L[i].PqOut? {
      var op := Put(L[i].pq, PqCoin(L[i].amount));
      assert PqPuts(L[..i + 1]) == PqPuts(L[..i]) + [op];
      RunMore(m, PqPuts(L[..i]), op);
    } else {
      assert PqPuts(L[..i + 1]) == PqPuts(L[..i]);
    }
  }

  lemma {:induction false} PqKeysMore(keys: seq<Id>, L: seq<Leg>, i: nat)
    requires i < |L|
    ensures var r := keys + NewPqKeys(L[..i]); keys + NewPqKeys(L[..i + 1]) == if L[i].PqOut? then r + [L[i].pq] else r
  {
    Prefix(L, i);
    if L[i].PqOut? {
      assert NewPqKeys(L[..i + 1]) == NewPqKeys(L[..i]) + [L[i].pq];
      Snoc(keys, NewPqKeys(L[..i]), L[i].pq);
    } else {
      assert NewPqKeys(L[..i + 1]) == NewPqKeys(L[..i]);
    }
  }

  lemma {:induction false} PqDelsMore(m: map<Id, Contract>, nulls: set<Id>, L: seq<Leg>, i: nat)
    requires i < |L|
    ensures var r := Run(m, PqDels(L[..i])); Run(m, PqDels(L[..i + 1])) == if L[i].PqIn? then r - {L[i].pq} else r
    ensures var r := nulls + NewPqNulls(L[..i]);
          nulls + NewPqNulls(L[..i + 1]) == if L[i].PqIn? then r + {L[i].pq} else r
  {
    Prefix(L, i);
    if L[i].PqIn? {
      assert PqDels(L[..i + 1]) == PqDels(L[..i]) + [Del(L[i].pq)];
      RunMore(m, PqDels(L[..i]), Del(L[i].pq));
    } else {
      assert PqDels(L[..i + 1]) == PqDels(L[..i]);
    }
  }

  /** Folding the new primes into the live value gives the power of all primes. */
  lemma {:induction false} AccumulatedPrimes<T(!new)>(G: Group<T>, old_: seq<int>, more: seq<int>)
    requires Abelian(G)
    ensures PowZ(G, PowZ(G, G.gen, Product(old_)), Product(more)) == PowZ(G, G.gen, Product(old_ + more))
  {
    PowZMul(G, G.gen, Product(old_), Product(more));
    ProductConcat(old_, more);
  }

  lemma {:induction false} NewPrimesPrefix(L: seq<Leg>, i: nat)
    requires i <= |L|
    ensures |NewPrimes(L[..i])| <= |NewPrimes(L)| && NewPrimes(L)[..|NewPrimes(L[..i])|] == NewPrimes(L[..i])
  {
    if i == |L| {
      assert L[..i] == L;
    } else {
      var F := L[..|L| - 1];
      assert F[..i] == L[..i];
      NewPrimesPrefix(F, i);
    }
  }

  lemma {:induction false} NewPrimesGrow(primes: seq<nat>, L: seq<Leg>, i: nat)
    requires i < |L|
    ensures L[i].Out? ==> Product(NewPrimes(L[..i + 1])) == Product(NewPrimes(L[..i])) * L[i].prime
    ensures L[i].Out? ==> NewPrimes(L[..i + 1]) == NewPrimes(L[..i]) + [L[i].prime]
    ensures !L[i].Out? ==> NewPrimes(L[..i + 1]) == NewPrimes(L[..i])
    ensures L[i].Out? && Distinct(primes + NewPrimes(L)) ==> L[i].prime !in primes && L[i].prime !in NewPrimes(L[..i])
  {
    Prefix(L, i);
    if L[i].Out? {
      ProductMore(NewPrimes(L[..i]), L[i].prime);
      NewPrimesPrefix(L, i + 1);
      if Distinct(primes + NewPrimes(L)) {
        var n := |NewPrimes(L[..i])|;
        var all := primes + NewPrimes(L);
        assert all[|primes| + n] == NewPrimes(L)[..n + 1][n] == L[i].prime;
        assert forall j :: 0 <= j < |primes| ==> all[j] == primes[j];
        var front := NewPrimes(L[..i]);
        forall j | 0 <= j < n ensures front[j] == all[|primes| + j] {
          assert front[j] == NewPrimes(L)[..n + 1][j];
        }
      }
    }
  }

  function VaultStep(m: map<Id, Contract>, leg: Leg, h: nat): map<Id, Contract> {
    if VaultOpsOf(leg, h) == [] then m else Contracts.Apply(m, VaultOpsOf(leg, h)[0])
  }

  /** One leg of the vault pass: what it leaves, what it pays so far, and that a claim is on a live vault. */
  ghost predicate VaultTurn(L: seq<Leg>, h: nat, lives: seq<map<Id, Contract>>, pays: seq<nat>, i: nat)
    requires i < |L| && |lives| == |pays| == |L| + 1
  {
    && lives[i + 1] == VaultStep(lives[i], L[i], h)
    && pays[i + 1] == pays[i] + (if L[i].VaultIn? then L[i].interest else 0) <= pays[|L|]
    && (L[i].VaultIn? ==> L[i].vault in lives[i])
  }

  /** All turns of the pass, from the vaults before it to those after it. */
  lemma {:induction false} VaultPlan(vaults: map<Id, Contract>, L: seq<Leg>, h: nat)
    returns (lives: seq<map<Id, Contract>>, pays: seq<nat>)
    requires Clean(vaults, VaultOps(L, h))
    ensures |lives| == |pays| == |L| + 1 && lives[0] == vaults && pays[0] == 0
    ensures lives[|L|] == Run(vaults, VaultOps(L, h)) && pays[|L|] == YieldSum(L)
    ensures forall i {:trigger VaultTurn(L, h, lives, pays, i)} :: 0 <= i < |L| ==> VaultTurn(L, h, lives, pays, i)
  {
    lives := seq(|L| + 1, i requires 0 <= i <= |L| => Run(vaults, VaultOps(L[..i], h)));
    pays := seq(|L| + 1, i requires 0 <= i <= |L| => YieldSum(L[..i]));
    assert L[..|L|] == L;
    forall i | 0 <= i < |L| ensures VaultTurn(L, h, lives, pays, i) {
      VaultsMore(vaults, L, h, i);
      ClaimIsLive(vaults, L, h, i);
    }
  }

  lemma {:induction false} VaultsMore(vaults: map<Id, Contract>, L: seq<Leg>, h: nat, i: nat)
    requires i < |L|
    ensures YieldSum(L[..i + 1]) == YieldSum(L[..i]) + (if L[i].VaultIn? then L[i].interest else 0) <= YieldSum(L)
    ensures Run(vaults, VaultOps(L[..i + 1], h)) == VaultStep(Run(vaults, VaultOps(L[..i], h)), L[i], h)
  {
    Prefix(L, i);
    YieldGrows(L, i + 1);
    if VaultOpsOf(L[i], h) == [] {
      assert VaultOps(L[..i + 1], h) == VaultOps(L[..i], h);
    } else {
      assert VaultOps(L[..i + 1], h) == VaultOps(L[..i], h) + [VaultOpsOf(L[i], h)[0]];
      RunMore(vaults, VaultOps(L[..i], h), VaultOpsOf(L[i], h)[0]);
    }
  }

  lemma {:induction false} NewCoinsGrow(L: seq<Leg>, h: nat, n: nat, i: nat)
    requires i < |L|
    ensures NewCoins(L[..i + 1], h, n)
         == if L[i].Out? then NewCoins(L[..i], h, n) + [Coin(L[i].key, L[i].value, h, i < n, L[i].lock)]
               else NewCoins(L[..i], h, n)
  {
    Prefix(L, i);
  }

  /** A vault claimed in a clean list is still there when its claim is reached. */
  lemma {:induction false} ClaimIsLive(vaults: map<Id, Contract>, L: seq<Leg>, h: nat, i: nat)
    requires i < |L| && Clean(vaults, VaultOps(L, h))
    ensures L[i].VaultIn? ==> L[i].vault in Run(vaults, VaultOps(L[..i], h))
  {
    if L[i].VaultIn? { LiveClaim(vaults, L, h, i); }
  }

  lemma {:induction false} LiveClaim(vaults: map<Id, Contract>, L: seq<Leg>, h: nat, i: nat)
    requires i < |L| && L[i].VaultIn? && Clean(vaults, VaultOps(L, h))
    ensures L[i].vault in Run(vaults, VaultOps(L[..i], h))
  {
    Prefix(L, i);
    VaultOpsPrefix(L, h, i + 1);
    var ops := VaultOps(L, h);
    var n := |VaultOps(L[..i], h)|;
    assert ops[..n + 1] == VaultOps(L[..i], h) + [Del(L[i].vault)];
    assert ops[n] == ops[..n + 1][n];
    assert Names(vaults, ops[n]);
    forall j | 0 <= j < n ensures VaultOps(L[..i], h)[j].key != L[i].vault {
      assert VaultOps(L[..i], h)[j] == ops[..n + 1][j] == ops[j];
    }
    Untouched(vaults, VaultOps(L[..i], h), L[i].vault);
  }

  lemma {:induction false} VaultOpsPrefix(L: seq<Leg>, h: nat, i: nat)
    requires i <= |L|
    ensures |VaultOps(L[..i], h)| <= |VaultOps(L, h)| && VaultOps(L, h)[..|VaultOps(L[..i], h)|] == VaultOps(L[..i], h)
  {
    if i == |L| {
      assert L[..i] == L;
    } else {
      var F := L[..|L| - 1];
      assert F[..i] == L[..i];
      VaultOpsPrefix(F, h, i);
    }
  }
}
