/** Where value goes: each part of the state moves by exactly what the legs of a valid block say. */
module LedgerFlows {
  import opened Contracts
  import opened HiddenValue
  import opened LedgerModel
  import opened LedgerEffects

  /** The change a leg makes to each part. */
  datatype Flow = Flow(coins: int, swaps: int, vaults: int, notes: int, pool: int, pq: int)

  function FlowOf(S: State, leg: Leg): Flow {
    match leg
    case Spend(_, _, p) => Flow(-(p as int), 0, 0, 0, 0, 0)
    case Anon(_, _, p, _) => Flow(-(p as int), 0, 0, 0, 0, 0)
    case SwapIn(k, _) => Flow(0, if k in S.swaps then -(S.swaps[k].amount as int) else 0, 0, 0, 0, 0)
    case VaultIn(k, y) => Flow(0, 0, if k in S.vaults then -(S.vaults[k].amount as int) else 0, 0, -(y as int), 0)
    case SwapOut(_, _, a, _) => Flow(0, a, 0, 0, 0, 0)
    case VaultOut(_, a, _) => Flow(0, 0, a, 0, 0, 0)
    case Out(_, _, v, _) => Flow(v, 0, 0, 0, 0, 0)
    case ZkIn(_, _, a, _) => Flow(0, 0, 0, -(a as int), 0, 0)
    case ZkOut(_, a) => Flow(0, 0, 0, a, 0, 0)
    case Czk(_, _, f, _, _) => Flow(0, 0, 0, -(f as int), 0, 0)
    case PqIn(k) => Flow(0, 0, 0, 0, 0, if k in S.pqUtxo then -(S.pqUtxo[k].amount as int) else 0)
    case PqOut(_, a) => Flow(0, 0, 0, 0, 0, a)
  }

  function Plus(a: Flow, b: Flow): Flow {
    Flow(a.coins + b.coins, a.swaps + b.swaps, a.vaults + b.vaults, a.notes + b.notes, a.pool + b.pool, a.pq + b.pq)
  }

  function Flows(S: State, L: seq<Leg>): Flow {
    if L == [] then Flow(0, 0, 0, 0, 0, 0) else Plus(Flows(S, L[..|L| - 1]), FlowOf(S, L[|L| - 1]))
  }

  /** All parts but the post-quantum one. */
  function Classic(f: Flow): int {
    f.coins + f.swaps + f.vaults + f.notes + f.pool
  }

  lemma {:induction false} FlowsConcat(S: State, A: seq<Leg>, B: seq<Leg>)
    ensures Flows(S, A + B) == Plus(Flows(S, A), Flows(S, B))
  {
    if B == [] {
      assert A + B == A;
    } else {
      assert (A + B)[..|A + B| - 1] == A + B[..|B| - 1];
      FlowsConcat(S, A, B[..|B| - 1]);
    }
  }

  /** One leg: what validation counts on the two sides is what the leg moves. */
  lemma {:induction false} LegBalance(S: State, x: Leg)
    ensures var e := Entry(S, x); Classic(FlowOf(S, x)) == e.outs + e.publicOut - e.pseudo - e.publicIn
    ensures FlowOf(S, x).coins == Entry(S, x).outs - Entry(S, x).pseudo
    ensures FlowOf(S, x).pool == if x.VaultIn? then -(x.interest as int) else 0
  {
  }

  /** The two sides that validation compares are the flows of the parts. */
  lemma {:induction false} FlowsAreTally(S: State, L: seq<Leg>)
    ensures var y := TallyOf(S, L); Classic(Flows(S, L)) == y.outs + y.publicOut - y.pseudo - y.publicIn
    ensures Flows(S, L).coins == TallyOf(S, L).outs - TallyOf(S, L).pseudo
    ensures Flows(S, L).pool == -(YieldSum(L) as int)
  {
    if L != [] {
      FlowsAreTally(S, L[..|L| - 1]);
      LegBalance(S, L[|L| - 1]);
    }
  }

  lemma {:induction false} PqFlow(S: State, L: seq<Leg>)
    ensures var (i, o) := PqNet(S, L); Flows(S, L).pq == o - i
  {
    if L != [] { PqFlow(S, L[..|L| - 1]); }
  }

  lemma {:induction false} AllOkFront(S: State, h: nat, L: seq<Leg>)
    requires L != [] && AllOk(S, h, L)
    ensures AllOk(S, h, L[..|L| - 1]) && LegOk(S, h, L[|L| - 1])
  {
  }

  // -------------------------------------------------------------------------------- sums

  lemma {:induction false} SumConcat(a: seq<nat>, b: seq<nat>)
    ensures Sum(a + b) == Sum(a) + Sum(b)
  {
    if b == [] {
      assert a + b == a;
    } else {
      assert (a + b)[..|a + b| - 1] == a + b[..|b| - 1];
      SumConcat(a, b[..|b| - 1]);
    }
  }

  lemma {:induction false} SumAtConcat(vals: seq<nat>, us: seq<nat>, more: seq<nat>)
    requires Within(us, |vals|) && Within(more, |vals|)
    ensures SumAt(vals, us + more) == SumAt(vals, us) + SumAt(vals, more)
  {
    if more == [] {
      assert us + more == us;
    } else {
      assert (us + more)[..|us + more| - 1] == us + more[..|more| - 1];
      SumAtConcat(vals, us, more[..|more| - 1]);
    }
  }

  lemma {:induction false} One(v: nat)
    ensures Sum([v]) == v && Sum([]) == 0
  {
    assert [v][..0] == [];
  }

  lemma {:induction false} OneAt(vals: seq<nat>, u: nat)
    requires u < |vals|
    ensures SumAt(vals, [u]) == vals[u]
  {
    assert [u][..0] == [];
  }

  // -------------------------------------------------------------------------------- coins

  lemma {:induction false} UsesInRange(S: State, h: nat, L: seq<Leg>)
    requires AllOk(S, h, L)
    ensures Within(NewUses(S, L), |S.coins|) && |NewUses(S, L)| == |NewTags(L)|
    ensures forall i :: 0 <= i < |NewTags(L)| ==> NewTags(L)[i] == S.coins[NewUses(S, L)[i]].key.secret
  {
    if L != [] {
      AllOkFront(S, h, L);
      UsesInRange(S, h, L[..|L| - 1]);
      UsedCoin(S, h, L[|L| - 1]);
    }
  }

  /** The coin behind an input exists, has its tag, and holds the value the input brings. */
  lemma {:induction false} UsedCoin(S: State, h: nat, x: Leg)
    requires LegOk(S, h, x)
    ensures Within(UsesOf(S, x), |S.coins|) && |UsesOf(S, x)| == |TagsOf(x)|
    ensures forall i :: 0 <= i < |TagsOf(x)| ==> TagsOf(x)[i] == S.coins[UsesOf(S, x)[i]].key.secret
    ensures SumAt(CoinValues(S.coins), UsesOf(S, x)) == Entry(S, x).pseudo
  {
    if x.Spend? || x.Anon? {
      OneAt(CoinValues(S.coins), UsesOf(S, x)[0]);
    }
  }

  lemma {:induction false} CoinFlow(S: State, h: nat, L: seq<Leg>, n: nat)
    requires AllOk(S, h, L)
    ensures Within(NewUses(S, L), |CoinValues(S.coins)|)
    ensures Flows(S, L).coins == Sum(CoinValues(NewCoins(L, h, n))) - SumAt(CoinValues(S.coins), NewUses(S, L))
  {
    FlowsAreTally(S, L);
    NewCoinsAreOuts(S, L, h, n);
    UsesArePseudo(S, h, L);
  }

  lemma {:induction false} NewCoin(S: State, x: Leg, h: nat, coinbase: bool)
    ensures Sum(CoinValues(CoinsOf(x, h, coinbase))) == Entry(S, x).outs
  {
    if x.Out? {
      assert CoinValues(CoinsOf(x, h, coinbase)) == [x.value];
      One(x.value);
    }
  }

  lemma {:induction false} NewCoinsAreOuts(S: State, L: seq<Leg>, h: nat, n: nat)
    ensures Sum(CoinValues(NewCoins(L, h, n))) == TallyOf(S, L).outs
  {
    if L != [] {
      var F, x := L[..|L| - 1], L[|L| - 1];
      NewCoinsAreOuts(S, F, h, n);
      NewCoin(S, x, h, |L| - 1 < n);
      CoinValuesConcat(NewCoins(F, h, n), CoinsOf(x, h, |L| - 1 < n));
      SumConcat(CoinValues(NewCoins(F, h, n)), CoinValues(CoinsOf(x, h, |L| - 1 < n)));
    }
  }

  lemma {:induction false} CoinValuesConcat(a: seq<Coin>, b: seq<Coin>)
    ensures CoinValues(a + b) == CoinValues(a) + CoinValues(b)
  {
  }

  lemma {:induction false} UsesArePseudo(S: State, h: nat, L: seq<Leg>)
    requires AllOk(S, h, L)
    ensures Within(NewUses(S, L), |CoinValues(S.coins)|)
    ensures SumAt(CoinValues(S.coins), NewUses(S, L)) == TallyOf(S, L).pseudo
  {
    if L != [] {
      var F, x := L[..|L| - 1], L[|L| - 1];
      AllOkFront(S, h, L);
      UsesArePseudo(S, h, F);
      UsedCoin(S, h, x);
      SumAtConcat(CoinValues(S.coins), NewUses(S, F), UsesOf(S, x));
    }
  }

  // -------------------------------------------------------------------------------- notes

  lemma {:induction false} RedeemsInRange(S: State, h: nat, L: seq<Leg>)
    requires AllOk(S, h, L)
    ensures Within(NewRedeems(L), |S.notes|) && |NewRedeems(L)| == |NewNullifiers(L)|
    ensures forall i :: 0 <= i < |NewRedeems(L)| ==> NewNullifiers(L)[i] == S.notes[NewRedeems(L)[i]].nullifier
  {
    if L != [] {
      AllOkFront(S, h, L);
      RedeemsInRange(S, h, L[..|L| - 1]);
      NoteLeg(S, h, L[|L| - 1]);
    }
  }

  lemma {:induction false} NoteLeg(S: State, h: nat, x: Leg)
    requires LegOk(S, h, x)
    ensures Within(RedeemsOf(x), |S.notes|) && |RedeemsOf(x)| == |NullifiersOf(x)|
    ensures forall i :: 0 <= i < |RedeemsOf(x)| ==> NullifiersOf(x)[i] == S.notes[RedeemsOf(x)[i]].nullifier
    ensures FlowOf(S, x).notes == Sum(NoteValues(NotesOf(x))) - SumAt(NoteValues(S.notes), RedeemsOf(x))
  {
    if x.ZkIn? || x.Czk? {
      OneAt(NoteValues(S.notes), x.at);
    }
    if x.ZkOut? || x.Czk? {
      assert NoteValues(NotesOf(x)) == [x.leaf.value];
      One(x.leaf.value);
    }
  }

  lemma {:induction false} NoteFlow(S: State, h: nat, L: seq<Leg>)
    requires AllOk(S, h, L)
    ensures Within(NewRedeems(L), |NoteValues(S.notes)|)
    ensures Flows(S, L).notes == Sum(NoteValues(NewNotes(L))) - SumAt(NoteValues(S.notes), NewRedeems(L))
  {
    if L != [] {
      var F, x := L[..|L| - 1], L[|L| - 1];
      AllOkFront(S, h, L);
      NoteFlow(S, h, F);
      NoteLeg(S, h, x);
      NoteValuesConcat(NewNotes(F), NotesOf(x));
      SumConcat(NoteValues(NewNotes(F)), NoteValues(NotesOf(x)));
      SumAtConcat(NoteValues(S.notes), NewRedeems(F), RedeemsOf(x));
    }
  }

  lemma {:induction false} NoteValuesConcat(a: seq<Note>, b: seq<Note>)
    ensures NoteValues(a + b) == NoteValues(a) + NoteValues(b)
  {
  }

  // ---------------------------------------------------------------------------- contracts

  lemma {:induction false} NetOne(m: map<Id, Contract>, op: Op)
    ensures Net(m, [op]) == OpNet(m, op) && Net(m, []) == 0
  {
    assert [op][..0] == [];
  }

  lemma {:induction false} NetConcat(m: map<Id, Contract>, p: seq<Op>, q: seq<Op>)
    ensures Net(m, p + q) == Net(m, p) + Net(m, q)
  {
    if q == [] {
      assert p + q == p;
    } else {
      assert (p + q)[..|p + q| - 1] == p + q[..|q| - 1];
      NetConcat(m, p, q[..|q| - 1]);
    }
  }

  /** One leg: the operations it causes move the value it says. */
  lemma {:induction false} ContractLeg(S: State, x: Leg, h: nat)
    ensures FlowOf(S, x).swaps == Net(S.swaps, SwapDelsOf(x)) + Net(S.swaps, SwapPutsOf(x))
    ensures FlowOf(S, x).vaults == Net(S.vaults, VaultOpsOf(x, h))
    ensures FlowOf(S, x).pq == Net(S.pqUtxo, PqPutsOf(x)) + Net(S.pqUtxo, PqDelsOf(x))
  {
    if x.SwapIn? { NetOne(S.swaps, Del(x.swap)); }
    if x.SwapOut? { NetOne(S.swaps, SwapPutsOf(x)[0]); }
    if x.VaultIn? || x.VaultOut? { NetOne(S.vaults, VaultOpsOf(x, h)[0]); }
    if x.PqIn? { NetOne(S.pqUtxo, Del(x.pq)); }
    if x.PqOut? { NetOne(S.pqUtxo, PqPutsOf(x)[0]); }
  }

  lemma {:induction false} SwapFlow(S: State, L: seq<Leg>)
    ensures Flows(S, L).swaps == Net(S.swaps, SwapDels(L)) + Net(S.swaps, SwapPuts(L))
  {
    if L != [] {
      var F, x := L[..|L| - 1], L[|L| - 1];
      SwapFlow(S, F);
      ContractLeg(S, x, 0);
      NetConcat(S.swaps, SwapDels(F), SwapDelsOf(x));
      NetConcat(S.swaps, SwapPuts(F), SwapPutsOf(x));
    }
  }

  lemma {:induction false} VaultFlow(S: State, L: seq<Leg>, h: nat)
    ensures Flows(S, L).vaults == Net(S.vaults, VaultOps(L, h))
  {
    if L != [] {
      var F, x := L[..|L| - 1], L[|L| - 1];
      VaultFlow(S, F, h);
      ContractLeg(S, x, h);
      NetConcat(S.vaults, VaultOps(F, h), VaultOpsOf(x, h));
    }
  }

  lemma {:induction false} PqMapFlow(S: State, L: seq<Leg>)
    ensures Flows(S, L).pq == Net(S.pqUtxo, PqPuts(L)) + Net(S.pqUtxo, PqDels(L))
  {
    if L != [] {
      var F, x := L[..|L| - 1], L[|L| - 1];
      PqMapFlow(S, F);
      ContractLeg(S, x, 0);
      NetConcat(S.pqUtxo, PqPuts(F), PqPutsOf(x));
      NetConcat(S.pqUtxo, PqDels(F), PqDelsOf(x));
    }
  }
}
