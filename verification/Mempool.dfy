/** The pool of pending transactions: admission with replace-by-fee, expiry, capacity eviction,
    removal after a block, and selection for a template. */
module Mempool {
  import opened Params
  import opened LedgerModel
  import opened MapSums
  import opened MempoolModel

  class Pool {
    var txs: map<nat, Entry>
    /** Spend key to the id of the transaction that holds it. */
    var spentBy: map<PoolKey, nat>
    var curBytes: nat

    /** The index is the inverse of the spend keys and the byte count is exact. */
    ghost predicate Indexed()
      reads this
    {
      IndexOk(txs, spentBy) && curBytes == Sum(txs, SizeOf)
    }

    ghost predicate Valid()
      reads this
    {
      Indexed() && |txs| <= MAX_TXS && curBytes <= MAX_BYTES
    }

    constructor ()
      ensures Valid() && txs == map[]
    {
      txs, spentBy, curBytes := map[], map[], 0;
    }

    /** deleteLocked. */
    method Delete(id: nat)
      requires Indexed()
      modifies this
      ensures Indexed() && txs == old(txs) - {id}
      ensures |txs| <= old(|txs|) && curBytes <= old(curBytes)
      ensures id in old(txs) ==> |txs| == old(|txs|) - 1
      ensures forall k :: k in spentBy ==> k in old(spentBy)
    {
      if id !in txs {
        assert txs - {id} == txs;
        return;
      }
      var e := txs[id];
      DeleteKeeps(txs, spentBy, id);
      SumRemove(txs, SizeOf, id);
      assert Owns(txs, spentBy, id);
      Release(KeysOf(e), id);
      curBytes := curBytes - e.tx.size;
      txs := txs - {id};
    }

    /** Each key the transaction still owns is released. */
    method Release(keys: set<PoolKey>, id: nat)
      requires forall k :: k in keys ==> k in spentBy ==> spentBy[k] == id
      modifies this`spentBy
      ensures spentBy == old(spentBy) - keys
    {
      var rest := keys;
      while rest != {}
        invariant rest <= keys && spentBy == old(spentBy) - (keys - rest)
        decreases rest
      {
        var k :| k in rest;
        if k in spentBy && spentBy[k] == id {
          spentBy := spentBy - {k};
        }
        rest := rest - {k};
      }
    }

    /** Every key is pointed at the transaction. */
    method Claim(keys: set<PoolKey>, id: nat)
      modifies this`spentBy
      ensures spentBy == Reserve(old(spentBy), keys, id)
    {
      var rest := keys;
      while rest != {}
        invariant rest <= keys && spentBy == Reserve(old(spentBy), keys - rest, id)
        decreases rest
      {
        var k :| k in rest;
        spentBy := spentBy[k := id];
        rest := rest - {k};
      }
      assert keys - rest == keys;
    }

    /** A set of transactions is deleted, in any order. */
    method DeleteAll(ids: set<nat>)
      requires Indexed()
      modifies this
      ensures Indexed() && txs == old(txs) - ids && |txs| <= old(|txs|) && curBytes <= old(curBytes)
    {
      var rest := ids;
      while rest != {}
        invariant rest <= ids && Indexed() && txs == old(txs) - (ids - rest)
        invariant |txs| <= old(|txs|) && curBytes <= old(curBytes)
        decreases rest
      {
        var id :| id in rest;
        MinusMore(old(txs), ids, rest, id);
        Delete(id);
        rest := rest - {id};
      }
      assert ids - rest == ids;
    }

    /** expireLocked. */
    method Expire(now: nat)
      requires Indexed()
      modifies this
      ensures Indexed() && txs == Current(old(txs), now) && |txs| <= old(|txs|) && curBytes <= old(curBytes)
    {
      var stale := set id | id in txs && Stale(txs[id], now);
      DeleteAll(stale);
      assert txs == Current(old(txs), now);
    }

    /** The lowest-rate entry, if any is below the 64-bit maximum. */
    method Lowest() returns (found: bool, id: nat)
      ensures found ==> id in txs && forall j :: j in txs ==> Rate(txs[id].tx) <= Rate(txs[j].tx)
      ensures !found ==> forall j :: j in txs ==> Rate(txs[j].tx) >= MAX64
    {
      found, id := false, 0;
      var low := MAX64;
      var rest := txs.Keys;
      while rest != {}
        invariant rest <= txs.Keys
        invariant found ==> id in txs && low == Rate(txs[id].tx) && low <= MAX64
        invariant !found ==> low == MAX64
        invariant forall j :: j in txs && j !in rest ==> Rate(txs[j].tx) >= low
        decreases rest
      {
        var j :| j in rest;
        if Rate(txs[j].tx) < low {
          found, id, low := true, j, Rate(txs[j].tx);
        }
        rest := rest - {j};
      }
    }

    /** evictLowestLocked: one of the lowest rate, and only if that is strictly lower than the newcomer's. */
    method EvictLowest(rate: nat) returns (ok: bool)
      requires Indexed() && rate <= MAX64
      modifies this
      ensures Indexed() && |txs| <= old(|txs|) && curBytes <= old(curBytes)
      ensures !ok ==> txs == old(txs) && forall j :: j in txs ==> Rate(txs[j].tx) >= rate
      ensures ok ==> |txs| < old(|txs|)
                     && exists id :: IsLowest(old(txs), id, rate) && txs == old(txs) - {id}
      ensures forall k :: k in spentBy ==> k in old(spentBy)
    {
      var found, id := Lowest();
      if !found || Rate(txs[id].tx) >= rate {
        return false;
      }
      assert IsLowest(txs, id, rate);
      Delete(id);
      return true;
    }

    /** The owners of the keys a transaction wants. */
    method Conflicts(keys: set<PoolKey>) returns (ids: set<nat>)
      requires Indexed()
      ensures forall id :: id in ids <==> id in txs && !(KeysOf(txs[id]) !! keys)
    {
      ids := set k | k in keys && k in spentBy :: spentBy[k];
      forall id | id in txs ensures id in ids <==> !(KeysOf(txs[id]) !! keys) {
        assert Owns(txs, spentBy, id);
        if id in ids {
          var k :| k in keys && k in spentBy && spentBy[k] == id;
          assert OwnedBy(txs, spentBy, k);
        }
      }
      forall id | id in ids ensures id in txs {
        var k :| k in keys && k in spentBy && spentBy[k] == id;
        assert OwnedBy(txs, spentBy, k);
      }
    }

    /** The fees of a set of entries, summed in 64 bits, and the best of their rates. */
    method Survey(ids: set<nat>) returns (total: nat, best: nat)
      requires forall id :: id in ids ==> id in txs
      ensures total == Unsigned64(FeeSum(txs, ids))
      ensures forall id :: id in ids ==> Rate(txs[id].tx) <= best
      ensures best == 0 || exists id :: id in ids && Rate(txs[id].tx) == best
    {
      total, best := 0, 0;
      ghost var exact: nat := 0;
      var rest := ids;
      while rest != {}
        invariant rest <= ids && exact + FeeSum(txs, rest) == FeeSum(txs, ids) && total == Unsigned64(exact)
        invariant forall id :: id in ids && id !in rest ==> Rate(txs[id].tx) <= best
        invariant best == 0 || exists id :: id in ids && Rate(txs[id].tx) == best
        decreases rest
      {
        var id :| id in rest;
        OverPick(txs, rest, FeeOf, id);
        WrapAdd(exact, txs[id].tx.fee);
        exact := exact + txs[id].tx.fee;
        total := Unsigned64(total + txs[id].tx.fee);
        if Rate(txs[id].tx) > best {
          best := Rate(txs[id].tx);
        }
        rest := rest - {id};
      }
    }

    /** checkReplacementLocked: only the last addition is guarded against overflow. */
    method CheckReplacement(t: Tx, ids: set<nat>) returns (ok: bool)
      requires Indexed() && (forall id :: id in ids ==> id in txs) && t.fee <= MAX64 && t.size <= MAX_TX_BYTES
      ensures ok <==> Outbids(txs, ids, t)
    {
      if |ids| > MAX_CONFLICTS {
        return false;
      }
      var total, best := Survey(ids);
      if Rate(t) <= best {
        return false;
      }
      var bandwidth := t.size * FEE_PER_BYTE;
      OverflowGuard(total, bandwidth);
      var required := Unsigned64(total + bandwidth);
      if required < total {
        return false;
      }
      return t.fee >= required;
    }

    /** The eviction loop of Add: it ends, the cheapest leave first and no more of them than needed. */
    method MakeRoom(size: nat, rate: nat) returns (ok: bool)
      requires Indexed() && rate <= MAX64 && size <= MAX_TX_BYTES
      modifies this
      ensures Indexed() && Shed(old(txs), txs, size, rate) && |txs| <= old(|txs|) && curBytes <= old(curBytes)
      ensures ok <==> !Full(txs, size)
      ensures forall k :: k in spentBy ==> k in old(spentBy)
      ensures !ok ==> forall j :: j in txs ==> Rate(txs[j].tx) >= rate
    {
      while |txs| >= MAX_TXS || curBytes + size > MAX_BYTES
        invariant Indexed() && Shed(old(txs), txs, size, rate) && |txs| <= old(|txs|) && curBytes <= old(curBytes)
        invariant forall k :: k in spentBy ==> k in old(spentBy)
        decreases |txs|
      {
        ghost var was := txs;
        var evicted := EvictLowest(rate);
        if !evicted {
          return false;
        }
        ghost var id :| IsLowest(was, id, rate) && txs == was - {id};
        ShedMore(old(txs), was, id, size, rate);
      }
      return true;
    }

    method Insert(e: Entry)
      requires Indexed() && e.id !in txs && KeysOf(e) !! spentBy.Keys
      requires |txs| < MAX_TXS && curBytes + e.tx.size <= MAX_BYTES
      modifies this
      ensures Valid() && txs == old(txs)[e.id := e]
    {
      InsertKeeps(txs, spentBy, e);
      SumPut(txs, SizeOf, e.id, e);
      txs := txs[e.id := e];
      curBytes := curBytes + e.tx.size;
      Claim(KeysOf(e), e.id);
    }

    /** Add. valid: the chain's verdict on the transaction alone; confirmed: some spend of it is
        already on the chain. Whatever the outcome, a transaction that leaves the pool has expired or
        pays a strictly lower rate than the newcomer; what a worthy newcomer that qualifies pushes out
        are its rivals and, for want of room, the cheapest, also when it is refused in the end. */
    method Add(id: nat, t: Tx, now: nat, valid: bool, confirmed: bool) returns (ok: bool)
      requires Valid() && t.fee <= MAX64
      modifies this
      ensures Valid()
      ensures !ok ==> txs == old(txs) || OnlyLowerLost(Current(old(txs), now), txs, Rate(t))
      ensures ok ==> id !in old(txs) && id in txs && txs[id] == Entry(id, t, now)
      ensures ok ==> OnlyLowerLost(Current(old(txs), now), txs - {id}, Rate(t))
      ensures ok ==> Worthy(old(txs), id, t, valid, confirmed) && Qualifies(Current(old(txs), now), t)
      ensures ok ==> valid && !confirmed && t.size <= 2_097_152 && t.fee >= 1000 * t.size
      ensures ok ==> |Rivals(Current(old(txs), now), t)| <= 100
      ensures Worthy(old(txs), id, t, valid, confirmed) ==> Admitted(Current(old(txs), now), txs, Entry(id, t, now), ok)
    {
      if t.size > MAX_TX_BYTES || t.fee < t.size * FEE_PER_BYTE || id in txs || !valid {
        return false;
      }
      Expire(now);
      if id in txs || confirmed {
        return false;
      }
      ok := Admit(Entry(id, t, now));
    }

    /** The part of Add that changes the pool for the newcomer's sake. */
    method Admit(e: Entry) returns (ok: bool)
      requires Valid() && e.tx.fee <= MAX64 && e.tx.size <= MAX_TX_BYTES && e.id !in txs
      modifies this
      ensures Valid()
      ensures !ok ==> OnlyLowerLost(old(txs), txs, Rate(e.tx))
      ensures ok ==> e.id in txs && txs[e.id] == e && OnlyLowerLost(old(txs), txs - {e.id}, Rate(e.tx))
      ensures ok ==> Qualifies(old(txs), e.tx)
      ensures Admitted(old(txs), txs, e, ok)
    {
      ok := Replace(e.tx);
      if !ok {
        return;
      }
      ghost var kept := txs;
      ok := Enter(e);
      EnteredLoses(old(txs), kept, txs, e, ok);
    }

    /** The newcomer enters if room can be made for it. */
    method Enter(e: Entry) returns (ok: bool)
      requires Valid() && e.tx.fee <= MAX64 && e.tx.size <= MAX_TX_BYTES && e.id !in txs
      requires KeysOf(e) !! spentBy.Keys
      modifies this
      ensures Valid() && Entered(old(txs), txs, e, ok)
    {
      RateFits(e.tx);
      ok := MakeRoom(e.tx.size, Rate(e.tx));
      assert txs - {e.id} == txs;
      if ok {
        PutThenRemove(txs, e.id, e);
        Insert(e);
      }
    }

    /** Conflicting transactions are deleted if the newcomer qualifies as their replacement. */
    method Replace(t: Tx) returns (ok: bool)
      requires Indexed() && t.fee <= MAX64 && t.size <= MAX_TX_BYTES
      modifies this
      ensures Indexed() && OnlyLowerLost(old(txs), txs, Rate(t)) && |txs| <= old(|txs|) && curBytes <= old(curBytes)
      ensures !ok ==> txs == old(txs)
      ensures ok ==> SpendKeys(t.legs) !! spentBy.Keys && txs == old(txs) - Rivals(old(txs), t)
      ensures ok <==> Qualifies(old(txs), t)
    {
      var ids := Conflicts(SpendKeys(t.legs));
      assert ids == Rivals(txs, t);
      ok := true;
      if ids != {} {
        ok := CheckReplacement(t, ids);
        if !ok {
          return;
        }
        LostRivals(txs, ids, Rate(t));
        DeleteAll(ids);
      }
      KeysFree(txs, spentBy, SpendKeys(t.legs));
    }

    /** Remove, after a block: its transactions go, and so does everything that conflicts with it,
        and nothing else. */
    method Remove(block: seq<Entry>)
      requires Valid()
      modifies this
      ensures Valid() && txs == Unaffected(old(txs), IdsIn(block), SpentIn(block))
    {
      var blockSpent := DeleteMined(block);
      var hit := set id | id in txs && !(KeysOf(txs[id]) !! blockSpent);
      UnaffectedIs(old(txs), IdsIn(block), blockSpent, hit);
      DeleteAll(hit);
    }

    method DeleteMined(block: seq<Entry>) returns (blockSpent: set<PoolKey>)
      requires Valid()
      modifies this
      ensures Valid() && blockSpent == SpentIn(block) && txs == old(txs) - IdsIn(block)
    {
      blockSpent := {};
      for i := 0 to |block|
        invariant Valid() && blockSpent == SpentIn(block[..i]) && txs == old(txs) - IdsIn(block[..i])
      {
        MinedMore(old(txs), block, i);
        blockSpent := blockSpent + KeysOf(block[i]);
        Delete(block[i].id);
      }
      assert block[..|block|] == block;
    }

    /** Select: the greedy choice from the only ranking, conflict-free and within budget. */
    method Select(n: nat, now: nat) returns (out: seq<Entry>)
      requires Valid()
      modifies this
      ensures Valid() && txs == Current(old(txs), now)
      ensures forall s :: IsRanking(s, txs.Values) ==> out == Greedy(s, n, BUDGET)
      ensures |out| <= n && Used(out) <= BUDGET && BestFirst(out)
      ensures forall i :: 0 <= i < |out| ==> out[i] in txs.Values
      ensures forall e :: e in txs.Values && e !in out ==> CrowdedOut(out, e, n, BUDGET)
      ensures forall i, j :: 0 <= i < j < |out| ==> KeysOf(out[i]) !! KeysOf(out[j])
    {
      Expire(now);
      DistinctValues(txs, spentBy);
      var s := Rank(txs.Values);
      out := Scan(s, n);
      SelectionBest(s, txs.Values, n);
      forall r | IsRanking(r, txs.Values) ensures r == s {
        RankingUnique(r, s, txs.Values);
      }
      SelectedDisjoint(txs, spentBy, out);
    }
  }

  lemma {:induction false} SelectionBest(s: seq<Entry>, es: set<Entry>, n: nat)
    requires IsRanking(s, es)
    ensures var out := Greedy(s, n, BUDGET);
      && |out| <= n && Used(out) <= BUDGET && BestFirst(out)
      && (forall i :: 0 <= i < |out| ==> out[i] in es)
      && (forall e :: e in es && e !in out ==> CrowdedOut(out, e, n, BUDGET))
  {
    var out := Greedy(s, n, BUDGET);
    GreedyFits(s, n, BUDGET);
    RankedPays(out);
    forall e | e in es && e !in out ensures CrowdedOut(out, e, n, BUDGET) { GreedyLeaves(s, n, BUDGET, e); }
  }

  function SpentIn(block: seq<Entry>): set<PoolKey> {
    if block == [] then {} else SpentIn(block[..|block| - 1]) + KeysOf(block[|block| - 1])
  }

  function IdsIn(block: seq<Entry>): set<nat> {
    if block == [] then {} else IdsIn(block[..|block| - 1]) + {block[|block| - 1].id}
  }

  /** Neither mined nor in conflict with what was. */
  function Unaffected(txs: map<nat, Entry>, ids: set<nat>, keys: set<PoolKey>): map<nat, Entry> {
    map id | id in txs && id !in ids && KeysOf(txs[id]) !! keys :: txs[id]
  }

  lemma {:induction false} UnaffectedIs(txs: map<nat, Entry>, ids: set<nat>, keys: set<PoolKey>, hit: set<nat>)
    requires forall id :: id in hit <==> id in txs - ids && !(KeysOf(txs[id]) !! keys)
    ensures txs - ids - hit == Unaffected(txs, ids, keys)
  {
  }

  lemma {:induction false} MinedMore(txs: map<nat, Entry>, block: seq<Entry>, i: nat)
    requires i < |block|
    ensures txs - IdsIn(block[..i]) - {block[i].id} == txs - IdsIn(block[..i + 1])
    ensures SpentIn(block[..i + 1]) == SpentIn(block[..i]) + KeysOf(block[i])
  {
    assert block[..i + 1][..i] == block[..i];
  }

  predicate Stale(e: Entry, now: nat) { e.added + TTL < now }

  /** What expiry leaves. */
  function Current(txs: map<nat, Entry>, now: nat): (r: map<nat, Entry>)
    ensures forall id :: id in r <==> id in txs && now <= txs[id].added + 7200
    ensures forall id :: id in r ==> r[id] == txs[id]
  {
    map id | id in txs && !Stale(txs[id], now) :: txs[id]
  }

  /** now is part of before, and what is missing paid a strictly lower rate. */
  ghost predicate OnlyLowerLost(before: map<nat, Entry>, now: map<nat, Entry>, rate: nat) {
    && (forall id :: id in now ==> id in before && now[id] == before[id])
    && (forall id :: id in before && id !in now ==> Rate(before[id].tx) < rate)
  }

  /** One of the lowest rate, which is below the given one. */
  ghost predicate IsLowest(txs: map<nat, Entry>, id: nat, rate: nat) {
    id in txs && Rate(txs[id].tx) < rate && forall j :: j in txs ==> Rate(txs[id].tx) <= Rate(txs[j].tx)
  }

  /** There is no room for so many bytes more. */
  ghost predicate Full(txs: map<nat, Entry>, size: nat) {
    |txs| >= MAX_TXS || Sum(txs, SizeOf) + size > MAX_BYTES
  }

  /** What left to make room paid a lower rate, and no more than anything that stays; with the last of them
      still there, there would have been no room. */
  ghost predicate Shed(before: map<nat, Entry>, after: map<nat, Entry>, size: nat, rate: nat) {
    && OnlyLowerLost(before, after, rate)
    && (forall i, j :: i in before && i !in after && j in after ==> Rate(before[i].tx) <= Rate(after[j].tx))
    && (before != after ==> exists i :: i in before && i !in after && Full(after[i := before[i]], size))
  }

  lemma {:induction false} ShedMore(before: map<nat, Entry>, after: map<nat, Entry>, id: nat, size: nat, rate: nat)
    requires Shed(before, after, size, rate) && Full(after, size) && IsLowest(after, id, rate)
    ensures Shed(before, after - {id}, size, rate)
  {
    assert (after - {id})[id := before[id]] == after;
  }

  /** A newcomer that qualifies takes the place of its rivals and of what leaves to make room; it is refused
      exactly when only no cheaper ones are left and there is still no room. */
  ghost predicate Admitted(before: map<nat, Entry>, after: map<nat, Entry>, e: Entry, ok: bool) {
    if !Qualifies(before, e.tx) then !ok && after == before else
      Entered(before - Rivals(before, e.tx), after, e, ok)
  }

  ghost predicate Entered(before: map<nat, Entry>, after: map<nat, Entry>, e: Entry, ok: bool) {
    && Shed(before, after - {e.id}, e.tx.size, Rate(e.tx))
    && (ok <==> e.id in after) && (ok ==> after[e.id] == e) && (ok <==> !Full(after - {e.id}, e.tx.size))
    && (!ok ==> forall j :: j in after ==> Rate(after[j].tx) >= Rate(e.tx))
  }

  /** An amount of each of a set of entries, summed without wrap-around. */
  ghost function Over(txs: map<nat, Entry>, ids: set<nat>, amount: Tx -> nat): nat
    requires forall id :: id in ids ==> id in txs
  {
    if ids == {} then 0 else
      var id :| id in ids; amount(txs[id].tx) + Over(txs, ids - {id}, amount)
  }

  function FeeOf(t: Tx): nat { t.fee }

  ghost function FeeSum(txs: map<nat, Entry>, ids: set<nat>): nat
    requires forall id :: id in ids ==> id in txs
  {
    Over(txs, ids, FeeOf)
  }

  lemma {:induction false} OverPick(txs: map<nat, Entry>, ids: set<nat>, amount: Tx -> nat, id: nat)
    requires (forall j :: j in ids ==> j in txs) && id in ids
    ensures Over(txs, ids, amount) == amount(txs[id].tx) + Over(txs, ids - {id}, amount)
  {
    var j :| j in ids && Over(txs, ids, amount) == amount(txs[j].tx) + Over(txs, ids - {j}, amount);
    if j != id {
      OverPick(txs, ids - {j}, amount, id);
      OverPick(txs, ids - {id}, amount, j);
      assert ids - {j} - {id} == ids - {id} - {j};
    }
  }

  /** The pending transactions that a newcomer conflicts with. */
  ghost function Rivals(txs: map<nat, Entry>, t: Tx): set<nat> {
    set id | id in txs && !(KeysOf(txs[id]) !! SpendKeys(t.legs))
  }

  lemma {:induction false} WrapAdd(a: nat, b: nat)
    ensures Unsigned64(Unsigned64(a) + b) == Unsigned64(a + b)
  {
    var m := MAX64 + 1;
    assert a + b == Unsigned64(a) + b + m * (a / m);
    AddMultiple(Unsigned64(a) + b, a / m);
  }

  lemma {:induction false} AddMultiple(x: nat, k: nat)
    ensures Unsigned64(x + (MAX64 + 1) * k) == Unsigned64(x)
  {
    if k > 0 {
      AddMultiple(x, k - 1);
      assert x + (MAX64 + 1) * k == x + (MAX64 + 1) * (k - 1) + (MAX64 + 1);
    }
  }

  /** A sum of two 64-bit words wrapped exactly when it came out below the first. */
  lemma {:induction false} OverflowGuard(a: nat, b: nat)
    requires a <= MAX64 && b <= MAX64
    ensures Unsigned64(a + b) < a <==> a + b > MAX64
    ensures a + b <= MAX64 ==> Unsigned64(a + b) == a + b
  {
    if a + b > MAX64 {
      AddMultiple(a + b - (MAX64 + 1), 1);
    }
  }

  /** The replacement rule as coded: the fees of the replaced are summed in 64 bits. */
  ghost predicate Outbids(txs: map<nat, Entry>, ids: set<nat>, t: Tx)
    requires forall id :: id in ids ==> id in txs
  {
    && |ids| <= MAX_CONFLICTS && Rate(t) > 0 && (forall id :: id in ids ==> Rate(txs[id].tx) < Rate(t))
    && (var due := Unsigned64(FeeSum(txs, ids)) + t.size * FEE_PER_BYTE; due <= MAX64 && t.fee >= due)
  }

  ghost predicate Qualifies(txs: map<nat, Entry>, t: Tx) {
    Rivals(txs, t) != {} ==> Outbids(txs, Rivals(txs, t), t)
  }

  /** An accepted replacement pays for all it replaces and its own bandwidth exactly when the replaced
      fees fit 64 bits together. */
  lemma {:induction false} ReplacementPays(txs: map<nat, Entry>, t: Tx)
    requires Rivals(txs, t) != {} && Qualifies(txs, t) && t.fee <= MAX64
    ensures t.fee >= FeeSum(txs, Rivals(txs, t)) + t.size * FEE_PER_BYTE <==> FeeSum(txs, Rivals(txs, t)) <= MAX64
  {
    var total := FeeSum(txs, Rivals(txs, t));
    assert total <= MAX64 ==> Unsigned64(total) == total;
  }

  /** A well-formed pool in which a replacement is accepted for less than it replaces. */
  ghost predicate Undercuts(txs: map<nat, Entry>, spentBy: map<PoolKey, nat>, t: Tx) {
    && IndexOk(txs, spentBy) && Rivals(txs, t) != {} && Qualifies(txs, t) && t.fee <= MAX64
    && (forall id :: id in txs ==> FitToPool(txs[id].tx)) && FitToPool(t)
    && t.fee < FeeSum(txs, Rivals(txs, t))
  }

  predicate FitToPool(t: Tx) {
    t.size <= MAX_TX_BYTES && t.size * FEE_PER_BYTE <= t.fee <= MAX64
  }

  lemma {:induction false} TwoRivals(a: Entry, b: Entry, t: Tx, j: PoolKey, k: PoolKey)
    requires a.id != b.id && j != k && KeysOf(a) == {j} && KeysOf(b) == {k} && SpendKeys(t.legs) == {j, k}
    ensures var txs := map[a.id := a, b.id := b];
      && IndexOk(txs, map[j := a.id, k := b.id]) && Rivals(txs, t) == {a.id, b.id}
      && FeeSum(txs, {a.id, b.id}) == a.tx.fee + b.tx.fee
  {
    var txs, spentBy := map[a.id := a, b.id := b], map[j := a.id, k := b.id];
    assert Owns(txs, spentBy, a.id) && Owns(txs, spentBy, b.id);
    assert OwnedBy(txs, spentBy, j) && OwnedBy(txs, spentBy, k);
    OverPick(txs, {a.id, b.id}, FeeOf, a.id);
    OverPick(txs, {a.id, b.id} - {a.id}, FeeOf, b.id);
    assert {a.id, b.id} - {a.id} - {b.id} == {};
  }

  lemma {:induction false} Cheaper(txs: map<nat, Entry>, a: Entry, b: Entry, t: Tx)
    requires a.id != b.id && txs == map[a.id := a, b.id := b] && Rivals(txs, t) == {a.id, b.id}
    requires FeeSum(txs, {a.id, b.id}) == a.tx.fee + b.tx.fee && a.tx.fee == b.tx.fee == (MAX64 + 1) / 2
    requires a.tx.size == b.tx.size == 2_000_000 && t.size == 1000 && t.fee == 10_000_000_000_000_000
    ensures Qualifies(txs, t) && t.fee < FeeSum(txs, Rivals(txs, t))
  {
    assert |{a.id, b.id}| == 2;
    assert Unsigned64(MAX64 + 1) == 0;
  }

  /** The checks of Add that look at the newcomer alone. */
  predicate Worthy(txs: map<nat, Entry>, id: nat, t: Tx, valid: bool, confirmed: bool) {
    t.size <= MAX_TX_BYTES && t.fee >= t.size * FEE_PER_BYTE && id !in txs && valid && !confirmed
  }

  lemma {:induction false} MinusMore(m: map<nat, Entry>, ids: set<nat>, rest: set<nat>, id: nat)
    requires rest <= ids && id in rest
    ensures m - (ids - rest) - {id} == m - (ids - (rest - {id}))
  {
    assert ids - (rest - {id}) == (ids - rest) + {id};
  }

  lemma {:induction false} PutThenRemove(m: map<nat, Entry>, id: nat, e: Entry)
    requires id !in m
    ensures m[id := e] - {id} == m
  {
  }

  lemma {:induction false} LostRivals(txs: map<nat, Entry>, ids: set<nat>, rate: nat)
    requires forall id :: id in ids ==> id in txs && Rate(txs[id].tx) < rate
    ensures OnlyLowerLost(txs, txs - ids, rate)
  {
  }

  lemma {:induction false} EnteredLoses(before: map<nat, Entry>, kept: map<nat, Entry>, after: map<nat, Entry>,
          e: Entry, ok: bool)
    requires OnlyLowerLost(before, kept, Rate(e.tx)) && Entered(kept, after, e, ok)
    ensures OnlyLowerLost(before, after - {e.id}, Rate(e.tx)) && (!ok ==> after - {e.id} == after)
  {
    LostTwice(before, kept, after - {e.id}, Rate(e.tx));
  }

  lemma {:induction false} LostTwice(a: map<nat, Entry>, b: map<nat, Entry>, c: map<nat, Entry>, rate: nat)
    requires OnlyLowerLost(a, b, rate) && OnlyLowerLost(b, c, rate)
    ensures OnlyLowerLost(a, c, rate)
  {
  }

  lemma {:induction false} RateFits(t: Tx)
    requires t.fee <= MAX64
    ensures Rate(t) <= MAX64
  {
  }

  lemma {:induction false} ById(txs: map<nat, Entry>, spentBy: map<PoolKey, nat>, e: Entry)
    requires IndexOk(txs, spentBy) && e in txs.Values
    ensures e.id in txs && txs[e.id] == e
  {
    var k :| k in txs.Keys && txs[k] == e;
    assert Owns(txs, spentBy, k);
  }

  lemma {:induction false} DistinctValues(txs: map<nat, Entry>, spentBy: map<PoolKey, nat>)
    requires IndexOk(txs, spentBy)
    ensures forall a, b :: a in txs.Values && b in txs.Values && a != b ==> a.id != b.id
  {
    forall a, b | a in txs.Values && b in txs.Values && a != b ensures a.id != b.id {
      ById(txs, spentBy, a);
      ById(txs, spentBy, b);
    }
  }

  lemma {:induction false} KeysFree(txs: map<nat, Entry>, spentBy: map<PoolKey, nat>, keys: set<PoolKey>)
    requires IndexOk(txs, spentBy) && forall id :: id in txs ==> KeysOf(txs[id]) !! keys
    ensures keys !! spentBy.Keys
  {
    forall k | k in spentBy ensures k !in keys {
      assert OwnedBy(txs, spentBy, k);
    }
  }

  /** sort.Slice over the entries, taken in any order. */
  method Rank(es: set<Entry>) returns (s: seq<Entry>)
    requires forall a, b :: a in es && b in es && a != b ==> a.id != b.id
    ensures IsRanking(s, es)
  {
    s := [];
    var rest := es;
    while rest != {}
      invariant rest <= es && Ranked(s) && forall e :: e in s <==> e in es && e !in rest
      decreases rest
    {
      var e :| e in rest;
      s := Place(s, e);
      rest := rest - {e};
    }
  }

  /** One insertion into a ranked list. */
  method Place(s: seq<Entry>, e: Entry) returns (r: seq<Entry>)
    requires Ranked(s) && forall x :: x in s ==> x.id != e.id
    ensures Ranked(r) && forall x :: x in r <==> x in s || x == e
  {
    var i := 0;
    while i < |s| && Before(s[i], e)
      invariant 0 <= i <= |s| && forall k :: 0 <= k < i ==> Before(s[k], e)
    {
      i := i + 1;
    }
    r := s[..i] + [e] + s[i..];
    PlacedRanked(s, e, i);
  }

  lemma {:induction false} PlacedRanked(s: seq<Entry>, e: Entry, i: nat)
    requires Ranked(s) && (forall x :: x in s ==> x.id != e.id) && i <= |s|
    requires forall k :: 0 <= k < i ==> Before(s[k], e)
    requires i < |s| ==> !Before(s[i], e)
    ensures Ranked(s[..i] + [e] + s[i..])
    ensures forall x :: x in s[..i] + [e] + s[i..] <==> x in s || x == e
  {
    forall k | i <= k < |s| ensures Before(e, s[k]) {
      assert s[i] in s;
      assert k > i ==> Before(s[i], s[k]);
    }
    var r := s[..i] + [e] + s[i..];
    forall j, k | 0 <= j < k < |r| ensures Before(r[j], r[k]) {
    }
    assert s == s[..i] + s[i..];
  }

  /** The block-building scan. */
  method Scan(s: seq<Entry>, n: nat) returns (out: seq<Entry>)
    ensures out == Greedy(s, n, BUDGET)
  {
    out := [];
    var used := 0;
    for i := 0 to |s|
      invariant out == Greedy(s[..i], n, BUDGET) && used == Used(out)
    {
      assert s[..i + 1][..i] == s[..i];
      if |out| >= n {
        GreedyFull(s, i, n, BUDGET);
        return;
      }
      if used + s[i].tx.size <= BUDGET {
        UsedMore(out, s[i]);
        out := out + [s[i]];
        used := used + s[i].tx.size;
      }
    }
    assert s[..|s|] == s;
  }

  lemma {:induction false} GreedyFull(s: seq<Entry>, i: nat, n: int, budget: int)
    requires i <= |s| && |Greedy(s[..i], n, budget)| >= n
    ensures Greedy(s, n, budget) == Greedy(s[..i], n, budget)
  {
    if i == |s| {
      assert s[..i] == s;
    } else {
      assert s[..|s| - 1][..i] == s[..i];
      GreedyFull(s[..|s| - 1], i, n, budget);
    }
  }

  lemma {:induction false} SelectedDisjoint(txs: map<nat, Entry>, spentBy: map<PoolKey, nat>, out: seq<Entry>)
    requires IndexOk(txs, spentBy) && BestFirst(out) && forall i :: 0 <= i < |out| ==> out[i] in txs.Values
    ensures forall i, j :: 0 <= i < j < |out| ==> KeysOf(out[i]) !! KeysOf(out[j])
  {
    forall i, j | 0 <= i < j < |out| ensures KeysOf(out[i]) !! KeysOf(out[j]) {
      ById(txs, spentBy, out[i]);
      ById(txs, spentBy, out[j]);
      assert PaysMore(out[i], out[j]);
      NoSharedKey(txs, spentBy, out[i].id, out[j].id);
    }
  }
}
