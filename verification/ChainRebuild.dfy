/** Switching the active state to another branch: restore a snapshot, truncate the disk-backed
    sets, replay. The rules of the chain (validation, the in-memory transition, the keys a block
    adds) are arbitrary; what is proved is that the rebuilt state is that of a full replay. */
module ChainRebuild {
  import opened Params
  import opened Wrappers
  import opened DiskSets
  import opened CoinStore

  datatype NewCoin = NewCoin(key: Key, commitment: Key, isCoinbase: bool, lockUntil: nat)

  /** The keys a block adds to each set, in order. */
  datatype Effects = Effects(spent: seq<Key>, tags: seq<Key>, primes: seq<Key>, coins: seq<NewCoin>)

  /** What validation can read from disk. */
  datatype View = View(spent: set<Key>, tags: set<Key>, primes: set<Key>,
                       spentCommit: nat, tagsCommit: nat, primesCommit: nat, coins: seq<CoinEntry>)

  datatype Rules<!R, !B> = Rules(start: R, valid: (R, View, B) -> bool, apply: (R, View, B) -> R,
                                 effects: B -> Effects, hash: Key -> nat)

  datatype Logs = Logs(spent: seq<Key>, tags: seq<Key>, primes: seq<Key>, coins: seq<CoinEntry>)

  datatype State<R> = State(ram: R, logs: Logs)

  function ViewOf(hash: Key -> nat, l: Logs): View {
    View(Members(l.spent), Members(l.tags), Members(l.primes),
         CommitOf(hash, l.spent), CommitOf(hash, l.tags), CommitOf(hash, l.primes), l.coins)
  }

  function AppendCoins(coins: seq<CoinEntry>, added: seq<NewCoin>, height: nat): seq<CoinEntry> {
    if added == [] then coins
    else
      var (init, c) := (added[..|added| - 1], added[|added| - 1]);
      var before := AppendCoins(coins, init, height);
      before + [CoinEntry(c.key, c.commitment, height, |before|, c.isCoinbase, c.lockUntil)]
  }

  function Extend(l: Logs, e: Effects, height: nat): Logs {
    Logs(l.spent + e.spent, l.tags + e.tags, l.primes + e.primes, AppendCoins(l.coins, e.coins, height))
  }

  /** The output checks: no one-time key is reused, in the block or on the chain. */
  predicate FreshKeys(coins: seq<CoinEntry>, added: seq<NewCoin>) {
    && (forall i, j :: 0 <= i < j < |added| ==> added[i].key != added[j].key)
    && (forall i :: 0 <= i < |added| ==> added[i].key !in KeysOf(coins))
  }

  predicate Accepts<R, B>(rules: Rules<R, B>, s: State<R>, b: B) {
    rules.valid(s.ram, ViewOf(rules.hash, s.logs), b) && FreshKeys(s.logs.coins, rules.effects(b).coins)
  }

  function Step<R, B>(rules: Rules<R, B>, s: State<R>, b: B, height: nat): State<R> {
    State(rules.apply(s.ram, ViewOf(rules.hash, s.logs), b), Extend(s.logs, rules.effects(b), height))
  }

  /** The reference: validate and apply every block from genesis, which alone is not validated. */
  function Replay<R, B>(rules: Rules<R, B>, blocks: seq<B>): Option<State<R>> {
    if blocks == [] then Some(State(rules.start, Logs([], [], [], [])))
    else
      var (n, b) := (|blocks| - 1, blocks[|blocks| - 1]);
      var before := Replay(rules, blocks[..n]);
      if before.None? || (n > 0 && !Accepts(rules, before.value, b)) then None
      else Some(Step(rules, before.value, b, n))
  }

  datatype Snapshot<R> = Snapshot(ram: R, spentCount: nat, tagsCount: nat, primesCount: nat, coinCount: nat)

  function SnapshotOf<R>(st: State<R>): Snapshot<R> {
    Snapshot(st.ram, |st.logs.spent|, |st.logs.tags|, |st.logs.primes|, |st.logs.coins|)
  }

  /** No body is missing. */
  predicate Complete<B>(bodies: seq<Option<B>>) {
    forall i :: 0 <= i < |bodies| ==> bodies[i].Some?
  }

  predicate IsPrefix(l: Logs, m: Logs) {
    l.spent <= m.spent && l.tags <= m.tags && l.primes <= m.primes && l.coins <= m.coins
  }


  class Chain<R(!new), B(!new)> {
    const rules: Rules<R, B>
    const spent: DiskSet
    const tags: DiskSet
    const primes: DiskSet
    const coins: Coins
    var ram: R
    var snapshots: map<nat, Snapshot<R>>

    /** The disk sets are consistent, whatever branch they hold and however far. */
    ghost predicate Valid()
      reads this, spent, tags, primes, coins
    {
      && spent != tags && spent != primes && tags != primes
      && spent.Valid() && tags.Valid() && primes.Valid() && coins.Valid()
      && spent.hash == rules.hash && tags.hash == rules.hash && primes.hash == rules.hash
    }

    /** The chain is exactly in state s. */
    ghost predicate InState(s: State<R>)
      reads this, spent, tags, primes, coins
    {
      && Valid() && ram == s.ram
      && spent.Synced() && tags.Synced() && primes.Synced() && coins.Synced()
      && s.logs == Logs(spent.log, tags.log, primes.log, coins.list)
    }

    /** The snapshot is of state st, and the disk still begins with st's keys. */
    ghost predicate Describes(s: Snapshot<R>, st: State<R>)
      reads spent, tags, primes, coins
    {
      s == SnapshotOf(st) && IsPrefix(st.logs, Logs(spent.log, tags.log, primes.log, coins.list))
    }

    /** The snapshot at height h was taken on this branch. */
    ghost predicate OnBranch(h: nat, branch: seq<B>)
      requires h in snapshots && h < |branch|
      reads this, spent, tags, primes, coins
    {
      var r := Replay(rules, branch[..h + 1]);
      r.Some? && Describes(snapshots[h], r.value)
    }

    constructor (rules: Rules<R, B>)
      ensures InState(State(rules.start, Logs([], [], [], []))) && this.rules == rules && snapshots == map[]
      ensures fresh(spent) && fresh(tags) && fresh(primes) && fresh(coins)
    {
      this.rules, ram, snapshots := rules, rules.start, map[];
      spent := new DiskSet(rules.hash);
      tags := new DiskSet(rules.hash);
      primes := new DiskSet(rules.hash);
      coins := new Coins();
    }

    method CurrentView() returns (v: View)
      requires Valid() && spent.Synced() && tags.Synced() && primes.Synced() && coins.Synced()
      ensures v == ViewOf(rules.hash, Logs(spent.log, tags.log, primes.log, coins.list))
    {
      assert spent.log[..spent.count] == spent.log && tags.log[..tags.count] == tags.log;
      assert primes.log[..primes.count] == primes.log;
      v := View(spent.present, tags.present, primes.present, spent.commit, tags.commit, primes.commit, coins.list);
    }

    /** applyBlock: the in-memory transition and the disk appends. */
    method ApplyBlock(b: B, height: nat, ghost s: State<R>)
      requires InState(s) && FreshKeys(s.logs.coins, rules.effects(b).coins)
      modifies this`ram, spent, tags, primes, coins
      ensures InState(Step(rules, s, b, height))
    {
      var v := CurrentView();
      var e := rules.effects(b);
      ram := rules.apply(ram, v, b);
      AddAll(primes, e.primes);
      AddCoins(coins, e.coins, height);
      AddAll(spent, e.spent);
      AddAll(tags, e.tags);
    }

    /** Moves memory and the set counts to a snapshot, then drops what the disk holds beyond them. */
    method Rollback(s: Snapshot<R>, ghost st: State<R>)
      requires Valid() && Describes(s, st)
      modifies this`ram, spent, tags, primes, coins
      ensures InState(st)
    {
      ram := s.ram;
      coins.SetCount(s.coinCount);
      coins.Truncate(coins.count);
      RollbackSet(tags, s.tagsCount);
      RollbackSet(primes, s.primesCount);
      RollbackSet(spent, s.spentCount);
    }

    /** resetState, then the truncation of what the disk still holds. */
    method Reset()
      requires Valid()
      modifies this`ram, spent, tags, primes, coins
      ensures InState(State(rules.start, Logs([], [], [], [])))
    {
      ram := rules.start;
      coins.SetCount(0);
      coins.Truncate(coins.count);
      ResetSet(tags);
      ResetSet(primes);
      ResetSet(spent);
    }

    /** rebuildToBranchLocked. Bodies may be missing (None). Provided every snapshot it may restore
        was taken on this branch, it succeeds exactly when all bodies are there and a replay from
        genesis would accept the branch, and then the state is that of the replay. */
    method Rebuild(bodies: seq<Option<B>>, forkHeight: nat, ghost branch: seq<B>) returns (ok: bool)
      requires Valid() && |branch| == |bodies|
      requires forall i :: 0 <= i < |bodies| && bodies[i].Some? ==> bodies[i].value == branch[i]
      requires branch != [] ==> rules.effects(branch[0]).coins == []
      requires forall k :: k in snapshots && k <= forkHeight && k + MAX_REORG_DEPTH < |branch| ==> OnBranch(k, branch)
      modifies this`ram, spent, tags, primes, coins
      ensures Valid()
      ensures ok <==> bodies != [] && Complete(bodies) && Replay(rules, branch).Some?
      ensures ok ==> InState(Replay(rules, branch).value)
      ensures !Complete(bodies) ==> unchanged(this`ram, spent, tags, primes, coins)
    {
      if |bodies| == 0 {
        return false;
      }
      for i := 0 to |bodies|
        invariant forall j :: 0 <= j < i ==> bodies[j].Some?
      {
        if bodies[i].None? {
          return false;
        }
      }
      var start := RestoreOrReset(|bodies| - 1, forkHeight, branch);
      ok := ReplayFrom(bodies, start, branch);
    }

    /** saveSnapshotLocked: the memory and the set counts at the tip. */
    method SaveSnapshot(height: nat, ghost s: State<R>)
      requires InState(s)
      modifies this`snapshots
      ensures snapshots == old(snapshots)[height := SnapshotOf(s)] && InState(s)
    {
      snapshots := snapshots[height := Snapshot(ram, spent.count, tags.count, primes.count, coins.count)];
    }

    /** A reorganisation from the active chain. The snapshots at or below the fork were taken on the
        active chain, so they serve the new branch too: the outcome is that of a replay. */
    method Reorg(bodies: seq<Option<B>>, forkHeight: nat, ghost active: seq<B>, ghost branch: seq<B>) returns (ok: bool)
      requires Replay(rules, active).Some? && InState(Replay(rules, active).value)
      requires forkHeight < |active| && forkHeight < |branch| && active[..forkHeight + 1] == branch[..forkHeight + 1]
      requires forall k :: k in snapshots && k <= forkHeight ==>
                 && Replay(rules, active[..k + 1]).Some?
                 && snapshots[k] == SnapshotOf(Replay(rules, active[..k + 1]).value)
      requires |branch| == |bodies|
      requires forall i :: 0 <= i < |bodies| && bodies[i].Some? ==> bodies[i].value == branch[i]
      requires rules.effects(branch[0]).coins == []
      modifies this`ram, spent, tags, primes, coins
      ensures Valid()
      ensures ok <==> Complete(bodies) && Replay(rules, branch).Some?
      ensures ok ==> InState(Replay(rules, branch).value)
      ensures !Complete(bodies) ==> unchanged(this`ram, spent, tags, primes, coins)
    {
      forall k | k in snapshots && k <= forkHeight && k + MAX_REORG_DEPTH < |branch|
        ensures OnBranch(k, branch)
      {
        LogsGrow(rules, active, k + 1);
        assert active[..k + 1] == active[..forkHeight + 1][..k + 1] == branch[..k + 1];
      }
      ok := Rebuild(bodies, forkHeight, branch);
    }

    /** reorgToLocked: a branch that fails is followed by a rebuild of the previous branch from genesis,
        so the state is that of a replay of one of the two whenever the old bodies are still there; a branch
        with a missing body is refused before anything changes. */
    method ReorgTo(bodies: seq<Option<B>>, old_: seq<Option<B>>, forkHeight: nat, ghost active: seq<B>,
            ghost branch: seq<B>)
      returns (ok: bool, recovered: bool)
      requires Replay(rules, active).Some? && InState(Replay(rules, active).value)
      requires forkHeight < |active| && forkHeight < |branch| && active[..forkHeight + 1] == branch[..forkHeight + 1]
      requires forall k :: k in snapshots && k <= forkHeight ==>
                 && Replay(rules, active[..k + 1]).Some?
                 && snapshots[k] == SnapshotOf(Replay(rules, active[..k + 1]).value)
      requires |branch| == |bodies| && |active| == |old_|
      requires forall i :: 0 <= i < |bodies| && bodies[i].Some? ==> bodies[i].value == branch[i]
      requires forall i :: 0 <= i < |old_| && old_[i].Some? ==> old_[i].value == active[i]
      requires rules.effects(branch[0]) == Effects([], [], [], [])
      modifies this`ram, spent, tags, primes, coins
      ensures ok <==> Complete(bodies) && Replay(rules, branch).Some?
      ensures ok ==> InState(Replay(rules, branch).value)
      ensures !ok ==> (recovered <==> Complete(old_))
      ensures !ok && (recovered || !Complete(bodies)) ==> InState(Replay(rules, active).value)
    {
      assert active[0] == active[..forkHeight + 1][0] == branch[..forkHeight + 1][0] == branch[0];
      ok := Reorg(bodies, forkHeight, active, branch);
      recovered := false;
      if !ok {
        recovered := Recover(old_, active);
      }
    }

    /** The rebuild of the previous branch, from genesis on. */
    method Recover(bodies: seq<Option<B>>, ghost active: seq<B>) returns (ok: bool)
      requires Valid() && active != [] && |active| == |bodies| && Replay(rules, active).Some?
      requires forall i :: 0 <= i < |bodies| && bodies[i].Some? ==> bodies[i].value == active[i]
      requires rules.effects(active[0]) == Effects([], [], [], [])
      requires 0 in snapshots ==> Replay(rules, active[..1]).Some?
                                  && snapshots[0] == SnapshotOf(Replay(rules, active[..1]).value)
      modifies this`ram, spent, tags, primes, coins
      ensures ok <==> Complete(bodies)
      ensures ok ==> InState(Replay(rules, active).value)
      ensures !Complete(bodies) ==> unchanged(this`ram, spent, tags, primes, coins)
    {
      GenesisLogs(rules, active);
      ok := Rebuild(bodies, 0, active);
    }

    /** The restore ceiling, the restore (or the reset to genesis) and the truncation. */
    method RestoreOrReset(tip: nat, forkHeight: nat, ghost branch: seq<B>) returns (start: nat)
      requires Valid() && |branch| == tip + 1
      requires forall k :: k in snapshots && k <= forkHeight && k + MAX_REORG_DEPTH < |branch| ==> OnBranch(k, branch)
      modifies this`ram, spent, tags, primes, coins
      ensures start <= |branch| && Replay(rules, branch[..start]).Some?
      ensures InState(Replay(rules, branch[..start]).value)
      ensures start > 0 ==> start - 1 in snapshots && start - 1 <= forkHeight && start - 1 + MAX_REORG_DEPTH <= tip
      ensures forall k :: k in snapshots && k <= forkHeight && k + MAX_REORG_DEPTH <= tip ==> k < start
    {
      var h: Option<nat> := None;
      if tip >= MAX_REORG_DEPTH {
        var ceiling := tip - MAX_REORG_DEPTH;
        if forkHeight < ceiling {
          ceiling := forkHeight;
        }
        h := HighestAtMost(snapshots.Keys, ceiling);
      }
      if h.None? {
        start := 0;
        Reset();
      } else {
        start := h.value + 1;
        assert OnBranch(h.value, branch);
        Rollback(snapshots[h.value], Replay(rules, branch[..start]).value);
      }
    }

    /** One turn of the replay loop: genesis is applied unchecked, any other block only if valid. */
    method ReplayBlock(b: B, height: nat, ghost s: State<R>) returns (ok: bool)
      requires InState(s) && (height == 0 ==> rules.effects(b).coins == [])
      modifies this`ram, spent, tags, primes, coins
      ensures ok <==> height == 0 || Accepts(rules, s, b)
      ensures Valid() && (ok ==> InState(Step(rules, s, b, height)))
    {
      if height > 0 {
        var v := CurrentView();
        if !rules.valid(ram, v, b) || !FreshKeys(coins.list, rules.effects(b).coins) {
          return false;
        }
      }
      ApplyBlock(b, height, s);
      return true;
    }

    /** Validates and applies the blocks above the restored height. */
    method ReplayFrom(bodies: seq<Option<B>>, start: nat, ghost branch: seq<B>) returns (ok: bool)
      requires |branch| == |bodies| && start <= |bodies|
      requires forall i :: 0 <= i < |bodies| ==> bodies[i] == Some(branch[i])
      requires branch != [] ==> rules.effects(branch[0]).coins == []
      requires Replay(rules, branch[..start]).Some? && InState(Replay(rules, branch[..start]).value)
      modifies this`ram, spent, tags, primes, coins
      ensures Valid()
      ensures ok <==> Replay(rules, branch).Some?
      ensures ok ==> InState(Replay(rules, branch).value)
    {
      ghost var st := Replay(rules, branch[..start]).value;
      for i := start to |bodies|
        invariant Replay(rules, branch[..i]) == Some(st) && InState(st)
      {
        ReplayMore(rules, branch, i);
        ok := ReplayBlock(bodies[i].value, i, st);
        if !ok {
          ReplayPrefixFails(rules, branch, i + 1);
          return;
        }
        st := Step(rules, st, branch[i], i);
      }
      assert branch[..|branch|] == branch;
      return true;
    }
  }

  method ResetSet(d: DiskSet)
    requires d.Valid()
    modifies d
    ensures d.Synced() && d.log == []
  {
    d.ResetCount();
    d.Truncate(d.count);
  }

  method RollbackSet(d: DiskSet, n: nat)
    requires d.Valid() && n <= |d.log|
    modifies d
    ensures d.Synced() && d.log == old(d.log)[..n]
  {
    d.SetCount(n);
    d.Truncate(d.count);
  }

  method AddAll(d: DiskSet, keys: seq<Key>)
    requires d.Synced()
    modifies d
    ensures d.Synced() && d.log == old(d.log) + keys
  {
    for i := 0 to |keys|
      invariant d.Synced() && d.log == old(d.log) + keys[..i]
    {
      d.Add(keys[i]);
    }
    assert keys[..|keys|] == keys;
  }

  method AddCoins(c: Coins, added: seq<NewCoin>, height: nat)
    requires c.Synced() && FreshKeys(c.list, added)
    modifies c
    ensures c.Synced() && c.list == AppendCoins(old(c.list), added, height)
  {
    ghost var before := c.list;
    for i := 0 to |added|
      invariant c.Synced() && c.list == AppendCoins(before, added[..i], height)
      invariant forall j :: i <= j < |added| ==> added[j].key !in KeysOf(c.list)
    {
      assert added[..i + 1][..i] == added[..i];
      ghost var was := c.list;
      c.Add(added[i].key, added[i].commitment, height, added[i].isCoinbase, added[i].lockUntil);
      assert KeysOf(c.list) == KeysOf(was) + {added[i].key} by {
        assert c.list[|was|] in c.list;
        assert forall d :: d in was ==> d in c.list;
      }
    }
    assert added[..|added|] == added;
  }

  method HighestAtMost(heights: set<nat>, ceiling: nat) returns (h: Option<nat>)
    ensures h.None? <==> forall k :: k in heights ==> k > ceiling
    ensures h.Some? ==> h.value in heights && h.value <= ceiling
    ensures h.Some? ==> forall k :: k in heights && k <= ceiling ==> k <= h.value
  {
    h := None;
    for i := 0 to ceiling + 1
      invariant h.None? <==> forall k :: k in heights ==> k >= i
      invariant h.Some? ==> h.value in heights && h.value < i
      invariant h.Some? ==> forall k :: k in heights && k < i ==> k <= h.value
    {
      if i in heights {
        h := Some(i);
      }
    }
  }

  /** Along a branch the disk logs only grow. */
  lemma {:induction false} LogsGrow<R, B>(rules: Rules<R, B>, blocks: seq<B>, n: nat)
    requires n <= |blocks| && Replay(rules, blocks).Some?
    ensures Replay(rules, blocks[..n]).Some?
    ensures IsPrefix(Replay(rules, blocks[..n]).value.logs, Replay(rules, blocks).value.logs)
    decreases |blocks|
  {
    if n == |blocks| {
      assert blocks[..n] == blocks;
    } else {
      var m := |blocks| - 1;
      var init := blocks[..m];
      assert init[..n] == blocks[..n];
      LogsGrow(rules, init, n);
      CoinsGrow(Replay(rules, init).value.logs.coins, rules.effects(blocks[m]).coins, m);
    }
  }

  lemma {:induction false} CoinsGrow(coins: seq<CoinEntry>, added: seq<NewCoin>, height: nat)
    ensures coins <= AppendCoins(coins, added, height)
  {
    if added != [] { CoinsGrow(coins, added[..|added| - 1], height); }
  }

  /** Genesis leaves the disk empty. */
  lemma {:induction false} GenesisLogs<R, B>(rules: Rules<R, B>, blocks: seq<B>)
    requires blocks != [] && rules.effects(blocks[0]) == Effects([], [], [], [])
    ensures Replay(rules, blocks[..1]).Some? && Replay(rules, blocks[..1]).value.logs == Logs([], [], [], [])
  {
    assert blocks[..1][..0] == [];
  }

  lemma {:induction false} ReplayMore<R, B>(rules: Rules<R, B>, blocks: seq<B>, i: nat)
    requires i < |blocks| && Replay(rules, blocks[..i]).Some?
    ensures var before := Replay(rules, blocks[..i]).value;
      Replay(rules, blocks[..i + 1])
        == if i > 0 && !Accepts(rules, before, blocks[i]) then None else Some(Step(rules, before, blocks[i], i))
  {
    assert blocks[..i + 1][..i] == blocks[..i];
  }

  /** A branch with an unacceptable prefix is unacceptable. */
  lemma {:induction false} ReplayPrefixFails<R, B>(rules: Rules<R, B>, blocks: seq<B>, n: nat)
    requires n <= |blocks| && Replay(rules, blocks[..n]).None?
    ensures Replay(rules, blocks).None?
    decreases |blocks|
  {
    if n == |blocks| {
      assert blocks[..n] == blocks;
    } else {
      var init := blocks[..|blocks| - 1];
      assert init[..n] == blocks[..n];
      ReplayPrefixFails(rules, init, n);
    }
  }
}
