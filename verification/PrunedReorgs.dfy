/** Branch switches of a node that deletes old bodies: a switch hands the rebuild every body from genesis
    on, so it can succeed only as long as none was deleted. */
module PrunedReorgs {
  import opened Wrappers
  import opened ChainRebuild
  import M = Merkle
  import R = Retrievability

  type Body = seq<M.Id>

  /** bodyForNode for the active chain: the bodies still stored, by height. */
  function StoredBodies(bodies: map<nat, Body>, n: nat): (s: seq<Option<Body>>)
    ensures |s| == n && forall h :: 0 <= h < n ==> s[h] == if h in bodies then Some(bodies[h]) else None
  {
    seq(n, h requires 0 <= h < n => if h in bodies then Some(bodies[h]) else None)
  }

  /** A prefix of the active chain is complete exactly when nothing was deleted. */
  lemma {:induction false} CompleteIff(bodies: map<nat, Body>, chain: seq<Body>, floor: nat, n: nat)
    requires R.Exactly(bodies, chain, floor) && 0 < n <= |chain|
    ensures Complete(StoredBodies(bodies, n)) <==> floor == 0
  {
    assert StoredBodies(bodies, n)[0].Some? <==> floor == 0;
  }

  lemma {:induction false} BothPresent(s: seq<Option<Body>>, t: seq<Option<Body>>)
    ensures Complete(s + t) <==> Complete(s) && Complete(t)
  {
    if Complete(s + t) {
      forall i | 0 <= i < |s| ensures s[i].Some? { assert (s + t)[i] == s[i]; }
      forall i | 0 <= i < |t| ensures t[i].Some? { assert (s + t)[|s| + i] == t[i]; }
    }
  }

  /** What a switch needs: the node is in the state of the active chain, its snapshots up to the fork are
      those of the chain, and side are the bodies it was sent of the branch. */
  ghost predicate Switchable<S(!new)>(store: R.BodyStore, node: Chain<S, Body>, side: seq<Option<Body>>, fork: nat,
          branch: seq<Body>)
    reads store, node, node.spent, node.tags, node.primes, node.coins
  {
    && store.Valid() && store.Replayable()
    && Replay(node.rules, store.chain).Some? && node.InState(Replay(node.rules, store.chain).value)
    && fork < |store.chain| && |branch| == fork + 1 + |side|
    && branch[..fork + 1] == store.chain[..fork + 1] && Match(side, branch[fork + 1..])
    && (forall k :: k in node.snapshots && k <= fork ==>
          && Replay(node.rules, store.chain[..k + 1]).Some?
          && node.snapshots[k] == SnapshotOf(Replay(node.rules, store.chain[..k + 1]).value))
    && node.rules.effects(branch[0]) == Effects([], [], [], [])
  }

  /** reorgToLocked on the bodies that branchToLocked finds: the shared part in the store, the rest kept
      with the side branch. Once any body was deleted, no switch succeeds, whatever snapshots are kept, and
      the node stays on its branch. */
  method Switch<S(!new)>(store: R.BodyStore, node: Chain<S, Body>, side: seq<Option<Body>>, fork: nat,
          ghost branch: seq<Body>)
    returns (ok: bool, recovered: bool)
    requires Switchable(store, node, side, fork, branch)
    modifies node`ram, node.spent, node.tags, node.primes, node.coins
    ensures ok <==> store.floor == 0 && Complete(side) && Replay(node.rules, branch).Some?
    ensures ok ==> node.InState(Replay(node.rules, branch).value)
    ensures !ok ==> (recovered <==> store.floor == 0)
    ensures !ok ==> node.InState(Replay(node.rules, store.chain).value)
  {
    var shared := StoredBodies(store.bodies, fork + 1);
    var current := StoredBodies(store.bodies, |store.headers|);
    BranchBodies(store.bodies, store.chain, store.floor, branch, side, fork + 1);
    CurrentMatch(store.bodies, store.chain, store.floor);
    ok, recovered := node.ReorgTo(shared + side, current, fork, store.chain, branch);
  }

  /** The bodies handed over are those of the branch. */
  lemma {:induction false} SharedMatch(bodies: map<nat, Body>, chain: seq<Body>, floor: nat, branch: seq<Body>,
          side: seq<Option<Body>>, n: nat)
    requires R.Exactly(bodies, chain, floor) && n <= |chain| && |branch| == n + |side| && branch[..n] == chain[..n]
    requires Match(side, branch[n..])
    ensures Match(StoredBodies(bodies, n) + side, branch)
  {
    var all := StoredBodies(bodies, n) + side;
    forall i | 0 <= i < |all| && all[i].Some? ensures all[i].value == branch[i] {
      if i < n {
        assert branch[..n][i] == chain[..n][i];
      } else {
        assert all[i] == side[i - n] && branch[i] == branch[n..][i - n];
      }
    }
  }

  predicate Match(s: seq<Option<Body>>, branch: seq<Body>) {
    |s| == |branch| && forall i :: 0 <= i < |s| && s[i].Some? ==> s[i].value == branch[i]
  }

  lemma {:induction false} CurrentMatch(bodies: map<nat, Body>, chain: seq<Body>, floor: nat)
    requires R.Exactly(bodies, chain, floor)
    ensures Match(StoredBodies(bodies, |chain|), chain)
    ensures chain != [] ==> (Complete(StoredBodies(bodies, |chain|)) <==> floor == 0)
  {
    if chain != [] { CompleteIff(bodies, chain, floor, |chain|); }
  }

  lemma {:induction false} BranchBodies(bodies: map<nat, Body>, chain: seq<Body>, floor: nat, branch: seq<Body>,
          side: seq<Option<Body>>, n: nat)
    requires R.Exactly(bodies, chain, floor) && 0 < n <= |chain| && |branch| == n + |side|
    requires branch[..n] == chain[..n] && Match(side, branch[n..])
    ensures Match(StoredBodies(bodies, n) + side, branch)
    ensures Complete(StoredBodies(bodies, n) + side) <==> floor == 0 && Complete(side)
  {
    CompleteIff(bodies, chain, floor, n);
    BothPresent(StoredBodies(bodies, n), side);
    SharedMatch(bodies, chain, floor, branch, side, n);
  }
}
