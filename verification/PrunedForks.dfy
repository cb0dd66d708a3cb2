/** Fork choice on nodes that delete old bodies: once a node has deleted one, every change of its tip is an
    extension, so nodes on different branches never agree again. */
module PrunedForks {
  import opened Wrappers
  import opened OrphanBuffer
  import opened ForkPaths
  import opened ForkChoice
  import opened ChainRebuild
  import opened PrunedReorgs
  import R = Retrievability

  // ---------------------------------------------------------------------------- one block

  /** The switch, if one is due. */
  method Activate<S(!new)>(store: R.BodyStore, node: Chain<S, Body>, due: bool, valid: bool, side: seq<Option<Body>>,
          fork: nat, ghost branch: seq<Body>)
    returns (ok: bool)
    requires Switchable(store, node, side, fork, branch)
    modifies node`ram, node.spent, node.tags, node.primes, node.coins
    ensures ok <==> if due then store.floor == 0 && Complete(side) && Replay(node.rules, branch).Some? else valid
    ensures ok && due ==> node.InState(Replay(node.rules, branch).value)
    ensures !ok || !due ==> node.InState(Replay(node.rules, store.chain).value)
  {
    ok := valid;
    if due {
      var recovered;
      ok, recovered := Switch(store, node, side, fork, branch);
    }
  }

  /** addBlockLocked of a block with a known parent, its activation spelled out: on the tip it is validated
      alone, elsewhere by a switch of branches. */
  method Adopt<S(!new)>(tree: Tree, store: R.BodyStore, node: Chain<S, Body>, b: Block, valid: bool,
          side: seq<Option<Body>>, fork: nat, ghost branch: seq<Body>)
    returns (stored: bool)
    requires NodesOk(tree.hdr, tree.genesis, tree.nodes) && tree.best in tree.nodes
    requires LegitRun(tree.hdr, tree.genesis, tree.changes, tree.best)
    requires b.id !in tree.nodes && Linked(tree.hdr, b.id) && tree.hdr(b.id).prev in tree.nodes
    requires Switchable(store, node, side, fork, branch)
    modifies tree`nodes, tree`best, tree`changes, node`ram, node.spent, node.tags, node.primes, node.coins
    ensures tree.best == b.id <==>
              && Legit(tree.hdr, Change(old(tree.best), b.id))
              && if tree.hdr(b.id).prev == old(tree.best) then valid
                 else store.floor == 0 && Complete(side) && Replay(node.rules, branch).Some?
    ensures tree.best != b.id ==> tree.best == old(tree.best)
    ensures stored <==> b.id in tree.nodes
    ensures var moved := tree.best == b.id && tree.hdr(b.id).prev != old(tree.best);
      node.InState(Replay(node.rules, if moved then branch else store.chain).value)
  {
    var v := tree.Decide(b.id);
    var ok := Activate(store, node, v.Adopt? && tree.hdr(b.id).prev != tree.best, valid, side, fork, branch);
    stored := tree.Place(b, Env(_ => true, _ => ok));
  }

  // -------------------------------------------------------------------------------- runs

  /** The tip of a node and what it keeps on disk. */
  datatype Peer = Peer(best: Id, disk: R.Disk)

  /** A block arrives, with whether it validates on its branch, whose own bodies the node was sent, and what
      a switch to it leaves on disk; or the node is shut down gracefully. */
  datatype Event = Offer(id: Id, replays: bool, left: R.Disk) | Shutdown

  /** A branch of blocks with work, from genesis on. */
  predicate Sound(hdr: Id -> Header, genesis: Id, id: Id)
    decreases hdr(id).height
  {
    if Linked(hdr, id) then hdr(id).difficulty > 0 && Sound(hdr, genesis, hdr(id).prev)
    else id == genesis && hdr(id).height == 0
  }

  function Moved(hdr: Id -> Header, genesis: Id, v: Peer, e: Event): Peer {
    match e
    case Shutdown => v.(disk := R.SavedDisk(v.disk))
    case Offer(id, replays, left) =>
      if !(Linked(hdr, id) && Sound(hdr, genesis, id) && replays && Legit(hdr, Change(v.best, id))) then v
      else if hdr(id).prev == v.best then Peer(id, R.ExtendedDisk(v.disk))
      else if v.disk.floor == 0 then Peer(id, left)
      else v
  }

  function PeerAfter(hdr: Id -> Header, genesis: Id, v: Peer, es: seq<Event>): Peer {
    if es == [] then v else Moved(hdr, genesis, PeerAfter(hdr, genesis, v, es[..|es| - 1]), es[|es| - 1])
  }

  /** What a pruned node does in one step: nothing is undeleted and its branch only grows. */
  lemma {:induction false} PrunedStep(hdr: Id -> Header, genesis: Id, v: Peer, e: Event)
    requires v.disk.floor > 0
    ensures Moved(hdr, genesis, v, e).disk.floor > 0
    ensures Path(hdr, v.best) <= Path(hdr, Moved(hdr, genesis, v, e).best)
  {
  }

  lemma {:induction false} PrunedRun(hdr: Id -> Header, genesis: Id, v: Peer, es: seq<Event>)
    requires v.disk.floor > 0
    ensures PeerAfter(hdr, genesis, v, es).disk.floor > 0
    ensures Path(hdr, v.best) <= Path(hdr, PeerAfter(hdr, genesis, v, es).best)
  {
    if es != [] {
      var front := es[..|es| - 1];
      PrunedRun(hdr, genesis, v, front);
      PrunedStep(hdr, genesis, PeerAfter(hdr, genesis, v, front), es[|es| - 1]);
    }
  }

  const FRESH: R.Disk := R.Disk(0, [], 0)

  /** Some run from genesis leads there. */
  ghost predicate Reached(hdr: Id -> Header, genesis: Id, v: Peer) {
    hdr(genesis).height == 0 && exists es :: v == PeerAfter(hdr, genesis, Peer(genesis, FRESH), es)
  }

  lemma {:induction false} ReachedSound(hdr: Id -> Header, genesis: Id, v: Peer)
    requires Reached(hdr, genesis, v)
    ensures Sound(hdr, genesis, v.best)
  {
    var es :| v == PeerAfter(hdr, genesis, Peer(genesis, FRESH), es);
    SoundRun(hdr, genesis, Peer(genesis, FRESH), es);
  }

  lemma {:induction false} SoundRun(hdr: Id -> Header, genesis: Id, v: Peer, es: seq<Event>)
    requires Sound(hdr, genesis, v.best)
    ensures Sound(hdr, genesis, PeerAfter(hdr, genesis, v, es).best)
  {
    if es != [] { SoundRun(hdr, genesis, v, es[..|es| - 1]); }
  }

  // ----------------------------------------------------------------------------- catching up

  lemma {:induction false} ChildAdopted(hdr: Id -> Header, genesis: Id, v: Peer, id: Id, left: R.Disk)
    requires Linked(hdr, id) && Sound(hdr, genesis, id) && hdr(id).prev == v.best
    ensures Moved(hdr, genesis, v, Offer(id, true, left)) == Peer(id, R.ExtendedDisk(v.disk))
  {
    ExtensionDropsNothing(hdr, v.best, id);
  }

  /** The blocks of a branch above a node's tip, offered in order, bring the node to its end. */
  lemma {:induction false} CatchUp(hdr: Id -> Header, genesis: Id, v: Peer, id: Id) returns (es: seq<Event>)
    requires Sound(hdr, genesis, id) && Path(hdr, v.best) <= Path(hdr, id)
    ensures PeerAfter(hdr, genesis, v, es).best == id
    decreases hdr(id).height
  {
    var p, q := Path(hdr, v.best), Path(hdr, id);
    if |p| == |q| {
      assert p[|p| - 1] == q[|q| - 1];
      es := [];
    } else {
      var prev := hdr(id).prev;
      assert q == Path(hdr, prev) + [id];
      es := CatchUp(hdr, genesis, v, prev);
      var w, e := PeerAfter(hdr, genesis, v, es), Offer(id, true, v.disk);
      ChildAdopted(hdr, genesis, w, id, v.disk);
      assert (es + [e])[..|es|] == es;
      es := es + [e];
    }
  }

  // -------------------------------------------------------------------------- agreement

  ghost predicate SameBranch(hdr: Id -> Header, a: Id, b: Id) {
    Path(hdr, a) <= Path(hdr, b) || Path(hdr, b) <= Path(hdr, a)
  }

  /** Two nodes have the same tip after some further events on each. */
  ghost predicate CanAgree(hdr: Id -> Header, genesis: Id, v: Peer, w: Peer) {
    exists es, fs :: PeerAfter(hdr, genesis, v, es).best == PeerAfter(hdr, genesis, w, fs).best
  }

  lemma {:induction false} Overtakes(hdr: Id -> Header, genesis: Id, v: Peer, w: Peer)
    requires Sound(hdr, genesis, w.best) && Path(hdr, v.best) <= Path(hdr, w.best)
    ensures CanAgree(hdr, genesis, v, w) && CanAgree(hdr, genesis, w, v)
  {
    var es := CatchUp(hdr, genesis, v, w.best);
    assert PeerAfter(hdr, genesis, w, []).best == w.best;
    assert PeerAfter(hdr, genesis, v, es).best == PeerAfter(hdr, genesis, w, []).best;
  }

  /** Whatever blocks reach them and in whatever order, two nodes that have deleted bodies can ever have the
      same tip again exactly when the tip of one lies on the branch of the other. */
  lemma {:induction false} AgreementLaw(hdr: Id -> Header, genesis: Id, v: Peer, w: Peer)
    requires Reached(hdr, genesis, v) && Reached(hdr, genesis, w) && v.disk.floor > 0 && w.disk.floor > 0
    ensures CanAgree(hdr, genesis, v, w) <==> SameBranch(hdr, v.best, w.best)
  {
    ReachedSound(hdr, genesis, v);
    ReachedSound(hdr, genesis, w);
    if CanAgree(hdr, genesis, v, w) {
      var es, fs :| PeerAfter(hdr, genesis, v, es).best == PeerAfter(hdr, genesis, w, fs).best;
      PrunedRun(hdr, genesis, v, es);
      PrunedRun(hdr, genesis, w, fs);
      PrefixesOfOne(Path(hdr, v.best), Path(hdr, w.best), Path(hdr, PeerAfter(hdr, genesis, v, es).best));
    }
    if Path(hdr, v.best) <= Path(hdr, w.best) {
      Overtakes(hdr, genesis, v, w);
    } else if Path(hdr, w.best) <= Path(hdr, v.best) {
      Overtakes(hdr, genesis, w, v);
    }
  }

  lemma {:induction false} PrefixesOfOne(p: seq<Id>, q: seq<Id>, r: seq<Id>)
    requires p <= r && q <= r
    ensures p <= q || q <= p
  {
  }

  // -------------------------------------------------------------------------- competing tips

  /** A node that was given one branch block by block. */
  function Follower(hdr: Id -> Header, id: Id): Peer
    decreases hdr(id).height
  {
    if Linked(hdr, id) then Peer(id, R.ExtendedDisk(Follower(hdr, hdr(id).prev).disk)) else Peer(id, FRESH)
  }

  /** It is what a fresh node becomes. */
  lemma {:induction false} FollowerRuns(hdr: Id -> Header, genesis: Id, id: Id) returns (es: seq<Event>)
    requires Sound(hdr, genesis, id)
    ensures PeerAfter(hdr, genesis, Peer(genesis, FRESH), es) == Follower(hdr, id)
    decreases hdr(id).height
  {
    if Linked(hdr, id) {
      es := FollowerRuns(hdr, genesis, hdr(id).prev);
      var w, e := Follower(hdr, hdr(id).prev), Offer(id, true, FRESH);
      ChildAdopted(hdr, genesis, w, id, e.left);
      assert (es + [e])[..|es|] == es;
      es := es + [e];
    } else {
      es := [];
    }
  }

  lemma {:induction false} FollowerDisk(hdr: Id -> Header, genesis: Id, id: Id) returns (events: seq<R.Event>)
    requires Sound(hdr, genesis, id)
    ensures |events| == hdr(id).height && R.OnlyBlocks(events)
    ensures Follower(hdr, id).disk == R.DiskAfter(FRESH, events)
    decreases hdr(id).height
  {
    if Linked(hdr, id) {
      var before := FollowerDisk(hdr, genesis, hdr(id).prev);
      events := before + [R.Block([])];
      assert events[..|before|] == before;
    } else {
      events := [];
    }
  }

  /** It has deleted a body exactly from a window and an interval on. */
  lemma {:induction false} FollowerPruned(hdr: Id -> Header, genesis: Id, id: Id)
    requires Sound(hdr, genesis, id)
    ensures Follower(hdr, id).disk.floor > 0 <==> hdr(id).height >= R.POR_WINDOW + R.SNAPSHOT_INTERVAL
  {
    var events := FollowerDisk(hdr, genesis, id);
    R.ScheduledRun(FRESH, events);
  }

  /** Two competing blocks on one parent, from that height on: the nodes that adopted the one and the nodes
      that adopted the other never have the same tip again. */
  lemma {:induction false} CompetingTips(hdr: Id -> Header, genesis: Id, a: Id, b: Id)
    requires Linked(hdr, a) && Linked(hdr, b) && hdr(a).prev == hdr(b).prev && a != b
    requires hdr(genesis).height == 0 && Sound(hdr, genesis, a) && Sound(hdr, genesis, b)
    requires hdr(a).height >= R.POR_WINDOW + R.SNAPSHOT_INTERVAL
    ensures !CanAgree(hdr, genesis, Follower(hdr, a), Follower(hdr, b))
  {
    FollowerPruned(hdr, genesis, a);
    FollowerPruned(hdr, genesis, b);
    var es := FollowerRuns(hdr, genesis, a);
    var fs := FollowerRuns(hdr, genesis, b);
    AgreementLaw(hdr, genesis, Follower(hdr, a), Follower(hdr, b));
    var p, q := Path(hdr, a), Path(hdr, b);
    assert |p| == |q| && p[|p| - 1] != q[|q| - 1];
  }
}
