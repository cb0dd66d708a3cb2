/** The block tree and the choice of the active tip: most work, lowest hash on ties, bounded
    reorganisation depth with a margin for partition recovery, orphans reconnected when their
    parent arrives. Whether a branch validates is decided by the environment. */
module ForkChoice {
  import opened Params
  import opened OrphanBuffer
  import opened ForkPaths

  const RECOVERY_MARGIN := 100

  datatype Node = Node(prev: Id, height: nat, work: nat)

  /** cheap: the proof-of-work and timestamp checks before storing; activate: validation of the
      branch that ends in the block, when it is to become active. */
  datatype Env = Env(cheap: Block -> bool, activate: Block -> bool)

  /** One change of the active tip. */
  datatype Change = Change(before: Id, after: Id)

  /** What every tip change keeps: it strictly improves, drops at most the seed lag, and past the
      normal depth only with a lead of the recovery margin. */
  predicate Legit(hdr: Id -> Header, c: Change) {
    && Better(hdr, c.after, c.before)
    && Dropped(hdr, c.before, c.after) <= POW_SEED_LAG
    && (Dropped(hdr, c.before, c.after) > MAX_REORG_DEPTH ==>
          Work(hdr, c.after) - Work(hdr, c.before) >= RECOVERY_MARGIN * hdr(c.after).difficulty)
  }

  /** A run of tip changes from one tip to another. */
  ghost predicate LegitRun(hdr: Id -> Header, start: Id, changes: seq<Change>, end: Id) {
    && (forall i :: 0 <= i < |changes| ==> Legit(hdr, changes[i]))
    && (forall i :: 0 <= i < |changes| - 1 ==> changes[i].after == changes[i + 1].before)
    && (if changes == [] then start == end else changes[0].before == start && changes[|changes| - 1].after == end)
  }

  ghost predicate NodesOk(hdr: Id -> Header, genesis: Id, nodes: map<Id, Node>) {
    && genesis in nodes && hdr(genesis).height == 0
    && (forall id {:trigger NodeOk(hdr, genesis, nodes, id)} :: id in nodes ==> NodeOk(hdr, genesis, nodes, id))
  }

  ghost predicate NodeOk(hdr: Id -> Header, genesis: Id, nodes: map<Id, Node>, id: Id)
    requires id in nodes
  {
    && Rooted(hdr, genesis, id) && nodes[id] == Node(hdr(id).prev, hdr(id).height, Work(hdr, id))
    && (Linked(hdr, id) ==> hdr(id).prev in nodes)
  }

  /** A set of blocks that a healthy network delivers: rooted, closed under parents, no higher than
      the reorganisation depth, and every one acceptable. */
  ghost predicate Friendly(hdr: Id -> Header, genesis: Id, ids: set<Id>, env: Env) {
    && (forall id {:trigger FriendlyId(hdr, genesis, ids, id)} :: id in ids ==> FriendlyId(hdr, genesis, ids, id))
    && (forall b: Block {:trigger Acceptable(env, b)} :: b.id in ids ==> Acceptable(env, b))
  }

  predicate Acceptable(env: Env, b: Block) {
    env.cheap(b) && env.activate(b)
  }

  ghost predicate FriendlyId(hdr: Id -> Header, genesis: Id, ids: set<Id>, id: Id) {
    && Linked(hdr, id) && Rooted(hdr, genesis, id) && hdr(id).difficulty > 0
    && hdr(id).height <= MAX_REORG_DEPTH && (hdr(id).prev in ids || hdr(id).prev == genesis)
  }

  datatype Verdict = Adopt | Side | Refuse

  /** Better, but too deep to be adopted ever. */
  predicate TooDeep(hdr: Id -> Header, best: Id, id: Id) {
    Better(hdr, id, best) && Dropped(hdr, best, id) > POW_SEED_LAG
  }

  /** A block with a known parent is kept unless it is too deep, or is to become the tip and does not validate. */
  predicate Kept(hdr: Id -> Header, best: Id, b: Block, env: Env) {
    !TooDeep(hdr, best, b.id) && (Legit(hdr, Change(best, b.id)) ==> env.activate(b))
  }

  /** A new block that passes the cheap checks, has a known parent and is kept. */
  predicate Storable(hdr: Id -> Header, known: set<Id>, best: Id, b: Block, env: Env) {
    && b.id !in known && hdr(b.id).difficulty > 0 && env.cheap(b)
    && hdr(b.id).prev in known && Linked(hdr, b.id) && Kept(hdr, best, b, env)
  }

  datatype Outcome = Known | Invalid | Orphan | Stored

  class Tree {
    const hdr: Id -> Header
    const genesis: Id
    const pool: Buffer
    var nodes: map<Id, Node>
    var best: Id
    /** Every change of the tip so far. */
    ghost var changes: seq<Change>
    /** Orphans evicted or refused for their size so far. */
    ghost var lost: nat

    /** Everything between calls, except that orphans may wait on the parents in exempt. */
    ghost predicate ValidExcept(exempt: set<Id>)
      reads this, pool
    {
      && pool.Valid() && pool.hdr == hdr
      && NodesOk(hdr, genesis, nodes) && best in nodes
      && LegitRun(hdr, genesis, changes, best)
      && (forall id :: id in pool.meta && id !in pool.pending && hdr(id).prev in nodes ==> hdr(id).prev in exempt)
      && (forall id :: id in pool.fifo && id !in pool.meta ==> hdr(id).prev in nodes)
    }

    /** In particular no buffered orphan has a known parent. */
    ghost predicate Valid()
      reads this, pool
    {
      ValidExcept({})
    }

    ghost function Held(): set<Id>
      reads this, pool
    {
      nodes.Keys + pool.meta.Keys
    }

    /** The tip is the best block of the tree and all blocks come from ids. */
    ghost predicate Converging(ids: set<Id>)
      reads this, pool
    {
      IsTop(hdr, nodes.Keys, best) && nodes.Keys <= ids + {genesis} && pool.meta.Keys <= ids
    }

    constructor (hdr: Id -> Header, genesis: Id)
      requires hdr(genesis).height == 0
      ensures Valid() && this.hdr == hdr && this.genesis == genesis && fresh(pool) && pool.pending == {}
      ensures nodes.Keys == {genesis} && best == genesis && pool.meta == map[] && changes == [] && lost == 0
    {
      this.hdr, this.genesis := hdr, genesis;
      pool := new Buffer(hdr);
      nodes := map[genesis := Node(hdr(genesis).prev, 0, hdr(genesis).difficulty)];
      best, changes, lost := genesis, [], 0;
    }

    /** reorgForkLocked: how many active blocks a switch to the branch ending in id would drop. */
    method ReorgDepth(id: Id) returns (depth: nat)
      requires NodesOk(hdr, genesis, nodes) && best in nodes
      requires Linked(hdr, id) && hdr(id).prev in nodes
      ensures depth == Dropped(hdr, best, id) && depth <= hdr(best).height
    {
      assert NodeOk(hdr, genesis, nodes, best) && NodeOk(hdr, genesis, nodes, hdr(id).prev);
      PathElements(hdr, genesis, best);
      PathElements(hdr, genesis, id);
      var anc := Ancestors(id);
      var h := WalkBack(anc);
      ForkPoint(hdr, genesis, best, id, h);
      depth := nodes[best].height - h;
    }

    /** The height of the last active block that lies in anc. */
    method WalkBack(anc: set<Id>) returns (h: nat)
      requires NodesOk(hdr, genesis, nodes) && best in nodes && genesis in anc
      ensures h < |Path(hdr, best)| && h <= hdr(best).height && Path(hdr, best)[h] in anc
      ensures forall j :: h < j < |Path(hdr, best)| ==> Path(hdr, best)[j] !in anc
    {
      assert NodeOk(hdr, genesis, nodes, best);
      PathElements(hdr, genesis, best);
      ghost var p := Path(hdr, best);
      var a := best;
      h := nodes[best].height;
      while a !in anc
        invariant a in nodes && h < |p| && p[h] == a
        invariant forall j :: h < j < |p| ==> p[j] !in anc
        decreases h
      {
        StepBack(hdr, genesis, best, h);
        assert NodeOk(hdr, genesis, nodes, a);
        a, h := nodes[a].prev, h - 1;
      }
    }

    /** The ids of the candidate branch, walked from its end to genesis. */
    method Ancestors(id: Id) returns (anc: set<Id>)
      requires NodesOk(hdr, genesis, nodes) && Linked(hdr, id) && hdr(id).prev in nodes
      ensures anc == set x | x in Path(hdr, id)
    {
      anc := {id};
      var cur := hdr(id).prev;
      while true
        invariant cur in nodes
        invariant (set x | x in Path(hdr, id)) == anc + set x | x in Path(hdr, cur)
        decreases hdr(cur).height
      {
        assert NodeOk(hdr, genesis, nodes, cur);
        anc := anc + {cur};
        if nodes[cur].height == 0 {
          break;
        }
        cur := nodes[cur].prev;
      }
    }

    /** Whether a block with a known parent becomes the tip, stays a side branch, or is refused as
        a branch that can never be adopted. */
    method Decide(id: Id) returns (v: Verdict)
      requires NodesOk(hdr, genesis, nodes) && best in nodes && Linked(hdr, id) && hdr(id).prev in nodes
      ensures (v.Adopt? <==> Legit(hdr, Change(best, id))) && (v.Refuse? <==> TooDeep(hdr, best, id))
    {
      var h := hdr(id);
      assert NodeOk(hdr, genesis, nodes, h.prev) && NodeOk(hdr, genesis, nodes, best);
      var work, bestWork := nodes[h.prev].work + h.difficulty, nodes[best].work;
      if !(work > bestWork || (work == bestWork && id < best)) {
        return Side;
      }
      if h.prev == best {
        ExtensionDropsNothing(hdr, best, id);
        return Adopt;
      }
      var depth := ReorgDepth(id);
      if depth > MAX_REORG_DEPTH {
        if depth > POW_SEED_LAG {
          return Refuse;
        }
        if work - bestWork < RECOVERY_MARGIN * h.difficulty {
          return Side;
        }
      }
      return Adopt;
    }

    /** The body of addBlockLocked for a block whose parent is known. */
    method Place(b: Block, env: Env) returns (stored: bool)
      requires NodesOk(hdr, genesis, nodes) && best in nodes && LegitRun(hdr, genesis, changes, best)
      requires b.id !in nodes && Linked(hdr, b.id) && hdr(b.id).prev in nodes
      modifies this`nodes, this`best, this`changes
      ensures NodesOk(hdr, genesis, nodes) && best in nodes && LegitRun(hdr, genesis, changes, best)
      ensures stored <==> Kept(hdr, old(best), b, env)
      ensures nodes == if stored then old(nodes)[b.id := Node(hdr(b.id).prev, hdr(b.id).height, Work(hdr, b.id))]
                       else old(nodes)
      ensures best == if stored && Legit(hdr, Change(old(best), b.id)) then b.id else old(best)
      ensures changes == old(changes) + if best == b.id then [Change(old(best), b.id)] else []
    {
      var v := Decide(b.id);
      if v.Refuse? || (v.Adopt? && !env.activate(b)) {
        return false;
      }
      var h := hdr(b.id);
      assert NodeOk(hdr, genesis, nodes, h.prev);
      StoredNode(hdr, genesis, nodes, b.id);
      nodes := nodes[b.id := Node(h.prev, h.height, nodes[h.prev].work + h.difficulty)];
      if v.Adopt? {
        RunGrows(hdr, genesis, changes, best, b.id);
        changes := changes + [Change(best, b.id)];
        best := b.id;
      }
      return true;
    }

    /** The hypotheses of convergence at a call. */
    ghost predicate Ready(ids: set<Id>, env: Env)
      reads this, pool
    {
      Friendly(hdr, genesis, ids, env) && Converging(ids)
    }

    /** addBlockLocked. ids is any set of blocks the caller cares about: if it is friendly and the
        tree converges on it, that is kept, and unless an orphan was lost the new block is held. */
    method AddBlock(b: Block, env: Env, ghost ids: set<Id>) returns (r: Outcome)
      requires Valid() && (pool.pending != {} ==> hdr(b.id).prev in nodes) && b.id !in pool.pending
      modifies this, pool
      ensures Valid() && pool.pending == old(pool.pending) && old(nodes.Keys) <= nodes.Keys && lost >= old(lost)
      ensures hdr(b.id).prev in old(nodes) ==> pool.meta.Keys <= old(pool.meta.Keys) && lost == old(lost)
      ensures (r.Known? <==> b.id in old(nodes)) && (r.Stored? ==> b.id in nodes)
      ensures r.Orphan? ==> hdr(b.id).prev !in nodes
      ensures !r.Stored? ==> nodes == old(nodes) && best == old(best) && (!r.Orphan? ==> pool.meta == old(pool.meta))
      ensures r.Stored? <==> Storable(hdr, old(nodes).Keys, old(best), b, env)
      ensures old(changes) <= changes
      ensures r.Stored? && Legit(hdr, Change(old(best), b.id)) ==> old(changes) + [Change(old(best), b.id)] <= changes
      ensures r.Stored? && old(pool.meta) == map[] ==>
                && nodes.Keys == old(nodes.Keys) + {b.id}
                && best == if Legit(hdr, Change(old(best), b.id)) then b.id else old(best)
      ensures old(Ready(ids, env)) && b.id in ids ==> Converging(ids)
      ensures old(Ready(ids, env)) && b.id in ids && lost == old(lost) ==> old(Held()) <= Held() && b.id in Held()
      decreases |pool.meta|, 4
    {
      assert Friendly(hdr, genesis, ids, env) && b.id in ids ==>
            FriendlyId(hdr, genesis, ids, b.id) && Acceptable(env, b);
      if b.id in nodes {
        return Known;
      }
      if hdr(b.id).difficulty == 0 || !env.cheap(b) {
        return Invalid;
      }
      if hdr(b.id).prev !in nodes {
        BufferOrphan(b);
        return Orphan;
      }
      assert NodeOk(hdr, genesis, nodes, hdr(b.id).prev);
      if hdr(b.id).height != nodes[hdr(b.id).prev].height + 1 {
        return Invalid;
      }
      var stored := Attach(b, env, ids);
      return if stored then Stored else Invalid;
    }

    /** The end of addBlockLocked: the block is placed and what waited for it follows. */
    method Attach(b: Block, env: Env, ghost ids: set<Id>) returns (stored: bool)
      requires Valid() && b.id !in nodes && Linked(hdr, b.id) && hdr(b.id).prev in nodes
      modifies this, pool
      ensures Valid() && pool.pending == old(pool.pending) && old(nodes.Keys) <= nodes.Keys && lost == old(lost)
      ensures pool.meta.Keys <= old(pool.meta.Keys) && (stored ==> b.id in nodes)
      ensures !stored ==> nodes == old(nodes) && best == old(best) && pool.meta == old(pool.meta)
      ensures stored <==> Kept(hdr, old(best), b, env)
      ensures old(changes) <= changes
      ensures stored && Legit(hdr, Change(old(best), b.id)) ==> old(changes) + [Change(old(best), b.id)] <= changes
      ensures stored && old(pool.meta) == map[] ==>
                && nodes.Keys == old(nodes.Keys) + {b.id}
                && best == if Legit(hdr, Change(old(best), b.id)) then b.id else old(best)
      ensures old(Ready(ids, env)) && b.id in ids ==> stored && Converging(ids) && old(Held()) <= Held()
      decreases |pool.meta|, 3
    {
      stored := PlaceTop(b, env, ids);
      if stored {
        ConnectOrphans(b.id, env, ids);
      }
    }

    /** Place, with its effect on convergence: an acceptable block is stored and the tip stays the best. */
    method PlaceTop(b: Block, env: Env, ghost ids: set<Id>) returns (stored: bool)
      requires Valid() && b.id !in nodes && Linked(hdr, b.id) && hdr(b.id).prev in nodes
      modifies this`nodes, this`best, this`changes
      ensures ValidExcept({b.id})
      ensures nodes.Keys == if stored then old(nodes.Keys) + {b.id} else old(nodes.Keys)
      ensures !stored ==> Valid() && nodes == old(nodes) && best == old(best)
      ensures stored <==> Kept(hdr, old(best), b, env)
      ensures best == if stored && Legit(hdr, Change(old(best), b.id)) then b.id else old(best)
      ensures changes == old(changes) + if best == b.id then [Change(old(best), b.id)] else []
      ensures old(Ready(ids, env)) && b.id in ids ==> stored && Converging(ids)
    {
      ghost var was, keys := best, nodes.Keys;
      ghost var ready := Ready(ids, env) && b.id in ids;
      assert ready && was != genesis ==> FriendlyId(hdr, genesis, ids, was);
      assert ready ==> Acceptable(env, b);
      stored := Place(b, env);
      if ready {
        assert NodeOk(hdr, genesis, old(nodes), was) && NodeOk(hdr, genesis, old(nodes), hdr(b.id).prev);
        ShallowJudged(hdr, genesis, was, b.id);
        TopGrows(hdr, keys, was, b.id);
      }
    }

    /** A block whose parent is unknown goes to the buffer. */
    method BufferOrphan(b: Block)
      requires Valid() && pool.pending == {} && b.id !in nodes && hdr(b.id).prev !in nodes
      modifies this`lost, pool
      ensures Valid() && pool.pending == {} && lost >= old(lost)
      ensures pool.meta.Keys <= old(pool.meta.Keys) + {b.id}
      ensures lost == old(lost) ==> pool.meta.Keys == old(pool.meta.Keys) + {b.id}
    {
      var evicted := pool.Insert(b);
      lost := lost + evicted + if b.id in pool.meta then 0 else 1;
    }

    /** connectOrphansLocked: the children waiting for p are re-added one by one, each of which may
        connect children of its own. */
    method ConnectOrphans(p: Id, env: Env, ghost ids: set<Id>)
      requires ValidExcept({p}) && p in nodes
      modifies this, pool
      ensures Valid() && pool.pending == old(pool.pending)
      ensures old(nodes.Keys) <= nodes.Keys
      ensures pool.meta.Keys <= old(pool.meta.Keys) && lost == old(lost)
      ensures old(changes) <= changes
      ensures old(pool.meta) == map[] ==> nodes == old(nodes) && best == old(best)
      ensures old(Ready(ids, env)) ==> Converging(ids) && old(Held()) <= Held()
      decreases |pool.meta|, 2
    {
      ghost var before := pool.pending;
      var children := pool.TakeChildren(p);
      if |children| == 0 {
        return;
      }
      assert children[0] in children && children[0].id in pool.meta;
      ReAdd(children, p, env, ids, before);
    }

    /** The loop over them. */
    method ReAdd(children: seq<Block>, ghost p: Id, env: Env, ghost ids: set<Id>, ghost before: set<Id>)
      requires Valid() && p in nodes && DistinctIds(children) && pool.pending == before + Ids(children)
      requires forall c :: c in children ==> c.id !in before && hdr(c.id).prev == p
      modifies this, pool
      ensures Valid() && pool.pending == before && old(nodes.Keys) <= nodes.Keys && lost == old(lost)
      ensures pool.meta.Keys <= old(pool.meta.Keys) && old(changes) <= changes
      ensures old(Ready(ids, env)) ==> Converging(ids) && old(Held()) <= Held()
      decreases |pool.meta|, 1
    {
      ghost var keys, ready, held := pool.meta.Keys, Ready(ids, env), Held();
      assert children[0..] == children;
      for i := 0 to |children|
        invariant Valid() && p in nodes && old(nodes.Keys) <= nodes.Keys && lost == old(lost)
        invariant pool.pending == before + Ids(children[i..])
        invariant pool.meta.Keys <= keys && old(changes) <= changes
        invariant ready ==> Converging(ids) && held <= Held()
      {
        CardinalityMonotone(pool.meta.Keys, keys);
        ReAddOne(children, i, p, env, ids, before);
      }
      NoneLeft(children);
    }

    /** One turn of it. */
    method ReAddOne(children: seq<Block>, i: nat, ghost p: Id, env: Env, ghost ids: set<Id>, ghost before: set<Id>)
      requires Valid() && p in nodes && DistinctIds(children) && i < |children|
      requires pool.pending == before + Ids(children[i..])
      requires forall c :: c in children ==> c.id !in before && hdr(c.id).prev == p
      modifies this, pool
      ensures Valid() && pool.pending == before + Ids(children[i + 1..])
      ensures old(nodes.Keys) <= nodes.Keys && lost == old(lost) && old(changes) <= changes
      ensures pool.meta.Keys <= old(pool.meta.Keys)
      ensures old(Ready(ids, env)) ==> Converging(ids) && old(Held()) <= Held()
      decreases |pool.meta|, 0
    {
      PendingHead(children, i, before);
      Reconnect(children[i], env, ids);
    }

    /** One child leaves the accounting and is added again; its parent is known by now. */
    method Reconnect(c: Block, env: Env, ghost ids: set<Id>)
      requires Valid() && c.id in pool.pending && hdr(c.id).prev in nodes
      modifies this, pool
      ensures Valid() && pool.pending == old(pool.pending) - {c.id}
      ensures old(nodes.Keys) <= nodes.Keys && lost == old(lost) && old(changes) <= changes
      ensures pool.meta.Keys <= old(pool.meta.Keys)
      ensures old(Ready(ids, env)) ==> Converging(ids) && old(Held()) <= Held()
      decreases |pool.meta|, -1
    {
      pool.Forget(c.id);
      var r := AddBlock(c, env, ids);
    }

    /** A sequence of blocks handed to AddBlock one by one. */
    method Deliver(ds: seq<Block>, env: Env, ghost ids: set<Id>)
      requires Valid() && pool.pending == {} && Ready(ids, env)
      requires Arrived(ds, |ds|, ids)
      modifies this, pool
      ensures Valid() && pool.pending == {} && Converging(ids) && lost >= old(lost)
      ensures lost == old(lost) ==> Arrived(ds, |ds|, Held())
    {
      ghost var held := Held();
      for i := 0 to |ds|
        invariant Valid() && pool.pending == {} && Converging(ids) && lost >= old(lost) && held == Held()
        invariant lost == old(lost) ==> Arrived(ds, i, held)
      {
        assert Ready(ids, env);
        ghost var was, lost0 := held, lost;
        var r := AddBlock(ds[i], env, ids);
        held := Held();
        assert lost == lost0 ==> was <= held && ds[i].id in held;
        if lost == old(lost) {
          ArrivedMore(ds, i, was, held);
        }
      }
    }
  }

  /** The first n blocks of ds are among those held. */
  ghost predicate Arrived(ds: seq<Block>, n: nat, held: set<Id>)
    requires n <= |ds|
  {
    forall k :: 0 <= k < n ==> ds[k].id in held
  }

  lemma {:induction false} IdsArrived(ds: seq<Block>, held: set<Id>)
    ensures Arrived(ds, |ds|, held) <==> Ids(ds) <= held
  {
    if Ids(ds) <= held {
      forall k | 0 <= k < |ds| ensures ds[k].id in held { assert ds[k] in ds && ds[k].id in Ids(ds); }
    }
  }

  lemma {:induction false} ArrivedMore(ds: seq<Block>, n: nat, was: set<Id>, held: set<Id>)
    requires n < |ds| && Arrived(ds, n, was) && was <= held && ds[n].id in held
    ensures Arrived(ds, n + 1, held)
  {
  }

  ghost function Ids(s: seq<Block>): set<Id> {
    set c | c in s :: c.id
  }

  lemma {:induction false} NoneLeft(s: seq<Block>)
    ensures Ids(s[|s|..]) == {}
  {
    assert s[|s|..] == [];
  }

  lemma {:induction false} PendingHead(s: seq<Block>, i: nat, before: set<Id>)
    requires i < |s| && DistinctIds(s) && forall c :: c in s ==> c.id !in before
    ensures s[i].id in before + Ids(s[i..])
    ensures before + Ids(s[i..]) - {s[i].id} == before + Ids(s[i + 1..])
    ensures s[i].id !in before + Ids(s[i + 1..])
  {
    assert s[i] in s && s[i] in s[i..];
    forall c | c in s[i + 1..] ensures c.id != s[i].id && c in s[i..] {
      var k :| 0 <= k < |s[i + 1..]| && s[i + 1..][k] == c;
      assert s[i + 1 + k] == c && s[i..][k + 1] == c;
    }
    forall c | c in s[i..] ensures c == s[i] || c in s[i + 1..] {
      var k :| 0 <= k < |s[i..]| && s[i..][k] == c;
      if k > 0 { assert s[i + 1..][k - 1] == c; }
    }
  }

  lemma {:induction false} CardinalityMonotone(a: set<Id>, b: set<Id>)
    requires a <= b
    ensures |a| <= |b|
  {
    if a != {} {
      var x :| x in a;
      CardinalityMonotone(a - {x}, b - {x});
    }
  }

  lemma {:induction false} RunGrows(hdr: Id -> Header, start: Id, changes: seq<Change>, tip: Id, next: Id)
    requires LegitRun(hdr, start, changes, tip) && Legit(hdr, Change(tip, next))
    ensures LegitRun(hdr, start, changes + [Change(tip, next)], next)
  {
  }

  /** Near genesis no reorganisation is too deep. */
  lemma {:induction false} ShallowJudged(hdr: Id -> Header, genesis: Id, best: Id, id: Id)
    requires Rooted(hdr, genesis, best) && Rooted(hdr, genesis, id) && hdr(best).height <= MAX_REORG_DEPTH
    ensures !TooDeep(hdr, best, id) && (Legit(hdr, Change(best, id)) <==> Better(hdr, id, best))
  {
    PathHeights(hdr, genesis, best);
    PathHeights(hdr, genesis, id);
    assert CommonLength(Path(hdr, best), Path(hdr, id)) >= 1;
  }

  lemma {:induction false} StoredNode(hdr: Id -> Header, genesis: Id, nodes: map<Id, Node>, id: Id)
    requires NodesOk(hdr, genesis, nodes) && id !in nodes && Linked(hdr, id) && hdr(id).prev in nodes
    ensures NodesOk(hdr, genesis, nodes[id := Node(hdr(id).prev, hdr(id).height, Work(hdr, id))])
  {
    var nodes' := nodes[id := Node(hdr(id).prev, hdr(id).height, Work(hdr, id))];
    assert NodeOk(hdr, genesis, nodes, hdr(id).prev);
    forall k | k in nodes' ensures NodeOk(hdr, genesis, nodes', k) {
      assert k != id ==> NodeOk(hdr, genesis, nodes, k);
    }
  }

  /** Convergence: friendly blocks delivered in any order, repetitions allowed, to a fresh node that
      loses no orphan leave no orphan behind and the best of all blocks as the tip. */
  method DeliverAll(hdr: Id -> Header, genesis: Id, ds: seq<Block>, env: Env) returns (t: Tree)
    requires hdr(genesis).height == 0 && Friendly(hdr, genesis, Ids(ds), env)
    ensures fresh(t) && t.Valid() && t.hdr == hdr && t.genesis == genesis
    ensures LegitRun(hdr, genesis, t.changes, t.best)
    ensures t.lost == 0 ==> t.pool.meta == map[] && t.nodes.Keys == Ids(ds) + {genesis}
    ensures t.lost == 0 ==> IsTop(hdr, Ids(ds) + {genesis}, t.best)
  {
    t := new Tree(hdr, genesis);
    ghost var ids := Ids(ds);
    IdsArrived(ds, ids);
    t.Deliver(ds, env, ids);
    if t.lost == 0 {
      AllArrived(hdr, genesis, ds, env, t.nodes.Keys, t.pool.meta.Keys);
    }
  }

  lemma {:induction false} AllArrived(hdr: Id -> Header, genesis: Id, ds: seq<Block>, env: Env, tree: set<Id>,
          orphans: set<Id>)
    requires Friendly(hdr, genesis, Ids(ds), env) && genesis in tree && Arrived(ds, |ds|, tree + orphans)
    requires orphans <= Ids(ds) && tree <= Ids(ds) + {genesis}
    requires forall id :: id in orphans ==> hdr(id).prev !in tree
    ensures orphans == {} && tree == Ids(ds) + {genesis}
  {
    IdsArrived(ds, tree + orphans);
    NothingLeft(hdr, genesis, Ids(ds), env, tree, orphans);
  }

  /** A friendly set that is held, with no orphan whose parent is in the tree, is in the tree. */
  lemma {:induction false} NothingLeft(hdr: Id -> Header, genesis: Id, ids: set<Id>, env: Env, tree: set<Id>,
          orphans: set<Id>)
    requires Friendly(hdr, genesis, ids, env) && genesis in tree && ids <= tree + orphans && orphans <= ids
    requires forall id :: id in orphans ==> hdr(id).prev !in tree
    ensures orphans == {} && ids <= tree
  {
    forall id | id in ids ensures id in tree {
      InTree(hdr, genesis, ids, env, tree, orphans, id);
    }
    forall id | id in ids ensures id !in orphans {
      assert FriendlyId(hdr, genesis, ids, id);
    }
  }

  lemma {:induction false} InTree(hdr: Id -> Header, genesis: Id, ids: set<Id>, env: Env, tree: set<Id>,
          orphans: set<Id>, id: Id)
    requires Friendly(hdr, genesis, ids, env) && genesis in tree && ids <= tree + orphans && orphans <= ids
    requires forall id :: id in orphans ==> hdr(id).prev !in tree
    requires id in ids
    ensures id in tree
    decreases hdr(id).height
  {
    assert FriendlyId(hdr, genesis, ids, id);
    if hdr(id).prev != genesis {
      InTree(hdr, genesis, ids, env, tree, orphans, hdr(id).prev);
    }
  }
}
