/** Partition recovery: a heavier branch that forks deeper than usual, delivered block by block, becomes the
    active one as soon as its lead reaches the margin, and not before. */
module PartitionHealing {
  import opened Params
  import opened OrphanBuffer
  import opened ForkPaths
  import opened ForkChoice

  // ------------------------------------------------------------------------- depth and lead

  lemma {:induction false} CommonGrows(s: seq<Id>, t: seq<Id>, x: Id)
    ensures CommonLength(s, t + [x]) >= CommonLength(s, t)
  {
    if s != [] && t != [] && s[0] == t[0] {
      assert (t + [x])[1..] == t[1..] + [x];
      CommonGrows(s[1..], t[1..], x);
    }
  }

  /** A longer branch drops no more. */
  lemma {:induction false} DropsNoMore(hdr: Id -> Header, best: Id, id: Id)
    requires Linked(hdr, id)
    ensures Dropped(hdr, best, id) <= Dropped(hdr, best, hdr(id).prev)
  {
    CommonGrows(Path(hdr, best), Path(hdr, hdr(id).prev), id);
  }

  /** A block with work that extends the tip becomes the tip. */
  lemma {:induction false} ExtensionIsLegit(hdr: Id -> Header, best: Id, id: Id)
    requires Linked(hdr, id) && hdr(id).prev == best && hdr(id).difficulty > 0
    ensures Legit(hdr, Change(best, id)) && !TooDeep(hdr, best, id)
  {
    ExtensionDropsNothing(hdr, best, id);
  }

  /** When a branch may take over, in numbers: up to 100 blocks dropped, by more work, or by as much and a lower
      hash; up to 512, by a lead of 100 times the difficulty of its last block; never by dropping more. */
  lemma {:induction false} TakesOver(hdr: Id -> Header, best: Id, id: Id)
    requires hdr(id).difficulty > 0
    ensures var (lead, depth) := (Work(hdr, id) - Work(hdr, best), Dropped(hdr, best, id));
      && (depth <= 100 ==> (Legit(hdr, Change(best, id)) <==> lead > 0 || (lead == 0 && id < best)))
      && (100 < depth <= 512 ==> (Legit(hdr, Change(best, id)) <==> lead >= 100 * hdr(id).difficulty))
      && (512 < depth ==> !Legit(hdr, Change(best, id)))
  {
  }

  // ------------------------------------------------------------------------ block by block

  /** New blocks with work, each on the one before and the first on a known one. */
  ghost predicate IsBranch(hdr: Id -> Header, known: set<Id>, ds: seq<Block>) {
    forall i {:trigger InBranch(hdr, known, ds, i)} :: 0 <= i < |ds| ==> InBranch(hdr, known, ds, i)
  }

  ghost predicate InBranch(hdr: Id -> Header, known: set<Id>, ds: seq<Block>, i: nat)
    requires i < |ds|
  {
    && Linked(hdr, ds[i].id) && hdr(ds[i].id).difficulty > 0 && ds[i].id !in known
    && (if i == 0 then hdr(ds[i].id).prev in known else hdr(ds[i].id).prev == ds[i - 1].id)
  }

  lemma {:induction false} HeightsRise(hdr: Id -> Header, known: set<Id>, ds: seq<Block>, i: nat, j: nat)
    requires IsBranch(hdr, known, ds) && i <= j < |ds|
    ensures hdr(ds[j].id).height == hdr(ds[i].id).height + (j - i)
  {
    if i < j {
      HeightsRise(hdr, known, ds, i, j - 1);
      assert InBranch(hdr, known, ds, j);
    }
  }

  lemma {:induction false} DepthAlong(hdr: Id -> Header, known: set<Id>, ds: seq<Block>, best: Id, i: nat)
    requires IsBranch(hdr, known, ds) && i < |ds|
    ensures Dropped(hdr, best, ds[i].id) <= Dropped(hdr, best, ds[0].id)
  {
    if i > 0 {
      DepthAlong(hdr, known, ds, best, i - 1);
      assert InBranch(hdr, known, ds, i);
      DropsNoMore(hdr, best, ds[i].id);
    }
  }

  /** Some of the first n blocks may take over from the tip. */
  ghost predicate Overtaken(hdr: Id -> Header, best: Id, ds: seq<Block>, n: nat)
    requires n <= |ds|
  {
    exists i :: 0 <= i < n && Legit(hdr, Change(best, ds[i].id))
  }

  /** The tip after the first n blocks. */
  ghost function TipAfter(hdr: Id -> Header, best: Id, ds: seq<Block>, n: nat): Id
    requires n <= |ds|
  {
    if n > 0 && Overtaken(hdr, best, ds, n) then ds[n - 1].id else best
  }

  lemma {:induction false} NextTip(hdr: Id -> Header, known: set<Id>, ds: seq<Block>, best: Id, n: nat)
    requires IsBranch(hdr, known, ds) && n < |ds| && Dropped(hdr, best, ds[0].id) <= POW_SEED_LAG
    ensures var tip := TipAfter(hdr, best, ds, n);
      && !TooDeep(hdr, tip, ds[n].id)
      && TipAfter(hdr, best, ds, n + 1) == if Legit(hdr, Change(tip, ds[n].id)) then ds[n].id else tip
  {
    assert InBranch(hdr, known, ds, n);
    DepthAlong(hdr, known, ds, best, n);
    if n > 0 && Overtaken(hdr, best, ds, n) {
      ExtensionIsLegit(hdr, ds[n - 1].id, ds[n].id);
    }
  }

  /** A branch that drops at most 512 blocks, delivered in order to a node without orphans: the tip stays what
      it was until a block of the branch may take over, and is the last block of the branch from then on. */
  method DeliverBranch(t: Tree, ds: seq<Block>, env: Env)
    requires t.Valid() && t.pool.pending == {} && t.pool.meta == map[]
    requires IsBranch(t.hdr, t.nodes.Keys, ds) && forall i :: 0 <= i < |ds| ==> Acceptable(env, ds[i])
    requires ds != [] ==> Dropped(t.hdr, t.best, ds[0].id) <= POW_SEED_LAG
    modifies t, t.pool
    ensures t.Valid() && t.pool.meta == map[]
    ensures t.best == TipAfter(t.hdr, old(t.best), ds, |ds|)
    ensures t.nodes.Keys == old(t.nodes.Keys) + Ids(ds)
  {
    ghost var known, best := t.nodes.Keys, t.best;
    assert ds[..0] == [] && ds[..|ds|] == ds;
    for i := 0 to |ds|
      invariant t.Valid() && t.pool.pending == {} && t.pool.meta == map[]
      invariant Midway(t.hdr, known, best, ds, i, t.nodes.Keys, t.best)
    {
      assert Acceptable(env, ds[i]);
      OneFurther(t.hdr, known, best, ds, i, t.nodes.Keys, t.best);
      DeliverOne(t, ds[i], env);
    }
  }

  /** Where a node is after the first n blocks. */
  ghost predicate Midway(hdr: Id -> Header, known: set<Id>, best: Id, ds: seq<Block>, n: nat, keys: set<Id>, tip: Id) {
    n <= |ds| && keys == known + Ids(ds[..n]) && tip == TipAfter(hdr, best, ds, n)
  }

  lemma {:induction false} OneFurther(hdr: Id -> Header, known: set<Id>, best: Id, ds: seq<Block>, n: nat,
          keys: set<Id>, tip: Id)
    requires IsBranch(hdr, known, ds) && n < |ds| && Dropped(hdr, best, ds[0].id) <= POW_SEED_LAG
    requires Midway(hdr, known, best, ds, n, keys, tip)
    ensures var id := ds[n].id;
      && id !in keys && hdr(id).prev in keys && Linked(hdr, id) && hdr(id).difficulty > 0 && !TooDeep(hdr, tip, id)
      && Midway(hdr, known, best, ds, n + 1, keys + {id}, if Legit(hdr, Change(tip, id)) then id else tip)
  {
    NewInBranch(hdr, known, ds, n);
    NextTip(hdr, known, ds, best, n);
    IdsMore(ds, n);
  }

  /** One block of it. */
  method DeliverOne(t: Tree, b: Block, env: Env)
    requires t.Valid() && t.pool.pending == {} && t.pool.meta == map[] && Acceptable(env, b)
    requires b.id !in t.nodes && t.hdr(b.id).prev in t.nodes && Linked(t.hdr, b.id) && t.hdr(b.id).difficulty > 0
    requires !TooDeep(t.hdr, t.best, b.id)
    modifies t, t.pool
    ensures t.Valid() && t.pool.pending == {} && t.pool.meta == map[]
    ensures t.nodes.Keys == old(t.nodes.Keys) + {b.id}
    ensures t.best == if Legit(t.hdr, Change(old(t.best), b.id)) then b.id else old(t.best)
  {
    var r := t.AddBlock(b, env, {});
  }

  lemma {:induction false} IdsMore(ds: seq<Block>, i: nat)
    requires i < |ds|
    ensures Ids(ds[..i + 1]) == Ids(ds[..i]) + {ds[i].id}
  {
    assert ds[..i + 1] == ds[..i] + [ds[i]];
  }

  lemma {:induction false} NewInBranch(hdr: Id -> Header, known: set<Id>, ds: seq<Block>, i: nat)
    requires IsBranch(hdr, known, ds) && i < |ds|
    ensures ds[i].id !in known + Ids(ds[..i]) && hdr(ds[i].id).prev in known + Ids(ds[..i])
    ensures Linked(hdr, ds[i].id) && hdr(ds[i].id).difficulty > 0
  {
    assert InBranch(hdr, known, ds, i);
    if ds[i].id in Ids(ds[..i]) {
      var c :| c in ds[..i] && c.id == ds[i].id;
      var k :| 0 <= k < i && ds[k] == c;
      HeightsRise(hdr, known, ds, k, i);
    }
    if i > 0 { assert ds[i - 1] in ds[..i]; }
  }
}
