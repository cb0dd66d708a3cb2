/** The commitment tree sharded into epochs of a fixed capacity, and the roots a spend may name: the
    terminal roots of finished epochs for ever, recent roots of the current epoch in a rolling window. */
module EpochAnchors {
  import opened Sequences
  import opened LedgerModel

  type Leaf = nat

  /** The root of an epoch tree, taken to determine its leaves. */
  type EpochRoot = seq<Leaf>

  ghost function Elements<X>(s: seq<X>): set<X> { set x | x in s }

  /** All epochs but the last are full; the last one is not empty unless it is the only one. */
  ghost predicate Sharded(trees: seq<EpochRoot>, cap: nat, leaves: seq<Leaf>) {
    && cap > 0 && trees != []
    && (forall e :: 0 <= e < |trees| - 1 ==> |trees[e]| == cap)
    && |trees[|trees| - 1]| <= cap && (|trees| > 1 ==> trees[|trees| - 1] != [])
    && |leaves| == (|trees| - 1) * cap + |trees[|trees| - 1]|
    && (forall i :: 0 <= i < |leaves| ==> At(trees, cap, leaves, i))
  }

  /** Leaf i sits in epoch i / cap. */
  ghost predicate At(trees: seq<EpochRoot>, cap: nat, leaves: seq<Leaf>, i: nat)
    requires cap > 0 && i < |leaves|
  {
    i / cap < |trees| && i % cap < |trees[i / cap]| && trees[i / cap][i % cap] == leaves[i]
  }

  /** The last of a list, up to the window. */
  function Newest<X>(s: seq<X>): seq<X> {
    if |s| > ANCHOR_WINDOW then s[|s| - ANCHOR_WINDOW..] else s
  }

  class CommitmentTree {
    /** Coins per epoch. */
    const cap: nat
    var trees: seq<EpochRoot>
    var final: set<EpochRoot>
    var roots: set<EpochRoot>
    var order: seq<EpochRoot>
    ghost var leaves: seq<Leaf>

    /** The known roots are the permanent ones and those in the window. */
    ghost predicate Windowed()
      reads this
    {
      roots == final + Elements(order) && Distinct(order)
    }

    ghost predicate Valid()
      reads this
    {
      Sharded(trees, cap, leaves) && Windowed() && |order| <= ANCHOR_WINDOW
    }

    constructor (cap: nat)
      requires cap > 0
      ensures Valid() && leaves == [] && this.cap == cap
    {
      this.cap, trees, final, roots, order, leaves := cap, [[]], {}, {}, [], [];
    }

    /** Append rolls to a new epoch tree when the current one is full. */
    method Append(leaf: Leaf)
      requires Sharded(trees, cap, leaves)
      modifies this`trees, this`leaves
      ensures Sharded(trees, cap, leaves) && leaves == old(leaves) + [leaf]
    {
      var last := |trees| - 1;
      if |trees[last]| == cap {
        RollOver(trees, cap, leaves, leaf);
        trees := trees + [[leaf]];
      } else {
        FillUp(trees, cap, leaves, leaf);
        trees := trees[last := trees[last] + [leaf]];
      }
      leaves := leaves + [leaf];
    }

    /** The terminal roots of all finished epochs become permanent. */
    method Finalize()
      requires trees != [] && Windowed()
      modifies this`final, this`roots
      ensures Windowed() && final == old(final) + Elements(trees[..|trees| - 1])
      ensures roots == old(roots) + Elements(trees[..|trees| - 1])
    {
      for e := 0 to |trees| - 1
        invariant final == old(final) + Elements(trees[..e]) && roots == old(roots) + Elements(trees[..e])
      {
        assert trees[..e + 1] == trees[..e] + [trees[e]];
        final, roots := final + {trees[e]}, roots + {trees[e]};
      }
    }

    /** recordCMAnchorLocked. */
    method RecordAnchor()
      requires Sharded(trees, cap, leaves) && Windowed() && |order| <= ANCHOR_WINDOW
      modifies this`final, this`roots, this`order
      ensures Valid() && old(final) <= final
      ensures leaves == [] ==> final == old(final) && order == old(order)
      ensures leaves != [] ==> forall e :: 0 <= e < |trees| ==> trees[e] in roots
      ensures leaves != [] ==> var (done, current) := (trees[..|trees| - 1], trees[|trees| - 1]);
        && final == old(final) + Elements(done)
        && order == if current in old(roots) + Elements(done) then old(order) else Newest(old(order) + [current])
    {
      if |trees| == 1 && trees[0] == [] {
        return;
      }
      Finalize();
      Note(trees[|trees| - 1]);
      forall e | 0 <= e < |trees| ensures trees[e] in roots {
        assert e < |trees| - 1 ==> trees[e] in trees[..|trees| - 1];
      }
    }

    /** The root of the current epoch enters the window unless it is known. */
    method Note(current: EpochRoot)
      requires Windowed() && |order| <= ANCHOR_WINDOW
      modifies this`roots, this`order
      ensures Windowed() && |order| <= ANCHOR_WINDOW && current in roots
      ensures order == if current in old(roots) then old(order) else Newest(old(order) + [current])
    {
      if current !in roots {
        roots, order := roots + {current}, order + [current];
        Evict(current);
      }
    }

    /** The oldest windowed roots go, unless they have become permanent. */
    method Evict(ghost current: EpochRoot)
      requires Windowed() && order != [] && order[|order| - 1] == current
      modifies this`roots, this`order
      ensures Windowed() && |order| <= ANCHOR_WINDOW && current in roots && order == Newest(old(order))
    {
      while |order| > ANCHOR_WINDOW
        invariant Windowed() && order != [] && order[|order| - 1] == current
        invariant |order| <= |old(order)| && order == old(order)[|old(order)| - |order|..]
        invariant order == old(order) || |order| >= ANCHOR_WINDOW
      {
        var oldest := order[0];
        TailDistinct(order);
        order := order[1..];
        if oldest !in final {
          roots := roots - {oldest};
        }
      }
    }

    /** The leaves of a block, then the anchors: afterwards every leaf ever appended lies under a known
        root, however many epochs the block crossed and however long ago the leaf was minted. */
    method ApplyBlock(more: seq<Leaf>)
      requires Valid()
      modifies this
      ensures Valid() && leaves == old(leaves) + more && old(final) <= final
      ensures forall i :: 0 <= i < |leaves| ==> Anchored(roots, cap, leaves, i)
    {
      for k := 0 to |more|
        invariant Valid() && leaves == old(leaves) + more[..k] && old(final) <= final
      {
        assert more[..k + 1] == more[..k] + [more[k]];
        Append(more[k]);
      }
      assert more[..|more|] == more;
      RecordAnchor();
      if leaves != [] {
        AllAnchored(trees, roots, cap, leaves);
      }
    }
  }

  /** Some known root has the leaf at its place within the epoch. */
  ghost predicate Anchored(roots: set<EpochRoot>, cap: nat, leaves: seq<Leaf>, i: nat)
    requires cap > 0 && i < |leaves|
  {
    exists r :: r in roots && i % cap < |r| && r[i % cap] == leaves[i]
  }

  lemma {:induction false} AllAnchored(trees: seq<EpochRoot>, roots: set<EpochRoot>, cap: nat, leaves: seq<Leaf>)
    requires Sharded(trees, cap, leaves) && forall e :: 0 <= e < |trees| ==> trees[e] in roots
    ensures forall i :: 0 <= i < |leaves| ==> Anchored(roots, cap, leaves, i)
  {
    forall i | 0 <= i < |leaves| ensures Anchored(roots, cap, leaves, i) {
      assert At(trees, cap, leaves, i);
      assert trees[i / cap] in roots;
    }
  }

  lemma {:induction false} TailDistinct<X>(s: seq<X>)
    requires Distinct(s) && |s| > 1
    ensures Distinct(s[1..]) && Elements(s) == Elements(s[1..]) + {s[0]} && s[0] !in s[1..]
  {
    assert s == [s[0]] + s[1..];
    forall i | 0 <= i < |s[1..]| ensures s[1..][i] != s[0] {
      assert s[1..][i] == s[i + 1];
    }
  }

  lemma {:induction false} Position(q: nat, r: nat, cap: nat)
    requires r < cap
    ensures (q * cap + r) / cap == q && (q * cap + r) % cap == r
  {
    if q > 0 {
      Position(q - 1, r, cap);
      assert q * cap + r == (q - 1) * cap + r + cap;
      NextQuotient((q - 1) * cap + r, cap);
    }
  }

  lemma {:induction false} NextQuotient(x: nat, cap: nat)
    requires cap > 0
    ensures (x + cap) / cap == x / cap + 1 && (x + cap) % cap == x % cap
  {
    var q, r := x / cap, x % cap;
    assert x + cap == cap * (q + 1) + r;
    Unique(x + cap, cap, q + 1, r);
  }

  lemma {:induction false} Unique(x: nat, cap: nat, q: nat, r: nat)
    requires r < cap && x == cap * q + r
    ensures x / cap == q && x % cap == r
  {
    var p, s := x / cap, x % cap;
    assert cap * p + s == cap * q + r;
    assert cap * (p - q) == r - s;
    assert p - q >= 1 ==> cap * (p - q) >= cap;
    assert p - q <= -1 ==> cap * (p - q) <= -(cap as int);
  }

  lemma {:induction false} RollOver(trees: seq<EpochRoot>, cap: nat, leaves: seq<Leaf>, leaf: Leaf)
    requires Sharded(trees, cap, leaves) && |trees[|trees| - 1]| == cap
    ensures Sharded(trees + [[leaf]], cap, leaves + [leaf])
  {
    var ts, ls := trees + [[leaf]], leaves + [leaf];
    assert |leaves| == |trees| * cap;
    Position(|trees|, 0, cap);
    forall i | 0 <= i < |ls| ensures At(ts, cap, ls, i) {
      if i < |leaves| { assert At(trees, cap, leaves, i); }
    }
  }

  lemma {:induction false} FillUp(trees: seq<EpochRoot>, cap: nat, leaves: seq<Leaf>, leaf: Leaf)
    requires Sharded(trees, cap, leaves) && |trees[|trees| - 1]| < cap
    ensures Sharded(trees[|trees| - 1 := trees[|trees| - 1] + [leaf]], cap, leaves + [leaf])
  {
    var last := |trees| - 1;
    var ts, ls := trees[last := trees[last] + [leaf]], leaves + [leaf];
    forall i | 0 <= i < |leaves| ensures At(ts, cap, ls, i) {
      assert At(trees, cap, leaves, i);
      StillAt(trees, cap, leaves, leaf, i);
    }
    NewestAt(ts, cap, ls, last, |trees[last]|);
    assert forall i :: 0 <= i < |ls| ==> At(ts, cap, ls, i);
  }

  lemma {:induction false} NewestAt(ts: seq<EpochRoot>, cap: nat, ls: seq<Leaf>, e: nat, k: nat)
    requires k < cap && |ls| == e * cap + k + 1 && e < |ts| && k < |ts[e]| && ts[e][k] == ls[|ls| - 1]
    ensures At(ts, cap, ls, |ls| - 1)
  {
    Position(e, k, cap);
  }

  lemma {:induction false} StillAt(trees: seq<EpochRoot>, cap: nat, leaves: seq<Leaf>, leaf: Leaf, i: nat)
    requires trees != [] && cap > 0 && i < |leaves| && At(trees, cap, leaves, i)
    ensures At(trees[|trees| - 1 := trees[|trees| - 1] + [leaf]], cap, leaves + [leaf], i)
  {
  }
}
