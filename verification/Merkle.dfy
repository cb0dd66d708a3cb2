/** The transaction merkle tree with symbolic, domain-separated hashing: a leaf digest never
    equals an internal one, and both are injective. */
module Merkle {
  import opened Sequences
  import opened Wrappers
  import opened Bits

  type Id = nat

  datatype Digest = Zero | Leaf(id: Id) | Node(left: Digest, right: Digest)

  // -------------------------------------------------------------------------- root

  /** Pairs of neighbours; an odd last node is paired with itself. */
  function NextLayer(layer: seq<Digest>): seq<Digest> {
    seq((|layer| + 1) / 2, i requires 0 <= i < (|layer| + 1) / 2 =>
      Node(layer[2 * i], if 2 * i + 1 < |layer| then layer[2 * i + 1] else layer[2 * i]))
  }

  function RootOf(layer: seq<Digest>): Digest
    requires layer != []
    decreases |layer|
  {
    if |layer| == 1 then layer[0] else RootOf(NextLayer(layer))
  }

  function Leaves(ids: seq<Id>): seq<Digest> {
    seq(|ids|, i requires 0 <= i < |ids| => Leaf(ids[i]))
  }

  function Root(ids: seq<Id>): Digest {
    if ids == [] then Zero else RootOf(Leaves(ids))
  }

  /** The smallest trees: left before right, and an odd node paired with itself. */
  lemma {:induction false} SmallTrees(a: Id, b: Id, c: Id)
    ensures Root([]) == Zero && Root([a]) == Leaf(a) && Root([a, b]) == Node(Leaf(a), Leaf(b))
    ensures Root([a, b, c]) == Node(Node(Leaf(a), Leaf(b)), Node(Leaf(c), Leaf(c)))
  {
    assert Leaves([a]) == [Leaf(a)];
    var two, three := Leaves([a, b]), Leaves([a, b, c]);
    assert two == [Leaf(a), Leaf(b)] && three == [Leaf(a), Leaf(b), Leaf(c)];
    assert NextLayer(two) == [Node(Leaf(a), Leaf(b))];
    var pair := NextLayer(three);
    assert pair == [Node(Leaf(a), Leaf(b)), Node(Leaf(c), Leaf(c))];
    assert NextLayer(pair) == [Node(pair[0], pair[1])];
    assert RootOf(NextLayer(two)) == NextLayer(two)[0];
    assert RootOf(pair) == RootOf(NextLayer(pair)) == NextLayer(pair)[0];
  }

  method MerkleRoot(ids: seq<Id>) returns (root: Digest)
    ensures root == Root(ids)
  {
    if |ids| == 0 {
      return Zero;
    }
    var layer := Leaves(ids);
    while |layer| > 1
      invariant layer != [] && RootOf(layer) == Root(ids)
      decreases |layer|
    {
      var next := [];
      var i := 0;
      while i < |layer|
        invariant i % 2 == 0 && 0 <= i <= |layer| + 1 && |next| == i / 2
        invariant forall k :: 0 <= k < |next| ==> next[k] == NextLayer(layer)[k]
        decreases |layer| - i
      {
        var r := layer[i];
        if i + 1 < |layer| {
          r := layer[i + 1];
        }
        next := next + [Node(layer[i], r)];
        i := i + 2;
      }
      assert next == NextLayer(layer);
      layer := next;
    }
    return layer[0];
  }

  // ------------------------------------------------------------------- injectivity

  lemma {:induction false} NextLayerDistinct(layer: seq<Digest>)
    requires Distinct(layer)
    ensures Distinct(NextLayer(layer))
  {
    var next := NextLayer(layer);
    forall i, j | 0 <= i < j < |next| ensures next[i] != next[j] {
      assert layer[2 * i] != layer[2 * j];
    }
  }

  /** A layer of distinct nodes can be read back from the layer above it. */
  lemma {:induction false} NextLayerInjective(s: seq<Digest>, t: seq<Digest>)
    requires Distinct(s) && Distinct(t) && NextLayer(s) == NextLayer(t)
    ensures s == t
  {
    var n := |NextLayer(s)|;
    assert |NextLayer(t)| == n;
    forall i | 0 <= i < n
      ensures s[2 * i] == t[2 * i]
      ensures 2 * i + 1 < |s| <==> 2 * i + 1 < |t|
      ensures 2 * i + 1 < |s| && 2 * i + 1 < |t| ==> s[2 * i + 1] == t[2 * i + 1]
    {
      assert NextLayer(s)[i] == NextLayer(t)[i];
      assert 2 * i + 1 < |s| ==> s[2 * i] != s[2 * i + 1];
      assert 2 * i + 1 < |t| ==> t[2 * i] != t[2 * i + 1];
    }
    assert |s| == |t| by {
      if n > 0 {
        assert 2 * (n - 1) + 1 < |s| <==> 2 * (n - 1) + 1 < |t|;
      }
    }
    forall k | 0 <= k < |s| ensures s[k] == t[k] {
      assert k == 2 * (k / 2) || k == 2 * (k / 2) + 1;
    }
  }

  function Depth(n: nat): nat {
    if n <= 1 then 0 else 1 + Depth((n + 1) / 2)
  }

  /** Every path of the tree has length d. */
  predicate Perfect(t: Digest, d: nat) {
    if d == 0 then t.Leaf? else t.Node? && Perfect(t.left, d - 1) && Perfect(t.right, d - 1)
  }

  ghost predicate AllPerfect(layer: seq<Digest>, d: nat) {
    forall i :: 0 <= i < |layer| ==> Perfect(layer[i], d)
  }

  lemma {:induction false} RootPerfect(layer: seq<Digest>, d: nat)
    requires layer != [] && AllPerfect(layer, d)
    ensures Perfect(RootOf(layer), d + Depth(|layer|))
    decreases |layer|
  {
    if |layer| > 1 {
      NextLayerPerfect(layer, d);
      RootPerfect(NextLayer(layer), d + 1);
    }
  }

  lemma {:induction false} PerfectDepthUnique(t: Digest, d: nat, e: nat)
    requires Perfect(t, d) && Perfect(t, e)
    ensures d == e
  {
    if d > 0 && e > 0 { PerfectDepthUnique(t.left, d - 1, e - 1); }
  }

  lemma {:induction false} RootInjective(s: seq<Digest>, t: seq<Digest>, d: nat)
    requires s != [] && t != [] && Distinct(s) && Distinct(t) && AllPerfect(s, d) && AllPerfect(t, d)
    requires RootOf(s) == RootOf(t)
    ensures s == t
    decreases |s| + |t|
  {
    RootPerfect(s, d);
    RootPerfect(t, d);
    PerfectDepthUnique(RootOf(s), d + Depth(|s|), d + Depth(|t|));
    if |s| == 1 || |t| == 1 {
      assert |s| == |t| == 1;
      assert s == [s[0]] && t == [t[0]];
    } else {
      NextLayerDistinct(s);
      NextLayerDistinct(t);
      NextLayerPerfect(s, d);
      NextLayerPerfect(t, d);
      RootInjective(NextLayer(s), NextLayer(t), d + 1);
      NextLayerInjective(s, t);
    }
  }

  lemma {:induction false} NextLayerPerfect(layer: seq<Digest>, d: nat)
    requires AllPerfect(layer, d)
    ensures AllPerfect(NextLayer(layer), d + 1)
  {
    forall i | 0 <= i < |NextLayer(layer)| ensures Perfect(NextLayer(layer)[i], d + 1) {
      assert Perfect(layer[2 * i], d);
      assert 2 * i + 1 < |layer| ==> Perfect(layer[2 * i + 1], d);
    }
  }

  /** Two lists without duplicate ids, of any lengths, have the same root only if they are equal. */
  lemma {:induction false} MerkleRootInjective(ids: seq<Id>, ids': seq<Id>)
    requires Distinct(ids) && Distinct(ids') && Root(ids) == Root(ids')
    ensures ids == ids'
  {
    var s, t := Leaves(ids), Leaves(ids');
    assert forall i :: 0 <= i < |ids| ==> s[i] == Leaf(ids[i]);
    assert forall i :: 0 <= i < |ids'| ==> t[i] == Leaf(ids'[i]);
    if ids != [] { RootPerfect(s, 0); }
    if ids' != [] { RootPerfect(t, 0); }
    if ids != [] && ids' != [] {
      RootInjective(s, t, 0);
    }
  }

  /** Without the duplicate check the root does not determine the list: repeating the last id of
      any odd list keeps the root. */
  lemma {:induction false} OddListCollides(ids: seq<Id>)
    requires |ids| % 2 == 1 && |ids| > 1
    ensures Root(ids + [ids[|ids| - 1]]) == Root(ids)
  {
    var s, t := Leaves(ids), Leaves(ids + [ids[|ids| - 1]]);
    assert NextLayer(s) == NextLayer(t);
  }

  // -------------------------------------------------------------- inclusion branches

  /** One sibling on the way up; Right when the sibling is the right child. */
  datatype Step = Step(hash: Digest, right: bool)

  function Combine(h: Digest, s: Step): Digest {
    if s.right then Node(h, s.hash) else Node(s.hash, h)
  }

  function Fold(h: Digest, steps: seq<Step>): Digest {
    if steps == [] then h else Combine(Fold(h, steps[..|steps| - 1]), steps[|steps| - 1])
  }

  lemma {:induction false} FoldFirst(h: Digest, steps: seq<Step>)
    requires steps != []
    ensures Fold(h, steps) == Fold(Combine(h, steps[0]), steps[1..])
  {
    if |steps| == 1 {
      assert steps[..0] == [] && steps[1..] == [];
    } else {
      var n := |steps| - 1;
      FoldFirst(h, steps[..n]);
      assert steps[..n][1..] == steps[1..][..n - 1];
    }
  }

  /** The leaf index a branch addresses: bit i is set when step i has its sibling on the left. */
  function Index(steps: seq<Step>): nat {
    if steps == [] then 0
    else Index(steps[..|steps| - 1]) + (if steps[|steps| - 1].right then 0 else Exp2(|steps| - 1))
  }

  lemma {:induction false} IndexFirst(steps: seq<Step>)
    requires steps != []
    ensures Index(steps) == (if steps[0].right then 0 else 1) + 2 * Index(steps[1..])
  {
    if |steps| == 1 {
      assert steps[..0] == [] && steps[1..] == [];
    } else {
      var n := |steps| - 1;
      IndexFirst(steps[..n]);
      assert steps[..n][1..] == steps[1..][..n - 1];
    }
  }

  lemma {:induction false} IndexBound(steps: seq<Step>)
    ensures Index(steps) < Exp2(|steps|)
  {
    if steps != [] { IndexBound(steps[..|steps| - 1]); }
  }

  /** The index as a 64-bit word holds it: a shift by 64 or more contributes nothing. */
  function Word(steps: seq<Step>): nat {
    Index(if |steps| <= 64 then steps else steps[..64])
  }

  method IndexFromSteps(steps: seq<Step>) returns (idx: nat)
    ensures idx == Word(steps)
  {
    idx := 0;
    for i := 0 to |steps|
      invariant idx == Index(steps[..if i <= 64 then i else 64])
    {
      if i < 64 {
        assert steps[..i + 1][..i] == steps[..i];
        if !steps[i].right {
          idx := idx + Exp2(i);
        }
      }
    }
    assert |steps| <= 64 ==> steps[..|steps|] == steps;
  }

  method VerifyMerkleProof(txid: Id, steps: seq<Step>, root: Digest) returns (ok: bool)
    ensures ok <==> Fold(Leaf(txid), steps) == root
  {
    var h := Leaf(txid);
    for i := 0 to |steps|
      invariant h == Fold(Leaf(txid), steps[..i])
    {
      assert steps[..i + 1][..i] == steps[..i];
      h := Combine(h, steps[i]);
    }
    assert steps[..|steps|] == steps;
    return h == root;
  }

  /** The branch of position pos, layer by layer. */
  function Branch(layer: seq<Digest>, pos: nat): seq<Step>
    requires pos < |layer|
    decreases |layer|
  {
    if |layer| == 1 then [] else [Sibling(layer, pos)] + Branch(NextLayer(layer), pos / 2)
  }

  /** What a position is paired with. */
  function Sibling(layer: seq<Digest>, pos: nat): Step
    requires pos < |layer|
  {
    if pos % 2 == 1 then Step(layer[pos - 1], false)
    else Step(if pos + 1 < |layer| then layer[pos + 1] else layer[pos], true)
  }

  /** MerkleProof: None for an index outside the list. */
  method MerkleProof(ids: seq<Id>, idx: int) returns (r: Option<seq<Step>>)
    ensures r.Some? <==> 0 <= idx < |ids|
    ensures r.Some? ==> r.value == Branch(Leaves(ids), idx)
  {
    if idx < 0 || idx >= |ids| {
      return None;
    }
    var layer, steps, pos: nat := Leaves(ids), [], idx;
    while |layer| > 1
      invariant pos < |layer|
      invariant steps + Branch(layer, pos) == Branch(Leaves(ids), idx)
      decreases |layer|
    {
      var next, here := Climb(layer, pos);
      assert steps + ([here] + Branch(next, pos / 2)) == (steps + [here]) + Branch(next, pos / 2);
      steps, pos, layer := steps + [here], pos / 2, next;
    }
    return Some(steps);
  }

  /** One layer of MerkleProof: the next layer and the sibling of pos. */
  method Climb(layer: seq<Digest>, pos: nat) returns (next: seq<Digest>, here: Step)
    requires pos < |layer|
    ensures next == NextLayer(layer) && here == Sibling(layer, pos)
  {
    next, here := [], Step(Zero, true);
    var i := 0;
    while i < |layer|
      invariant i % 2 == 0 && 0 <= i <= |layer| + 1 && |next| == i / 2
      invariant forall k :: 0 <= k < |next| ==> next[k] == NextLayer(layer)[k]
      invariant pos < i ==> here == Sibling(layer, pos)
      decreases |layer| - i
    {
      var l := layer[i];
      var r := l;
      if i + 1 < |layer| {
        r := layer[i + 1];
      }
      if i == pos {
        here := Step(r, true);
      } else if i + 1 == pos {
        here := Step(l, false);
      }
      next := next + [Node(l, r)];
      i := i + 2;
    }
  }

  /** Branches are complete: the branch of pos folds to the root and addresses pos. */
  lemma {:induction false} BranchComplete(layer: seq<Digest>, pos: nat)
    requires pos < |layer|
    ensures Fold(layer[pos], Branch(layer, pos)) == RootOf(layer)
    ensures Index(Branch(layer, pos)) == pos && |Branch(layer, pos)| == Depth(|layer|)
    decreases |layer|
  {
    if |layer| > 1 {
      var steps, next := Branch(layer, pos), NextLayer(layer);
      BranchComplete(next, pos / 2);
      FoldFirst(layer[pos], steps);
      IndexFirst(steps);
      assert steps[1..] == Branch(next, pos / 2);
      ClimbOne(layer, pos);
    }
  }

  lemma {:induction false} ClimbOne(layer: seq<Digest>, pos: nat)
    requires pos < |layer|
    ensures Combine(layer[pos], Sibling(layer, pos)) == NextLayer(layer)[pos / 2]
  {
  }

  /** The leaf at index i of a tree of depth d. */
  function Walk(t: Digest, d: nat, i: nat): Id
    requires Perfect(t, d) && i < Exp2(d)
  {
    if d == 0 then t.id
    else if i < Exp2(d - 1) then Walk(t.left, d - 1, i)
    else Walk(t.right, d - 1, i - Exp2(d - 1))
  }

  /** Whatever siblings a prover picks, a branch that folds to a perfect tree has that tree's
      depth and starts at the leaf it addresses. */
  lemma {:induction false} FoldFindsLeaf(x: Id, steps: seq<Step>, t: Digest, d: nat)
    requires Perfect(t, d) && Fold(Leaf(x), steps) == t
    ensures |steps| == d && Index(steps) < Exp2(d) && Walk(t, d, Index(steps)) == x
    decreases |steps|
  {
    IndexBound(steps);
    if steps != [] {
      var n := |steps| - 1;
      IndexBound(steps[..n]);
      FoldFindsLeaf(x, steps[..n], if steps[n].right then t.left else t.right, d - 1);
    }
  }

  /** Branch soundness: a branch accepted against the root of ids, addressing a position inside
      the list, has the tree's depth and proves exactly the id at that position. */
  lemma {:induction false} BranchSound(ids: seq<Id>, x: Id, steps: seq<Step>)
    requires ids != [] && Fold(Leaf(x), steps) == Root(ids)
    ensures |steps| == Depth(|ids|)
    ensures Index(steps) < |ids| ==> x == ids[Index(steps)]
  {
    var layer, d := Leaves(ids), Depth(|ids|);
    RootPerfect(layer, 0);
    FoldFindsLeaf(x, steps, Root(ids), d);
    var i := Index(steps);
    if i < |ids| {
      BranchComplete(layer, i);
      FoldFindsLeaf(ids[i], Branch(layer, i), Root(ids), d);
    }
  }
}
