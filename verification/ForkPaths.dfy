/** Branches of the block tree as sequences of ids, cumulative work, and the order the fork
    choice maximises. Everything here depends only on the headers that ids stand for. */
module ForkPaths {
  import opened OrphanBuffer

  predicate Linked(hdr: Id -> Header, id: Id) {
    hdr(id).height > 0 && hdr(hdr(id).prev).height + 1 == hdr(id).height
  }

  /** genesis..id. */
  function Path(hdr: Id -> Header, id: Id): (s: seq<Id>)
    ensures s != [] && s[|s| - 1] == id
    decreases hdr(id).height
  {
    if Linked(hdr, id) then Path(hdr, hdr(id).prev) + [id] else [id]
  }

  function Work(hdr: Id -> Header, id: Id): nat
    decreases hdr(id).height
  {
    (if Linked(hdr, id) then Work(hdr, hdr(id).prev) else 0) + hdr(id).difficulty
  }

  /** The chain of parents reaches genesis with heights falling by one. */
  predicate Rooted(hdr: Id -> Header, genesis: Id, id: Id)
    decreases hdr(id).height
  {
    if Linked(hdr, id) then Rooted(hdr, genesis, hdr(id).prev) else id == genesis && hdr(id).height == 0
  }

  /** More cumulative work, or equal work and a lower hash. */
  predicate Better(hdr: Id -> Header, a: Id, b: Id) {
    Work(hdr, a) > Work(hdr, b) || (Work(hdr, a) == Work(hdr, b) && a < b)
  }

  /** a is the best of a set of blocks. */
  ghost predicate IsTop(hdr: Id -> Header, ids: set<Id>, a: Id) {
    a in ids && forall b :: b in ids && b != a ==> Better(hdr, a, b)
  }

  /** The best block is unique: nodes that hold the same blocks agree on it. */
  lemma {:induction false} TopUnique(hdr: Id -> Header, ids: set<Id>, a: Id, b: Id)
    requires IsTop(hdr, ids, a) && IsTop(hdr, ids, b)
    ensures a == b
  {
  }

  /** A newcomer takes the top exactly when it is better than the old one. */
  lemma {:induction false} TopGrows(hdr: Id -> Header, ids: set<Id>, a: Id, id: Id)
    requires IsTop(hdr, ids, a) && id !in ids
    ensures IsTop(hdr, ids + {id}, if Better(hdr, id, a) then id else a)
  {
  }

  function CommonLength(s: seq<Id>, t: seq<Id>): nat {
    if s == [] || t == [] || s[0] != t[0] then 0 else 1 + CommonLength(s[1..], t[1..])
  }

  /** How many blocks of old's branch are not on new's. */
  function Dropped(hdr: Id -> Header, old_: Id, new_: Id): int {
    |Path(hdr, old_)| - CommonLength(Path(hdr, old_), Path(hdr, new_))
  }

  lemma {:induction false} PathHeights(hdr: Id -> Header, genesis: Id, id: Id)
    requires Rooted(hdr, genesis, id)
    ensures |Path(hdr, id)| == hdr(id).height + 1
    ensures forall i :: 0 <= i < |Path(hdr, id)| ==> hdr(Path(hdr, id)[i]).height == i
    ensures Path(hdr, id)[0] == genesis
    decreases hdr(id).height
  {
    if Linked(hdr, id) { PathHeights(hdr, genesis, hdr(id).prev); }
  }

  /** The branch of a block on the branch is the initial part of it. */
  lemma {:induction false} PathOfAncestor(hdr: Id -> Header, genesis: Id, id: Id, i: nat)
    requires Rooted(hdr, genesis, id) && i < |Path(hdr, id)|
    ensures Path(hdr, Path(hdr, id)[i]) == Path(hdr, id)[..i + 1]
    decreases hdr(id).height
  {
    var p := Path(hdr, id);
    if i == |p| - 1 {
      assert p[..i + 1] == p;
    } else {
      var q := Path(hdr, hdr(id).prev);
      PathOfAncestor(hdr, genesis, hdr(id).prev, i);
      assert p[..i + 1] == q[..i + 1];
    }
  }

  lemma {:induction false} CommonLengthIs(s: seq<Id>, t: seq<Id>, n: nat)
    requires n <= |s| && n <= |t| && s[..n] == t[..n]
    requires n == |s| || n == |t| || s[n] != t[n]
    ensures CommonLength(s, t) == n
  {
    if n > 0 {
      assert s[0] == s[..n][0] == t[..n][0] == t[0];
      assert s[1..][..n - 1] == s[..n][1..] == t[..n][1..] == t[1..][..n - 1];
      CommonLengthIs(s[1..], t[1..], n - 1);
    }
  }

  /** The last block of old's branch that is on new's branch is the fork point. */
  lemma {:induction false} ForkPoint(hdr: Id -> Header, genesis: Id, p: Id, q: Id, i: nat)
    requires Rooted(hdr, genesis, p) && Rooted(hdr, genesis, q) && i < |Path(hdr, p)|
    requires Path(hdr, p)[i] in Path(hdr, q)
    requires forall j :: i < j < |Path(hdr, p)| ==> Path(hdr, p)[j] !in Path(hdr, q)
    ensures Dropped(hdr, p, q) == hdr(p).height - i
  {
    var s, t := Path(hdr, p), Path(hdr, q);
    PathHeights(hdr, genesis, p);
    PathHeights(hdr, genesis, q);
    var k :| 0 <= k < |t| && t[k] == s[i];
    assert k == i;
    PathOfAncestor(hdr, genesis, p, i);
    PathOfAncestor(hdr, genesis, q, i);
    CommonLengthIs(s, t, i + 1);
  }

  /** Extending the tip drops nothing. */
  lemma {:induction false} ExtensionDropsNothing(hdr: Id -> Header, p: Id, q: Id)
    requires Linked(hdr, q) && hdr(q).prev == p
    ensures Dropped(hdr, p, q) == 0
  {
    var s, t := Path(hdr, p), Path(hdr, q);
    assert t[..|s|] == s && s[..|s|] == s;
    CommonLengthIs(s, t, |s|);
  }

  /** One step back along a branch. */
  lemma {:induction false} ParentOnPath(hdr: Id -> Header, genesis: Id, id: Id, i: nat)
    requires Rooted(hdr, genesis, id) && i < |Path(hdr, id)|
    ensures hdr(Path(hdr, id)[i]).height == i
    ensures i > 0 ==> Linked(hdr, Path(hdr, id)[i]) && Path(hdr, id)[i - 1] == hdr(Path(hdr, id)[i]).prev
    decreases hdr(id).height
  {
    PathHeights(hdr, genesis, id);
    if i < |Path(hdr, id)| - 1 {
      ParentOnPath(hdr, genesis, hdr(id).prev, i);
    }
  }

  lemma {:induction false} PathElements(hdr: Id -> Header, genesis: Id, id: Id)
    requires Rooted(hdr, genesis, id)
    ensures |Path(hdr, id)| == hdr(id).height + 1 && genesis in Path(hdr, id)
  {
    PathHeights(hdr, genesis, id);
  }

  /** From a block of the branch other than genesis one can step back to its parent. */
  lemma {:induction false} StepBack(hdr: Id -> Header, genesis: Id, id: Id, i: nat)
    requires Rooted(hdr, genesis, id) && i < |Path(hdr, id)| && Path(hdr, id)[i] != genesis
    ensures i > 0 && Linked(hdr, Path(hdr, id)[i]) && Path(hdr, id)[i - 1] == hdr(Path(hdr, id)[i]).prev
  {
    PathHeights(hdr, genesis, id);
    ParentOnPath(hdr, genesis, id, i);
  }

  // ------------------------------------------------------------------------------------ work

  function TotalDifficulty(hdr: Id -> Header, ids: seq<Id>): nat {
    if ids == [] then 0 else TotalDifficulty(hdr, ids[..|ids| - 1]) + hdr(ids[|ids| - 1]).difficulty
  }

  /** The work of a block is the difficulty of its whole branch, its own included. */
  lemma {:induction false} WorkIsTotal(hdr: Id -> Header, id: Id)
    ensures Work(hdr, id) == TotalDifficulty(hdr, Path(hdr, id))
    decreases hdr(id).height
  {
    if Linked(hdr, id) {
      WorkIsTotal(hdr, hdr(id).prev);
      assert Path(hdr, id)[..|Path(hdr, id)| - 1] == Path(hdr, hdr(id).prev);
    } else {
      assert Path(hdr, id)[..0] == [];
    }
  }
}
