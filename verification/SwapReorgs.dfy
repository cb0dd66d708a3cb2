/** A refunded swap cannot turn into a claimed one by a reorganisation: the claim window closes the
    deepest accepted reorganisation before the refund opens. */
module SwapReorgs {
  import opened OrphanBuffer
  import opened ForkPaths
  import F = ForkChoice
  import C = Contracts
  import L = LedgerModel

  lemma {:induction false} CommonPrefix(s: seq<Id>, t: seq<Id>)
    ensures CommonLength(s, t) <= |s| && CommonLength(s, t) <= |t|
    ensures s[..CommonLength(s, t)] == t[..CommonLength(s, t)]
    ensures forall i :: 0 <= i < CommonLength(s, t) ==> t[i] in s
  {
    if s != [] && t != [] && s[0] == t[0] {
      CommonPrefix(s[1..], t[1..]);
      var n := CommonLength(s[1..], t[1..]);
      assert s[..n + 1] == [s[0]] + s[1..][..n] && t[..n + 1] == [t[0]] + t[1..][..n];
      forall i | 0 <= i < n + 1 ensures t[i] in s {
        assert i > 0 ==> t[i] == t[1..][i - 1];
      }
    }
  }

  /** A block of the new branch that is not on the old one lies above everything they share. */
  lemma {:induction false} NewBlocksAreHigh(hdr: Id -> Header, genesis: Id, a: Id, b: Id, c: Id)
    requires Rooted(hdr, genesis, a) && Rooted(hdr, genesis, b)
    requires c in Path(hdr, b) && c !in Path(hdr, a)
    ensures hdr(c).height > hdr(a).height - Dropped(hdr, a, b)
  {
    var s, t := Path(hdr, a), Path(hdr, b);
    PathHeights(hdr, genesis, a);
    PathHeights(hdr, genesis, b);
    CommonPrefix(s, t);
    var i :| 0 <= i < |t| && t[i] == c;
  }

  /** If block r of the active branch refunds a swap and an accepted tip change leads from a to b,
      then no block that b's branch brings in can claim a swap on those terms, whatever its state. */
  lemma {:induction false} RefundThenNoClaim(hdr: Id -> Header, genesis: Id, a: Id, b: Id, r: Id, c: Id, R: L.State,
          k: C.Id, S: L.State, j: C.Id)
    requires Rooted(hdr, genesis, a) && Rooted(hdr, genesis, b) && F.Legit(hdr, F.Change(a, b))
    requires r in Path(hdr, a) && L.LegOk(R, hdr(r).height, L.SwapIn(k, true))
    requires c in Path(hdr, b) && c !in Path(hdr, a)
    requires j in S.swaps && S.swaps[j] == R.swaps[k]
    ensures !L.LegOk(S, hdr(c).height, L.SwapIn(j, false))
  {
    PathHeights(hdr, genesis, a);
    NewBlocksAreHigh(hdr, genesis, a, b, c);
  }
}
