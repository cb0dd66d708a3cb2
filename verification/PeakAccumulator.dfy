/** The append-only Merkle accumulator: a node that keeps only the roots of perfect subtrees has the
    same root as one that keeps every leaf and builds the tree level by level. */
module PeakAccumulator {
  import opened Merkle

  datatype Peak = Peak(hash: Digest, size: nat)

  // ------------------------------------------------------------------ the tree of all leaves

  /** One level up: neighbours are paired, a lone last node is promoted as it is. */
  function Promote(level: seq<Digest>): seq<Digest>
    decreases |level|
  {
    if level == [] then []
    else if |level| % 2 == 1 then Promote(level[..|level| - 1]) + [level[|level| - 1]]
    else Promote(level[..|level| - 2]) + [Node(level[|level| - 2], level[|level| - 1])]
  }

  lemma {:induction false} PromoteLength(level: seq<Digest>)
    ensures |Promote(level)| == (|level| + 1) / 2
    decreases |level|
  {
    if level != [] {
      PromoteLength(level[..|level| - if |level| % 2 == 1 then 1 else 2]);
    }
  }

  function TreeRoot(level: seq<Digest>): Digest
    decreases |level|
  {
    PromoteLength(level);
    if level == [] then Zero else if |level| == 1 then level[0] else TreeRoot(Promote(level))
  }

  /** The smallest trees: left before right, and a lone last node promoted. */
  lemma {:induction false} SmallRoots(a: Digest, b: Digest, c: Digest)
    ensures TreeRoot([]) == Zero && TreeRoot([a]) == a && TreeRoot([a, b]) == Node(a, b)
    ensures TreeRoot([a, b, c]) == Node(Node(a, b), c)
  {
    PromoteTwo(a, b);
    assert [a, b, c][..2] == [a, b];
    assert Promote([a, b, c]) == Promote([a, b]) + [c] == [Node(a, b), c];
    PromoteTwo(Node(a, b), c);
    assert TreeRoot([a, b, c]) == TreeRoot([Node(a, b), c]);
  }

  lemma {:induction false} PromoteTwo(a: Digest, b: Digest)
    ensures Promote([a, b]) == [Node(a, b)] && TreeRoot([a, b]) == Node(a, b)
  {
    assert [a, b][..0] == [];
    assert Promote([]) == [];
    assert TreeRoot([Node(a, b)]) == Node(a, b);
  }

  /** levels and Root of the leaf-retaining mode. */
  method LevelRoot(leaves: seq<Digest>) returns (root: Digest)
    ensures root == TreeRoot(leaves)
  {
    if leaves == [] {
      return Zero;
    }
    var cur := leaves;
    while |cur| > 1
      invariant cur != [] && TreeRoot(cur) == TreeRoot(leaves)
      decreases |cur|
    {
      PromoteLength(cur);
      cur := NextLevel(cur);
    }
    return cur[0];
  }

  method NextLevel(cur: seq<Digest>) returns (next: seq<Digest>)
    ensures next == Promote(cur)
  {
    next := [];
    var i := 0;
    while i < |cur|
      invariant 0 <= i <= |cur| && (i % 2 == 0 || i == |cur|) && next == Promote(cur[..i])
      decreases |cur| - i
    {
      if i + 1 < |cur| {
        PromotePair(cur[..i], cur[i], cur[i + 1]);
        assert cur[..i + 2] == cur[..i] + [cur[i], cur[i + 1]];
        next := next + [Node(cur[i], cur[i + 1])];
        i := i + 2;
      } else {
        PromoteLone(cur[..i], cur[i]);
        assert cur[..i + 1] == cur[..i] + [cur[i]];
        next := next + [cur[i]];
        i := i + 1;
      }
    }
    assert cur[..|cur|] == cur;
  }

  lemma {:induction false} PromotePair(s: seq<Digest>, a: Digest, b: Digest)
    requires |s| % 2 == 0
    ensures Promote(s + [a, b]) == Promote(s) + [Node(a, b)]
  {
    assert (s + [a, b])[..|s|] == s;
  }

  lemma {:induction false} PromoteLone(s: seq<Digest>, a: Digest)
    requires |s| % 2 == 0
    ensures Promote(s + [a]) == Promote(s) + [a]
  {
    assert (s + [a])[..|s|] == s;
  }

  // ------------------------------------------------------------------------------ peaks

  /** A new subtree swallows the peaks of its own size. */
  function Merge(peaks: seq<Peak>, p: Peak): seq<Peak> {
    if peaks != [] && peaks[|peaks| - 1].size == p.size
    then Merge(peaks[..|peaks| - 1], Peak(Node(peaks[|peaks| - 1].hash, p.hash), 2 * p.size))
    else peaks + [p]
  }

  function PeaksOf(s: seq<Digest>): seq<Peak> {
    if s == [] then [] else Merge(PeaksOf(s[..|s| - 1]), Peak(s[|s| - 1], 1))
  }

  /** node(P0, node(P1, ...)). */
  function Fold(peaks: seq<Peak>, acc: Digest): Digest {
    if peaks == [] then acc else Fold(peaks[..|peaks| - 1], Node(peaks[|peaks| - 1].hash, acc))
  }

  function PeakRoot(peaks: seq<Peak>): Digest {
    if peaks == [] then Zero else Fold(peaks[..|peaks| - 1], peaks[|peaks| - 1].hash)
  }

  /** Merging does not change the root. */
  lemma {:induction false} MergeKeepsRoot(peaks: seq<Peak>, p: Peak)
    ensures PeakRoot(Merge(peaks, p)) == Fold(peaks, p.hash) && Merge(peaks, p) != []
  {
    if peaks != [] && peaks[|peaks| - 1].size == p.size {
      MergeKeepsRoot(peaks[..|peaks| - 1], Peak(Node(peaks[|peaks| - 1].hash, p.hash), 2 * p.size));
    } else {
      assert (peaks + [p])[..|peaks|] == peaks;
    }
  }

  function Doubled(peaks: seq<Peak>): (r: seq<Peak>)
    ensures |r| == |peaks|
  {
    if peaks == [] then [] else
      Doubled(peaks[..|peaks| - 1]) + [Peak(peaks[|peaks| - 1].hash, 2 * peaks[|peaks| - 1].size)]
  }

  lemma {:induction false} DoubledFront(peaks: seq<Peak>)
    requires peaks != []
    ensures Doubled(peaks)[..|peaks| - 1] == Doubled(peaks[..|peaks| - 1])
    ensures Doubled(peaks)[|peaks| - 1] == Peak(peaks[|peaks| - 1].hash, 2 * peaks[|peaks| - 1].size)
  {
  }

  lemma {:induction false} MergeDoubled(peaks: seq<Peak>, p: Peak)
    ensures Merge(Doubled(peaks), Peak(p.hash, 2 * p.size)) == Doubled(Merge(peaks, p))
  {
    if peaks != [] {
      DoubledFront(peaks);
      var q := peaks[|peaks| - 1];
      if q.size == p.size {
        MergeDoubled(peaks[..|peaks| - 1], Peak(Node(q.hash, p.hash), 2 * p.size));
        assert 2 * (2 * p.size) == 4 * p.size;
      } else {
        assert (peaks + [p])[..|peaks|] == peaks;
      }
    } else {
      assert peaks + [p] == [p];
      assert [p][..0] == [];
    }
  }

  lemma {:induction false} FoldDoubled(peaks: seq<Peak>, acc: Digest)
    ensures Fold(Doubled(peaks), acc) == Fold(peaks, acc)
  {
    if peaks != [] {
      DoubledFront(peaks);
      FoldDoubled(peaks[..|peaks| - 1], Node(peaks[|peaks| - 1].hash, acc));
    }
  }

  lemma {:induction false} PeaksMore(s: seq<Digest>, a: Digest)
    ensures PeaksOf(s + [a]) == Merge(PeaksOf(s), Peak(a, 1))
  {
    assert (s + [a])[..|s|] == s;
  }

  /** An even number of leaves has the peaks of the level above, twice as large. */
  lemma {:induction false} EvenPeaks(s: seq<Digest>)
    requires |s| % 2 == 0
    ensures PeaksOf(s) == Doubled(PeaksOf(Promote(s)))
    decreases |s|
  {
    if s != [] {
      var n := |s|;
      var t, a, b := s[..n - 2], s[n - 2], s[n - 1];
      EvenPeaks(t);
      assert s == t + [a, b];
      PeaksOfPair(t, a, b);
      PairMerges(PeaksOf(Promote(t)), a, b);
    }
  }

  lemma {:induction false} PeaksOfPair(t: seq<Digest>, a: Digest, b: Digest)
    requires |t| % 2 == 0
    ensures PeaksOf(t + [a, b]) == Merge(Merge(PeaksOf(t), Peak(a, 1)), Peak(b, 1))
    ensures PeaksOf(Promote(t + [a, b])) == Merge(PeaksOf(Promote(t)), Peak(Node(a, b), 1))
  {
    assert t + [a, b] == t + [a] + [b];
    PeaksMore(t, a);
    PeaksMore(t + [a], b);
    PromotePair(t, a, b);
    PeaksMore(Promote(t), Node(a, b));
  }

  /** Two leaves on top of doubled peaks act as their parent on the peaks. */
  lemma {:induction false} PairMerges(P: seq<Peak>, a: Digest, b: Digest)
    ensures Merge(Merge(Doubled(P), Peak(a, 1)), Peak(b, 1)) == Doubled(Merge(P, Peak(Node(a, b), 1)))
  {
    var D := Doubled(P);
    if P != [] {
      DoubledFront(P);
      assert D[|D| - 1].size != 1;
    }
    assert Merge(D, Peak(a, 1)) == D + [Peak(a, 1)];
    assert (D + [Peak(a, 1)])[..|D|] == D;
    MergeDoubled(P, Peak(Node(a, b), 1));
  }

  lemma {:induction false} TreeRootUp(s: seq<Digest>)
    requires |s| > 1
    ensures TreeRoot(s) == TreeRoot(Promote(s)) && |Promote(s)| < |s|
  {
    PromoteLength(s);
  }

  lemma {:induction false} OneLeaf(x: Digest)
    ensures PeakRoot(PeaksOf([x])) == x && TreeRoot([x]) == x
  {
    assert [x][..0] == [];
  }

  lemma {:induction false} OddRoot(t: seq<Digest>, x: Digest)
    requires |t| % 2 == 0
    ensures PeakRoot(PeaksOf(Promote(t) + [x])) == PeakRoot(PeaksOf(t + [x]))
  {
    PeaksMore(Promote(t), x);
    MergeKeepsRoot(PeaksOf(Promote(t)), Peak(x, 1));
    EvenPeaks(t);
    FoldDoubled(PeaksOf(Promote(t)), x);
    PeaksMore(t, x);
    MergeKeepsRoot(PeaksOf(t), Peak(x, 1));
  }

  /** The peaks have the root of the whole tree. */
  lemma {:induction false} PeaksHaveTreeRoot(s: seq<Digest>)
    ensures PeakRoot(PeaksOf(s)) == TreeRoot(s)
    decreases |s|
  {
    var n := |s|;
    if n == 1 {
      OneLeaf(s[0]);
      assert s == [s[0]];
    } else if n > 1 {
      TreeRootUp(s);
      PeaksHaveTreeRoot(Promote(s));
      SameRootUp(s);
    }
  }

  /** A list and the level above it have the same peak root. */
  lemma {:induction false} SameRootUp(s: seq<Digest>)
    requires |s| > 1
    ensures PeakRoot(PeaksOf(s)) == PeakRoot(PeaksOf(Promote(s)))
  {
    var n := |s|;
    if n % 2 == 0 {
      EvenPeaks(s);
      DoubledRoot(PeaksOf(Promote(s)));
    } else {
      var t, x := s[..n - 1], s[n - 1];
      assert s == t + [x];
      PromoteLone(t, x);
      OddRoot(t, x);
    }
  }

  lemma {:induction false} DoubledRoot(peaks: seq<Peak>)
    ensures PeakRoot(Doubled(peaks)) == PeakRoot(peaks)
  {
    if peaks != [] {
      DoubledFront(peaks);
      FoldDoubled(peaks[..|peaks| - 1], peaks[|peaks| - 1].hash);
    }
  }

  // ------------------------------------------------------------------- the root names the list

  /** The leaf data under a digest, left to right. */
  function Data(t: Digest): seq<nat> {
    match t
    case Zero => []
    case Leaf(d) => [d]
    case Node(l, r) => Data(l) + Data(r)
  }

  function PeakData(peaks: seq<Peak>): seq<nat> {
    if peaks == [] then [] else PeakData(peaks[..|peaks| - 1]) + Data(peaks[|peaks| - 1].hash)
  }

  lemma {:induction false} MergeData(peaks: seq<Peak>, p: Peak)
    ensures PeakData(Merge(peaks, p)) == PeakData(peaks) + Data(p.hash)
  {
    if peaks != [] && peaks[|peaks| - 1].size == p.size {
      var (F, q) := (peaks[..|peaks| - 1], peaks[|peaks| - 1]);
      MergeData(F, Peak(Node(q.hash, p.hash), 2 * p.size));
      assert PeakData(F) + (Data(q.hash) + Data(p.hash)) == PeakData(F) + Data(q.hash) + Data(p.hash);
    } else {
      assert (peaks + [p])[..|peaks|] == peaks;
    }
  }

  lemma {:induction false} FoldData(peaks: seq<Peak>, acc: Digest)
    ensures Data(Fold(peaks, acc)) == PeakData(peaks) + Data(acc)
  {
    if peaks != [] {
      var (F, q) := (peaks[..|peaks| - 1], peaks[|peaks| - 1]);
      FoldData(F, Node(q.hash, acc));
      assert PeakData(F) + (Data(q.hash) + Data(acc)) == PeakData(F) + Data(q.hash) + Data(acc);
    }
  }

  lemma {:induction false} DataOfPeaks(data: seq<nat>)
    ensures PeakData(PeaksOf(LeavesOf(data))) == data
  {
    if data != [] {
      var (F, d) := (data[..|data| - 1], data[|data| - 1]);
      DataOfPeaks(F);
      PeaksMore(LeavesOf(F), Leaf(d));
      MergeData(PeaksOf(LeavesOf(F)), Peak(Leaf(d), 1));
      assert data == F + [d];
    }
  }

  lemma {:induction false} DataOfRoot(data: seq<nat>)
    ensures Data(TreeRoot(LeavesOf(data))) == data
  {
    PeaksHaveTreeRoot(LeavesOf(data));
    DataOfPeaks(data);
    var peaks := PeaksOf(LeavesOf(data));
    if peaks != [] {
      FoldData(peaks[..|peaks| - 1], peaks[|peaks| - 1].hash);
    }
  }

  /** The root determines the list of leaves, whatever their number. */
  lemma {:induction false} RootInjective(a: seq<nat>, b: seq<nat>)
    requires TreeRoot(LeavesOf(a)) == TreeRoot(LeavesOf(b))
    ensures a == b
  {
    DataOfRoot(a);
    DataOfRoot(b);
  }

  // ------------------------------------------------------------------------ streaming mode

  class Streaming {
    var peaks: seq<Peak>
    var count: nat
    /** Every leaf ever added, which the node does not keep. */
    ghost var leaves: seq<Digest>

    ghost predicate Valid()
      reads this
    {
      peaks == PeaksOf(leaves) && count == |leaves|
    }

    constructor ()
      ensures Valid() && leaves == []
    {
      peaks, count, leaves := [], 0, [];
    }

    /** Add with pushPeak: the index of the new leaf. */
    method Add(data: nat) returns (idx: nat)
      requires Valid()
      modifies this
      ensures Valid() && leaves == old(leaves) + [Leaf(data)] && idx == |old(leaves)|
    {
      PeaksMore(leaves, Leaf(data));
      peaks := Push(peaks, Leaf(data));
      count := count + 1;
      leaves := leaves + [Leaf(data)];
      return count - 1;
    }

    /** Root of the peaks: the root that a node holding all leaves computes. */
    method Root() returns (root: Digest)
      requires Valid()
      ensures root == TreeRoot(leaves)
    {
      root := RootFromPeaks(peaks);
      PeaksHaveTreeRoot(leaves);
    }

    /** RootAfter: the root after appending, computed on a copy. */
    method RootAfter(extra: seq<nat>) returns (root: Digest)
      requires Valid()
      ensures root == TreeRoot(leaves + LeavesOf(extra))
    {
      var tmp := peaks;
      assert leaves + LeavesOf([]) == leaves;
      for i := 0 to |extra|
        invariant tmp == PeaksOf(leaves + LeavesOf(extra[..i]))
      {
        assert extra[..i + 1][..i] == extra[..i];
        assert leaves + LeavesOf(extra[..i + 1]) == leaves + LeavesOf(extra[..i]) + [Leaf(extra[i])];
        PeaksMore(leaves + LeavesOf(extra[..i]), Leaf(extra[i]));
        tmp := Push(tmp, Leaf(extra[i]));
      }
      assert extra[..|extra|] == extra;
      root := RootFromPeaks(tmp);
      PeaksHaveTreeRoot(leaves + LeavesOf(extra));
    }
  }

  function LeavesOf(data: seq<nat>): seq<Digest> {
    if data == [] then [] else LeavesOf(data[..|data| - 1]) + [Leaf(data[|data| - 1])]
  }

  method Push(peaks: seq<Peak>, h: Digest) returns (r: seq<Peak>)
    ensures r == Merge(peaks, Peak(h, 1))
  {
    var p := Peak(h, 1);
    r := peaks;
    while |r| > 0 && r[|r| - 1].size == p.size
      invariant Merge(r, p) == Merge(peaks, Peak(h, 1))
      decreases |r|
    {
      p := Peak(Node(r[|r| - 1].hash, p.hash), 2 * p.size);
      r := r[..|r| - 1];
    }
    r := r + [p];
  }

  method RootFromPeaks(peaks: seq<Peak>) returns (acc: Digest)
    ensures acc == PeakRoot(peaks)
  {
    if |peaks| == 0 {
      return Zero;
    }
    acc := peaks[|peaks| - 1].hash;
    var i := |peaks| - 1;
    while i > 0
      invariant 0 <= i <= |peaks| - 1 && Fold(peaks[..i], acc) == PeakRoot(peaks)
    {
      assert peaks[..i][..i - 1] == peaks[..i - 1];
      acc := Node(peaks[i - 1].hash, acc);
      i := i - 1;
    }
  }
}
