/** Proof of retrievability: challenges drawn from a window of recent heights, answered from stored
    bodies and checked against headers alone, and the body pruner that must keep the window. */
module Retrievability {
  import opened Params
  import opened Wrappers
  import opened Bits
  import opened Merkle

  const POR_WINDOW := 10_000
  const POR_CHALLENGES := 8
  const SNAPSHOT_INTERVAL := 200

  /** The two words of a slot's seed, which the parent hash fixes. */
  datatype Seed = Seed(forHeight: nat, forIndex: nat)

  /** tx stands for the transaction bytes, which hash to a txid injectively. */
  datatype Entry = Entry(height: nat, tx: Id, steps: seq<Step>)

  datatype Head = Head(root: Digest, numTxs: nat)

  /** The commitment in the header: zero for no entries, else an injective digest of them. */
  datatype PoRRoot = NoEntries | Committed(entries: seq<Entry>)

  function PoRRootOf(entries: seq<Entry>): PoRRoot {
    if entries == [] then NoEntries else Committed(entries)
  }

  lemma {:induction false} PoRRootBinds(a: seq<Entry>, b: seq<Entry>)
    requires PoRRootOf(a) == PoRRootOf(b)
    ensures a == b
  {
  }

  function WindowLow(height: nat): nat {
    if height <= POR_WINDOW then 0 else height - POR_WINDOW
  }

  /** The challenged height lies in the window below the block. */
  function ChallengeHeight(seed: Seed, height: nat): (h: nat)
    requires height >= 1
    ensures WindowLow(height) <= h < height
  {
    WindowLow(height) + seed.forHeight % (height - WindowLow(height))
  }

  function ChallengeIndex(seed: Seed, numTxs: nat): (i: nat)
    ensures numTxs > 0 ==> i < numTxs
  {
    if numTxs == 0 then 0 else seed.forIndex % numTxs
  }

  /** Every height of the last ten thousand and every index of its block can be challenged, by 64-bit words. */
  lemma {:induction false} AnythingChallenged(height: nat, h: nat, numTxs: nat, i: nat) returns (seed: Seed)
    requires h < height <= h + 10_000 && i < numTxs <= MAX_BLOCK_BYTES
    ensures seed.forHeight <= MAX64 && seed.forIndex <= MAX64
    ensures ChallengeHeight(seed, height) == h && ChallengeIndex(seed, numTxs) == i
  {
    seed := Seed(h - WindowLow(height), i);
    SmallRemainder(seed.forHeight, height - WindowLow(height));
    SmallRemainder(i, numTxs);
  }

  lemma {:induction false} SmallRemainder(a: nat, b: nat)
    requires a < b
    ensures a % b == a
  {
  }

  // --------------------------------------------------------------------------- one entry

  predicate Accepted(e: Entry, height: nat, idx: nat, root: Digest) {
    e.height == height && Word(e.steps) == idx && Fold(Leaf(e.tx), e.steps) == root
  }

  lemma {:induction false} DepthBound(n: nat, k: nat)
    requires n <= Exp2(k)
    ensures Depth(n) <= k
    decreases k
  {
    if n > 1 { DepthBound((n + 1) / 2, k - 1); }
  }

  lemma {:induction false} Exp2Of22()
    ensures Exp2(22) == 4_194_304
  {
    assert Exp2(10) == 1024;
    assert Exp2(16) == 65_536;
  }

  /** Soundness, for every branch a prover could choose: an accepted entry has the depth of the
      tree and answers with exactly the challenged transaction. */
  lemma {:induction false} EntrySound(e: Entry, height: nat, idx: nat, ids: seq<Id>)
    requires 0 < |ids| <= MAX_BLOCK_BYTES && idx < |ids| && Accepted(e, height, idx, Root(ids))
    ensures e.height == height && |e.steps| == Depth(|ids|) && e.tx == ids[idx]
  {
    BranchSound(ids, e.tx, e.steps);
    Exp2Of22();
    DepthBound(|ids|, 22);
  }

  /** Completeness: the branch of the challenged transaction is accepted. */
  lemma {:induction false} EntryComplete(height: nat, idx: nat, ids: seq<Id>)
    requires 0 < |ids| <= MAX_BLOCK_BYTES && idx < |ids|
    ensures Accepted(Entry(height, ids[idx], Branch(Leaves(ids), idx)), height, idx, Root(ids))
  {
    BranchComplete(Leaves(ids), idx);
    Exp2Of22();
    DepthBound(|ids|, 22);
  }

  method VerifyPoREntry(e: Entry, height: nat, idx: nat, root: Digest) returns (ok: bool)
    ensures ok <==> Accepted(e, height, idx, root)
  {
    if e.height != height {
      return false;
    }
    var at := IndexFromSteps(e.steps);
    if at != idx {
      return false;
    }
    ok := VerifyMerkleProof(e.tx, e.steps, root);
  }

  // ----------------------------------------------------------------- snapshots and pruning

  /** snapshotsToKeep, which is never below two. */
  const KEEP: nat := 4

  lemma {:induction false} KeepIs()
    ensures KEEP == (POW_SEED_LAG + SNAPSHOT_INTERVAL - 1) / SNAPSHOT_INTERVAL + 1
    ensures KEEP >= 2 && (KEEP - 1) * SNAPSHOT_INTERVAL >= POW_SEED_LAG
  {
  }

  /** The lowest body a replay may need: the oldest snapshot once some were dropped. */
  function Base(snaps: seq<nat>): nat {
    if |snaps| == KEEP then snaps[0] else 0
  }

  predicate Ascending(s: seq<nat>) {
    forall i, j :: 0 <= i < j < |s| ==> s[i] < s[j]
  }

  /** The bodies from a height on are stored. */
  ghost predicate Stored(bodies: map<nat, seq<Id>>, chain: seq<seq<Id>>, from: nat) {
    forall h :: from <= h < |chain| ==> h in bodies && bodies[h] == chain[h]
  }

  /** The snapshots that n intervals leave behind. */
  function Due(n: nat): seq<nat> {
    if n == 0 then [] else Retained(Due(n - 1), n * SNAPSHOT_INTERVAL)
  }

  class BodyStore {
    /** Headers by height. */
    var headers: seq<Head>
    var bodies: map<nat, seq<Id>>
    /** Heights of the stored snapshots, ascending. */
    var snaps: seq<nat>
    /** The transaction ids of every block so far. */
    ghost var chain: seq<seq<Id>>
    /** Bodies below this height were deleted. */
    ghost var floor: nat

    ghost predicate Valid()
      reads this
    {
      && Headed(headers, chain)
      && Stored(bodies, chain, WindowLow(|chain|))
      && SnapsOk(snaps, |chain| - 1)
    }

    /** The bodies stored are exactly those from the floor on, and the floor is not above the oldest
        kept snapshot, nor above genesis while no snapshot was dropped. */
    ghost predicate Replayable()
      reads this
    {
      Stored(bodies, chain, Base(snaps)) && Exactly(bodies, chain, floor)
    }

    /** The node as far as retention is concerned. */
    ghost function Kept(): Disk
      requires Valid()
      reads this
    {
      Disk(|chain| - 1, snaps, floor)
    }

    constructor (genesis: Id)
      ensures Valid() && Replayable() && chain == [[genesis]] && Kept() == Disk(0, [], 0)
    {
      headers, bodies, snaps, chain := [Head(Root([genesis]), 1)], map[0 := [genesis]], [], [[genesis]];
      floor := 0;
    }

    /** buildPoRLocked for the next block: it always succeeds on this node, and every entry passes
        the check against the headers. */
    method Build(seeds: seq<Seed>) returns (r: Option<seq<Entry>>)
      requires Valid() && |seeds| == POR_CHALLENGES
      ensures r.Some? && |r.value| == POR_CHALLENGES
      ensures forall slot :: 0 <= slot < POR_CHALLENGES ==> SlotOk(headers, seeds[slot], r.value[slot])
    {
      var entries := [];
      for slot := 0 to POR_CHALLENGES
        invariant |entries| == slot
        invariant forall k :: 0 <= k < slot ==> SlotOk(headers, seeds[k], entries[k])
      {
        var e := Answer(seeds[slot]);
        if e.None? {
          return None;
        }
        entries := entries + [e.value];
      }
      return Some(entries);
    }

    /** One slot: the challenged body is there, so the entry exists and is accepted. */
    method Answer(seed: Seed) returns (e: Option<Entry>)
      requires Valid()
      ensures e.Some? && SlotOk(headers, seed, e.value)
    {
      var hc := ChallengeHeight(seed, |headers|);
      var idx := ChallengeIndex(seed, headers[hc].numTxs);
      if hc !in bodies || idx >= |bodies[hc]| {
        return None;
      }
      var txs := bodies[hc];
      var steps := MerkleProof(txs, idx);
      if steps.None? {
        return None;
      }
      EntryComplete(hc, idx, txs);
      return Some(Entry(hc, txs[idx], steps.value));
    }

    /** validatePoRLocked for a block on top of the stored headers. */
    method ValidatePoR(seeds: seq<Seed>, txs: seq<Id>, numTxs: nat, porRoot: PoRRoot, entries: seq<Entry>)
      returns (ok: bool)
      requires Valid() && |seeds| == POR_CHALLENGES
      ensures ok <==> && numTxs == |txs| && |entries| == POR_CHALLENGES && porRoot == PoRRootOf(entries)
                      && forall slot :: 0 <= slot < POR_CHALLENGES ==> SlotOk(headers, seeds[slot], entries[slot])
      ensures ok ==> forall slot :: 0 <= slot < POR_CHALLENGES ==>
                var hc := ChallengeHeight(seeds[slot], |headers|);
                entries[slot].height == hc && entries[slot].tx == chain[hc][ChallengeIndex(seeds[slot], |chain[hc]|)]
    {
      if numTxs != |txs| || |entries| != POR_CHALLENGES || porRoot != PoRRootOf(entries) {
        return false;
      }
      for slot := 0 to POR_CHALLENGES
        invariant forall k :: 0 <= k < slot ==> SlotOk(headers, seeds[k], entries[k])
      {
        var hc := ChallengeHeight(seeds[slot], |headers|);
        var hdr := headers[hc];
        var idx := ChallengeIndex(seeds[slot], hdr.numTxs);
        var good := VerifyPoREntry(entries[slot], hc, idx, hdr.root);
        if !good {
          return false;
        }
      }
      forall slot | 0 <= slot < POR_CHALLENGES
        ensures var hc := ChallengeHeight(seeds[slot], |headers|);
                entries[slot].height == hc && entries[slot].tx == chain[hc][ChallengeIndex(seeds[slot], |chain[hc]|)]
      {
        var hc := ChallengeHeight(seeds[slot], |headers|);
        EntrySound(entries[slot], hc, ChallengeIndex(seeds[slot], |chain[hc]|), chain[hc]);
      }
      return true;
    }

    /** saveSnapshotLocked at the tip: whenever it is called, the challenge window of the next block
        survives the pruning, and so do the bodies from the oldest kept snapshot on. */
    method SaveSnapshot()
      requires Valid() && Replayable()
      modifies this`snaps, this`bodies, this`floor
      ensures Valid() && Replayable() && Kept() == SavedDisk(old(Kept()))
    {
      var below := Retain(|headers| - 1);
      Prune(below);
      floor := SaveKeeps(old(bodies), bodies, chain, old(snaps), snaps, floor, below);
    }

    /** The newest snapshots stay; bodies may go below the lower of the oldest of them and the
        challenge floor, once a snapshot was dropped. */
    method Retain(tip: nat) returns (below: nat)
      requires SnapsOk(snaps, tip)
      modifies this`snaps
      ensures Trimmed(old(snaps), tip, snaps, below)
    {
      RetainedOk(snaps, tip);
      var heights := Noted(snaps, tip);
      below := 0;
      if |heights| > KEEP {
        heights := heights[|heights| - KEEP..];
        below := if WindowFloor(tip) < heights[0] then WindowFloor(tip) else heights[0];
      }
      snaps := heights;
    }

    /** Bodies under the floor are deleted one by one. */
    method Prune(below: nat)
      modifies this`bodies
      ensures Pruned(bodies, old(bodies), below)
    {
      while exists h :: h in bodies && h < below
        invariant forall h :: h >= below ==> (h in bodies <==> h in old(bodies))
        invariant forall h :: h in bodies ==> h in old(bodies) && bodies[h] == old(bodies)[h]
        decreases |bodies|
      {
        var k :| k in bodies && k < below;
        assert (bodies - {k}).Keys == bodies.Keys - {k};
        bodies := bodies - {k};
      }
    }

    method Append(txs: seq<Id>)
      requires Valid() && Replayable() && 0 < |txs| <= MAX_BLOCK_BYTES
      modifies this`headers, this`bodies, this`chain
      ensures Valid() && Replayable() && chain == old(chain) + [txs]
      ensures Kept() == old(Kept()).(tip := |chain| - 1)
    {
      ExactlyMore(bodies, chain, floor, txs);
      StoredMore(bodies, chain, txs, WindowLow(|chain|));
      StoredMore(bodies, chain, txs, Base(snaps));
      headers := headers + [Head(Root(txs), |txs|)];
      bodies := bodies[|headers| - 1 := txs];
      chain := chain + [txs];
    }

    /** A block extends the tip: header and body are stored, and every interval a snapshot is taken. */
    method Extend(txs: seq<Id>)
      requires Valid() && Replayable() && 0 < |txs| <= MAX_BLOCK_BYTES
      modifies this
      ensures Valid() && Replayable() && chain == old(chain) + [txs]
      ensures Kept() == ExtendedDisk(old(Kept()))
    {
      Append(txs);
      var h := |headers| - 1;
      if h > 0 && h % SNAPSHOT_INTERVAL == 0 {
        SaveSnapshot();
      }
    }

    /** Any run of a node that only extends its tip and is shut down gracefully now and then. */
    method Play(events: seq<Event>)
      requires Valid() && Replayable() && forall e :: e in events && e.Block? ==> 0 < |e.txs| <= MAX_BLOCK_BYTES
      modifies this
      ensures Valid() && Replayable() && Kept() == DiskAfter(old(Kept()), events)
      ensures chain == old(chain) + BlocksOf(events)
    {
      for i := 0 to |events|
        invariant Valid() && Replayable() && Kept() == DiskAfter(old(Kept()), events[..i])
        invariant chain == old(chain) + BlocksOf(events[..i])
      {
        PlayMore(old(Kept()), old(chain), events, i);
        Turn(events[i]);
      }
      assert events[..|events|] == events;
    }

    method Turn(e: Event)
      requires Valid() && Replayable() && (e.Block? ==> 0 < |e.txs| <= MAX_BLOCK_BYTES)
      modifies this
      ensures Valid() && Replayable() && Kept() == Turned(old(Kept()), e) && chain == old(chain) + BlockOf(e)
    {
      if e.Block? {
        Extend(e.txs);
      } else {
        SaveSnapshot();
      }
    }
  }

  // ------------------------------------------------------------------------- runs of a node

  datatype Event = Block(txs: seq<Id>) | Shutdown

  /** Tip height, snapshot heights and the lowest body kept. */
  datatype Disk = Disk(tip: nat, snaps: seq<nat>, floor: nat)

  /** Below which height bodies go when a snapshot is saved. */
  function Cut(snaps: seq<nat>, tip: nat): nat {
    var heights := Noted(snaps, tip);
    if |heights| > KEEP then
      var oldest := heights[|heights| - KEEP];
      if WindowFloor(tip) < oldest then WindowFloor(tip) else oldest
    else 0
  }

  function SavedDisk(d: Disk): Disk {
    var below := Cut(d.snaps, d.tip);
    Disk(d.tip, Retained(d.snaps, d.tip), if d.floor < below then below else d.floor)
  }

  function ExtendedDisk(d: Disk): Disk {
    var next := d.(tip := d.tip + 1);
    if next.tip % SNAPSHOT_INTERVAL == 0 then SavedDisk(next) else next
  }

  function DiskAfter(d: Disk, events: seq<Event>): Disk {
    if events == [] then d else
      Turned(DiskAfter(d, events[..|events| - 1]), events[|events| - 1])
  }

  function Turned(d: Disk, e: Event): Disk {
    if e.Block? then ExtendedDisk(d) else SavedDisk(d)
  }

  function BlockOf(e: Event): seq<seq<Id>> {
    if e.Block? then [e.txs] else []
  }

  lemma {:induction false} PlayMore(d: Disk, chain: seq<seq<Id>>, events: seq<Event>, i: nat)
    requires i < |events|
    ensures events[i] in events
    ensures DiskAfter(d, events[..i + 1]) == Turned(DiskAfter(d, events[..i]), events[i])
    ensures chain + BlocksOf(events[..i + 1]) == (chain + BlocksOf(events[..i])) + BlockOf(events[i])
  {
    assert events[..i + 1][..i] == events[..i];
    assert BlocksOf(events[..i + 1]) == BlocksOf(events[..i]) + BlockOf(events[i]);
  }

  function BlocksOf(events: seq<Event>): seq<seq<Id>> {
    if events == [] then [] else
      BlocksOf(events[..|events| - 1]) + BlockOf(events[|events| - 1])
  }

  /** The headers are those of the blocks, none of them empty. */
  ghost predicate Headed(headers: seq<Head>, chain: seq<seq<Id>>) {
    && chain != [] && |headers| == |chain|
    && (forall h :: 0 <= h < |chain| ==> headers[h] == Head(Root(chain[h]), |chain[h]|))
    && (forall h :: 0 <= h < |chain| ==> 0 < |chain[h]| <= MAX_BLOCK_BYTES)
  }

  /** The bodies stored are those from the floor on. */
  ghost predicate Exactly(bodies: map<nat, seq<Id>>, chain: seq<seq<Id>>, floor: nat) {
    && floor <= |chain| && (forall h :: h in bodies <==> floor <= h < |chain|)
    && Stored(bodies, chain, floor)
  }

  lemma {:induction false} ExactlyPruned(bodies: map<nat, seq<Id>>, left: map<nat, seq<Id>>, chain: seq<seq<Id>>,
          floor: nat, below: nat)
    requires Exactly(bodies, chain, floor) && below <= |chain|
    requires Pruned(left, bodies, below)
    ensures Exactly(left, chain, if floor < below then below else floor)
  {
  }

  lemma {:induction false} ExactlyMore(bodies: map<nat, seq<Id>>, chain: seq<seq<Id>>, floor: nat, txs: seq<Id>)
    requires Exactly(bodies, chain, floor)
    ensures Exactly(bodies[|chain| := txs], chain + [txs], floor)
  {
  }

  lemma {:induction false} StoredMore(bodies: map<nat, seq<Id>>, chain: seq<seq<Id>>, txs: seq<Id>, from: nat)
    requires Stored(bodies, chain, from)
    ensures Stored(bodies[|chain| := txs], chain + [txs], from)
  {
  }

  predicate SlotOk(headers: seq<Head>, seed: Seed, e: Entry)
    requires headers != []
  {
    var hc := ChallengeHeight(seed, |headers|);
    Accepted(e, hc, ChallengeIndex(seed, headers[hc].numTxs), headers[hc].root)
  }

  function WindowFloor(tip: nat): nat {
    if tip > POR_WINDOW then tip - POR_WINDOW else 0
  }

  /** The bucket is keyed by height and no key exceeds the tip: saving twice at one tip overwrites. */
  function Noted(snaps: seq<nat>, tip: nat): seq<nat> {
    if snaps != [] && snaps[|snaps| - 1] == tip then snaps else snaps + [tip]
  }

  function Retained(snaps: seq<nat>, tip: nat): seq<nat> {
    var heights := Noted(snaps, tip);
    if |heights| > KEEP then heights[|heights| - KEEP..] else heights
  }

  predicate SnapsOk(snaps: seq<nat>, tip: int) {
    Ascending(snaps) && (forall i :: 0 <= i < |snaps| ==> snaps[i] <= tip) && |snaps| <= KEEP
  }

  lemma {:induction false} RetainedOk(snaps: seq<nat>, tip: nat)
    requires SnapsOk(snaps, tip)
    ensures SnapsOk(Retained(snaps, tip), tip) && Base(Retained(snaps, tip)) >= Base(snaps)
  {
    if snaps == [] || snaps[|snaps| - 1] != tip {
      AscendingMore(snaps, tip);
      var heights := snaps + [tip];
      if |heights| > KEEP {
        AscendingTail(heights);
        assert heights[|heights| - KEEP..] == heights[1..];
      }
    }
  }

  lemma {:induction false} AscendingMore(s: seq<nat>, x: nat)
    requires Ascending(s) && (s != [] ==> s[|s| - 1] < x)
    ensures Ascending(s + [x])
  {
    forall i | 0 <= i < |s| ensures s[i] < x {
      assert i < |s| - 1 ==> s[i] < s[|s| - 1];
    }
  }

  lemma {:induction false} AscendingTail(s: seq<nat>)
    requires Ascending(s) && |s| >= 2
    ensures Ascending(s[1..]) && s[0] < s[1..][0]
  {
  }

  lemma {:induction false} PruneKeeps(bodies: map<nat, seq<Id>>, left: map<nat, seq<Id>>, chain: seq<seq<Id>>,
          from: nat, to: nat, below: nat)
    requires Stored(bodies, chain, from) && from <= to && below <= to
    requires forall h :: h >= below ==> (h in left <==> h in bodies)
    requires forall h :: h in left ==> h in bodies && left[h] == bodies[h]
    ensures Stored(left, chain, to)
  {
  }

  /** Exactly the bodies from below on are left. */
  ghost predicate Pruned(left: map<nat, seq<Id>>, bodies: map<nat, seq<Id>>, below: nat) {
    && (forall h :: h in left <==> h in bodies && h >= below)
    && forall h :: h in left ==> left[h] == bodies[h]
  }

  /** Pruning below both the window and the oldest snapshot keeps what is needed. */
  lemma {:induction false} SaveKeeps(bodies: map<nat, seq<Id>>, left: map<nat, seq<Id>>, chain: seq<seq<Id>>,
          snaps: seq<nat>, kept: seq<nat>, floor: nat, below: nat)
    returns (lowest: nat)
    requires chain != [] && Stored(bodies, chain, WindowLow(|chain|))
    requires Stored(bodies, chain, Base(snaps)) && Exactly(bodies, chain, floor)
    requires Trimmed(snaps, |chain| - 1, kept, below) && Pruned(left, bodies, below)
    ensures Stored(left, chain, WindowLow(|chain|)) && SnapsOk(kept, |chain| - 1)
    ensures Stored(left, chain, Base(kept)) && Exactly(left, chain, lowest)
    ensures Disk(|chain| - 1, kept, lowest) == SavedDisk(Disk(|chain| - 1, snaps, floor))
  {
    PruneKeeps(bodies, left, chain, WindowLow(|chain|), WindowLow(|chain|), below);
    PruneKeeps(bodies, left, chain, Base(snaps), Base(kept), below);
    ExactlyPruned(bodies, left, chain, floor, below);
    lowest := if floor < below then below else floor;
  }

  /** A save at the tip trims the snapshots, and bodies may go below the mark. */
  ghost predicate Trimmed(before: seq<nat>, tip: nat, after: seq<nat>, below: nat) {
    && after == Retained(before, tip) && SnapsOk(after, tip) && Base(after) >= Base(before)
    && below == Cut(before, tip) && below <= Base(after) && below <= WindowLow(tip + 1)
  }

  lemma {:induction false} RetainedFull(snaps: seq<nat>, tip: nat)
    requires SnapsOk(snaps, tip - 1) && |snaps| == KEEP
    ensures Retained(snaps, tip) == snaps[1..] + [tip] && SnapsOk(Retained(snaps, tip), tip)
  {
    RetainedOk(snaps, tip);
  }

  lemma {:induction false} IntervalsOf(tip: nat)
    requires tip > 0
    ensures tip % SNAPSHOT_INTERVAL == 0 ==> tip / SNAPSHOT_INTERVAL == (tip - 1) / SNAPSHOT_INTERVAL + 1
    ensures tip % SNAPSHOT_INTERVAL == 0 ==> tip / SNAPSHOT_INTERVAL * SNAPSHOT_INTERVAL == tip
    ensures tip % SNAPSHOT_INTERVAL != 0 ==> tip / SNAPSHOT_INTERVAL == (tip - 1) / SNAPSHOT_INTERVAL
  {
  }

  /** They lie one interval apart, up to the last multiple of the interval. */
  lemma {:induction false} DueSpaced(n: nat)
    requires n >= 4
    ensures Due(n) == Four(n * SNAPSHOT_INTERVAL)
  {
    if n == 4 {
      FirstFour();
    } else {
      DueSpaced(n - 1);
      FourNext(n, Due(n - 1), Due(n));
    }
  }

  lemma {:induction false} FourNext(n: nat, before: seq<nat>, after: seq<nat>)
    requires n > 4 && before == Four((n - 1) * SNAPSHOT_INTERVAL) && after == Retained(before, n * SNAPSHOT_INTERVAL)
    ensures after == Four(n * SNAPSHOT_INTERVAL)
  {
    FourStep((n - 1) * SNAPSHOT_INTERVAL);
  }

  lemma {:induction false} DueNext(n: nat)
    requires n > 0
    ensures Due(n) == Retained(Due(n - 1), n * SNAPSHOT_INTERVAL)
  {
  }

  function Four(last: nat): seq<nat>
    requires last >= 3 * SNAPSHOT_INTERVAL
  {
    [last - 3 * SNAPSHOT_INTERVAL, last - 2 * SNAPSHOT_INTERVAL, last - SNAPSHOT_INTERVAL, last]
  }

  lemma {:induction false} FourStep(last: nat)
    requires last >= 3 * SNAPSHOT_INTERVAL
    ensures Retained(Four(last), last + SNAPSHOT_INTERVAL) == Four(last + SNAPSHOT_INTERVAL)
  {
    RetainedFull(Four(last), last + SNAPSHOT_INTERVAL);
  }

  lemma {:induction false} FirstFour()
    ensures Due(4) == Four(4 * SNAPSHOT_INTERVAL)
  {
    assert Due(0) == [];
    assert Due(1) == [200];
    assert Due(2) == [200, 400];
    assert Due(3) == [200, 400, 600];
  }

  lemma {:induction false} DueLength(n: nat)
    ensures |Due(n)| <= n
  {
    if n > 0 {
      DueLength(n - 1);
      DueNext(n);
    }
  }

  // ----------------------------------------------------------------- coverage of deep forks

  /** With interval snapshots only, every fork point an accepted reorganisation can have is above a
      kept snapshot, unless none was dropped yet. */
  lemma {:induction false} ReorgCovered(tip: nat, fork: nat)
    requires fork + POW_SEED_LAG >= tip
    ensures Base(Due(tip / SNAPSHOT_INTERVAL)) <= fork
  {
    var n := tip / SNAPSHOT_INTERVAL;
    if n >= 4 {
      DueSpaced(n);
    } else {
      DueLength(n);
    }
  }

  /** The deepest fork point that fork choice may accept. */
  function LowestFork(tip: nat): nat {
    if tip > POW_SEED_LAG then tip - POW_SEED_LAG else 0
  }

  /** A replay to any acceptable fork point can start from a kept snapshot, or from genesis as long as
      no body was deleted. */
  ghost predicate Covered(d: Disk) {
    forall fork :: LowestFork(d.tip) <= fork <= d.tip ==> d.floor == 0 || HasRestorePoint(d.snaps, fork)
  }

  predicate AboveBase(snaps: seq<nat>, fork: int) {
    Base(snaps) <= fork
  }

  predicate HasRestorePoint(snaps: seq<nat>, fork: nat) {
    exists i :: 0 <= i < |snaps| && snaps[i] <= fork
  }

  /** Exactly when: no body is gone, or the oldest kept snapshot is as deep as the deepest fork. */
  lemma {:induction false} CoveredIff(d: Disk)
    requires SnapsOk(d.snaps, d.tip)
    ensures Covered(d) <==> d.floor == 0 || (d.snaps != [] && d.snaps[0] <= LowestFork(d.tip))
    ensures d.tip >= POW_SEED_LAG ==>
              ((forall fork :: d.tip - POW_SEED_LAG <= fork <= d.tip ==> AboveBase(d.snaps, fork))
               <==> Base(d.snaps) + POW_SEED_LAG <= d.tip)
  {
    var low := LowestFork(d.tip);
    if Covered(d) && d.floor > 0 {
      assert HasRestorePoint(d.snaps, low);
    }
    if d.snaps != [] && d.snaps[0] <= low {
      forall fork | low <= fork <= d.tip ensures HasRestorePoint(d.snaps, fork) {
        assert d.snaps[0] <= fork;
      }
    }
    if d.tip >= POW_SEED_LAG {
      assert AboveBase(d.snaps, d.tip - POW_SEED_LAG) <==> Base(d.snaps) + POW_SEED_LAG <= d.tip;
    }
  }

  // -------------------------------------------------------------- runs without shutdowns

  predicate OnlyBlocks(events: seq<Event>) {
    forall i :: 0 <= i < |events| ==> events[i].Block?
  }

  /** The floor after n intervals. */
  function DueFloor(n: nat): nat {
    if n * SNAPSHOT_INTERVAL > POR_WINDOW then n * SNAPSHOT_INTERVAL - POR_WINDOW else 0
  }

  lemma {:induction false} CutOnSchedule(n: nat)
    requires n > 0
    ensures Cut(Due(n - 1), n * SNAPSHOT_INTERVAL) == DueFloor(n)
  {
    if n > 4 {
      DueSpaced(n - 1);
      CutOfFour((n - 1) * SNAPSHOT_INTERVAL);
    } else {
      DueLength(n - 1);
    }
  }

  lemma {:induction false} CutOfFour(last: nat)
    requires last >= 3 * SNAPSHOT_INTERVAL
    ensures Cut(Four(last), last + SNAPSHOT_INTERVAL)
         == if last + SNAPSHOT_INTERVAL > POR_WINDOW then last + SNAPSHOT_INTERVAL - POR_WINDOW else 0
  {
    var tip := last + SNAPSHOT_INTERVAL;
    assert Noted(Four(last), tip) == Four(last) + [tip];
    assert (Four(last) + [tip])[1] == last - 2 * SNAPSHOT_INTERVAL;
  }

  lemma {:induction false} ScheduleStep(tip: nat)
    requires tip > 0
    ensures var (m, n) := ((tip - 1) / SNAPSHOT_INTERVAL, tip / SNAPSHOT_INTERVAL);
      ExtendedDisk(Disk(tip - 1, Due(m), DueFloor(m))) == Disk(tip, Due(n), DueFloor(n))
  {
    IntervalsOf(tip);
    if tip % SNAPSHOT_INTERVAL == 0 {
      DueNext(tip / SNAPSHOT_INTERVAL);
      CutOnSchedule(tip / SNAPSHOT_INTERVAL);
    }
  }

  /** Just after genesis. */
  predicate IsNew(d: Disk) {
    d.tip == 0 && d.snaps == [] && d.floor == 0
  }

  /** A node that only extends its tip stays on schedule: its snapshots are the last four multiples of
      the interval, and it has deleted what lies a window below the last of them. */
  lemma {:induction false} OnSchedule(d: Disk, events: seq<Event>)
    requires IsNew(d) && OnlyBlocks(events)
    ensures var n := |events| / SNAPSHOT_INTERVAL; DiskAfter(d, events) == Disk(|events|, Due(n), DueFloor(n))
  {
    if events != [] {
      OnSchedule(d, events[..|events| - 1]);
      ScheduleStep(|events|);
      LastIsBlock(d, events);
    }
  }

  lemma {:induction false} LastIsBlock(d: Disk, events: seq<Event>)
    requires events != [] && OnlyBlocks(events)
    ensures DiskAfter(d, events) == ExtendedDisk(DiskAfter(d, events[..|events| - 1]))
  {
  }

  /** Without shutdowns every acceptable fork stays covered; the genesis body is there exactly until the
      first interval beyond the window. */
  lemma {:induction false} ScheduledRun(d: Disk, events: seq<Event>)
    requires IsNew(d) && OnlyBlocks(events)
    ensures Covered(DiskAfter(d, events))
    ensures DiskAfter(d, events).floor == 0 <==> |events| < POR_WINDOW + SNAPSHOT_INTERVAL
  {
    var n := |events| / SNAPSHOT_INTERVAL;
    OnSchedule(d, events);
    if n > 4 {
      DueSpaced(n);
      RestoreFromFour(n * SNAPSHOT_INTERVAL, |events|, Due(n), DueFloor(n));
    }
  }

  lemma {:induction false} RestoreFromFour(last: nat, tip: nat, snaps: seq<nat>, floor: nat)
    requires 3 * SNAPSHOT_INTERVAL <= last <= tip < last + SNAPSHOT_INTERVAL && snaps == Four(last)
    ensures Covered(Disk(tip, snaps, floor))
  {
    CoveredIff(Disk(tip, snaps, floor));
  }

  // ----------------------------------------------------------------- runs with shutdowns

  /** Snapshots at other heights break that: four saves on consecutive blocks leave only those. */
  lemma {:induction false} ExtraSnapshotsUncover(snaps: seq<nat>, tip: nat)
    requires SnapsOk(snaps, tip - 1) && |snaps| == KEEP
    ensures var s := Retained(Retained(Retained(Retained(snaps, tip), tip + 1), tip + 2), tip + 3);
      s == [tip, tip + 1, tip + 2, tip + 3] && s[0] > tip + 3 - POW_SEED_LAG
  {
    var s1 := Retained(snaps, tip);
    RetainedFull(snaps, tip);
    var s2 := Retained(s1, tip + 1);
    RetainedFull(s1, tip + 1);
    var s3 := Retained(s2, tip + 2);
    RetainedFull(s2, tip + 2);
    RetainedFull(s3, tip + 3);
  }

  lemma {:induction false} DiskConcat(d: Disk, A: seq<Event>, B: seq<Event>)
    ensures DiskAfter(d, A + B) == DiskAfter(DiskAfter(d, A), B)
  {
    if B == [] {
      assert A + B == A;
    } else {
      assert (A + B)[..|A + B| - 1] == A + B[..|B| - 1];
      DiskConcat(d, A, B[..|B| - 1]);
    }
  }

  /** The disk after a save at a new tip. */
  function SavedAt(d: Disk, tip: nat): (e: Disk)
    ensures e.tip == tip && e.snaps == Retained(d.snaps, tip) && e.floor >= d.floor
  {
    SavedDisk(d.(tip := tip))
  }

  lemma {:induction false} SaveTwice(d: Disk)
    ensures SavedDisk(SavedDisk(d)) == SavedDisk(d)
  {
  }

  predicate IsBounce(events: seq<Event>) {
    |events| == 2 && events[0].Block? && events[1].Shutdown?
  }

  /** A block and a graceful shutdown save at the new tip, once. */
  lemma {:induction false} BlockThenShutdown(d: Disk, events: seq<Event>, tip: nat)
    requires IsBounce(events) && tip == d.tip + 1
    ensures DiskAfter(d, events) == SavedAt(d, tip)
  {
    var first := events[..1];
    assert first[..0] == [];
    assert DiskAfter(d, first[..0]) == d;
    assert DiskAfter(d, first) == ExtendedDisk(d);
    SaveTwice(d.(tip := tip));
  }

  lemma {:induction false} BounceOnce(d: Disk, events: seq<Event>, bounce: seq<Event>, e: Disk, tip: nat)
    requires DiskAfter(d, events) == e && IsBounce(bounce) && tip == e.tip + 1
    ensures DiskAfter(d, events + bounce) == SavedAt(e, tip)
  {
    DiskConcat(d, events, bounce);
    BlockThenShutdown(e, bounce, tip);
  }

  /** Four blocks, each followed by a graceful shutdown, leave a deep fork without a restore point once
      bodies have been deleted. */
  lemma {:induction false} ShutdownsUncover(d: Disk, events: seq<Event>, bounce: seq<Event>)
    requires var D := DiskAfter(d, events); SnapsOk(D.snaps, D.tip) && |D.snaps| == KEEP && D.floor > 0
    requires IsBounce(bounce)
    ensures !Covered(DiskAfter(d, events + bounce + bounce + bounce + bounce))
  {
    var D := DiskAfter(d, events);
    var t := D.tip + 1;
    var (a, b, c) := (SavedAt(D, t), SavedAt(SavedAt(D, t), t + 1), SavedAt(SavedAt(SavedAt(D, t), t + 1), t + 2));
    BounceOnce(d, events, bounce, D, t);
    BounceOnce(d, events + bounce, bounce, a, t + 1);
    BounceOnce(d, events + bounce + bounce, bounce, b, t + 2);
    BounceOnce(d, events + bounce + bounce + bounce, bounce, c, t + 3);
    FourSaves(D, t);
  }

  lemma {:induction false} FourSaves(d: Disk, t: nat)
    requires SnapsOk(d.snaps, d.tip) && |d.snaps| == KEEP && d.floor > 0 && t == d.tip + 1
    ensures !Covered(SavedAt(SavedAt(SavedAt(SavedAt(d, t), t + 1), t + 2), t + 3))
  {
    ExtraSnapshotsUncover(d.snaps, t);
    FourTight(SavedAt(SavedAt(SavedAt(SavedAt(d, t), t + 1), t + 2), t + 3), t);
  }

  lemma {:induction false} FourTight(d: Disk, tip: nat)
    requires d.snaps == [tip, tip + 1, tip + 2, tip + 3] && d.tip == tip + 3 && d.floor > 0 && tip > 0
    ensures !Covered(d)
  {
    CoveredIff(d);
  }

  function Repeated(n: nat, e: Event): (events: seq<Event>)
    ensures |events| == n && forall i :: 0 <= i < n ==> events[i] == e
  {
    seq(n, i => e)
  }

  lemma {:induction false} FourOk(last: nat)
    requires last >= 3 * SNAPSHOT_INTERVAL
    ensures SnapsOk(Four(last), last) && |Four(last)| == KEEP
  {
  }

  lemma {:induction false} LongRun(d: Disk, events: seq<Event>, n: nat)
    requires IsNew(d) && OnlyBlocks(events) && |events| == n * SNAPSHOT_INTERVAL > POR_WINDOW
    ensures var D := DiskAfter(d, events); SnapsOk(D.snaps, D.tip) && |D.snaps| == KEEP && D.floor > 0
  {
    Divides(n);
    OnSchedule(d, events);
    FourDue(n);
  }

  lemma {:induction false} Divides(n: nat)
    ensures n * SNAPSHOT_INTERVAL / SNAPSHOT_INTERVAL == n
  {
  }

  lemma {:induction false} FourDue(n: nat)
    requires n * SNAPSHOT_INTERVAL > POR_WINDOW
    ensures SnapsOk(Due(n), n * SNAPSHOT_INTERVAL) && |Due(n)| == KEEP && DueFloor(n) > 0
  {
    DueSpaced(n);
    FourOk(n * SNAPSHOT_INTERVAL);
  }

  /** Such a run exists from genesis on. */
  lemma {:induction false} SomeRunUncovers(d: Disk, txs: seq<Id>) returns (events: seq<Event>)
    requires IsNew(d)
    ensures !Covered(DiskAfter(d, events))
  {
    var n: nat := 51;
    var blocks, bounce := Repeated(n * SNAPSHOT_INTERVAL, Block(txs)), [Block(txs), Shutdown];
    LongRun(d, blocks, n);
    ShutdownsUncover(d, blocks, bounce);
    events := blocks + bounce + bounce + bounce + bounce;
  }
}
