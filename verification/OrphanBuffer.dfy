/** The bounded buffer of blocks whose parent is not known yet. */
module OrphanBuffer {
  import opened Sequences
  import opened MapSums

  type Id = nat

  /** Header fields the fork choice reads; a block id determines its header. */
  datatype Header = Header(prev: Id, height: nat, difficulty: nat)

  datatype Block = Block(id: Id, size: nat)

  datatype Meta = Meta(parent: Id, bytes: nat)

  const MAX_ORPHANS := 256
  const MAX_ORPHAN_BYTES := 32 * 1024 * 1024

  // ------------------------------------------------------------- sums over the index

  function BytesOf(m: Meta): nat { m.bytes }

  ghost function Total(m: map<Id, Meta>): nat {
    Sum(m, BytesOf)
  }

  lemma {:induction false} TotalInsert(m: map<Id, Meta>, k: Id, v: Meta)
    requires k !in m
    ensures Total(m[k := v]) == Total(m) + v.bytes && |m[k := v]| == |m| + 1
  {
    SumPut(m, BytesOf, k, v);
  }

  lemma {:induction false} TotalRemove(m: map<Id, Meta>, k: Id)
    requires k in m
    ensures Total(m - {k}) == Total(m) - m[k].bytes && |m - {k}| == |m| - 1
  {
    SumRemove(m, BytesOf, k);
  }

  // ------------------------------------------------------------------------ the buffer

  predicate DistinctIds(s: seq<Block>) {
    forall i, j :: 0 <= i < j < |s| ==> s[i].id != s[j].id
  }

  predicate HasId(s: seq<Block>, id: Id) {
    exists i :: 0 <= i < |s| && s[i].id == id
  }

  /** c is listed under its parent and indexed with its size. */
  predicate ListedOk(hdr: Id -> Header, meta: map<Id, Meta>, pending: set<Id>, p: Id, c: Block) {
    hdr(c.id).prev == p && c.id in meta && c.id !in pending && meta[c.id] == Meta(p, c.size)
  }

  predicate Listed(orphans: map<Id, seq<Block>>, p: Id, id: Id) {
    p in orphans && HasId(orphans[p], id)
  }

  /** The parent lists and the index describe the same blocks; pending children are indexed but
      already off the lists. */
  ghost predicate Consistent(hdr: Id -> Header, orphans: map<Id, seq<Block>>, meta: map<Id, Meta>, pending: set<Id>) {
    && (forall p {:trigger orphans[p]} :: p in orphans ==> orphans[p] != [] && DistinctIds(orphans[p]))
    && (forall p, c {:trigger ListedOk(hdr, meta, pending, p, c)} ::
          p in orphans && c in orphans[p] ==> ListedOk(hdr, meta, pending, p, c))
    && pending <= meta.Keys
    && (forall id {:trigger meta[id]} :: id in meta ==> meta[id].parent == hdr(id).prev)
    && (forall id {:trigger Listed(orphans, hdr(id).prev, id)} ::
          id in meta && id !in pending ==> Listed(orphans, hdr(id).prev, id))
  }

  function Relist(orphans: map<Id, seq<Block>>, p: Id, rest: seq<Block>): map<Id, seq<Block>> {
    if |rest| == 0 then orphans - {p} else orphans[p := rest]
  }

  /** Cutting one block out of a list of distinct ids. */
  lemma {:induction false} RestOfSiblings(s: seq<Block>, i: nat)
    requires i < |s| && DistinctIds(s)
    ensures var rest := s[..i] + s[i + 1..];
            && DistinctIds(rest)
            && (forall c :: c in rest <==> c in s && c.id != s[i].id)
            && (forall id :: HasId(rest, id) <==> HasId(s, id) && id != s[i].id)
  {
    var rest := s[..i] + s[i + 1..];
    assert forall k :: 0 <= k < |rest| ==> rest[k] == if k < i then s[k] else s[k + 1];
    assert forall k :: 0 <= k < |s| && k != i ==> s[k] == rest[if k < i then k else k - 1];
  }

  lemma {:induction false} RemoveKeeps(hdr: Id -> Header, orphans: map<Id, seq<Block>>, meta: map<Id, Meta>,
          pending: set<Id>, p: Id, i: nat)
    requires Consistent(hdr, orphans, meta, pending) && p in orphans && i < |orphans[p]|
    ensures var s := orphans[p];
            Consistent(hdr, Relist(orphans, p, s[..i] + s[i + 1..]), meta - {s[i].id}, pending)
  {
    var s := orphans[p];
    var id, rest := s[i].id, s[..i] + s[i + 1..];
    RestOfSiblings(s, i);
    var orphans', meta' := Relist(orphans, p, rest), meta - {id};
    assert ListedOk(hdr, meta, pending, p, s[i]);
    forall q, c | q in orphans' && c in orphans'[q] ensures ListedOk(hdr, meta', pending, q, c) {
      assert ListedOk(hdr, meta, pending, q, c);
    }
    forall k | k in meta' && k !in pending ensures Listed(orphans', hdr(k).prev, k) {
      assert Listed(orphans, hdr(k).prev, k);
    }
  }

  lemma {:induction false} InsertKeeps(hdr: Id -> Header, orphans: map<Id, seq<Block>>, meta: map<Id, Meta>,
          pending: set<Id>, b: Block)
    requires Consistent(hdr, orphans, meta, pending) && b.id !in meta
    ensures var p := hdr(b.id).prev;
            var s := if p in orphans then orphans[p] else [];
            Consistent(hdr, orphans[p := s + [b]], meta[b.id := Meta(p, b.size)], pending)
  {
    var p := hdr(b.id).prev;
    var s := if p in orphans then orphans[p] else [];
    var t, meta' := s + [b], meta[b.id := Meta(p, b.size)];
    var orphans' := orphans[p := t];
    assert forall c :: c in s ==> ListedOk(hdr, meta, pending, p, c);
    forall i | 0 <= i < |s| ensures s[i].id in meta {
      assert s[i] in s;
    }
    assert DistinctIds(t);
    forall q, c | q in orphans' && c in orphans'[q] ensures ListedOk(hdr, meta', pending, q, c) {
      assert (q == p && c == b) || ListedOk(hdr, meta, pending, q, c);
    }
    forall k | k in meta' && k !in pending ensures Listed(orphans', hdr(k).prev, k) {
      if k == b.id {
        assert t[|s|].id == k;
      } else {
        assert Listed(orphans, hdr(k).prev, k);
        SnocHasId(s, b, k);
      }
    }
  }

  lemma {:induction false} SnocHasId(s: seq<Block>, b: Block, k: Id)
    ensures HasId(s, k) ==> HasId(s + [b], k)
  {
    if HasId(s, k) {
      var i :| 0 <= i < |s| && s[i].id == k;
      assert (s + [b])[i].id == k;
    }
  }

  lemma {:induction false} HasIdInSet(s: seq<Block>, k: Id)
    ensures HasId(s, k) ==> k in set c | c in s :: c.id
  {
    if HasId(s, k) {
      var i :| 0 <= i < |s| && s[i].id == k;
      assert s[i] in s;
    }
  }

  /** Taking a whole list off makes its blocks pending. */
  lemma {:induction false} TakeKeeps(hdr: Id -> Header, orphans: map<Id, seq<Block>>, meta: map<Id, Meta>,
          pending: set<Id>, p: Id)
    requires Consistent(hdr, orphans, meta, pending) && p in orphans
    ensures var ids := set c | c in orphans[p] :: c.id;
            Consistent(hdr, orphans - {p}, meta, pending + ids) && ids !! pending && ids <= meta.Keys
  {
    var ids := set c | c in orphans[p] :: c.id;
    var orphans' := orphans - {p};
    assert forall c :: c in orphans[p] ==> ListedOk(hdr, meta, pending, p, c);
    forall q, c | q in orphans' && c in orphans'[q] ensures ListedOk(hdr, meta, pending + ids, q, c) {
      assert ListedOk(hdr, meta, pending, q, c);
    }
    forall k | k in meta && k !in pending + ids ensures Listed(orphans', hdr(k).prev, k) {
      assert Listed(orphans, hdr(k).prev, k);
      HasIdInSet(orphans[p], k);
    }
  }

  lemma {:induction false} ForgetKeeps(hdr: Id -> Header, orphans: map<Id, seq<Block>>, meta: map<Id, Meta>,
          pending: set<Id>, id: Id)
    requires Consistent(hdr, orphans, meta, pending) && id in pending
    ensures Consistent(hdr, orphans, meta - {id}, pending - {id})
  {
    forall q, c | q in orphans && c in orphans[q] ensures ListedOk(hdr, meta - {id}, pending - {id}, q, c) {
      assert ListedOk(hdr, meta, pending, q, c);
    }
    forall k | k in meta - {id} && k !in pending - {id} ensures Listed(orphans, hdr(k).prev, k) {
      assert k in meta && k !in pending;
    }
  }

  /** The live entries of the queue, in order. */
  function Live(fifo: seq<Id>, meta: map<Id, Meta>): seq<Id> {
    if fifo == [] then []
    else
      var (init, x) := (fifo[..|fifo| - 1], fifo[|fifo| - 1]);
      if x in meta then Live(init, meta) + [x] else Live(init, meta)
  }

  lemma {:induction false} LiveHas(fifo: seq<Id>, meta: map<Id, Meta>)
    ensures forall x :: x in Live(fifo, meta) <==> x in fifo && x in meta
  {
    if fifo != [] {
      LiveHas(fifo[..|fifo| - 1], meta);
      assert fifo == fifo[..|fifo| - 1] + [fifo[|fifo| - 1]];
    }
  }

  lemma {:induction false} LiveDistinct(fifo: seq<Id>, meta: map<Id, Meta>)
    requires Distinct(fifo)
    ensures Distinct(Live(fifo, meta)) && |Live(fifo, meta)| <= |meta|
  {
    if fifo != [] {
      var init, x := fifo[..|fifo| - 1], fifo[|fifo| - 1];
      LiveDistinct(init, meta);
      LiveHas(init, meta);
      assert x !in init;
    }
    LiveHas(fifo, meta);
    DistinctFits(Live(fifo, meta), meta.Keys);
  }

  lemma {:induction false} DistinctFits(s: seq<Id>, t: set<Id>)
    requires Distinct(s) && forall x :: x in s ==> x in t
    ensures |s| <= |t|
  {
    if s != [] {
      var init, x := s[..|s| - 1], s[|s| - 1];
      assert s == init + [x];
      DistinctFits(init, t - {x});
    }
  }

  /** The position of the first live entry of the queue, or its length. */
  function Oldest(fifo: seq<Id>, meta: map<Id, Meta>): (k: nat)
    ensures k <= |fifo|
  {
    if fifo == [] || fifo[0] in meta then 0 else 1 + Oldest(fifo[1..], meta)
  }

  lemma {:induction false} OldestIs(fifo: seq<Id>, meta: map<Id, Meta>, k: nat)
    requires k <= |fifo| && (forall i :: 0 <= i < k ==> fifo[i] !in meta) && (k < |fifo| ==> fifo[k] in meta)
    ensures Oldest(fifo, meta) == k
  {
    if k > 0 { OldestIs(fifo[1..], meta, k - 1); }
  }

  lemma {:induction false} LiveConcat(a: seq<Id>, b: seq<Id>, meta: map<Id, Meta>)
    ensures Live(a + b, meta) == Live(a, meta) + Live(b, meta)
  {
    if b == [] {
      assert a + b == a;
    } else {
      assert (a + b)[..|a + b| - 1] == a + b[..|b| - 1];
      LiveConcat(a, b[..|b| - 1], meta);
    }
  }

  lemma {:induction false} LiveSame(fifo: seq<Id>, meta: map<Id, Meta>, id: Id)
    requires id !in fifo
    ensures Live(fifo, meta - {id}) == Live(fifo, meta)
  {
    if fifo != [] { LiveSame(fifo[..|fifo| - 1], meta, id); }
  }

  lemma {:induction false} NoneLive(fifo: seq<Id>, meta: map<Id, Meta>)
    requires forall i :: 0 <= i < |fifo| ==> fifo[i] !in meta
    ensures Live(fifo, meta) == []
  {
    if fifo != [] { NoneLive(fifo[..|fifo| - 1], meta); }
  }

  /** Without the first live entry and the stale ones before it, the rest of the queue is live as before. */
  lemma {:induction false} LiveWithout(fifo: seq<Id>, meta: map<Id, Meta>, k: nat)
    requires Distinct(fifo) && k < |fifo| && fifo[k] in meta && forall i :: 0 <= i < k ==> fifo[i] !in meta
    ensures Live(fifo, meta) == [fifo[k]] + Live(fifo[k + 1..], meta - {fifo[k]})
  {
    var head, tail, id := fifo[..k], fifo[k + 1..], fifo[k];
    assert fifo == head + ([id] + tail);
    LiveConcat(head, [id] + tail, meta);
    LiveConcat([id], tail, meta);
    NoneLive(head, meta);
    assert [id][..0] == [];
    assert Live([id], meta) == Live([], meta) + [id] == [id];
    LiveSame(tail, meta, id);
  }

  lemma {:induction false} OldestFound(fifo: seq<Id>, meta: map<Id, Meta>)
    ensures var k := Oldest(fifo, meta);
      (k < |fifo| ==> fifo[k] in meta) && forall i :: 0 <= i < k ==> fifo[i] !in meta
  {
    if fifo != [] && fifo[0] !in meta { OldestFound(fifo[1..], meta); }
  }

  /** Appending to the queue, which is compacted once stale entries fill half of it. */
  function Enqueued(fifo: seq<Id>, meta: map<Id, Meta>, id: Id): seq<Id> {
    if |fifo| + 1 > 2 * MAX_ORPHANS then Live(fifo + [id], meta) else fifo + [id]
  }

  lemma {:induction false} EnqueueKeeps(fifo: seq<Id>, meta: map<Id, Meta>, id: Id)
    requires Distinct(fifo) && id !in fifo && |meta| <= MAX_ORPHANS
    requires forall k :: k in meta ==> k in fifo || k == id
    ensures var q := Enqueued(fifo, meta, id);
            && Distinct(q) && |q| <= 2 * MAX_ORPHANS && (id in meta ==> |q| > 0 && q[|q| - 1] == id)
            && (forall k :: k in meta ==> k in q) && (forall k :: k in q ==> k in fifo || k == id)
  {
    LiveDistinct(fifo + [id], meta);
    LiveHas(fifo + [id], meta);
    assert (fifo + [id])[..|fifo|] == fifo;
  }

  /** Of the live entries the oldest n are gone, and no others; without the last of them there would not have
      been room for sz more bytes. */
  ghost predicate Shrunk(fifo: seq<Id>, meta: map<Id, Meta>, f: seq<Id>, m: map<Id, Meta>, n: nat, sz: nat) {
    exists gone :: |gone| == n && ShrunkBy(fifo, meta, f, m, gone, sz)
  }

  ghost predicate ShrunkBy(fifo: seq<Id>, meta: map<Id, Meta>, f: seq<Id>, m: map<Id, Meta>, gone: seq<Id>, sz: nat) {
    && Live(fifo, meta) == gone + Live(f, m)
    && (forall id :: id in m ==> id in meta && m[id] == meta[id])
    && (gone != [] ==> Needed(m, meta, gone[|gone| - 1], sz))
  }

  /** The newcomer is last in the queue, behind what was left after making room. */
  ghost predicate Entered(fifo: seq<Id>, meta: map<Id, Meta>, f: seq<Id>, m: map<Id, Meta>, b: Block, n: nat) {
    exists gone :: |gone| == n && EnteredBy(fifo, meta, f, m, b, gone)
  }

  ghost predicate EnteredBy(fifo: seq<Id>, meta: map<Id, Meta>, f: seq<Id>, m: map<Id, Meta>, b: Block, gone: seq<Id>) {
    && Live(fifo, meta) + [b.id] == gone + Live(f, m)
    && (forall id :: id in m && id != b.id ==> id in meta && m[id] == meta[id])
    && (gone != [] ==> Needed(m - {b.id}, meta, gone[|gone| - 1], b.size))
  }

  lemma {:induction false} NotShrunk(fifo: seq<Id>, meta: map<Id, Meta>, sz: nat)
    ensures Shrunk(fifo, meta, fifo, meta, 0, sz)
  {
    assert ShrunkBy(fifo, meta, fifo, meta, [], sz);
  }

  lemma {:induction false} ShrunkEntered(fifo: seq<Id>, meta: map<Id, Meta>, f: seq<Id>, m: map<Id, Meta>,
          g: seq<Id>, b: Block, v: Meta, n: nat)
    requires Shrunk(fifo, meta, f, m, n, b.size) && b.id !in m && Live(g, m[b.id := v]) == Live(f, m) + [b.id]
    ensures Entered(fifo, meta, g, m[b.id := v], b, n)
  {
    var gone :| |gone| == n && ShrunkBy(fifo, meta, f, m, gone, b.size);
    assert m[b.id := v] - {b.id} == m;
    assert EnteredBy(fifo, meta, g, m[b.id := v], b, gone);
  }

  lemma {:induction false} LiveMore(fifo: seq<Id>, meta: map<Id, Meta>, id: Id, v: Meta)
    requires id !in fifo
    ensures Live(fifo, meta[id := v]) == Live(fifo, meta)
  {
    if fifo != [] { LiveMore(fifo[..|fifo| - 1], meta, id, v); }
  }

  lemma {:induction false} LiveTwice(fifo: seq<Id>, meta: map<Id, Meta>)
    ensures Live(Live(fifo, meta), meta) == Live(fifo, meta)
  {
    if fifo != [] {
      var init, x := fifo[..|fifo| - 1], fifo[|fifo| - 1];
      LiveTwice(init, meta);
      if x in meta {
        LiveConcat(Live(init, meta), [x], meta);
        assert [x][..0] == [];
        assert Live([x], meta) == Live([], meta) + [x] == [x];
      }
    }
  }

  /** Enqueueing adds the newcomer behind the live entries, compacted or not. */
  lemma {:induction false} EnqueuedLive(fifo: seq<Id>, meta: map<Id, Meta>, id: Id, v: Meta)
    requires id !in fifo
    ensures Live(Enqueued(fifo, meta[id := v], id), meta[id := v]) == Live(fifo, meta) + [id]
  {
    LiveMore(fifo, meta, id, v);
    assert (fifo + [id])[..|fifo|] == fifo;
    LiveTwice(fifo + [id], meta[id := v]);
  }

  /** With this one still there, one of the bounds would not admit sz more bytes. */
  ghost predicate Needed(meta: map<Id, Meta>, before: map<Id, Meta>, id: Id, sz: nat) {
    && id in before && id !in meta
    && (|meta| + 1 >= MAX_ORPHANS || Total(meta) + before[id].bytes + sz > MAX_ORPHAN_BYTES)
  }

  lemma {:induction false} OneEvicted(fifo: seq<Id>, meta: map<Id, Meta>, f: seq<Id>, m: map<Id, Meta>, n: nat,
          sz: nat, f': seq<Id>, m': map<Id, Meta>)
    requires Distinct(f) && Shrunk(fifo, meta, f, m, n, sz)
    requires |m| >= MAX_ORPHANS || Total(m) + sz > MAX_ORPHAN_BYTES
    requires var k := Oldest(f, m); k < |f| && f' == f[k + 1..] && m' == m - {f[k]}
    ensures Shrunk(fifo, meta, f', m', n + 1, sz)
  {
    var k := Oldest(f, m);
    var gone :| |gone| == n && ShrunkBy(fifo, meta, f, m, gone, sz);
    OldestFound(f, m);
    LiveWithout(f, m, k);
    TotalRemove(m, f[k]);
    assert ShrunkBy(fifo, meta, f', m', gone + [f[k]], sz);
  }

  class Buffer {
    const hdr: Id -> Header
    var orphans: map<Id, seq<Block>>
    var meta: map<Id, Meta>
    var fifo: seq<Id>
    var bytes: int
    /** Children already taken off the lists that are waiting to be re-added. */
    ghost var pending: set<Id>

    /** Both bounds and the exact accounting. */
    ghost predicate Bounded()
      reads this
    {
      bytes == Total(meta) && |meta| <= MAX_ORPHANS && bytes <= MAX_ORPHAN_BYTES
    }

    /** The queue holds every live orphan exactly once and never exceeds twice the cap. */
    ghost predicate QueueOk()
      reads this
    {
      Distinct(fifo) && |fifo| <= 2 * MAX_ORPHANS && forall id :: id in meta ==> id in fifo
    }

    ghost predicate Valid()
      reads this
    {
      Consistent(hdr, orphans, meta, pending) && Bounded() && QueueOk()
    }

    constructor (hdr: Id -> Header)
      ensures Valid() && this.hdr == hdr && meta == map[] && fifo == [] && pending == {}
    {
      this.hdr := hdr;
      orphans, meta, fifo, bytes, pending := map[], map[], [], 0, {};
    }

    /** removeOrphanLocked: off its sibling list and out of the accounting; the queue is not touched. */
    method Remove(id: Id)
      requires Consistent(hdr, orphans, meta, pending) && Bounded() && id in meta && id !in pending
      modifies this`orphans, this`meta, this`bytes
      ensures Consistent(hdr, orphans, meta, pending) && Bounded() && meta == old(meta) - {id}
            && |meta| == |old(meta)| - 1
    {
      var m := meta[id];
      assert Listed(orphans, m.parent, id);
      var siblings := orphans[m.parent];
      var i := 0;
      while siblings[i].id != id
        invariant 0 <= i < |siblings| && forall j :: 0 <= j < i ==> siblings[j].id != id
        decreases |siblings| - i
      {
        assert HasId(siblings, id);
        i := i + 1;
      }
      RemoveKeeps(hdr, orphans, meta, pending, m.parent, i);
      TotalRemove(meta, id);
      orphans := Relist(orphans, m.parent, siblings[..i] + siblings[i + 1..]);
      meta := meta - {id};
      bytes := bytes - m.bytes;
    }

    /** evictOldestOrphanLocked: skips stale entries, removes the oldest live orphan. It fails only
        when nothing is buffered. */
    method EvictOldest() returns (ok: bool)
      requires Valid() && pending == {}
      modifies this`orphans, this`meta, this`bytes, this`fifo
      ensures Valid() && (forall id :: id in fifo ==> id in old(fifo) && (id in meta <==> id in old(meta)))
      ensures ok <==> |old(meta)| > 0
      ensures if ok then |meta| == |old(meta)| - 1 else meta == old(meta)
      ensures ok ==> var k := Oldest(old(fifo), old(meta));
                k < |old(fifo)| && meta == old(meta) - {old(fifo)[k]} && fifo == old(fifo)[k + 1..]
    {
      var k := 0;
      while k < |fifo| && fifo[k] !in meta
        invariant 0 <= k <= |fifo| && forall i :: 0 <= i < k ==> fifo[i] !in meta
      {
        k := k + 1;
      }
      QueueSuffix(fifo, meta, k);
      OldestIs(fifo, meta, k);
      if k == |fifo| {
        fifo := [];
        return false;
      }
      var id := fifo[k];
      fifo := fifo[k + 1..];
      Remove(id);
      return true;
    }

    /** Evicts until both bounds admit sz more bytes; the drop for "nothing left to evict" cannot happen. The
        oldest go first, and no more of them than needed. */
    method MakeRoom(sz: nat) returns (evicted: nat)
      requires Valid() && pending == {} && sz <= MAX_ORPHAN_BYTES
      modifies this`orphans, this`meta, this`bytes, this`fifo
      ensures Valid() && |meta| < MAX_ORPHANS && bytes + sz <= MAX_ORPHAN_BYTES
      ensures meta.Keys <= old(meta).Keys && (evicted == 0 ==> meta == old(meta))
      ensures forall id :: id in fifo ==> id in old(fifo) && (id in meta <==> id in old(meta))
      ensures Shrunk(old(fifo), old(meta), fifo, meta, evicted, sz)
    {
      evicted := 0;
      NotShrunk(fifo, meta, sz);
      while |meta| >= MAX_ORPHANS || bytes + sz > MAX_ORPHAN_BYTES
        invariant Valid()
        invariant meta.Keys <= old(meta).Keys && (evicted == 0 ==> meta == old(meta))
        invariant forall id :: id in fifo ==> id in old(fifo) && (id in meta <==> id in old(meta))
        invariant Shrunk(old(fifo), old(meta), fifo, meta, evicted, sz)
        decreases |meta|
      {
        EvictOne(sz, old(fifo), old(meta), evicted);
        evicted := evicted + 1;
      }
    }

    /** One turn of the loop, after n evictions from the queue f. */
    method EvictOne(sz: nat, ghost f: seq<Id>, ghost m: map<Id, Meta>, ghost n: nat)
      requires Valid() && pending == {} && sz <= MAX_ORPHAN_BYTES && Shrunk(f, m, fifo, meta, n, sz)
      requires |meta| >= MAX_ORPHANS || bytes + sz > MAX_ORPHAN_BYTES
      modifies this`orphans, this`meta, this`bytes, this`fifo
      ensures Valid() && Shrunk(f, m, fifo, meta, n + 1, sz)
      ensures |meta| < |old(meta)| && meta.Keys <= old(meta).Keys
      ensures forall id :: id in fifo ==> id in old(fifo) && (id in meta <==> id in old(meta))
    {
      assert |meta| == 0 ==> Total(meta) == 0;
      var ok := EvictOldest();
      assert ok;
      OneEvicted(f, m, old(fifo), old(meta), n, sz, fifo, meta);
    }

    method Append(b: Block)
      requires Valid() && b.id !in meta && b.id !in fifo && |meta| < MAX_ORPHANS && bytes + b.size <= MAX_ORPHAN_BYTES
      modifies this`orphans, this`meta, this`bytes, this`fifo
      ensures Valid() && meta == old(meta)[b.id := Meta(hdr(b.id).prev, b.size)]
      ensures forall id :: id in fifo ==> id in old(fifo) || id == b.id
      ensures fifo == Enqueued(old(fifo), meta, b.id) && fifo[|fifo| - 1..] == [b.id]
      ensures Live(fifo, meta) == Live(old(fifo), old(meta)) + [b.id]
    {
      var p := hdr(b.id).prev;
      EnqueuedLive(fifo, meta, b.id, Meta(p, b.size));
      InsertKeeps(hdr, orphans, meta, pending, b);
      TotalInsert(meta, b.id, Meta(p, b.size));
      orphans := orphans[p := (if p in orphans then orphans[p] else []) + [b]];
      meta := meta[b.id := Meta(p, b.size)];
      bytes := bytes + b.size;
      EnqueueKeeps(fifo, meta, b.id);
      fifo := Enqueued(fifo, meta, b.id);
    }

    /** bufferOrphanLocked. The newcomer is buffered unless it was there already or exceeds the whole
        byte budget by itself. */
    method Insert(b: Block) returns (evicted: nat)
      requires Valid() && pending == {}
      requires b.id !in meta ==> b.id !in fifo
      modifies this`orphans, this`meta, this`bytes, this`fifo
      ensures Valid()
      ensures b.id in old(meta) || b.size > MAX_ORPHAN_BYTES ==> meta == old(meta) && fifo == old(fifo)
      ensures b.id !in old(meta) && b.size <= MAX_ORPHAN_BYTES ==> b.id in meta && meta.Keys <= old(meta).Keys + {b.id}
      ensures b.id !in old(meta) && b.size <= MAX_ORPHAN_BYTES ==> fifo[|fifo| - 1..] == [b.id]
      ensures evicted == 0 && b.size <= MAX_ORPHAN_BYTES ==> meta.Keys == old(meta).Keys + {b.id}
      ensures b.id !in old(meta) && b.size <= MAX_ORPHAN_BYTES ==>
                Entered(old(fifo), old(meta), fifo, meta, b, evicted)
      ensures forall id :: id in fifo && id !in meta ==> id in old(fifo) && id !in old(meta)
    {
      evicted := 0;
      if b.id in meta || b.size > MAX_ORPHAN_BYTES {
        return;
      }
      evicted := MakeRoom(b.size);
      ghost var f, m := fifo, meta;
      Append(b);
      ShrunkEntered(old(fifo), old(meta), f, m, fifo, b, meta[b.id], evicted);
    }

    /** The head of connectOrphansLocked: the children of a parent leave the lists together. */
    method TakeChildren(p: Id) returns (children: seq<Block>)
      requires Valid()
      modifies this`orphans, this`pending
      ensures Valid() && DistinctIds(children)
      ensures pending == old(pending) + (set c | c in children :: c.id)
      ensures forall c :: c in children ==> c.id in meta && c.id !in old(pending) && hdr(c.id).prev == p
      ensures forall id :: id in meta && hdr(id).prev == p ==> id in pending
    {
      if p !in orphans {
        assert forall id :: id in meta && id !in pending ==> Listed(orphans, hdr(id).prev, id);
        return [];
      }
      children := orphans[p];
      TakeKeeps(hdr, orphans, meta, pending, p);
      assert forall c :: c in children ==> ListedOk(hdr, meta, pending, p, c);
      orphans := orphans - {p};
      pending := pending + set c | c in children :: c.id;
      assert forall id :: id in meta && id !in pending ==> Listed(orphans, hdr(id).prev, id);
    }

    /** A taken child leaves the accounting just before it is re-added. */
    method Forget(id: Id)
      requires Valid() && id in pending
      modifies this`meta, this`bytes, this`pending
      ensures Valid() && meta == old(meta) - {id} && |meta| == |old(meta)| - 1 && pending == old(pending) - {id}
    {
      ForgetKeeps(hdr, orphans, meta, pending, id);
      TotalRemove(meta, id);
      bytes := bytes - meta[id].bytes;
      meta := meta - {id};
      pending := pending - {id};
    }
  }

  /** After dropping the stale head of the queue, the rest still holds every other live orphan. */
  lemma {:induction false} QueueSuffix(fifo: seq<Id>, meta: map<Id, Meta>, k: nat)
    requires Distinct(fifo) && k <= |fifo| && forall i :: 0 <= i < k ==> fifo[i] !in meta
    requires forall id :: id in meta ==> id in fifo
    ensures k == |fifo| ==> |meta| == 0
    ensures k < |fifo| ==> Distinct(fifo[k + 1..]) && forall id :: id in meta && id != fifo[k] ==> id in fifo[k + 1..]
  {
    if k == |fifo| {
      assert meta.Keys == {};
    } else {
      forall id | id in meta && id != fifo[k] ensures id in fifo[k + 1..] {
        var i :| 0 <= i < |fifo| && fifo[i] == id;
        assert fifo[k + 1..][i - k - 1] == id;
      }
    }
  }
}
