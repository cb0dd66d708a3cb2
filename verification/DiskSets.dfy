/** The disk-backed, add-only sets that roll back by truncation: three buckets (insertion index
    to key, key membership, running commitment per count) and an in-memory count. */
module DiskSets {
  import opened Bits

  type Key = string

  const MODULUS: nat := 0x1_0000000000000000_0000000000000000_0000000000000000_0000000000000000

  /** Sum of two commitments modulo 2^256. */
  function Add256(a: nat, b: nat): nat {
    (a + b) % MODULUS
  }

  // ------------------------------------------------- what a history of adds leaves

  /** The running commitment: a key already present contributes nothing. */
  function CommitOf(hash: Key -> nat, h: seq<Key>): nat {
    if h == [] then 0
    else
      var (init, k) := (h[..|h| - 1], h[|h| - 1]);
      if k in init then CommitOf(hash, init) else Add256(CommitOf(hash, init), hash(k))
  }

  function Members(h: seq<Key>): set<Key> {
    set k | k in h
  }

  /** Insertion index to key, first occurrences only: a repeated add leaves a gap. */
  function IndexOf(h: seq<Key>): map<nat, Key> {
    map i: nat | i < |h| && h[i] !in h[..i] :: h[i]
  }

  function CommitLog(hash: Key -> nat, h: seq<Key>): map<nat, nat> {
    map n: nat | 1 <= n <= |h| :: CommitOf(hash, h[..n])
  }

  class DiskSet {
    const hash: Key -> nat
    var idx: map<nat, Key>
    var present: set<Key>
    var commits: map<nat, nat>
    var count: nat
    var commit: nat
    /** Every Add call the buckets remember. */
    ghost var log: seq<Key>

    /** The buckets are those of the log. */
    ghost predicate Stored()
      reads this
    {
      idx == IndexOf(log) && present == Members(log) && commits == CommitLog(hash, log)
    }

    /** The in-memory part describes the first count calls of the log. */
    ghost predicate Valid()
      reads this
    {
      Stored() && count <= |log| && commit == CommitOf(hash, log[..count])
    }

    /** Nothing on disk beyond the in-memory count. */
    ghost predicate Synced()
      reads this
    {
      Valid() && count == |log|
    }

    constructor (hash: Key -> nat)
      ensures Synced() && log == [] && this.hash == hash
    {
      this.hash := hash;
      idx, present, commits, count, commit, log := map[], {}, map[], 0, 0, [];
    }

    method Has(key: Key) returns (b: bool)
      requires Valid()
      ensures b <==> key in log
    {
      b := key in present;
    }

    method Add(key: Key)
      requires Synced()
      modifies this
      ensures Synced() && log == old(log) + [key]
    {
      AddedLog(hash, log, key);
      CommitSnoc(hash, log, key);
      var wasNew := key !in present;
      if wasNew {
        idx := idx[count := key];
        present := present + {key};
        commit := Add256(commit, hash(key));
      }
      count := count + 1;
      commits := commits[count := commit];
      log := log + [key];
      assert old(log)[..old(count)] == old(log) && log[..count] == log;
      assert log[..|log| - 1] == old(log);
    }

    /** The running commit recorded at count n. */
    method ReadCommit(n: nat) returns (c: nat)
      requires Stored() && n <= |log|
      ensures c == CommitOf(hash, log[..n])
    {
      c := if n in commits then commits[n] else 0;
    }

    /** Rollback: exactly the set, count and commitment that held after the first n Add calls. */
    method Truncate(n: nat)
      requires Valid() && n <= |log|
      modifies this
      ensures Synced() && log == old(log)[..n]
    {
      TruncatedLog(hash, log, n);
      var gone := map i | i in idx && i >= n :: idx[i];
      idx := map i | i in idx && i < n :: idx[i];
      present := present - gone.Values;
      commits := map i | i in commits && i <= n :: commits[i];
      log := log[..n];
      count := n;
      assert log[..n] == log;
      commit := ReadCommit(n);
    }

    /** A snapshot restore moves only the in-memory part. */
    method SetCount(n: nat)
      requires Valid() && n <= |log|
      modifies this`count, this`commit
      ensures Valid() && count == n && log == old(log)
    {
      count := n;
      commit := ReadCommit(n);
    }

    method ResetCount()
      requires Valid()
      modifies this`count, this`commit
      ensures Valid() && count == 0 && log == old(log)
    {
      count, commit := 0, 0;
    }

    /** The commitment after adding keys, without adding them. */
    method CommitAfter(keys: seq<Key>) returns (c: nat)
      requires Synced()
      ensures c == CommitOf(hash, log + keys)
    {
      c := commit;
      var seen: set<Key> := {};
      assert log[..count] == log && log + keys[..0] == log;
      for i := 0 to |keys|
        invariant c == CommitOf(hash, log + keys[..i])
        invariant seen + present == Members(log + keys[..i])
      {
        CommitSnoc(hash, log + keys[..i], keys[i]);
        assert log + keys[..i + 1] == log + keys[..i] + [keys[i]];
        if keys[i] !in seen && keys[i] !in present {
          seen := seen + {keys[i]};
          c := Add256(c, hash(keys[i]));
        }
      }
      assert keys[..|keys|] == keys;
    }
  }

  lemma {:induction false} MembersSnoc(h: seq<Key>, k: Key)
    ensures Members(h + [k]) == Members(h) + {k}
  {
  }

  lemma {:induction false} NoMembers(h: seq<Key>)
    ensures Members(h) == {} <==> h == []
  {
    if h != [] { assert h[0] in Members(h); }
  }

  lemma {:induction false} CommitSnoc(hash: Key -> nat, h: seq<Key>, k: Key)
    ensures CommitOf(hash, h + [k]) == if k in h then CommitOf(hash, h) else Add256(CommitOf(hash, h), hash(k))
    ensures Members(h + [k]) == Members(h) + {k}
  {
    assert (h + [k])[..|h|] == h;
  }

  lemma {:induction false} AddedLog(hash: Key -> nat, h: seq<Key>, k: Key)
    ensures IndexOf(h + [k]) == if k in h then IndexOf(h) else IndexOf(h)[|h| := k]
    ensures CommitLog(hash, h + [k]) == CommitLog(hash, h)[|h| + 1 := CommitOf(hash, h + [k])]
  {
    AddedIndex(h, k);
    AddedCommit(hash, h, k);
  }

  lemma {:induction false} AddedIndex(h: seq<Key>, k: Key)
    ensures IndexOf(h + [k]) == if k in h then IndexOf(h) else IndexOf(h)[|h| := k]
  {
    var g := h + [k];
    assert g[..|h|] == h;
    assert forall i: nat :: i < |h| ==> g[i] == h[i] && g[..i] == h[..i];
  }

  lemma {:induction false} AddedCommit(hash: Key -> nat, h: seq<Key>, k: Key)
    ensures CommitLog(hash, h + [k]) == CommitLog(hash, h)[|h| + 1 := CommitOf(hash, h + [k])]
  {
    var g := h + [k];
    assert g[..|g|] == g;
    assert forall n: nat :: n <= |h| ==> g[..n] == h[..n];
  }

  /** Deleting the indices from n up, and their keys, leaves the buckets of the first n calls. */
  lemma {:induction false} TruncatedLog(hash: Key -> nat, h: seq<Key>, n: nat)
    requires n <= |h|
    ensures IndexOf(h[..n]) == map i | i in IndexOf(h) && i < n :: IndexOf(h)[i]
    ensures Members(h[..n]) == Members(h) - (map i | i in IndexOf(h) && i >= n :: IndexOf(h)[i]).Values
    ensures CommitLog(hash, h[..n]) == map i | i in CommitLog(hash, h) && i <= n :: CommitLog(hash, h)[i]
  {
    assert forall i: nat :: i < n ==> h[..n][i] == h[i] && h[..n][..i] == h[..i];
    assert forall m: nat :: m <= n ==> h[..n][..m] == h[..m];
    var gone := map i | i in IndexOf(h) && i >= n :: IndexOf(h)[i];
    forall k | k in Members(h)
      ensures k in h[..n] <==> k !in gone.Values
    {
      var i := FirstIndex(h, k);
      if k in h[..n] {
        var j :| 0 <= j < n && h[j] == k;
        assert i <= j;
        assert forall m :: m in gone ==> m >= n && gone[m] == h[m] && h[m] !in h[..m];
      } else {
        assert i in gone && gone[i] == k;
      }
    }
  }

  lemma {:induction false} FirstIndex(h: seq<Key>, k: Key) returns (i: nat)
    requires k in h
    ensures i < |h| && h[i] == k && k !in h[..i]
    ensures i in IndexOf(h) && IndexOf(h)[i] == k
    ensures forall j :: 0 <= j < |h| && h[j] == k ==> i <= j
  {
    i := 0;
    while h[i] != k
      invariant i < |h| && k !in h[..i]
      decreases |h| - i
    {
      assert h[..i + 1] == h[..i] + [h[i]];
      i := i + 1;
    }
  }

  // -------------------------------------------------------- order independence

  /** The commitment without a key that is present: its hash taken off. */
  lemma {:induction false} CommitWithout(hash: Key -> nat, h: seq<Key>, k: Key)
    requires k in h
    ensures CommitOf(hash, h) == Add256(CommitOf(hash, Without(h, k)), hash(k))
    ensures Members(Without(h, k)) == Members(h) - {k}
  {
    var n := |h| - 1;
    var init, last := h[..n], h[n];
    assert h == init + [last];
    WithoutMembers(init, k);
    if k in init {
      CommitWithout(hash, init, k);
      if last != k {
        CommitSnoc(hash, Without(init, k), last);
        Rotate(CommitOf(hash, Without(init, k)), hash(k), hash(last));
      }
    }
  }

  function Without(h: seq<Key>, k: Key): seq<Key> {
    if h == [] then []
    else if h[|h| - 1] == k then Without(h[..|h| - 1], k)
    else Without(h[..|h| - 1], k) + [h[|h| - 1]]
  }

  lemma {:induction false} WithoutMembers(h: seq<Key>, k: Key)
    ensures Members(Without(h, k)) == Members(h) - {k}
    ensures k !in h ==> Without(h, k) == h
  {
    if h != [] {
      var init, last := h[..|h| - 1], h[|h| - 1];
      WithoutMembers(init, k);
      assert h == init + [last];
      MembersSnoc(init, last);
      MembersSnoc(Without(init, k), last);
    }
  }

  lemma {:induction false} Rotate(c: nat, x: nat, y: nat)
    ensures Add256(Add256(c, x), y) == Add256(Add256(c, y), x)
  {
    ModularSum(c + x, y);
    ModularSum(c + y, x);
  }

  lemma {:induction false} ModularSum(a: nat, b: nat)
    ensures (a % MODULUS + b) % MODULUS == (a + b) % MODULUS
  {
    var q, r := a / MODULUS, a % MODULUS;
    assert a + b == (r + b) + q * MODULUS;
    AddMultiple(r + b, q);
  }

  lemma {:induction false} AddMultiple(a: nat, q: nat)
    ensures (a + q * MODULUS) % MODULUS == a % MODULUS
  {
    if q > 0 {
      AddMultiple(a, q - 1);
      assert a + q * MODULUS == (a + (q - 1) * MODULUS) + MODULUS;
    }
  }

  /** The commitment depends only on which keys were added, not on their order or repetition. */
  lemma {:induction false} CommitOrderIndependent(hash: Key -> nat, g: seq<Key>, h: seq<Key>)
    requires Members(g) == Members(h)
    ensures CommitOf(hash, g) == CommitOf(hash, h)
    decreases |Members(g)|
  {
    if Members(g) == {} {
      NoMembers(g);
      NoMembers(h);
    } else {
      var k :| k in Members(g);
      CommitWithout(hash, g, k);
      CommitWithout(hash, h, k);
      CommitOrderIndependent(hash, Without(g, k), Without(h, k));
    }
  }

  // --------------------------------------------------------------- byte-level sum

  /** The first byte weighs most. */
  lemma {:induction false} FirstByte(s: seq<byte>)
    requires s != []
    ensures FromBytes(s) == s[0] * Pow256(|s| - 1) + FromBytes(s[1..])
  {
    if |s| > 1 {
      var n := |s| - 1;
      FirstByte(s[..n]);
      assert s[..n][1..] == s[1..][..n - 1];
      ShiftUp(s[0], Pow256(n - 1), FromBytes(s[1..][..n - 1]), s[n]);
    }
  }

  lemma {:induction false} ShiftUp(x: int, w: int, y: int, z: int)
    ensures (x * w + y) * 256 + z == x * (256 * w) + (y * 256 + z)
  {
  }

  /** The carry loop over 32 big-endian bytes is addition modulo 2^256. */
  method Add256Bytes(a: seq<byte>, b: seq<byte>) returns (out: seq<byte>)
    requires |a| == |b| == 32
    ensures |out| == 32 && FromBytes(out) == Add256(FromBytes(a), FromBytes(b))
  {
    ghost var carry;
    out, carry := CarryLoop(a, b);
    ValueBound(out);
    Pow256Of32();
    AddMultiple(FromBytes(out), carry);
  }

  /** Long addition, from the last byte to the first. */
  method CarryLoop(a: seq<byte>, b: seq<byte>) returns (out: seq<byte>, carry: nat)
    requires |a| == |b| == 32
    ensures |out| == 32 && FromBytes(out) + carry * Pow256(32) == FromBytes(a) + FromBytes(b)
  {
    out := [];
    carry := 0;
    var i := 32;
    while i > 0
      invariant 0 <= i <= 32 && |out| == 32 - i && carry <= 1
      invariant FromBytes(out) + carry * Pow256(32 - i) == FromBytes(a[i..]) + FromBytes(b[i..])
    {
      i := i - 1;
      var s: int := (a[i] as int) + b[i] + carry;
      assert a[i..][1..] == a[i + 1..] && b[i..][1..] == b[i + 1..];
      FirstByte(a[i..]);
      FirstByte(b[i..]);
      CarryStep(s, Pow256(31 - i), carry, a[i], b[i]);
      FirstByte([s % 256] + out);
      assert ([s % 256] + out)[1..] == out;
      out := [s % 256] + out;
      carry := s / 256;
    }
    assert a[0..] == a && b[0..] == b;
  }

  lemma {:induction false} CarryStep(s: int, w: int, carry: int, x: int, y: int)
    requires s == x + y + carry
    ensures (s % 256) * w + (s / 256) * (256 * w) == x * w + y * w + carry * w
  {
    var q, r := s / 256, s % 256;
    assert r * w + q * (256 * w) == (r + 256 * q) * w;
    assert (x + y + carry) * w == x * w + y * w + carry * w;
  }

  lemma {:induction false} ValueBound(s: seq<byte>)
    ensures FromBytes(s) < Pow256(|s|)
  {
    if s != [] { ValueBound(s[..|s| - 1]); }
  }

  lemma {:induction false} Pow256Of32()
    ensures Pow256(32) == MODULUS
  {
    assert Pow256(4) == 0x1_0000_0000;
    assert Pow256(8) == 0x1_0000_0000_0000_0000;
    assert Pow256(12) == 0x1_0000_0000_0000_0000_0000_0000;
    assert Pow256(16) == 0x1_0000_0000_0000_0000_0000_0000_0000_0000;
    assert Pow256(20) == 256 * 256 * 256 * 256 * Pow256(16);
    assert Pow256(24) == 256 * 256 * 256 * 256 * Pow256(20);
    assert Pow256(28) == 256 * 256 * 256 * 256 * Pow256(24);
    assert Pow256(32) == 256 * 256 * 256 * 256 * Pow256(28);
  }
}
