/** The disk-backed list of all coins ever created, by creation index and by one-time key. */
module CoinStore {
  import opened Wrappers
  import opened DiskSets

  datatype CoinEntry = CoinEntry(key: Key, commitment: Key, height: nat, index: nat, isCoinbase: bool, lockUntil: nat)

  /** Creation order fixes the index; one-time keys are unique. */
  ghost predicate WellIndexed(log: seq<CoinEntry>) {
    && (forall i :: 0 <= i < |log| ==> log[i].index == i)
    && (forall i, j :: 0 <= i < j < |log| ==> log[i].key != log[j].key)
  }

  function KeysOf(log: seq<CoinEntry>): set<Key> {
    set c | c in log :: c.key
  }

  /** m maps each key of the list to the coin that has it. */
  ghost predicate Indexes(m: map<Key, CoinEntry>, log: seq<CoinEntry>) {
    m.Keys == KeysOf(log) && forall k :: k in m ==> m[k] in log && m[k].key == k
  }

  class Coins {
    /** Coins by creation index; the indices are contiguous. */
    var list: seq<CoinEntry>
    var byKey: map<Key, CoinEntry>
    var count: nat

    ghost predicate Valid()
      reads this
    {
      WellIndexed(list) && Indexes(byKey, list) && count <= |list|
    }

    /** Nothing on disk beyond the in-memory count. */
    ghost predicate Synced()
      reads this
    {
      Valid() && count == |list|
    }

    constructor ()
      ensures Synced() && list == []
    {
      list, byKey, count := [], map[], 0;
    }

    /** Appends a coin with the next creation index; validation has refused reused keys. */
    method Add(key: Key, commitment: Key, height: nat, isCoinbase: bool, lockUntil: nat)
      requires Synced() && key !in KeysOf(list)
      modifies this
      ensures Synced() && list == old(list) + [CoinEntry(key, commitment, height, |old(list)|, isCoinbase, lockUntil)]
    {
      var c := CoinEntry(key, commitment, height, count, isCoinbase, lockUntil);
      AddedCoin(list, byKey, c);
      list := list + [c];
      byKey := byKey[key := c];
      count := count + 1;
    }

    /** Rollback to the first n coins, whatever the buckets held beyond them. */
    method Truncate(n: nat)
      requires Valid() && n <= |list|
      modifies this
      ensures Synced() && list == old(list)[..n]
    {
      TruncatedCoins(list, byKey, n);
      byKey := byKey - KeysOf(list[n..]);
      list := list[..n];
      count := n;
    }

    method SetCount(n: nat)
      requires Valid() && n <= |list|
      modifies this`count
      ensures Valid() && count == n
    {
      count := n;
    }

    /** An output is spendable exactly when it was created and is not in the spent set. */
    method UtxoEntry(spent: DiskSet, ref: Key) returns (r: Option<CoinEntry>)
      requires Valid() && spent.Valid()
      ensures r.Some? <==> ref in KeysOf(list) && ref !in spent.log
      ensures r.Some? ==> r.value in list && r.value.key == ref
    {
      var isSpent := spent.Has(ref);
      if isSpent || ref !in byKey {
        return None;
      }
      return Some(byKey[ref]);
    }
  }

  lemma {:induction false} AddedCoin(log: seq<CoinEntry>, m: map<Key, CoinEntry>, c: CoinEntry)
    requires WellIndexed(log) && Indexes(m, log) && c.index == |log| && c.key !in KeysOf(log)
    ensures WellIndexed(log + [c]) && Indexes(m[c.key := c], log + [c])
  {
    var g := log + [c];
    assert forall i :: 0 <= i < |log| ==> log[i].key in KeysOf(log);
    assert c in g && forall d :: d in log ==> d in g;
    forall k ensures k in KeysOf(g) <==> k in KeysOf(log) + {c.key} {
    }
  }

  /** Dropping the keys of the coins from n up leaves the index of the first n. */
  lemma {:induction false} TruncatedCoins(log: seq<CoinEntry>, m: map<Key, CoinEntry>, n: nat)
    requires WellIndexed(log) && Indexes(m, log) && n <= |log|
    ensures WellIndexed(log[..n]) && Indexes(m - KeysOf(log[n..]), log[..n])
  {
    assert log == log[..n] + log[n..];
    assert KeysOf(log) == KeysOf(log[..n]) + KeysOf(log[n..]);
    forall k | k in KeysOf(log[..n]) ensures k !in KeysOf(log[n..]) {
      var c :| c in log[..n] && c.key == k;
      var i :| 0 <= i < n && log[i] == c;
      assert forall j :: n <= j < |log| ==> log[j].key != k;
    }
  }
}
