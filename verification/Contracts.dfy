/** Value locked in the open: swap contracts, staking vaults and post-quantum coins, each kept in a
    map that blocks delete from and insert into. */
module Contracts {
  import MapSums

  type Id = nat

  datatype Contract =
    | Swap(amount: nat, unlock: nat, nonce: Id)
    | Vault(amount: nat, term: nat, rate: nat, deposit: nat)
    | PqCoin(amount: nat)

  datatype Op = Del(key: Id) | Put(key: Id, contract: Contract)

  function AmountOf(c: Contract): nat { c.amount }

  /** The value held by all entries. */
  ghost function Total(m: map<Id, Contract>): nat {
    MapSums.Sum(m, AmountOf)
  }

  function Apply(m: map<Id, Contract>, op: Op): map<Id, Contract> {
    match op
    case Del(k) => m - {k}
    case Put(k, c) => m[k := c]
  }

  function Run(m: map<Id, Contract>, ops: seq<Op>): map<Id, Contract> {
    if ops == [] then m else Apply(Run(m, ops[..|ops| - 1]), ops[|ops| - 1])
  }

  lemma {:induction false} RunConcat(m: map<Id, Contract>, p: seq<Op>, q: seq<Op>)
    ensures Run(m, p + q) == Run(Run(m, p), q)
  {
    if q == [] {
      assert p + q == p;
    } else {
      assert (p + q)[..|p + q| - 1] == p + q[..|q| - 1];
      RunConcat(m, p, q[..|q| - 1]);
    }
  }

  /** Deletions name entries of m, insertions name absent keys. */
  predicate Names(m: map<Id, Contract>, op: Op) {
    if op.Del? then op.key in m else op.key !in m
  }

  /** No key is touched twice. */
  predicate Clean(m: map<Id, Contract>, ops: seq<Op>) {
    && (forall i {:trigger ops[i]} :: 0 <= i < |ops| ==> Names(m, ops[i]))
    && (forall i, j :: 0 <= i < j < |ops| ==> ops[i].key != ops[j].key)
  }

  /** The change in locked value. */
  function Net(m: map<Id, Contract>, ops: seq<Op>): int {
    if ops == [] then 0 else Net(m, ops[..|ops| - 1]) + OpNet(m, ops[|ops| - 1])
  }

  function OpNet(m: map<Id, Contract>, op: Op): int {
    match op
    case Del(k) => if k in m then -(m[k].amount as int) else 0
    case Put(_, c) => c.amount
  }

  lemma {:induction false} Untouched(m: map<Id, Contract>, ops: seq<Op>, k: Id)
    requires forall i :: 0 <= i < |ops| ==> ops[i].key != k
    ensures k in Run(m, ops) <==> k in m
    ensures k in m ==> Run(m, ops)[k] == m[k]
  {
    if ops != [] {
      Untouched(m, ops[..|ops| - 1], k);
      assert ops[|ops| - 1].key != k;
    }
  }

  /** Value in the map moves by exactly what the operations say. */
  lemma {:induction false} TotalOfRun(m: map<Id, Contract>, ops: seq<Op>)
    requires Clean(m, ops)
    ensures Total(Run(m, ops)) == Total(m) + Net(m, ops)
  {
    if ops != [] {
      var p, op := ops[..|ops| - 1], ops[|ops| - 1];
      TotalOfRun(m, p);
      assert Names(m, op);
      Untouched(m, p, op.key);
      match op
      case Del(k) => MapSums.SumRemove(Run(m, p), AmountOf, k);
      case Put(k, c) => MapSums.SumPut(Run(m, p), AmountOf, k, c);
    }
  }
}
