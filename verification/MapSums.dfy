/** Sums over the entries of a finite map, however it is enumerated. */
module MapSums {

  ghost function Sum<V>(m: map<nat, V>, size: V -> nat): nat
    decreases |m|
  {
    if |m| == 0 then 0 else size(m[PickKey(m)]) + Sum(m - {PickKey(m)}, size)
  }

  ghost function PickKey<V>(m: map<nat, V>): nat
    requires |m| != 0
    ensures PickKey(m) in m
  {
    assert m.Keys != {};
    var k :| k in m; k
  }

  lemma {:induction false} SumPick<V>(m: map<nat, V>, size: V -> nat, k: nat)
    requires k in m
    ensures Sum(m, size) == size(m[k]) + Sum(m - {k}, size)
    decreases |m|
  {
    var j := PickKey(m);
    if j != k {
      SumPick(m - {j}, size, k);
      SumPick(m - {k}, size, j);
      assert m - {j} - {k} == m - {k} - {j};
    }
  }

  lemma {:induction false} SumPut<V>(m: map<nat, V>, size: V -> nat, k: nat, v: V)
    requires k !in m
    ensures Sum(m[k := v], size) == Sum(m, size) + size(v) && |m[k := v]| == |m| + 1
  {
    SumPick(m[k := v], size, k);
    assert m[k := v] - {k} == m;
    KeysPut(m, k, v);
  }

  lemma {:induction false} KeysPut<V>(m: map<nat, V>, k: nat, v: V)
    requires k !in m
    ensures |m[k := v]| == |m| + 1
  {
    assert m[k := v].Keys == m.Keys + {k};
  }

  lemma {:induction false} SumRemove<V>(m: map<nat, V>, size: V -> nat, k: nat)
    requires k in m
    ensures Sum(m - {k}, size) == Sum(m, size) - size(m[k]) && |m - {k}| == |m| - 1
  {
    SumPick(m, size, k);
    assert (m - {k}).Keys == m.Keys - {k};
  }
}
