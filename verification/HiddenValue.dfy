/** Value in things whose spending is hidden: a list of amounts that only grows, and the positions
    already used. */
module HiddenValue {
  import opened Sequences

  function Sum(vals: seq<nat>): nat {
    if vals == [] then 0 else Sum(vals[..|vals| - 1]) + vals[|vals| - 1]
  }

  /** What the unused positions hold. */
  function Live(vals: seq<nat>, used: set<nat>): nat {
    if vals == [] then 0
    else Live(vals[..|vals| - 1], used) + if |vals| - 1 in used then 0 else vals[|vals| - 1]
  }

  /** Positions of vals. */
  predicate Within(us: seq<nat>, n: nat) {
    forall i :: 0 <= i < |us| ==> us[i] < n
  }

  function SumAt(vals: seq<nat>, us: seq<nat>): nat
    requires Within(us, |vals|)
  {
    if us == [] then 0 else SumAt(vals, us[..|us| - 1]) + vals[us[|us| - 1]]
  }

  ghost function Positions(us: seq<nat>): set<nat> {
    set u | u in us
  }

  lemma {:induction false} LiveGrows(vals: seq<nat>, more: seq<nat>, us: seq<nat>)
    requires Within(us, |vals|)
    ensures Live(vals + more, Positions(us)) == Live(vals, Positions(us)) + Sum(more)
  {
    if more == [] {
      assert vals + more == vals;
    } else {
      var front := more[..|more| - 1];
      LiveGrows(vals, front, us);
      assert (vals + more)[..|vals + more| - 1] == vals + front;
    }
  }

  lemma {:induction false} LiveOutside(vals: seq<nat>, used: set<nat>, i: nat)
    requires i >= |vals|
    ensures Live(vals, used + {i}) == Live(vals, used)
  {
    if vals != [] { LiveOutside(vals[..|vals| - 1], used, i); }
  }

  /** Using a fresh position takes out exactly its value. */
  lemma {:induction false} LiveUse(vals: seq<nat>, used: set<nat>, i: nat)
    requires i < |vals| && i !in used
    ensures Live(vals, used + {i}) == Live(vals, used) - vals[i]
  {
    if i == |vals| - 1 {
      LiveOutside(vals[..|vals| - 1], used, i);
    } else {
      LiveUse(vals[..|vals| - 1], used, i);
    }
  }

  lemma {:induction false} Front(us: seq<nat>, u: nat)
    ensures Distinct(us + [u]) <==> Distinct(us) && u !in us
    ensures Positions(us + [u]) == Positions(us) + {u}
  {
    var s := us + [u];
    assert forall i :: 0 <= i < |us| ==> s[i] == us[i];
    assert s[|us|] == u;
    if Distinct(s) {
      assert forall i :: 0 <= i < |us| ==> s[i] != s[|us|];
    }
  }

  lemma {:induction false} LiveUseAll(vals: seq<nat>, us: seq<nat>, more: seq<nat>)
    requires Within(us, |vals|) && Within(more, |vals|) && Distinct(us + more)
    ensures Live(vals, Positions(us + more)) == Live(vals, Positions(us)) - SumAt(vals, more)
  {
    if more == [] {
      assert us + more == us;
    } else {
      var front, u := more[..|more| - 1], more[|more| - 1];
      assert us + more == us + front + [u];
      Front(us + front, u);
      LiveUseAll(vals, us, front);
      LiveUse(vals, Positions(us + front), u);
    }
  }

  lemma {:induction false} SumAtGrows(vals: seq<nat>, more: seq<nat>, us: seq<nat>)
    requires Within(us, |vals|)
    ensures SumAt(vals + more, us) == SumAt(vals, us)
  {
    if us != [] { SumAtGrows(vals, more, us[..|us| - 1]); }
  }

  /** New amounts arrive and old or new positions are used, in one go. */
  lemma {:induction false} LiveAfter(vals: seq<nat>, us: seq<nat>, newVals: seq<nat>, newUses: seq<nat>)
    requires Within(us, |vals|) && Within(newUses, |vals|) && Distinct(us + newUses)
    ensures Live(vals + newVals, Positions(us + newUses))
          == Live(vals, Positions(us)) + Sum(newVals) - SumAt(vals, newUses)
  {
    LiveGrows(vals, newVals, us);
    LiveUseAll(vals + newVals, us, newUses);
    SumAtGrows(vals, newVals, newUses);
  }
}
