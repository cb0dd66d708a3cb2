/** Runs of any machine whose inputs are chosen on the state reached so far. */
module Strategies {

  function Fold<X, B>(step: (X, B) -> X, x: X, bs: seq<B>): X {
    if bs == [] then x else step(Fold(step, x, bs[..|bs| - 1]), bs[|bs| - 1])
  }

  /** Each input is valid on the state its predecessors left. */
  predicate Valid<X, B>(valid: (X, B) -> bool, step: (X, B) -> X, x: X, bs: seq<B>) {
    bs != [] ==>
      Valid(valid, step, x, bs[..|bs| - 1]) && valid(Fold(step, x, bs[..|bs| - 1]), bs[|bs| - 1])
  }

  /** n inputs, each chosen on the state before it. */
  function Chosen<X, B>(step: (X, B) -> X, next: X -> B, x: X, n: nat): seq<B> {
    if n == 0 then [] else
      var front := Chosen(step, next, x, n - 1);
      front + [next(Fold(step, x, front))]
  }

  lemma {:induction false} FoldSnoc<X, B>(step: (X, B) -> X, x: X, bs: seq<B>, b: B)
    ensures Fold(step, x, bs + [b]) == step(Fold(step, x, bs), b)
  {
    assert (bs + [b])[..|bs|] == bs;
  }

  /** A choice that is valid on every state never gets stuck. */
  lemma {:induction false} ChosenValid<X(!new), B>(valid: (X, B) -> bool, step: (X, B) -> X, next: X -> B, x: X, n: nat)
    requires forall y: X :: valid(y, next(y))
    ensures Valid(valid, step, x, Chosen(step, next, x, n)) && |Chosen(step, next, x, n)| == n
  {
    if n > 0 {
      var front := Chosen(step, next, x, n - 1);
      ChosenValid(valid, step, next, x, n - 1);
      assert (front + [next(Fold(step, x, front))])[..|front|] == front;
    }
  }

  predicate KeepsAt<X, B>(step: (X, B) -> X, next: X -> B, inv: (X, nat) -> bool, y: X, k: nat) {
    inv(y, k) ==> inv(step(y, next(y)), k + 1)
  }

  /** What every choice keeps holds after any number of them. */
  lemma {:induction false} ChosenKeeps<X(!new), B>(step: (X, B) -> X, next: X -> B, inv: (X, nat) -> bool, x: X,
          n: nat)
    requires inv(x, 0) && forall y: X, k: nat :: KeepsAt(step, next, inv, y, k)
    ensures inv(Fold(step, x, Chosen(step, next, x, n)), n)
  {
    if n > 0 {
      var front := Chosen(step, next, x, n - 1);
      ChosenKeeps(step, next, inv, x, n - 1);
      FoldSnoc(step, x, front, next(Fold(step, x, front)));
      assert KeepsAt(step, next, inv, Fold(step, x, front), n - 1);
    }
  }

  lemma {:induction false} FoldConcat<X, B>(step: (X, B) -> X, x: X, A: seq<B>, C: seq<B>)
    ensures Fold(step, x, A + C) == Fold(step, Fold(step, x, A), C)
  {
    if C == [] {
      assert A + C == A;
    } else {
      assert (A + C)[..|A + C| - 1] == A + C[..|C| - 1];
      FoldConcat(step, x, A, C[..|C| - 1]);
    }
  }

  lemma {:induction false} ValidConcat<X, B>(valid: (X, B) -> bool, step: (X, B) -> X, x: X, A: seq<B>, C: seq<B>)
    ensures Valid(valid, step, x, A + C) <==> Valid(valid, step, x, A) && Valid(valid, step, Fold(step, x, A), C)
  {
    if C == [] {
      assert A + C == A;
    } else {
      assert (A + C)[..|A + C| - 1] == A + C[..|C| - 1];
      ValidConcat(valid, step, x, A, C[..|C| - 1]);
      FoldConcat(step, x, A, C[..|C| - 1]);
    }
  }
}
