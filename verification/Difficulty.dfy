/** The linearly weighted moving average that sets the next difficulty. */
module Difficulty {
  import opened Params
  import opened Integers
  import opened Bits

  const MIN_DIFFICULTY: nat := 16
  const GENESIS_DIFFICULTY: nat := 64
  const WINDOW: nat := 60
  const TARGET: nat := 120

  function Clamp(solve: int): int {
    if solve < -6 * (TARGET as int) then -6 * (TARGET as int) else if solve > 6 * TARGET then 6 * TARGET else solve
  }

  function Solve(older: int, newer: int): int {
    Clamp(Signed64(newer - older))
  }

  /** The weighted solve times of the first k timestamps. */
  function WeightedTime(ts: seq<int>, k: nat): int
    requires k <= |ts|
  {
    if k <= 1 then 0 else WeightedTime(ts, k - 1) + Solve(ts[k - 2], ts[k - 1]) * (k - 1)
  }

  function Weights(k: nat): nat {
    if k <= 1 then 0 else Weights(k - 1) + (k - 1)
  }

  function DiffSum(df: seq<nat>, k: nat): nat
    requires k <= |df|
  {
    if k <= 1 then 0 else DiffSum(df, k - 1) + df[k - 1]
  }

  function Max(a: int, b: int): int { if a < b then b else a }

  function Floor(window: nat): nat { window * TARGET / 20 }

  function Scaled(avg: nat, denom: nat, time: int): nat
    requires time > 0
  {
    avg * TARGET * denom / time
  }

  /** The average scaled by how fast the window was, before clamping. */
  function Retarget(time: int, df: seq<nat>): nat
    requires |df| >= 2
  {
    Scaled(DiffSum(df, |df|) / (|df| - 1), Weights(|df|), DivisorOf(time, |df|))
  }

  function DivisorOf(time: int, window: nat): (d: int)
    requires window >= 2
    ensures d > 0
  {
    Max(time, Floor(window))
  }

  function Bounded(next: nat, last: nat): nat {
    var high := if next > 2 * last then 2 * last else next;
    var low := if high < last / 2 then last / 2 else high;
    var least := if low < MIN_DIFFICULTY then MIN_DIFFICULTY else low;
    if least > MAX64 then MAX64 else least
  }

  /** The result on a window of at most WINDOW blocks. */
  function Next(ts: seq<int>, df: seq<nat>): nat
    requires |ts| == |df| >= 2
  {
    Bounded(Retarget(WeightedTime(ts, |ts|), df), df[|df| - 1])
  }

  function Last<T>(s: seq<T>, n: nat): seq<T>
    requires n <= |s|
  {
    s[|s| - n..]
  }

  /** NextDifficulty; fixed is the development override. */
  method NextDifficulty(timestamps: seq<int>, difficulties: seq<nat>, fixed: nat) returns (d: nat)
    requires |timestamps| == |difficulties|
    ensures fixed > 0 ==> d == fixed
    ensures fixed == 0 && |difficulties| < 2 ==> d == GENESIS_DIFFICULTY
    ensures fixed == 0 && |difficulties| >= 2 ==>
              var w := if |difficulties| < WINDOW then |difficulties| else WINDOW;
              d == Next(Last(timestamps, w), Last(difficulties, w))
  {
    if fixed > 0 {
      return fixed;
    }
    var n := |difficulties|;
    if n < 2 {
      return GENESIS_DIFFICULTY;
    }
    var window := if n < WINDOW then n else WINDOW;
    d := Average(Last(timestamps, window), Last(difficulties, window));
  }

  method Average(ts: seq<int>, df: seq<nat>) returns (d: nat)
    requires |ts| == |df| >= 2
    ensures d == Next(ts, df)
  {
    var weightedTime, denom, sumDiff := Accumulate(ts, df);
    weightedTime := FloorTime(weightedTime, |df|);
    var next := Scaled(sumDiff / (|df| - 1), denom, weightedTime);
    assert next == Retarget(WeightedTime(ts, |ts|), df);
    d := ClampStep(next, df[|df| - 1]);
  }

  method FloorTime(time: int, window: nat) returns (t: int)
    requires window >= 2
    ensures t == DivisorOf(time, window)
  {
    t := time;
    var minWT := window * TARGET / 20;
    if t < minWT {
      t := minWT;
    }
  }

  /** The loop over the window. */
  method Accumulate(ts: seq<int>, df: seq<nat>) returns (weightedTime: int, denom: nat, sumDiff: nat)
    requires |ts| == |df| >= 1
    ensures weightedTime == WeightedTime(ts, |ts|) && denom == Weights(|ts|) && sumDiff == DiffSum(df, |df|)
  {
    weightedTime, denom, sumDiff := 0, 0, 0;
    for i := 1 to |ts|
      invariant weightedTime == WeightedTime(ts, i) && denom == Weights(i) && sumDiff == DiffSum(df, i)
    {
      var solve := Signed64(ts[i] - ts[i - 1]);
      if solve < -6 * (TARGET as int) {
        solve := -6 * (TARGET as int);
      }
      if solve > 6 * TARGET {
        solve := 6 * TARGET;
      }
      weightedTime := weightedTime + solve * i;
      denom := denom + i;
      sumDiff := sumDiff + df[i];
    }
  }

  /** The clamps, one after the other. */
  method ClampStep(raw: nat, last: nat) returns (next: nat)
    ensures next == Bounded(raw, last)
  {
    next := raw;
    var upper, lower := 2 * last, last / 2;
    if next > upper {
      next := upper;
    }
    if next < lower {
      next := lower;
    }
    if next < MIN_DIFFICULTY {
      next := MIN_DIFFICULTY;
    }
    if next > MAX64 {
      next := MAX64;
    }
  }

  // ------------------------------------------------------------------------------ bounds

  /** Never below the floor or half the last difficulty, never above twice it (or the floor). */
  lemma {:induction false} NextBounds(ts: seq<int>, df: seq<nat>)
    requires |ts| == |df| >= 2 && df[|df| - 1] <= MAX64
    ensures var (d, last) := (Next(ts, df), df[|df| - 1]);
      MIN_DIFFICULTY <= d <= MAX64 && last / 2 <= d && d <= Max(MIN_DIFFICULTY, 2 * last)
  {
  }

  /** d follows last: it was set from some window that ends with last. */
  ghost predicate Follows(last: nat, d: nat) {
    exists ts, df :: |ts| == |df| >= 2 && df[|df| - 1] == last && d == Next(ts, df)
  }

  lemma {:induction false} FollowsBounds(last: nat, d: nat)
    requires Follows(last, d) && MIN_DIFFICULTY <= last <= MAX64
    ensures MIN_DIFFICULTY <= d <= MAX64 && last <= 2 * d + 1 && d <= 2 * last
  {
    var ts, df :| |ts| == |df| >= 2 && df[|df| - 1] == last && d == Next(ts, df);
    NextBounds(ts, df);
  }

  /** k blocks move the difficulty by at most a factor of 2^k. */
  lemma {:induction false} DriftBound(d: seq<nat>, k: nat)
    requires k < |d| && MIN_DIFFICULTY <= d[0] <= MAX64 && forall i :: 0 < i < |d| ==> Follows(d[i - 1], d[i])
    ensures d[k] <= Exp2(k) * d[0] && d[0] <= Exp2(k) * (d[k] + 1) && MIN_DIFFICULTY <= d[k] <= MAX64
  {
    if k > 0 {
      DriftBound(d, k - 1);
      FollowsBounds(d[k - 1], d[k]);
      DoubleStep(d[0], d[k - 1], d[k], Exp2(k - 1));
    }
  }

  lemma {:induction false} DoubleStep(first: nat, last: nat, next: nat, p: nat)
    requires last <= p * first && first <= p * (last + 1) && next <= 2 * last && last <= 2 * next + 1
    ensures next <= (2 * p) * first && first <= (2 * p) * (next + 1)
  {
    ScaleUp(p, last + 1, 2 * (next + 1));
    Regroup(2, p, first);
    Reorder(p, next + 1);
  }

  lemma {:induction false} Reorder(p: int, x: int)
    ensures p * (2 * x) == (2 * p) * x
  {
  }

  // -------------------------------------------------------------------------- fixed point

  /** Every block on target, every difficulty the same. */
  ghost predicate Steady(ts: seq<int>, df: seq<nat>, d: nat) {
    && (forall i :: 1 <= i < |ts| ==> ts[i] - ts[i - 1] == TARGET)
    && (forall i :: 0 <= i < |df| ==> df[i] == d)
  }

  lemma {:induction false} SteadyTime(ts: seq<int>, df: seq<nat>, d: nat, k: nat)
    requires Steady(ts, df, d) && k <= |ts|
    ensures WeightedTime(ts, k) == TARGET * Weights(k)
  {
    if k > 1 {
      SteadyTime(ts, df, d, k - 1);
      assert Solve(ts[k - 2], ts[k - 1]) == TARGET;
    }
  }

  lemma {:induction false} SteadySum(ts: seq<int>, df: seq<nat>, d: nat, k: nat)
    requires Steady(ts, df, d) && 1 <= k <= |df|
    ensures DiffSum(df, k) == d * (k - 1)
  {
    if k > 1 {
      SteadySum(ts, df, d, k - 1);
      assert d * (k - 2) + d == d * (k - 1);
    }
  }

  lemma {:induction false} WeightsBound(k: nat)
    requires k >= 2
    ensures TARGET * Weights(k) >= k * TARGET / 20 && Weights(k) > 0
  {
    if k > 2 { WeightsBound(k - 1); }
  }

  /** A steady network keeps its difficulty. */
  lemma {:induction false} FixedPoint(ts: seq<int>, df: seq<nat>, d: nat)
    requires |ts| == |df| >= 2 && Steady(ts, df, d) && MIN_DIFFICULTY <= d <= MAX64
    ensures Next(ts, df) == d
  {
    var n := |df|;
    SteadyTime(ts, df, d, n);
    SteadySum(ts, df, d, n);
    WeightsBound(n);
    Cancelled(d, n - 1);
    var w := TARGET * Weights(n);
    Regroup(d, TARGET, Weights(n));
    Cancelled(d, w);
  }

  lemma {:induction false} Cancelled(a: nat, b: nat)
    requires b > 0
    ensures a * b / b == a
  {
    assert a * b == b * a;
    DivideExactly(a * b, b, a);
  }

  lemma {:induction false} Regroup(a: int, b: int, c: int)
    ensures a * b * c == a * (b * c)
  {
  }

  // ------------------------------------------------------------------------- monotonicity

  /** Without wrap-around the machine difference is the real one. */
  lemma {:induction false} NoWrap(x: int)
    ensures -TWO63 <= x < TWO63 ==> Signed64(x) == x
    ensures TWO63 <= x < 3 * TWO63 ==> Signed64(x) == x - 2 * TWO63
  {
  }

  lemma {:induction false} TimeOfPrefix(ts: seq<int>, us: seq<int>, k: nat)
    requires k <= |ts| && k <= |us| && ts[..k] == us[..k]
    ensures WeightedTime(ts, k) == WeightedTime(us, k)
  {
    if k > 1 {
      assert ts[..k - 1] == ts[..k][..k - 1] && us[..k - 1] == us[..k][..k - 1];
      TimeOfPrefix(ts, us, k - 1);
      assert ts[k - 1] == ts[..k][k - 1] && ts[k - 2] == ts[..k][k - 2];
      assert us[k - 1] == us[..k][k - 1] && us[k - 2] == us[..k][k - 2];
    }
  }

  lemma {:induction false} BoundedMonotone(a: nat, b: nat, last: nat)
    requires a <= b
    ensures Bounded(a, last) <= Bounded(b, last)
  {
  }

  lemma {:induction false} SlowerIsEasier(t: int, u: int, df: seq<nat>)
    requires |df| >= 2 && t <= u
    ensures Bounded(Retarget(u, df), df[|df| - 1]) <= Bounded(Retarget(t, df), df[|df| - 1])
  {
    var x := DiffSum(df, |df|) / (|df| - 1) * TARGET * Weights(|df|);
    QuotientFalls(x, DivisorOf(t, |df|), DivisorOf(u, |df|));
    BoundedMonotone(Retarget(u, df), Retarget(t, df), df[|df| - 1]);
  }

  lemma {:induction false} LastSolve(ts: seq<int>, t: int, u: int)
    requires |ts| >= 1
    ensures var (a, b) := (ts + [t], ts + [u]);
      WeightedTime(b, |b|) - WeightedTime(a, |a|) == (Solve(ts[|ts| - 1], u) - Solve(ts[|ts| - 1], t)) * |ts|
  {
    var a, b, n := ts + [t], ts + [u], |ts|;
    assert a[..n] == b[..n];
    TimeOfPrefix(a, b, n);
    var p, q := Solve(ts[n - 1], t), Solve(ts[n - 1], u);
    assert q * n - p * n == (q - p) * n;
  }

  /** The newest timestamp moves the difficulty against its clamped solve time. */
  lemma {:induction false} LongerSolve(ts: seq<int>, t: int, u: int, df: seq<nat>)
    requires |ts| >= 1 && |df| == |ts| + 1 && Solve(ts[|ts| - 1], t) <= Solve(ts[|ts| - 1], u)
    ensures Next(ts + [u], df) <= Next(ts + [t], df)
  {
    var prev, n := ts[|ts| - 1], |ts|;
    LastSolve(ts, t, u);
    Scale(Solve(prev, t), Solve(prev, u), n);
    SlowerIsEasier(WeightedTime(ts + [t], n + 1), WeightedTime(ts + [u], n + 1), df);
  }

  lemma {:induction false} Scale(p: int, q: int, n: nat)
    requires p <= q
    ensures (q - p) * n >= 0
  {
  }

  /** A later newest timestamp never raises the difficulty as long as its 64-bit difference from the
      one before does not wrap; once it wraps to the lower clamp, it never lowers it. */
  lemma {:induction false} NewestTimestamp(ts: seq<int>, t: int, u: int, df: seq<nat>)
    requires |ts| >= 1 && |df| == |ts| + 1 && t <= u
    requires -TWO63 <= t - ts[|ts| - 1] < TWO63 && u - ts[|ts| - 1] < 3 * TWO63
    ensures u - ts[|ts| - 1] < TWO63 ==> Next(ts + [u], df) <= Next(ts + [t], df)
    ensures TWO63 <= u - ts[|ts| - 1] <= 2 * TWO63 - 6 * TARGET ==> Next(ts + [u], df) >= Next(ts + [t], df)
  {
    var prev := ts[|ts| - 1];
    NoWrap(t - prev);
    NoWrap(u - prev);
    if u - prev < TWO63 {
      LongerSolve(ts, t, u, df);
    } else if u - prev <= 2 * TWO63 - 6 * TARGET {
      LongerSolve(ts, u, t, df);
    }
  }

  // --------------------------------------------------------------------- int64 timestamps

  predicate Int64(x: int) { -TWO63 <= x < TWO63 }

  /** The difference of two int64 timestamps wraps exactly when it leaves the int64 range: upwards only
      after a negative parent, downwards only for a negative timestamp after a positive parent. */
  lemma {:induction false} WrapsIff(prev: int, t: int)
    requires Int64(prev) && Int64(t)
    ensures Signed64(t - prev) == t - prev <==> Int64(t - prev)
    ensures t - prev >= TWO63 ==> prev < 0 && Signed64(t - prev) == t - prev - 2 * TWO63
    ensures t - prev < -TWO63 ==> t < 0 < prev && Signed64(t - prev) == t - prev + 2 * TWO63
  {
    NoWrap(t - prev);
  }

  /** After ts, among newest timestamps from least on, a later one never raises the difficulty. */
  ghost predicate NeverRaises(ts: seq<int>, least: int)
    requires |ts| >= 1
  {
    forall t, u, df: seq<nat> :: least <= t <= u < TWO63 && |df| == |ts| + 1 ==>
      Next(ts + [u], df) <= Next(ts + [t], df)
  }

  ghost predicate EndsIn(ts: seq<int>, parent: int) {
    |ts| >= 1 && ts[|ts| - 1] == parent
  }

  /** So it is after every history that ends in the parent timestamp. */
  ghost predicate ParentSafe(parent: int, least: int) {
    forall ts: seq<int> :: EndsIn(ts, parent) ==> NeverRaises(ts, least)
  }

  /** No later newest timestamp raises the difficulty, whatever the history, exactly when none of the
      differences can wrap (parent not negative) or all of them do. */
  lemma {:induction false} ParentDecides(parent: int, least: int)
    requires Int64(parent) && Int64(least)
    ensures ParentSafe(parent, least) <==> least >= if parent >= 0 then parent - TWO63 else parent + TWO63
  {
    if least >= if parent >= 0 then parent - TWO63 else parent + TWO63 {
      forall ts: seq<int> | EndsIn(ts, parent) ensures NeverRaises(ts, least) {
        OneBranch(ts, least);
      }
    } else if parent >= 0 {
      WrapRaises(parent, parent - TWO63 - 1, parent - TWO63);
      Unsafe(parent, least, parent - TWO63 - 1, parent - TWO63);
    } else {
      WrapRaises(parent, parent + TWO63 - 1, TWO63 - 1);
      Unsafe(parent, least, parent + TWO63 - 1, TWO63 - 1);
    }
  }

  lemma {:induction false} OneBranch(ts: seq<int>, least: int)
    requires |ts| >= 1 && Int64(ts[|ts| - 1]) && Int64(least)
    requires least >= if ts[|ts| - 1] >= 0 then ts[|ts| - 1] - TWO63 else ts[|ts| - 1] + TWO63
    ensures NeverRaises(ts, least)
  {
    forall t, u, df: seq<nat> | least <= t <= u < TWO63 && |df| == |ts| + 1
      ensures Next(ts + [u], df) <= Next(ts + [t], df)
    {
      WrapsIff(ts[|ts| - 1], t);
      WrapsIff(ts[|ts| - 1], u);
      LongerSolve(ts, t, u, df);
    }
  }

  /** After a parent that is not negative, as validation keeps them, no later timestamp raises it. */
  lemma {:induction false} LaterNeverRaises(ts: seq<int>, t: int, u: int, df: seq<nat>)
    requires |ts| >= 1 && |df| == |ts| + 1 && 0 <= ts[|ts| - 1] < TWO63 && 0 <= t <= u < TWO63
    ensures Next(ts + [u], df) <= Next(ts + [t], df)
  {
    OneBranch(ts, 0);
  }

  lemma {:induction false} Unsafe(parent: int, least: int, t: int, u: int)
    requires least <= t <= u < TWO63 && Next([parent] + [t], [1000, 1000]) < Next([parent] + [u], [1000, 1000])
    ensures !ParentSafe(parent, least)
  {
    assert EndsIn([parent], parent) && |[1000, 1000]| == |[parent]| + 1;
    assert !NeverRaises([parent], least);
  }

  /** A solve time at the upper clamp against a negative one. */
  lemma {:induction false} WrapRaises(parent: int, t: int, u: int)
    requires Signed64(t - parent) >= 6 * TARGET && Signed64(u - parent) < 0
    ensures Next([parent] + [t], [1000, 1000]) == 500 && Next([parent] + [u], [1000, 1000]) == 2000
  {
    var a, b, df := [parent] + [t], [parent] + [u], [1000, 1000];
    assert WeightedTime(a, 1) == 0 && WeightedTime(b, 1) == 0;
    assert WeightedTime(a, 2) == 720 && WeightedTime(b, 2) < 0;
    assert DiffSum(df, 1) == 0;
    assert DiffSum(df, 2) == 1000;
    assert Weights(2) == 1;
    assert Retarget(720, df) == 166;
    assert DivisorOf(WeightedTime(b, 2), 2) == 12;
    assert Retarget(WeightedTime(b, 2), df) == 10_000;
  }

  /** A wrap an int64 clock can show: just after the second before the epoch. */
  lemma {:induction false} LatestRaises()
    ensures Int64(-1) && Int64(1199) && Int64(TWO63 - 1)
    ensures Next([-1, 1199], [1000, 1000]) < Next([-1, TWO63 - 1], [1000, 1000])
  {
    WrapsIff(-1, 1199);
    WrapsIff(-1, TWO63 - 1);
    WrapRaises(-1, 1199, TWO63 - 1);
    assert [-1] + [1199] == [-1, 1199] && [-1] + [TWO63 - 1] == [-1, TWO63 - 1];
  }
}
