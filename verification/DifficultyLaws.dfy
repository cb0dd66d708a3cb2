/** What the difficulty rule computes, without its loop: the plain average of the newer difficulties, times the
    target, over a closed form of the weighted solve times. */
module DifficultyLaws {
  import opened Params
  import opened Integers
  import opened Difficulty

  function Sum(s: seq<int>): int {
    if s == [] then 0 else Sum(s[..|s| - 1]) + s[|s| - 1]
  }

  lemma {:induction false} SumMore(s: seq<int>, k: nat)
    requires k < |s|
    ensures Sum(s[..k + 1]) == Sum(s[..k]) + s[k]
  {
    assert s[..k + 1][..k] == s[..k];
  }

  // ---------------------------------------------------------------------------- closed forms

  /** All difficulties but the oldest. */
  lemma {:induction false} NewerSum(df: seq<nat>, k: nat)
    requires 1 <= k <= |df|
    ensures DiffSum(df, k) == Sum(df[1..][..k - 1])
  {
    if k > 1 {
      NewerSum(df, k - 1);
      SumMore(df[1..], k - 2);
    }
  }

  lemma {:induction false} WeightsAre(k: nat)
    ensures 2 * Weights(k) == k * (k - 1)
  {
    if k > 1 { WeightsAre(k - 1); }
  }

  /** No solve time is beyond six targets, either way. */
  predicate Calm(ts: seq<int>) {
    forall i {:trigger ts[i]} :: 1 <= i < |ts| ==> -720 <= ts[i] - ts[i - 1] <= 720
  }

  /** The weights telescope: the newest timestamp once for every earlier one, less all the earlier ones. */
  lemma {:induction false} Telescopes(ts: seq<int>, k: nat)
    requires Calm(ts) && 1 <= k <= |ts|
    ensures WeightedTime(ts, k) == (k - 1) * ts[k - 1] - Sum(ts[..k - 1])
  {
    if k > 1 {
      Telescopes(ts, k - 1);
      SumMore(ts, k - 2);
      assert -720 <= ts[k - 1] - ts[k - 2] <= 720;
      NoWrap(ts[k - 1] - ts[k - 2]);
      TelescopeStep(k, ts[k - 1], ts[k - 2]);
    }
  }

  lemma {:induction false} TelescopeStep(k: int, t: int, u: int)
    ensures (k - 2) * u + (t - u) * (k - 1) == (k - 1) * t - u
  {
  }

  /** The rule on a calm window of n blocks, with everything written out. */
  function Plain(ts: seq<int>, df: seq<nat>): (raw: int)
    requires |ts| == |df| >= 2
  {
    var n := |ts|;
    var time := (n - 1) * ts[n - 1] - Sum(ts[..n - 1]);
    Sum(df[1..]) / (n - 1) * 120 * (n * (n - 1) / 2) / (if time < 6 * n then 6 * n else time)
  }

  /** The difficulty is the plain value, clamped. */
  lemma {:induction false} ClosedForm(ts: seq<int>, df: seq<nat>)
    requires |ts| == |df| >= 2 && Calm(ts)
    ensures Clamped(Next(ts, df), Plain(ts, df), df[|df| - 1])
  {
    PlainRetarget(ts, df);
    BoundedIs(Plain(ts, df), df[|df| - 1]);
  }

  lemma {:induction false} PlainRetarget(ts: seq<int>, df: seq<nat>)
    requires |ts| == |df| >= 2 && Calm(ts)
    ensures Retarget(WeightedTime(ts, |ts|), df) == Plain(ts, df)
  {
    var n := |ts|;
    NewerSum(df, n);
    assert df[1..][..n - 1] == df[1..];
    WeightsAre(n);
    Telescopes(ts, n);
    HalfProduct(n, Weights(n));
  }

  lemma {:induction false} HalfProduct(n: nat, w: nat)
    requires 2 * w == n * (n - 1)
    ensures w == n * (n - 1) / 2 && Floor(n) == 6 * n
  {
  }

  /** d is raw, kept between half and twice the last difficulty and from 16 to the largest 64-bit number. */
  predicate Clamped(d: int, raw: int, last: nat) {
    && (raw > 2 * last ==> d == Least(2 * last)) && (raw < last / 2 ==> d == Least(last / 2))
    && (last / 2 <= raw <= 2 * last ==> d == Least(raw))
  }

  function Least(x: int): int {
    if x < 16 then 16 else if x > MAX64 then MAX64 else x
  }

  lemma {:induction false} BoundedIs(raw: nat, last: nat)
    ensures Clamped(Bounded(raw, last), raw, last)
  {
  }

  /** The clamps of the solve times: a window behaves as the calm one with the clamped steps. */
  lemma {:induction false} OutliersCapped(ts: seq<int>, us: seq<int>, df: seq<nat>)
    requires |ts| == |us| == |df| >= 2 && Calm(us)
    requires forall i {:trigger ts[i]} :: 1 <= i < |ts| ==> CappedStep(ts[i] - ts[i - 1], us[i] - us[i - 1])
    ensures Next(ts, df) == Next(us, df)
  {
    CappedTime(ts, us, |ts|);
  }

  /** v is u without what exceeds 720 either way; u itself fits 64 bits. */
  predicate CappedStep(u: int, v: int) {
    && -TWO63 <= u < TWO63
    && (u > 720 ==> v == 720) && (u < -720 ==> v == -720) && (-720 <= u <= 720 ==> v == u)
  }

  lemma {:induction false} CappedTime(ts: seq<int>, us: seq<int>, k: nat)
    requires |ts| == |us| && k <= |ts| && Calm(us)
    requires forall i {:trigger ts[i]} :: 1 <= i < |ts| ==> CappedStep(ts[i] - ts[i - 1], us[i] - us[i - 1])
    ensures WeightedTime(ts, k) == WeightedTime(us, k)
  {
    if k > 1 {
      CappedTime(ts, us, k - 1);
      assert CappedStep(ts[k - 1] - ts[k - 2], us[k - 1] - us[k - 2]);
      assert -720 <= us[k - 1] - us[k - 2] <= 720;
      NoWrap(ts[k - 1] - ts[k - 2]);
      NoWrap(us[k - 1] - us[k - 2]);
    }
  }

  // -------------------------------------------------------------------- laws of difficulties

  /** The oldest difficulty of the window does not matter. */
  lemma {:induction false} OldestIgnored(ts: seq<int>, df: seq<nat>, eg: seq<nat>)
    requires |ts| == |df| == |eg| >= 2 && df[1..] == eg[1..]
    ensures Next(ts, df) == Next(ts, eg)
  {
    var n := |df|;
    NewerSum(df, n);
    NewerSum(eg, n);
    assert df[n - 1] == df[1..][n - 2] == eg[1..][n - 2] == eg[n - 1];
  }

  predicate NoneLower(s: seq<int>, t: seq<int>) {
    |s| == |t| && forall i :: 0 <= i < |s| ==> s[i] <= t[i]
  }

  lemma {:induction false} SumRises(s: seq<int>, t: seq<int>)
    requires NoneLower(s, t)
    ensures Sum(s) <= Sum(t)
  {
    if s != [] { SumRises(s[..|s| - 1], t[..|t| - 1]); }
  }

  /** Higher difficulties in the window never lower the next one. */
  lemma {:induction false} HarderNeverEasier(ts: seq<int>, df: seq<nat>, eg: seq<nat>)
    requires |ts| == |df| == |eg| >= 2 && NoneLower(df[1..], eg[1..])
    ensures Next(ts, df) <= Next(ts, eg)
  {
    var n := |df|;
    NewerSum(df, n);
    NewerSum(eg, n);
    assert df[1..][..n - 1] == df[1..] && eg[1..][..n - 1] == eg[1..];
    SumRises(df[1..], eg[1..]);
    var a, b := DiffSum(df, n) / (n - 1), DiffSum(eg, n) / (n - 1);
    QuotientRises(DiffSum(df, n), DiffSum(eg, n), n - 1);
    ScaledRises(a, b, Weights(n), DivisorOf(WeightedTime(ts, n), n));
    assert df[n - 1] == df[1..][n - 2] <= eg[1..][n - 2] == eg[n - 1];
    BothBounds(Retarget(WeightedTime(ts, n), df), Retarget(WeightedTime(ts, n), eg), df[n - 1], eg[n - 1]);
  }

  lemma {:induction false} QuotientRises(a: nat, b: nat, d: int)
    requires a <= b && d > 0
    ensures a / d <= b / d
  {
    var p, q := a / d, b / d;
    assert d * p <= a && b < d * (q + 1);
    if q + 1 <= p { ScaleUp(d, q + 1, p); }
  }

  lemma {:induction false} ScaledRises(a: nat, b: nat, denom: nat, time: int)
    requires a <= b && time > 0
    ensures Scaled(a, denom, time) <= Scaled(b, denom, time)
  {
    ScaleUp(TARGET, a, b);
    ScaleUp(denom, a * TARGET, b * TARGET);
    QuotientRises(a * TARGET * denom, b * TARGET * denom, time);
  }

  lemma {:induction false} BothBounds(a: nat, b: nat, last: nat, later: nat)
    requires a <= b && last <= later
    ensures Bounded(a, last) <= Bounded(b, later)
  {
  }

  /** With every block on target the next difficulty is the average of the newer ones, clamped. */
  lemma {:induction false} OnTarget(ts: seq<int>, df: seq<nat>)
    requires |ts| == |df| >= 2 && forall i {:trigger ts[i]} :: 1 <= i < |ts| ==> ts[i] - ts[i - 1] == 120
    ensures Clamped(Next(ts, df), Sum(df[1..]) / (|df| - 1), df[|df| - 1])
  {
    var n := |df|;
    SteadyTime(ts, [], 0, n);
    NewerSum(df, n);
    assert df[1..][..n - 1] == df[1..];
    var avg := AverageOf(DiffSum(df, n), n - 1);
    ScaledBack(avg, n);
    BoundedIs(avg, df[n - 1]);
  }

  lemma {:induction false} AverageOf(sum: nat, k: nat) returns (avg: nat)
    requires k > 0
    ensures avg == sum / k
  {
    avg := sum / k;
  }

  lemma {:induction false} ScaledBack(avg: nat, n: nat)
    requires n >= 2
    ensures Scaled(avg, Weights(n), DivisorOf(TARGET * Weights(n), n)) == avg
  {
    WeightsBound(n);
    Regroup(avg, TARGET, Weights(n));
    Cancelled(avg, TARGET * Weights(n));
  }
}
