/** The timestamp and difficulty rules over runs of headers: median-time-past keeps every timestamp at or
    above that of genesis, so the difficulty rule is never fed a difference that wraps. */
module HeaderTimes {
  import opened Params
  import opened Difficulty

  const GENESIS_TIME: int := 1_700_000_000
  const MEDIAN_SPAN: nat := 11
  const MAX_FUTURE_DRIFT: int := 7200

  /** What the rules read of a header. */
  datatype Stamp = Stamp(time: int, difficulty: nat)

  function Times(hs: seq<Stamp>): (ts: seq<int>)
    ensures |ts| == |hs| && forall i :: 0 <= i < |hs| ==> ts[i] == hs[i].time
  {
    seq(|hs|, i requires 0 <= i < |hs| => hs[i].time)
  }

  function Difficulties(hs: seq<Stamp>): (df: seq<nat>)
    ensures |df| == |hs| && forall i :: 0 <= i < |hs| ==> df[i] == hs[i].difficulty
  {
    seq(|hs|, i requires 0 <= i < |hs| => hs[i].difficulty)
  }

  // ------------------------------------------------------------------------- median-time-past

  predicate Ascending(s: seq<int>) {
    forall i, j :: 0 <= i < j < |s| ==> s[i] <= s[j]
  }

  /** The last timestamps, all of them on a short chain. */
  function Recent(ts: seq<int>): seq<int> {
    if |ts| > MEDIAN_SPAN then ts[|ts| - MEDIAN_SPAN..] else ts
  }

  /** m is the upper median of ts. */
  ghost predicate IsMedian(m: int, ts: seq<int>) {
    exists s :: Ascending(s) && multiset(s) == multiset(ts) && |s| == |ts| > 0 && m == s[|s| / 2]
  }

  /** medianTimePastLocked. */
  method MedianTimePast(hs: seq<Stamp>) returns (m: int)
    requires hs != []
    ensures IsMedian(m, Recent(Times(hs)))
  {
    var ts := Recent(Times(hs));
    var s := [];
    for i := 0 to |ts|
      invariant Ascending(s) && multiset(s) == multiset(ts[..i]) && |s| == i
    {
      s := Insert(s, ts[i]);
      assert ts[..i + 1] == ts[..i] + [ts[i]];
    }
    assert ts[..|ts|] == ts;
    m := s[|s| / 2];
  }

  method Insert(s: seq<int>, x: int) returns (r: seq<int>)
    requires Ascending(s)
    ensures Ascending(r) && multiset(r) == multiset(s) + multiset{x} && |r| == |s| + 1
  {
    var i := 0;
    while i < |s| && s[i] <= x
      invariant 0 <= i <= |s| && forall k :: 0 <= k < i ==> s[k] <= x
    {
      i := i + 1;
    }
    r := s[..i] + [x] + s[i..];
    Inserted(s, i, x);
  }

  lemma {:induction false} Inserted(s: seq<int>, i: nat, x: int)
    requires i <= |s|
    ensures multiset(s[..i] + [x] + s[i..]) == multiset(s) + multiset{x}
  {
    assert s == s[..i] + s[i..];
  }

  /** The median is one of the timestamps, so it is not below any lower bound of them. */
  lemma {:induction false} MedianIsMember(m: int, ts: seq<int>)
    requires IsMedian(m, ts)
    ensures m in ts
  {
    var s :| Ascending(s) && multiset(s) == multiset(ts) && |s| == |ts| > 0 && m == s[|s| / 2];
    assert m in multiset(s);
  }

  /** There is only one median. */
  lemma {:induction false} MedianUnique(m: int, n: int, ts: seq<int>)
    requires IsMedian(m, ts) && IsMedian(n, ts)
    ensures m == n
  {
    var s :| Ascending(s) && multiset(s) == multiset(ts) && |s| == |ts| > 0 && m == s[|s| / 2];
    var t :| Ascending(t) && multiset(t) == multiset(ts) && |t| == |ts| > 0 && n == t[|t| / 2];
    SortedUnique(s, t);
  }

  lemma {:induction false} SortedUnique(s: seq<int>, t: seq<int>)
    requires Ascending(s) && Ascending(t) && multiset(s) == multiset(t)
    ensures s == t
    decreases |s|
  {
    assert |s| == |multiset(s)| == |multiset(t)| == |t|;
    if s != [] {
      var s', t', x := SplitLargest(s, t);
      SortedUnique(s', t');
    }
  }

  lemma {:induction false} SplitLargest(s: seq<int>, t: seq<int>) returns (s': seq<int>, t': seq<int>, x: int)
    requires Ascending(s) && Ascending(t) && multiset(s) == multiset(t) && s != [] && t != []
    ensures s == s' + [x] && t == t' + [x]
    ensures Ascending(s') && Ascending(t') && multiset(s') == multiset(t')
  {
    LargestAgree(s, t);
    WithoutLast(s);
    WithoutLast(t);
    s', t', x := s[..|s| - 1], t[..|t| - 1], s[|s| - 1];
  }

  lemma {:induction false} LargestAgree(s: seq<int>, t: seq<int>)
    requires Ascending(s) && Ascending(t) && multiset(s) == multiset(t) && s != [] && t != []
    ensures s[|s| - 1] == t[|t| - 1]
  {
    LargestBelow(s, t);
    LargestBelow(t, s);
  }

  lemma {:induction false} LargestBelow(s: seq<int>, t: seq<int>)
    requires Ascending(t) && multiset(s) == multiset(t) && s != [] && t != []
    ensures s[|s| - 1] <= t[|t| - 1]
  {
    assert s[|s| - 1] in multiset(t);
    var i :| 0 <= i < |t| && t[i] == s[|s| - 1];
    assert i < |t| - 1 ==> t[i] <= t[|t| - 1];
  }

  lemma {:induction false} WithoutLast(s: seq<int>)
    requires s != []
    ensures multiset(s[..|s| - 1]) == multiset(s) - multiset{s[|s| - 1]}
  {
    assert s == s[..|s| - 1] + [s[|s| - 1]];
  }

  // ------------------------------------------------------------------------------ header runs

  /** The difficulty demanded of the next header. */
  function Expected(hs: seq<Stamp>): nat {
    if |hs| < 2 then GENESIS_DIFFICULTY
    else
      var w := if |hs| < WINDOW then |hs| else WINDOW;
      Next(Last(Times(hs), w), Last(Difficulties(hs), w))
  }

  /** Above the median of the recent timestamps. */
  ghost predicate Later(hs: seq<Stamp>, time: int) {
    hs != [] && exists m :: IsMedian(m, Recent(Times(hs))) && time > m
  }

  ghost predicate Extends(hs: seq<Stamp>, h: Stamp) {
    Later(hs, h.time) && h.time < TWO63 && h.difficulty == Expected(hs)
  }

  /** Timestamps and difficulties of a valid chain from genesis. */
  ghost predicate HeadersOk(hs: seq<Stamp>) {
    && hs != [] && hs[0].time == GENESIS_TIME
    && forall i :: 0 < i < |hs| ==> HeaderOk(hs, i)
  }

  ghost predicate HeaderOk(hs: seq<Stamp>, i: nat)
    requires i < |hs|
  {
    Extends(hs[..i], hs[i])
  }

  /** The timestamp and difficulty checks of validateBlockLocked. */
  method CheckHeader(hs: seq<Stamp>, h: Stamp, now: int) returns (ok: bool)
    requires hs != [] && -TWO63 <= h.time < TWO63
    ensures ok <==> Extends(hs, h) && h.time <= now + MAX_FUTURE_DRIFT
  {
    if h.time > now + MAX_FUTURE_DRIFT {
      return false;
    }
    var m := MedianTimePast(hs);
    forall n | IsMedian(n, Recent(Times(hs))) ensures n == m { MedianUnique(n, m, Recent(Times(hs))); }
    if h.time <= m {
      return false;
    }
    var d := NextDifficulty(Times(hs), Difficulties(hs), 0);
    ok := h.difficulty == d;
  }

  lemma {:induction false} LaterIsBounded(hs: seq<Stamp>, time: int, low: int)
    requires Later(hs, time) && forall i :: 0 <= i < |hs| ==> hs[i].time >= low
    ensures time > low
  {
    var m :| IsMedian(m, Recent(Times(hs))) && time > m;
    MedianIsMember(m, Recent(Times(hs)));
  }

  /** No timestamp of a valid chain lies below that of genesis. */
  lemma {:induction false} TimesFromGenesis(hs: seq<Stamp>, i: nat)
    requires HeadersOk(hs) && i < |hs|
    ensures GENESIS_TIME <= hs[i].time && (i > 0 ==> GENESIS_TIME < hs[i].time < TWO63)
  {
    if i > 0 {
      forall j | 0 <= j < i ensures hs[..i][j].time >= GENESIS_TIME { TimesFromGenesis(hs, j); }
      assert HeaderOk(hs, i);
      LaterIsBounded(hs[..i], hs[i].time, GENESIS_TIME);
    }
  }

  lemma {:induction false} LastOfMore<X>(s: seq<X>, x: X, w: nat)
    requires 1 <= w <= |s| + 1
    ensures Last(s + [x], w) == Last(s, w - 1) + [x]
  {
  }

  lemma {:induction false} TimesMore(hs: seq<Stamp>, h: Stamp)
    ensures Times(hs + [h]) == Times(hs) + [h.time] && Difficulties(hs + [h]) == Difficulties(hs) + [h.difficulty]
  {
  }

  /** On a valid chain, of two timestamps that the next header may carry the later one never leads to a
      higher difficulty after it. */
  lemma {:induction false} LaterHeaderNeverRaises(hs: seq<Stamp>, t: int, u: int, d: nat)
    requires HeadersOk(hs) && Later(hs, t) && t <= u < TWO63
    ensures Expected(hs + [Stamp(u, d)]) <= Expected(hs + [Stamp(t, d)])
  {
    var w: nat := if |hs| + 1 < WINDOW then |hs| + 1 else WINDOW;
    ExpectedAfter(hs, t, d, w);
    ExpectedAfter(hs, u, d, w);
    LaterThanGenesis(hs, t);
    var ts := Last(Times(hs), w - 1);
    assert ts[|ts| - 1] == hs[|hs| - 1].time;
    LaterNeverRaises(ts, t, u, Last(Difficulties(hs), w - 1) + [d]);
  }

  lemma {:induction false} LaterThanGenesis(hs: seq<Stamp>, t: int)
    requires HeadersOk(hs) && Later(hs, t)
    ensures GENESIS_TIME <= hs[|hs| - 1].time < TWO63 && GENESIS_TIME < t
  {
    forall i | 0 <= i < |hs| ensures hs[i].time >= GENESIS_TIME { TimesFromGenesis(hs, i); }
    TimesFromGenesis(hs, |hs| - 1);
    LaterIsBounded(hs, t, GENESIS_TIME);
  }

  /** What the header after a newest one is demanded to carry, by the window w. */
  lemma {:induction false} ExpectedAfter(hs: seq<Stamp>, t: int, d: nat, w: nat)
    requires hs != [] && w == if |hs| + 1 < WINDOW then |hs| + 1 else WINDOW
    ensures Expected(hs + [Stamp(t, d)])
         == Next(Last(Times(hs), w - 1) + [t], Last(Difficulties(hs), w - 1) + [d])
  {
    TimesMore(hs, Stamp(t, d));
    LastOfMore(Times(hs), t, w);
    LastOfMore(Difficulties(hs), d, w);
  }

  // ------------------------------------------------------------------- more than half of them

  /** How many timestamps lie below a time. */
  function Below(ts: seq<int>, t: int): nat {
    if ts == [] then 0 else Below(ts[..|ts| - 1], t) + if ts[|ts| - 1] < t then 1 else 0
  }

  lemma {:induction false} BelowConcat(a: seq<int>, b: seq<int>, t: int)
    ensures Below(a + b, t) == Below(a, t) + Below(b, t)
  {
    if b == [] {
      assert a + b == a;
    } else {
      assert (a + b)[..|a + b| - 1] == a + b[..|b| - 1];
      BelowConcat(a, b[..|b| - 1], t);
    }
  }

  lemma {:induction false} BelowWithout(s: seq<int>, k: nat, t: int)
    requires k < |s|
    ensures Below(s, t) == Below(s[..k] + s[k + 1..], t) + if s[k] < t then 1 else 0
    ensures multiset(s[..k] + s[k + 1..]) == multiset(s) - multiset{s[k]}
  {
    assert s == s[..k] + ([s[k]] + s[k + 1..]);
    BelowConcat(s[..k], [s[k]] + s[k + 1..], t);
    BelowConcat([s[k]], s[k + 1..], t);
    BelowConcat(s[..k], s[k + 1..], t);
    assert [s[k]][..0] == [];
    assert Below([s[k]], t) == if s[k] < t then 1 else 0;
  }

  /** The count does not depend on the order. */
  lemma {:induction false} BelowPermuted(s: seq<int>, u: seq<int>, t: int)
    requires multiset(s) == multiset(u)
    ensures Below(s, t) == Below(u, t)
    decreases |s|
  {
    assert |s| == |multiset(s)| == |multiset(u)| == |u|;
    if s != [] {
      var n, x := |s| - 1, s[|s| - 1];
      assert x in multiset(u);
      var k :| 0 <= k < |u| && u[k] == x;
      BelowWithout(u, k, t);
      WithoutLast(s);
      BelowPermuted(s[..n], u[..k] + u[k + 1..], t);
    }
  }

  lemma {:induction false} AllBelow(s: seq<int>, t: int)
    ensures (forall i :: 0 <= i < |s| ==> s[i] < t) ==> Below(s, t) == |s|
    ensures (forall i :: 0 <= i < |s| ==> s[i] >= t) ==> Below(s, t) == 0
  {
    if s != [] { AllBelow(s[..|s| - 1], t); }
  }

  /** A time exceeds the median exactly when it exceeds more than half of the timestamps. */
  lemma {:induction false} AboveMedian(m: int, ts: seq<int>, t: int)
    requires IsMedian(m, ts)
    ensures t > m <==> 2 * Below(ts, t) > |ts|
  {
    var s :| Ascending(s) && multiset(s) == multiset(ts) && |s| == |ts| > 0 && m == s[|s| / 2];
    BelowPermuted(s, ts, t);
    SortedCount(s, t);
  }

  lemma {:induction false} SortedCount(s: seq<int>, t: int)
    requires Ascending(s) && s != []
    ensures t > s[|s| / 2] <==> 2 * Below(s, t) > |s|
  {
    var h := |s| / 2;
    if t > s[h] {
      var a, b := s[..h + 1], s[h + 1..];
      assert s == a + b;
      BelowConcat(a, b, t);
      assert forall i :: 0 <= i < |a| ==> a[i] < t;
      AllBelow(a, t);
    } else {
      var a, b := s[..h], s[h..];
      assert s == a + b;
      BelowConcat(a, b, t);
      assert forall i :: 0 <= i < |b| ==> b[i] >= t;
      AllBelow(b, t);
      BelowMost(a, t);
    }
  }

  lemma {:induction false} BelowMost(s: seq<int>, t: int)
    ensures Below(s, t) <= |s|
  {
    if s != [] { BelowMost(s[..|s| - 1], t); }
  }

  /** The timestamps of the last eleven headers, of all on a shorter chain. */
  function LastEleven(hs: seq<Stamp>): seq<int> {
    Times(if |hs| <= 11 then hs else hs[|hs| - 11..])
  }

  /** The next header's timestamp must exceed more than half of the last eleven: six, once there are eleven. */
  lemma {:induction false} LaterThanMost(hs: seq<Stamp>, h: Stamp)
    requires hs != [] && h.time < TWO63
    ensures Extends(hs, h) <==> 2 * Below(LastEleven(hs), h.time) > |LastEleven(hs)| && h.difficulty == Expected(hs)
  {
    assert LastEleven(hs) == Recent(Times(hs));
    MedianExists(Recent(Times(hs)));
    var m :| IsMedian(m, Recent(Times(hs)));
    AboveMedian(m, Recent(Times(hs)), h.time);
    forall k | IsMedian(k, Recent(Times(hs))) ensures k == m { MedianUnique(k, m, Recent(Times(hs))); }
  }

  /** Every list of timestamps has a median. */
  lemma {:induction false} MedianExists(ts: seq<int>)
    requires ts != []
    ensures exists m :: IsMedian(m, ts)
  {
    var s := Arranged(ts);
    assert IsMedian(s[|s| / 2], ts);
  }

  lemma {:induction false} Arranged(ts: seq<int>) returns (s: seq<int>)
    ensures Ascending(s) && multiset(s) == multiset(ts) && |s| == |ts|
  {
    if ts == [] {
      s := [];
    } else {
      var n := |ts| - 1;
      var front := Arranged(ts[..n]);
      var i := Slot(front, ts[n]);
      Inserted(front, i, ts[n]);
      assert ts == ts[..n] + [ts[n]];
      s := front[..i] + [ts[n]] + front[i..];
    }
  }

  lemma {:induction false} Slot(s: seq<int>, x: int) returns (i: nat)
    requires Ascending(s)
    ensures i <= |s| && (forall k :: 0 <= k < i ==> s[k] <= x) && forall k :: i <= k < |s| ==> x <= s[k]
  {
    if s == [] || s[|s| - 1] <= x {
      i := |s|;
    } else {
      i := Slot(s[..|s| - 1], x);
    }
  }
}
