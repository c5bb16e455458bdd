/**
 The detector over whole runs: what the window holds, when alerts come, that beacons are caught,
 and that keys do not disturb each other. A run starts from empty maps, as after Reset.
 */
module BeaconRuns {
  import opened Types
  import opened RealAlgebra
  import opened Beacon
  import opened BeaconStats

  predicate Nondecreasing(ts: seq<Time>) {
    forall i, j :: 0 <= i < j < |ts| ==> ts[i] <= ts[j]
  }

  /** The state of a key after the first n of its events ts. */
  function KeyRun(p: Params, ts: seq<Time>, n: nat): KeyState
    requires n <= |ts|
  {
    if n == 0 then KeyState([], None) else Observe(p, KeyRun(p, ts, n - 1), ts[n - 1]).0
  }

  /** The verdict on event i of the key. */
  function VerdictAt(p: Params, ts: seq<Time>, i: nat): Verdict
    requires i < |ts|
  {
    Observe(p, KeyRun(p, ts, i), ts[i]).1
  }

  predicate AlertsAt(p: Params, ts: seq<Time>, i: nat)
    requires i < |ts|
  {
    VerdictAt(p, ts, i).Periodic?
  }

  lemma {:induction false} SamePrefixSameRun(p: Params, ts: seq<Time>, us: seq<Time>, n: nat)
    requires n <= |ts| && n <= |us| && forall j :: 0 <= j < n ==> ts[j] == us[j]
    ensures KeyRun(p, ts, n) == KeyRun(p, us, n)
  {
    if n > 0 {
      SamePrefixSameRun(p, ts, us, n - 1);
    }
  }

  /** The test passes exactly on two or more gaps with a CV of at most maxCV, and reports their statistics. */
  lemma JudgedPeriodic(p: Params, times: seq<Time>)
    requires p.Valid()
    ensures p.judge(times).Periodic? <==>
            |Gaps(times)| >= 2 && CvAtMost(Mean(Gaps(times)), Variance(Gaps(times)), p.maxCV)
    ensures p.judge(times).Periodic? ==> p.judge(times) == Periodic(Mean(Gaps(times)), Variance(Gaps(times)))
  {
    assert p.judge(times) == Judge(p.maxCV, times);
    PositiveGapsMean(times);
  }

  // ----- The sliding window

  /** The events of the log that are younger than the window when event i arrives. */
  function Recent(p: Params, ts: seq<Time>, i: nat): seq<Time>
    requires i < |ts|
  {
    Kept(ts, i + 1, ts[i] - p.window)
  }

  lemma {:induction false} KeptOfSamePrefix(ts: seq<Time>, us: seq<Time>, n: nat, c: Time)
    requires n <= |ts| && n <= |us| && forall j :: 0 <= j < n ==> ts[j] == us[j]
    ensures Kept(ts, n, c) == Kept(us, n, c)
  {
    if n > 0 {
      KeptOfSamePrefix(ts, us, n - 1, c);
    }
  }

  lemma PrunedSnoc(ts: seq<Time>, t: Time, c: Time)
    ensures Pruned(ts + [t], c) == if t > c then Pruned(ts, c) + [t] else Pruned(ts, c)
  {
    KeptOfSamePrefix(ts + [t], ts, |ts|, c);
  }

  lemma {:induction false} PrunedAgain(ts: seq<Time>, n: nat, c: Time, d: Time)
    requires n <= |ts| && c <= d
    ensures Pruned(Kept(ts, n, c), d) == Kept(ts, n, d)
  {
    if n > 0 {
      var before, t := Kept(ts, n - 1, c), ts[n - 1];
      PrunedAgain(ts, n - 1, c, d);
      if t > c {
        assert Kept(ts, n, c) == before + [t];
        PrunedSnoc(before, t, d);
      } else {
        assert Kept(ts, n, c) == before;
      }
    }
  }

  /** Pruning step by step loses nothing and leaves nothing: the window refines the full log. */
  lemma {:induction false} WindowIsExact(p: Params, ts: seq<Time>, i: nat)
    requires Nondecreasing(ts) && i < |ts|
    ensures KeyRun(p, ts, i + 1).times == Recent(p, ts, i)
    ensures Pruned(KeyRun(p, ts, i).times + [ts[i]], ts[i] - p.window) == Recent(p, ts, i)
  {
    var times, cutoff := KeyRun(p, ts, i).times, ts[i] - p.window;
    assert KeyRun(p, ts, i + 1).times == Pruned(times + [ts[i]], cutoff);
    assert Pruned(times, cutoff) == Kept(ts, i, cutoff) by {
      if i > 0 {
        WindowIsExact(p, ts, i - 1);
        PrunedAgain(ts, i, ts[i - 1] - p.window, cutoff);
      }
    }
    PrunedSnoc(times, ts[i], cutoff);
  }

  lemma {:induction false} KeptOfNone(ts: seq<Time>, n: nat, c: Time)
    requires n <= |ts| && forall j :: 0 <= j < n ==> ts[j] <= c
    ensures Kept(ts, n, c) == []
  {
    if n > 0 {
      KeptOfNone(ts, n - 1, c);
    }
  }

  /** Of an ordered log, what is later than a cutoff is a suffix. */
  lemma {:induction false} KeptIsSuffix(ts: seq<Time>, n: nat, c: Time) returns (s: nat)
    requires Nondecreasing(ts) && n <= |ts|
    ensures s <= n && Kept(ts, n, c) == ts[s..n]
    ensures forall j :: 0 <= j < s ==> ts[j] <= c
    ensures forall j :: s <= j < n ==> ts[j] > c
  {
    if n == 0 {
      s := 0;
    } else if ts[n - 1] <= c {
      s := n;
      KeptOfNone(ts, n, c);
    } else {
      s := KeptIsSuffix(ts, n - 1, c);
    }
  }

  // ----- Gaps

  lemma {:induction false} GapsArePositive(ts: seq<Time>, n: nat)
    requires n <= |ts|
    ensures AllPositive(GapsAmong(ts, n))
  {
    if n >= 2 {
      GapsArePositive(ts, n - 1);
    }
  }

  /** Dropping the zero gaps does not lose any time. */
  lemma {:induction false} GapsTelescope(ts: seq<Time>, n: nat)
    requires Nondecreasing(ts) && 0 < n <= |ts|
    ensures Sum(GapsAmong(ts, n)) == ts[n - 1] - ts[0]
  {
    if n >= 2 {
      GapsTelescope(ts, n - 1);
      SumSnoc(GapsAmong(ts, n - 1), ts[n - 1] - ts[n - 2]);
    }
  }

  /** Where time goes on from each event to the next, every difference counts, in order. */
  lemma {:induction false} GapsOfIncreasing(ts: seq<Time>, n: nat)
    requires 0 < n <= |ts| && forall i :: 0 < i < |ts| ==> ts[i - 1] < ts[i]
    ensures |GapsAmong(ts, n)| == n - 1
    ensures forall i :: 0 <= i < n - 1 ==> GapsAmong(ts, n)[i] == ts[i + 1] - ts[i]
  {
    if n >= 2 {
      GapsOfIncreasing(ts, n - 1);
    }
  }

  /** Neighbouring events are between a and b apart. */
  predicate Spaced(ts: seq<Time>, a: real, b: real) {
    forall i :: 0 < i < |ts| ==> a <= ts[i] - ts[i - 1] <= b
  }

  lemma {:induction false} GapsOfSpaced(ts: seq<Time>, a: real, b: real, n: nat)
    requires Spaced(ts, a, b) && a > 0.0 && 0 < n <= |ts|
    ensures |GapsAmong(ts, n)| == n - 1 && Within(GapsAmong(ts, n), a, b)
  {
    if n >= 2 {
      GapsOfSpaced(ts, a, b, n - 1);
    }
  }

  // ----- Alerts and the cooldown

  /** l is the index of the latest alert among the first n events, if there is one. */
  ghost predicate IsLatestAlert(p: Params, ts: seq<Time>, n: nat, l: Option<nat>)
    requires n <= |ts|
  {
    match l
    case None => forall j :: 0 <= j < n ==> !AlertsAt(p, ts, j)
    case Some(m) => m < n && AlertsAt(p, ts, m) && forall j :: m < j < n ==> !AlertsAt(p, ts, j)
  }

  /** The remembered time is that of the key's latest alert. */
  lemma {:induction false} LastAlertIsLatest(p: Params, ts: seq<Time>, n: nat) returns (l: Option<nat>)
    requires n <= |ts|
    ensures IsLatestAlert(p, ts, n, l)
    ensures KeyRun(p, ts, n).lastAlert == if l.Some? then Some(ts[l.value]) else None
  {
    if n == 0 {
      l := None;
    } else {
      l := LastAlertIsLatest(p, ts, n - 1);
      if AlertsAt(p, ts, n - 1) {
        l := Some(n - 1);
      }
    }
  }

  /** Two alerts of a key are at least the cooldown apart, whatever the clock does. */
  lemma {:induction false} AlertsAreSpaced(p: Params, ts: seq<Time>, j: nat, i: nat)
    requires p.cooldown > 0.0 && j < i < |ts|
    requires AlertsAt(p, ts, j) && AlertsAt(p, ts, i)
    ensures ts[i] - ts[j] >= p.cooldown
    decreases i
  {
    var l := LastAlertIsLatest(p, ts, i);
    if j < l.value {
      AlertsAreSpaced(p, ts, j, l.value);
    }
  }

  /** An event is alerted exactly when the log's recent part passes the test and no alert is recent. */
  lemma AlertIffRecentPeriodic(p: Params, ts: seq<Time>, i: nat)
    requires Nondecreasing(ts) && i < |ts|
    ensures AlertsAt(p, ts, i) <==> LooksPeriodic(p, Recent(p, ts, i)) && !AlertedLately(p, ts, i)
    ensures AlertsAt(p, ts, i) ==> VerdictAt(p, ts, i) == p.judge(Recent(p, ts, i))
  {
    WindowIsExact(p, ts, i);
    var l := LastAlertIsLatest(p, ts, i);
    if l.Some? {
      assert forall j :: 0 <= j < i && AlertsAt(p, ts, j) ==> ts[j] <= ts[l.value];
    }
  }

  predicate LooksPeriodic(p: Params, recent: seq<Time>) {
    |recent| >= p.minSamples && p.judge(recent).Periodic?
  }

  predicate AlertedLately(p: Params, ts: seq<Time>, i: nat)
    requires i < |ts|
  {
    exists j :: 0 <= j < i && AlertsAt(p, ts, j) && ts[i] - ts[j] < p.cooldown
  }

  lemma PositiveGapsMean(ts: seq<Time>)
    ensures Gaps(ts) != [] ==> Mean(Gaps(ts)) > 0.0
  {
    GapsArePositive(ts, |ts|);
    if Gaps(ts) != [] {
      PositiveMean(Gaps(ts));
    }
  }

  lemma RecentSpan(p: Params, ts: seq<Time>, i: nat)
    requires p.Valid() && Nondecreasing(ts) && i < |ts|
    ensures var recent := Recent(p, ts, i);
            && recent != [] && Nondecreasing(recent)
            && recent[|recent| - 1] == ts[i] && ts[i] - recent[0] < p.window
  {
    var s := KeptIsSuffix(ts, i + 1, ts[i] - p.window);
  }

  /** m gaps between retained times: m mean is the retained span, and the mean is below half the window. */
  lemma ReportedPeriod(p: Params, ts: seq<Time>, i: nat)
    requires p.Valid() && Nondecreasing(ts) && i < |ts|
    requires |Gaps(Recent(p, ts, i))| >= 2
    ensures var gaps := Gaps(Recent(p, ts, i));
            && Recent(p, ts, i) != []
            && |gaps| as real * Mean(gaps) == ts[i] - Recent(p, ts, i)[0] < p.window
            && 0.0 < Mean(gaps) < p.window / 2.0
  {
    var gaps := Gaps(Recent(p, ts, i));
    RecentSpan(p, ts, i);
    GapsTelescope(Recent(p, ts, i), |Recent(p, ts, i)|);
    PositiveGapsMean(Recent(p, ts, i));
    VarianceIsExact(gaps);
    MeanBelowHalf(|gaps| as real, Mean(gaps), Sum(gaps), p.window);
  }

  /** (x - mean)^2 <= (m - 1) maxCV^2 mean^2. */
  predicate GapTolerated(p: Params, x: real, m: real, mean: real) {
    Square(x - mean) <= (m - 1.0) * (p.maxCV * p.maxCV * (mean * mean))
  }

  lemma ToleranceFromCv(p: Params, x: real, m: real, mean: real, variance: real)
    requires m >= 1.0 && NearMean(x, m, mean, variance) && CvAtMost(mean, variance, p.maxCV)
    ensures GapTolerated(p, x, m, mean)
  {
    MonotoneTimes(m - 1.0, variance, p.maxCV * p.maxCV * (mean * mean));
  }

  lemma MeanBelowHalf(m: real, mean: real, sum: real, window: real)
    requires m >= 2.0 && mean > 0.0 && m * mean == sum && sum < window
    ensures mean < window / 2.0
  {
    MonotoneTimes(mean, 2.0, m);
  }

  lemma PassedGapsTolerated(p: Params, gaps: seq<real>)
    requires CvAtMost(Mean(gaps), Variance(gaps), p.maxCV)
    ensures forall k :: 0 <= k < |gaps| ==> GapTolerated(p, gaps[k], |gaps| as real, Mean(gaps))
  {
    forall k | 0 <= k < |gaps| ensures GapTolerated(p, gaps[k], |gaps| as real, Mean(gaps)) {
      Samuelson(gaps, k);
      ToleranceFromCv(p, gaps[k], |gaps| as real, Mean(gaps), Variance(gaps));
    }
  }

  /** What the statistics of the last events say of them: span, mean and the distance of each gap. */
  predicate Describes(p: Params, recent: seq<Time>, now: Time, mean: real) {
    var gaps := Gaps(recent);
    && recent != [] && |gaps| >= 2
    && |gaps| as real * mean == now - recent[0] < p.window
    && 0.0 < mean < p.window / 2.0
    && forall k :: 0 <= k < |gaps| ==> GapTolerated(p, gaps[k], |gaps| as real, mean)
  }

  /**
   What an alert says is so: the reported mean is the retained span divided by the number of gaps and
   less than half the window, and no gap is further from it than sqrt(m - 1) maxCV means.
   */
  lemma AlertIsSound(p: Params, ts: seq<Time>, i: nat)
    requires p.Valid() && Nondecreasing(ts) && i < |ts| && AlertsAt(p, ts, i)
    ensures Describes(p, Recent(p, ts, i), ts[i], VerdictAt(p, ts, i).mean)
  {
    AlertIffRecentPeriodic(p, ts, i);
    PassedTestDescribes(p, ts, i);
  }

  lemma PassedTestDescribes(p: Params, ts: seq<Time>, i: nat)
    requires p.Valid() && Nondecreasing(ts) && i < |ts| && p.judge(Recent(p, ts, i)).Periodic?
    ensures Describes(p, Recent(p, ts, i), ts[i], p.judge(Recent(p, ts, i)).mean)
  {
    JudgedPeriodic(p, Recent(p, ts, i));
    ReportedPeriod(p, ts, i);
    PassedGapsTolerated(p, Gaps(Recent(p, ts, i)));
  }

  // ----- The rate of alerts

  function Multiple(n: nat, x: real): real {
    n as real * x
  }

  lemma MultipleStep(n: nat, x: real)
    requires n > 0
    ensures Multiple(n, x) == Multiple(n - 1, x) + x
  {
    LineStep(0.0, (n - 1) as real, n as real, x);
  }

  /** The times at which the first n events of the key were alerted. */
  function AlertTimes(p: Params, ts: seq<Time>, n: nat): seq<Time>
    requires n <= |ts|
  {
    if n == 0 then []
    else
      var before := AlertTimes(p, ts, n - 1);
      if AlertsAt(p, ts, n - 1) then before + [ts[n - 1]] else before
  }

  function CountIn(xs: seq<Time>, lo: Time, hi: Time): nat {
    if xs == [] then 0
    else CountIn(xs[..|xs| - 1], lo, hi) + if lo <= xs[|xs| - 1] <= hi then 1 else 0
  }

  lemma {:induction false} AlertTimesAreSpaced(p: Params, ts: seq<Time>, n: nat)
    requires p.cooldown > 0.0 && n <= |ts|
    ensures var alerts := AlertTimes(p, ts, n);
            && KeyRun(p, ts, n).lastAlert == (if alerts == [] then None else Some(alerts[|alerts| - 1]))
            && forall i, j :: 0 <= i < j < |alerts| ==> alerts[j] - alerts[i] >= p.cooldown
  {
    if n > 0 {
      AlertTimesAreSpaced(p, ts, n - 1);
    }
  }

  lemma {:induction false} CountLater(xs: seq<Time>, lo: Time, hi: Time, hi': Time)
    requires hi' <= hi && forall i :: 0 <= i < |xs| ==> xs[i] <= hi'
    ensures CountIn(xs, lo, hi) == CountIn(xs, lo, hi')
  {
    if xs != [] {
      CountLater(xs[..|xs| - 1], lo, hi, hi');
    }
  }

  lemma {:induction false} SpacedCount(xs: seq<Time>, d: real, lo: Time, hi: Time)
    requires d > 0.0 && forall i, j :: 0 <= i < j < |xs| ==> xs[j] - xs[i] >= d
    ensures CountIn(xs, lo, hi) > 0 ==> Multiple(CountIn(xs, lo, hi) - 1, d) <= hi - lo
  {
    if xs != [] {
      var init, x := xs[..|xs| - 1], xs[|xs| - 1];
      if lo <= x <= hi {
        CountLater(init, lo, hi, x - d);
        SpacedCount(init, d, lo, x - d);
        var c := CountIn(init, lo, hi);
        if c > 0 {
          MultipleStep(c, d);
        }
      } else {
        SpacedCount(init, d, lo, hi);
      }
    }
  }

  /** c alerts are no more than floor(span / cooldown) + 1. */
  predicate WithinRate(p: Params, c: nat, span: real)
    requires p.cooldown > 0.0
  {
    c <= (span / p.cooldown).Floor + 1
  }

  lemma SpanBoundsRate(p: Params, c: nat, span: real)
    requires p.cooldown > 0.0 && span >= 0.0 && (c > 0 ==> Multiple(c - 1, p.cooldown) <= span)
    ensures WithinRate(p, c, span)
  {
    assert (span / p.cooldown) * p.cooldown == span;
    CancelPositive(p.cooldown, if c > 0 then (c - 1) as real else 0.0, span / p.cooldown);
  }

  /** Any span of time holds at most floor(span / cooldown) + 1 alerts of a key. */
  lemma AlertRateIsBounded(p: Params, ts: seq<Time>, lo: Time, hi: Time)
    requires p.cooldown > 0.0 && lo <= hi
    ensures WithinRate(p, CountIn(AlertTimes(p, ts, |ts|), lo, hi), hi - lo)
  {
    var alerts := AlertTimes(p, ts, |ts|);
    AlertTimesAreSpaced(p, ts, |ts|);
    SpacedCount(alerts, p.cooldown, lo, hi);
    SpanBoundsRate(p, CountIn(alerts, lo, hi), hi - lo);
  }

  // ----- Beacons are caught

  /** The number of events from which on a beacon is judged. */
  function Threshold(p: Params): nat {
    if p.minSamples > 3 then p.minSamples else 3
  }

  /** Gaps between a and b: regular enough for the CV test, and Threshold events fit the window. */
  predicate Detectable(p: Params, a: real, b: real) {
    0.0 < a <= b && JitterWithin(a, b, p.maxCV) && Multiple(Threshold(p) - 1, b) < p.window
  }

  lemma {:induction false} SpacedSpan(ts: seq<Time>, a: real, b: real, i: nat, n: nat)
    requires Spaced(ts, a, b) && i + n < |ts|
    ensures ts[i + n] - ts[i] <= Multiple(n, b)
  {
    if n > 0 {
      SpacedSpan(ts, a, b, i, n - 1);
      MultipleStep(n, b);
    }
  }

  lemma {:induction false} SpacedIsNondecreasing(ts: seq<Time>, a: real, b: real)
    requires Spaced(ts, a, b) && a > 0.0
    ensures Nondecreasing(ts)
  {
    if |ts| >= 2 {
      var n := |ts| - 1;
      SpacedIsNondecreasing(ts[..n], a, b);
      forall i | 0 <= i < n ensures ts[i] <= ts[n] {
        assert ts[..n][i] <= ts[..n][n - 1];
      }
    }
  }

  /** Once Threshold events of a beacon are there, at least that many are in the window. */
  lemma BeaconFillsWindow(p: Params, ts: seq<Time>, a: real, b: real, i: nat) returns (s: nat)
    requires a > 0.0 && Multiple(Threshold(p) - 1, b) < p.window && Spaced(ts, a, b)
    requires Threshold(p) - 1 <= i < |ts|
    ensures s + Threshold(p) <= i + 1 && Recent(p, ts, i) == ts[s..i + 1]
  {
    var first := i - (Threshold(p) - 1);
    SpacedIsNondecreasing(ts, a, b);
    s := KeptIsSuffix(ts, i + 1, ts[i] - p.window);
    SpacedSpan(ts, a, b, first, Threshold(p) - 1);
    assert ts[first] > ts[i] - p.window;
  }

  lemma SpacedPart(ts: seq<Time>, a: real, b: real, s: nat, n: nat)
    requires Spaced(ts, a, b) && s <= n <= |ts|
    ensures Spaced(ts[s..n], a, b)
  {
    var part := ts[s..n];
    forall j | 0 < j < |part| ensures a <= part[j] - part[j - 1] <= b {
      assert part[j] == ts[s + j] && part[j - 1] == ts[s + j - 1];
    }
  }

  lemma SpacedIsJudgedPeriodic(p: Params, ts: seq<Time>, a: real, b: real)
    requires p.Valid() && 0.0 < a <= b && JitterWithin(a, b, p.maxCV)
    requires Spaced(ts, a, b) && |ts| >= 3
    ensures p.judge(ts).Periodic?
  {
    GapsOfSpaced(ts, a, b, |ts|);
    BoundedJitterIsPeriodic(Gaps(ts), a, b, p.maxCV);
    JudgedPeriodic(p, ts);
  }

  lemma BeaconLooksPeriodic(p: Params, ts: seq<Time>, a: real, b: real, i: nat)
    requires p.Valid() && Detectable(p, a, b) && Spaced(ts, a, b)
    requires Threshold(p) - 1 <= i < |ts|
    ensures LooksPeriodic(p, Recent(p, ts, i))
  {
    var s := BeaconFillsWindow(p, ts, a, b, i);
    SpacedPart(ts, a, b, s, i + 1);
    SpacedIsJudgedPeriodic(p, ts[s..i + 1], a, b);
  }

  lemma TooFewToJudge(p: Params, ts: seq<Time>, i: nat)
    requires p.Valid() && Nondecreasing(ts) && i < |ts| && i + 1 < Threshold(p)
    ensures !LooksPeriodic(p, Recent(p, ts, i))
  {
    var s := KeptIsSuffix(ts, i + 1, ts[i] - p.window);
    FewGaps(Recent(p, ts, i), |Recent(p, ts, i)|);
    JudgedPeriodic(p, Recent(p, ts, i));
  }

  /** From the Threshold-th event on, every event is alerted unless an alert is recent; none before. */
  ghost predicate FollowsSchedule(p: Params, ts: seq<Time>) {
    forall i :: 0 <= i < |ts| ==>
      (AlertsAt(p, ts, i) <==> i + 1 >= Threshold(p) && !AlertedLately(p, ts, i))
  }

  lemma BeaconFollowsSchedule(p: Params, ts: seq<Time>, a: real, b: real)
    requires p.Valid() && Detectable(p, a, b) && Spaced(ts, a, b)
    ensures FollowsSchedule(p, ts)
  {
    SpacedIsNondecreasing(ts, a, b);
    forall i | 0 <= i < |ts|
      ensures AlertsAt(p, ts, i) <==> i + 1 >= Threshold(p) && !AlertedLately(p, ts, i)
    {
      AlertIffRecentPeriodic(p, ts, i);
      if i + 1 >= Threshold(p) {
        BeaconLooksPeriodic(p, ts, a, b, i);
      } else {
        TooFewToJudge(p, ts, i);
      }
    }
  }

  lemma {:induction false} FewGaps(ts: seq<Time>, n: nat)
    requires n <= |ts|
    ensures |GapsAmong(ts, n)| <= if n == 0 then 0 else n - 1
  {
    if n >= 2 {
      FewGaps(ts, n - 1);
    }
  }

  /** The first alert comes with the Threshold-th event of the beacon. */
  lemma BeaconIsCaught(p: Params, ts: seq<Time>, a: real, b: real)
    requires p.Valid() && Detectable(p, a, b) && Spaced(ts, a, b) && |ts| >= Threshold(p)
    ensures AlertsAt(p, ts, Threshold(p) - 1)
    ensures forall j :: 0 <= j < Threshold(p) - 1 ==> !AlertsAt(p, ts, j)
  {
    BeaconFollowsSchedule(p, ts, a, b);
  }

  lemma NoneLately(p: Params, ts: seq<Time>, j: nat, i: nat)
    requires Nondecreasing(ts) && j < i < |ts| && ts[i] - ts[j] >= p.cooldown
    requires forall k :: j < k < i ==> !AlertsAt(p, ts, k)
    ensures !AlertedLately(p, ts, i)
  {
    forall k | 0 <= k < i && AlertsAt(p, ts, k) ensures ts[i] - ts[k] >= p.cooldown {
      assert k <= j && ts[k] <= ts[j];
    }
  }

  lemma AlertComesBack(p: Params, ts: seq<Time>, j: nat, i: nat)
    requires FollowsSchedule(p, ts) && j < i < |ts| && AlertsAt(p, ts, j) && !AlertedLately(p, ts, i)
    ensures AlertsAt(p, ts, i)
  {
    assert j + 1 >= Threshold(p);
  }

  lemma FirstAfterCooldown(p: Params, ts: seq<Time>, j: nat, n: nat) returns (i: nat)
    requires p.cooldown > 0.0 && j < n < |ts| && ts[n] - ts[j] >= p.cooldown
    ensures j < i <= n && ts[i] - ts[j] >= p.cooldown
    ensures forall k :: j <= k < i ==> ts[k] - ts[j] < p.cooldown
  {
    i := j + 1;
    while ts[i] - ts[j] < p.cooldown
      invariant j < i <= n
      invariant forall k :: j <= k < i ==> ts[k] - ts[j] < p.cooldown
      decreases n - i
    {
      i := i + 1;
    }
  }

  /** While a beacon goes on, the next alert follows less than cooldown + b after the last. */
  lemma BeaconIsCaughtAgain(p: Params, ts: seq<Time>, a: real, b: real, j: nat, n: nat) returns (i: nat)
    requires p.Valid() && Detectable(p, a, b) && Spaced(ts, a, b)
    requires j < n < |ts| && AlertsAt(p, ts, j) && ts[n] - ts[j] >= p.cooldown
    ensures j < i <= n && AlertsAt(p, ts, i)
    ensures p.cooldown <= ts[i] - ts[j] < p.cooldown + b
    ensures forall k :: j < k < i ==> !AlertsAt(p, ts, k)
  {
    BeaconFollowsSchedule(p, ts, a, b);
    SpacedIsNondecreasing(ts, a, b);
    i := FirstAfterCooldown(p, ts, j, n);
    assert ts[i - 1] - ts[j] < p.cooldown;
    assert forall k :: j < k < i ==> AlertedLately(p, ts, k);
    NoneLately(p, ts, j, i);
    AlertComesBack(p, ts, j, i);
  }

  // ----- Many keys

  /** The detector after the first n events of a stream. */
  function Run(p: Params, evts: seq<Event>, n: nat): State
    requires n <= |evts|
  {
    if n == 0 then EMPTY else Analyze(p, Run(p, evts, n - 1), evts[n - 1]).0
  }

  /** The alert, if any, for event i of the stream. */
  function AlertFor(p: Params, evts: seq<Event>, i: nat): Option<Alert>
    requires i < |evts|
  {
    Analyze(p, Run(p, evts, i), evts[i]).1
  }

  /** A new connection of this owner to this remote endpoint. */
  predicate Concerns(e: Event, k: BeaconKey) {
    && e.kind == NewConnection
    && e.conn.pid == k.pid && e.conn.remoteIP.text == k.remoteIP && e.conn.remotePort == k.remotePort
  }

  /** The times of the new connections of one key among the first n events. */
  function TimesOf(evts: seq<Event>, n: nat, k: BeaconKey): seq<Time>
    requires n <= |evts|
  {
    if n == 0 then []
    else
      var before := TimesOf(evts, n - 1, k);
      if Concerns(evts[n - 1], k) then before + [evts[n - 1].timestamp] else before
  }

  lemma KeyRunSnoc(p: Params, ts: seq<Time>, t: Time)
    ensures KeyRun(p, ts + [t], |ts|) == KeyRun(p, ts, |ts|)
    ensures KeyRun(p, ts + [t], |ts| + 1) == Observe(p, KeyRun(p, ts, |ts|), t).0
  {
    SamePrefixSameRun(p, ts + [t], ts, |ts|);
  }

  /** The alert that a verdict on an event's key amounts to. */
  function AlertOf(e: Event, v: Verdict): Option<Alert> {
    match v
    case Quiet => None
    case Periodic(mean, variance) => Some(Alert(e.conn, e.timestamp, mean, variance))
  }

  /** One event changes what is held for its own key as if the key were alone, and nothing for any other. */
  lemma AnalyzeTouchesOneKey(p: Params, s: State, e: Event, k: BeaconKey)
    ensures Analyze(p, s, e).0.At(k) == if Concerns(e, k) then Observe(p, s.At(k), e.timestamp).0 else s.At(k)
    ensures Concerns(e, k) ==> Analyze(p, s, e).1 == AlertOf(e, Observe(p, s.At(k), e.timestamp).1)
  {}

  /** In any interleaving, a key's state is that of the key run alone. */
  lemma {:induction false} KeysDoNotInterfere(p: Params, evts: seq<Event>, n: nat, k: BeaconKey)
    requires n <= |evts|
    ensures Run(p, evts, n).At(k) == KeyRun(p, TimesOf(evts, n, k), |TimesOf(evts, n, k)|)
  {
    if n > 0 {
      KeysDoNotInterfere(p, evts, n - 1, k);
      AnalyzeTouchesOneKey(p, Run(p, evts, n - 1), evts[n - 1], k);
      KeyRunSnoc(p, TimesOf(evts, n - 1, k), evts[n - 1].timestamp);
    }
  }

  /** An event of the stream is alerted exactly when the key's own log says so, with the log's figures. */
  lemma AlertsAreThoseOfTheKey(p: Params, evts: seq<Event>, i: nat, k: BeaconKey)
    requires i < |evts|
    ensures evts[i].kind == ConnectionClosed ==> AlertFor(p, evts, i) == None
    ensures Concerns(evts[i], k) ==>
              var ts := TimesOf(evts, i + 1, k);
              ts != [] && AlertFor(p, evts, i) == AlertOf(evts[i], VerdictAt(p, ts, |ts| - 1))
  {
    if Concerns(evts[i], k) {
      KeysDoNotInterfere(p, evts, i, k);
      AnalyzeTouchesOneKey(p, Run(p, evts, i), evts[i], k);
      KeyRunSnoc(p, TimesOf(evts, i, k), evts[i].timestamp);
    }
  }

  /** The times of those among the first n events that open a connection of c's owner to c's remote endpoint. */
  function TimesLike(evts: seq<Event>, n: nat, c: Connection): seq<Time>
    requires n <= |evts|
  {
    if n == 0 then []
    else
      var before, e := TimesLike(evts, n - 1, c), evts[n - 1];
      if e.kind == NewConnection && e.conn.pid == c.pid
         && e.conn.remoteIP.text == c.remoteIP.text && e.conn.remotePort == c.remotePort
      then before + [e.timestamp] else before
  }

  lemma {:induction false} TimesLikeAreTimesOf(evts: seq<Event>, n: nat, c: Connection)
    requires n <= |evts|
    ensures TimesLike(evts, n, c) == TimesOf(evts, n, BeaconKey(c.pid, c.remoteIP.text, c.remotePort))
  {
    if n > 0 {
      TimesLikeAreTimesOf(evts, n - 1, c);
    }
  }

  /**
   The alert on a new connection is the verdict on the log of the connections of the same owner to the
   same remote endpoint; local addresses and ports play no part.
   */
  lemma AlertIsThatOfItsEndpoint(p: Params, evts: seq<Event>, i: nat)
    requires i < |evts| && evts[i].kind == NewConnection
    ensures var ts := TimesLike(evts, i + 1, evts[i].conn);
            ts != [] && AlertFor(p, evts, i) == AlertOf(evts[i], VerdictAt(p, ts, |ts| - 1))
  {
    var c := evts[i].conn;
    TimesLikeAreTimesOf(evts, i + 1, c);
    AlertsAreThoseOfTheKey(p, evts, i, BeaconKey(c.pid, c.remoteIP.text, c.remotePort));
  }

  /** The times at which the stream's alerts for one key were raised. */
  function StreamAlertTimes(p: Params, evts: seq<Event>, n: nat, k: BeaconKey): seq<Time>
    requires n <= |evts|
  {
    if n == 0 then []
    else
      var before := StreamAlertTimes(p, evts, n - 1, k);
      if Concerns(evts[n - 1], k) && AlertFor(p, evts, n - 1).Some? then before + [evts[n - 1].timestamp] else before
  }

  lemma {:induction false} AlertTimesOfSamePrefix(p: Params, ts: seq<Time>, us: seq<Time>, n: nat)
    requires n <= |ts| && n <= |us| && forall j :: 0 <= j < n ==> ts[j] == us[j]
    ensures AlertTimes(p, ts, n) == AlertTimes(p, us, n)
  {
    if n > 0 {
      AlertTimesOfSamePrefix(p, ts, us, n - 1);
      SamePrefixSameRun(p, ts, us, n - 1);
    }
  }

  lemma AlertTimesSnoc(p: Params, ts: seq<Time>, t: Time)
    ensures AlertTimes(p, ts + [t], |ts| + 1) ==
            if AlertsAt(p, ts + [t], |ts|) then AlertTimes(p, ts, |ts|) + [t] else AlertTimes(p, ts, |ts|)
  {
    AlertTimesOfSamePrefix(p, ts + [t], ts, |ts|);
  }

  lemma AlertIffKeyAlert(p: Params, evts: seq<Event>, i: nat, k: BeaconKey)
    requires i < |evts| && Concerns(evts[i], k)
    ensures var ts := TimesOf(evts, i, k);
            AlertFor(p, evts, i).Some? <==> AlertsAt(p, ts + [evts[i].timestamp], |ts|)
  {
    AlertsAreThoseOfTheKey(p, evts, i, k);
  }

  lemma StreamAlertStep(p: Params, evts: seq<Event>, i: nat, k: BeaconKey)
    requires i < |evts| && Concerns(evts[i], k)
    ensures var ts, t, before := TimesOf(evts, i, k), evts[i].timestamp, StreamAlertTimes(p, evts, i, k);
            StreamAlertTimes(p, evts, i + 1, k) == if AlertsAt(p, ts + [t], |ts|) then before + [t] else before
  {
    AlertIffKeyAlert(p, evts, i, k);
  }

  ghost predicate StreamAgrees(p: Params, evts: seq<Event>, n: nat, k: BeaconKey)
    requires n <= |evts|
  {
    StreamAlertTimes(p, evts, n, k) == AlertTimes(p, TimesOf(evts, n, k), |TimesOf(evts, n, k)|)
  }

  lemma KeyAlertStep(p: Params, evts: seq<Event>, i: nat, k: BeaconKey)
    requires i < |evts| && StreamAgrees(p, evts, i, k)
    ensures StreamAgrees(p, evts, i + 1, k)
  {
    if Concerns(evts[i], k) {
      var ts, t := TimesOf(evts, i, k), evts[i].timestamp;
      var us := ts + [t];
      assert TimesOf(evts, i + 1, k) == us && |us| == |ts| + 1;
      StreamAlertStep(p, evts, i, k);
      AlertTimesSnoc(p, ts, t);
    }
  }

  /** The stream's alerts for a key come at exactly the times of the key run alone. */
  lemma {:induction false} StreamAlertsAreKeyAlerts(p: Params, evts: seq<Event>, n: nat, k: BeaconKey)
    requires n <= |evts|
    ensures StreamAgrees(p, evts, n, k)
  {
    if n > 0 {
      StreamAlertsAreKeyAlerts(p, evts, n - 1, k);
      KeyAlertStepTo(p, evts, n, k);
    }
  }

  lemma KeyAlertStepTo(p: Params, evts: seq<Event>, n: nat, k: BeaconKey)
    requires 0 < n <= |evts| && StreamAgrees(p, evts, n - 1, k)
    ensures StreamAgrees(p, evts, n, k)
  {
    KeyAlertStep(p, evts, n - 1, k);
  }
}
