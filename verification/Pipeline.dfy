/**
 The stages put together: capturer, periodic-beacon detector and display, each event passing through all
 three in order.
 */
module Pipeline {
  import opened Types
  import opened Beacon
  import opened BeaconRuns
  import Scan
  import Capturer
  import Mirror
  import AlertLog
  import Detector
  import Tui

  /** An alert of the periodic detector, or one of another detector. */
  datatype Notice = BeaconNotice(alert: Alert) | OtherNotice(kind: string, conn: Connection, timestamp: Time)

  function Attached(alert: Option<Alert>): seq<Notice> {
    match alert
    case Some(a) => [BeaconNotice(a)]
    case None => []
  }

  /** The alerts that travel with an event: the periodic detector's, then those of the others; none with a close. */
  function Gathered(e: Event, alert: Option<Alert>, others: seq<Notice>): seq<Notice> {
    if e.kind != NewConnection then [] else Attached(alert) + others
  }

  lemma GatheredIs(e: Event, alert: Option<Alert>, others: seq<Notice>)
    ensures e.kind == ConnectionClosed ==> Gathered(e, alert, others) == []
    ensures e.kind == NewConnection && alert.None? ==> Gathered(e, alert, others) == others
    ensures e.kind == NewConnection && alert.Some? ==>
              Gathered(e, alert, others) == [BeaconNotice(alert.value)] + others
  {
    assert [] + others == others;
  }

  /** others[i] are the alerts that the other detectors raise on event i. */
  function NoticeBatches(p: Params, trace: seq<Event>, others: seq<seq<Notice>>): (batches: seq<seq<Notice>>)
    requires |others| == |trace|
    ensures |batches| == |trace|
    ensures forall i {:trigger batches[i]} ::
              0 <= i < |trace| ==> batches[i] == Gathered(trace[i], AlertFor(p, trace, i), others[i])
  {
    seq(|trace|, i requires 0 <= i < |trace| => Gathered(trace[i], AlertFor(p, trace, i), others[i]))
  }

  // ----- One key's part of a trace

  lemma {:induction false} TimesAreOrdered(trace: seq<Event>, n: nat, k: BeaconKey)
    requires n <= |trace| && Scan.Ordered(trace)
    ensures Nondecreasing(TimesOf(trace, n, k))
    ensures forall i :: 0 <= i < |TimesOf(trace, n, k)| ==> n > 0 && TimesOf(trace, n, k)[i] <= trace[n - 1].timestamp
  {
    if n > 0 {
      TimesAreOrdered(trace, n - 1, k);
    }
  }

  lemma {:induction false} TimesGrow(trace: seq<Event>, m: nat, n: nat, k: BeaconKey)
    requires m <= n <= |trace|
    ensures TimesOf(trace, m, k) <= TimesOf(trace, n, k)
  {
    if m < n {
      TimesGrow(trace, m, n - 1, k);
    }
  }

  /** The event of the trace that contributes time m of a key. */
  lemma {:induction false} EventOfTime(trace: seq<Event>, n: nat, k: BeaconKey, m: nat) returns (j: nat)
    requires n <= |trace| && m < |TimesOf(trace, n, k)|
    ensures j < n && Concerns(trace[j], k) && trace[j].timestamp == TimesOf(trace, n, k)[m]
    ensures |TimesOf(trace, j, k)| == m && TimesOf(trace, j + 1, k) == TimesOf(trace, n, k)[..m + 1]
  {
    if m < |TimesOf(trace, n - 1, k)| {
      j := EventOfTime(trace, n - 1, k, m);
      assert TimesOf(trace, n - 1, k)[..m + 1] == TimesOf(trace, n, k)[..m + 1];
    } else {
      j := n - 1;
      assert TimesOf(trace, n, k)[..m + 1] == TimesOf(trace, n, k);
    }
  }

  lemma VerdictOfPrefix(p: Params, ts: seq<Time>, m: nat)
    requires m < |ts|
    ensures VerdictAt(p, ts[..m + 1], m) == VerdictAt(p, ts, m)
  {
    SamePrefixSameRun(p, ts[..m + 1], ts, m);
  }

  lemma PlaceOf(trace: seq<Event>, n: nat, k: BeaconKey, j: nat)
    requires j < n <= |trace| && Concerns(trace[j], k)
    ensures var ts, m := TimesOf(trace, n, k), |TimesOf(trace, j, k)|;
            m < |ts| && ts[m] == trace[j].timestamp && TimesOf(trace, j + 1, k) == ts[..m + 1]
  {
    TimesGrow(trace, j + 1, n, k);
  }

  lemma AlertByVerdict(p: Params, trace: seq<Event>, j: nat, k: BeaconKey, ts: seq<Time>, m: nat)
    requires j < |trace| && Concerns(trace[j], k) && m < |ts| && TimesOf(trace, j + 1, k) == ts[..m + 1]
    ensures AlertFor(p, trace, j) == AlertOf(trace[j], VerdictAt(p, ts, m))
  {
    AlertsAreThoseOfTheKey(p, trace, j, k);
    VerdictOfPrefix(p, ts, m);
  }

  /** An event of the trace is alerted exactly when its place in the key's log is. */
  lemma AlertByPlace(p: Params, trace: seq<Event>, n: nat, k: BeaconKey, j: nat)
    requires j < n <= |trace| && Concerns(trace[j], k)
    ensures var ts, m := TimesOf(trace, n, k), |TimesOf(trace, j, k)|;
            && m < |ts| && ts[m] == trace[j].timestamp
            && AlertFor(p, trace, j) == AlertOf(trace[j], VerdictAt(p, ts, m))
  {
    PlaceOf(trace, n, k, j);
    AlertByVerdict(p, trace, j, k, TimesOf(trace, n, k), |TimesOf(trace, j, k)|);
  }

  // ----- The detector behind a capturer

  lemma SoundByPlace(p: Params, e: Event, ts: seq<Time>, m: nat)
    requires p.Valid() && Nondecreasing(ts) && m < |ts| && e.timestamp == ts[m]
    requires AlertOf(e, VerdictAt(p, ts, m)).Some?
    ensures var alert := AlertOf(e, VerdictAt(p, ts, m)).value;
            && alert.conn == e.conn && alert.timestamp == e.timestamp
            && Describes(p, Recent(p, ts, m), alert.timestamp, alert.mean)
  {
    AlertIsSound(p, ts, m);
  }

  /**
   Every alert is about the connection it comes with, and its mean describes the recent connections of
   the same owner to the same endpoint. Capturers whose clock does not run backwards meet the premise.
   */
  lemma AlertsInTraceAreSound(p: Params, trace: seq<Event>, i: nat)
    requires p.Valid() && Scan.Ordered(trace) && i < |trace| && AlertFor(p, trace, i).Some?
    ensures var alert, ts := AlertFor(p, trace, i).value, TimesLike(trace, i + 1, trace[i].conn);
            && alert.conn == trace[i].conn && alert.timestamp == trace[i].timestamp && ts != []
            && Describes(p, Recent(p, ts, |ts| - 1), alert.timestamp, alert.mean)
  {
    var c, ts := trace[i].conn, TimesLike(trace, i + 1, trace[i].conn);
    var k := BeaconKey(c.pid, c.remoteIP.text, c.remotePort);
    AlertsAreThoseOfTheKey(p, trace, i, k);
    TimesLikeAreTimesOf(trace, i + 1, c);
    TimesAreOrdered(trace, i + 1, k);
    AlertIsThatOfItsEndpoint(p, trace, i);
    SoundByPlace(p, trace[i], ts, |ts| - 1);
  }

  lemma QuietBefore(p: Params, trace: seq<Event>, n: nat, k: BeaconKey, j: nat, i: nat)
    requires i < j < n <= |trace| && Concerns(trace[i], k) && Concerns(trace[j], k)
    requires |TimesOf(trace, j, k)| < |TimesOf(trace, n, k)|
    requires forall m :: 0 <= m < |TimesOf(trace, j, k)| ==> !AlertsAt(p, TimesOf(trace, n, k), m)
    ensures AlertFor(p, trace, i) == None
  {
    AlertByPlace(p, trace, n, k, i);
    TimesGrow(trace, i + 1, j, k);
    assert |TimesOf(trace, i + 1, k)| == |TimesOf(trace, i, k)| + 1;
    assert !AlertsAt(p, TimesOf(trace, n, k), |TimesOf(trace, i, k)|);
  }

  /** The first alert on a beacon in a trace is that on its Threshold-th connection. */
  lemma BeaconInTraceIsCaught(p: Params, trace: seq<Event>, n: nat, k: BeaconKey, a: real, b: real) returns (j: nat)
    requires p.Valid() && Detectable(p, a, b) && n <= |trace|
    requires Spaced(TimesOf(trace, n, k), a, b) && |TimesOf(trace, n, k)| >= Threshold(p)
    ensures j < n && Concerns(trace[j], k) && |TimesOf(trace, j + 1, k)| == Threshold(p)
    ensures AlertFor(p, trace, j).Some?
    ensures forall i :: 0 <= i < j && Concerns(trace[i], k) ==> AlertFor(p, trace, i) == None
  {
    BeaconIsCaught(p, TimesOf(trace, n, k), a, b);
    j := EventOfTime(trace, n, k, Threshold(p) - 1);
    AlertByPlace(p, trace, n, k, j);
    forall i | 0 <= i < j && Concerns(trace[i], k) ensures AlertFor(p, trace, i) == None {
      QuietBefore(p, trace, n, k, j, i);
    }
  }

  /** While the beacon goes on in the trace, its next alert follows less than cooldown + b after the last. */
  lemma BeaconInTraceIsCaughtAgain(p: Params, trace: seq<Event>, n: nat, k: BeaconKey, a: real, b: real, j: nat)
    returns (i: nat)
    requires p.Valid() && Detectable(p, a, b) && j < n <= |trace| && Spaced(TimesOf(trace, n, k), a, b)
    requires Concerns(trace[j], k) && AlertFor(p, trace, j).Some?
    requires Concerns(trace[n - 1], k) && trace[n - 1].timestamp - trace[j].timestamp >= p.cooldown
    ensures i < n && Concerns(trace[i], k) && AlertFor(p, trace, i).Some?
    ensures p.cooldown <= trace[i].timestamp - trace[j].timestamp < p.cooldown + b
  {
    var ts := TimesOf(trace, n, k);
    AlertByPlace(p, trace, n, k, j);
    AlertByPlace(p, trace, n, k, n - 1);
    var first, last := |TimesOf(trace, j, k)|, |TimesOf(trace, n - 1, k)|;
    TimesGrow(trace, j, n - 1, k);
    assert first != last;
    var m := BeaconIsCaughtAgain(p, ts, a, b, first, last);
    i := EventOfTime(trace, n, k, m);
    AlertByPlace(p, trace, n, k, i);
  }

  // ----- The display behind the detector

  /** x is in the log, and exactly n newer entries follow it. */
  predicate LoggedBehind<T(==)>(log: seq<T>, n: nat, x: T) {
    n < |log| && log[|log| - 1 - n] == x
  }

  lemma LastNAt<T>(s: seq<T>, t: seq<T>, i: nat, cap: nat)
    requires i < |t| && |t| - i <= cap
    ensures LoggedBehind(Mirror.LastN(s + t, cap), |t| - 1 - i, t[i])
  {
    assert (s + t)[|s| + i] == t[i];
  }

  /** An event of which nothing is hidden: a close, or a connection that the TIME_WAIT switch lets through. */
  predicate Shown(setting: Mirror.Setting, e: Event) {
    e.kind == ConnectionClosed || setting.showTimeWait || e.conn.state != 6
  }

  /** What travels with a shown event is in the log right after it, in order, as far as the log holds it. */
  lemma NotedWithEvent<A>(
      trace: seq<Event>, settings: seq<Mirror.Setting>, batches: seq<seq<A>>, cap: nat, j: nat, i: nat)
    requires j < |trace| == |settings| == |batches| && Shown(settings[j], trace[j])
    requires i < |batches[j]| && |batches[j]| - i <= cap
    ensures LoggedBehind(AlertLog.Log(trace, settings, batches, cap, j + 1), |batches[j]| - 1 - i, batches[j][i])
  {
    AlertLog.LogIsNewestNoted(trace, settings, batches, cap, j + 1);
    LastNAt(AlertLog.Noted(trace, settings, batches, j), batches[j], i, cap);
  }

  /**
   What travels with event i: with a new connection the periodic alert, if there is one, and then whatever
   the other detectors raised; with a close nothing.
   */
  lemma BatchIs(p: Params, trace: seq<Event>, others: seq<seq<Notice>>, i: nat)
    requires i < |trace| == |others|
    ensures trace[i].kind == ConnectionClosed ==> NoticeBatches(p, trace, others)[i] == []
    ensures trace[i].kind == NewConnection && AlertFor(p, trace, i).None? ==>
              NoticeBatches(p, trace, others)[i] == others[i]
    ensures AlertFor(p, trace, i).Some? ==>
              && trace[i].kind == NewConnection
              && NoticeBatches(p, trace, others)[i] == [BeaconNotice(AlertFor(p, trace, i).value)] + others[i]
  {
    var c := trace[i].conn;
    AlertsAreThoseOfTheKey(p, trace, i, BeaconKey(c.pid, c.remoteIP.text, c.remotePort));
    GatheredIs(trace[i], AlertFor(p, trace, i), others[i]);
  }

  lemma OtherInBatch(p: Params, trace: seq<Event>, others: seq<seq<Notice>>, j: nat, i: nat) returns (at: nat)
    requires j < |trace| == |others| && trace[j].kind == NewConnection && i < |others[j]|
    ensures var batch := NoticeBatches(p, trace, others)[j];
            at < |batch| && batch[at] == others[j][i] && |batch| - at == |others[j]| - i
  {
    BatchIs(p, trace, others, j);
    at := |NoticeBatches(p, trace, others)[j]| - |others[j]| + i;
  }

  /** Whatever the other detectors raise on a shown new connection enters the log, periodic alert or none. */
  lemma OthersAreLogged(
      p: Params, trace: seq<Event>, settings: seq<Mirror.Setting>, others: seq<seq<Notice>>, cap: nat, j: nat, i: nat)
    requires j < |trace| == |settings| == |others| && trace[j].kind == NewConnection
    requires settings[j].showTimeWait || trace[j].conn.state != 6
    requires i < |others[j]| <= cap
    ensures LoggedBehind(AlertLog.Log(trace, settings, NoticeBatches(p, trace, others), cap, j + 1),
                         |others[j]| - 1 - i, others[j][i])
  {
    var at := OtherInBatch(p, trace, others, j, i);
    NotedWithEvent(trace, settings, NoticeBatches(p, trace, others), cap, j, at);
  }

  /**
   A periodic alert enters the display's log, unless its event is not shown: right after the event only
   the alerts that other detectors raise on the same event are newer.
   */
  lemma RaisedAlertIsLogged(
      p: Params, trace: seq<Event>, settings: seq<Mirror.Setting>, others: seq<seq<Notice>>, cap: nat,
      j: nat, alert: Alert)
    requires j < |trace| == |settings| == |others| && AlertFor(p, trace, j) == Some(alert)
    requires (settings[j].showTimeWait || trace[j].conn.state != 6) && |others[j]| < cap
    ensures LoggedBehind(AlertLog.Log(trace, settings, NoticeBatches(p, trace, others), cap, j + 1),
                         |others[j]|, BeaconNotice(alert))
  {
    var batches := NoticeBatches(p, trace, others);
    BatchIs(p, trace, others, j);
    NotedWithEvent(trace, settings, batches, cap, j, 0);
  }

  /** So does the first alert of a beacon, at its Threshold-th connection. */
  lemma CaughtBeaconIsLogged(
      p: Params, trace: seq<Event>, settings: seq<Mirror.Setting>, others: seq<seq<Notice>>, cap: nat,
      n: nat, k: BeaconKey, a: real, b: real)
    returns (j: nat, alert: Alert)
    requires p.Valid() && Detectable(p, a, b) && n <= |trace| == |settings| == |others|
    requires Spaced(TimesOf(trace, n, k), a, b) && |TimesOf(trace, n, k)| >= Threshold(p)
    ensures j < n && Concerns(trace[j], k) && |TimesOf(trace, j + 1, k)| == Threshold(p)
    ensures AlertFor(p, trace, j) == Some(alert)
    ensures (settings[j].showTimeWait || trace[j].conn.state != 6) && |others[j]| < cap ==>
              LoggedBehind(AlertLog.Log(trace, settings, NoticeBatches(p, trace, others), cap, j + 1),
                           |others[j]|, BeaconNotice(alert))
  {
    j := BeaconInTraceIsCaught(p, trace, n, k, a, b);
    alert := AlertFor(p, trace, j).value;
    if (settings[j].showTimeWait || trace[j].conn.state != 6) && |others[j]| < cap {
      RaisedAlertIsLogged(p, trace, settings, others, cap, j, alert);
    }
  }

  /** What detector and display hold after the first n events of a trace. */
  ghost predicate Fed(
      p: Params, trace: seq<Event>, others: seq<seq<Notice>>, n: nat,
      state: State, shown: seq<Event>, batches: seq<seq<Notice>>)
  {
    && n <= |trace| == |others| && state == Run(p, trace, n)
    && shown == trace[..n] && batches == NoticeBatches(p, trace, others)[..n]
  }

  lemma TakeOneMore<T>(s: seq<T>, n: nat)
    requires n < |s|
    ensures s[..n + 1] == s[..n] + [s[n]]
  {}

  lemma FedOneMore(
      p: Params, trace: seq<Event>, others: seq<seq<Notice>>, n: nat,
      state: State, shown: seq<Event>, batches: seq<seq<Notice>>)
    requires n < |trace| && Fed(p, trace, others, n, state, shown, batches)
    ensures Fed(p, trace, others, n + 1, Analyze(p, state, trace[n]).0, shown + [trace[n]],
                batches + [Gathered(trace[n], Analyze(p, state, trace[n]).1, others[n])])
  {
    var all := NoticeBatches(p, trace, others);
    assert all[n] == Gathered(trace[n], Analyze(p, state, trace[n]).1, others[n]);
    TakeOneMore(all, n);
    TakeOneMore(trace, n);
  }

  lemma FedAll(
      p: Params, trace: seq<Event>, others: seq<seq<Notice>>,
      state: State, shown: seq<Event>, batches: seq<seq<Notice>>)
    requires Fed(p, trace, others, |trace|, state, shown, batches)
    ensures shown == trace && batches == NoticeBatches(p, trace, others)
  {}

  predicate Uniform(settings: seq<Mirror.Setting>, setting: Mirror.Setting) {
    forall i :: 0 <= i < |settings| ==> settings[i] == setting
  }

  /** All detectors on one event; the others are asked only about new connections, as the periodic one is. */
  method AnalyzeAll(evt: Event, others: seq<Notice>, detector: Detector.PeriodicDetector) returns (alerts: seq<Notice>)
    requires detector.Valid()
    modifies detector, detector.Repr
    ensures detector.Valid() && fresh(detector.Repr - old(detector.Repr))
    ensures detector.Value() == Analyze(detector.params, old(detector.Value()), evt).0
    ensures var alert := Analyze(detector.params, old(detector.Value()), evt).1;
            && (evt.kind == ConnectionClosed ==> alerts == [])
            && (evt.kind == NewConnection && alert.None? ==> alerts == others)
            && (evt.kind == NewConnection && alert.Some? ==> alerts == [BeaconNotice(alert.value)] + others)
    ensures alerts == Gathered(evt, Analyze(detector.params, old(detector.Value()), evt).1, others)
  {
    ghost var after := Analyze(detector.params, detector.Value(), evt);
    if evt.kind == NewConnection {
      var alert := detector.Analyze(evt);
      assert (detector.Value(), alert) == after;
      alerts := Attached(alert) + others;
      GatheredIs(evt, alert, others);
    } else {
      alerts := [];
    }
  }

  /** One event is analysed and passed on with its alerts. */
  method Pass(evt: Event, others: seq<Notice>, detector: Detector.PeriodicDetector, display: Tui.Display<Notice>)
    requires detector.Valid() && display.Valid() && display !in detector.Repr
    modifies detector, detector.Repr, display
    ensures detector.Valid() && fresh(detector.Repr - old(detector.Repr)) && display !in detector.Repr
    ensures detector.Value() == Analyze(detector.params, old(detector.Value()), evt).0
    ensures display.Valid() && display.showTimeWait == old(display.showTimeWait)
    ensures display.trace == old(display.trace) + [evt]
    ensures display.batches
            == old(display.batches) + [Gathered(evt, Analyze(detector.params, old(detector.Value()), evt).1, others)]
    ensures display.settings == old(display.settings) + [Mirror.Setting(display.showTimeWait, display.keep)]
  {
    var alerts := AnalyzeAll(evt, others, detector);
    display.HandleEvent(evt, alerts);
  }

  /** The loop between capturer and display: every event is analysed and passed on with its alerts. */
  method Process(
      trace: seq<Event>, others: seq<seq<Notice>>, detector: Detector.PeriodicDetector, display: Tui.Display<Notice>)
    requires |others| == |trace|
    requires detector.Valid() && detector.Value() == EMPTY && display.Valid() && display.trace == []
    requires display !in detector.Repr
    modifies detector, detector.Repr, display
    ensures detector.Valid() && detector.Value() == Run(detector.params, trace, |trace|)
    ensures display.Valid() && display.trace == trace
    ensures display.batches == NoticeBatches(detector.params, trace, others)
    ensures Uniform(display.settings, Mirror.Setting(old(display.showTimeWait), display.keep))
  {
    for i := 0 to |trace|
      invariant detector.Valid() && fresh(detector.Repr - old(detector.Repr)) && display !in detector.Repr
      invariant display.Valid() && display.showTimeWait == old(display.showTimeWait)
      invariant Fed(detector.params, trace, others, i, detector.Value(), display.trace, display.batches)
      invariant Uniform(display.settings, Mirror.Setting(display.showTimeWait, display.keep))
    {
      FedOneMore(detector.params, trace, others, i, detector.Value(), display.trace, display.batches);
      Pass(trace[i], others[i], detector, display);
    }
    FedAll(detector.params, trace, others, detector.Value(), display.trace, display.batches);
  }

  /** The alerts of the other detectors, given what they make of the newest event of a stream. */
  function OthersOn(rules: seq<Event> -> seq<Notice>, trace: seq<Event>): (others: seq<seq<Notice>>)
    ensures |others| == |trace| && forall i :: 0 <= i < |trace| ==> others[i] == rules(trace[..i + 1])
  {
    seq(|trace|, i requires 0 <= i < |trace| => rules(trace[..i + 1]))
  }

  /**
   A whole session: the capturer scans at every tick whose reading succeeds; at the end it knows exactly
   the keys of the latest snapshot, the list shows no others, and the log holds the newest alerts of all
   detectors on the capturer's events, less those of events that were not shown.
   */
  method Session(
      ticks: seq<Capturer.Tick>, rules: seq<Event> -> seq<Notice>, capturer: Capturer.PollingCapturer,
      detector: Detector.PeriodicDetector, display: Tui.Display<Notice>)
    returns (trace: seq<Event>, ghost lives: seq<map<nat, int>>, ghost scans: seq<Scan.ScanRecord>)
    requires capturer.Valid() && capturer.known == map[] && capturer.inodePID == map[]
    requires detector.Valid() && detector.Value() == EMPTY && display.Valid() && display.trace == []
    requires display !in detector.Repr && capturer !in detector.Repr
    modifies capturer, detector, detector.Repr, display
    ensures var through := Capturer.Completed(capturer.backend, ticks, |ticks|);
            Capturer.IsHistory(capturer.read, through, lives, scans, trace, capturer.known, capturer.inodePID)
    ensures capturer.known.Keys == Capturer.LatestKeys(scans)
    ensures Capturer.TicksAscend(ticks) ==> Scan.Ordered(trace)
    ensures display.Valid() && display.trace == trace
    ensures !display.keep ==>
              && |display.connections| <= display.maxConns && Mirror.DistinctKeys(display.connections)
              && Mirror.RowsOf(display.connections, capturer.known)
              && forall c :: c in display.connections ==> c.Key() in Capturer.LatestKeys(scans)
    ensures display.alerts
            == Mirror.LastN(AlertLog.Noted(trace, display.settings,
                                           NoticeBatches(detector.params, trace, OthersOn(rules, trace)), |trace|),
                            display.maxAlerts)
  {
    trace, lives, scans := capturer.Poll(ticks);
    if Scan.ClockAscends(scans) {
      Scan.TraceIsOrdered(scans, |scans|);
    }
    Process(trace, OthersOn(rules, trace), detector, display);
    AlertLog.LogIsNewestNoted(trace, display.settings, display.batches, display.maxAlerts, |trace|);
    if !display.keep {
      Mirror.DisplayMirrorsCapturer(scans, |scans|, display.settings, display.maxConns);
    }
  }
}
