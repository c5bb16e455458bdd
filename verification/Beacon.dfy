/**
 The periodic-beacon detector as a function: what one key's window holds after an event and
 what verdict the event gets. Timestamps are seconds; the statistics are exact reals.
 */
module Beacon {
  import opened Types
  import opened RealAlgebra

  /** The detector's part of the configuration; window is a whole number of seconds. */
  datatype Config = Config(window: int, minSamples: int, cvThreshold: real)

  /** The outcome of one event: an alert carries the statistics it reports. */
  datatype Verdict = Quiet | Periodic(mean: real, variance: real)

  /**
   The detector's settings. The statistical test is a component of its own, so that what is proved of
   the window, the cooldown and the keys is proved for any test.
   */
  datatype Params = Params(
    window: real, minSamples: int, maxCV: real, cooldown: real, judge: seq<Time> -> Verdict)
  {
    ghost predicate Valid() {
      && window > 0.0 && minSamples > 0 && maxCV > 0.0 && cooldown > 0.0
      && forall ts {:trigger Judge(maxCV, ts)} :: judge(ts) == Judge(maxCV, ts)
    }
  }

  /** Non-positive settings fall back to five minutes, three samples and a CV of a quarter. */
  function NewParams(cfg: Config): (p: Params)
    ensures p.Valid() && p.cooldown == 60.0
    ensures if cfg.window > 0 then p.window == cfg.window as real else p.window == 300.0
    ensures if cfg.minSamples > 0 then p.minSamples == cfg.minSamples else p.minSamples == 3
    ensures if cfg.cvThreshold > 0.0 then p.maxCV == cfg.cvThreshold else p.maxCV == 0.25
  {
    var maxCV := if cfg.cvThreshold <= 0.0 then 0.25 else cfg.cvThreshold;
    Params(
      if cfg.window <= 0 then 300.0 else cfg.window as real,
      if cfg.minSamples <= 0 then 3 else cfg.minSamples,
      maxCV, 60.0, ts => Judge(maxCV, ts))
  }

  /** Those of the first n elements of ts that are later than the cutoff, in order. */
  function Kept(ts: seq<Time>, n: nat, cutoff: Time): seq<Time>
    requires n <= |ts|
  {
    if n == 0 then []
    else
      var before := Kept(ts, n - 1, cutoff);
      if ts[n - 1] > cutoff then before + [ts[n - 1]] else before
  }

  function Pruned(ts: seq<Time>, cutoff: Time): seq<Time> {
    Kept(ts, |ts|, cutoff)
  }

  /** The positive differences between neighbours among the first n elements, in order. */
  function GapsAmong(ts: seq<Time>, n: nat): seq<real>
    requires n <= |ts|
  {
    if n < 2 then []
    else
      var before, d := GapsAmong(ts, n - 1), ts[n - 1] - ts[n - 2];
      if d > 0.0 then before + [d] else before
  }

  function Gaps(ts: seq<Time>): seq<real> {
    GapsAmong(ts, |ts|)
  }

  function Sum(xs: seq<real>): real {
    if xs == [] then 0.0 else Sum(xs[..|xs| - 1]) + xs[|xs| - 1]
  }

  /** The sum of squared distances from a centre. */
  function SquaredDeviations(xs: seq<real>, centre: real): real {
    if xs == [] then 0.0 else SquaredDeviations(xs[..|xs| - 1], centre) + Square(xs[|xs| - 1] - centre)
  }

  function Mean(xs: seq<real>): real {
    if xs == [] then 0.0 else Sum(xs) / |xs| as real
  }

  /** The square of the (population) standard deviation. */
  function Variance(xs: seq<real>): real {
    if xs == [] then 0.0 else SquaredDeviations(xs, Mean(xs)) / |xs| as real
  }

  /** The coefficient-of-variation test on the window's contents. */
  function Judge(maxCV: real, times: seq<Time>): Verdict {
    var gaps := Gaps(times);
    if |gaps| < 2 then Quiet
    else
      var mean, variance := Mean(gaps), Variance(gaps);
      if mean <= 0.0 || !CvAtMost(mean, variance, maxCV) then Quiet
      else Periodic(mean, variance)
  }

  /** What the detector remembers of one key: its window and the time of its last alert. */
  datatype KeyState = KeyState(times: seq<Time>, lastAlert: Option<Time>)

  predicate CoolingDown(p: Params, lastAlert: Option<Time>, now: Time) {
    lastAlert.Some? && now - lastAlert.value < p.cooldown
  }

  /** The verdict on the newest event of a key whose window is up to date. */
  function Conclude(p: Params, s: KeyState, now: Time): Verdict {
    if |s.times| < p.minSamples || CoolingDown(p, s.lastAlert, now) then Quiet else p.judge(s.times)
  }

  /** One event of a key. */
  function Observe(p: Params, s: KeyState, now: Time): (KeyState, Verdict) {
    var seen := KeyState(Pruned(s.times + [now], now - p.window), s.lastAlert);
    var verdict := Conclude(p, seen, now);
    (if verdict.Periodic? then seen.(lastAlert := Some(now)) else seen, verdict)
  }

  datatype BeaconKey = BeaconKey(pid: int, remoteIP: AddressText, remotePort: Port)

  function BeaconKeyOf(c: Connection): BeaconKey {
    BeaconKey(c.pid, c.remoteIP.text, c.remotePort)
  }

  /** The detector's two maps. */
  datatype State = State(history: map<BeaconKey, seq<Time>>, alerted: map<BeaconKey, Time>) {
    /** What the maps hold for one key. */
    function At(k: BeaconKey): KeyState {
      KeyState(if k in history then history[k] else [], if k in alerted then Some(alerted[k]) else None)
    }
  }

  const EMPTY := State(map[], map[])

  datatype Alert = Alert(conn: Connection, timestamp: Time, mean: real, variance: real)

  /** Append to a key's window and prune it. */
  function Record(p: Params, s: State, k: BeaconKey, now: Time): State {
    s.(history := s.history[k := Pruned(s.At(k).times + [now], now - p.window)])
  }

  /** One event of the stream; only new connections are analysed. */
  function Analyze(p: Params, s: State, e: Event): (State, Option<Alert>) {
    if e.kind != NewConnection then (s, None)
    else
      var k := BeaconKeyOf(e.conn);
      var seen := Record(p, s, k, e.timestamp);
      match Conclude(p, seen.At(k), e.timestamp)
      case Quiet => (seen, None)
      case Periodic(mean, variance) =>
        (seen.(alerted := seen.alerted[k := e.timestamp]), Some(Alert(e.conn, e.timestamp, mean, variance)))
  }
}
