/**
 Snapshot reconciliation: what one scan does to the set of known connections and which events it
 emits, and the protocol that the events of a whole run keep.
 */
module Scan {
  import opened Types

  type Known = map<ConnectionKey, Connection>

  function KeysAmong(conns: seq<Connection>, n: nat): (keys: set<ConnectionKey>)
    requires n <= |conns|
    ensures forall k :: k in keys <==> exists i :: 0 <= i < n && conns[i].Key() == k
  {
    set i | 0 <= i < n :: conns[i].Key()
  }

  function KeysOf(conns: seq<Connection>): set<ConnectionKey> {
    KeysAmong(conns, |conns|)
  }

  /** known with the first n connections of a snapshot added; a key that is there already stays as it is. */
  function Absorb(known: Known, conns: seq<Connection>, n: nat): Known
    requires n <= |conns|
  {
    if n == 0 then known
    else
      var before, c := Absorb(known, conns, n - 1), conns[n - 1];
      if c.Key() in before then before else before[c.Key() := c]
  }

  /** Those of the first n connections that were added, in snapshot order. */
  function News(known: Known, conns: seq<Connection>, n: nat): seq<Connection>
    requires n <= |conns|
  {
    if n == 0 then []
    else
      var before, c := News(known, conns, n - 1), conns[n - 1];
      if c.Key() in Absorb(known, conns, n - 1) then before else before + [c]
  }

  function Announce(kind: EventType, conns: seq<Connection>, now: Time): (events: seq<Event>)
    ensures |events| == |conns|
    ensures forall i :: 0 <= i < |conns| ==> events[i] == Event(now, kind, conns[i])
  {
    seq(|conns|, i requires 0 <= i < |conns| => Event(now, kind, conns[i]))
  }

  /** cs lists the values of m, each once, in any order. */
  ghost predicate Enumerates(cs: seq<Connection>, m: Known) {
    && (forall i :: 0 <= i < |cs| ==> cs[i].Key() in m && m[cs[i].Key()] == cs[i])
    && (forall i, j :: 0 <= i < j < |cs| ==> cs[i].Key() != cs[j].Key())
    && (forall k :: k in m ==> exists i :: 0 <= i < |cs| && cs[i].Key() == k)
  }

  /** What one completed scan saw and did. */
  datatype ScanRecord = ScanRecord(conns: seq<Connection>, now: Time, closed: seq<Connection>, after: Known)

  /** The scan r of a capturer that knew known: the snapshot's keys stay, the others are closed. */
  ghost predicate IsScan(known: Known, r: ScanRecord) {
    var all, live := Absorb(known, r.conns, |r.conns|), KeysOf(r.conns);
    Enumerates(r.closed, all - live) && r.after == all - (all.Keys - live)
  }

  /** The scan's events: announcements of what is new, then of what is gone. */
  function EventsOf(known: Known, r: ScanRecord): seq<Event> {
    Announce(NewConnection, News(known, r.conns, |r.conns|), r.now) + Announce(ConnectionClosed, r.closed, r.now)
  }

  // ----- What a scan does, said of the snapshot

  lemma {:induction false} AbsorbAddsFirstOfKey(known: Known, conns: seq<Connection>, n: nat, k: ConnectionKey)
    requires n <= |conns|
    ensures k in Absorb(known, conns, n) <==> k in known || exists i :: 0 <= i < n && conns[i].Key() == k
    ensures k in known ==> Absorb(known, conns, n)[k] == known[k]
    ensures k in Absorb(known, conns, n) && k !in known ==>
              exists i :: 0 <= i < n && conns[i].Key() == k && Absorb(known, conns, n)[k] == conns[i] &&
                          forall j :: 0 <= j < i ==> conns[j].Key() != k
  {
    if n > 0 {
      AbsorbAddsFirstOfKey(known, conns, n - 1, k);
    }
  }

  /**
   After a scan exactly the snapshot's keys are known: those that were known keep the connection first
   seen, the others hold the snapshot's first connection with that key.
   */
  lemma ScanKnowsSnapshot(known: Known, r: ScanRecord, k: ConnectionKey)
    requires IsScan(known, r)
    ensures k in r.after <==> k in KeysOf(r.conns)
    ensures k in known && k in r.after ==> r.after[k] == known[k]
    ensures k in r.after && k !in known ==>
              exists i :: 0 <= i < |r.conns| && r.conns[i].Key() == k && r.after[k] == r.conns[i] &&
                          forall j :: 0 <= j < i ==> r.conns[j].Key() != k
  {
    AbsorbAddsFirstOfKey(known, r.conns, |r.conns|, k);
  }

  predicate FirstOfKey(conns: seq<Connection>, j: nat)
    requires j < |conns|
  {
    forall i :: 0 <= i < j ==> conns[i].Key() != conns[j].Key()
  }

  predicate IsNew(known: Known, conns: seq<Connection>, j: nat)
    requires j < |conns|
  {
    conns[j].Key() !in known && FirstOfKey(conns, j)
  }

  lemma NewIsNotAbsorbed(known: Known, conns: seq<Connection>, j: nat)
    requires j < |conns|
    ensures conns[j].Key() !in Absorb(known, conns, j) <==> IsNew(known, conns, j)
  {
    AbsorbAddsFirstOfKey(known, conns, j, conns[j].Key());
  }

  /** Announced as new are the snapshot's connections whose key is neither known nor seen before, in order. */
  lemma {:induction false} NewsPicks(known: Known, conns: seq<Connection>, n: nat) returns (at: seq<nat>)
    requires n <= |conns|
    ensures Places(at, n) && |at| == |News(known, conns, n)|
    ensures forall i :: 0 <= i < |at| ==> News(known, conns, n)[i] == conns[at[i]]
    ensures forall j :: 0 <= j < n ==> (j in at <==> IsNew(known, conns, j))
  {
    if n == 0 {
      at := [];
    } else {
      at := NewsPicks(known, conns, n - 1);
      PlacesSnoc(at, n);
      NewIsNotAbsorbed(known, conns, n - 1);
      if IsNew(known, conns, n - 1) {
        at := at + [n - 1];
      }
    }
  }

  /**
   A scan's events all bear its time: first a New for each first connection of an unknown key, in snapshot
   order, then a Close for each known connection whose key the snapshot lacks, once each.
   */
  lemma ScanEvents(known: Known, r: ScanRecord) returns (at: seq<nat>)
    requires IsScan(known, r)
    ensures var events, n := EventsOf(known, r), |at|;
            && Places(at, |r.conns|)
            && (forall j :: 0 <= j < |r.conns| ==> (j in at <==> IsNew(known, r.conns, j)))
            && n <= |events|
            && (forall i :: 0 <= i < n ==>
                  events[i] == Event(r.now, NewConnection, r.conns[at[i]]))
            && (forall i :: n <= i < |events| ==> Drops(known, r, events[i]))
            && (forall i, j :: n <= i < j < |events| ==> events[i].conn.Key() != events[j].conn.Key())
            && (forall k :: k in known && k !in KeysOf(r.conns) ==>
                  exists i :: n <= i < |events| && events[i].conn.Key() == k)
  {
    at := NewsPicks(known, r.conns, |r.conns|);
    var events, n := EventsOf(known, r), |at|;
    forall k ensures k in known && k !in KeysOf(r.conns) <==>
                     k in Absorb(known, r.conns, |r.conns|) - KeysOf(r.conns)
    {
      AbsorbAddsFirstOfKey(known, r.conns, |r.conns|, k);
    }
    forall i | n <= i < |events| ensures events[i].conn == r.closed[i - n] && Drops(known, r, events[i]) {
      AbsorbAddsFirstOfKey(known, r.conns, |r.conns|, events[i].conn.Key());
    }
    forall k | k in known && k !in KeysOf(r.conns) ensures exists i :: n <= i < |events| && events[i].conn.Key() == k {
      AbsorbAddsFirstOfKey(known, r.conns, |r.conns|, k);
      var i :| 0 <= i < |r.closed| && r.closed[i].Key() == k;
      assert events[n + i].conn == r.closed[i];
    }
  }

  /** The event closes a known connection that the snapshot lacks. */
  predicate Drops(known: Known, r: ScanRecord, e: Event) {
    var k := e.conn.Key();
    && e == Event(r.now, ConnectionClosed, e.conn)
    && k in known && known[k] == e.conn && forall j :: 0 <= j < |r.conns| ==> r.conns[j].Key() != k
  }

  // ----- Replaying events

  /** The connections that are open after the first n events, if every event is in order. */
  function Replay(start: Known, trace: seq<Event>, n: nat): Option<Known>
    requires n <= |trace|
  {
    if n == 0 then Some(start)
    else
      var e := trace[n - 1];
      match Replay(start, trace, n - 1)
      case None => None
      case Some(open) => Step(open, e)
  }

  /** A New must find its key closed; a Close must find exactly its connection open. */
  function Step(open: Known, e: Event): Option<Known> {
    var k := e.conn.Key();
    match e.kind
    case NewConnection => if k in open then None else Some(open[k := e.conn])
    case ConnectionClosed => if k in open && open[k] == e.conn then Some(open - {k}) else None
  }

  lemma {:induction false} ReplayConcat(start: Known, a: seq<Event>, b: seq<Event>, n: nat)
    requires n <= |b| && Replay(start, a, |a|).Some?
    ensures Replay(start, a + b, |a| + n) == Replay(Replay(start, a, |a|).value, b, n)
  {
    if n == 0 {
      ReplayPrefix(start, a + b, a, |a|);
    } else {
      ReplayConcat(start, a, b, n - 1);
      assert (a + b)[|a| + n - 1] == b[n - 1];
    }
  }

  lemma {:induction false} ReplayPrefix(start: Known, a: seq<Event>, b: seq<Event>, n: nat)
    requires n <= |a| && n <= |b| && forall i :: 0 <= i < n ==> a[i] == b[i]
    ensures Replay(start, a, n) == Replay(start, b, n)
  {
    if n > 0 {
      ReplayPrefix(start, a, b, n - 1);
    }
  }

  lemma {:induction false} NewsReplay(known: Known, conns: seq<Connection>, now: Time, n: nat)
    requires n <= |conns|
    ensures var news := News(known, conns, n);
            Replay(known, Announce(NewConnection, news, now), |news|) == Some(Absorb(known, conns, n))
  {
    if n > 0 {
      var before, after := News(known, conns, n - 1), News(known, conns, n);
      NewsReplay(known, conns, now, n - 1);
      if conns[n - 1].Key() !in Absorb(known, conns, n - 1) {
        assert after == before + [conns[n - 1]];
        ReplayPrefix(known, Announce(NewConnection, after, now), Announce(NewConnection, before, now), |before|);
      }
    }
  }

  lemma {:induction false} ClosesReplay(all: Known, gone: Known, closed: seq<Connection>, now: Time, n: nat)
    requires n <= |closed| && Enumerates(closed, gone)
    requires forall k :: k in gone ==> k in all && all[k] == gone[k]
    ensures Replay(all, Announce(ConnectionClosed, closed, now), n) == Some(all - KeysAmong(closed, n))
  {
    if n == 0 {
      assert all - KeysAmong(closed, 0) == all;
    } else {
      ClosesReplay(all, gone, closed, now, n - 1);
      CloseOneMore(all, gone, closed, n);
    }
  }

  lemma CloseOneMore(all: Known, gone: Known, closed: seq<Connection>, n: nat)
    requires 0 < n <= |closed| && Enumerates(closed, gone)
    requires forall k :: k in gone ==> k in all && all[k] == gone[k]
    ensures var c, open := closed[n - 1], all - KeysAmong(closed, n - 1);
            c.Key() in open && open[c.Key()] == c && open - {c.Key()} == all - KeysAmong(closed, n)
  {
    var k := closed[n - 1].Key();
    assert k !in KeysAmong(closed, n - 1);
    assert KeysAmong(closed, n) == KeysAmong(closed, n - 1) + {k};
    RemoveOneMore(all, KeysAmong(closed, n - 1), k);
  }

  lemma RemoveOneMore(m: Known, ks: set<ConnectionKey>, k: ConnectionKey)
    ensures m - ks - {k} == m - (ks + {k})
  {}

  lemma ReplayThen(start: Known, a: seq<Event>, mid: Known, b: seq<Event>, end: Known)
    requires Replay(start, a, |a|) == Some(mid) && Replay(mid, b, |b|) == Some(end)
    ensures Replay(start, a + b, |a + b|) == Some(end)
  {
    ReplayConcat(start, a, b, |b|);
  }

  lemma ClosedKeys(known: Known, r: ScanRecord)
    requires IsScan(known, r)
    ensures r.after == Absorb(known, r.conns, |r.conns|) - KeysOf(r.closed)
  {
    assert KeysOf(r.closed) == (Absorb(known, r.conns, |r.conns|) - KeysOf(r.conns)).Keys;
  }

  /** Replaying a scan's events on what was known yields what is known after it. */
  lemma ScanReplays(known: Known, r: ScanRecord)
    requires IsScan(known, r)
    ensures Replay(known, EventsOf(known, r), |EventsOf(known, r)|) == Some(r.after)
  {
    var all := Absorb(known, r.conns, |r.conns|);
    NewsReplay(known, r.conns, r.now, |r.conns|);
    ClosesReplay(all, all - KeysOf(r.conns), r.closed, r.now, |r.closed|);
    ClosedKeys(known, r);
    ReplayThen(known, Announce(NewConnection, News(known, r.conns, |r.conns|), r.now), all,
               Announce(ConnectionClosed, r.closed, r.now), r.after);
  }

  // ----- Whole runs

  function KnownBefore(scans: seq<ScanRecord>, i: nat): Known
    requires i <= |scans|
  {
    if i == 0 then map[] else scans[i - 1].after
  }

  /** A run of completed scans of a capturer that starts out knowing nothing. */
  ghost predicate IsRun(scans: seq<ScanRecord>) {
    forall i {:trigger KnownBefore(scans, i)} :: 0 <= i < |scans| ==> IsScan(KnownBefore(scans, i), scans[i])
  }

  /** The events of the first n scans. */
  function Trace(scans: seq<ScanRecord>, n: nat): seq<Event>
    requires n <= |scans|
  {
    if n == 0 then [] else Trace(scans, n - 1) + EventsOf(KnownBefore(scans, n - 1), scans[n - 1])
  }

  /** What replaying what the first n scans emitted leads to. */
  ghost function Rebuilt(scans: seq<ScanRecord>, n: nat): Option<Known>
    requires n <= |scans|
  {
    Replay(map[], Trace(scans, n), |Trace(scans, n)|)
  }

  lemma RebuildsAtStart(scans: seq<ScanRecord>)
    ensures Rebuilt(scans, 0) == Some(KnownBefore(scans, 0))
  {}

  lemma RebuildsOneMore(scans: seq<ScanRecord>, n: nat)
    requires IsRun(scans) && 0 < n <= |scans| && Rebuilt(scans, n - 1) == Some(KnownBefore(scans, n - 1))
    ensures Rebuilt(scans, n) == Some(KnownBefore(scans, n))
  {
    var known, r := KnownBefore(scans, n - 1), scans[n - 1];
    ScanReplays(known, r);
    ReplayThen(map[], Trace(scans, n - 1), known, EventsOf(known, r), r.after);
  }

  /** Replaying the whole trace of a run, from nothing. */
  lemma {:induction false} RunReplays(scans: seq<ScanRecord>, n: nat)
    requires IsRun(scans) && n <= |scans|
    ensures Rebuilt(scans, n) == Some(KnownBefore(scans, n))
  {
    if n == 0 {
      RebuildsAtStart(scans);
    } else {
      RunReplays(scans, n - 1);
      RebuildsOneMore(scans, n);
    }
  }

  lemma {:induction false} PrefixReplays(start: Known, trace: seq<Event>, n: nat, m: nat)
    requires m <= n <= |trace| && Replay(start, trace, n).Some?
    ensures Replay(start, trace, m).Some?
  {
    if m < n {
      PrefixReplays(start, trace, n - 1, m);
    }
  }

  /** The events of one key among the first n. */
  function KeyEvents(trace: seq<Event>, n: nat, k: ConnectionKey): seq<Event>
    requires n <= |trace|
  {
    if n == 0 then []
    else
      var before := KeyEvents(trace, n - 1, k);
      if trace[n - 1].conn.Key() == k then before + [trace[n - 1]] else before
  }

  /** New, Close, New, ...; every Close carries the connection of the New before it. */
  predicate Alternates(es: seq<Event>) {
    forall i :: 0 <= i < |es| ==> AlternatesAt(es, i)
  }

  predicate AlternatesAt(es: seq<Event>, i: nat)
    requires i < |es|
  {
    if i % 2 == 0 then es[i].kind == NewConnection
    else es[i].kind == ConnectionClosed && es[i].conn == es[i - 1].conn
  }

  /** A key is open after an odd number of events, with the connection of the last one. */
  ghost predicate OpenAfter(open: Known, es: seq<Event>, k: ConnectionKey) {
    && (k in open <==> |es| % 2 == 1)
    && (k in open ==> open[k] == es[|es| - 1].conn)
  }

  /** e may follow es. */
  predicate Continues(es: seq<Event>, e: Event) {
    if |es| % 2 == 0 then e.kind == NewConnection
    else e.kind == ConnectionClosed && e.conn == es[|es| - 1].conn
  }

  lemma AlternatesSnoc(es: seq<Event>, e: Event)
    ensures Alternates(es + [e]) <==> Alternates(es) && Continues(es, e)
  {
    var longer := es + [e];
    assert longer[|es|] == e;
    assert forall i :: 0 <= i < |es| ==> es[i] == longer[i];
    if Alternates(longer) {
      forall i | 0 <= i < |es| ensures AlternatesAt(es, i) {
        assert AlternatesAt(longer, i);
      }
      assert AlternatesAt(longer, |es|);
    }
    if Alternates(es) && Continues(es, e) {
      forall i | 0 <= i < |longer| ensures AlternatesAt(longer, i) {
        assert i < |es| ==> AlternatesAt(es, i);
      }
    }
  }

  /** A trace that replays from nothing alternates for every key. */
  lemma {:induction false} ReplayMeansAlternation(trace: seq<Event>, n: nat, k: ConnectionKey)
    requires n <= |trace| && Replay(map[], trace, n).Some?
    ensures Alternates(KeyEvents(trace, n, k))
    ensures OpenAfter(Replay(map[], trace, n).value, KeyEvents(trace, n, k), k)
  {
    if n > 0 {
      ReplayMeansAlternation(trace, n - 1, k);
      if trace[n - 1].conn.Key() == k {
        AlternatesSnoc(KeyEvents(trace, n - 1, k), trace[n - 1]);
      }
    }
  }

  ghost predicate EveryKeyAlternates(trace: seq<Event>, n: nat)
    requires n <= |trace|
  {
    forall k {:trigger KeyEvents(trace, n, k)} :: Alternates(KeyEvents(trace, n, k))
  }

  lemma AlternationOfPrefix(trace: seq<Event>, n: nat)
    requires 0 < n <= |trace| && EveryKeyAlternates(trace, n)
    ensures EveryKeyAlternates(trace, n - 1)
  {
    forall k: ConnectionKey {:trigger KeyEvents(trace, n - 1, k)} ensures Alternates(KeyEvents(trace, n - 1, k)) {
      assert Alternates(KeyEvents(trace, n, k));
      if trace[n - 1].conn.Key() == k {
        AlternatesSnoc(KeyEvents(trace, n - 1, k), trace[n - 1]);
      }
    }
  }

  /** Conversely, if every key alternates then the trace replays: the protocol is exactly this. */
  lemma {:induction false} AlternationMeansReplay(trace: seq<Event>, n: nat)
    requires n <= |trace| && EveryKeyAlternates(trace, n)
    ensures Replay(map[], trace, n).Some?
  {
    if n > 0 {
      var e := trace[n - 1];
      var k := e.conn.Key();
      AlternationOfPrefix(trace, n);
      AlternationMeansReplay(trace, n - 1);
      ReplayMeansAlternation(trace, n - 1, k);
      assert Alternates(KeyEvents(trace, n, k));
      AlternatesSnoc(KeyEvents(trace, n - 1, k), e);
    }
  }

  /** Every prefix of a run's trace keeps the protocol, for every key. */
  lemma RunKeepsProtocol(scans: seq<ScanRecord>, n: nat, m: nat, k: ConnectionKey)
    requires IsRun(scans) && n <= |scans| && m <= |Trace(scans, n)|
    ensures Alternates(KeyEvents(Trace(scans, n), m, k))
    ensures m == |Trace(scans, n)| ==> OpenAfter(KnownBefore(scans, n), KeyEvents(Trace(scans, n), m, k), k)
  {
    RunReplays(scans, n);
    PrefixReplays(map[], Trace(scans, n), |Trace(scans, n)|, m);
    ReplayMeansAlternation(Trace(scans, n), m, k);
  }

  function Count(trace: seq<Event>, n: nat, kind: EventType): nat
    requires n <= |trace|
  {
    if n == 0 then 0 else Count(trace, n - 1, kind) + if trace[n - 1].kind == kind then 1 else 0
  }

  /** What is open is what was announced less what was closed. */
  lemma {:induction false} OpenIsNewsLessCloses(trace: seq<Event>, n: nat)
    requires n <= |trace| && Replay(map[], trace, n).Some?
    ensures |Replay(map[], trace, n).value| == Count(trace, n, NewConnection) - Count(trace, n, ConnectionClosed)
  {
    if n > 0 {
      OpenIsNewsLessCloses(trace, n - 1);
      var open, e := Replay(map[], trace, n - 1).value, trace[n - 1];
      if e.kind == ConnectionClosed {
        assert open.Keys == (open - {e.conn.Key()}).Keys + {e.conn.Key()};
      }
    }
  }

  // ----- The detector's premise

  predicate Ordered(events: seq<Event>) {
    forall i, j :: 0 <= i < j < |events| ==> events[i].timestamp <= events[j].timestamp
  }

  predicate NoneLaterThan(events: seq<Event>, t: Time) {
    forall i :: 0 <= i < |events| ==> events[i].timestamp <= t
  }

  lemma OrderedConcat(a: seq<Event>, b: seq<Event>, t: Time)
    requires Ordered(a) && NoneLaterThan(a, t) && forall i :: 0 <= i < |b| ==> b[i].timestamp == t
    ensures Ordered(a + b) && NoneLaterThan(a + b, t)
  {}

  /** The clock never runs backwards between scans. */
  predicate ClockAscends(scans: seq<ScanRecord>) {
    forall i, j :: 0 <= i < j < |scans| ==> scans[i].now <= scans[j].now
  }

  /** If the clock never runs backwards between scans, the trace's timestamps never decrease. */
  lemma {:induction false} TraceIsOrdered(scans: seq<ScanRecord>, n: nat)
    requires n <= |scans| && ClockAscends(scans)
    ensures Ordered(Trace(scans, n))
    ensures n > 0 ==> NoneLaterThan(Trace(scans, n), scans[n - 1].now)
  {
    if n > 0 {
      TraceIsOrdered(scans, n - 1);
      OrderedConcat(Trace(scans, n - 1), EventsOf(KnownBefore(scans, n - 1), scans[n - 1]), scans[n - 1].now);
    }
  }
}
