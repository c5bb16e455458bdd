/**
 The display's alert log as a function of the events it was sent. An event that is not shown because
 its connection is in TIME_WAIT leaves the handler early, and its alerts with it.
 */
module AlertLog {
  import opened Types
  import opened Mirror

  /** Alerts pushed one by one, the log trimmed after each. */
  function PushEach<A>(log: seq<A>, alerts: seq<A>, n: nat, cap: nat): seq<A>
    requires n <= |alerts|
  {
    if n == 0 then log else LastN(PushEach(log, alerts, n - 1, cap) + [alerts[n - 1]], cap)
  }

  /** The handler returns before the alerts are looked at. */
  predicate Skipped(setting: Setting, e: Event) {
    e.kind == NewConnection && Hidden(setting, e.conn)
  }

  /** What one event that carries alerts does to the log. */
  function Note<A>(log: seq<A>, cap: nat, setting: Setting, e: Event, alerts: seq<A>): seq<A> {
    if Skipped(setting, e) then log else PushEach(log, alerts, |alerts|, cap)
  }

  /** The log after the first n events; batches[i] are the alerts that event i carries. */
  function Log<A>(trace: seq<Event>, settings: seq<Setting>, batches: seq<seq<A>>, cap: nat, n: nat): seq<A>
    requires n <= |trace| == |settings| == |batches|
  {
    if n == 0 then []
    else Note(Log(trace, settings, batches, cap, n - 1), cap, settings[n - 1], trace[n - 1], batches[n - 1])
  }

  /** All alerts delivered with the first n events. */
  function Delivered<A>(batches: seq<seq<A>>, n: nat): seq<A>
    requires n <= |batches|
  {
    if n == 0 then [] else Delivered(batches, n - 1) + batches[n - 1]
  }

  /** Those delivered with an event that was not skipped. */
  function Noted<A>(trace: seq<Event>, settings: seq<Setting>, batches: seq<seq<A>>, n: nat): seq<A>
    requires n <= |trace| == |settings| == |batches|
  {
    if n == 0 then []
    else
      var before := Noted(trace, settings, batches, n - 1);
      if Skipped(settings[n - 1], trace[n - 1]) then before else before + batches[n - 1]
  }

  lemma {:induction false} PushEachIsLast<A>(log: seq<A>, alerts: seq<A>, n: nat, cap: nat)
    requires n <= |alerts| && |log| <= cap
    ensures PushEach(log, alerts, n, cap) == LastN(log + alerts[..n], cap)
  {
    if n == 0 {
      assert log + alerts[..0] == log;
    } else {
      PushEachIsLast(log, alerts, n - 1, cap);
      LastNAgain(log + alerts[..n - 1], [alerts[n - 1]], cap);
      assert log + alerts[..n] == log + alerts[..n - 1] + [alerts[n - 1]];
    }
  }

  lemma PushingAppends<A>(log: seq<A>, alerts: seq<A>, cap: nat)
    requires |log| <= cap
    ensures PushEach(log, alerts, |alerts|, cap) == LastN(log + alerts, cap)
  {
    PushEachIsLast(log, alerts, |alerts|, cap);
    assert alerts[..|alerts|] == alerts;
  }

  /** The log is always the newest cap alerts of the events that were not skipped, in order. */
  lemma {:induction false} LogIsNewestNoted<A>(
      trace: seq<Event>, settings: seq<Setting>, batches: seq<seq<A>>, cap: nat, n: nat)
    requires n <= |trace| == |settings| == |batches|
    ensures Log(trace, settings, batches, cap, n) == LastN(Noted(trace, settings, batches, n), cap)
  {
    if n > 0 {
      LogIsNewestNoted(trace, settings, batches, cap, n - 1);
      if !Skipped(settings[n - 1], trace[n - 1]) {
        var noted, batch := Noted(trace, settings, batches, n - 1), batches[n - 1];
        PushingAppends(LastN(noted, cap), batch, cap);
        LastNAgain(noted, batch, cap);
      }
    }
  }

  ghost predicate NoneLost<A>(trace: seq<Event>, settings: seq<Setting>, batches: seq<seq<A>>, n: nat)
    requires n <= |trace| == |settings| == |batches|
  {
    forall i :: 0 <= i < n ==>
      trace[i].kind == NewConnection && trace[i].conn.state == 6 && !settings[i].showTimeWait ==> batches[i] == []
  }

  lemma {:induction false} NotedIsPart<A>(trace: seq<Event>, settings: seq<Setting>, batches: seq<seq<A>>, n: nat)
    requires n <= |trace| == |settings| == |batches|
    ensures |Noted(trace, settings, batches, n)| <= |Delivered(batches, n)|
    ensures |Noted(trace, settings, batches, n)| == |Delivered(batches, n)| <==> NoneLost(trace, settings, batches, n)
    ensures NoneLost(trace, settings, batches, n) ==> Noted(trace, settings, batches, n) == Delivered(batches, n)
  {
    if n > 0 {
      NotedIsPart(trace, settings, batches, n - 1);
      assert NoneLost(trace, settings, batches, n) <==>
             NoneLost(trace, settings, batches, n - 1) &&
             (Skipped(settings[n - 1], trace[n - 1]) ==> batches[n - 1] == []);
    }
  }

  /** Every delivered alert is noted exactly when no skipped event carries one. */
  lemma NotedIsDeliveredIff<A>(trace: seq<Event>, settings: seq<Setting>, batches: seq<seq<A>>, n: nat)
    requires n <= |trace| == |settings| == |batches|
    ensures Noted(trace, settings, batches, n) == Delivered(batches, n) <==> NoneLost(trace, settings, batches, n)
  {
    NotedIsPart(trace, settings, batches, n);
  }

  /** The log is the newest cap alerts ever delivered, provided no skipped event carries one. */
  lemma LogIsNewestDelivered<A>(
      trace: seq<Event>, settings: seq<Setting>, batches: seq<seq<A>>, cap: nat, n: nat)
    requires n <= |trace| == |settings| == |batches| && NoneLost(trace, settings, batches, n)
    ensures Log(trace, settings, batches, cap, n) == LastN(Delivered(batches, n), cap)
  {
    LogIsNewestNoted(trace, settings, batches, cap, n);
    NotedIsPart(trace, settings, batches, n);
  }

  ghost predicate Distinct<A>(s: seq<A>) {
    forall i, j :: 0 <= i < j < |s| ==> s[i] != s[j]
  }

  /** After each of the first n events the log is the newest cap alerts delivered so far. */
  ghost predicate MirrorsDeliveries<A>(
      trace: seq<Event>, settings: seq<Setting>, batches: seq<seq<A>>, cap: nat, n: nat)
    requires n <= |trace| == |settings| == |batches|
  {
    forall m :: 0 <= m <= n ==> LogIsUpToDate(trace, settings, batches, cap, m)
  }

  ghost predicate LogIsUpToDate<A>(trace: seq<Event>, settings: seq<Setting>, batches: seq<seq<A>>, cap: nat, m: nat)
    requires m <= |trace| == |settings| == |batches|
  {
    Log(trace, settings, batches, cap, m) == LastN(Delivered(batches, m), cap)
  }

  lemma {:induction false} DeliveredGrows<A>(batches: seq<seq<A>>, m: nat, n: nat)
    requires m <= n <= |batches|
    ensures Delivered(batches, m) <= Delivered(batches, n)
  {
    if m < n {
      DeliveredGrows(batches, m, n - 1);
    }
  }

  /** Something new at the end shows among the last n. */
  lemma NewAlertShows<A>(s: seq<A>, t: seq<A>, n: nat)
    requires n > 0 && t != [] && Distinct(s + t)
    ensures LastN(s + t, n) != LastN(s, n)
  {
    var all, before, after := s + t, LastN(s, n), LastN(s + t, n);
    var x := t[|t| - 1];
    assert all[|all| - 1] == x && after[|after| - 1] == x;
    assert s != [] ==> before[|before| - 1] == s[|s| - 1] == all[|s| - 1] != all[|all| - 1];
  }

  lemma SkippedAlertIsMissing<A>(
      trace: seq<Event>, settings: seq<Setting>, batches: seq<seq<A>>, cap: nat, n: nat, i: nat)
    requires i < n <= |trace| == |settings| == |batches| && cap > 0 && Distinct(Delivered(batches, n))
    requires Skipped(settings[i], trace[i]) && batches[i] != [] && LogIsUpToDate(trace, settings, batches, cap, i)
    ensures !LogIsUpToDate(trace, settings, batches, cap, i + 1)
  {
    DeliveredGrows(batches, i + 1, n);
    NewAlertShows(Delivered(batches, i), batches[i], cap);
  }

  /**
   Over a whole run the log is always the newest cap alerts ever delivered if and only if no skipped
   event carries one; no alert is delivered twice.
   */
  lemma LogMirrorsDeliveriesIff<A>(
      trace: seq<Event>, settings: seq<Setting>, batches: seq<seq<A>>, cap: nat, n: nat)
    requires n <= |trace| == |settings| == |batches| && cap > 0 && Distinct(Delivered(batches, n))
    ensures MirrorsDeliveries(trace, settings, batches, cap, n) <==> NoneLost(trace, settings, batches, n)
  {
    if NoneLost(trace, settings, batches, n) {
      forall m | 0 <= m <= n ensures LogIsUpToDate(trace, settings, batches, cap, m) {
        LogIsNewestDelivered(trace, settings, batches, cap, m);
      }
    }
    if MirrorsDeliveries(trace, settings, batches, cap, n) {
      forall i | 0 <= i < n && Skipped(settings[i], trace[i]) ensures batches[i] == [] {
        assert LogIsUpToDate(trace, settings, batches, cap, i) && LogIsUpToDate(trace, settings, batches, cap, i + 1);
        if batches[i] != [] {
          SkippedAlertIsMissing(trace, settings, batches, cap, n, i);
        }
      }
    }
  }

  /**
   The condition is exact: an event's handling appends its alerts, whatever the log holds, if and only
   if the event is a close or is shown, or carries none.
   */
  lemma NoteAppendsIff<A(!new)>(cap: nat, setting: Setting, e: Event, alerts: seq<A>)
    requires cap > 0
    ensures (forall log: seq<A> :: |log| <= cap ==> Note(log, cap, setting, e, alerts) == LastN(log + alerts, cap))
            <==> e.kind == ConnectionClosed || setting.showTimeWait || e.conn.state != 6 || alerts == []
  {
    if !Skipped(setting, e) {
      forall log: seq<A> | |log| <= cap ensures Note(log, cap, setting, e, alerts) == LastN(log + alerts, cap) {
        PushingAppends(log, alerts, cap);
      }
    } else if alerts == [] {
      assert forall log: seq<A> :: log + alerts == log;
    } else {
      var none: seq<A> := [];
      assert Note(none, cap, setting, e, alerts) == none && LastN(none + alerts, cap) != none;
    }
  }

  /** With the default settings, a connection first seen in TIME_WAIT loses its alert. */
  lemma HiddenAlertIsLost<A>(c: Connection, now: Time, a: A)
    requires c.state == 6
    ensures var e, setting := Event(now, NewConnection, c), Setting(false, false);
            Log([e], [setting], [[a]], 100, 1) == [] && LastN(Delivered([[a]], 1), 100) == [a]
  {
    assert Delivered([[a]], 1) == [a];
  }
}
