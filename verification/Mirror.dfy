/**
 The terminal display's list of connections as a function of the events it was sent, and how it
 relates to what the capturer knows. closed connections are removed (keep is off) in the theorems.
 */
module Mirror {
  import opened Types
  import opened Scan

  /** The last n elements of s, or all of it. */
  function LastN<T>(s: seq<T>, n: nat): seq<T> {
    if |s| > n then s[|s| - n..] else s
  }

  /** Trimming as one goes along keeps what trimming once at the end keeps. */
  lemma LastNAgain<T>(s: seq<T>, t: seq<T>, n: nat)
    ensures LastN(LastN(s, n) + t, n) == LastN(s + t, n)
  {
    if |s| > n {
      assert LastN(s, n) + t == (s + t)[|s| - n..];
    }
  }

  /** The position of the first connection with key k at or after i; the length if there is none. */
  function Find(list: seq<Connection>, k: ConnectionKey, i: nat): (at: nat)
    requires i <= |list|
    ensures i <= at <= |list|
    ensures at < |list| ==> list[at].Key() == k
    ensures forall j :: i <= j < at ==> list[j].Key() != k
    decreases |list| - i
  {
    if i == |list| || list[i].Key() == k then i else Find(list, k, i + 1)
  }

  function RemoveFirst(list: seq<Connection>, k: ConnectionKey): seq<Connection> {
    Without(list, Find(list, k, 0))
  }

  function Without(list: seq<Connection>, i: nat): seq<Connection>
    requires i <= |list|
  {
    if i == |list| then list else list[..i] + list[i + 1..]
  }

  /** The name that a close event brings, or the row's own if it brings none. */
  function LaterName(c: Connection, row: Connection): string {
    if c.processName != "" then c.processName else row.processName
  }

  /** With keep, the row stays and is marked closed. */
  function MarkClosed(list: seq<Connection>, c: Connection): seq<Connection> {
    var i := Find(list, c.Key(), 0);
    if i == |list| then list
    else
      list[i := list[i].(state := STATE_CLOSE, processName := LaterName(c, list[i]))]
  }

  /** How the display is set when an event arrives. */
  datatype Setting = Setting(showTimeWait: bool, keep: bool)

  predicate Hidden(setting: Setting, c: Connection) {
    !setting.showTimeWait && c.state == STATE_TIME_WAIT
  }

  /** One event on a list of at most cap rows. */
  function Apply(list: seq<Connection>, cap: nat, setting: Setting, e: Event): seq<Connection> {
    match e.kind
    case NewConnection => if Hidden(setting, e.conn) then list else LastN(list + [e.conn], cap)
    case ConnectionClosed => if setting.keep then MarkClosed(list, e.conn) else RemoveFirst(list, e.conn.Key())
  }

  predicate FirstAt(rows: seq<Connection>, i: nat, k: ConnectionKey) {
    i < |rows| && rows[i].Key() == k && forall j :: 0 <= j < i ==> rows[j].Key() != k
  }

  /** A new connection goes behind the others and may push out the first; hidden ones change nothing. */
  lemma NewGoesLast(list: seq<Connection>, cap: nat, setting: Setting, e: Event)
    requires e.kind == NewConnection && |list| <= cap
    ensures Apply(list, cap, setting, e)
            == if e.conn.state == 6 && !setting.showTimeWait then list
               else if |list| == cap then (list + [e.conn])[1..] else list + [e.conn]
  {}

  /** A close removes the first row with its key, or with keep marks it; without such a row it changes nothing. */
  lemma CloseTakesFirst(list: seq<Connection>, cap: nat, setting: Setting, e: Event, i: nat)
    requires e.kind == ConnectionClosed
    ensures !HasRow(list, e.conn.Key()) ==> Apply(list, cap, setting, e) == list
    ensures FirstAt(list, i, e.conn.Key()) && !setting.keep ==>
              Apply(list, cap, setting, e) == list[..i] + list[i + 1..]
    ensures FirstAt(list, i, e.conn.Key()) && setting.keep ==>
              Apply(list, cap, setting, e)
              == list[i := list[i].(state := 7,
                                    processName := if e.conn.processName == "" then list[i].processName
                                                   else e.conn.processName)]
  {
    var at := Find(list, e.conn.Key(), 0);
    assert at < |list| ==> HasRow(list, e.conn.Key());
    assert FirstAt(list, i, e.conn.Key()) ==> at == i;
  }

  /** The list after the first n events; settings[i] is in force when event i arrives. */
  function Rows(trace: seq<Event>, settings: seq<Setting>, cap: nat, n: nat): seq<Connection>
    requires n <= |trace| == |settings|
  {
    if n == 0 then [] else Apply(Rows(trace, settings, cap, n - 1), cap, settings[n - 1], trace[n - 1])
  }

  /** The same list without a cap. */
  function AllRows(trace: seq<Event>, settings: seq<Setting>, n: nat): seq<Connection>
    requires n <= |trace| == |settings|
  {
    if n == 0 then []
    else
      var before, e := AllRows(trace, settings, n - 1), trace[n - 1];
      match e.kind
      case NewConnection => if Hidden(settings[n - 1], e.conn) then before else before + [e.conn]
      case ConnectionClosed => RemoveFirst(before, e.conn.Key())
  }

  ghost predicate DistinctKeys(list: seq<Connection>) {
    forall i, j :: 0 <= i < j < |list| ==> list[i].Key() != list[j].Key()
  }

  ghost predicate RowsOf(list: seq<Connection>, open: Known) {
    forall i :: 0 <= i < |list| ==> list[i].Key() in open && open[list[i].Key()] == list[i]
  }

  predicate HasRow(list: seq<Connection>, k: ConnectionKey) {
    exists i :: 0 <= i < |list| && list[i].Key() == k
  }

  predicate NeverKeeps(settings: seq<Setting>) {
    forall i :: 0 <= i < |settings| ==> !settings[i].keep
  }

  predicate AlwaysShows(settings: seq<Setting>, show: bool) {
    forall i :: 0 <= i < |settings| ==> settings[i].showTimeWait == show
  }

  lemma RemoveFirstDrops(list: seq<Connection>, k: ConnectionKey, l: ConnectionKey)
    requires DistinctKeys(list)
    ensures HasRow(RemoveFirst(list, k), l) <==> HasRow(list, l) && l != k
  {
    var at, rest := Find(list, k, 0), RemoveFirst(list, k);
    assert forall i :: 0 <= i < |rest| ==> rest[i] == list[if i < at then i else i + 1];
    if HasRow(list, l) && l != k {
      var i :| 0 <= i < |list| && list[i].Key() == l;
      assert rest[if i < at then i else i - 1].Key() == l;
    }
  }

  lemma RemoveFirstKeepsRowsOpen(list: seq<Connection>, open: Known, k: ConnectionKey)
    requires DistinctKeys(list) && RowsOf(list, open)
    ensures DistinctKeys(RemoveFirst(list, k)) && RowsOf(RemoveFirst(list, k), open - {k})
  {
    var at, rest := Find(list, k, 0), RemoveFirst(list, k);
    assert forall i :: 0 <= i < |rest| ==> rest[i] == list[if i < at then i else i + 1];
    assert forall i :: 0 <= i < |rest| ==> rest[i].Key() != k;
  }

  lemma AppendKeepsRowsOpen(list: seq<Connection>, open: Known, c: Connection)
    requires DistinctKeys(list) && RowsOf(list, open) && c.Key() !in open
    ensures DistinctKeys(list + [c]) && RowsOf(list + [c], open[c.Key() := c])
  {
    var longer := list + [c];
    assert longer[|list|] == c;
    assert forall i :: 0 <= i < |list| ==> longer[i] == list[i];
  }

  lemma AppendAdds(list: seq<Connection>, c: Connection, l: ConnectionKey)
    ensures HasRow(list + [c], l) <==> HasRow(list, l) || l == c.Key()
  {
    var longer := list + [c];
    assert longer[|list|] == c;
    if HasRow(list, l) {
      var i :| 0 <= i < |list| && list[i].Key() == l;
      assert longer[i].Key() == l;
    }
  }

  /** The uncapped list never shows a key twice, and each row is what is open under its key. */
  lemma {:induction false} AllRowsAreOpen(trace: seq<Event>, settings: seq<Setting>, n: nat)
    requires n <= |trace| == |settings| && Replay(map[], trace, n).Some?
    ensures DistinctKeys(AllRows(trace, settings, n))
    ensures RowsOf(AllRows(trace, settings, n), Replay(map[], trace, n).value)
  {
    if n > 0 {
      AllRowsAreOpen(trace, settings, n - 1);
      var before, open, c := AllRows(trace, settings, n - 1), Replay(map[], trace, n - 1).value, trace[n - 1].conn;
      if trace[n - 1].kind == NewConnection {
        AppendKeepsRowsOpen(before, open, c);
      } else {
        RemoveFirstKeepsRowsOpen(before, open, c.Key());
      }
    }
  }

  /**
   With the TIME_WAIT switch left alone, the uncapped list has exactly the open keys, less those whose
   connection was in TIME_WAIT when it appeared if these are not shown.
   */
  lemma {:induction false} AllRowsAreAllOpen(
      trace: seq<Event>, settings: seq<Setting>, show: bool, n: nat, k: ConnectionKey)
    requires n <= |trace| == |settings| && Replay(map[], trace, n).Some? && AlwaysShows(settings, show)
    ensures var open := Replay(map[], trace, n).value;
            HasRow(AllRows(trace, settings, n), k) <==> k in open && (show || open[k].state != 6)
  {
    if n > 0 {
      AllRowsAreAllOpen(trace, settings, show, n - 1, k);
      AllRowsAreOpen(trace, settings, n - 1);
      AppendAdds(AllRows(trace, settings, n - 1), trace[n - 1].conn, k);
      RemoveFirstDrops(AllRows(trace, settings, n - 1), trace[n - 1].conn.Key(), k);
    }
  }

  // ----- The cap

  ghost predicate IsSuffix(short: seq<Connection>, long: seq<Connection>) {
    |short| <= |long| && short == long[|long| - |short|..]
  }

  lemma SuffixAppend(short: seq<Connection>, long: seq<Connection>, c: Connection, cap: nat)
    requires IsSuffix(short, long)
    ensures IsSuffix(LastN(short + [c], cap), long + [c])
  {
    assert short + [c] == (long + [c])[|long| - |short|..];
  }

  lemma FindInSuffix(short: seq<Connection>, long: seq<Connection>, k: ConnectionKey)
    requires IsSuffix(short, long) && DistinctKeys(long)
    ensures var d, i := |long| - |short|, Find(long, k, 0);
            Find(short, k, 0) == if i < d then |short| else i - d
  {
    var d, i := |long| - |short|, Find(long, k, 0);
    assert forall l :: 0 <= l < |short| ==> short[l] == long[d + l];
    if i < d {
      assert forall l :: 0 <= l < |short| ==> short[l].Key() != k;
    } else {
      assert i < |long| ==> short[i - d].Key() == k;
      assert forall l :: 0 <= l < i - d ==> short[l].Key() != k;
    }
  }

  lemma SuffixRemove(short: seq<Connection>, long: seq<Connection>, k: ConnectionKey)
    requires IsSuffix(short, long) && DistinctKeys(long)
    ensures IsSuffix(RemoveFirst(short, k), RemoveFirst(long, k))
  {
    FindInSuffix(short, long, k);
    DropInSuffix(short, long, Find(short, k, 0), Find(long, k, 0));
  }

  /** A suffix stays one when the same element is left out of both, or one in front of it. */
  lemma DropInSuffix(short: seq<Connection>, long: seq<Connection>, at: nat, i: nat)
    requires IsSuffix(short, long) && i <= |long|
    requires at == if i < |long| - |short| then |short| else i - (|long| - |short|)
    ensures IsSuffix(Without(short, at), Without(long, i))
  {
    var d := |long| - |short|;
    if i < d {
      assert Without(long, i)[d - 1..] == long[d..];
    } else if i < |long| {
      assert Without(long, i)[d..] == long[d..i] + long[i + 1..];
      assert short[..at] == long[d..i] && short[at + 1..] == long[i + 1..];
    }
  }

  /** The displayed list is always the newest part of the uncapped one. */
  lemma {:induction false} RowsAreNewest(trace: seq<Event>, settings: seq<Setting>, cap: nat, n: nat)
    requires n <= |trace| == |settings| && NeverKeeps(settings) && Replay(map[], trace, n).Some?
    ensures IsSuffix(Rows(trace, settings, cap, n), AllRows(trace, settings, n))
    ensures |Rows(trace, settings, cap, n)| <= cap
  {
    if n > 0 {
      RowsAreNewest(trace, settings, cap, n - 1);
      AllRowsAreOpen(trace, settings, n - 1);
      var short, long := Rows(trace, settings, cap, n - 1), AllRows(trace, settings, n - 1);
      if trace[n - 1].kind == NewConnection {
        SuffixAppend(short, long, trace[n - 1].conn, cap);
      } else {
        SuffixRemove(short, long, trace[n - 1].conn.Key());
      }
    }
  }

  /** No more than cap connections are open at any time. */
  ghost predicate FitsCap(trace: seq<Event>, cap: nat, n: nat)
    requires n <= |trace|
  {
    forall m :: 0 <= m <= n ==> match Replay(map[], trace, m) case Some(open) => |open| <= cap case None => true
  }

  lemma {:induction false} DistinctRowsFit(list: seq<Connection>, open: Known)
    requires DistinctKeys(list) && RowsOf(list, open)
    ensures |list| <= |open|
  {
    if list != [] {
      var n := |list| - 1;
      var k := list[n].Key();
      DistinctRowsFit(list[..n], open - {k});
      assert open.Keys == (open - {k}).Keys + {k};
    }
  }

  /** While the open connections fit, the cap drops nothing. */
  lemma {:induction false} RowsAreAllRows(trace: seq<Event>, settings: seq<Setting>, cap: nat, n: nat)
    requires n <= |trace| == |settings| && NeverKeeps(settings) && Replay(map[], trace, n).Some?
    requires FitsCap(trace, cap, n)
    ensures Rows(trace, settings, cap, n) == AllRows(trace, settings, n)
  {
    if n > 0 {
      RowsAreAllRows(trace, settings, cap, n - 1);
      AllRowsAreOpen(trace, settings, n);
      DistinctRowsFit(AllRows(trace, settings, n), Replay(map[], trace, n).value);
    }
  }

  lemma SuffixOfRows(short: seq<Connection>, long: seq<Connection>, open: Known)
    requires IsSuffix(short, long) && DistinctKeys(long) && RowsOf(long, open)
    ensures DistinctKeys(short) && RowsOf(short, open)
  {
    assert forall i :: 0 <= i < |short| ==> short[i] == long[|long| - |short| + i];
  }

  // ----- With keep, closed rows stay

  function KeyList(list: seq<Connection>): (ks: seq<ConnectionKey>)
    ensures |ks| == |list| && forall i :: 0 <= i < |list| ==> ks[i] == list[i].Key()
  {
    seq(|list|, i requires 0 <= i < |list| => list[i].Key())
  }

  /** The keys of the shown New events among the first n. */
  function ShownKeys(trace: seq<Event>, settings: seq<Setting>, n: nat): seq<ConnectionKey>
    requires n <= |trace| == |settings|
  {
    if n == 0 then []
    else
      ShowKey(ShownKeys(trace, settings, n - 1), settings[n - 1], trace[n - 1])
  }

  function ShowKey(shown: seq<ConnectionKey>, setting: Setting, e: Event): seq<ConnectionKey> {
    if e.kind == NewConnection && !Hidden(setting, e.conn) then shown + [e.conn.Key()] else shown
  }

  lemma KeysOfAppended(list: seq<Connection>, c: Connection, cap: nat)
    ensures KeyList(LastN(list + [c], cap)) == LastN(KeyList(list) + [c.Key()], cap)
  {}

  /** Marking changes the first row with the key only, and of that row no part of the key. */
  lemma MarkClosedKeepsKeys(list: seq<Connection>, c: Connection)
    ensures KeyList(MarkClosed(list, c)) == KeyList(list)
    ensures var at := Find(list, c.Key(), 0);
            && (forall i :: 0 <= i < |list| && i != at ==> MarkClosed(list, c)[i] == list[i])
            && (at < |list| ==>
                  MarkClosed(list, c)[at]
                  == list[at].(state := 7,
                               processName := if c.processName == "" then list[at].processName else c.processName))
  {}

  lemma ApplyKeepsShown(list: seq<Connection>, cap: nat, setting: Setting, e: Event, shown: seq<ConnectionKey>)
    requires setting.keep && KeyList(list) == LastN(shown, cap)
    ensures KeyList(Apply(list, cap, setting, e)) == LastN(ShowKey(shown, setting, e), cap)
  {
    if e.kind == ConnectionClosed {
      MarkClosedKeepsKeys(list, e.conn);
    } else {
      KeysOfAppended(list, e.conn, cap);
      LastNAgain(shown, [e.conn.Key()], cap);
    }
  }

  /** With keep throughout, the rows are those of the newest cap connections that were shown, closed or not. */
  lemma {:induction false} KeptRowsAreNewestShown(trace: seq<Event>, settings: seq<Setting>, cap: nat, n: nat)
    requires n <= |trace| == |settings| && forall i :: 0 <= i < |settings| ==> settings[i].keep
    ensures KeyList(Rows(trace, settings, cap, n)) == LastN(ShownKeys(trace, settings, n), cap)
  {
    if n > 0 {
      KeptRowsAreNewestShown(trace, settings, cap, n - 1);
      var rows, shown := Rows(trace, settings, cap, n - 1), ShownKeys(trace, settings, n - 1);
      ApplyKeepsShown(rows, cap, settings[n - 1], trace[n - 1], shown);
    }
  }

  // ----- The display behind a capturer

  /**
   After each completed scan, and whatever was toggled on the way, the list shows no key twice, has at
   most cap rows, and each row is the connection the capturer knows under its key.
   */
  lemma DisplayMirrorsCapturer(scans: seq<ScanRecord>, n: nat, settings: seq<Setting>, cap: nat)
    requires IsRun(scans) && n <= |scans| && |settings| == |Trace(scans, n)| && NeverKeeps(settings)
    ensures var rows := Rows(Trace(scans, n), settings, cap, |settings|);
            |rows| <= cap && DistinctKeys(rows) && RowsOf(rows, KnownBefore(scans, n))
  {
    var trace := Trace(scans, n);
    RunReplays(scans, n);
    RowsAreNewest(trace, settings, cap, |trace|);
    AllRowsAreOpen(trace, settings, |trace|);
    SuffixOfRows(Rows(trace, settings, cap, |trace|), AllRows(trace, settings, |trace|), KnownBefore(scans, n));
  }

  /** With TIME_WAIT shown throughout and the cap never exceeded, the list has exactly the known keys. */
  lemma DisplayShowsAllKnown(scans: seq<ScanRecord>, n: nat, settings: seq<Setting>, cap: nat, k: ConnectionKey)
    requires IsRun(scans) && n <= |scans| && |settings| == |Trace(scans, n)| && NeverKeeps(settings)
    requires AlwaysShows(settings, true) && FitsCap(Trace(scans, n), cap, |settings|)
    ensures HasRow(Rows(Trace(scans, n), settings, cap, |settings|), k) <==> k in KnownBefore(scans, n)
  {
    var trace := Trace(scans, n);
    RunReplays(scans, n);
    RowsAreAllRows(trace, settings, cap, |trace|);
    AllRowsAreAllOpen(trace, settings, true, |trace|, k);
  }
}
