/** The terminal display: a bounded list, a bounded alert log and a scroll offset. */
module Tui {
  import opened Types
  import opened Scan
  import opened Mirror
  import opened AlertLog

  /** What a key asks for. */
  datatype Command = Down | Up | Top | Bottom | ToggleAlerts | ToggleTimeWait | StartFilter | Other

  const KEY_UP := 0x100
  const KEY_DOWN := 0x101
  const KEY_RIGHT := 0x102
  const KEY_LEFT := 0x103

  /** Runes are Unicode code points; the arrow keys lie above 255. */
  function CommandOf(rune: int): (command: Command)
    ensures command == Down <==> rune in {106, 74, 257, 258}
    ensures command == Up <==> rune in {107, 75, 256, 259}
    ensures command == Top <==> rune == 103
    ensures command == Bottom <==> rune == 71
    ensures command == ToggleAlerts <==> rune in {97, 65}
    ensures command == ToggleTimeWait <==> rune in {116, 84}
    ensures command == StartFilter <==> rune == 47
  {
    if rune == 'j' as int || rune == 'J' as int || rune == KEY_DOWN || rune == KEY_RIGHT then Down
    else if rune == 'k' as int || rune == 'K' as int || rune == KEY_UP || rune == KEY_LEFT then Up
    else if rune == 'g' as int then Top
    else if rune == 'G' as int then Bottom
    else if rune == 'a' as int || rune == 'A' as int then ToggleAlerts
    else if rune == 't' as int || rune == 'T' as int then ToggleTimeWait
    else if rune == '/' as int then StartFilter
    else Other
  }

  /** The commands after which the screen is drawn at once. */
  predicate Draws(command: Command) {
    command != StartFilter && command != Other
  }

  /** Those of the first n rows that pass the TIME_WAIT switch and the filter, in list order. */
  function Select(list: seq<Connection>, n: nat, showTimeWait: bool, matches: Connection -> bool): seq<Connection>
    requires n <= |list|
  {
    if n == 0 then []
    else
      var before, c := Select(list, n - 1, showTimeWait, matches), list[n - 1];
      if (showTimeWait || c.state != STATE_TIME_WAIT) && matches(c) then before + [c] else before
  }

  /** The rows selected are those at certain places, in list order: all that are shown and match, and no other. */
  lemma {:induction false} SelectPicks(list: seq<Connection>, n: nat, show: bool, matches: Connection -> bool)
    returns (at: seq<nat>)
    requires n <= |list|
    ensures Places(at, n) && |at| == |Select(list, n, show, matches)|
    ensures forall i :: 0 <= i < |at| ==> Select(list, n, show, matches)[i] == list[at[i]]
    ensures forall j :: 0 <= j < n ==> (j in at <==> (show || list[j].state != 6) && matches(list[j]))
  {
    if n == 0 {
      at := [];
    } else {
      at := SelectPicks(list, n - 1, show, matches);
      PlacesSnoc(at, n);
      if (show || list[n - 1].state != 6) && matches(list[n - 1]) {
        at := at + [n - 1];
      }
    }
  }

  predicate SortedByPid(rows: seq<Connection>) {
    forall i, j :: 0 <= i < j < |rows| ==> rows[i].pid <= rows[j].pid
  }

  /** c put behind the rows whose process number is not larger. */
  function Insert(rows: seq<Connection>, c: Connection): seq<Connection> {
    if rows == [] || rows[|rows| - 1].pid <= c.pid then rows + [c]
    else Insert(rows[..|rows| - 1], c) + [rows[|rows| - 1]]
  }

  predicate IsPartAt(part: seq<Connection>, rows: seq<Connection>, at: int) {
    0 <= at && at + |part| <= |rows| && part == rows[at..at + |part|]
  }

  /** One of the orders that sorting by process number may yield. */
  function SortByPid(rows: seq<Connection>, n: nat): seq<Connection>
    requires n <= |rows|
  {
    if n == 0 then [] else Insert(SortByPid(rows, n - 1), rows[n - 1])
  }

  lemma SameRows(a: seq<Connection>, b: seq<Connection>)
    requires multiset(a) == multiset(b)
    ensures |a| == |b| && forall c :: c in a <==> c in b
  {
    assert |multiset(a)| == |multiset(b)|;
    assert forall c :: c in a <==> c in multiset(a);
    assert forall c :: c in b <==> c in multiset(b);
  }

  predicate PidsUpTo(rows: seq<Connection>, bound: int) {
    forall i :: 0 <= i < |rows| ==> rows[i].pid <= bound
  }

  lemma SortedSnoc(rows: seq<Connection>, c: Connection)
    requires SortedByPid(rows) && PidsUpTo(rows, c.pid)
    ensures SortedByPid(rows + [c])
  {}

  lemma {:induction false} InsertStaysUpTo(rows: seq<Connection>, c: Connection, bound: int)
    requires PidsUpTo(rows, bound) && c.pid <= bound
    ensures PidsUpTo(Insert(rows, c), bound)
  {
    if rows != [] && rows[|rows| - 1].pid > c.pid {
      InsertStaysUpTo(rows[..|rows| - 1], c, bound);
    }
  }

  lemma {:induction false} InsertKeepsSorted(rows: seq<Connection>, c: Connection)
    requires SortedByPid(rows)
    ensures SortedByPid(Insert(rows, c))
  {
    if rows == [] || rows[|rows| - 1].pid <= c.pid {
      SortedSnoc(rows, c);
    } else {
      var front, last := rows[..|rows| - 1], rows[|rows| - 1];
      InsertKeepsSorted(front, c);
      InsertStaysUpTo(front, c, last.pid);
      SortedSnoc(Insert(front, c), last);
    }
  }

  lemma {:induction false} InsertAdds(rows: seq<Connection>, c: Connection)
    ensures multiset(Insert(rows, c)) == multiset(rows) + multiset{c}
  {
    if rows != [] && rows[|rows| - 1].pid > c.pid {
      InsertAdds(rows[..|rows| - 1], c);
      assert rows == rows[..|rows| - 1] + [rows[|rows| - 1]];
    }
  }

  lemma {:induction false} SortByPidSorts(rows: seq<Connection>, n: nat)
    requires n <= |rows|
    ensures SortedByPid(SortByPid(rows, n))
  {
    if n > 0 {
      SortByPidSorts(rows, n - 1);
      InsertKeepsSorted(SortByPid(rows, n - 1), rows[n - 1]);
    }
  }

  lemma TakeAdds<T>(s: seq<T>, n: nat)
    requires 0 < n <= |s|
    ensures multiset(s[..n]) == multiset(s[..n - 1]) + multiset{s[n - 1]}
  {
    assert s[..n] == s[..n - 1] + [s[n - 1]];
  }

  lemma {:induction false} SortByPidPermutes(rows: seq<Connection>, n: nat)
    requires n <= |rows|
    ensures multiset(SortByPid(rows, n)) == multiset(rows[..n])
  {
    if n > 0 {
      SortByPidPermutes(rows, n - 1);
      InsertAdds(SortByPid(rows, n - 1), rows[n - 1]);
      TakeAdds(rows, n);
    }
  }

  /** Rows that fit the screen: four lines are taken, half the screen if alerts are shown. */
  function RowsThatFit(termHeight: nat, showAlerts: bool): (rows: nat)
    ensures rows >= 1
    ensures termHeight >= 10 ==> rows == (if showAlerts then termHeight / 2 else termHeight) - 4
    ensures termHeight < 5 || (showAlerts && termHeight < 10) ==> rows == 1
    ensures !showAlerts && termHeight >= 5 ==> rows == termHeight - 4
  {
    var rows := if showAlerts then termHeight / 2 - 4 else termHeight - 4;
    if rows < 1 then 1 else rows
  }

  function Smaller(a: int, b: int): (least: int)
    ensures least <= a && least <= b && (least == a || least == b)
  {
    if a < b then a else b
  }

  class Display<A> {
    const maxAlerts := 100
    const maxConns := 500
    const keep: bool
    var connections: seq<Connection>
    var alerts: seq<A>
    var filter: Option<Connection -> bool>
    var showAlerts: bool
    var showTimeWait: bool
    var termHeight: nat
    var scroll: int

    // everything the display was sent, and the switches it met
    ghost var trace: seq<Event>
    ghost var settings: seq<Setting>
    ghost var batches: seq<seq<A>>

    /** List and log are those of modules Mirror and AlertLog; the offset is never negative. */
    ghost predicate Valid()
      reads this
    {
      && |trace| == |settings| == |batches|
      && connections == Rows(trace, settings, maxConns, |trace|)
      && alerts == Log(trace, settings, batches, maxAlerts, |trace|)
      && scroll >= 0
    }

    /** Without a filter text every row passes. */
    function Accepts(): Connection -> bool
      reads this
    {
      match filter
      case Some(f) => f
      case None => (c: Connection) => true
    }

    /** The rows that are shown, in list order. */
    function Visible(): seq<Connection>
      reads this
    {
      Select(connections, |connections|, showTimeWait, Accepts())
    }

    /** The order in which they are shown: list order with a filter, else sorted by process number. */
    predicate IsListing(rows: seq<Connection>)
      reads this
    {
      if filter.Some? then rows == Visible() else multiset(rows) == multiset(Visible()) && SortedByPid(rows)
    }

    method FilteredConnections() returns (rows: seq<Connection>)
      ensures IsListing(rows) && |rows| == |Visible()|
      ensures filter.Some? ==> rows == Visible()
      ensures filter.None? ==>
                && multiset(rows) == multiset(Visible())
                && forall i, j :: 0 <= i < j < |rows| ==> rows[i].pid <= rows[j].pid
      ensures forall c :: c in rows <==>
                c in connections && (showTimeWait || c.state != 6) && (filter.Some? ==> filter.value(c))
    {
      rows := Visible();
      VisibleAre(rows);
      if filter.None? {
        SortByPidSorts(rows, |rows|);
        SortByPidPermutes(rows, |rows|);
        assert rows[..|rows|] == rows;
        rows := SortByPid(rows, |rows|);
      }
      SameRows(rows, Visible());
    }

    lemma VisibleAre(rows: seq<Connection>)
      requires rows == Visible()
      ensures forall c :: c in rows <==>
                c in connections && (showTimeWait || c.state != 6) && (filter.Some? ==> filter.value(c))
    {
      var at := SelectPicks(connections, |connections|, showTimeWait, Accepts());
      forall c ensures c in rows <==>
          c in connections && (showTimeWait || c.state != 6) && (filter.Some? ==> filter.value(c))
      {
        if j :| 0 <= j < |connections| && connections[j] == c && (showTimeWait || c.state != 6) && Accepts()(c) {
          assert j in at;
        }
      }
    }

    function VisibleRows(): (rows: nat)
      reads this
      ensures rows >= 1
      ensures termHeight >= 10 ==> rows == (if showAlerts then termHeight / 2 else termHeight) - 4
      ensures termHeight < 5 || (showAlerts && termHeight < 10) ==> rows == 1
      ensures !showAlerts && termHeight >= 5 ==> rows == termHeight - 4
    {
      RowsThatFit(termHeight, showAlerts)
    }

    function MaxScroll(): (most: nat)
      reads this
      ensures |Visible()| >= VisibleRows() ==> most + VisibleRows() == |Visible()|
      ensures |Visible()| <= VisibleRows() ==> most == 0
    {
      if |Visible()| <= VisibleRows() then 0 else |Visible()| - VisibleRows()
    }

    constructor (keep: bool, showTimeWait: bool, height: nat)
      ensures Valid() && trace == [] && scroll == 0 && fresh(this)
      ensures this.keep == keep && this.showTimeWait == showTimeWait && termHeight == height
      ensures connections == [] && alerts == [] && filter == None && !showAlerts && maxAlerts == 100 && maxConns == 500
    {
      this.keep := keep;
      this.showTimeWait := showTimeWait;
      connections, alerts := [], [];
      filter := None;
      showAlerts := false;
      termHeight := height;
      scroll := 0;
      trace, settings, batches := [], [], [];
    }

    /** Position of the first row with key k, by linear search. */
    method Search(k: ConnectionKey) returns (i: nat)
      ensures i == Find(connections, k, 0)
    {
      i := 0;
      while i < |connections| && connections[i].Key() != k
        invariant i <= |connections|
        invariant Find(connections, k, 0) == Find(connections, k, i)
      {
        i := i + 1;
      }
    }

    method UpdateRows(evt: Event)
      modifies `connections
      ensures connections == Apply(old(connections), maxConns, Setting(showTimeWait, keep), evt)
    {
      if evt.kind == NewConnection {
        if !showTimeWait && evt.conn.state == STATE_TIME_WAIT {
          return;
        }
        connections := connections + [evt.conn];
        if |connections| > maxConns {
          connections := connections[|connections| - maxConns..];
        }
      } else {
        var i := Search(evt.conn.Key());
        if i < |connections| {
          if keep {
            var c := connections[i].(state := STATE_CLOSE);
            if evt.conn.processName != "" {
              c := c.(processName := evt.conn.processName);
            }
            connections := connections[i := c];
          } else {
            connections := connections[..i] + connections[i + 1..];
          }
        }
      }
    }

    method PushAlerts(more: seq<A>)
      modifies `alerts
      ensures alerts == PushEach(old(alerts), more, |more|, maxAlerts)
    {
      for n := 0 to |more|
        invariant alerts == PushEach(old(alerts), more, n, maxAlerts)
      {
        alerts := alerts + [more[n]];
        if |alerts| > maxAlerts {
          alerts := alerts[|alerts| - maxAlerts..];
        }
      }
    }

    /** An event with the alerts it carries. */
    method HandleEvent(evt: Event, more: seq<A>)
      requires Valid()
      modifies `connections, `alerts, `trace, `settings, `batches
      ensures Valid()
      ensures trace == old(trace) + [evt] && batches == old(batches) + [more]
      ensures settings == old(settings) + [Setting(showTimeWait, keep)]
    {
      ghost var setting := Setting(showTimeWait, keep);
      UpdateRows(evt);
      if !(evt.kind == NewConnection && !showTimeWait && evt.conn.state == STATE_TIME_WAIT) {
        PushAlerts(more);
      }
      RowsOfLonger(trace, settings, maxConns, evt, setting);
      LogOfLonger(trace, settings, batches, maxAlerts, evt, setting, more);
      trace, settings, batches := trace + [evt], settings + [setting], batches + [more];
    }

    /** page is a full screen of rows from the offset on, or all rows if they fit. */
    ghost predicate OnScreen(page: seq<Connection>)
      reads this
    {
      && 0 <= scroll <= MaxScroll()
      && |page| == Smaller(|Visible()|, VisibleRows())
      && exists rows :: IsListing(rows) && IsPartAt(page, rows, scroll)
    }

    /** Clamps the offset and returns the rows on screen. */
    method Render() returns (page: seq<Connection>)
      requires Valid()
      modifies `scroll
      ensures Valid() && OnScreen(page)
      ensures scroll == Smaller(old(scroll), MaxScroll())
    {
      var conns := FilteredConnections();
      var maxRows := VisibleRows();
      var maxScroll := 0;
      if |conns| > maxRows {
        maxScroll := |conns| - maxRows;
      }
      if scroll > maxScroll {
        scroll := maxScroll;
      }
      var end := scroll + maxRows;
      if end > |conns| {
        end := |conns|;
      }
      page := conns[scroll..end];
      assert IsPartAt(page, conns, scroll);
    }

    /** j and k and the arrows move by one row, g and G to the ends, a and t flip a switch, / drops the filter. */
    method HandleKey(rune: int) returns (page: seq<Connection>)
      requires Valid()
      modifies `scroll, `showAlerts, `showTimeWait, `filter
      ensures Valid() && (Draws(CommandOf(rune)) ==> OnScreen(page))
      ensures rune in {106, 74, 257, 258} ==> scroll == Smaller(old(scroll) + 1, MaxScroll())
      ensures rune in {107, 75, 256, 259} && old(scroll) > 0 ==> scroll == Smaller(old(scroll) - 1, MaxScroll())
      ensures rune in {107, 75, 256, 259} && old(scroll) == 0 ==> scroll == 0
      ensures rune == 103 ==> scroll == 0
      ensures rune == 71 ==> scroll == MaxScroll() && scroll + |page| == |Visible()|
      ensures rune in {97, 65, 116, 84} ==> scroll == Smaller(old(scroll), MaxScroll())
      ensures rune !in {106, 74, 257, 258, 107, 75, 256, 259, 103, 71, 97, 65, 116, 84} ==>
                scroll == old(scroll) && page == []
      ensures showAlerts == if rune in {97, 65} then !old(showAlerts) else old(showAlerts)
      ensures showTimeWait == if rune in {116, 84} then !old(showTimeWait) else old(showTimeWait)
      ensures filter == if rune == 47 then None else old(filter)
    {
      page := HandleCommand(CommandOf(rune));
    }

    /** Where a command wants the offset, given where it was, before it is clamped. */
    function Wanted(command: Command, was: int): int
      reads this
    {
      match command
      case Down => was + 1
      case Up => if was > 0 then was - 1 else 0
      case Top => 0
      case Bottom => MaxScroll()
      case ToggleAlerts => was
      case ToggleTimeWait => was
      case StartFilter => was
      case Other => was
    }

    /** The offset ends up where it is wanted as far as there are rows; Bottom shows the last page. */
    ghost predicate Obeyed(command: Command, was: int, page: seq<Connection>)
      reads this
    {
      if !Draws(command) then scroll == was && page == []
      else
        && scroll == Smaller(Wanted(command, was), MaxScroll())
        && (command == Bottom ==> scroll == MaxScroll() && scroll + |page| == |Visible()|)
    }

    /** A command moves the offset or flips a switch and draws the page, or drops the filter for a new one. */
    method HandleCommand(command: Command) returns (page: seq<Connection>)
      requires Valid()
      modifies `scroll, `showAlerts, `showTimeWait, `filter
      ensures Valid() && (Draws(command) ==> OnScreen(page))
      ensures Obeyed(command, old(scroll), page)
      ensures showAlerts == if command == ToggleAlerts then !old(showAlerts) else old(showAlerts)
      ensures showTimeWait == if command == ToggleTimeWait then !old(showTimeWait) else old(showTimeWait)
      ensures filter == if command == StartFilter then None else old(filter)
    {
      match command {
        case Down =>
          scroll := scroll + 1;
        case Up =>
          if scroll > 0 {
            scroll := scroll - 1;
          }
        case Top =>
          scroll := 0;
        case Bottom =>
          scroll := MaxScroll();
        case ToggleAlerts =>
          showAlerts := !showAlerts;
        case ToggleTimeWait =>
          showTimeWait := !showTimeWait;
        case StartFilter =>
          filter := None;
          return [];
        case Other =>
          return [];
      }
      page := Render();
    }

    /** A new terminal height. */
    method Resize(height: nat) returns (page: seq<Connection>)
      requires Valid()
      modifies `scroll, `termHeight
      ensures Valid() && termHeight == height && OnScreen(page)
    {
      termHeight := height;
      page := Render();
    }

    /** Enter in the filter prompt: the text typed, None if empty, becomes the filter; back to the top. */
    method ApplyFilter(f: Option<Connection -> bool>) returns (page: seq<Connection>)
      requires Valid()
      modifies `scroll, `filter
      ensures Valid() && filter == f && scroll == 0 && OnScreen(page)
    {
      filter := f;
      scroll := 0;
      page := Render();
    }
  }

  lemma RowsOfLonger(trace: seq<Event>, settings: seq<Setting>, cap: nat, e: Event, setting: Setting)
    requires |trace| == |settings|
    ensures Rows(trace + [e], settings + [setting], cap, |trace| + 1)
            == Apply(Rows(trace, settings, cap, |trace|), cap, setting, e)
  {
    RowsOfSamePrefix(trace, settings, trace + [e], settings + [setting], cap, |trace|);
  }

  lemma {:induction false} RowsOfSamePrefix(
      trace: seq<Event>, settings: seq<Setting>, trace': seq<Event>, settings': seq<Setting>, cap: nat, n: nat)
    requires n <= |trace| == |settings| && |trace'| == |settings'| && trace <= trace' && settings <= settings'
    ensures Rows(trace, settings, cap, n) == Rows(trace', settings', cap, n)
  {
    if n > 0 {
      RowsOfSamePrefix(trace, settings, trace', settings', cap, n - 1);
      assert trace[n - 1] == trace'[n - 1] && settings[n - 1] == settings'[n - 1];
    }
  }

  lemma LogOfLonger<A>(
      trace: seq<Event>, settings: seq<Setting>, batches: seq<seq<A>>, cap: nat,
      e: Event, setting: Setting, more: seq<A>)
    requires |trace| == |settings| == |batches|
    ensures Log(trace + [e], settings + [setting], batches + [more], cap, |trace| + 1)
            == Note(Log(trace, settings, batches, cap, |trace|), cap, setting, e, more)
  {
    LogOfSamePrefix(trace, settings, batches, trace + [e], settings + [setting], batches + [more], cap, |trace|);
  }

  lemma {:induction false} LogOfSamePrefix<A>(
      trace: seq<Event>, settings: seq<Setting>, batches: seq<seq<A>>,
      trace': seq<Event>, settings': seq<Setting>, batches': seq<seq<A>>, cap: nat, n: nat)
    requires n <= |trace| == |settings| == |batches| && |trace'| == |settings'| == |batches'|
    requires trace <= trace' && settings <= settings' && batches <= batches'
    ensures Log(trace, settings, batches, cap, n) == Log(trace', settings', batches', cap, n)
  {
    if n > 0 {
      LogOfSamePrefix(trace, settings, batches, trace', settings', batches', cap, n - 1);
    }
  }
}
