/**
 The polling capturers: one scan as the program runs it, over the maps it keeps. The netlink and the
 text backend share it; they differ in how a failed walk over the processes is taken and in how names
 are looked up.
 */
module Capturer {
  import opened Types
  import opened ProcNet
  import opened Sockets
  import opened Scan

  // ----- Owners of sockets

  /** The process table: for every process the inodes of its open sockets. */
  type ProcessTable = map<int, seq<nat>>

  predicate Lists(table: ProcessTable, pid: int, inode: nat) {
    pid in table && inode in table[pid]
  }

  /** live maps exactly the listed inodes, each to a process that lists it. */
  ghost predicate IsLive(table: ProcessTable, live: map<nat, int>) {
    && (forall inode :: inode in live ==> Lists(table, live[inode], inode))
    && (forall pid, inode :: Lists(table, pid, inode) ==> inode in live)
  }

  ghost predicate IsLiveFor(table: ProcessTable, pids: set<int>, live: map<nat, int>) {
    && (forall inode :: inode in live ==> live[inode] in pids && Lists(table, live[inode], inode))
    && (forall pid, inode :: pid in pids && Lists(table, pid, inode) ==> inode in live)
  }

  /** The inodes of one process entered into live. */
  method EnterInodes(live0: map<nat, int>, pid: int, inodes: seq<nat>) returns (live: map<nat, int>)
    ensures live.Keys == live0.Keys + (set i | i in inodes)
    ensures forall i :: i in live ==> live[i] == if i in inodes then pid else live0[i]
  {
    live := live0;
    for j := 0 to |inodes|
      invariant live.Keys == live0.Keys + (set i | i in inodes[..j])
      invariant forall i :: i in live ==> live[i] == if i in inodes[..j] then pid else live0[i]
    {
      assert inodes[..j + 1] == inodes[..j] + [inodes[j]];
      live := live[inodes[j] := pid];
    }
    assert inodes[..|inodes|] == inodes;
  }

  /** An arbitrary member. */
  method Pick<T(==)>(s: set<T>) returns (x: T)
    requires s != {}
    ensures x in s
  {
    x :| x in s;
  }

  /** The table turned around; the processes come in any order. */
  method LiveInodes(table: ProcessTable) returns (live: map<nat, int>)
    ensures IsLive(table, live)
  {
    live := map[];
    var rest := table.Keys;
    while rest != {}
      invariant rest <= table.Keys
      invariant IsLiveFor(table, table.Keys - rest, live)
    {
      var pid := Pick(rest);
      live := EnterInodes(live, pid, table[pid]);
      rest := rest - {pid};
    }
  }

  /** What the owner of an inode is after a merge: a process that lists it now, else the remembered one. */
  lemma MergedOwner(table: ProcessTable, live: map<nat, int>, cache: map<nat, int>, inode: nat)
    requires IsLive(table, live)
    ensures inode in cache + live <==> inode in cache || exists pid :: Lists(table, pid, inode)
    ensures (exists pid :: Lists(table, pid, inode)) ==> Lists(table, (cache + live)[inode], inode)
    ensures (forall pid :: !Lists(table, pid, inode)) ==> PidOf(cache + live, inode) == PidOf(cache, inode)
  {}

  /** The cache after the first n merges. */
  function CacheAfter(lives: seq<map<nat, int>>, n: nat): map<nat, int>
    requires n <= |lives|
  {
    if n == 0 then map[] else CacheAfter(lives, n - 1) + lives[n - 1]
  }

  /** The cache remembers the latest owner that was ever seen, and knows no inode that was never listed. */
  lemma {:induction false} CacheIsLatestOwner(lives: seq<map<nat, int>>, n: nat, inode: nat)
    requires n <= |lives|
    ensures inode in CacheAfter(lives, n) <==> exists i :: 0 <= i < n && inode in lives[i]
    ensures inode in CacheAfter(lives, n) ==>
              exists i :: 0 <= i < n && inode in lives[i] && CacheAfter(lives, n)[inode] == lives[i][inode] &&
                          forall j :: i < j < n ==> inode !in lives[j]
  {
    if n > 0 {
      CacheIsLatestOwner(lives, n - 1, inode);
      if inode in lives[n - 1] {
        assert CacheAfter(lives, n)[inode] == lives[n - 1][inode];
      }
    }
  }

  /** Inode 0 stands for no socket file; as no process lists it, it never gets an owner. */
  lemma InodeZeroIsUnowned(tables: seq<ProcessTable>, lives: seq<map<nat, int>>, n: nat)
    requires n <= |lives| == |tables|
    requires forall i :: 0 <= i < |lives| ==> IsLive(tables[i], lives[i])
    requires forall i, pid :: 0 <= i < |tables| ==> !Lists(tables[i], pid, 0)
    ensures PidOf(CacheAfter(lives, n), 0) == 0
  {
    CacheIsLatestOwner(lives, n, 0);
  }

  // ----- The connections seen, one more at a time

  ghost predicate WellKeyed(known: Known) {
    forall k :: k in known ==> known[k].Key() == k
  }

  lemma {:induction false} AbsorbPrefix(known: Known, a: seq<Connection>, b: seq<Connection>, n: nat)
    requires n <= |a| && n <= |b| && forall i :: 0 <= i < n ==> a[i] == b[i]
    ensures Absorb(known, a, n) == Absorb(known, b, n) && News(known, a, n) == News(known, b, n)
  {
    if n > 0 {
      AbsorbPrefix(known, a, b, n - 1);
    }
  }

  /** What a capturer that knew known has after seeing conns: all it knows, the keys seen, what was new. */
  datatype Progress = Progress(known: Known, current: set<ConnectionKey>, news: seq<Connection>)
  {
    function Saw(c: Connection): Progress {
      var k := c.Key();
      if k in known then Progress(known, current + {k}, news)
      else Progress(known[k := c], current + {k}, news + [c])
    }
  }

  ghost function Seen(known: Known, conns: seq<Connection>): Progress {
    Progress(Absorb(known, conns, |conns|), KeysOf(conns), News(known, conns, |conns|))
  }

  lemma SeenSnoc(known: Known, conns: seq<Connection>, c: Connection)
    ensures Seen(known, conns + [c]) == Seen(known, conns).Saw(c)
  {
    AbsorbPrefix(known, conns, conns + [c], |conns|);
    KeysSnoc(conns, c);
  }

  lemma KeysSnoc(conns: seq<Connection>, c: Connection)
    ensures KeysOf(conns + [c]) == KeysOf(conns) + {c.Key()}
  {
    var longer := conns + [c];
    assert longer[|conns|] == c;
    assert forall i :: 0 <= i < |conns| ==> longer[i] == conns[i];
  }

  lemma EnumeratesSnoc(closed: seq<Connection>, part: Known, k: ConnectionKey, c: Connection)
    requires Enumerates(closed, part) && k !in part && c.Key() == k
    ensures Enumerates(closed + [c], part[k := c])
  {
    var longer := closed + [c];
    assert longer[|closed|] == c;
    assert forall i :: 0 <= i < |closed| ==> longer[i] == closed[i];
    assert longer[|closed|].Key() == k;
    assert forall i :: 0 <= i < |closed| ==> longer[i].Key() == closed[i].Key();
  }

  /** While closing: of all, the keys not in rest have been visited, and those not current dropped and reported. */
  ghost predicate Dropping(
      all: Known, current: set<ConnectionKey>, rest: set<ConnectionKey>, known: Known, closed: seq<Connection>)
  {
    rest <= all.Keys && known == all - (all.Keys - current - rest) && Enumerates(closed, all - (current + rest))
  }

  lemma DropOne(
      all: Known, current: set<ConnectionKey>, rest: set<ConnectionKey>, known: Known, closed: seq<Connection>,
      key: ConnectionKey)
    requires WellKeyed(all) && Dropping(all, current, rest, known, closed) && key in rest && key !in current
    ensures key in known && known[key] == all[key]
    ensures Dropping(all, current, rest - {key}, known - {key}, closed + [known[key]])
  {
    EnumeratesSnoc(closed, all - (current + rest), key, all[key]);
    assert all - (current + (rest - {key})) == (all - (current + rest))[key := all[key]];
  }

  lemma KeepOne(
      all: Known, current: set<ConnectionKey>, rest: set<ConnectionKey>, known: Known, closed: seq<Connection>,
      key: ConnectionKey)
    requires Dropping(all, current, rest, known, closed) && key in rest && key in current
    ensures Dropping(all, current, rest - {key}, known, closed)
  {
    assert current + (rest - {key}) == current + rest;
    assert all.Keys - current - (rest - {key}) == all.Keys - current - rest;
  }

  lemma DroppingStarts(all: Known, current: set<ConnectionKey>)
    ensures Dropping(all, current, all.Keys, all, [])
  {
    assert all - (all.Keys - current - all.Keys) == all;
    assert all - (current + all.Keys) == map[];
  }

  lemma DroppingEnds(all: Known, current: set<ConnectionKey>, known: Known, closed: seq<Connection>)
    requires Dropping(all, current, {}, known, closed)
    ensures Enumerates(closed, all - current) && known == all - (all.Keys - current)
  {
    assert current + {} == current && all.Keys - current - {} == all.Keys - current;
  }

  // ----- Runs, one more scan at a time

  lemma KnownBeforeSnoc(scans: seq<ScanRecord>, r: ScanRecord, i: nat)
    requires i <= |scans|
    ensures KnownBefore(scans + [r], i) == KnownBefore(scans, i)
    ensures i < |scans| ==> (scans + [r])[i] == scans[i]
  {}

  lemma {:induction false} TraceOfPrefix(a: seq<ScanRecord>, b: seq<ScanRecord>, n: nat)
    requires n <= |a| && n <= |b| && forall i :: 0 <= i < n ==> a[i] == b[i]
    ensures Trace(a, n) == Trace(b, n)
  {
    if n > 0 {
      TraceOfPrefix(a, b, n - 1);
      assert KnownBefore(a, n - 1) == KnownBefore(b, n - 1) && a[n - 1] == b[n - 1];
    }
  }

  lemma RunSnoc(scans: seq<ScanRecord>, r: ScanRecord)
    requires IsRun(scans) && IsScan(KnownBefore(scans, |scans|), r)
    ensures IsRun(scans + [r])
  {
    var longer := scans + [r];
    forall i | 0 <= i < |longer| ensures IsScan(KnownBefore(longer, i), longer[i]) {
      KnownBeforeSnoc(scans, r, i);
      assert i < |scans| ==> IsScan(KnownBefore(scans, i), scans[i]);
    }
  }

  /** The scans are a run that emitted trace and ended up with known. */
  ghost predicate RunSoFar(scans: seq<ScanRecord>, trace: seq<Event>, known: Known) {
    IsRun(scans) && trace == Trace(scans, |scans|) && known == KnownBefore(scans, |scans|)
  }

  lemma RunSoFarSnoc(scans: seq<ScanRecord>, trace: seq<Event>, known: Known, r: ScanRecord)
    requires RunSoFar(scans, trace, known) && IsScan(known, r)
    ensures RunSoFar(scans + [r], trace + EventsOf(known, r), r.after)
  {
    RunSnoc(scans, r);
    TraceOfPrefix(scans + [r], scans, |scans|);
    KnownBeforeSnoc(scans, r, |scans|);
  }

  datatype Backend = NetlinkBackend | ProcBackend

  /** What one tick of the poll loop reads. */
  datatype Tick = Tick(raws: Option<seq<Raw>>, table: Option<ProcessTable>, names: map<int, string>, now: Time)

  /** Whether a tick's scan goes through; a failed process walk stops the text backend only. */
  predicate GoesThrough(backend: Backend, t: Tick) {
    t.raws.Some? && (backend == ProcBackend ==> t.table.Some?)
  }

  /** The process table of a tick, empty if the walk failed. */
  function TableOf(t: Tick): ProcessTable {
    match t.table
    case Some(table) => table
    case None => map[]
  }

  /** Those of the first n ticks whose scans go through, in order. */
  function Completed(backend: Backend, ticks: seq<Tick>, n: nat): seq<Tick>
    requires n <= |ticks|
  {
    if n == 0 then []
    else
      var before := Completed(backend, ticks, n - 1);
      if GoesThrough(backend, ticks[n - 1]) then before + [ticks[n - 1]] else before
  }

  /** The scan r is that of tick t: live are its owners, and cache those that its connections were read with. */
  ghost predicate Scanned(
      read: string -> IP, t: Tick, live: map<nat, int>, cache: map<nat, int>, r: ScanRecord)
  {
    && t.raws.Some? && IsLive(TableOf(t), live) && r.now == t.now
    && r.conns == Snapshot(Converter(read, cache, t.names, t.now), t.raws.value, |t.raws.value|)
  }

  /** The first n scans are those of the ticks, one for one, the owners of every tick remembered by the later ones. */
  ghost predicate PolledUpTo(
      read: string -> IP, ticks: seq<Tick>, lives: seq<map<nat, int>>, scans: seq<ScanRecord>, n: nat)
    requires n <= |ticks| == |lives| == |scans|
  {
    n == 0 || (PolledUpTo(read, ticks, lives, scans, n - 1) && ScannedAt(read, ticks, lives, scans, n - 1))
  }

  ghost predicate Polled(read: string -> IP, ticks: seq<Tick>, lives: seq<map<nat, int>>, scans: seq<ScanRecord>) {
    |ticks| == |lives| == |scans| && PolledUpTo(read, ticks, lives, scans, |ticks|)
  }

  ghost predicate ScannedAt(
      read: string -> IP, ticks: seq<Tick>, lives: seq<map<nat, int>>, scans: seq<ScanRecord>, i: nat)
    requires i < |ticks| == |lives| == |scans|
  {
    Scanned(read, ticks[i], lives[i], CacheAfter(lives, i + 1), scans[i])
  }

  lemma {:induction false} CacheOfLonger(lives: seq<map<nat, int>>, live: map<nat, int>, n: nat)
    requires n <= |lives|
    ensures CacheAfter(lives + [live], n) == CacheAfter(lives, n)
  {
    if n > 0 {
      CacheOfLonger(lives, live, n - 1);
    }
  }

  lemma ScannedAtIs(
      read: string -> IP, ticks: seq<Tick>, lives: seq<map<nat, int>>, scans: seq<ScanRecord>, i: nat,
      t: Tick, live: map<nat, int>, cache: map<nat, int>, r: ScanRecord)
    requires i < |ticks| == |lives| == |scans| && ticks[i] == t && lives[i] == live && scans[i] == r
    requires CacheAfter(lives, i + 1) == cache && Scanned(read, t, live, cache, r)
    ensures ScannedAt(read, ticks, lives, scans, i)
  {}

  lemma OlderScanned(
      read: string -> IP, ticks: seq<Tick>, lives: seq<map<nat, int>>, scans: seq<ScanRecord>,
      t: Tick, live: map<nat, int>, r: ScanRecord, i: nat)
    requires i < |ticks| == |lives| == |scans| && ScannedAt(read, ticks, lives, scans, i)
    ensures ScannedAt(read, ticks + [t], lives + [live], scans + [r], i)
  {
    CacheOfLonger(lives, live, i + 1);
    ScannedAtIs(read, ticks + [t], lives + [live], scans + [r], i,
                ticks[i], lives[i], CacheAfter(lives, i + 1), scans[i]);
  }

  lemma NewestScanned(
      read: string -> IP, ticks: seq<Tick>, lives: seq<map<nat, int>>, scans: seq<ScanRecord>,
      t: Tick, live: map<nat, int>, r: ScanRecord)
    requires |ticks| == |lives| == |scans| && Scanned(read, t, live, CacheAfter(lives, |lives|) + live, r)
    ensures ScannedAt(read, ticks + [t], lives + [live], scans + [r], |ticks|)
    ensures CacheAfter(lives + [live], |lives| + 1) == CacheAfter(lives, |lives|) + live
  {
    CacheOfLonger(lives, live, |lives|);
    ScannedAtIs(read, ticks + [t], lives + [live], scans + [r], |ticks|, t, live, CacheAfter(lives, |lives|) + live, r);
  }

  lemma {:induction false} PolledOfLonger(
      read: string -> IP, ticks: seq<Tick>, lives: seq<map<nat, int>>, scans: seq<ScanRecord>,
      t: Tick, live: map<nat, int>, r: ScanRecord, n: nat)
    requires n <= |ticks| == |lives| == |scans| && PolledUpTo(read, ticks, lives, scans, n)
    ensures PolledUpTo(read, ticks + [t], lives + [live], scans + [r], n)
  {
    if n > 0 {
      PolledOfLonger(read, ticks, lives, scans, t, live, r, n - 1);
      OlderScanned(read, ticks, lives, scans, t, live, r, n - 1);
    }
  }

  lemma PolledOneMore(
      read: string -> IP, ticks: seq<Tick>, lives: seq<map<nat, int>>, scans: seq<ScanRecord>, n: nat)
    requires |ticks| == |lives| == |scans| == n + 1
    requires PolledUpTo(read, ticks, lives, scans, n) && ScannedAt(read, ticks, lives, scans, n)
    ensures Polled(read, ticks, lives, scans)
  {}

  lemma PolledSnoc(
      read: string -> IP, ticks: seq<Tick>, lives: seq<map<nat, int>>, scans: seq<ScanRecord>,
      t: Tick, live: map<nat, int>, r: ScanRecord)
    requires Polled(read, ticks, lives, scans)
    requires ScannedAt(read, ticks + [t], lives + [live], scans + [r], |ticks|)
    ensures Polled(read, ticks + [t], lives + [live], scans + [r])
  {
    PolledOfLonger(read, ticks, lives, scans, t, live, r, |ticks|);
    PolledOneMore(read, ticks + [t], lives + [live], scans + [r], |ticks|);
  }

  /** The ticks were polled one after the other, emitted trace, and left known and cache behind. */
  ghost predicate IsHistory(
      read: string -> IP, ticks: seq<Tick>, lives: seq<map<nat, int>>, scans: seq<ScanRecord>,
      trace: seq<Event>, known: Known, cache: map<nat, int>)
  {
    Polled(read, ticks, lives, scans) && cache == CacheAfter(lives, |lives|) && RunSoFar(scans, trace, known)
  }

  /** The keys of the latest completed snapshot. */
  function LatestKeys(scans: seq<ScanRecord>): set<ConnectionKey> {
    if scans == [] then {} else KeysOf(scans[|scans| - 1].conns)
  }

  lemma LatestKeysAreKnown(scans: seq<ScanRecord>)
    requires IsRun(scans)
    ensures KnownBefore(scans, |scans|).Keys == LatestKeys(scans)
  {
    if scans != [] {
      ScanKeys(KnownBefore(scans, |scans| - 1), scans[|scans| - 1]);
    }
  }

  lemma HistorySnoc(
      read: string -> IP, ticks: seq<Tick>, lives: seq<map<nat, int>>, scans: seq<ScanRecord>,
      trace: seq<Event>, known: Known, cache: map<nat, int>, t: Tick, live: map<nat, int>, r: ScanRecord)
    requires IsHistory(read, ticks, lives, scans, trace, known, cache)
    requires Scanned(read, t, live, cache + live, r) && IsScan(known, r)
    ensures IsHistory(read, ticks + [t], lives + [live], scans + [r], trace + EventsOf(known, r), r.after, cache + live)
  {
    RunSoFarSnoc(scans, trace, known, r);
    NewestScanned(read, ticks, lives, scans, t, live, r);
    PolledSnoc(read, ticks, lives, scans, t, live, r);
  }

  /** Every scan of a run is that of its tick. */
  lemma {:induction false} PolledAt(
      read: string -> IP, ticks: seq<Tick>, lives: seq<map<nat, int>>, scans: seq<ScanRecord>, n: nat, i: nat)
    requires i < n <= |ticks| == |lives| == |scans| && PolledUpTo(read, ticks, lives, scans, n)
    ensures ScannedAt(read, ticks, lives, scans, i)
  {
    if i < n - 1 {
      PolledAt(read, ticks, lives, scans, n - 1, i);
    }
  }

  lemma {:induction false} SnapshotComesFromRaws(convert: Raw -> Connection, raws: seq<Raw>, n: nat, c: Connection)
    requires n <= |raws| && c in Snapshot(convert, raws, n)
    ensures exists i :: 0 <= i < n && c == convert(raws[i])
  {
    if n > 0 && c in Snapshot(convert, raws, n - 1) {
      SnapshotComesFromRaws(convert, raws, n - 1, c);
    }
  }

  lemma ScannedOwner(
      read: string -> IP, t: Tick, live: map<nat, int>, cache: map<nat, int>, r: ScanRecord, c: Connection)
    requires Scanned(read, t, live, cache, r) && c in r.conns
    ensures c.pid == PidOf(cache, c.inode)
  {
    SnapshotComesFromRaws(Converter(read, cache, t.names, t.now), t.raws.value, |t.raws.value|, c);
  }

  /**
   Over a run, a connection's owner is the process that was last seen with its inode, in its own scan or
   an earlier one, and 0 if there was none.
   */
  lemma PolledOwnerIsLatest(
      read: string -> IP, ticks: seq<Tick>, lives: seq<map<nat, int>>, scans: seq<ScanRecord>, n: nat, c: Connection)
    requires Polled(read, ticks, lives, scans) && n < |scans| && c in scans[n].conns
    ensures (forall i, pid :: 0 <= i <= n ==> !Shows(ticks[i], pid, c.inode)) ==> c.pid == 0
    ensures (exists i, pid :: 0 <= i <= n && Shows(ticks[i], pid, c.inode)) ==>
              exists i :: 0 <= i <= n && Shows(ticks[i], c.pid, c.inode) &&
                          forall j, pid :: i < j <= n ==> !Shows(ticks[j], pid, c.inode)
  {
    PolledAt(read, ticks, lives, scans, |ticks|, n);
    ScannedOwner(read, ticks[n], lives[n], CacheAfter(lives, n + 1), scans[n], c);
    CacheIsLatestOwner(lives, n + 1, c.inode);
    forall i | 0 <= i <= n ensures LiveShows(ticks[i], lives[i]) {
      PolledAt(read, ticks, lives, scans, |ticks|, i);
      LiveIsShown(ticks[i], lives[i]);
    }
  }

  /** The tick's walk over the processes went well and found the inode open in the process. */
  predicate Shows(t: Tick, pid: int, inode: nat) {
    t.table.Some? && pid in t.table.value && inode in t.table.value[pid]
  }

  ghost predicate LiveShows(t: Tick, live: map<nat, int>) {
    && (forall inode :: inode in live ==> Shows(t, live[inode], inode))
    && (forall pid, inode :: Shows(t, pid, inode) ==> inode in live)
  }

  lemma LiveIsShown(t: Tick, live: map<nat, int>)
    requires IsLive(TableOf(t), live)
    ensures LiveShows(t, live)
  {
    forall pid, inode ensures Shows(t, pid, inode) <==> Lists(TableOf(t), pid, inode) {}
  }

  /**
   Exactly those ticks are scanned whose sockets could be read and, with the text backend, whose
   processes too; in their order.
   */
  lemma {:induction false} CompletedPicks(backend: Backend, ticks: seq<Tick>, n: nat) returns (at: seq<nat>)
    requires n <= |ticks|
    ensures Places(at, n) && |at| == |Completed(backend, ticks, n)|
    ensures forall i :: 0 <= i < |at| ==> Completed(backend, ticks, n)[i] == ticks[at[i]]
    ensures forall j :: 0 <= j < n ==>
              (j in at <==> ticks[j].raws.Some? && (backend == NetlinkBackend || ticks[j].table.Some?))
  {
    if n == 0 {
      at := [];
    } else {
      at := CompletedPicks(backend, ticks, n - 1);
      PlacesSnoc(at, n);
      if ticks[n - 1].raws.Some? && (backend == NetlinkBackend || ticks[n - 1].table.Some?) {
        at := at + [n - 1];
      }
    }
  }

  lemma ScannedKeys(
      read: string -> IP, t: Tick, live: map<nat, int>, cache: map<nat, int>, r: ScanRecord, k: ConnectionKey)
    requires Scanned(read, t, live, cache, r)
    ensures k in KeysOf(r.conns) <==>
            exists i :: 0 <= i < |t.raws.value| && t.raws.value[i].State() != 10 &&
                        Converter(read, cache, t.names, t.now)(t.raws.value[i]).Key() == k
  {
    SnapshotKeys(Converter(read, cache, t.names, t.now), t.raws.value, k);
  }

  /** After a run of polls exactly the sockets of the last tick are known that are not listening. */
  lemma PolledKeysAreLatest(
      read: string -> IP, ticks: seq<Tick>, lives: seq<map<nat, int>>, scans: seq<ScanRecord>, k: ConnectionKey)
    requires Polled(read, ticks, lives, scans) && ticks != []
    ensures var t := ticks[|ticks| - 1];
            && t.raws.Some?
            && (k in LatestKeys(scans) <==>
                exists i :: 0 <= i < |t.raws.value| && t.raws.value[i].State() != 10 &&
                            Converter(read, CacheAfter(lives, |lives|), t.names, t.now)(t.raws.value[i]).Key() == k)
  {
    var n := |ticks| - 1;
    PolledAt(read, ticks, lives, scans, |ticks|, n);
    ScannedKeys(read, ticks[n], lives[n], CacheAfter(lives, n + 1), scans[n], k);
  }

  predicate TicksAscend(ticks: seq<Tick>) {
    forall i, j :: 0 <= i < j < |ticks| ==> ticks[i].now <= ticks[j].now
  }

  lemma {:induction false} CompletedAscend(backend: Backend, ticks: seq<Tick>, n: nat)
    requires n <= |ticks| && TicksAscend(ticks)
    ensures TicksAscend(Completed(backend, ticks, n))
    ensures forall i :: 0 <= i < |Completed(backend, ticks, n)| ==>
              n > 0 && Completed(backend, ticks, n)[i].now <= ticks[n - 1].now
  {
    if n > 0 {
      CompletedAscend(backend, ticks, n - 1);
    }
  }

  lemma PolledClock(read: string -> IP, ticks: seq<Tick>, lives: seq<map<nat, int>>, scans: seq<ScanRecord>)
    requires Polled(read, ticks, lives, scans) && TicksAscend(ticks)
    ensures ClockAscends(scans)
  {
    forall i | 0 <= i < |scans| ensures scans[i].now == ticks[i].now {
      PolledAt(read, ticks, lives, scans, |ticks|, i);
    }
  }

  class PollingCapturer {
    const backend: Backend
    const read: string -> IP
    var known: Known
    var inodePID: map<nat, int>

    ghost predicate Valid()
      reads this
    {
      WellKeyed(known)
    }

    constructor (backend: Backend)
      ensures Valid() && this.backend == backend && read == HexAddress && known == map[] && inodePID == map[]
    {
      this.backend := backend;
      read := HexAddress;
      known := map[];
      inodePID := map[];
    }

    /** Enters the live owners into the cache and builds the scan's own table, which equals the cache. */
    method MergeLive(live: map<nat, int>) returns (inodeToPID: map<nat, int>)
      modifies `inodePID
      ensures inodePID == old(inodePID) + live && inodeToPID == inodePID
    {
      var rest := live.Keys;
      while rest != {}
        invariant rest <= live.Keys
        invariant inodePID == old(inodePID) + (live - rest)
      {
        var inode :| inode in rest;
        inodePID := inodePID[inode := live[inode]];
        rest := rest - {inode};
      }
      assert live - rest == live;
      inodeToPID := map[];
      rest := live.Keys;
      while rest != {}
        invariant rest <= live.Keys
        invariant inodeToPID == live - rest
      {
        var inode :| inode in rest;
        inodeToPID := inodeToPID[inode := live[inode]];
        rest := rest - {inode};
      }
      rest := inodePID.Keys;
      while rest != {}
        invariant rest <= inodePID.Keys
        invariant inodeToPID == live + (inodePID - live.Keys - rest)
      {
        var inode :| inode in rest;
        if inode !in live {
          inodeToPID := inodeToPID[inode := inodePID[inode]];
        }
        rest := rest - {inode};
      }
      assert live + (inodePID - live.Keys - rest) == inodePID;
    }

    /** The connection of a socket; the netlink backend looks a name up once per scan. */
    method Convert(raw: Raw, inodeToPID: map<nat, int>, names: map<int, string>, cache0: map<int, string>, now: Time)
      returns (conn: Connection, cache: map<int, string>)
      requires forall pid :: pid in cache0 ==> pid in names && cache0[pid] == names[pid]
      ensures conn == Converter(read, inodeToPID, names, now)(raw) && conn.pid == PidOf(inodeToPID, raw.Inode())
      ensures forall pid :: pid in cache ==> pid in names && cache[pid] == names[pid]
    {
      cache := cache0;
      var pid := PidOf(inodeToPID, raw.Inode());
      var name := "";
      if pid > 0 {
        if backend == NetlinkBackend && pid in cache {
          name := cache[pid];
        } else if pid in names {
          name := names[pid];
          if backend == NetlinkBackend {
            cache := cache[pid := name];
          }
        }
      }
      conn := Connection(
        AddressOf(raw.LocalIP(read)), Uint16(raw.LocalPort()), AddressOf(raw.RemoteIP(read)), Uint16(raw.RemotePort()),
        pid, name, raw.Inode(), raw.State(), DirectionOf(raw.RemoteIP(read)), now);
    }

    /** One connection seen. Writing its owner back into the cache changes nothing: it came from there. */
    method AddOne(conn: Connection, inode: nat, current0: set<ConnectionKey>, newConns0: seq<Connection>)
      returns (current: set<ConnectionKey>, newConns: seq<Connection>)
      requires Valid() && conn.pid == PidOf(inodePID, inode)
      modifies this
      ensures Valid() && inodePID == old(inodePID)
      ensures Progress(known, current, newConns) == Progress(old(known), current0, newConns0).Saw(conn)
    {
      var key := conn.Key();
      current, newConns := current0 + {key}, newConns0;
      if key !in known {
        known := known[key := conn];
        newConns := newConns + [conn];
        if conn.pid > 0 {
          inodePID := inodePID[inode := conn.pid];
        }
      }
    }

    /** Adds the connections of all sockets that are not listening. */
    method AddNew(raws: seq<Raw>, inodeToPID: map<nat, int>, names: map<int, string>, now: Time)
      returns (current: set<ConnectionKey>, newConns: seq<Connection>)
      requires Valid() && inodePID == inodeToPID
      modifies this
      ensures Valid() && inodePID == old(inodePID)
      ensures Progress(known, current, newConns)
              == Seen(old(known), Snapshot(Converter(read, inodeToPID, names, now), raws, |raws|))
    {
      var cache: map<int, string>;
      current, newConns, cache := {}, [], map[];
      ghost var convert, conns: seq<Connection> := Converter(read, inodeToPID, names, now), [];
      for i := 0 to |raws|
        invariant Valid() && inodePID == inodeToPID
        invariant forall pid :: pid in cache ==> pid in names && cache[pid] == names[pid]
        invariant conns == Snapshot(convert, raws, i)
        invariant Progress(known, current, newConns) == Seen(old(known), conns)
      {
        if raws[i].State() == STATE_LISTEN {
          continue;
        }
        var conn;
        conn, cache := Convert(raws[i], inodeToPID, names, cache, now);
        SeenSnoc(old(known), conns, conn);
        conns := conns + [conn];
        current, newConns := AddOne(conn, raws[i].Inode(), current, newConns);
      }
    }

    /** Forgets what is not current, in any order, and reports it. */
    method DropGone(current: set<ConnectionKey>, now: Time) returns (events: seq<Event>, ghost closed: seq<Connection>)
      requires Valid()
      modifies `known
      ensures Valid()
      ensures Enumerates(closed, old(known) - current)
      ensures known == old(known) - (old(known).Keys - current)
      ensures events == Announce(ConnectionClosed, closed, now)
    {
      events, closed := [], [];
      var rest := known.Keys;
      DroppingStarts(known, current);
      while rest != {}
        invariant Valid() && Dropping(old(known), current, rest, known, closed)
        invariant events == Announce(ConnectionClosed, closed, now)
        decreases rest
      {
        var key :| key in rest;
        if key !in current {
          DropOne(old(known), current, rest, known, closed, key);
          var conn := known[key];
          known := known - {key};
          events, closed := events + [Event(now, ConnectionClosed, conn)], closed + [conn];
        } else {
          KeepOne(old(known), current, rest, known, closed, key);
        }
        rest := rest - {key};
      }
      DroppingEnds(old(known), current, known, closed);
    }

    /** One scan: what it read, and the events it emits. */
    method ScanAndEmit(t: Tick) returns (events: seq<Event>, ghost live: map<nat, int>, ghost r: ScanRecord)
      requires Valid()
      modifies this
      ensures Valid()
      ensures t.raws.None? || (backend == ProcBackend && t.table.None?) ==>
                events == [] && known == old(known) && inodePID == old(inodePID)
      ensures t.raws.Some? && (backend == NetlinkBackend || t.table.Some?) ==>
                && Scanned(read, t, live, inodePID, r) && LiveShows(t, live) && inodePID == old(inodePID) + live
                && IsScan(old(known), r) && known == r.after
                && events == EventsOf(old(known), r)
                && forall k :: k in known <==>
                     exists i :: 0 <= i < |t.raws.value| && t.raws.value[i].State() != 10 &&
                                 Converter(read, inodePID, t.names, t.now)(t.raws.value[i]).Key() == k
    {
      live, r := map[], ScanRecord([], t.now, [], map[]);
      if t.raws.None? {
        return [], live, r;
      }
      var table: ProcessTable := map[];
      match t.table {
        case Some(pids) => table := pids;
        case None =>
          if backend == ProcBackend {
            return [], live, r;
          }
      }
      var raws, names, now := t.raws.value, t.names, t.now;
      var liveInodePID := LiveInodes(table);
      var inodeToPID := MergeLive(liveInodePID);
      var current, newConns := AddNew(raws, inodeToPID, names, now);
      var gone;
      ghost var closed;
      gone, closed := DropGone(current, now);
      events := Announce(NewConnection, newConns, now) + gone;
      live := liveInodePID;
      r := ScanRecord(Snapshot(Converter(read, inodeToPID, names, now), raws, |raws|), now, closed, known);
      LiveIsShown(t, live);
      ScanKeys(old(known), r);
      forall k ensures k in known <==>
          exists i :: 0 <= i < |raws| && raws[i].State() != 10 &&
                      Converter(read, inodePID, names, now)(raws[i]).Key() == k
      {
        SnapshotKeys(Converter(read, inodePID, names, now), raws, k);
      }
    }

    /**
     The poll loop over the ticks of a run: a scan for every tick whose scan goes through, in order, and
     nothing for the others.
     */
    method Poll(ticks: seq<Tick>)
      returns (trace: seq<Event>, ghost lives: seq<map<nat, int>>, ghost scans: seq<ScanRecord>)
      requires Valid() && known == map[] && inodePID == map[]
      modifies this
      ensures Valid()
      ensures IsHistory(read, Completed(backend, ticks, |ticks|), lives, scans, trace, known, inodePID)
      ensures known.Keys == LatestKeys(scans)
      ensures TicksAscend(ticks) ==> ClockAscends(scans)
    {
      trace, lives, scans := [], [], [];
      for i := 0 to |ticks|
        invariant Valid() && IsHistory(read, Completed(backend, ticks, i), lives, scans, trace, known, inodePID)
      {
        ghost var before, cache := known, inodePID;
        var events;
        ghost var live, r;
        events, live, r := ScanAndEmit(ticks[i]);
        if GoesThrough(backend, ticks[i]) {
          HistorySnoc(read, Completed(backend, ticks, i), lives, scans, trace, before, cache, ticks[i], live, r);
          lives, scans := lives + [live], scans + [r];
        }
        trace := trace + events;
      }
      LatestKeysAreKnown(scans);
      if TicksAscend(ticks) {
        CompletedAscend(backend, ticks, |ticks|);
        PolledClock(read, Completed(backend, ticks, |ticks|), lives, scans);
      }
    }
  }
}
