/**
 The eBPF backend: the decoder of event samples, the handling of one sample, and the periodic resync
 with the socket table. The host is little-endian.
 */
module Ebpf {
  import opened Types
  import opened Sockets
  import opened Scan
  import opened EbpfIndex
  import Netlink
  import ProcNet
  import Capturer

  const SAMPLE := 88
  const COMM := 16
  const EVENT_CLOSE := 3
  const AF_INET6 := 10

  // ----- Samples

  datatype BpfEvent = BpfEvent(
    kind: int, pid: int, comm: seq<Byte>, localIP: IP, localPort: Port, remoteIP: IP, remotePort: Port, inode: nat)

  /** The index of the first zero byte from n on, or the length. */
  function ZeroAt(b: seq<Byte>, n: nat): (i: nat)
    requires n <= |b|
    ensures n <= i <= |b| && (i < |b| ==> b[i] == 0) && forall j :: n <= j < i ==> b[j] != 0
    decreases |b| - n
  {
    if n == |b| || b[n] == 0 then n else ZeroAt(b, n + 1)
  }

  /** A C string: the bytes before the first zero. */
  function CString(b: seq<Byte>): string {
    seq(ZeroAt(b, 0), i requires 0 <= i < ZeroAt(b, 0) => b[i] as char)
  }

  method TrimStr(b: seq<Byte>) returns (s: string)
    ensures s == CString(b)
    ensures |s| <= |b| && (|s| < |b| ==> b[|s|] == 0)
    ensures forall i :: 0 <= i < |s| ==> b[i] != 0 && s[i] == b[i] as char
  {
    var i := 0;
    while i < |b| && b[i] != 0
      invariant i <= |b| && ZeroAt(b, i) == ZeroAt(b, 0)
    {
      i := i + 1;
    }
    s := seq(i, j requires 0 <= j < i => b[j] as char);
  }

  /** The bytes of a word, lowest first. */
  function WordBytes(n: nat): seq<Byte> {
    [n % 256, n / 256 % 256, n / 65536 % 256, n / 16777216 % 256]
  }

  function Swap16(n: nat): Port
    requires n < 65536
  {
    n / 256 + 256 * (n % 256)
  }

  function ParseSample(d: seq<Byte>): BpfEvent
    requires |d| >= SAMPLE
  {
    var four := Netlink.Get16(true, d, 28) == Netlink.AF_INET;
    BpfEvent(
      Netlink.Get32(true, d, 0),
      Netlink.Get32(true, d, 4),
      d[12..28],
      if four then WordBytes(Netlink.Get32(true, d, 36)) else d[44..60],
      Netlink.Get16(true, d, 30),
      if four then WordBytes(Netlink.Get32(true, d, 40)) else d[60..76],
      Swap16(Netlink.Get16(true, d, 32)),
      Netlink.Get32(true, d, 80) + 0x1_0000_0000 * Netlink.Get32(true, d, 84))
  }

  /** What a sample holds beside the event: thread, padding, and the address fields of the other family. */
  datatype SampleFiller = SampleFiller(
    thread: seq<Byte>, gap: seq<Byte>, otherV4: seq<Byte>, otherV6: seq<Byte>, tail: seq<Byte>)

  predicate SampleRanged(e: BpfEvent, f: SampleFiller) {
    && 0 <= e.kind < 0x1_0000_0000 && 0 <= e.pid < 0x1_0000_0000 && e.inode < 0x1_0000_0000_0000_0000
    && |e.comm| == COMM && |f.thread| == 4 && |f.gap| == 2 && |f.tail| == 4
    && |e.localIP| == |e.remoteIP|
    && ((|e.localIP| == 4 && f.otherV4 == [] && |f.otherV6| == 32) ||
        (|e.localIP| == 16 && f.otherV6 == [] && |f.otherV4| == 8))
  }

  /** The sample's tracepoint part: who, and which kind of event. */
  function SampleHead(e: BpfEvent, f: SampleFiller): (d: seq<Byte>)
    requires SampleRanged(e, f)
    ensures |d| == 36
  {
    Netlink.Put32(true, e.kind) + Netlink.Put32(true, e.pid) + f.thread + e.comm
    + Netlink.Put16(true, if |e.localIP| == 4 then Netlink.AF_INET else AF_INET6)
    + Netlink.Put16(true, e.localPort) + Netlink.Put16(false, e.remotePort) + f.gap
  }

  /** The kernel's sample: the local port in host order, the remote port and the addresses in network order. */
  function SampleBytes(e: BpfEvent, f: SampleFiller): (d: seq<Byte>)
    requires SampleRanged(e, f)
    ensures |d| == SAMPLE
  {
    SampleHead(e, f)
    + (if |e.localIP| == 4 then e.localIP + e.remoteIP + f.otherV6 else f.otherV4 + e.localIP + e.remoteIP)
    + f.tail + Netlink.Put32(true, e.inode % 0x1_0000_0000) + Netlink.Put32(true, e.inode / 0x1_0000_0000)
  }

  lemma Get16Of(little: bool, d: seq<Byte>, at: nat, n: int)
    requires at + 2 <= |d| && 0 <= n < 65536 && d[at..at + 2] == Netlink.Put16(little, n)
    ensures Netlink.Get16(little, d, at) == n
  {
    var p := d[at..at + 2];
    assert p[0] == d[at] && p[1] == d[at + 1];
  }

  lemma Get32Of(d: seq<Byte>, at: nat, n: int)
    requires at + 4 <= |d| && 0 <= n < 0x1_0000_0000 && d[at..at + 4] == Netlink.Put32(true, n)
    ensures Netlink.Get32(true, d, at) == n
  {
    var p := d[at..at + 4];
    assert p[0] == d[at] && p[1] == d[at + 1] && p[2] == d[at + 2] && p[3] == d[at + 3];
  }

  /** Reading four bytes as a word and taking it apart again gives the four bytes. */
  lemma WordOf(d: seq<Byte>, at: nat)
    requires at + 4 <= |d|
    ensures WordBytes(Netlink.Get32(true, d, at)) == d[at..at + 4]
  {
    ProcNet.NativeWordBytes(d[at], d[at + 1], d[at + 2], d[at + 3]);
  }

  /** The bytes swapped are the bytes read in network order. */
  lemma SwapOf(d: seq<Byte>, at: nat)
    requires at + 2 <= |d|
    ensures Swap16(Netlink.Get16(true, d, at)) == Netlink.Get16(false, d, at)
  {}

  lemma HeadPlaces(e: BpfEvent, f: SampleFiller, d: seq<Byte>)
    requires SampleRanged(e, f) && |d| >= 36 && d[..36] == SampleHead(e, f)
    ensures Netlink.Get32(true, d, 0) == e.kind && Netlink.Get32(true, d, 4) == e.pid && d[12..28] == e.comm
    ensures Netlink.Get16(true, d, 28) == if |e.localIP| == 4 then Netlink.AF_INET else AF_INET6
    ensures Netlink.Get16(true, d, 30) == e.localPort && Netlink.Get16(false, d, 32) == e.remotePort
  {
    var h := SampleHead(e, f);
    assert d[0..4] == h[0..4] == Netlink.Put32(true, e.kind);
    assert d[4..8] == h[4..8] == Netlink.Put32(true, e.pid);
    assert d[12..28] == h[12..28] == e.comm;
    assert d[28..30] == h[28..30];
    assert d[30..32] == h[30..32] == Netlink.Put16(true, e.localPort);
    assert d[32..34] == h[32..34] == Netlink.Put16(false, e.remotePort);
    Get32Of(d, 0, e.kind);
    Get32Of(d, 4, e.pid);
    Get16Of(true, d, 28, if |e.localIP| == 4 then Netlink.AF_INET else AF_INET6);
    Get16Of(true, d, 30, e.localPort);
    Get16Of(false, d, 32, e.remotePort);
  }

  lemma TailPlaces(e: BpfEvent, f: SampleFiller, rest: seq<Byte>)
    requires SampleRanged(e, f)
    ensures var d := SampleBytes(e, f) + rest;
            && d[..36] == SampleHead(e, f)
            && (|e.localIP| == 4 ==> d[36..40] == e.localIP && d[40..44] == e.remoteIP)
            && (|e.localIP| == 16 ==> d[44..60] == e.localIP && d[60..76] == e.remoteIP)
            && d[80..84] == Netlink.Put32(true, e.inode % 0x1_0000_0000)
            && d[84..88] == Netlink.Put32(true, e.inode / 0x1_0000_0000)
  {}

  /** Decoding inverts the kernel's encoding, in both families; bytes behind the sample do not matter. */
  lemma SampleReadsBack(e: BpfEvent, f: SampleFiller, rest: seq<Byte>)
    requires SampleRanged(e, f)
    ensures ParseSample(SampleBytes(e, f) + rest) == e
  {
    var d := SampleBytes(e, f) + rest;
    TailPlaces(e, f, rest);
    HeadPlaces(e, f, d);
    SwapOf(d, 32);
    WordOf(d, 36);
    WordOf(d, 40);
    Get32Of(d, 80, e.inode % 0x1_0000_0000);
    Get32Of(d, 84, e.inode / 0x1_0000_0000);
  }

  // ----- What a sample means

  function SampleDirection(remote: IP): Direction {
    if IsLoopback(remote) || IsPrivate(remote) then Inbound else Outbound
  }

  /** The backends agree on the direction. */
  lemma DirectionsAgree(remote: IP)
    requires remote != []
    ensures SampleDirection(remote) == DirectionOf(remote)
  {
    DirectionKnownIff(remote);
  }

  function ConnectionOf(e: BpfEvent, now: Time): Connection {
    Connection(
      AddressOf(e.localIP), e.localPort, AddressOf(e.remoteIP), e.remotePort, e.pid, CString(e.comm), e.inode,
      if e.kind == EVENT_CLOSE then STATE_CLOSE else STATE_ESTABLISHED, SampleDirection(e.remoteIP), now)
  }

  /** What a connection has of a sample, owner and name apart: endpoints, inode, time, state and direction. */
  predicate Sampled(c: Connection, e: BpfEvent, now: Time) {
    && c.localIP == Address(e.localIP, Text(e.localIP)) && c.localPort == e.localPort
    && c.remoteIP == Address(e.remoteIP, Text(e.remoteIP)) && c.remotePort == e.remotePort
    && c.inode == e.inode && c.createdAt == now && c.state == (if e.kind == 3 then 7 else 1)
    && c.direction == (if IsLoopback(e.remoteIP) || IsPrivate(e.remoteIP) then Inbound else Outbound)
  }

  function StepOf(e: BpfEvent, now: Time): Step {
    if e.kind == EVENT_CLOSE then InodeClosed(e.inode) else Opened(ConnectionOf(e, now))
  }

  /** The event a sample is turned into; a close takes owner and name from the connection it finds. */
  function EventOf(s: Index, e: BpfEvent, now: Time): Event {
    var c := ConnectionOf(e, now);
    if e.kind != EVENT_CLOSE then Event(now, NewConnection, c)
    else if e.inode in s.inodeConn && s.inodeConn[e.inode] in s.known then
      var orig := s.known[s.inodeConn[e.inode]];
      Event(now, ConnectionClosed, c.(processName := orig.processName, pid := orig.pid))
    else Event(now, ConnectionClosed, c)
  }

  /**
   From s, a sample leads to the event and the maps of t. A close (the word at offset 0 is 3) that finds
   its inode takes owner and name from the connection found, which goes; any other event has those of the
   sample, and a close that finds nothing changes nothing. What is no close is announced, and is entered
   unless its key is known.
   */
  ghost predicate Handled(s: Index, sample: seq<Byte>, now: Time, event: Event, t: Index)
    requires |sample| >= 88
  {
    var e, c, closing := ParseSample(sample), event.conn, Netlink.Get32(true, sample, 0) == 3;
    && event.timestamp == now
    && event.kind == (if closing then ConnectionClosed else NewConnection)
    && Sampled(c, e, now)
    && if closing && e.inode in s.inodeConn then
         var k := s.inodeConn[e.inode];
         && k in s.known && c.pid == s.known[k].pid && c.processName == s.known[k].processName
         && t.known == s.known - {k} && t.inodeConn == s.inodeConn - {e.inode}
       else
         && c.pid == e.pid && c.processName == CString(e.comm)
         && if closing || c.Key() in s.known then t == s
            else
              && t.known == s.known[c.Key() := c]
              && t.inodeConn == if e.inode > 0 then s.inodeConn[e.inode := c.Key()] else s.inodeConn
  }

  /** The event and the step that a sample stands for do what is expected of them. */
  lemma HandledAsDefined(s: Index, sample: seq<Byte>, now: Time)
    requires |sample| >= 88 && IsPartialInverse(s)
    ensures var e := ParseSample(sample);
            Handled(s, sample, now, EventOf(s, e, now), Apply(s, StepOf(e, now)))
  {
    var e := ParseSample(sample);
    assert Sampled(EventOf(s, e, now).conn, e, now);
  }

  /** The event that the kernel samples on an IPv4 socket. */
  function SampledOn(s: Socket4, kind: int, pid: int, comm: seq<Byte>): BpfEvent {
    BpfEvent(kind, pid, comm, s.local, s.localPort, s.remote, s.remotePort, s.inode)
  }

  lemma EventKeyAgrees(
      s: Socket4, kind: int, pid: int, comm: seq<Byte>,
      inodeToPID: map<nat, int>, names: map<int, string>, now: Time)
    requires s.inode in inodeToPID && inodeToPID[s.inode] == pid
    ensures ConnectionOf(SampledOn(s, kind, pid, comm), now).Key()
            == ToConnection(ProcNet.HexAddress, FromNetlink(s.Diag()), inodeToPID, names, now).Key()
  {}

  /**
   From the bytes of a socket's sample comes the key that the polling backends give the socket, once
   they have its owner.
   */
  lemma SampleKeyAgrees(
      s: Socket4, kind: int, pid: int, comm: seq<Byte>, f: SampleFiller, rest: seq<Byte>, sample: seq<Byte>,
      inodeToPID: map<nat, int>, names: map<int, string>, now: Time)
    requires s.Valid() && SampleRanged(SampledOn(s, kind, pid, comm), f)
    requires sample == SampleBytes(SampledOn(s, kind, pid, comm), f) + rest
    requires s.inode in inodeToPID && inodeToPID[s.inode] == pid
    ensures ConnectionOf(ParseSample(sample), now).Key()
            == ToConnection(ProcNet.HexAddress, FromNetlink(s.Diag()), inodeToPID, names, now).Key()
  {
    SampleReadsBack(SampledOn(s, kind, pid, comm), f, rest);
    EventKeyAgrees(s, kind, pid, comm, inodeToPID, names, now);
  }

  /**
   A close that finds its inode reports the owner of exactly the connection that it removes; it carries
   that connection's key if and only if the sample names the same endpoints.
   */
  lemma CloseReportsOwner(s: Index, e: BpfEvent, now: Time)
    requires IsPartialInverse(s) && e.kind == EVENT_CLOSE && e.inode in s.inodeConn
    ensures var k, closed := s.inodeConn[e.inode], EventOf(s, e, now).conn;
            && k in s.known && Apply(s, StepOf(e, now)).known == s.known - {k}
            && closed.pid == s.known[k].pid && closed.processName == s.known[k].processName
            && (closed.Key() == k <==> Text(e.localIP) == k.localIP && e.localPort == k.localPort &&
                                       Text(e.remoteIP) == k.remoteIP && e.remotePort == k.remotePort)
  {
    var k := s.inodeConn[e.inode];
    assert s.known[k].Key() == k;
  }

  /** A sample's New is in order if and only if its key was not known; it is announced either way. */
  lemma NewIsInOrderIff(s: Index, e: BpfEvent, now: Time)
    requires e.kind != EVENT_CLOSE
    ensures EventOf(s, e, now) == Event(now, NewConnection, ConnectionOf(e, now))
    ensures Scan.Step(s.known, EventOf(s, e, now)) == Some(Apply(s, StepOf(e, now)).known)
            <==> ConnectionOf(e, now).Key() !in s.known
  {}

  // ----- Owners for the resync

  datatype PidInfo = PidInfo(pid: nat, comm: seq<Byte>)

  /** The inodes of the first n rows. */
  function Inodes(rows: seq<ProcNet.RawConnection>, n: nat): set<nat>
    requires n <= |rows|
  {
    if n == 0 then {} else Inodes(rows, n - 1) + {rows[n - 1].inode}
  }

  /** The owners that the kernel's map has for inodes; 0 is no inode. */
  function BpfPids(inodes: set<nat>, bpf: map<nat, PidInfo>): map<nat, int> {
    map i | i in bpf && i in inodes && i != 0 :: bpf[i].pid
  }

  function BpfNames(inodes: set<nat>, bpf: map<nat, PidInfo>): map<nat, string> {
    map i | i in bpf && i in inodes && i != 0 :: CString(bpf[i].comm)
  }

  lemma OnePidMore(inodes: set<nat>, inode: nat, bpf: map<nat, PidInfo>)
    ensures var pids := BpfPids(inodes, bpf);
            BpfPids(inodes + {inode}, bpf)
            == if inode != 0 && inode in bpf then pids[inode := bpf[inode].pid] else pids
  {}

  lemma OneNameMore(inodes: set<nat>, inode: nat, bpf: map<nat, PidInfo>)
    ensures var comms := BpfNames(inodes, bpf);
            BpfNames(inodes + {inode}, bpf)
            == if inode != 0 && inode in bpf then comms[inode := CString(bpf[inode].comm)] else comms
  {}

  method LookUp(rows: seq<ProcNet.RawConnection>, bpf: map<nat, PidInfo>)
    returns (pids: map<nat, int>, comms: map<nat, string>)
    ensures pids == BpfPids(Inodes(rows, |rows|), bpf) && comms == BpfNames(Inodes(rows, |rows|), bpf)
  {
    pids, comms := map[], map[];
    for n := 0 to |rows|
      invariant pids == BpfPids(Inodes(rows, n), bpf) && comms == BpfNames(Inodes(rows, n), bpf)
    {
      var inode := rows[n].inode;
      OnePidMore(Inodes(rows, n), inode, bpf);
      OneNameMore(Inodes(rows, n), inode, bpf);
      if inode == 0 || inode in pids {
        continue;
      }
      if inode in bpf {
        pids := pids[inode := bpf[inode].pid];
        comms := comms[inode := CString(bpf[inode].comm)];
      }
    }
  }

  /** The kernel's owners first, those of the process table where there is none. */
  method Owners(bpfPids: map<nat, int>, procPids: map<nat, int>) returns (owners: map<nat, int>)
    ensures owners == procPids + bpfPids
  {
    owners := bpfPids;
    var rest := procPids.Keys;
    while rest != {}
      invariant rest <= procPids.Keys
      invariant owners == (procPids - rest) + bpfPids
    {
      var inode :| inode in rest;
      if inode !in owners {
        owners := owners[inode := procPids[inode]];
      }
      rest := rest - {inode};
    }
    assert procPids - rest == procPids;
  }

  /** The connection of a row; the kernel's name for its owner comes first. */
  function SyncConverter(
      owners: map<nat, int>, comms: map<nat, string>, names: map<int, string>, now: Time): Raw -> Connection
  {
    (raw: Raw) =>
      var c := ToConnection(ProcNet.HexAddress, raw, owners, names, now);
      if raw.Inode() in comms && comms[raw.Inode()] != "" then c.(processName := comms[raw.Inode()]) else c
  }

  lemma RowKeys(convert: Raw -> Connection, rows: seq<ProcNet.RawConnection>)
    ensures forall k :: k in KeysOf(Snapshot(convert, ProcRaws(rows), |rows|)) <==>
              exists i :: 0 <= i < |rows| && rows[i].state != 10 && convert(FromProc(rows[i])).Key() == k
  {
    forall k ensures k in KeysOf(Snapshot(convert, ProcRaws(rows), |rows|)) <==>
        exists i :: 0 <= i < |rows| && rows[i].state != 10 && convert(FromProc(rows[i])).Key() == k
    {
      var raws := ProcRaws(rows);
      SnapshotKeys(convert, raws, k);
      assert forall i :: 0 <= i < |rows| ==> raws[i] == FromProc(rows[i]) && raws[i].State() == rows[i].state;
    }
  }

  lemma {:induction false} InodesHold(rows: seq<ProcNet.RawConnection>, n: nat, i: nat)
    requires i < n <= |rows|
    ensures rows[i].inode in Inodes(rows, n)
  {
    if i < n - 1 {
      InodesHold(rows, n - 1, i);
    }
  }

  /**
   The owner and the name that the resync gives a row: the kernel's, if it has one for the inode and the
   inode is not 0; else that of the process table; a name that the kernel lacks is looked up.
   */
  lemma SyncedRow(
      rows: seq<ProcNet.RawConnection>, i: nat, bpf: map<nat, PidInfo>, live: map<nat, int>, names: map<int, string>,
      now: Time)
    requires i < |rows|
    ensures var row, inodes := rows[i], Inodes(rows, |rows|);
            var c := SyncConverter(live + BpfPids(inodes, bpf), BpfNames(inodes, bpf), names, now)(FromProc(row));
            && (row.inode != 0 && row.inode in bpf ==>
                  && c.pid == bpf[row.inode].pid
                  && (CString(bpf[row.inode].comm) != "" ==> c.processName == CString(bpf[row.inode].comm)))
            && (row.inode == 0 || row.inode !in bpf ==>
                  c.pid == if row.inode in live then live[row.inode] else 0)
            && (row.inode == 0 || row.inode !in bpf || CString(bpf[row.inode].comm) == "" ==>
                  c.processName == if c.pid > 0 && c.pid in names then names[c.pid] else "")
            && c.state == row.state && c.inode == row.inode && c.createdAt == now
  {
    InodesHold(rows, |rows|, i);
  }

  // ----- The capturer

  class EbpfCapturer {
    var known: Known
    var inodeConn: map<nat, ConnectionKey>
    /** Everything that was done under the lock so far. */
    ghost var history: seq<EbpfIndex.Step>

    ghost function Value(): Index
      reads this
    {
      Index(known, inodeConn)
    }

    ghost predicate Valid()
      reads this
    {
      Value() == Run(EMPTY, history, |history|)
    }

    constructor ()
      ensures Valid() && history == []
    {
      known, inodeConn, history := map[], map[], [];
    }

    /** The index is sound whenever the lock is free. */
    lemma IndexIsSound()
      requires Valid()
      ensures IsPartialInverse(Value())
    {
      RunKeepsInverse(EMPTY, history, |history|);
    }

    /** Enters a connection unless its key is known. */
    method Enter(conn: Connection) returns (entered: bool)
      requires Valid()
      modifies this
      ensures Valid() && history == old(history) + [Opened(conn)]
      ensures known == if conn.Key() in old(known) then old(known) else old(known)[conn.Key() := conn]
      ensures entered == (conn.Key() !in old(known))
      ensures inodeConn
              == if entered && conn.inode > 0 then old(inodeConn)[conn.inode := conn.Key()] else old(inodeConn)
      ensures StaysMissed(old(Value()), Value())
    {
      IndexIsSound();
      StepStaysMissed(Value(), Opened(conn));
      RunSnoc(EMPTY, history, Opened(conn));
      history := history + [Opened(conn)];
      var key := conn.Key();
      entered := key !in known;
      if entered {
        known := known[key := conn];
        if conn.inode > 0 {
          inodeConn := inodeConn[conn.inode := key];
        }
      }
    }

    /** Removes a connection. */
    method Forget(key: ConnectionKey) returns (conn: Connection)
      requires Valid() && key in known
      modifies this
      ensures Valid() && history == old(history) + [Forgotten(key)]
      ensures known == old(known) - {key} && conn == old(known)[key]
      ensures StaysMissed(old(Value()), Value())
    {
      IndexIsSound();
      StepStaysMissed(Value(), Forgotten(key));
      RunSnoc(EMPTY, history, Forgotten(key));
      history := history + [Forgotten(key)];
      conn := known[key];
      known := known - {key};
      if conn.inode > 0 {
        inodeConn := inodeConn - {conn.inode};
      }
    }

    /** Removes the connection that an inode leads to, if any; the closing one takes its owner and name. */
    method CloseInode(inode: nat, closing: Connection) returns (closed: Connection)
      requires Valid()
      modifies this
      ensures Valid() && history == old(history) + [InodeClosed(inode)]
      ensures if inode in old(inodeConn) then
                var k := old(inodeConn)[inode];
                && k in old(known) && known == old(known) - {k} && inodeConn == old(inodeConn) - {inode}
                && closed == closing.(processName := old(known)[k].processName, pid := old(known)[k].pid)
              else
                closed == closing && Value() == old(Value())
    {
      IndexIsSound();
      RunSnoc(EMPTY, history, InodeClosed(inode));
      history := history + [InodeClosed(inode)];
      closed := closing;
      if inode in inodeConn {
        var key := inodeConn[inode];
        if key in known {
          closed := closed.(processName := known[key].processName, pid := known[key].pid);
          known := known - {key};
          inodeConn := inodeConn - {inode};
        }
      }
    }

    /** One event sample; a short one is dropped. */
    method HandleSample(sample: seq<Byte>, now: Time) returns (event: Option<Event>)
      requires Valid()
      modifies this
      ensures Valid()
      ensures |sample| < 88 ==> event == None && history == old(history) && Value() == old(Value())
      ensures |sample| >= 88 ==>
                && event == Some(EventOf(old(Value()), ParseSample(sample), now))
                && history == old(history) + [StepOf(ParseSample(sample), now)]
                && Handled(old(Value()), sample, now, event.value, Value())
    {
      if |sample| < SAMPLE {
        return None;
      }
      IndexIsSound();
      HandledAsDefined(Value(), sample, now);
      var e := ParseSample(sample);
      var name := TrimStr(e.comm);
      var closing := e.kind == EVENT_CLOSE;
      var conn := Connection(
        AddressOf(e.localIP), e.localPort, AddressOf(e.remoteIP), e.remotePort, e.pid, name, e.inode,
        if closing then STATE_CLOSE else STATE_ESTABLISHED, SampleDirection(e.remoteIP), now);
      assert conn == ConnectionOf(e, now);
      if closing {
        conn := CloseInode(e.inode, conn);
        event := Some(Event(now, ConnectionClosed, conn));
      } else {
        var _ := Enter(conn);
        event := Some(Event(now, NewConnection, conn));
      }
    }

    /** One connection seen; a new one is reported. */
    method See(
        conn: Connection, events0: seq<Event>, current0: set<ConnectionKey>, ghost news0: seq<Connection>, now: Time)
      returns (events: seq<Event>, current: set<ConnectionKey>, ghost newConns: seq<Connection>)
      requires Valid() && events0 == Announce(NewConnection, news0, now)
      modifies this
      ensures Valid() && old(history) <= history && events == Announce(NewConnection, newConns, now)
      ensures Capturer.Progress(known, current, newConns) == Capturer.Progress(old(known), current0, news0).Saw(conn)
      ensures StaysMissed(old(Value()), Value()) && old(known).Keys <= known.Keys
    {
      events, current, newConns := events0, current0 + {conn.Key()}, news0;
      var entered := Enter(conn);
      if entered {
        events, newConns := events + [Event(now, NewConnection, conn)], newConns + [conn];
      }
    }

    /** Enters the connections of all rows that are not listening, and reports the new ones. */
    method AddRows(rows: seq<ProcNet.RawConnection>, convert: Raw -> Connection, now: Time)
      returns (events: seq<Event>, current: set<ConnectionKey>, ghost newConns: seq<Connection>)
      requires Valid()
      modifies this
      ensures Valid() && old(history) <= history
      ensures Capturer.Progress(known, current, newConns)
              == Capturer.Seen(old(known), Snapshot(convert, ProcRaws(rows), |rows|))
      ensures StaysMissed(old(Value()), Value()) && old(known).Keys <= known.Keys
      ensures events == Announce(NewConnection, newConns, now)
    {
      events, current, newConns := [], {}, [];
      ghost var conns: seq<Connection> := [];
      for i := 0 to |rows|
        invariant Valid() && old(history) <= history && conns == Snapshot(convert, ProcRaws(rows), i)
        invariant Capturer.Progress(known, current, newConns) == Capturer.Seen(old(known), conns)
        invariant events == Announce(NewConnection, newConns, now)
        invariant StaysMissed(old(Value()), Value()) && old(known).Keys <= known.Keys
      {
        if rows[i].state == STATE_LISTEN {
          continue;
        }
        var conn := convert(FromProc(rows[i]));
        Capturer.SeenSnoc(old(known), conns, conn);
        conns := conns + [conn];
        ghost var before := Value();
        events, current, newConns := See(conn, events, current, newConns, now);
        StaysMissedLonger(old(Value()), before, Value());
      }
    }

    /** Removes what is not current, in any order, and reports it. */
    method DropGone(current: set<ConnectionKey>, now: Time) returns (events: seq<Event>, ghost closed: seq<Connection>)
      requires Valid()
      modifies this
      ensures Valid() && old(history) <= history
      ensures Enumerates(closed, old(known) - current)
      ensures known == old(known) - (old(known).Keys - current)
      ensures StaysMissed(old(Value()), Value())
      ensures events == Announce(ConnectionClosed, closed, now)
    {
      IndexIsSound();
      events, closed := [], [];
      var rest := known.Keys;
      Capturer.DroppingStarts(known, current);
      while rest != {}
        invariant Valid() && old(history) <= history
        invariant Capturer.Dropping(old(known), current, rest, known, closed)
        invariant events == Announce(ConnectionClosed, closed, now)
        invariant StaysMissed(old(Value()), Value())
        decreases rest
      {
        var key := Capturer.Pick(rest);
        if key !in current {
          Capturer.DropOne(old(known), current, rest, known, closed, key);
          ghost var before := Value();
          var conn := Forget(key);
          StaysMissedLonger(old(Value()), before, Value());
          events, closed := events + [Event(now, ConnectionClosed, conn)], closed + [conn];
        } else {
          Capturer.KeepOne(old(known), current, rest, known, closed, key);
        }
        rest := rest - {key};
      }
      Capturer.DroppingEnds(old(known), current, known, closed);
    }

    /**
     The resync. Whatever samples came before or were lost, afterwards exactly the keys of the rows that
     are not listening are known, and the index leads to no other.
     */
    method SyncProc(
        rows: seq<ProcNet.RawConnection>, bpf: map<nat, PidInfo>, table: Option<Capturer.ProcessTable>,
        names: map<int, string>, now: Time)
      returns (events: seq<Event>, ghost live: map<nat, int>, ghost r: ScanRecord)
      requires Valid()
      modifies this
      ensures Valid() && old(history) <= history
      ensures Capturer.IsLive(if table.Some? then table.value else map[], live)
      ensures var inodes := Inodes(rows, |rows|);
              var owners, comms := live + BpfPids(inodes, bpf), BpfNames(inodes, bpf);
              r.conns == Snapshot(SyncConverter(owners, comms, names, now), ProcRaws(rows), |rows|)
      ensures r.now == now && IsScan(old(known), r) && known == r.after && events == EventsOf(old(known), r)
      ensures var inodes := Inodes(rows, |rows|);
              var owners, comms := live + BpfPids(inodes, bpf), BpfNames(inodes, bpf);
              forall k :: k in known <==>
                exists i :: 0 <= i < |rows| && rows[i].state != 10 &&
                            SyncConverter(owners, comms, names, now)(FromProc(rows[i])).Key() == k
      ensures known.Keys == KeysOf(r.conns)
      ensures forall i :: i in inodeConn ==> inodeConn[i] in KeysOf(r.conns)
      ensures StaysMissed(old(Value()), Value())
    {
      var pids, comms := LookUp(rows, bpf);
      var procPids := Capturer.LiveInodes(match table case Some(t) => t case None => map[]);
      var owners := Owners(pids, procPids);
      var gone, current;
      ghost var newConns, closed;
      events, current, newConns := AddRows(rows, SyncConverter(owners, comms, names, now), now);
      ghost var added := Value();
      gone, closed := DropGone(current, now);
      StaysMissedLonger(old(Value()), added, Value());
      events := events + gone;
      live := procPids;
      r := ScanRecord(Snapshot(SyncConverter(owners, comms, names, now), ProcRaws(rows), |rows|), now, closed, known);
      ScanKeys(old(known), r);
      RowKeys(SyncConverter(owners, comms, names, now), rows);
      IndexIsSound();
    }
  }
}
