/**
 From what a backend reads to connections: the owner of the socket, the direction, and the agreement of
 the netlink and the text backend on IPv4 sockets.
 */
module Sockets {
  import opened Types
  import opened Netlink
  import opened ProcNet
  import Scan

  /** A socket as one of the two polling backends reads it. */
  datatype Raw = FromNetlink(diag: NetlinkConn) | FromProc(row: RawConnection)
  {
    function LocalIP(read: string -> IP): IP {
      if FromNetlink? then diag.localIP else read(row.localIP)
    }

    function RemoteIP(read: string -> IP): IP {
      if FromNetlink? then diag.remoteIP else read(row.remoteIP)
    }

    function LocalPort(): int {
      if FromNetlink? then diag.localPort else row.localPort
    }

    function RemotePort(): int {
      if FromNetlink? then diag.remotePort else row.remotePort
    }

    function State(): int {
      if FromNetlink? then diag.state else row.state
    }

    function Inode(): nat {
      if FromNetlink? then diag.inode else row.inode
    }
  }

  /** Conversion to uint16 keeps the low sixteen bits. */
  function Uint16(n: int): Port {
    n % 65536
  }

  /** The zero value stands for an owner that is not known. */
  function PidOf(inodeToPID: map<nat, int>, inode: nat): int {
    if inode in inodeToPID then inodeToPID[inode] else 0
  }

  /** names: the processes whose names can be read. */
  function NameOf(names: map<int, string>, pid: int): string {
    if pid > 0 && pid in names then names[pid] else ""
  }

  /** read gives the address that a column of the table names; in the program it is HexAddress. */
  function ToConnection(
      read: string -> IP, raw: Raw, inodeToPID: map<nat, int>, names: map<int, string>, now: Time): Connection
  {
    var pid := PidOf(inodeToPID, raw.Inode());
    Connection(
      AddressOf(raw.LocalIP(read)), Uint16(raw.LocalPort()), AddressOf(raw.RemoteIP(read)), Uint16(raw.RemotePort()),
      pid, NameOf(names, pid), raw.Inode(), raw.State(), DirectionOf(raw.RemoteIP(read)), now)
  }

  function Converter(
      read: string -> IP, inodeToPID: map<nat, int>, names: map<int, string>, now: Time): Raw -> Connection
  {
    (raw: Raw) => ToConnection(read, raw, inodeToPID, names, now)
  }

  /** The connections of the first n sockets, without those that are listening. */
  function Snapshot(convert: Raw -> Connection, raws: seq<Raw>, n: nat): seq<Connection>
    requires n <= |raws|
  {
    if n == 0 then []
    else
      var before := Snapshot(convert, raws, n - 1);
      if raws[n - 1].State() == STATE_LISTEN then before else before + [convert(raws[n - 1])]
  }

  predicate NotListening(raw: Raw) {
    raw.State() != 10
  }

  lemma {:induction false} SnapshotPicked(convert: Raw -> Connection, raws: seq<Raw>, n: nat) returns (at: seq<nat>)
    requires n <= |raws|
    ensures Picked(NotListening, convert, raws, n, at, Snapshot(convert, raws, n))
  {
    if n == 0 {
      at := [];
    } else {
      at := SnapshotPicked(convert, raws, n - 1);
      PickedSnoc(NotListening, convert, raws, n, at, Snapshot(convert, raws, n - 1));
      if NotListening(raws[n - 1]) {
        at := at + [n - 1];
      }
    }
  }

  /** The snapshot takes the rows whose state is not LISTEN, one connection for each, in their order. */
  lemma SnapshotPicks(convert: Raw -> Connection, raws: seq<Raw>) returns (at: seq<nat>)
    ensures Places(at, |raws|) && |at| == |Snapshot(convert, raws, |raws|)|
    ensures forall i :: 0 <= i < |at| ==> Snapshot(convert, raws, |raws|)[i] == convert(raws[at[i]])
    ensures forall j :: 0 <= j < |raws| ==> (j in at <==> raws[j].State() != 10)
  {
    at := SnapshotPicked(convert, raws, |raws|);
  }

  lemma SnapshotHolds(convert: Raw -> Connection, raws: seq<Raw>, c: Connection)
    ensures c in Snapshot(convert, raws, |raws|) <==>
            exists i :: 0 <= i < |raws| && raws[i].State() != 10 && c == convert(raws[i])
  {
    var at := SnapshotPicks(convert, raws);
    assert forall i :: 0 <= i < |at| ==> at[i] in at;
    if i :| 0 <= i < |raws| && raws[i].State() != 10 && c == convert(raws[i]) {
      assert i in at;
    }
  }

  lemma SnapshotKeys(convert: Raw -> Connection, raws: seq<Raw>, k: ConnectionKey)
    ensures k in Scan.KeysOf(Snapshot(convert, raws, |raws|)) <==>
            exists i :: 0 <= i < |raws| && raws[i].State() != 10 && convert(raws[i]).Key() == k
  {
    var conns := Snapshot(convert, raws, |raws|);
    if i :| 0 <= i < |conns| && conns[i].Key() == k {
      SnapshotHolds(convert, raws, conns[i]);
    }
    if i :| 0 <= i < |raws| && raws[i].State() != 10 && convert(raws[i]).Key() == k {
      SnapshotHolds(convert, raws, convert(raws[i]));
    }
  }

  /** What of a netlink record goes into a connection, and what its inode's owner adds. */
  lemma ConnectionOfDiag(
      read: string -> IP, d: NetlinkConn, inodeToPID: map<nat, int>, names: map<int, string>, now: Time)
    ensures var c := ToConnection(read, FromNetlink(d), inodeToPID, names, now);
            && c.localIP == Address(d.localIP, Text(d.localIP)) && c.remoteIP == Address(d.remoteIP, Text(d.remoteIP))
            && (0 <= d.localPort < 65536 ==> c.localPort == d.localPort)
            && (0 <= d.remotePort < 65536 ==> c.remotePort == d.remotePort)
            && c.state == d.state && c.inode == d.inode && c.createdAt == now
            && (d.inode in inodeToPID ==> c.pid == inodeToPID[d.inode]) && (d.inode !in inodeToPID ==> c.pid == 0)
            && (c.pid in names && c.pid > 0 ==> c.processName == names[c.pid])
            && (c.pid !in names || c.pid <= 0 ==> c.processName == "")
            && (c.direction == Inbound <==> IsLoopback(d.remoteIP) || IsPrivate(d.remoteIP))
            && (c.direction == Unknown <==> d.remoteIP == [])
  {
    DirectionKnownIff(d.remoteIP);
  }

  /** The same of a row of the table. */
  lemma ConnectionOfRow(
      read: string -> IP, r: RawConnection, inodeToPID: map<nat, int>, names: map<int, string>, now: Time)
    ensures var c := ToConnection(read, FromProc(r), inodeToPID, names, now);
            && c.localIP == Address(read(r.localIP), Text(read(r.localIP)))
            && c.remoteIP == Address(read(r.remoteIP), Text(read(r.remoteIP)))
            && (0 <= r.localPort < 65536 ==> c.localPort == r.localPort)
            && (0 <= r.remotePort < 65536 ==> c.remotePort == r.remotePort)
            && c.state == r.state && c.inode == r.inode && c.createdAt == now
            && (r.inode in inodeToPID ==> c.pid == inodeToPID[r.inode]) && (r.inode !in inodeToPID ==> c.pid == 0)
            && (c.pid in names && c.pid > 0 ==> c.processName == names[c.pid])
            && (c.pid !in names || c.pid <= 0 ==> c.processName == "")
            && (c.direction == Inbound <==> IsLoopback(c.remoteIP.ip) || IsPrivate(c.remoteIP.ip))
            && (c.direction == Unknown <==> c.remoteIP.ip == [])
  {
    DirectionKnownIff(read(r.remoteIP));
  }

  /** An IPv4 connection is inbound exactly from the loopback and the private networks, in both address forms. */
  lemma DirectionOfQuad(quad: seq<Byte>)
    requires |quad| == 4
    ensures var inside := quad[0] == 127 || quad[0] == 10 || (quad[0] == 172 && quad[1] / 16 == 1) ||
                          (quad[0] == 192 && quad[1] == 168);
            && DirectionOf(quad) == (if inside then Inbound else Outbound)
            && DirectionOf(V4_IN_V6_PREFIX + quad) == (if inside then Inbound else Outbound)
  {
    DirectionKnownIff(quad);
    FormsAgree(quad);
  }

  /** Any other sixteen bytes are inbound exactly if they are ::1 or in fc00::/7. */
  lemma DirectionOfSixteen(ip: IP)
    requires |ip| == 16 && exists i :: 0 <= i < 12 && ip[i] != if i < 10 then 0 else 255
    ensures DirectionOf(ip) == Inbound <==>
            ip[0] / 2 == 126 || (ip[15] == 1 && forall i :: 0 <= i < 15 ==> ip[i] == 0)
    ensures DirectionOf(ip) != Unknown
  {
    DirectionKnownIff(ip);
    var i :| 0 <= i < 12 && ip[i] != if i < 10 then 0 else 255;
    assert ip[..12][i] == ip[i] && V4_IN_V6_PREFIX[i] == if i < 10 then 0 else 255;
    assert (forall i :: 0 <= i < 15 ==> ip[i] == 0) && ip[15] == 1 ==> ip == IPV6_LOOPBACK;
  }

  /**
   A polled connection has a direction exactly if the remote address could be read. The test for an
   unspecified address never decides: such an address is neither loopback nor private, so it is Outbound.
   */
  lemma DirectionKnownIff(remote: IP)
    ensures DirectionOf(remote) == Unknown <==> remote == []
    ensures DirectionOf(remote) == Inbound <==> IsLoopback(remote) || IsPrivate(remote)
    ensures IsUnspecified(remote) ==> DirectionOf(remote) == Outbound
  {
    if IsUnspecified(remote) && To4(remote).None? {
      assert remote == IPV6_UNSPECIFIED;
      assert remote[15] == 0 && IPV6_LOOPBACK[15] == 1;
    }
  }

  // ----- The two backends agree on IPv4

  predicate IsQuad(q: seq<Byte>) {
    |q| == 4
  }

  /** An IPv4 socket of the kernel. */
  datatype Socket4 = Socket4(
    local: seq<Byte>, localPort: Port, remote: seq<Byte>, remotePort: Port, state: Byte, inode: nat)
  {
    predicate Valid() {
      IsQuad(local) && IsQuad(remote) && inode < 0x1_0000_0000
    }

    /** What the kernel puts into a netlink record. */
    function Diag(): NetlinkConn {
      NetlinkConn(local, localPort, remote, remotePort, state, inode)
    }

    /** What the kernel prints into the table. */
    function Printed(slot: nat): RawConnection
      requires Valid()
    {
      RawConnection(slot, KernelHex(local), localPort, KernelHex(remote), remotePort, state, inode)
    }
  }

  /** The same address in its four-byte and its sixteen-byte form. */
  lemma FormsAgree(quad: seq<Byte>)
    requires IsQuad(quad)
    ensures var long := V4_IN_V6_PREFIX + quad;
            Text(long) == Text(quad) && DirectionOf(long) == DirectionOf(quad)
  {
    var long := V4_IN_V6_PREFIX + quad;
    assert long[..12] == V4_IN_V6_PREFIX && long[12..] == quad;
  }

  lemma PrintedAddress(quad: seq<Byte>)
    requires IsQuad(quad)
    ensures HexAddress(KernelHex(quad)) == V4_IN_V6_PREFIX + quad
  {
    var a, b, c, d := quad[0], quad[1], quad[2], quad[3];
    assert quad == [a, b, c, d];
    HexToIPNamesBytes(quad);
    DottedReadsBack(a, b, c, d);
  }

  /** The text backend's view of a connection: the addresses in their sixteen-byte form, all else alike. */
  function LongForm(c: Connection): Connection {
    c.(localIP := Address(V4_IN_V6_PREFIX + c.localIP.ip, c.localIP.text),
       remoteIP := Address(V4_IN_V6_PREFIX + c.remoteIP.ip, c.remoteIP.text))
  }

  lemma RawsAgree(s: Socket4, slot: nat, inodeToPID: map<nat, int>, names: map<int, string>, now: Time)
    requires s.Valid()
    ensures ToConnection(HexAddress, FromProc(s.Printed(slot)), inodeToPID, names, now)
            == LongForm(ToConnection(HexAddress, FromNetlink(s.Diag()), inodeToPID, names, now))
  {
    PrintedAddress(s.local);
    PrintedAddress(s.remote);
    FormsAgree(s.local);
    FormsAgree(s.remote);
  }

  /**
   From one socket's netlink record and its line in the table the backends build connections with the
   same key, which differ in the form of their addresses only.
   */
  lemma BackendsAgree(
      s: Socket4, slot: nat, f: Filler, attributes: seq<Byte>, line: Row,
      inodeToPID: map<nat, int>, names: map<int, string>, now: Time)
    requires s.Valid() && RecordRanged(s.Diag(), f) && WellFormed(line) && line.conn == s.Printed(slot)
    ensures LineEntry(RowText(line)).Some?
    ensures var diag := ParseRecord(true, RecordBytes(true, s.Diag(), f) + attributes);
            var a := ToConnection(HexAddress, FromNetlink(diag), inodeToPID, names, now);
            var b := ToConnection(HexAddress, FromProc(LineEntry(RowText(line)).value), inodeToPID, names, now);
            a.Key() == b.Key() && b == LongForm(a)
  {
    RecordReadsBack(true, s.Diag(), f, attributes);
    RowReadsBack(line);
    RawsAgree(s, slot, inodeToPID, names, now);
  }

  /** raws and raws' are two readings of the same sockets. */
  ghost predicate SameSockets(raws: seq<Raw>, raws': seq<Raw>, sockets: seq<Socket4>) {
    && |raws| == |raws'| == |sockets|
    && forall i :: 0 <= i < |sockets| ==> Reads(raws[i], raws'[i], sockets[i])
  }

  ghost predicate Reads(raw: Raw, raw': Raw, s: Socket4) {
    s.Valid() && raw == FromNetlink(s.Diag()) && exists slot: nat :: raw' == FromProc(s.Printed(slot))
  }

  predicate SameKeys(a: seq<Connection>, b: seq<Connection>) {
    |a| == |b| && forall i :: 0 <= i < |a| ==> a[i].Key() == b[i].Key()
  }

  lemma ReadingsAgree(raw: Raw, raw': Raw, s: Socket4, inodeToPID: map<nat, int>, names: map<int, string>, now: Time)
    requires Reads(raw, raw', s)
    ensures raw.State() == raw'.State()
    ensures ToConnection(HexAddress, raw, inodeToPID, names, now).Key()
            == ToConnection(HexAddress, raw', inodeToPID, names, now).Key()
  {
    var slot: nat :| raw' == FromProc(s.Printed(slot));
    RawsAgree(s, slot, inodeToPID, names, now);
  }

  lemma {:induction false} SnapshotsAgree(convert: Raw -> Connection, raws: seq<Raw>, raws': seq<Raw>, n: nat)
    requires n <= |raws| == |raws'|
    requires forall i :: 0 <= i < |raws| ==>
               raws[i].State() == raws'[i].State() && convert(raws[i]).Key() == convert(raws'[i]).Key()
    ensures SameKeys(Snapshot(convert, raws, n), Snapshot(convert, raws', n))
  {
    if n > 0 {
      SnapshotsAgree(convert, raws, raws', n - 1);
    }
  }

  lemma RawListsAgree(
      raws: seq<Raw>, raws': seq<Raw>, sockets: seq<Socket4>,
      inodeToPID: map<nat, int>, names: map<int, string>, now: Time)
    requires SameSockets(raws, raws', sockets)
    ensures var convert := Converter(HexAddress, inodeToPID, names, now);
            SameKeys(Snapshot(convert, raws, |raws|), Snapshot(convert, raws', |raws'|))
  {
    var convert := Converter(HexAddress, inodeToPID, names, now);
    forall i | 0 <= i < |raws|
      ensures raws[i].State() == raws'[i].State() && convert(raws[i]).Key() == convert(raws'[i]).Key()
    {
      ReadingsAgree(raws[i], raws'[i], sockets[i], inodeToPID, names, now);
    }
    SnapshotsAgree(convert, raws, raws', |raws|);
  }

  lemma KeysAgree(a: seq<Connection>, b: seq<Connection>)
    requires SameKeys(a, b)
    ensures Scan.KeysOf(a) == Scan.KeysOf(b)
  {}

  lemma ScanKeys(known: Scan.Known, r: Scan.ScanRecord)
    requires Scan.IsScan(known, r)
    ensures r.after.Keys == Scan.KeysOf(r.conns)
  {
    forall k ensures k in r.after.Keys <==> k in Scan.KeysOf(r.conns) {
      Scan.ScanKnowsSnapshot(known, r, k);
    }
  }

  /** Whatever they knew before, two capturers whose snapshots have the same keys know the same keys afterwards. */
  lemma ScansAgree(known: Scan.Known, r: Scan.ScanRecord, known': Scan.Known, r': Scan.ScanRecord)
    requires Scan.IsScan(known, r) && Scan.IsScan(known', r') && SameKeys(r.conns, r'.conns)
    ensures r.after.Keys == r'.after.Keys
  {
    KeysAgree(r.conns, r'.conns);
    ScanKeys(known, r);
    ScanKeys(known', r');
  }

  /** What a netlink dump and a table of the same sockets say. */
  ghost predicate SameContents(
      conns: seq<NetlinkConn>, rows: seq<RawConnection>, sockets: seq<Socket4>, slots: seq<nat>)
  {
    && |conns| == |rows| == |sockets| == |slots|
    && forall i :: 0 <= i < |sockets| ==>
         sockets[i].Valid() && conns[i] == sockets[i].Diag() && rows[i] == sockets[i].Printed(slots[i])
  }

  function NetlinkRaws(conns: seq<NetlinkConn>): (raws: seq<Raw>)
    ensures |raws| == |conns| && forall i :: 0 <= i < |conns| ==> raws[i] == FromNetlink(conns[i])
  {
    seq(|conns|, i requires 0 <= i < |conns| => FromNetlink(conns[i]))
  }

  function ProcRaws(rows: seq<RawConnection>): (raws: seq<Raw>)
    ensures |raws| == |rows| && forall i :: 0 <= i < |rows| ==> raws[i] == FromProc(rows[i])
  {
    seq(|rows|, i requires 0 <= i < |rows| => FromProc(rows[i]))
  }

  lemma ContentsAreReadings(conns: seq<NetlinkConn>, rows: seq<RawConnection>, sockets: seq<Socket4>, slots: seq<nat>)
    requires SameContents(conns, rows, sockets, slots)
    ensures SameSockets(NetlinkRaws(conns), ProcRaws(rows), sockets)
  {
    forall i | 0 <= i < |sockets| ensures Reads(NetlinkRaws(conns)[i], ProcRaws(rows)[i], sockets[i]) {
      assert ProcRaws(rows)[i] == FromProc(sockets[i].Printed(slots[i]));
    }
  }

  /**
   From the bytes of a dump and the text of a table of the same IPv4 sockets, however padded and
   interleaved with noise, the two backends read connections with the same keys in the same order.
   */
  lemma DumpAndTableAgree(
      ms: seq<Message>, items: seq<Item>, done: Message, rest: seq<Byte>,
      header: string, entries: seq<Entry>, sockets: seq<Socket4>, slots: seq<nat>, convert: Raw -> Connection,
      inodeToPID: map<nat, int>, names: map<int, string>, now: Time)
    requires Spells(true, ms, items) && HeaderFits(done) && done.kind == NLMSG_DONE
    requires OneLine(header) && ValidEntries(entries)
    requires SameContents(SocketsAmong(items), Printings(entries), sockets, slots)
    requires convert == Converter(HexAddress, inodeToPID, names, now)
    ensures var w := WalkFrom(true, EncodeAll(true, ms) + (Encode(true, done) + rest));
            var table := Table(FileText(LinesOf(header, entries)));
            && w.Walked? && w.error.None?
            && SameKeys(Snapshot(convert, NetlinkRaws(w.conns), |w.conns|), Snapshot(convert, ProcRaws(table), |table|))
  {
    DumpReadsBack(true, ms, items, done, rest);
    TableReadsBack(header, entries);
    ContentsAreReadings(SocketsAmong(items), Printings(entries), sockets, slots);
    RawListsAgree(NetlinkRaws(SocketsAmong(items)), ProcRaws(Printings(entries)), sockets, inodeToPID, names, now);
  }
}
