/**
 The netlink backend's decoder: the walk over the messages of a datagram (header layout: section 2.3.2
 of RFC 3549), the socket record inside, and the loop over datagrams. The encoder is the specification.
 */
module Netlink {
  import opened Types

  const HEADER := 16
  const RECORD := 72
  const NLMSG_ERROR := 2
  const NLMSG_DONE := 3
  const SOCK_DIAG_BY_FAMILY := 20
  const AF_INET := 2
  /** The receive buffer: no datagram is longer. */
  const MAX_DATAGRAM := 131072

  datatype NetlinkConn = NetlinkConn(
    localIP: IP, localPort: int, remoteIP: IP, remotePort: int, state: int, inode: nat)

  // ----- Numbers in a datagram: native order for headers, network order for ports

  function Get16(little: bool, d: seq<Byte>, at: nat): (n: int)
    requires at + 2 <= |d|
    ensures 0 <= n < 65536
  {
    Join16(little, d[at], d[at + 1])
  }

  function Join16(little: bool, a: int, b: int): int {
    if little then a + 256 * b else 256 * a + b
  }

  function Get32(little: bool, d: seq<Byte>, at: nat): (n: int)
    requires at + 4 <= |d|
    ensures 0 <= n < 0x1_0000_0000
  {
    Join32(little, d[at], d[at + 1], d[at + 2], d[at + 3])
  }

  function Join32(little: bool, a: int, b: int, c: int, d: int): int {
    if little then a + 256 * b + 65536 * c + 16777216 * d else 16777216 * a + 65536 * b + 256 * c + d
  }

  function Put16(little: bool, n: int): (d: seq<Byte>)
    requires 0 <= n < 65536
    ensures |d| == 2 && Join16(little, d[0], d[1]) == n
  {
    if little then [n % 256, n / 256] else [n / 256, n % 256]
  }

  function Put32(little: bool, n: int): (d: seq<Byte>)
    requires 0 <= n < 0x1_0000_0000
    ensures |d| == 4 && Join32(little, d[0], d[1], d[2], d[3]) == n
  {
    var low, high := n % 65536, n / 65536;
    if little then [low % 256, low / 256, high % 256, high / 256]
    else [high / 256, high % 256, low / 256, low % 256]
  }

  /** Little-endian puts the lowest byte first, network order the highest. */
  lemma ByteOrders(a: Byte, b: Byte, c: Byte, d: Byte)
    ensures Get16(true, [a, b], 0) == Get16(false, [b, a], 0) == a + 256 * b
    ensures Get32(true, [a, b, c, d], 0) == Get32(false, [d, c, b, a], 0)
            == a + 256 * b + 65536 * c + 16777216 * d
  {}

  /** The next multiple of four. */
  function Align4(n: int): int {
    (n + 3) / 4 * 4
  }

  // ----- The socket record

  /** The record at the start of data, which goes on to the end of the datagram. */
  function ParseRecord(little: bool, data: seq<Byte>): NetlinkConn
    requires |data| >= RECORD
  {
    var four := data[0] == AF_INET;
    NetlinkConn(
      if four then data[8..12] else data[8..24],
      Get16(false, data, 4),
      if four then data[24..28] else data[24..40],
      Get16(false, data, 6),
      data[1],
      Get32(little, data, 68))
  }

  /** What the record says beside the connection: two bytes, unused address bytes, and the middle part. */
  datatype Filler = Filler(timers: seq<Byte>, source: seq<Byte>, destination: seq<Byte>, middle: seq<Byte>)

  predicate RecordRanged(c: NetlinkConn, f: Filler) {
    && |c.localIP| == |c.remoteIP| && (|c.localIP| == 4 || |c.localIP| == 16)
    && 0 <= c.localPort < 65536 && 0 <= c.remotePort < 65536 && 0 <= c.state < 256 && c.inode < 0x1_0000_0000
    && |f.timers| == 2 && |f.source| == 16 - |c.localIP| && |f.destination| == 16 - |c.remoteIP| && |f.middle| == 28
  }

  /** The kernel's record of a connection; the family tells the length of the addresses. */
  function RecordBytes(little: bool, c: NetlinkConn, f: Filler): (d: seq<Byte>)
    requires RecordRanged(c, f)
    ensures |d| == RECORD
  {
    [if |c.localIP| == 4 then 2 else 10, c.state] + f.timers
    + Put16(false, c.localPort) + Put16(false, c.remotePort)
    + c.localIP + f.source + c.remoteIP + f.destination + f.middle + Put32(little, c.inode)
  }

  lemma RecordReadsBack(little: bool, c: NetlinkConn, f: Filler, rest: seq<Byte>)
    requires RecordRanged(c, f)
    ensures ParseRecord(little, RecordBytes(little, c, f) + rest) == c
  {
    var d := RecordBytes(little, c, f) + rest;
    var ports := Put16(false, c.localPort) + Put16(false, c.remotePort);
    assert d[4..8] == ports;
    assert d[4] == ports[0] && d[5] == ports[1] && d[6] == ports[2] && d[7] == ports[3];
    assert d[8..8 + |c.localIP|] == c.localIP;
    assert d[24..24 + |c.remoteIP|] == c.remoteIP;
    assert d[68..72] == Put32(little, c.inode);
    assert d[68] == d[68..72][0] && d[69] == d[68..72][1] && d[70] == d[68..72][2] && d[71] == d[68..72][3];
  }

  // ----- The walk over one datagram

  /** What the walk yields; Panics: the slice expression that skips the padding is out of range. */
  datatype Walk = Walked(conns: seq<NetlinkConn>, done: bool, error: Option<int>) | Panics

  /** The connections of a message put before the rest of the walk. */
  function Prepend(conns: seq<NetlinkConn>, w: Walk): Walk {
    match w
    case Walked(more, done, error) => Walked(conns + more, done, error)
    case Panics => Panics
  }

  function SignedCode(n: int): int {
    if n >= 0x8000_0000 then n - 0x1_0000_0000 else n
  }

  /** What the walk does with the message at the start of data: end, or take connections and go on behind it. */
  datatype Move = End(outcome: Walk) | Advance(conns: seq<NetlinkConn>, step: nat)

  function ErrorOutcome(little: bool, data: seq<Byte>, length: int): Walk
    requires HEADER <= length <= |data|
  {
    if length >= HEADER + 4 && SignedCode(Get32(little, data, HEADER)) != 0
    then Walked([], true, Some(SignedCode(Get32(little, data, HEADER))))
    else Walked([], true, None)
  }

  function FirstMove(little: bool, data: seq<Byte>): (move: Move)
    ensures move.Advance? ==> HEADER <= move.step <= |data|
  {
    if |data| < HEADER then End(Walked([], false, None))
    else
      var length, kind := Get32(little, data, 0), Get16(little, data, 4);
      if length < HEADER || |data| < length then End(Walked([], false, None))
      else if kind == NLMSG_DONE then End(Walked([], true, None))
      else if kind == NLMSG_ERROR then End(ErrorOutcome(little, data, length))
      else if Align4(length) > |data| then End(Panics)
      else
        Advance(if kind == SOCK_DIAG_BY_FAMILY && length >= HEADER + RECORD
                then [ParseRecord(little, data[HEADER..])] else [], Align4(length))
  }

  function WalkFrom(little: bool, data: seq<Byte>): Walk
    decreases |data|
  {
    match FirstMove(little, data)
    case End(outcome) => outcome
    case Advance(conns, step) => Prepend(conns, WalkFrom(little, data[step..]))
  }

  /** The walk as the program runs it, advancing data and appending connections. */
  method ParseResponses(little: bool, datagram: seq<Byte>) returns (w: Walk)
    requires |datagram| <= MAX_DATAGRAM
    ensures w == WalkFrom(little, datagram)
  {
    var data := datagram;
    var conns := [];
    PrependNothing(WalkFrom(little, data));
    while |data| >= HEADER
      invariant WalkFrom(little, datagram) == Prepend(conns, WalkFrom(little, data))
      decreases |data|
    {
      ghost var move := FirstMove(little, data);
      var length, kind := Get32(little, data, 0), Get16(little, data, 4);
      if length < HEADER || |data| < length {
        assert move == End(Walked([], false, None));
        break;
      }
      if kind == NLMSG_DONE {
        return Walked(conns, true, None);
      } else if kind == NLMSG_ERROR {
        if length >= HEADER + 4 {
          var code := SignedCode(Get32(little, data, HEADER));
          if code != 0 {
            return Walked(conns, true, Some(code));
          }
        }
        return Walked(conns, true, None);
      }
      ghost var before := conns;
      if kind == SOCK_DIAG_BY_FAMILY && length >= HEADER + RECORD {
        conns := conns + [ParseRecord(little, data[HEADER..])];
      }
      var aligned := Align4(length);
      if aligned > |data| {
        return Panics;
      }
      assert move.step == aligned && conns == before + move.conns;
      PrependTwice(before, move.conns, WalkFrom(little, data[aligned..]));
      data := data[aligned..];
    }
    w := Walked(conns, false, None);
  }

  // ----- Messages

  /** A message: type, the ten other header bytes, payload, and padding to a multiple of four. */
  datatype Message = Message(kind: int, meta: seq<Byte>, payload: seq<Byte>, padding: seq<Byte>)

  function Length(m: Message): nat {
    HEADER + |m.payload|
  }

  predicate HeaderFits(m: Message) {
    0 <= m.kind < 65536 && |m.meta| == 10 && Length(m) <= MAX_DATAGRAM
  }

  predicate Padded(m: Message) {
    HeaderFits(m) && Length(m) + |m.padding| == Align4(Length(m))
  }

  /** Neither of the types that end the walk. */
  predicate Ordinary(m: Message) {
    m.kind != 2 && m.kind != 3
  }

  function Header(little: bool, m: Message): (d: seq<Byte>)
    requires HeaderFits(m)
    ensures |d| == HEADER
  {
    Put32(little, Length(m)) + Put16(little, m.kind) + m.meta
  }

  function Encode(little: bool, m: Message): (d: seq<Byte>)
    requires HeaderFits(m)
    ensures |d| == Length(m) + |m.padding|
  {
    Header(little, m) + m.payload + m.padding
  }

  /** The connection that an ordinary message carries, if it is long enough to be a socket record. */
  function Carried(little: bool, m: Message): seq<NetlinkConn> {
    if m.kind == SOCK_DIAG_BY_FAMILY && |m.payload| >= RECORD then [ParseRecord(little, m.payload)] else []
  }

  /** Only socket records carry a connection: type 20, and 72 bytes of payload at least. */
  lemma CarriesIff(little: bool, m: Message)
    ensures Carried(little, m) == [] <==> m.kind != 20 || |m.payload| < 72
  {}

  lemma HeaderReadsBack(little: bool, m: Message, rest: seq<Byte>)
    requires HeaderFits(m)
    ensures var d := Header(little, m) + rest;
            Get32(little, d, 0) == Length(m) && Get16(little, d, 4) == m.kind
  {
    var d, size, kind := Header(little, m) + rest, Put32(little, Length(m)), Put16(little, m.kind);
    assert d[0] == size[0] && d[1] == size[1] && d[2] == size[2] && d[3] == size[3];
    assert d[4] == kind[0] && d[5] == kind[1];
  }

  lemma RecordIgnoresTail(little: bool, record: seq<Byte>, rest: seq<Byte>)
    requires |record| >= RECORD
    ensures ParseRecord(little, record + rest) == ParseRecord(little, record)
  {
    var d := record + rest;
    assert d[8..12] == record[8..12] && d[8..24] == record[8..24];
    assert d[24..28] == record[24..28] && d[24..40] == record[24..40];
  }

  lemma FirstMoveOver(little: bool, m: Message, rest: seq<Byte>)
    requires Padded(m) && Ordinary(m)
    ensures FirstMove(little, Encode(little, m) + rest) == Advance(Carried(little, m), |Encode(little, m)|)
  {
    var body := m.payload + m.padding + rest;
    var d := Header(little, m) + body;
    assert Encode(little, m) + rest == d;
    HeaderReadsBack(little, m, body);
    if |m.payload| >= RECORD {
      assert d[HEADER..] == m.payload + (m.padding + rest);
      RecordIgnoresTail(little, m.payload, m.padding + rest);
    }
  }

  /** An ordinary padded message contributes what it carries, and the walk goes on behind it. */
  lemma WalkMessage(little: bool, m: Message, rest: seq<Byte>)
    requires Padded(m) && Ordinary(m)
    ensures WalkFrom(little, Encode(little, m) + rest) == Prepend(Carried(little, m), WalkFrom(little, rest))
  {
    FirstMoveOver(little, m, rest);
    assert (Encode(little, m) + rest)[|Encode(little, m)|..] == rest;
  }

  /** DONE ends the walk; whatever follows it is ignored. */
  lemma WalkDone(little: bool, m: Message, rest: seq<Byte>)
    requires HeaderFits(m) && m.kind == 3
    ensures WalkFrom(little, Encode(little, m) + rest) == Walked([], true, None)
  {
    HeaderReadsBack(little, m, m.payload + m.padding + rest);
    assert Encode(little, m) + rest == Header(little, m) + (m.payload + m.padding + rest);
  }

  /** The code at the start of a payload: a signed number in native order. */
  ghost predicate HasCode(little: bool, m: Message, code: int) {
    && -0x8000_0000 <= code < 0x8000_0000 && |m.payload| >= 4
    && m.payload[..4] == Put32(little, if code < 0 then code + 0x1_0000_0000 else code)
  }

  /** An error message ends the walk with its code; code 0 and a payload too short for one end it like DONE. */
  lemma WalkError(little: bool, m: Message, code: int, rest: seq<Byte>)
    requires HeaderFits(m) && m.kind == 2
    ensures HasCode(little, m, code) ==>
              WalkFrom(little, Encode(little, m) + rest) == Walked([], true, if code == 0 then None else Some(code))
    ensures |m.payload| < 4 ==> WalkFrom(little, Encode(little, m) + rest) == Walked([], true, None)
  {
    var body := m.payload + m.padding + rest;
    var d := Header(little, m) + body;
    assert Encode(little, m) + rest == d;
    HeaderReadsBack(little, m, body);
    if HasCode(little, m, code) {
      var p := m.payload[..4];
      assert d[16] == p[0] && d[17] == p[1] && d[18] == p[2] && d[19] == p[3];
    }
  }

  /** Bytes too short for a header, or a length below a header's or beyond the end, just end the walk. */
  lemma WalkTruncated(little: bool, data: seq<Byte>)
    requires |data| < 16 || Get32(little, data, 0) < 16 || Get32(little, data, 0) > |data|
    ensures WalkFrom(little, data) == Walked([], false, None)
  {}

  // ----- Streams of messages

  /** The values of f on the first n of xs, one after the other. */
  function FlatMap<A, T>(f: A -> seq<T>, xs: seq<A>, n: nat): seq<T>
    requires n <= |xs|
  {
    if n == 0 then [] else FlatMap(f, xs, n - 1) + f(xs[n - 1])
  }

  predicate Stream(ms: seq<Message>) {
    forall i :: 0 <= i < |ms| ==> Padded(ms[i]) && Ordinary(ms[i])
  }

  function Encoder(little: bool): Message -> seq<Byte> {
    (m: Message) => if HeaderFits(m) then Encode(little, m) else []
  }

  function EncodeAll(little: bool, ms: seq<Message>): seq<Byte> {
    FlatMap(Encoder(little), ms, |ms|)
  }

  function Carrier(little: bool): Message -> seq<NetlinkConn> {
    (m: Message) => Carried(little, m)
  }

  function CarriedAll(little: bool, ms: seq<Message>): seq<NetlinkConn> {
    FlatMap(Carrier(little), ms, |ms|)
  }

  lemma PrependNothing(w: Walk)
    ensures Prepend([], w) == w
  {}

  lemma PrependTwice(a: seq<NetlinkConn>, b: seq<NetlinkConn>, w: Walk)
    ensures Prepend(a, Prepend(b, w)) == Prepend(a + b, w)
  {
    if w.Walked? {
      assert a + (b + w.conns) == a + b + w.conns;
    }
  }

  /** A walk that passes over each encoding passes over all of them. */
  lemma {:induction false} WalkAll<A>(
      walk: seq<Byte> -> Walk, encode: A -> seq<Byte>, carry: A -> seq<NetlinkConn>,
      xs: seq<A>, n: nat, rest: seq<Byte>)
    requires n <= |xs|
    requires forall i, r {:trigger walk(encode(xs[i]) + r)} ::
               0 <= i < |xs| ==> walk(encode(xs[i]) + r) == Prepend(carry(xs[i]), walk(r))
    ensures walk(FlatMap(encode, xs, n) + rest) == Prepend(FlatMap(carry, xs, n), walk(rest))
  {
    if n == 0 {
      assert FlatMap(encode, xs, n) + rest == rest;
      PrependNothing(walk(rest));
    } else {
      var last := encode(xs[n - 1]);
      WalkAll(walk, encode, carry, xs, n - 1, last + rest);
      assert FlatMap(encode, xs, n - 1) + (last + rest) == FlatMap(encode, xs, n) + rest;
      PrependTwice(FlatMap(carry, xs, n - 1), carry(xs[n - 1]), walk(rest));
    }
  }

  /** Walking a stream and then anything: the stream's connections before those of the rest. */
  lemma WalkStream(little: bool, ms: seq<Message>, rest: seq<Byte>)
    requires Stream(ms)
    ensures WalkFrom(little, EncodeAll(little, ms) + rest) == Prepend(CarriedAll(little, ms), WalkFrom(little, rest))
  {
    var walk, encode, carry := d => WalkFrom(little, d), Encoder(little), Carrier(little);
    forall i, r {:trigger walk(encode(ms[i]) + r)} | 0 <= i < |ms|
      ensures walk(encode(ms[i]) + r) == Prepend(carry(ms[i]), walk(r))
    {
      WalkMessage(little, ms[i], r);
    }
    WalkAll(walk, encode, carry, ms, |ms|, rest);
  }

  /** The same behind padded ordinary messages: the walk yields what these carry. */
  lemma WalkErrorBehind(little: bool, ms: seq<Message>, m: Message, code: int, rest: seq<Byte>)
    requires Stream(ms) && HeaderFits(m) && m.kind == 2
    ensures HasCode(little, m, code) ==>
              WalkFrom(little, EncodeAll(little, ms) + (Encode(little, m) + rest))
              == Walked(CarriedAll(little, ms), true, if code == 0 then None else Some(code))
    ensures |m.payload| < 4 ==>
              WalkFrom(little, EncodeAll(little, ms) + (Encode(little, m) + rest))
              == Walked(CarriedAll(little, ms), true, None)
  {
    WalkStream(little, ms, Encode(little, m) + rest);
    WalkError(little, m, code, rest);
    assert CarriedAll(little, ms) + [] == CarriedAll(little, ms);
  }

  /** A truncated end loses nothing of what comes before it. */
  lemma WalkTruncatedBehind(little: bool, ms: seq<Message>, rest: seq<Byte>)
    requires Stream(ms) && (|rest| < 16 || Get32(little, rest, 0) < 16 || Get32(little, rest, 0) > |rest|)
    ensures WalkFrom(little, EncodeAll(little, ms) + rest) == Walked(CarriedAll(little, ms), false, None)
  {
    WalkStream(little, ms, rest);
    WalkTruncated(little, rest);
    assert CarriedAll(little, ms) + [] == CarriedAll(little, ms);
  }

  /** An item of a dump: a connection's record with attributes behind it, or a message without one. */
  datatype Item = Socket(conn: NetlinkConn, filler: Filler, attributes: seq<Byte>, meta: seq<Byte>, padding: seq<Byte>)
                | Noise(message: Message)

  function MessageOf(little: bool, item: Item): Message
    requires item.Socket? ==> RecordRanged(item.conn, item.filler)
  {
    match item
    case Socket(c, f, attributes, meta, padding) =>
      Message(20, meta, RecordBytes(little, c, f) + attributes, padding)
    case Noise(m) => m
  }

  ghost predicate ValidItem(little: bool, item: Item) {
    && (item.Socket? ==> RecordRanged(item.conn, item.filler))
    && (item.Noise? ==> Ordinary(item.message) && Carried(little, item.message) == [])
    && Padded(MessageOf(little, item))
  }

  function SocketOf(item: Item): seq<NetlinkConn> {
    match item
    case Socket(c, _, _, _, _) => [c]
    case Noise(_) => []
  }

  /** The connections among the items, in order. */
  function SocketsAmong(items: seq<Item>): seq<NetlinkConn> {
    FlatMap(SocketOf, items, |items|)
  }

  lemma ItemCarries(little: bool, item: Item)
    requires ValidItem(little, item)
    ensures Ordinary(MessageOf(little, item)) && Carried(little, MessageOf(little, item)) == SocketOf(item)
  {
    if item.Socket? {
      RecordReadsBack(little, item.conn, item.filler, item.attributes);
    }
  }

  /** The messages of a list of items. */
  ghost predicate Spells(little: bool, ms: seq<Message>, items: seq<Item>) {
    && |ms| == |items|
    && forall i :: 0 <= i < |items| ==> ValidItem(little, items[i]) && ms[i] == MessageOf(little, items[i])
  }

  lemma {:induction false} FlatMapsAgree<A, B, T>(f: A -> seq<T>, xs: seq<A>, g: B -> seq<T>, ys: seq<B>, n: nat)
    requires n <= |xs| == |ys| && forall i :: 0 <= i < |xs| ==> f(xs[i]) == g(ys[i])
    ensures FlatMap(f, xs, n) == FlatMap(g, ys, n)
  {
    if n > 0 {
      FlatMapsAgree(f, xs, g, ys, n - 1);
    }
  }

  lemma SpelledStream(little: bool, ms: seq<Message>, items: seq<Item>)
    requires Spells(little, ms, items)
    ensures Stream(ms) && CarriedAll(little, ms) == SocketsAmong(items)
  {
    var carry := Carrier(little);
    forall i | 0 <= i < |ms| ensures Padded(ms[i]) && Ordinary(ms[i]) && carry(ms[i]) == SocketOf(items[i]) {
      ItemCarries(little, items[i]);
    }
    FlatMapsAgree(carry, ms, SocketOf, items, |ms|);
  }

  /** Decoding inverts encoding: the walk over a dump ended by DONE yields exactly its sockets, in order. */
  lemma DumpReadsBack(little: bool, ms: seq<Message>, items: seq<Item>, done: Message, rest: seq<Byte>)
    requires Spells(little, ms, items) && HeaderFits(done) && done.kind == NLMSG_DONE
    ensures Stream(ms)
    ensures WalkFrom(little, EncodeAll(little, ms) + (Encode(little, done) + rest))
            == Walked(SocketsAmong(items), true, None)
  {
    SpelledStream(little, ms, items);
    WalkStream(little, ms, Encode(little, done) + rest);
    WalkDone(little, done, rest);
    assert SocketsAmong(items) + [] == SocketsAmong(items);
  }
}
