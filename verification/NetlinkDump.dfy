/**
 More about the netlink decoder: when the walk over a datagram panics, what any datagram decomposes
 into, and that the way a dump is cut into datagrams does not matter.
 */
module NetlinkDump {
  import opened Types
  import opened Netlink

  // ----- When the walk panics

  /** A datagram whose length is a multiple of four is safe. */
  lemma {:induction false} AlignedNeverPanics(little: bool, data: seq<Byte>)
    requires |data| % 4 == 0
    ensures WalkFrom(little, data).Walked?
    decreases |data|
  {
    match FirstMove(little, data)
    case End(_) =>
    case Advance(conns, step) => AlignedNeverPanics(little, data[step..]);
  }

  /** A lone message that claims the whole datagram. */
  function Lone(little: bool, n: nat): Message
    requires HEADER <= n
  {
    Message(0, seq(10, _ => 0), seq(n - HEADER, _ => 0), [])
  }

  lemma UnalignedPanics(little: bool, n: nat)
    requires HEADER < n <= MAX_DATAGRAM && n % 4 != 0
    ensures |Encode(little, Lone(little, n))| == n
    ensures WalkFrom(little, Encode(little, Lone(little, n))) == Panics
  {
    var m := Lone(little, n);
    HeaderReadsBack(little, m, m.payload + m.padding);
    assert Encode(little, m) == Header(little, m) + (m.payload + m.padding);
    ClaimingAllPanics(little, Encode(little, m));
  }

  lemma ClaimingAllPanics(little: bool, data: seq<Byte>)
    requires HEADER < |data| && |data| % 4 != 0
    requires Get32(little, data, 0) == |data| && Get16(little, data, 4) == 0
    ensures WalkFrom(little, data) == Panics
  {}

  /** The length alone decides whether a datagram can crash the walk: 17 bytes or more, not padded to four. */
  lemma PanicPossibleIff(little: bool, n: nat)
    requires n <= MAX_DATAGRAM
    ensures (exists data: seq<Byte> :: |data| == n && WalkFrom(little, data) == Panics) <==> n > HEADER && n % 4 != 0
  {
    if n > HEADER && n % 4 != 0 {
      UnalignedPanics(little, n);
    } else {
      forall data: seq<Byte> | |data| == n ensures WalkFrom(little, data).Walked? {
        if n % 4 == 0 {
          AlignedNeverPanics(little, data);
        }
      }
    }
  }

  // ----- Any datagram is a stream and a stop

  lemma Unique16(little: bool, a: Byte, b: Byte)
    ensures Put16(little, Join16(little, a, b)) == [a, b]
  {}

  lemma LowHalf(low: nat, rest: nat)
    requires low < 65536
    ensures (low + 65536 * rest) % 65536 == low && (low + 65536 * rest) / 65536 == rest
  {}

  lemma Unique32(little: bool, a: Byte, b: Byte, c: Byte, d: Byte)
    ensures Put32(little, Join32(little, a, b, c, d)) == [a, b, c, d]
  {
    if little {
      LowHalf(a + 256 * b, c + 256 * d);
      LowByte(a, b);
      LowByte(c, d);
    } else {
      LowHalf(d + 256 * c, b + 256 * a);
      LowByte(d, c);
      LowByte(b, a);
    }
  }

  /** The message at the start of data. */
  function MessageAt(little: bool, data: seq<Byte>): Message
    requires FirstMove(little, data).Advance?
  {
    var length := Get32(little, data, 0);
    Message(Get16(little, data, 4), data[6..16], data[16..length], data[length..Align4(length)])
  }

  lemma MessageAtCarries(little: bool, data: seq<Byte>)
    requires FirstMove(little, data).Advance?
    ensures Carried(little, MessageAt(little, data)) == FirstMove(little, data).conns
  {
    var m, length := MessageAt(little, data), Get32(little, data, 0);
    if |m.payload| >= RECORD {
      RecordIgnoresTail(little, m.payload, data[length..]);
      assert data[16..] == m.payload + data[length..];
    }
  }

  lemma HeaderAt(little: bool, data: seq<Byte>)
    requires |data| <= MAX_DATAGRAM && FirstMove(little, data).Advance?
    ensures HeaderFits(MessageAt(little, data)) && Header(little, MessageAt(little, data)) == data[..16]
  {
    Unique32(little, data[0], data[1], data[2], data[3]);
    Unique16(little, data[4], data[5]);
    assert data[..4] == [data[0], data[1], data[2], data[3]] && data[4..6] == [data[4], data[5]];
    assert data[..16] == data[..4] + data[4..6] + data[6..16];
  }

  lemma Slices(data: seq<Byte>, i: nat, j: nat, k: nat)
    requires i <= j <= k <= |data|
    ensures data[..k] == data[..i] + data[i..j] + data[j..k]
  {}

  lemma MessageAtEncodes(little: bool, data: seq<Byte>)
    requires |data| <= MAX_DATAGRAM && FirstMove(little, data).Advance?
    ensures var m, move := MessageAt(little, data), FirstMove(little, data);
            Padded(m) && Ordinary(m) && Encode(little, m) == data[..move.step]
  {
    HeaderAt(little, data);
    Slices(data, 16, Get32(little, data, 0), FirstMove(little, data).step);
  }

  lemma {:induction false} FlatMapAppend<A, T>(f: A -> seq<T>, a: seq<A>, b: seq<A>, n: nat)
    requires n <= |b|
    ensures FlatMap(f, a + b, |a| + n) == FlatMap(f, a, |a|) + FlatMap(f, b, n)
  {
    if n == 0 {
      FlatMapPrefix(f, a + b, a, |a|);
    } else {
      FlatMapAppend(f, a, b, n - 1);
      assert (a + b)[|a| + n - 1] == b[n - 1];
    }
  }

  lemma {:induction false} FlatMapPrefix<A, T>(f: A -> seq<T>, a: seq<A>, b: seq<A>, n: nat)
    requires n <= |a| && n <= |b| && forall i :: 0 <= i < n ==> a[i] == b[i]
    ensures FlatMap(f, a, n) == FlatMap(f, b, n)
  {
    if n > 0 {
      FlatMapPrefix(f, a, b, n - 1);
    }
  }

  lemma FlatMapOne<A, T>(f: A -> seq<T>, a: A)
    ensures FlatMap(f, [a], 1) == f(a)
  {
    assert FlatMap(f, [a], 0) + f(a) == f(a);
  }

  lemma EncodeCons(little: bool, m: Message, ms: seq<Message>)
    requires HeaderFits(m)
    ensures EncodeAll(little, [m] + ms) == Encode(little, m) + EncodeAll(little, ms)
  {
    FlatMapAppend(Encoder(little), [m], ms, |ms|);
    FlatMapOne(Encoder(little), m);
  }

  lemma CarriedAppend(little: bool, a: seq<Message>, b: seq<Message>)
    ensures CarriedAll(little, a + b) == CarriedAll(little, a) + CarriedAll(little, b)
  {
    var carry := Carrier(little);
    FlatMapAppend(carry, a, b, |b|);
  }

  lemma CarryCons(little: bool, m: Message, ms: seq<Message>)
    ensures CarriedAll(little, [m] + ms) == Carried(little, m) + CarriedAll(little, ms)
  {
    CarriedAppend(little, [m], ms);
    FlatMapOne(Carrier(little), m);
  }

  /** data is the encoding of ms and then rest, where the walk stops; the walk yields what ms carries. */
  ghost predicate Decomposes(little: bool, data: seq<Byte>, ms: seq<Message>, rest: seq<Byte>) {
    && Stream(ms) && data == EncodeAll(little, ms) + rest && FirstMove(little, rest).End?
    && WalkFrom(little, data) == Prepend(CarriedAll(little, ms), FirstMove(little, rest).outcome)
  }

  lemma Rejoin(data: seq<Byte>, step: nat, middle: seq<Byte>, rest: seq<Byte>)
    requires step <= |data| && data[step..] == middle + rest
    ensures data == data[..step] + middle + rest
  {
    assert data == data[..step] + data[step..];
  }

  lemma WalkCons(little: bool, data: seq<Byte>, m: Message, step: nat, ms: seq<Message>, outcome: Walk)
    requires FirstMove(little, data) == Advance(Carried(little, m), step)
    requires WalkFrom(little, data[step..]) == Prepend(CarriedAll(little, ms), outcome)
    ensures WalkFrom(little, data) == Prepend(CarriedAll(little, [m] + ms), outcome)
  {
    CarryCons(little, m, ms);
    PrependTwice(Carried(little, m), CarriedAll(little, ms), outcome);
  }

  lemma DecomposesCons(little: bool, data: seq<Byte>, m: Message, step: nat, ms: seq<Message>, rest: seq<Byte>)
    requires step <= |data| && Padded(m) && Ordinary(m) && Encode(little, m) == data[..step]
    requires FirstMove(little, data) == Advance(Carried(little, m), step)
    requires Decomposes(little, data[step..], ms, rest)
    ensures Decomposes(little, data, [m] + ms, rest)
  {
    EncodeCons(little, m, ms);
    Rejoin(data, step, EncodeAll(little, ms), rest);
    WalkCons(little, data, m, step, ms, FirstMove(little, rest).outcome);
  }

  /**
   Every datagram is a stream of padded ordinary messages and a rest at which the walk stops: the walk
   yields what the stream carries and ends as it does at the rest.
   */
  lemma {:induction false} WalkDecomposes(little: bool, data: seq<Byte>) returns (ms: seq<Message>, rest: seq<Byte>)
    requires |data| <= MAX_DATAGRAM
    ensures Decomposes(little, data, ms, rest)
    decreases |data|
  {
    match FirstMove(little, data)
    case End(outcome) =>
      ms, rest := [], data;
      assert EncodeAll(little, ms) + rest == data;
      PrependNothing(outcome);
    case Advance(conns, step) =>
      var more;
      MessageAtEncodes(little, data);
      MessageAtCarries(little, data);
      more, rest := WalkDecomposes(little, data[step..]);
      DecomposesCons(little, data, MessageAt(little, data), step, more, rest);
      ms := [MessageAt(little, data)] + more;
  }

  /** A whole message of a type that does not end the walk, with less behind it than the padding it needs. */
  predicate LacksPadding(little: bool, rest: seq<Byte>) {
    && |rest| >= 16
    && Get16(little, rest, 4) != 2 && Get16(little, rest, 4) != 3
    && 16 <= Get32(little, rest, 0) <= |rest| < Align4(Get32(little, rest, 0))
  }

  lemma PanicIsLackOfPadding(little: bool, rest: seq<Byte>)
    ensures FirstMove(little, rest) == End(Panics) <==> LacksPadding(little, rest)
  {}

  /** data is a stream of padded messages and one more that lacks its padding. */
  ghost predicate EndsUnpadded(little: bool, data: seq<Byte>, ms: seq<Message>, rest: seq<Byte>) {
    Stream(ms) && data == EncodeAll(little, ms) + rest && LacksPadding(little, rest)
  }

  lemma UnpaddedEndPanics(little: bool, data: seq<Byte>, ms: seq<Message>, rest: seq<Byte>)
    requires EndsUnpadded(little, data, ms, rest)
    ensures WalkFrom(little, data) == Panics
  {
    PanicIsLackOfPadding(little, rest);
    WalkStream(little, ms, rest);
  }

  lemma PanicEndsUnpadded(little: bool, data: seq<Byte>) returns (ms: seq<Message>, rest: seq<Byte>)
    requires |data| <= MAX_DATAGRAM && WalkFrom(little, data) == Panics
    ensures EndsUnpadded(little, data, ms, rest)
  {
    ms, rest := WalkDecomposes(little, data);
    PanicIsLackOfPadding(little, rest);
  }

  /** The walk panics if and only if what follows some padded messages is one that lacks its padding. */
  lemma PanicsIff(little: bool, data: seq<Byte>)
    requires |data| <= MAX_DATAGRAM
    ensures WalkFrom(little, data) == Panics <==> exists ms, rest :: EndsUnpadded(little, data, ms, rest)
  {
    if ms, rest :| EndsUnpadded(little, data, ms, rest) {
      UnpaddedEndPanics(little, data, ms, rest);
    }
    if WalkFrom(little, data) == Panics {
      var ms, rest := PanicEndsUnpadded(little, data);
    }
  }

  // ----- The loop over datagrams

  datatype Receipt = Datagram(bytes: seq<Byte>) | Failed

  /** How a dump ends; Waiting: the next receive has not returned. */
  datatype Dump = Finished(conns: seq<NetlinkConn>) | Broken(conns: seq<NetlinkConn>)
                | Crashed | Waiting(conns: seq<NetlinkConn>)

  function Walker(little: bool): seq<Byte> -> Walk {
    (data: seq<Byte>) => WalkFrom(little, data)
  }

  /** The loop from receipt i on, with the connections so far; walk decodes one datagram. */
  function DumpFrom(walk: seq<Byte> -> Walk, receipts: seq<Receipt>, i: nat, conns: seq<NetlinkConn>): Dump
    requires i <= |receipts|
    decreases |receipts| - i
  {
    if i == |receipts| then Waiting(conns)
    else
      match receipts[i]
      case Failed => Broken(conns)
      case Datagram(bytes) =>
        if bytes == [] then Finished(conns)
        else
          match walk(bytes)
          case Panics => Crashed
          case Walked(more, done, error) =>
            if error.Some? then Broken(conns)
            else if done then Finished(conns + more)
            else DumpFrom(walk, receipts, i + 1, conns + more)
  }

  function DumpOf(little: bool, receipts: seq<Receipt>): Dump {
    DumpFrom(Walker(little), receipts, 0, [])
  }

  method DumpFamily(little: bool, receipts: seq<Receipt>) returns (d: Dump)
    requires forall r :: r in receipts && r.Datagram? ==> |r.bytes| <= MAX_DATAGRAM
    ensures d == DumpOf(little, receipts)
  {
    var conns := [];
    var i := 0;
    while i < |receipts|
      invariant i <= |receipts|
      invariant DumpOf(little, receipts) == DumpFrom(Walker(little), receipts, i, conns)
    {
      if receipts[i].Failed? {
        return Broken(conns);
      }
      if |receipts[i].bytes| == 0 {
        return Finished(conns);
      }
      assert receipts[i] in receipts;
      var w := ParseResponses(little, receipts[i].bytes);
      if w.Panics? {
        return Crashed;
      }
      if w.error.Some? {
        return Broken(conns);
      }
      conns := conns + w.conns;
      if w.done {
        return Finished(conns);
      }
      i := i + 1;
    }
    d := Waiting(conns);
  }

  ghost predicate Passes(walk: seq<Byte> -> Walk, r: Receipt, conns: seq<NetlinkConn>) {
    r.Datagram? && r.bytes != [] && walk(r.bytes) == Walked(conns, false, None)
  }

  /** The loop gets over datagrams whose walks neither end the dump nor fail. */
  lemma {:induction false} DumpPasses<A>(
      walk: seq<Byte> -> Walk, receipts: seq<Receipt>, carry: A -> seq<NetlinkConn>, xs: seq<A>, n: nat)
    requires n <= |xs| <= |receipts| && forall i :: 0 <= i < |xs| ==> Passes(walk, receipts[i], carry(xs[i]))
    ensures DumpFrom(walk, receipts, 0, []) == DumpFrom(walk, receipts, n, FlatMap(carry, xs, n))
  {
    if n > 0 {
      DumpPasses(walk, receipts, carry, xs, n - 1);
      assert Passes(walk, receipts[n - 1], carry(xs[n - 1]));
    }
  }

  /** The messages of the first n chunks. */
  function Messages(chunks: seq<seq<Message>>, n: nat): seq<Message>
    requires n <= |chunks|
  {
    if n == 0 then [] else Messages(chunks, n - 1) + chunks[n - 1]
  }

  function ChunkCarrier(little: bool): seq<Message> -> seq<NetlinkConn> {
    (ms: seq<Message>) => CarriedAll(little, ms)
  }

  lemma {:induction false} ChunksCarry(little: bool, chunks: seq<seq<Message>>, n: nat)
    requires n <= |chunks|
    ensures FlatMap(ChunkCarrier(little), chunks, n) == CarriedAll(little, Messages(chunks, n))
  {
    if n > 0 {
      ChunksCarry(little, chunks, n - 1);
      CarriedAppend(little, Messages(chunks, n - 1), chunks[n - 1]);
    }
  }

  ghost predicate Holds(little: bool, r: Receipt, ms: seq<Message>) {
    ms != [] && Stream(ms) && r == Datagram(EncodeAll(little, ms))
  }

  /** The first datagrams are filled with the chunks. */
  ghost predicate AllHold(little: bool, receipts: seq<Receipt>, chunks: seq<seq<Message>>) {
    |chunks| <= |receipts| && forall i :: 0 <= i < |chunks| ==> Holds(little, receipts[i], chunks[i])
  }

  lemma HoldsPasses(little: bool, r: Receipt, ms: seq<Message>)
    requires Holds(little, r, ms)
    ensures Passes(Walker(little), r, CarriedAll(little, ms))
  {
    assert |EncodeAll(little, ms)| >= |Encode(little, ms[|ms| - 1])|;
    WalkStream(little, ms, []);
    assert EncodeAll(little, ms) + [] == EncodeAll(little, ms);
  }

  /** Datagrams full of ordinary messages pass, and what they carry is kept. */
  lemma FullDatagramsPass(little: bool, receipts: seq<Receipt>, chunks: seq<seq<Message>>)
    requires AllHold(little, receipts, chunks)
    ensures DumpOf(little, receipts)
            == DumpFrom(Walker(little), receipts, |chunks|, CarriedAll(little, Messages(chunks, |chunks|)))
  {
    var walk, carry, n := Walker(little), ChunkCarrier(little), |chunks|;
    forall i | 0 <= i < n ensures Passes(walk, receipts[i], carry(chunks[i])) {
      HoldsPasses(little, receipts[i], chunks[i]);
    }
    DumpPasses(walk, receipts, carry, chunks, n);
    ChunksCarry(little, chunks, n);
  }

  /**
   Behind full datagrams, a failed receive breaks the dump and an empty datagram finishes it, each with
   what those carried; without another receipt the dump waits.
   */
  lemma DumpEndsByReceipt(little: bool, receipts: seq<Receipt>, chunks: seq<seq<Message>>)
    requires AllHold(little, receipts, chunks)
    ensures var n, carried := |chunks|, CarriedAll(little, Messages(chunks, |chunks|));
            && (n == |receipts| ==> DumpOf(little, receipts) == Waiting(carried))
            && (n < |receipts| && receipts[n] == Failed ==> DumpOf(little, receipts) == Broken(carried))
            && (n < |receipts| && receipts[n] == Datagram([]) ==> DumpOf(little, receipts) == Finished(carried))
  {
    FullDatagramsPass(little, receipts, chunks);
  }

  /** A datagram of some padded ordinary messages, an error message, and anything. */
  function ErrorDatagram(little: bool, ms: seq<Message>, error: Message, rest: seq<Byte>): Receipt
    requires HeaderFits(error)
  {
    Datagram(EncodeAll(little, ms) + (Encode(little, error) + rest))
  }

  lemma DumpEnds(
      walk: seq<Byte> -> Walk, receipts: seq<Receipt>, n: nat, conns: seq<NetlinkConn>, more: seq<NetlinkConn>,
      error: Option<int>)
    requires n < |receipts| && receipts[n].Datagram? && receipts[n].bytes != []
    requires walk(receipts[n].bytes) == Walked(more, true, error)
    ensures DumpFrom(walk, receipts, n, conns) == if error.Some? then Broken(conns) else Finished(conns + more)
  {}

  lemma ErrorEnds(
      little: bool, receipts: seq<Receipt>, n: nat, conns: seq<NetlinkConn>, last: seq<Message>, error: Message,
      code: int, rest: seq<Byte>)
    requires n < |receipts| && Stream(last) && HeaderFits(error) && error.kind == 2
    requires receipts[n] == ErrorDatagram(little, last, error, rest)
    requires HasCode(little, error, code) || (|error.payload| < 4 && code == 0)
    ensures DumpFrom(Walker(little), receipts, n, conns)
            == if code != 0 then Broken(conns) else Finished(conns + CarriedAll(little, last))
  {
    WalkErrorBehind(little, last, error, code, rest);
    assert |Encode(little, error)| > 0;
    DumpEnds(
      Walker(little), receipts, n, conns, CarriedAll(little, last), if code == 0 then None else Some(code));
  }

  /**
   Behind full datagrams, an error with a code breaks the dump with what those carried; what its own
   datagram carried before it is lost. An error without one finishes the dump and loses nothing.
   */
  lemma DumpEndsByError(
      little: bool, receipts: seq<Receipt>, chunks: seq<seq<Message>>, last: seq<Message>, error: Message, code: int,
      rest: seq<Byte>)
    requires AllHold(little, receipts, chunks) && |chunks| < |receipts|
    requires Stream(last) && HeaderFits(error) && error.kind == 2
    requires receipts[|chunks|] == ErrorDatagram(little, last, error, rest)
    requires HasCode(little, error, code) || (|error.payload| < 4 && code == 0)
    ensures var carried := CarriedAll(little, Messages(chunks, |chunks|));
            DumpOf(little, receipts)
            == if code != 0 then Broken(carried) else Finished(carried + CarriedAll(little, last))
  {
    FullDatagramsPass(little, receipts, chunks);
    ErrorEnds(
      little, receipts, |chunks|, CarriedAll(little, Messages(chunks, |chunks|)), last, error, code, rest);
  }

  /** Behind full datagrams, one that ends in a message that lacks its padding crashes the dump. */
  lemma DumpEndsByPanic(
      little: bool, receipts: seq<Receipt>, chunks: seq<seq<Message>>, data: seq<Byte>, last: seq<Message>,
      rest: seq<Byte>)
    requires AllHold(little, receipts, chunks) && |chunks| < |receipts|
    requires EndsUnpadded(little, data, last, rest) && receipts[|chunks|] == Datagram(data)
    ensures DumpOf(little, receipts) == Crashed
  {
    FullDatagramsPass(little, receipts, chunks);
    UnpaddedEndPanics(little, data, last, rest);
  }

  /** How a dump may be cut: full datagrams, and a last one whose messages are followed by DONE and anything. */
  datatype Cut = Cut(chunks: seq<seq<Message>>, last: seq<Message>, done: Message, rest: seq<Byte>)
  {
    function AllMessages(): seq<Message> {
      Messages(chunks, |chunks|) + last
    }
  }

  ghost predicate IsCut(little: bool, receipts: seq<Receipt>, c: Cut) {
    && AllHold(little, receipts, c.chunks) && |c.chunks| < |receipts|
    && Stream(c.last) && HeaderFits(c.done) && c.done.kind == 3
    && receipts[|c.chunks|] == Datagram(EncodeAll(little, c.last) + (Encode(little, c.done) + c.rest))
  }

  lemma LastDatagram(little: bool, c: Cut)
    requires Stream(c.last) && HeaderFits(c.done) && c.done.kind == 3
    ensures Walker(little)(EncodeAll(little, c.last) + (Encode(little, c.done) + c.rest))
            == Walked(CarriedAll(little, c.last), true, None)
  {
    WalkStream(little, c.last, Encode(little, c.done) + c.rest);
    WalkDone(little, c.done, c.rest);
    assert CarriedAll(little, c.last) + [] == CarriedAll(little, c.last);
  }

  /**
   A dump cut into datagrams at any message boundaries finishes with what its messages carry, whatever
   follows DONE in the last datagram and after it.
   */
  lemma CutDumpFinishes(little: bool, receipts: seq<Receipt>, c: Cut)
    requires IsCut(little, receipts, c)
    ensures DumpOf(little, receipts) == Finished(CarriedAll(little, c.AllMessages()))
  {
    FullDatagramsPass(little, receipts, c.chunks);
    LastDatagram(little, c);
    CarriedAppend(little, Messages(c.chunks, |c.chunks|), c.last);
  }

  /** Two ways of cutting one list of messages into datagrams give the same result. */
  lemma ChunkingDoesNotMatter(little: bool, receipts: seq<Receipt>, c: Cut, receipts': seq<Receipt>, c': Cut)
    requires IsCut(little, receipts, c) && IsCut(little, receipts', c')
    requires c.AllMessages() == c'.AllMessages()
    ensures DumpOf(little, receipts) == DumpOf(little, receipts')
  {
    CutDumpFinishes(little, receipts, c);
    CutDumpFinishes(little, receipts', c');
  }
}
