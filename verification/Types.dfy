/** Connections, keys and events as every stage of the pipeline sees them. */
module Types {

  datatype Option<+T> = None | Some(value: T)

  type Byte = x: int | 0 <= x < 256
  type Port = x: int | 0 <= x < 65536

  /** The lowest byte of a number and the rest of it. */
  lemma LowByte(low: nat, rest: nat)
    requires low < 256
    ensures (low + 256 * rest) % 256 == low && (low + 256 * rest) / 256 == rest
  {}

  /** Places of a list in ascending order, all before n. */
  predicate Places(at: seq<nat>, n: nat) {
    (forall i :: 0 <= i < |at| ==> at[i] < n) && forall i, j :: 0 <= i < j < |at| ==> at[i] < at[j]
  }

  lemma PlacesSnoc(at: seq<nat>, n: nat)
    requires n > 0 && Places(at, n - 1)
    ensures Places(at, n) && Places(at + [n - 1], n) && n - 1 !in at
    ensures forall j :: j in at + [n - 1] <==> j in at || j == n - 1
  {}

  /** ys are the values of f on those of the first n of xs that are wanted, found at the places at. */
  ghost predicate Picked<A, B>(wanted: A -> bool, f: A -> B, xs: seq<A>, n: nat, at: seq<nat>, ys: seq<B>)
    requires n <= |xs|
  {
    && Places(at, n) && |at| == |ys|
    && (forall i :: 0 <= i < |at| ==> ys[i] == f(xs[at[i]]))
    && (forall j :: 0 <= j < n ==> (j in at <==> wanted(xs[j])))
  }

  lemma PickedSnoc<A, B>(wanted: A -> bool, f: A -> B, xs: seq<A>, n: nat, at: seq<nat>, ys: seq<B>)
    requires 0 < n <= |xs| && Picked(wanted, f, xs, n - 1, at, ys)
    ensures wanted(xs[n - 1]) ==> Picked(wanted, f, xs, n, at + [n - 1], ys + [f(xs[n - 1])])
    ensures !wanted(xs[n - 1]) ==> Picked(wanted, f, xs, n, at, ys)
  {
    PlacesSnoc(at, n);
  }

  /** A point in time, in seconds. */
  type Time = real

  /** Go's net.IP: four or sixteen bytes; nil is the empty sequence. */
  type IP = seq<Byte>

  const V4_IN_V6_PREFIX: seq<Byte> := [0, 0, 0, 0, 0, 0, 0, 0, 0, 0, 255, 255]
  const IPV6_LOOPBACK: seq<Byte> := [0, 0, 0, 0, 0, 0, 0, 0, 0, 0, 0, 0, 0, 0, 0, 1]
  const IPV6_UNSPECIFIED: seq<Byte> := [0, 0, 0, 0, 0, 0, 0, 0, 0, 0, 0, 0, 0, 0, 0, 0]

  /** The four-byte form of an address that has one. */
  function To4(ip: IP): Option<seq<Byte>> {
    if |ip| == 4 then Some(ip)
    else if |ip| == 16 && ip[..12] == V4_IN_V6_PREFIX then Some(ip[12..])
    else None
  }

  /** What net.IP.String distinguishes: IPv4 in either form prints alike, anything else by its bytes. */
  datatype AddressText = Dotted(quad: seq<Byte>) | Verbatim(bytes: seq<Byte>)

  function Text(ip: IP): AddressText {
    match To4(ip)
    case Some(quad) => Dotted(quad)
    case None => Verbatim(ip)
  }

  /** An address together with the text that identifies it in keys. */
  datatype Address = Address(ip: IP, text: AddressText)

  function AddressOf(ip: IP): Address {
    Address(ip, Text(ip))
  }

  predicate IsLoopback(ip: IP) {
    match To4(ip)
    case Some(quad) => |quad| == 4 && quad[0] == 127
    case None => ip == IPV6_LOOPBACK
  }

  predicate IsPrivate(ip: IP) {
    match To4(ip)
    case Some(quad) =>
      |quad| == 4 && (quad[0] == 10 || (quad[0] == 172 && 16 <= quad[1] < 32) || (quad[0] == 192 && quad[1] == 168))
    case None => |ip| == 16 && (ip[0] == 0xFC || ip[0] == 0xFD)
  }

  predicate IsUnspecified(ip: IP) {
    match To4(ip)
    case Some(quad) => quad == [0, 0, 0, 0]
    case None => ip == IPV6_UNSPECIFIED
  }

  datatype Direction = Unknown | Outbound | Inbound

  /** The direction the polling backends derive from the remote address. */
  function DirectionOf(remote: IP): Direction {
    if remote != [] && !IsLoopback(remote) && !IsPrivate(remote) then Outbound
    else if remote != [] && !IsUnspecified(remote) then Inbound
    else Unknown
  }

  const STATE_ESTABLISHED := 1
  const STATE_TIME_WAIT := 6
  const STATE_CLOSE := 7
  const STATE_LISTEN := 10

  datatype ConnectionKey = ConnectionKey(
    localIP: AddressText, localPort: Port, remoteIP: AddressText, remotePort: Port, pid: int)

  datatype Connection = Connection(
    localIP: Address, localPort: Port, remoteIP: Address, remotePort: Port,
    pid: int, processName: string, inode: nat, state: int, direction: Direction, createdAt: Time)
  {
    function Key(): ConnectionKey {
      ConnectionKey(localIP.text, localPort, remoteIP.text, remotePort, pid)
    }
  }

  datatype EventType = NewConnection | ConnectionClosed

  datatype Event = Event(timestamp: Time, kind: EventType, conn: Connection)

  /** An IPv4 address in its sixteen-byte form. */
  function Long(ip: IP): IP {
    if |ip| == 4 then V4_IN_V6_PREFIX + ip else ip
  }

  /** Two addresses print alike exactly if they are the same up to the form of IPv4 addresses. */
  lemma TextsAgreeIff(a: IP, b: IP)
    requires (|a| == 4 || |a| == 16) && (|b| == 4 || |b| == 16)
    ensures Text(a) == Text(b) <==> Long(a) == Long(b)
  {
    var p := V4_IN_V6_PREFIX;
    assert |a| == 4 ==> Long(a)[..12] == p && Long(a)[12..] == a;
    assert |b| == 4 ==> Long(b)[..12] == p && Long(b)[12..] == b;
    assert |a| == 16 ==> a == a[..12] + a[12..];
    assert |b| == 16 ==> b == b[..12] + b[12..];
  }

  /** Two connections have one key exactly if owner, ports and the texts of both addresses agree. */
  lemma KeysAgreeIff(c: Connection, d: Connection)
    ensures c.Key() == d.Key() <==>
            && c.localIP.text == d.localIP.text && c.localPort == d.localPort
            && c.remoteIP.text == d.remoteIP.text && c.remotePort == d.remotePort && c.pid == d.pid
  {}
}
