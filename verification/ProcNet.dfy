/**
 The text backend: lines of /proc/net/tcp, the file loop, and the IPv4 part of the address conversion.
 The printed form is given as a specification and read back.
 */
module ProcNet {
  import opened Types
  import opened Strconv

  datatype RawConnection = RawConnection(
    slot: int, localIP: string, localPort: int, remoteIP: string, remotePort: int, state: int, inode: nat)

  const INT32_LIMIT: nat := 0x8000_0000
  const INT64_LIMIT: nat := 0x8000_0000_0000_0000
  const UINT32_MAX: nat := 0xFFFF_FFFF
  const UINT64_MAX: nat := 0xFFFF_FFFF_FFFF_FFFF

  datatype Endpoint = Endpoint(address: string, port: int)

  /** ADDRESS:PORT, cut at the first colon; an unreadable port is 0. */
  function ParseEndpoint(s: string): Option<Endpoint> {
    var n := IndexOf(s, ':');
    if n == |s| then None else Some(Endpoint(s[..n], IntOrDefault(s[n + 1..], 16, INT32_LIMIT)))
  }

  function TrimColon(s: string): string {
    if s != "" && s[|s| - 1] == ':' then s[..|s| - 1] else s
  }

  /** One line of the table; None for a short line, a bad slot or an address without a colon. */
  function ParseLine(line: string): Option<RawConnection> {
    FromFields(Fields(line))
  }

  function FromFields(fields: seq<string>): Option<RawConnection> {
    if |fields| < 10 then None
    else
      match (ParseInt(TrimColon(fields[0]), 10, INT64_LIMIT), ParseEndpoint(fields[1]), ParseEndpoint(fields[2]))
      case (Good(slot), Some(local), Some(remote)) =>
        Some(RawConnection(slot, local.address, local.port, remote.address, remote.port,
                           IntOrDefault(fields[3], 16, INT32_LIMIT), UintOrDefault(fields[9], 10, UINT64_MAX)))
      case _ => None
  }

  lemma IndexOfIff(s: string, c: char)
    ensures IndexOf(s, c) < |s| <==> c in s
  {
    if i :| 0 <= i < |s| && s[i] == c {
      assert IndexOf(s, c) <= i;
    }
  }

  /** A line is a connection exactly if it has ten fields, a slot number, and a colon in both endpoints. */
  lemma LineAcceptedIff(line: string)
    ensures ParseLine(line).Some? <==>
            && |Fields(line)| >= 10 && ParseInt(TrimColon(Fields(line)[0]), 10, 0x8000_0000_0000_0000).Good?
            && ':' in Fields(line)[1] && ':' in Fields(line)[2]
  {
    if |Fields(line)| >= 10 {
      IndexOfIff(Fields(line)[1], ':');
      IndexOfIff(Fields(line)[2], ':');
    }
  }

  /** What a line contributes: nothing if it is blank or cannot be parsed. */
  function LineEntry(line: string): Option<RawConnection> {
    var trimmed := TrimSpace(line);
    if trimmed == "" then None else ParseLine(trimmed)
  }

  /** What each line contributes; the first is the header. */
  function Contributions(lines: seq<string>): (found: seq<Option<RawConnection>>)
    ensures |found| == |lines|
    ensures forall i :: 0 <= i < |lines| ==> found[i] == if i == 0 then None else LineEntry(lines[i])
  {
    seq(|lines|, i requires 0 <= i < |lines| => if i == 0 then None else LineEntry(lines[i]))
  }

  /** The values among the first n. */
  function Somes<T>(xs: seq<Option<T>>, n: nat): seq<T>
    requires n <= |xs|
  {
    if n == 0 then []
    else if xs[n - 1].None? then Somes(xs, n - 1)
    else Somes(xs, n - 1) + [xs[n - 1].value]
  }

  /** The connections in a file's text. */
  function Table(text: string): seq<RawConnection> {
    var found := Contributions(Split(text, '\n'));
    Somes(found, |found|)
  }

  method ReadTable(text: string) returns (conns: seq<RawConnection>)
    ensures conns == Table(text)
  {
    var lines := Split(text, '\n');
    conns := [];
    for i := 1 to |lines|
      invariant conns == Somes(Contributions(lines), i)
    {
      var line := TrimSpace(lines[i]);
      if line == "" {
        continue;
      }
      match ParseLine(line) {
        case Some(c) => conns := conns + [c];
        case None =>
      }
    }
  }

  // ----- The printed form

  /** A token with the white space before it. */
  datatype Column = Column(gap: string, token: string)

  function LineText(cols: seq<Column>, trail: string): string {
    if cols == [] then trail else cols[0].gap + (cols[0].token + LineText(cols[1..], trail))
  }

  function Tokens(cols: seq<Column>): seq<string> {
    if cols == [] then [] else [cols[0].token] + Tokens(cols[1..])
  }

  ghost predicate Separated(cols: seq<Column>) {
    forall i :: 0 <= i < |cols| ==> Blank(cols[i].gap) && cols[i].gap != "" && Word(cols[i].token)
  }

  lemma {:induction false} FieldsOfColumns(cols: seq<Column>, trail: string)
    requires Separated(cols) && Blank(trail)
    ensures Fields(LineText(cols, trail)) == Tokens(cols)
    ensures LineText(cols, trail) == "" || IsSpace(LineText(cols, trail)[0])
  {
    if cols == [] {
      FieldsSkipBlank(trail, "");
      assert trail + "" == trail;
    } else {
      var rest := LineText(cols[1..], trail);
      FieldsOfColumns(cols[1..], trail);
      FieldsSkipBlank(cols[0].gap, cols[0].token + rest);
      FieldsTakeWord(cols[0].token, rest);
    }
  }

  /** The columns of a row: those that carry the connection, and five plus any number that are skipped. */
  datatype Row = Row(conn: RawConnection, skipped: seq<string>, more: seq<string>, gaps: seq<string>, trail: string)

  function RowTokens(r: Row): seq<string> {
    [Decimal(Magnitude(r.conn.slot)) + ":",
     r.conn.localIP + ":" + Hex(Magnitude(r.conn.localPort), 4),
     r.conn.remoteIP + ":" + Hex(Magnitude(r.conn.remotePort), 4),
     Hex(Magnitude(r.conn.state), 2)] + r.skipped + [Decimal(r.conn.inode)] + r.more
  }

  function Magnitude(n: int): nat {
    if n < 0 then -n else n
  }

  function Zip(gaps: seq<string>, tokens: seq<string>): seq<Column> {
    if gaps == [] || tokens == [] then [] else [Column(gaps[0], tokens[0])] + Zip(gaps[1..], tokens[1..])
  }

  lemma {:induction false} ZipPairs(gaps: seq<string>, tokens: seq<string>)
    requires |gaps| == |tokens|
    ensures Tokens(Zip(gaps, tokens)) == tokens && |Zip(gaps, tokens)| == |gaps|
    ensures forall i :: 0 <= i < |gaps| ==> Zip(gaps, tokens)[i] == Column(gaps[i], tokens[i])
  {
    if gaps != [] {
      ZipPairs(gaps[1..], tokens[1..]);
      assert tokens == [tokens[0]] + tokens[1..];
    }
  }

  /** The values the kernel prints; addresses are any text without white space and punctuation. */
  predicate WellRanged(c: RawConnection) {
    && 0 <= c.slot < INT64_LIMIT && 0 <= c.localPort < 65536 && 0 <= c.remotePort < 65536
    && 0 <= c.state < 256 && c.inode <= UINT64_MAX && Plain(c.localIP) && Plain(c.remoteIP)
  }

  ghost predicate WellFormed(r: Row) {
    && WellRanged(r.conn) && |r.skipped| == 5 && |r.gaps| == |RowTokens(r)| && Blank(r.trail)
    && (forall i :: 0 <= i < |r.gaps| ==> Blank(r.gaps[i]) && (i > 0 ==> r.gaps[i] != ""))
    && (forall i :: 0 <= i < |r.skipped| ==> Word(r.skipped[i]))
    && (forall i :: 0 <= i < |r.more| ==> Word(r.more[i]))
  }

  /** The text of a row; the first column may start the line. */
  function RowText(r: Row): string {
    LineText(Zip(r.gaps, RowTokens(r)), r.trail)
  }

  lemma EndpointReadsBack(address: string, port: nat)
    requires Plain(address) && port < 65536
    ensures ParseEndpoint(address + ":" + Hex(port, 4)) == Some(Endpoint(address, port))
  {
    var s := address + ":" + Hex(port, 4);
    IndexOfFirst(address, ':', Hex(port, 4));
    assert HexLimit(4) == 65536;
    HexReadsBack(port, 4, 2 * INT32_LIMIT - 1);
    HexIsPlain(port, 4);
    PlainHasNoSign(Hex(port, 4));
    assert s[..|address|] == address && s[|address| + 1..] == Hex(port, 4);
  }

  lemma SlotReadsBack(slot: nat)
    requires slot < INT64_LIMIT
    ensures ParseInt(TrimColon(Decimal(slot) + ":"), 10, INT64_LIMIT) == Good(slot)
  {
    DecimalReadsBack(slot, 2 * INT64_LIMIT - 1);
    DecimalIsPlain(slot);
    PlainHasNoSign(Decimal(slot));
    assert (Decimal(slot) + ":")[..|Decimal(slot)|] == Decimal(slot);
  }

  lemma StateReadsBack(state: nat)
    requires state < 256
    ensures IntOrDefault(Hex(state, 2), 16, INT32_LIMIT) == state
  {
    assert HexLimit(2) == 256;
    HexReadsBack(state, 2, 2 * INT32_LIMIT - 1);
    HexIsPlain(state, 2);
    PlainHasNoSign(Hex(state, 2));
  }

  lemma InodeReadsBack(inode: nat)
    requires inode <= UINT64_MAX
    ensures UintOrDefault(Decimal(inode), 10, UINT64_MAX) == inode
  {
    DecimalReadsBack(inode, UINT64_MAX);
    DecimalIsPlain(inode);
  }

  lemma TokenPlaces(r: Row)
    requires |r.skipped| == 5
    ensures var c, tokens := r.conn, RowTokens(r);
            && |tokens| == 10 + |r.more|
            && tokens[0] == Decimal(Magnitude(c.slot)) + ":"
            && tokens[1] == c.localIP + ":" + Hex(Magnitude(c.localPort), 4)
            && tokens[2] == c.remoteIP + ":" + Hex(Magnitude(c.remotePort), 4)
            && tokens[3] == Hex(Magnitude(c.state), 2)
            && tokens[9] == Decimal(c.inode)
  {}

  lemma OtherTokenPlaces(r: Row, i: nat)
    requires |r.skipped| == 5 && 4 <= i < |RowTokens(r)| && i != 9
    ensures i < 9 ==> RowTokens(r)[i] == r.skipped[i - 4]
    ensures i >= 9 ==> i < 10 + |r.more| && RowTokens(r)[i] == r.more[i - 10]
  {}

  lemma FromFieldsIs(fields: seq<string>, c: RawConnection)
    requires |fields| >= 10 && ParseInt(TrimColon(fields[0]), 10, INT64_LIMIT) == Good(c.slot)
    requires ParseEndpoint(fields[1]) == Some(Endpoint(c.localIP, c.localPort))
    requires ParseEndpoint(fields[2]) == Some(Endpoint(c.remoteIP, c.remotePort))
    requires IntOrDefault(fields[3], 16, INT32_LIMIT) == c.state
    requires UintOrDefault(fields[9], 10, UINT64_MAX) == c.inode
    ensures FromFields(fields) == Some(c)
  {}

  lemma NumbersReadBack(c: RawConnection)
    requires WellRanged(c)
    ensures ParseInt(TrimColon(Decimal(Magnitude(c.slot)) + ":"), 10, INT64_LIMIT) == Good(c.slot)
    ensures ParseEndpoint(c.localIP + ":" + Hex(Magnitude(c.localPort), 4))
            == Some(Endpoint(c.localIP, c.localPort))
    ensures ParseEndpoint(c.remoteIP + ":" + Hex(Magnitude(c.remotePort), 4))
            == Some(Endpoint(c.remoteIP, c.remotePort))
    ensures IntOrDefault(Hex(Magnitude(c.state), 2), 16, INT32_LIMIT) == c.state
    ensures UintOrDefault(Decimal(c.inode), 10, UINT64_MAX) == c.inode
  {
    SlotReadsBack(c.slot);
    EndpointReadsBack(c.localIP, c.localPort);
    EndpointReadsBack(c.remoteIP, c.remotePort);
    StateReadsBack(c.state);
    InodeReadsBack(c.inode);
  }

  lemma NumbersAreWords(c: RawConnection)
    requires WellRanged(c)
    ensures Word(Decimal(Magnitude(c.slot)) + ":") && Word(Hex(Magnitude(c.state), 2)) && Word(Decimal(c.inode))
    ensures Word(c.localIP + ":" + Hex(Magnitude(c.localPort), 4))
    ensures Word(c.remoteIP + ":" + Hex(Magnitude(c.remotePort), 4))
  {
    DecimalIsPlain(Magnitude(c.slot));
    DecimalIsPlain(c.inode);
    HexIsPlain(Magnitude(c.state), 2);
    HexIsPlain(Magnitude(c.localPort), 4);
    HexIsPlain(Magnitude(c.remotePort), 4);
  }

  lemma TokensReadBack(r: Row)
    requires WellRanged(r.conn) && |r.skipped| == 5
    ensures FromFields(RowTokens(r)) == Some(r.conn)
  {
    TokenPlaces(r);
    NumbersReadBack(r.conn);
    FromFieldsIs(RowTokens(r), r.conn);
  }

  lemma TokenIsWord(r: Row, i: nat)
    requires WellFormed(r) && i < |RowTokens(r)|
    ensures Word(RowTokens(r)[i])
  {
    NumbersAreWords(r.conn);
    if i < 4 || i == 9 {
      TokenPlaces(r);
    } else {
      OtherTokenPlaces(r, i);
    }
  }

  lemma FieldsOfRow(r: Row)
    requires WellFormed(r)
    ensures Fields(RowText(r)) == RowTokens(r)
  {
    var tokens, cols := RowTokens(r), Zip(r.gaps, RowTokens(r));
    forall i | 0 <= i < |tokens| ensures Word(tokens[i]) {
      TokenIsWord(r, i);
    }
    ZipPairs(r.gaps, tokens);
    ZipPairs(r.gaps[1..], tokens[1..]);
    var rest := LineText(cols[1..], r.trail);
    FieldsOfColumns(cols[1..], r.trail);
    FieldsSkipBlank(cols[0].gap, cols[0].token + rest);
    FieldsTakeWord(cols[0].token, rest);
  }

  /** A printed row is read back as the connection it was printed from. */
  lemma RowReadsBack(r: Row)
    requires WellFormed(r)
    ensures LineEntry(RowText(r)) == Some(r.conn)
  {
    FieldsOfTrim(RowText(r));
    FieldsOfRow(r);
    TokensReadBack(r);
  }

  // ----- Whole files

  /** A line of a file: a printed row, or something the reader passes over. */
  datatype Entry = Printed(row: Row) | Junk(text: string)

  function EntryText(e: Entry): string {
    match e
    case Printed(r) => RowText(r)
    case Junk(text) => text
  }

  /** What the reader should make of an entry. */
  function Meaning(e: Entry): Option<RawConnection> {
    match e
    case Printed(r) => Some(r.conn)
    case Junk(_) => None
  }

  predicate OneLine(s: string) {
    forall i :: 0 <= i < |s| ==> s[i] != '\n'
  }

  ghost predicate ValidEntry(e: Entry) {
    OneLine(EntryText(e)) && if e.Printed? then WellFormed(e.row) else LineEntry(e.text) == None
  }

  /** The header and a line for each entry. */
  function LinesOf(header: string, es: seq<Entry>): (lines: seq<string>)
    ensures |lines| == |es| + 1 && lines[0] == header
    ensures forall i :: 0 <= i < |es| ==> lines[i + 1] == EntryText(es[i])
  {
    [header] + seq(|es|, i requires 0 <= i < |es| => EntryText(es[i]))
  }

  function Meanings(es: seq<Entry>): (ms: seq<Option<RawConnection>>)
    ensures |ms| == |es| && forall i :: 0 <= i < |es| ==> ms[i] == Meaning(es[i])
  {
    seq(|es|, i requires 0 <= i < |es| => Meaning(es[i]))
  }

  /** The connections among the entries, in order. */
  function Printings(es: seq<Entry>): seq<RawConnection> {
    Somes(Meanings(es), |es|)
  }

  /** Lines with a line feed after each. */
  function FileText(lines: seq<string>): string {
    if lines == [] then "" else lines[0] + ['\n'] + FileText(lines[1..])
  }

  lemma {:induction false} SplitFile(lines: seq<string>)
    requires forall i :: 0 <= i < |lines| ==> OneLine(lines[i])
    ensures Split(FileText(lines), '\n') == lines + [""]
  {
    if lines == [] {
      SplitFirst("", '\n', "");
    } else {
      SplitFirst(lines[0], '\n', FileText(lines[1..]));
      SplitFile(lines[1..]);
      assert lines == [lines[0]] + lines[1..];
    }
  }

  lemma EntryReadsBack(e: Entry)
    requires ValidEntry(e)
    ensures LineEntry(EntryText(e)) == Meaning(e)
  {
    if e.Printed? {
      RowReadsBack(e.row);
    }
  }

  lemma {:induction false} SomesShifted<T>(xs: seq<Option<T>>, ys: seq<Option<T>>, n: nat)
    requires n <= |xs| < |ys| && ys[0] == None && forall i :: 0 <= i < |xs| ==> ys[i + 1] == xs[i]
    ensures Somes(ys, n + 1) == Somes(xs, n)
  {
    if n > 0 {
      SomesShifted(xs, ys, n - 1);
    }
  }

  ghost predicate ValidEntries(es: seq<Entry>) {
    forall i :: 0 <= i < |es| ==> ValidEntry(es[i])
  }

  lemma LinesSplit(header: string, es: seq<Entry>)
    requires OneLine(header) && ValidEntries(es)
    ensures Split(FileText(LinesOf(header, es)), '\n') == LinesOf(header, es) + [""]
  {
    var lines := LinesOf(header, es);
    forall i | 0 <= i < |lines| ensures OneLine(lines[i]) {
      if i > 0 {
        assert lines[i] == EntryText(es[i - 1]) && ValidEntry(es[i - 1]);
      }
    }
    SplitFile(lines);
  }

  lemma LinesContribute(header: string, es: seq<Entry>)
    requires ValidEntries(es)
    ensures var xs, ys := Meanings(es), Contributions(LinesOf(header, es) + [""]);
            && |ys| == |xs| + 2 && ys[0] == None && ys[|xs| + 1] == None
            && forall i :: 0 <= i < |xs| ==> ys[i + 1] == xs[i]
  {
    var xs, ys := Meanings(es), Contributions(LinesOf(header, es) + [""]);
    forall i | 0 <= i < |xs| ensures ys[i + 1] == xs[i] {
      EntryReadsBack(es[i]);
    }
    BlankLineContributesNothing();
  }

  lemma TableOfLines(text: string, lines: seq<string>)
    requires Split(text, '\n') == lines
    ensures Table(text) == Somes(Contributions(lines), |lines|)
  {}

  lemma BlankLineContributesNothing()
    ensures LineEntry("") == None
  {}

  /** Printing a table under a header, with junk in between, and reading it yields its connections. */
  lemma TableReadsBack(header: string, es: seq<Entry>)
    requires OneLine(header) && ValidEntries(es)
    ensures Table(FileText(LinesOf(header, es))) == Printings(es)
  {
    var lines := LinesOf(header, es) + [""];
    LinesSplit(header, es);
    TableOfLines(FileText(LinesOf(header, es)), lines);
    LinesContribute(header, es);
    SomesShifted(Meanings(es), Contributions(lines), |es|);
  }

  // ----- IPv4 addresses

  /** The quad in dotted-decimal notation. */
  function DottedText(a: nat, b: nat, c: nat, d: nat): string {
    Decimal(a) + "." + (Decimal(b) + "." + (Decimal(c) + "." + Decimal(d)))
  }

  function TrimZeros(s: string): string {
    if s != "" && s[0] == '0' then TrimZeros(s[1..]) else s
  }

  /** Eight hexadecimal digits are an IPv4 address, lowest byte first; 32 are four groups; the rest is kept. */
  function HexToIP(hex: string): string {
    if |hex| == 8 then
      var n := UintOrDefault(hex, 16, UINT32_MAX);
      DottedText(n % 256, n / 256 % 256, n / 65536 % 256, n / 16777216 % 256)
    else if |hex| == 32 then
      Group(hex[..8]) + ":" + Group(hex[8..16]) + ":" + Group(hex[16..24]) + ":" + Group(hex[24..])
    else hex
  }

  function Group(part: string): string {
    if part == "00000000" then "0" else TrimZeros(part)
  }

  /** A decimal number up to 255 without leading zeros. */
  function ParseOctet(s: string): Option<Byte> {
    if s == "" || (|s| > 1 && s[0] == '0') then None
    else
      match ParseUint(s, 10, 255)
      case Good(v) => if 0 <= v < 256 then Some(v) else None
      case _ => None
  }

  /**
   net.ParseIP for dotted text, in the sixteen-byte form. A text with a colon before any dot is an IPv6
   address at best; HexToIP writes only four groups then, which is none, so there is no address.
   */
  function ParseIP(s: string): IP {
    var dot := IndexOf(s, '.');
    if dot == |s| || IndexOf(s, ':') < dot || IndexOf(s, '%') < dot then []
    else
      var parts := Split(s, '.');
      if |parts| != 4 then []
      else
        match (ParseOctet(parts[0]), ParseOctet(parts[1]), ParseOctet(parts[2]), ParseOctet(parts[3]))
        case (Some(a), Some(b), Some(c), Some(d)) => V4_IN_V6_PREFIX + [a, b, c, d]
        case _ => []
  }

  /** The address that a column of the table names. */
  function HexAddress(hex: string): IP {
    ParseIP(HexToIP(hex))
  }

  function NativeWord(a: nat, b: nat, c: nat, d: nat): nat {
    a + 256 * b + 65536 * c + 16777216 * d
  }

  lemma NativeWordBytes(a: Byte, b: Byte, c: Byte, d: Byte)
    ensures var n := NativeWord(a, b, c, d);
            && n <= UINT32_MAX
            && n % 256 == a && n / 256 % 256 == b && n / 65536 % 256 == c && n / 16777216 % 256 == d
  {
    var n := NativeWord(a, b, c, d);
    LowByte(a, NativeWord(b, c, d, 0));
    LowByte(b, NativeWord(c, d, 0, 0));
    LowByte(c, NativeWord(d, 0, 0, 0));
    assert n / 65536 == n / 256 / 256;
    assert n / 16777216 == n / 65536 / 256;
  }

  /** The kernel prints the address's four bytes as one native number; the host is little-endian. */
  function KernelHex(quad: seq<Byte>): string
    requires |quad| == 4
  {
    Hex(NativeWord(quad[0], quad[1], quad[2], quad[3]), 8)
  }

  /** HexToIP names the bytes that were printed. */
  lemma HexToIPNamesBytes(quad: seq<Byte>)
    requires |quad| == 4
    ensures HexToIP(KernelHex(quad)) == DottedText(quad[0], quad[1], quad[2], quad[3])
    ensures Plain(KernelHex(quad))
  {
    var n := NativeWord(quad[0], quad[1], quad[2], quad[3]);
    HexIsPlain(n, 8);
    HexLimit8();
    NativeWordBytes(quad[0], quad[1], quad[2], quad[3]);
    HexReadsBack(n, 8, UINT32_MAX);
  }

  lemma HexLimit8()
    ensures HexLimit(8) == UINT32_MAX + 1
  {
    assert HexLimit(4) == 65536;
    assert HexLimit(8) == 16 * (16 * (16 * (16 * HexLimit(4))));
  }

  lemma OctetReadsBack(b: Byte)
    ensures ParseOctet(Decimal(b)) == Some(b)
    ensures forall i :: 0 <= i < |Decimal(b)| ==> !IsPunctuation(Decimal(b)[i])
  {
    DecimalIsPlain(b);
    DecimalReadsBack(b, 255);
    if b > 0 {
      DecimalHasNoLeadingZero(b);
    }
  }

  predicate Undotted(s: string) {
    forall i :: 0 <= i < |s| ==> !IsPunctuation(s[i])
  }

  lemma SplitDot(head: string, rest: string)
    requires Undotted(head)
    ensures Split(head + "." + rest, '.') == [head] + Split(rest, '.')
    ensures Split(head, '.') == [head]
  {
    SplitFirst(head, '.', rest);
    assert head + "." + rest == head + ['.'] + rest;
  }

  lemma SplitTwo(c: string, d: string)
    requires Undotted(c) && Undotted(d)
    ensures Split(c + "." + d, '.') == [c, d]
  {
    SplitDot(c, d);
    SplitDot(d, "");
  }

  lemma SplitThree(b: string, cd: string, c: string, d: string)
    requires Undotted(b) && Split(cd, '.') == [c, d]
    ensures Split(b + "." + cd, '.') == [b, c, d]
  {
    SplitDot(b, cd);
  }

  lemma SplitFour(a: string, bcd: string, b: string, c: string, d: string)
    requires Undotted(a) && Split(bcd, '.') == [b, c, d]
    ensures Split(a + "." + bcd, '.') == [a, b, c, d]
  {
    SplitDot(a, bcd);
  }

  lemma SplitDotted(a: string, b: string, c: string, d: string)
    requires Undotted(a) && Undotted(b) && Undotted(c) && Undotted(d)
    ensures Split(a + "." + (b + "." + (c + "." + d)), '.') == [a, b, c, d]
  {
    SplitTwo(c, d);
    SplitThree(b, c + "." + d, c, d);
    SplitFour(a, b + "." + (c + "." + d), b, c, d);
  }

  lemma DottedMarks(a: string, b: string, c: string, d: string)
    requires Undotted(a) && Undotted(b) && Undotted(c) && Undotted(d)
    ensures var s := a + "." + (b + "." + (c + "." + d));
            IndexOf(s, '.') == |a| < |s| && IndexOf(s, ':') == |s| && IndexOf(s, '%') == |s|
  {
    var s := a + "." + (b + "." + (c + "." + d));
    IndexOfFirst(a, '.', b + "." + (c + "." + d));
    NoMark(c + "." + d, ':');
    NoMark(c + "." + d, '%');
    assert forall i :: 0 <= i < |s| ==> s[i] != ':' && s[i] != '%';
  }

  lemma NoMark(s: string, c: char)
    requires forall i :: 0 <= i < |s| ==> s[i] != c
    ensures IndexOf(s, c) == |s|
  {}

  lemma ParseIPIs(s: string, a: Byte, b: Byte, c: Byte, d: Byte)
    requires IndexOf(s, '.') < |s| && IndexOf(s, ':') == |s| && IndexOf(s, '%') == |s|
    requires Split(s, '.') == [Decimal(a), Decimal(b), Decimal(c), Decimal(d)]
    ensures ParseIP(s) == V4_IN_V6_PREFIX + [a, b, c, d]
  {
    OctetReadsBack(a);
    OctetReadsBack(b);
    OctetReadsBack(c);
    OctetReadsBack(d);
  }

  lemma {:induction false} TrimZerosStaysPlain(s: string)
    requires Plain(s)
    ensures Plain(TrimZeros(s))
  {
    if s != "" && s[0] == '0' {
      TrimZerosStaysPlain(s[1..]);
    }
  }

  lemma GroupHasNoDot(part: string)
    requires Plain(part)
    ensures '.' !in Group(part)
  {
    TrimZerosStaysPlain(part);
  }

  /** The 32 digits of an IPv6 column lead to no address: four groups are written where eight are due. */
  lemma LongHexHasNoAddress(hex: string)
    requires |hex| == 32 && Plain(hex)
    ensures HexAddress(hex) == []
  {
    GroupHasNoDot(hex[..8]);
    GroupHasNoDot(hex[8..16]);
    GroupHasNoDot(hex[16..24]);
    GroupHasNoDot(hex[24..]);
    assert '.' !in HexToIP(hex);
  }

  /** Text of another length is passed on as it is. */
  lemma OtherLengthsAreKept(text: string)
    requires |text| != 8 && |text| != 32
    ensures HexToIP(text) == text && HexAddress(text) == ParseIP(text)
  {}

  /** Hexadecimal text of any length but eight leads to no address. */
  lemma OtherHexHasNoAddress(hex: string)
    requires |hex| != 8 && Plain(hex)
    ensures HexAddress(hex) == []
  {
    if |hex| == 32 {
      LongHexHasNoAddress(hex);
    } else {
      assert IndexOf(hex, '.') == |hex|;
    }
  }

  /** Dotted text is parsed to the bytes it names. */
  lemma DottedReadsBack(a: Byte, b: Byte, c: Byte, d: Byte)
    ensures ParseIP(DottedText(a, b, c, d)) == V4_IN_V6_PREFIX + [a, b, c, d]
  {
    OctetReadsBack(a);
    OctetReadsBack(b);
    OctetReadsBack(c);
    OctetReadsBack(d);
    SplitDotted(Decimal(a), Decimal(b), Decimal(c), Decimal(d));
    DottedMarks(Decimal(a), Decimal(b), Decimal(c), Decimal(d));
    ParseIPIs(DottedText(a, b, c, d), a, b, c, d);
  }
}
