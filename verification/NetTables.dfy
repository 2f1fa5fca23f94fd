/** The kernel's printing of `/proc/net/tcp` and `tcp6` on a little-endian host, and that the tables are read back. */
module NetTables {
  import opened Bytes
  import opened Net

  function HexChar(n: nat): byte
    requires n < 16
  {
    if n < 10 then 48 + n else 55 + n
  }

  /** `n` in `width` upper-case hexadecimal digits, the way `%08X` and `%04X` print a number that fits. */
  function HexDigits(n: nat, width: nat): (s: seq<byte>)
    ensures |s| == width
    decreases width, n
  {
    if width == 0 then [] else HexDigits(n / 16, width - 1) + [HexChar(n % 16)]
  }

  function HexPair(b: byte): seq<byte> {
    [HexChar(b / 16), HexChar(b % 16)]
  }

  lemma LastPair(high: nat, b: byte, width: nat)
    ensures HexDigits(256 * high + b, width + 2) == HexDigits(high, width) + HexPair(b)
  {
    var n := 256 * high + b;
    assert n / 16 == 16 * high + b / 16 && n % 16 == b % 16;
    assert n / 16 / 16 == high && n / 16 % 16 == b / 16;
    assert HexDigits(n, width + 2) == HexDigits(n / 16, width + 1) + [HexChar(n % 16)];
  }

  /** The kernel prints the word in memory, read in the host's byte order. */
  function KernelWord(w: seq<byte>): seq<byte>
    requires |w| == 4
  {
    HexDigits(U32LE(w), 8)
  }

  lemma TwoPairs(high: nat, a: byte, b: byte, n: nat, width: nat)
    requires n == 256 * (256 * high + a) + b
    ensures HexDigits(n, width + 4) == HexDigits(high, width) + HexPair(a) + HexPair(b)
  {
    LastPair(256 * high + a, b, width + 2);
    LastPair(high, a, width);
  }

  lemma FourPairs(a: byte, b: byte, c: byte, d: byte, n: nat, width: nat)
    requires n == 256 * (256 * (256 * (d as int) + c) + b) + a
    ensures HexDigits(n, width + 8) == HexDigits(0, width) + HexPair(d) + HexPair(c) + HexPair(b) + HexPair(a)
  {
    var high := 256 * (d as int) + c;
    TwoPairs(0, d, c, high, width);
    TwoPairs(high, b, a, n, width + 4);
  }

  lemma KernelWordPairs(w: seq<byte>)
    requires |w| == 4
    ensures KernelWord(w) == HexPair(w[3]) + HexPair(w[2]) + HexPair(w[1]) + HexPair(w[0])
  {
    FourPairs(w[0], w[1], w[2], w[3], U32LE(w), 0);
    assert HexDigits(0, 0) + HexPair(w[3]) == HexPair(w[3]);
  }

  function KernelIp(ip: seq<byte>): seq<byte>
    requires |ip| % 4 == 0
  {
    if ip == [] then [] else KernelWord(ip[..4]) + KernelIp(ip[4..])
  }

  /** An address column: the address words, a colon, and the port in network order. */
  function KernelAddress(ip: seq<byte>, port: nat): seq<byte>
    requires |ip| % 4 == 0
  {
    KernelIp(ip) + [COLON] + HexDigits(port, 4)
  }

  lemma PairsOfPair(b: byte, s: seq<byte>)
    ensures Pairs(HexPair(b) + s) == [b] + Pairs(s)
  {
    var t := HexPair(b) + s;
    assert t[2..] == s;
  }

  lemma PairsOfTwo(a: byte, b: byte, s: seq<byte>, t: seq<byte>)
    requires t == HexPair(a) + HexPair(b) + s
    ensures Pairs(t) == [a, b] + Pairs(s)
  {
    var s' := HexPair(b) + s;
    assert t == HexPair(a) + s';
    PairsOfPair(b, s);
    PairsOfPair(a, s');
  }

  lemma PairsOfWord(w: seq<byte>, s: seq<byte>)
    requires |w| == 4
    ensures Pairs(KernelWord(w) + s) == [w[3], w[2], w[1], w[0]] + Pairs(s)
  {
    KernelWordPairs(w);
    var t, t' := KernelWord(w) + s, HexPair(w[1]) + HexPair(w[0]) + s;
    assert t == HexPair(w[3]) + HexPair(w[2]) + t';
    PairsOfTwo(w[1], w[0], s, t');
    PairsOfTwo(w[3], w[2], t', t);
  }

  lemma {:induction false} HexDigitsAreNoColons(n: nat, width: nat)
    ensures COLON !in HexDigits(n, width)
    decreases width
  {
    if width > 0 {
      HexDigitsAreNoColons(n / 16, width - 1);
    }
  }

  lemma {:induction false} KernelIpPairs(ip: seq<byte>)
    requires |ip| % 4 == 0
    ensures Pairs(KernelIp(ip)) == ReverseWords(ip) && |KernelIp(ip)| == 2 * |ip| && COLON !in KernelIp(ip)
  {
    if ip != [] {
      KernelIpPairs(ip[4..]);
      PairsOfWord(ip[..4], KernelIp(ip[4..]));
      HexDigitsAreNoColons(U32LE(ip[..4]), 8);
    }
  }

  lemma PortPairs(port: nat)
    requires port < TWO_16
    ensures Pairs(HexDigits(port, 4)) == [port / 256, port % 256]
  {
    var high, low := port / 256, port % 256;
    LastPair(high, low, 2);
    LastPair(0, high, 0);
    assert HexDigits(0, 0) == [];
    PairsOfPair(low, []);
    PairsOfPair(high, HexPair(low));
    assert HexDigits(port, 4) == HexPair(high) + (HexPair(low) + []);
  }

  /** Decoding takes the column apart at its first colon. */
  lemma DecodeParts(address: seq<byte>, port: seq<byte>)
    requires COLON !in address
    ensures
      var ip, pairs := Pairs(address), Pairs(port);
      Decode(address + [COLON] + port)
        == if (|address| != 8 && |address| != 32) || 2 * |ip| != |address| then NoAddress
           else if |pairs| > 2 then Panic
           else if 2 * |pairs| != |port| then NoAddress
           else Address(ReverseWords(ip), U16BE(pairs + [0, 0]))
  {
    var src, col := address + [COLON] + port, |address|;
    IndexOfFirst(address, COLON, port);
    assert src[..col] == address && src[col + 1..] == port;
  }

  /** Decoding undoes the kernel's printing of every IPv4 and IPv6 address and port. */
  lemma AddressRoundTrip(ip: seq<byte>, port: nat)
    requires (|ip| == 4 || |ip| == 16) && port < TWO_16
    ensures Decode(KernelAddress(ip, port)) == Address(ip, port)
  {
    KernelIpPairs(ip);
    PortPairs(port);
    DecodeParts(KernelIp(ip), HexDigits(port, 4));
    ReverseWordsInvolution(ip);
  }

  /** Decoding panics exactly on an address of 8 or 32 hexadecimal digits whose port starts with six or more of them. */
  lemma {:induction false} PanicIff(address: seq<byte>, port: seq<byte>)
    requires COLON !in address
    ensures Decode(address + [COLON] + port).Panic?
            <==> (|address| == 8 || |address| == 32) && 2 * |Pairs(address)| == |address| && |Pairs(port)| >= 3
  {
    DecodeParts(address, port);
  }

  predicate ValidEndpoint(e: Endpoint) {
    (|e.addr| == 4 || |e.addr| == 16) && e.port < TWO_16
  }

  /** A line of the table: its columns, and what follows the last one that is needed. */
  datatype Row = Row(local: Endpoint, remote: Endpoint, cols: seq<Column>, rest: seq<byte>)

  predicate ValidRow(r: Row) {
    && ValidEndpoint(r.local) && ValidEndpoint(r.remote)
    && |r.cols| >= 10 && ValidColumns(r.cols) && r.rest != [] && r.rest[0] == SPACE
    && r.cols[1].text == KernelAddress(r.local.addr, r.local.port)
    && r.cols[2].text == KernelAddress(r.remote.addr, r.remote.port)
  }

  /** Connections and listeners are wanted. */
  predicate Wanted(r: Row)
    requires ValidRow(r)
  {
    r.cols[3].text == ESTABLISHED || r.cols[3].text == LISTEN
  }

  function SockOf(r: Row): Sock
    requires ValidRow(r)
  {
    Sock(r.cols[9].text, Address(r.local.addr, r.local.port), Address(r.remote.addr, r.remote.port), r.cols[3].text == LISTEN)
  }

  function LineOfRow(r: Row): Line
    requires ValidRow(r)
  {
    if Wanted(r) then Kept(SockOf(r)) else Skipped
  }

  lemma RowParsed(cols: seq<Column>, rest: seq<byte>, s: Decoded, d: Decoded)
    requires |cols| >= 10 && ValidColumns(cols) && rest != [] && rest[0] == SPACE
    requires s == Decode(cols[1].text) && d == Decode(cols[2].text)
    ensures ParseLine(Layout(cols, rest)) == LineOf(s, d, cols[3].text, cols[9].text)
  {
    ColumnsRoundTrip(cols, rest, 1);
    ColumnsRoundTrip(cols, rest, 2);
    ColumnsRoundTrip(cols, rest, 3);
    ColumnsRoundTrip(cols, rest, 9);
  }

  lemma EndpointRoundTrip(e: Endpoint, text: seq<byte>)
    requires ValidEndpoint(e) && text == KernelAddress(e.addr, e.port)
    ensures Decode(text) == Address(e.addr, e.port)
  {
    AddressRoundTrip(e.addr, e.port);
  }

  lemma RowRoundTrip(r: Row)
    requires ValidRow(r)
    ensures ParseLine(Layout(r.cols, r.rest)) == LineOfRow(r)
  {
    EndpointRoundTrip(r.local, r.cols[1].text);
    EndpointRoundTrip(r.remote, r.cols[2].text);
    RowParsed(r.cols, r.rest, Address(r.local.addr, r.local.port), Address(r.remote.addr, r.remote.port));
  }

  predicate ValidRows(rows: seq<Row>) {
    forall i :: 0 <= i < |rows| ==> ValidRow(rows[i])
  }

  function LinesOf(rows: seq<Row>): (r: seq<seq<byte>>)
    ensures |r| == |rows|
  {
    seq(|rows|, i requires 0 <= i < |rows| => Layout(rows[i].cols, rows[i].rest))
  }

  function LinesWanted(rows: seq<Row>): (r: seq<Line>)
    requires ValidRows(rows)
    ensures |r| == |rows|
  {
    seq(|rows|, i requires 0 <= i < |rows| => LineOfRow(rows[i]))
  }

  /** The sockets that are kept, in order. */
  function SocksOf(lines: seq<Line>): seq<Sock> {
    if lines == [] then []
    else
      var last := lines[|lines| - 1];
      SocksOf(lines[..|lines| - 1]) + if last.Kept? then [last.sock] else []
  }

  lemma {:induction false} CollectKept(parsed: seq<Line>)
    requires forall i :: 0 <= i < |parsed| ==> !parsed[i].Crash?
    ensures Collect(parsed) == Some(SocksOf(parsed))
  {
    if parsed != [] {
      var front := parsed[..|parsed| - 1];
      CollectKept(front);
      assert SocksOf(front) + [] == SocksOf(front);
    }
  }

  /** Reading a printed table gives its established and listening sockets, in order, and never panics. */
  lemma TableRoundTrip(rows: seq<Row>)
    requires ValidRows(rows)
    ensures Collect(ParseAll(LinesOf(rows))) == Some(SocksOf(LinesWanted(rows)))
  {
    forall i | 0 <= i < |rows| ensures ParseAll(LinesOf(rows))[i] == LinesWanted(rows)[i] {
      RowRoundTrip(rows[i]);
    }
    assert ParseAll(LinesOf(rows)) == LinesWanted(rows);
    CollectKept(LinesWanted(rows));
  }
}
