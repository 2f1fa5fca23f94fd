/** The socket tables of `/proc/net/tcp` and `tcp6`: columns, addresses and the lines that are kept. */
module Net {
  import opened Bytes

  const SPACE: byte := 32
  const COLON: byte := 58
  const ESTABLISHED := Ascii("01")
  const LISTEN := Ascii("0A")

  function LeadingSpaces(s: seq<byte>): (n: nat)
    ensures n <= |s|
  {
    if s == [] || s[0] != SPACE then 0 else 1 + LeadingSpaces(s[1..])
  }

  function WordLength(s: seq<byte>): (n: nat)
    ensures n <= |s|
  {
    if s == [] || s[0] == SPACE then 0 else 1 + WordLength(s[1..])
  }

  /** The leading spaces are those before the first byte that is none. */
  lemma {:induction false} LeadingSpacesAre(s: seq<byte>, n: nat)
    requires n <= |s| && (forall i :: 0 <= i < n ==> s[i] == SPACE) && (n < |s| ==> s[n] != SPACE)
    ensures LeadingSpaces(s) == n
  {
    if n > 0 {
      assert forall i :: 0 <= i < n - 1 ==> s[1..][i] == s[i + 1];
      LeadingSpacesAre(s[1..], n - 1);
    }
  }

  lemma {:induction false} WordLengthIs(s: seq<byte>, n: nat)
    requires n <= |s| && (forall i :: 0 <= i < n ==> s[i] != SPACE) && (n < |s| ==> s[n] == SPACE)
    ensures WordLength(s) == n
  {
    if n > 0 {
      assert forall i :: 0 <= i < n - 1 ==> s[1..][i] == s[i + 1];
      WordLengthIs(s[1..], n - 1);
    }
  }

  /** Without its leading spaces; a line of spaces only stays as it is. */
  function Trimmed(s: seq<byte>): seq<byte> {
    var n := LeadingSpaces(s);
    if n < |s| then s[n..] else s
  }

  /** The next column and what is left; nothing is left of a line whose last column no space follows. */
  function NextField(s: seq<byte>): (seq<byte>, seq<byte>) {
    var t := Trimmed(s);
    var m := WordLength(t);
    if m < |t| then (t[..m], t[m..]) else ([], [])
  }

  method ScanField(line: seq<byte>) returns (field: seq<byte>, rest: seq<byte>)
    ensures (field, rest) == NextField(line)
  {
    var s := line;
    var i := 0;
    while i < |s|
      invariant 0 <= i <= |s| && s == line
      invariant forall k :: 0 <= k < i ==> line[k] == SPACE
    {
      if s[i] != SPACE {
        s := s[i..];
        break;
      }
      i := i + 1;
    }
    LeadingSpacesAre(line, i);
    assert s == Trimmed(line);
    i := 0;
    while i < |s|
      invariant 0 <= i <= |s|
      invariant forall k :: 0 <= k < i ==> s[k] != SPACE
    {
      if s[i] == SPACE {
        WordLengthIs(s, i);
        return s[..i], s[i..];
      }
      i := i + 1;
    }
    WordLengthIs(s, i);
    return [], [];
  }

  predicate IsWord(s: seq<byte>) {
    s != [] && SPACE !in s
  }

  function Spaces(n: nat): (s: seq<byte>)
    ensures |s| == n && forall i :: 0 <= i < n ==> s[i] == SPACE
  {
    seq(n, _ => SPACE)
  }

  /** A column is read exactly when a space follows it; at the end of the line it is lost. */
  lemma FieldOf(gap: nat, word: seq<byte>, rest: seq<byte>)
    requires IsWord(word) && (rest != [] ==> rest[0] == SPACE)
    ensures NextField(Spaces(gap) + word + rest) == if rest != [] then (word, rest) else ([], [])
  {
    var s, t := Spaces(gap) + word + rest, word + rest;
    assert s == Spaces(gap) + t && s[gap..] == t;
    assert t[0] == word[0] && word[0] in word;
    LeadingSpacesAre(s, gap);
    assert Trimmed(s) == t;
    assert forall i :: 0 <= i < |word| ==> t[i] == word[i] && word[i] in word;
    WordLengthIs(t, |word|);
  }

  /** What a chain of `n` calls leaves, and the column the next one reads. */
  function RestAfter(s: seq<byte>, n: nat): seq<byte>
    decreases n, s
  {
    if n == 0 then s else NextField(RestAfter(s, n - 1)).1
  }

  function FieldAt(s: seq<byte>, n: nat): seq<byte> {
    NextField(RestAfter(s, n)).0
  }

  /** A column: the spaces before it and its text. */
  datatype Column = Column(gap: nat, text: seq<byte>)

  predicate ValidColumns(cols: seq<Column>) {
    forall i :: 0 <= i < |cols| ==> IsWord(cols[i].text) && (i > 0 ==> cols[i].gap > 0)
  }

  function Layout(cols: seq<Column>, rest: seq<byte>): seq<byte> {
    if cols == [] then rest else Spaces(cols[0].gap) + cols[0].text + Layout(cols[1..], rest)
  }

  lemma LayoutStep(cols: seq<Column>, rest: seq<byte>)
    requires ValidColumns(cols) && cols != [] && rest != [] && rest[0] == SPACE
    ensures NextField(Layout(cols, rest)) == (cols[0].text, Layout(cols[1..], rest))
  {
    var more := Layout(cols[1..], rest);
    assert more != [] && more[0] == SPACE by {
      if |cols| > 1 {
        assert cols[1..][0] == cols[1];
        assert Spaces(cols[1].gap)[0] == SPACE;
      }
    }
    FieldOf(cols[0].gap, cols[0].text, more);
  }

  lemma {:induction false} RestOfLayout(cols: seq<Column>, rest: seq<byte>, n: nat)
    requires ValidColumns(cols) && rest != [] && rest[0] == SPACE && n <= |cols|
    ensures RestAfter(Layout(cols, rest), n) == Layout(cols[n..], rest)
  {
    if n == 0 {
      assert cols[0..] == cols;
    } else {
      RestOfLayout(cols, rest, n - 1);
      var left := cols[n - 1..];
      assert left[1..] == cols[n..];
      LayoutStep(left, rest);
    }
  }

  /** The `n`-th call of a chain reads the `n`-th column, if every column up to it is followed by a space. */
  lemma ColumnsRoundTrip(cols: seq<Column>, rest: seq<byte>, n: nat)
    requires ValidColumns(cols) && rest != [] && rest[0] == SPACE && n < |cols|
    ensures FieldAt(Layout(cols, rest), n) == cols[n].text
  {
    RestOfLayout(cols, rest, n);
    LayoutStep(cols[n..], rest);
  }

  // Hexadecimal.

  function NibbleOf(c: byte): (r: Option<nat>)
    ensures r.Some? ==> r.value < 16
  {
    if 48 <= c <= 57 then Some(c - 48)
    else if 97 <= c <= 102 then Some(c - 87)
    else if 65 <= c <= 70 then Some(c - 55)
    else None
  }

  function IsPair(s: seq<byte>): bool {
    |s| >= 2 && NibbleOf(s[0]).Some? && NibbleOf(s[1]).Some?
  }

  /** The bytes of the longest prefix that consists of pairs of hexadecimal digits. */
  function Pairs(s: seq<byte>): (r: seq<byte>)
    ensures 2 * |r| <= |s|
  {
    if IsPair(s) then [16 * NibbleOf(s[0]).value + NibbleOf(s[1]).value] + Pairs(s[2..]) else []
  }

  datatype HexOutcome = Done | Invalid | Overrun

  function HexOf(s: seq<byte>, room: nat): HexOutcome {
    if |Pairs(s)| > room then Overrun else if 2 * |Pairs(s)| == |s| then Done else Invalid
  }

  lemma {:induction false} PairAt(s: seq<byte>, i: nat)
    requires i <= |Pairs(s)|
    ensures
      var more := 2 * i + 1 < |s| && NibbleOf(s[2 * i]).Some? && NibbleOf(s[2 * i + 1]).Some?;
      && (i < |Pairs(s)| <==> more)
      && (more ==> Pairs(s)[i] == 16 * NibbleOf(s[2 * i]).value + NibbleOf(s[2 * i + 1]).value)
  {
    if i > 0 {
      PairAt(s[2..], i - 1);
    }
  }

  /** `hex.Decode`: it overruns a destination that is too small. */
  method DecodeHex(dst: array<byte>, src: seq<byte>) returns (outcome: HexOutcome)
    modifies dst
    ensures outcome == HexOf(src, dst.Length)
    ensures forall k :: 0 <= k < dst.Length ==> dst[k] == if k < |Pairs(src)| then Pairs(src)[k] else old(dst[k])
  {
    ghost var pairs := Pairs(src);
    var i := 0;
    while 2 * i + 1 < |src|
      invariant 0 <= i <= dst.Length && i <= |pairs|
      invariant forall k :: 0 <= k < dst.Length ==> dst[k] == if k < i then pairs[k] else old(dst[k])
      decreases |src| - 2 * i
    {
      PairAt(src, i);
      var a, b := NibbleOf(src[2 * i]), NibbleOf(src[2 * i + 1]);
      if a.None? || b.None? {
        return Invalid;
      }
      if i == dst.Length {
        return Overrun;
      }
      dst[i] := 16 * a.value + b.value;
      i := i + 1;
    }
    PairAt(src, i);
    outcome := if |src| % 2 == 1 then Invalid else Done;
  }

  // Addresses.

  /** What an address column gives: the address bytes and port that are handed on, none, or a panic. */
  datatype Decoded = NoAddress | Panic | Address(ip: seq<byte>, port: nat)

  /** `bytes.IndexByte`. */
  function IndexOf(s: seq<byte>, c: byte): (r: int)
    ensures -1 <= r < |s|
  {
    if s == [] then -1 else if s[0] == c then 0 else var r := IndexOf(s[1..], c); if r == -1 then -1 else r + 1
  }

  lemma {:induction false} IndexOfFirst(a: seq<byte>, c: byte, b: seq<byte>)
    requires c !in a
    ensures IndexOf(a + [c] + b, c) == |a|
  {
    var s := a + [c] + b;
    if a != [] {
      assert s[0] == a[0] && a[0] in a && s[1..] == a[1..] + [c] + b;
      IndexOfFirst(a[1..], c, b);
    }
  }

  /** The bytes of every 32-bit word in reverse. */
  function ReverseWords(s: seq<byte>): (r: seq<byte>)
    requires |s| % 4 == 0
    ensures |r| == |s|
  {
    if s == [] then [] else [s[3], s[2], s[1], s[0]] + ReverseWords(s[4..])
  }

  lemma {:induction false} ReverseWordsInvolution(s: seq<byte>)
    requires |s| % 4 == 0
    ensures ReverseWords(ReverseWords(s)) == s
  {
    if s != [] {
      ReverseWordsInvolution(s[4..]);
      var r := ReverseWords(s);
      assert r[4..] == ReverseWords(s[4..]);
      assert s == [s[0], s[1], s[2], s[3]] + s[4..];
    }
  }

  function Decode(src: seq<byte>): Decoded {
    var col := IndexOf(src, COLON);
    if col != 8 && col != 32 then NoAddress
    else
      var ip, port := Pairs(src[..col]), Pairs(src[col + 1..]);
      if 2 * |ip| != col then NoAddress
      else match HexOf(src[col + 1..], 2)
           case Overrun => Panic
           case Invalid => NoAddress
           case Done => Address(ReverseWords(ip), U16BE(port + [0, 0]))
  }

  /** One word, read as big-endian and stored as little-endian. */
  method SwapWord(ip: array<byte>, i: nat)
    requires i + 4 <= ip.Length
    modifies ip
    ensures ip[i] == old(ip[i + 3]) && ip[i + 1] == old(ip[i + 2]) && ip[i + 2] == old(ip[i + 1]) && ip[i + 3] == old(ip[i])
    ensures forall k :: 0 <= k < ip.Length && !(i <= k < i + 4) ==> ip[k] == old(ip[k])
  {
    var v := U32BE(ip[i..i + 4]);
    BytesOfWord(ip[i], ip[i + 1], ip[i + 2], ip[i + 3]);
    assert ip[i..i + 4] == [ip[i], ip[i + 1], ip[i + 2], ip[i + 3]];
    ip[i], ip[i + 1], ip[i + 2], ip[i + 3] := v % 256, v / 256 % 256, v / 65536 % 256, v / TWO_24;
  }

  lemma BytesOfWord(a: byte, b: byte, c: byte, d: byte)
    ensures var v := U32BE([a, b, c, d]); v % 256 == d && v / 256 % 256 == c && v / 65536 % 256 == b && v / TWO_24 == a
  {
    var v := U32BE([a, b, c, d]);
    assert v == 256 * (256 * (256 * a + b) + c) + d;
    assert v / 256 == 256 * (256 * a + b) + c;
    assert v / 65536 == v / 256 / 256 == 256 * a + b;
    assert v / TWO_24 == v / 65536 / 256 == a;
  }

  lemma {:induction false} ReversedWordAt(s: seq<byte>, i: nat)
    requires |s| % 4 == 0 && i % 4 == 0 && i + 4 <= |s|
    ensures var r := ReverseWords(s); r[i] == s[i + 3] && r[i + 1] == s[i + 2] && r[i + 2] == s[i + 1] && r[i + 3] == s[i]
  {
    if i > 0 {
      ReversedWordAt(s[4..], i - 4);
    }
  }

  method SwapWords(ip: array<byte>)
    requires ip.Length % 4 == 0
    modifies ip
    ensures ip[..] == ReverseWords(old(ip[..]))
  {
    ghost var was := ip[..];
    var i := 0;
    while i < ip.Length
      invariant 0 <= i <= ip.Length && i % 4 == 0
      invariant forall k :: 0 <= k < i ==> ip[k] == ReverseWords(was)[k]
      invariant forall k :: i <= k < ip.Length ==> ip[k] == was[k]
    {
      SwapWord(ip, i);
      ReversedWordAt(was, i);
      i := i + 4;
    }
  }

  method DecodeAddr(src: seq<byte>) returns (r: Decoded)
    ensures r == Decode(src)
  {
    var col := IndexOf(src, COLON);
    if col == -1 || (col != 8 && col != 32) {
      return NoAddress;
    }
    var ip := new byte[col / 2](_ => 0);
    var outcome := DecodeHex(ip, src[..col]);
    if outcome != Done {
      return NoAddress;
    }
    assert ip[..] == Pairs(src[..col]);
    var port := new byte[2](_ => 0);
    outcome := DecodeHex(port, src[col + 1..]);
    if outcome == Overrun {
      return Panic;
    }
    if outcome == Invalid {
      return NoAddress;
    }
    ghost var pairs := Pairs(src[col + 1..]);
    assert port[0] == (pairs + [0, 0])[0] && port[1] == (pairs + [0, 0])[1] by {
      assert port[..][0] == port[0] && port[..][1] == port[1];
    }
    SwapWords(ip);
    return Address(ip[..], U16BE(port[..]));
  }

  // Tables.

  datatype Sock = Sock(inode: seq<byte>, saddr: Decoded, daddr: Decoded, listen: bool)

  datatype Line = Skipped | Crash | Kept(sock: Sock)

  function LineOf(saddr: Decoded, daddr: Decoded, st: seq<byte>, inode: seq<byte>): Line {
    if st != ESTABLISHED && st != LISTEN then Skipped
    else if saddr.Panic? || daddr.Panic? then Crash
    else Kept(Sock(inode, saddr, daddr, st == LISTEN))
  }

  function ParseLine(line: seq<byte>): Line {
    LineOf(Decode(FieldAt(line, 1)), Decode(FieldAt(line, 2)), FieldAt(line, 3), FieldAt(line, 9))
  }

  /** What the lines after the header come to; a panic ends everything. */
  function Collect(parsed: seq<Line>): Option<seq<Sock>> {
    if parsed == [] then Some([])
    else Joined(Collect(parsed[..|parsed| - 1]), parsed[|parsed| - 1])
  }

  function ParseAll(lines: seq<seq<byte>>): (r: seq<Line>)
    ensures |r| == |lines|
  {
    seq(|lines|, i requires 0 <= i < |lines| => ParseLine(lines[i]))
  }

  function Joined(before: Option<seq<Sock>>, line: Line): Option<seq<Sock>> {
    if before.None? || line.Crash? then None
    else if line.Skipped? then before
    else Some(before.value + [line.sock])
  }

  lemma CollectStep(parsed: seq<Line>, n: nat)
    requires n < |parsed|
    ensures Collect(parsed[..n + 1]) == Joined(Collect(parsed[..n]), parsed[n])
  {
    assert parsed[..n + 1][..n] == parsed[..n];
  }

  lemma {:induction false} PanicStays(parsed: seq<Line>, n: nat)
    requires n <= |parsed| && Collect(parsed[..n]).None?
    ensures Collect(parsed).None?
    decreases |parsed|
  {
    if n < |parsed| {
      assert parsed[..|parsed| - 1][..n] == parsed[..n];
      PanicStays(parsed[..|parsed| - 1], n);
    } else {
      assert parsed[..n] == parsed;
    }
  }

  method ReadLine(line: seq<byte>) returns (r: Line)
    ensures r == ParseLine(line)
  {
    var b := line;
    var local, remote, st, inode;
    st, b := ScanField(b);
    assert b == RestAfter(line, 1);
    local, b := ScanField(b);
    assert b == RestAfter(line, 2);
    remote, b := ScanField(b);
    assert b == RestAfter(line, 3);
    st, b := ScanField(b);
    if st != ESTABLISHED && st != LISTEN {
      return Skipped;
    }
    assert b == RestAfter(line, 4);
    inode, b := ScanField(b);
    assert b == RestAfter(line, 5);
    inode, b := ScanField(b);
    assert b == RestAfter(line, 6);
    inode, b := ScanField(b);
    assert b == RestAfter(line, 7);
    inode, b := ScanField(b);
    assert b == RestAfter(line, 8);
    inode, b := ScanField(b);
    assert b == RestAfter(line, 9);
    inode, b := ScanField(b);
    var saddr := DecodeAddr(local);
    if saddr.Panic? {
      return Crash;
    }
    var daddr := DecodeAddr(remote);
    if daddr.Panic? {
      return Crash;
    }
    return Kept(Sock(inode, saddr, daddr, st == LISTEN));
  }

  method ReadSockets(lines: seq<seq<byte>>) returns (res: Option<seq<Sock>>)
    ensures res == if lines == [] then Some([]) else Collect(ParseAll(lines[1..]))
  {
    ghost var all := if lines == [] then [] else ParseAll(lines[1..]);
    var socks, header, i := [], true, 0;
    while i < |lines|
      invariant 0 <= i <= |lines| && header == (i == 0)
      invariant Some(socks) == Collect(all[..Max(i - 1, 0)])
    {
      i := i + 1;
      if header {
        header := false;
        continue;
      }
      CollectStep(all, i - 2);
      var line := ReadLine(lines[i - 1]);
      assert line == all[i - 2];
      match line {
        case Skipped =>
        case Crash =>
          PanicStays(all, i - 1);
          return None;
        case Kept(sock) => socks := socks + [sock];
      }
    }
    assert all[..|all|] == all;
    return Some(socks);
  }
}
