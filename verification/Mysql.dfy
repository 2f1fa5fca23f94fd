/** `MysqlParser`: query texts, and the cache of prepared statements keyed by decimal strings. */
module Mysql {
  import opened Bytes
  import opened Classifiers
  import opened Statements

  const HEADER_SIZE := 4

  /** A call returns a text, or panics on a slice expression that is out of range. */
  datatype Parsed = Panic | Parsed(text: Text)

  /** `strconv.FormatUint(n, 10)`. */
  function Decimal(n: nat): (s: Text)
    ensures |s| > 0
    ensures forall i :: 0 <= i < |s| ==> 48 <= s[i] < 58
  {
    if n < 10 then [48 + n] else Decimal(n / 10) + [48 + n % 10]
  }

  /** `readQuery`; None when the slice bounds are out of range. */
  function ReadQuery(payload: seq<byte>): Option<Text>
    requires |payload| >= HEADER_SIZE + 5
  {
    var to := HEADER_SIZE + U24LE(payload);
    if to > |payload| then Some(payload[HEADER_SIZE + 1..] + MARKER)
    else if to < HEADER_SIZE + 1 then None
    else Some(payload[HEADER_SIZE + 1..to])
  }

  function ReadStatementId(payload: seq<byte>): u32
    requires |payload| >= HEADER_SIZE + 5
  {
    U32LE(payload[HEADER_SIZE + 1..])
  }

  /** What a packet does to the statements: the reference the cache is proved against, with statement ids as numbers. */
  datatype Effect = Nothing | Prepares(id: u32, query: Text) | Closes(id: u32)

  function EffectOf(payload: seq<byte>, statementId: u32): Effect {
    if |payload| < HEADER_SIZE + 5 then Nothing
    else if payload[4] == MYSQL_PREPARE && ReadQuery(payload).Some? then Prepares(statementId, ReadQuery(payload).value)
    else if payload[4] == MYSQL_CLOSE then Closes(ReadStatementId(payload))
    else Nothing
  }

  /** The text a packet is reported with, given what is prepared under the id it executes. */
  function Report(payload: seq<byte>, statementId: u32, prepared: Option<Text>): Parsed {
    if |payload| < HEADER_SIZE + 5 then Parsed([])
    else if payload[4] == MYSQL_QUERY || payload[4] == MYSQL_PREPARE then
      match ReadQuery(payload)
      case None => Panic
      case Some(query) =>
        if payload[4] == MYSQL_QUERY then Parsed(query)
        else Parsed(Ascii("PREPARE ") + Decimal(statementId) + Ascii(" FROM ") + query)
    else if payload[4] == MYSQL_EXECUTE then
      Parsed(if prepared.Some? then prepared.value else UnknownStatement(Decimal(ReadStatementId(payload))))
    else Parsed([])
  }

  class MysqlParser {
    var preparedStatements: map<Text, Text>
    ghost var packets: seq<(seq<byte>, u32)>

    constructor ()
      ensures Valid() && packets == []
    {
      preparedStatements := map[];
      packets := [];
    }

    /** The map keyed by decimal strings holds exactly the statements prepared so far and not closed since. */
    ghost predicate Valid()
      reads this
    {
      forall id: u32 :: Lookup(preparedStatements, Decimal(id)) == Prepared(packets, id)
    }

    method Parse(payload: seq<byte>, statementId: u32) returns (r: Parsed)
      requires Valid()
      modifies this
      ensures Valid() && packets == old(packets) + [(payload, statementId)]
      ensures r == Report(payload, statementId, if |payload| < 9 then None else Prepared(old(packets), ReadStatementId(payload)))
    {
      ghost var before := preparedStatements;
      ghost var was := packets;
      packets := packets + [(payload, statementId)];
      Extend(before, was, payload, statementId);
      if |payload| < HEADER_SIZE + 5 {
        return Parsed([]);
      }
      var command := payload[4];
      if command == MYSQL_QUERY {
        var query := ReadQuery(payload);
        return if query.None? then Panic else Parsed(query.value);
      }
      if command == MYSQL_EXECUTE {
        var id := Decimal(ReadStatementId(payload));
        assert Lookup(before, Decimal(ReadStatementId(payload))) == Prepared(was, ReadStatementId(payload));
        if id in preparedStatements {
          return Parsed(preparedStatements[id]);
        }
        return Parsed(UnknownStatement(id));
      }
      if command == MYSQL_PREPARE {
        var query := ReadQuery(payload);
        if query.None? {
          return Panic;
        }
        var id := Decimal(statementId);
        preparedStatements := preparedStatements[id := query.value];
        return Parsed(Ascii("PREPARE ") + id + Ascii(" FROM ") + query.value);
      }
      if command == MYSQL_CLOSE {
        preparedStatements := preparedStatements - {Decimal(ReadStatementId(payload))};
      }
      return Parsed([]);
    }
  }

  /** The text of the latest PREPARE of a statement with no later CLOSE. */
  function Prepared(packets: seq<(seq<byte>, u32)>, id: u32): Option<Text> {
    if packets == [] then None
    else
      match EffectOf(packets[|packets| - 1].0, packets[|packets| - 1].1)
      case Prepares(i, query) => if i == id then Some(query) else Prepared(packets[..|packets| - 1], id)
      case Closes(i) => if i == id then None else Prepared(packets[..|packets| - 1], id)
      case Nothing => Prepared(packets[..|packets| - 1], id)
  }

  /** The value of a string of digits. */
  function Value(s: Text): nat
    requires forall i :: 0 <= i < |s| ==> 48 <= s[i] < 58
  {
    if s == [] then 0 else 10 * Value(s[..|s| - 1]) + (s[|s| - 1] - 48)
  }

  lemma {:induction false} ValueOfDecimal(n: nat)
    ensures Value(Decimal(n)) == n
  {
    var s := Decimal(n);
    if n < 10 {
      assert s[..0] == [];
      assert Value([]) == 0;
    } else {
      ValueOfDecimal(n / 10);
      assert s[..|s| - 1] == Decimal(n / 10);
    }
  }

  lemma DecimalInjective(a: nat, b: nat)
    ensures Decimal(a) == Decimal(b) <==> a == b
  {
    ValueOfDecimal(a);
    ValueOfDecimal(b);
  }

  /** One packet changes the cache as it changes the statements, whatever the other ids are. */
  lemma Extend(m: map<Text, Text>, packets: seq<(seq<byte>, u32)>, payload: seq<byte>, statementId: u32)
    requires forall id: u32 :: Lookup(m, Decimal(id)) == Prepared(packets, id)
    ensures
      var m' := match EffectOf(payload, statementId)
                case Nothing => m
                case Prepares(i, query) => m[Decimal(i) := query]
                case Closes(i) => m - {Decimal(i)};
      forall id: u32 :: Lookup(m', Decimal(id)) == Prepared(packets + [(payload, statementId)], id)
  {
    assert (packets + [(payload, statementId)])[..|packets|] == packets;
    forall id: u32
      ensures var m' := match EffectOf(payload, statementId)
                        case Nothing => m
                        case Prepares(i, query) => m[Decimal(i) := query]
                        case Closes(i) => m - {Decimal(i)};
              Lookup(m', Decimal(id)) == Prepared(packets + [(payload, statementId)], id)
    {
      assert Lookup(m, Decimal(id)) == Prepared(packets, id);
      match EffectOf(payload, statementId)
      case Nothing =>
      case Prepares(i, _) => DecimalInjective(id, i);
      case Closes(i) => DecimalInjective(id, i);
    }
  }

  /** Exactly the queries and prepares with an announced length of 0 make the parser panic. */
  lemma PanicIff(payload: seq<byte>, statementId: u32, prepared: Option<Text>)
    ensures Report(payload, statementId, prepared) == Panic <==>
      |payload| >= 9 && payload[..3] == [0, 0, 0] && payload[4] in {MYSQL_QUERY, MYSQL_PREPARE}
  {
  }

  function LE24(n: nat): seq<byte>
    requires n < TWO_24
  {
    [n % 256, n / 256 % 256, n / 65536]
  }

  lemma LengthRoundTrip(n: nat)
    requires n < TWO_24
    ensures U24LE(LE24(n)) == n
  {
    assert n % 256 + 256 * (n / 256 % 256) + 65536 * (n / 65536) == n;
  }

  /** A packet with sequence number 0: length, number, command and body. */
  function Packet(command: byte, body: seq<byte>): seq<byte>
    requires 1 + |body| < TWO_24
  {
    LE24(1 + |body|) + [0, command] + body
  }

  /** Reading back the body of a packet of which at least 9 bytes arrived: it is exact when all of it arrived,
      otherwise it is what arrived with a marker. */
  lemma QueryRoundTrip(command: byte, body: seq<byte>, k: nat)
    requires 1 + |body| < TWO_24 && 9 <= k <= |Packet(command, body)|
    ensures ReadQuery(Packet(command, body)[..k])
         == Some(if k == |Packet(command, body)| then body else body[..k - 5] + MARKER)
  {
    var n := 1 + |body|;
    var packet := Packet(command, body);
    LengthRoundTrip(n);
    assert packet[..k][5..] == body[..k - 5];
    assert k == |packet| ==> packet[..k][5..4 + n] == body;
  }

  function LE32(n: u32): seq<byte> {
    [n % 256, n / 256 % 256, n / 65536 % 256, n / TWO_24]
  }

  lemma LE32RoundTrip(id: u32)
    ensures U32LE(LE32(id)) == id
  {
    assert id % 256 + 256 * (id / 256 % 256) + 65536 * (id / 65536 % 256) + TWO_24 * (id / TWO_24) == id;
  }

  /** EXECUTE and CLOSE packets name the statement they were built for. */
  lemma StatementIdRoundTrip(command: byte, id: u32, rest: seq<byte>, k: nat)
    requires 5 + |rest| < TWO_24 && 9 <= k <= 9 + |rest|
    ensures |Packet(command, LE32(id) + rest)| == 9 + |rest|
    ensures ReadStatementId(Packet(command, LE32(id) + rest)[..k]) == id
  {
    var tail := Packet(command, LE32(id) + rest)[..k][5..];
    var number := LE32(id);
    assert tail[..4] == number;
    assert tail[0] == number[0] && tail[1] == number[1] && tail[2] == number[2] && tail[3] == number[3];
    LE32RoundTrip(id);
  }
}
