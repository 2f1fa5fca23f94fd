/** Runs of MySQL commands through the parser, told from the commands: which text an EXECUTE, a PREPARE or a CLOSE leads to. */
module MysqlCommands {
  import opened Bytes
  import opened Classifiers
  import opened Statements
  import opened Mysql

  /** The commands in the layout of the MySQL client/server protocol. */
  datatype Command = Query(text: Text) | Prepare(text: Text) | Execute(id: u32, rest: seq<byte>) | Close(id: u32)

  /** A command as it was captured, its first `k` bytes, with the statement id in the answer to it. */
  datatype Captured = Captured(m: Command, statementId: u32, k: nat)

  function Tag(m: Command): byte {
    match m
    case Query(_) => MYSQL_QUERY
    case Prepare(_) => MYSQL_PREPARE
    case Execute(_, _) => MYSQL_EXECUTE
    case Close(_) => MYSQL_CLOSE
  }

  function Body(m: Command): seq<byte> {
    match m
    case Query(text) => text
    case Prepare(text) => text
    case Execute(id, rest) => LE32(id) + rest
    case Close(id) => LE32(id)
  }

  predicate WellFormed(c: Captured) {
    1 + |Body(c.m)| < TWO_24 && c.k <= 5 + |Body(c.m)|
  }

  function Payload(c: Captured): seq<byte>
    requires WellFormed(c)
  {
    Packet(Tag(c.m), Body(c.m))[..c.k]
  }

  /** The part of a text that was captured, with a marker unless it is all of it. */
  function Part(text: Text, k: nat): Text
    requires 5 <= k <= 5 + |text|
  {
    if k == 5 + |text| then text else text[..k - 5] + MARKER
  }

  /** What a captured command does to the statements; of less than 9 bytes the parser makes nothing. */
  function Meaning(c: Captured): Effect
    requires WellFormed(c)
  {
    if c.k < 9 then Nothing
    else
      match c.m
      case Prepare(text) => Prepares(c.statementId, Part(text, c.k))
      case Close(id) => Closes(id)
      case _ => Nothing
  }

  /** The text of the latest PREPARE that was answered with this id, if no CLOSE of it came later. */
  function Latest(cs: seq<Captured>, id: u32): Option<Text>
    requires forall i :: 0 <= i < |cs| ==> WellFormed(cs[i])
  {
    if cs == [] then None
    else
      match Meaning(cs[|cs| - 1])
      case Prepares(i, text) => if i == id then Some(text) else Latest(cs[..|cs| - 1], id)
      case Closes(i) => if i == id then None else Latest(cs[..|cs| - 1], id)
      case Nothing => Latest(cs[..|cs| - 1], id)
  }

  /** The text a captured command is reported with after those before it. */
  function Told(cs: seq<Captured>, c: Captured): Text
    requires WellFormed(c) && forall i :: 0 <= i < |cs| ==> WellFormed(cs[i])
  {
    if c.k < 9 then []
    else
      match c.m
      case Query(text) => Part(text, c.k)
      case Prepare(text) => Ascii("PREPARE ") + Decimal(c.statementId) + Ascii(" FROM ") + Part(text, c.k)
      case Execute(id, _) =>
        if Latest(cs, id).Some? then Latest(cs, id).value else Ascii("EXECUTE ") + Decimal(id) + Ascii(" /* unknown */")
      case Close(_) => []
  }

  function Packets(cs: seq<Captured>): seq<(seq<byte>, u32)>
    requires forall i :: 0 <= i < |cs| ==> WellFormed(cs[i])
  {
    seq(|cs|, i requires 0 <= i < |cs| => (Payload(cs[i]), cs[i].statementId))
  }

  lemma CommandByte(c: Captured)
    requires WellFormed(c) && c.k >= 9
    ensures |Payload(c)| == c.k && Payload(c)[4] == Tag(c.m)
  {
  }

  lemma IdOfPayload(c: Captured, id: u32)
    requires WellFormed(c) && c.k >= 9 && (c.m == Close(id) || (c.m.Execute? && c.m.id == id))
    ensures |Payload(c)| >= 9 && ReadStatementId(Payload(c)) == id
  {
    var rest := if c.m.Execute? then c.m.rest else [];
    assert LE32(id) + [] == LE32(id);
    StatementIdRoundTrip(Tag(c.m), id, rest, c.k);
  }

  /** The parser sees in the captured bytes what the command means. */
  lemma MeaningOfPayload(c: Captured)
    requires WellFormed(c)
    ensures EffectOf(Payload(c), c.statementId) == Meaning(c)
  {
    if c.k >= 9 {
      CommandByte(c);
      match c.m
      case Prepare(text) => QueryRoundTrip(MYSQL_PREPARE, text, c.k);
      case Close(id) => IdOfPayload(c, id);
      case _ =>
    }
  }

  lemma {:induction false} PreparedIsLatest(cs: seq<Captured>, id: u32)
    requires forall i :: 0 <= i < |cs| ==> WellFormed(cs[i])
    ensures Prepared(Packets(cs), id) == Latest(cs, id)
  {
    if cs != [] {
      var prev := cs[..|cs| - 1];
      assert Packets(cs)[..|cs| - 1] == Packets(prev);
      MeaningOfPayload(cs[|cs| - 1]);
      PreparedIsLatest(prev, id);
    }
  }

  lemma ReportOfExecute(p: seq<byte>, statementId: u32, prepared: Option<Text>, id: u32)
    requires |p| >= 9 && p[4] == MYSQL_EXECUTE && ReadStatementId(p) == id
    ensures
      Report(p, statementId, prepared)
        == Parsed(if prepared.Some? then prepared.value else Ascii("EXECUTE ") + Decimal(id) + Ascii(" /* unknown */"))
  {
  }

  lemma ReportOfText(p: seq<byte>, statementId: u32, prepared: Option<Text>, text: Text)
    requires |p| >= 9 && p[4] in {MYSQL_QUERY, MYSQL_PREPARE} && ReadQuery(p) == Some(text)
    ensures
      Report(p, statementId, prepared)
        == Parsed(if p[4] == MYSQL_QUERY then text else Ascii("PREPARE ") + Decimal(statementId) + Ascii(" FROM ") + text)
  {
  }

  /** Over every run of captured commands, each is reported with its text: an EXECUTE with that of the latest PREPARE of its id
      not closed since, or as unknown. */
  lemma ReportIsTold(cs: seq<Captured>, c: Captured)
    requires WellFormed(c) && forall i :: 0 <= i < |cs| ==> WellFormed(cs[i])
    ensures
      var p := Payload(c);
      Report(p, c.statementId, if |p| < 9 then None else Prepared(Packets(cs), ReadStatementId(p))) == Parsed(Told(cs, c))
  {
    if c.k >= 9 {
      var p := Payload(c);
      CommandByte(c);
      var prepared := Prepared(Packets(cs), ReadStatementId(p));
      match c.m
      case Query(text) =>
        QueryRoundTrip(MYSQL_QUERY, text, c.k);
        ReportOfText(p, c.statementId, prepared, Part(text, c.k));
      case Prepare(text) =>
        QueryRoundTrip(MYSQL_PREPARE, text, c.k);
        ReportOfText(p, c.statementId, prepared, Part(text, c.k));
      case Close(id) =>
      case Execute(id, _) =>
        IdOfPayload(c, id);
        PreparedIsLatest(cs, id);
        ReportOfExecute(p, c.statementId, prepared, id);
    }
  }

  /** A CLOSE packet forgets its statement and no other, whatever statement id comes with its event. */
  lemma CloseForgets(packets: seq<(seq<byte>, u32)>, id: u32, statementId: u32, other: u32)
    ensures
      var after := packets + [(Packet(MYSQL_CLOSE, LE32(id)), statementId)];
      Prepared(after, id) == None && (other != id ==> Prepared(after, other) == Prepared(packets, other))
  {
    var packet := Packet(MYSQL_CLOSE, LE32(id));
    var c := Captured(Close(id), statementId, |packet|);
    assert Payload(c) == packet;
    MeaningOfPayload(c);
    assert (packets + [(packet, statementId)])[..|packets|] == packets;
  }

  /** None of these packets prepares statement `id`. */
  predicate PreparesNone(packets: seq<(seq<byte>, u32)>, id: u32) {
    forall i :: 0 <= i < |packets| ==>
      match EffectOf(packets[i].0, packets[i].1)
      case Prepares(other, _) => other != id
      case _ => true
  }

  lemma {:induction false} StaysUnknown(before: seq<(seq<byte>, u32)>, between: seq<(seq<byte>, u32)>, id: u32)
    requires Prepared(before, id) == None && PreparesNone(between, id)
    ensures Prepared(before + between, id) == None
    decreases |between|
  {
    if between == [] {
      assert before + between == before;
    } else {
      var front := between[..|between| - 1];
      assert (before + between)[..|before + between| - 1] == before + front;
      StaysUnknown(before, front, id);
    }
  }

  /** An EXECUTE packet of a statement that nothing prepares, from the beginning or from a CLOSE on, is reported as unknown. */
  lemma ExecuteUnknown(before: seq<(seq<byte>, u32)>, closeId: u32, between: seq<(seq<byte>, u32)>, id: u32, rest: seq<byte>,
                       k: nat, statementId: u32)
    requires PreparesNone(between, id) && 5 + |rest| < TWO_24 && 9 <= k <= 9 + |rest|
    ensures
      var closed := before + [(Packet(MYSQL_CLOSE, LE32(id)), closeId)] + between;
      var execute := Packet(MYSQL_EXECUTE, LE32(id) + rest)[..k];
      var unknown := Parsed(Ascii("EXECUTE ") + Decimal(id) + Ascii(" /* unknown */"));
      && |execute| >= 9
      && Report(execute, statementId, Prepared(closed, ReadStatementId(execute))) == unknown
      && Report(execute, statementId, Prepared(between, ReadStatementId(execute))) == unknown
  {
    var close := [(Packet(MYSQL_CLOSE, LE32(id)), closeId)];
    StatementIdRoundTrip(MYSQL_EXECUTE, id, rest, k);
    CommandByte(Captured(Execute(id, rest), statementId, k));
    CloseForgets(before, id, closeId, id);
    StaysUnknown(before + close, between, id);
    StaysUnknown([], between, id);
    assert [] + between == between;
  }
}
