/** The messages the classifiers are made for, byte by byte: which ones they accept, and which ids they find in them. */
module Wire {
  import opened Bytes
  import opened Classifiers
  import opened L7
  import opened L7Verdicts
  import M = Mysql

  function BE16(n: nat): seq<byte>
    requires n < TWO_16
  {
    [n / 256, n % 256]
  }

  function BE32(n: u32): seq<byte> {
    [n / TWO_24, n / 65536 % 256, n / 256 % 256, n % 256]
  }

  lemma BE32RoundTrip(n: u32)
    ensures U32BE(BE32(n)) == n
  {
    assert TWO_24 * (n / TWO_24) + 65536 * (n / 65536 % 256) + 256 * (n / 256 % 256) + n % 256 == n;
  }

  /** A Kafka request: its size, api key, api version and correlation id, and the rest. */
  function KafkaRequest(apiKey: nat, version: nat, correlation: u32, rest: seq<byte>): seq<byte>
    requires apiKey < TWO_16 && version < TWO_16 && 12 + |rest| < 0x8000_0000
  {
    BE32(8 + |rest|) + BE16(apiKey) + BE16(version) + BE32(correlation) + rest
  }

  lemma KafkaRequestIff(apiKey: nat, version: nat, correlation: u32, rest: seq<byte>)
    requires apiKey < TWO_16 && version < TWO_16 && 12 + |rest| < 0x8000_0000
    ensures
      var mem := KafkaRequest(apiKey, version, correlation, rest);
      IsKafkaRequest(mem, |mem|) == if apiKey <= 67 && 0 < correlation < 0x8000_0000 then Some(correlation) else None
  {
    var mem := KafkaRequest(apiKey, version, correlation, rest);
    assert mem[..4] == BE32(8 + |rest|) && mem[4..6] == BE16(apiKey) && mem[8..12] == BE32(correlation);
    BE32RoundTrip(8 + |rest|);
    BE32RoundTrip(correlation);
    assert U16BE(BE16(apiKey)) == apiKey;
  }

  function KafkaResponse(correlation: u32, rest: seq<byte>): seq<byte>
    requires 4 + |rest| < 0x8000_0000
  {
    BE32(4 + |rest|) + BE32(correlation) + rest
  }

  /** A response answers the request with its correlation id and no other. */
  lemma KafkaResponseIff(correlation: u32, rest: seq<byte>, requestId: int)
    requires 4 + |rest| < 0x8000_0000 && 0 < requestId < 0x8000_0000
    ensures IsKafkaResponse(KafkaResponse(correlation, rest), requestId).Reply? <==> correlation == requestId
  {
    var mem := KafkaResponse(correlation, rest);
    assert mem[4..8] == BE32(correlation);
    BE32RoundTrip(correlation);
  }

  /** A frame of version 4 of the Cassandra protocol. */
  function CassandraFrame(version: byte, flags: byte, stream: seq<byte>, opcode: byte, rest: seq<byte>): seq<byte>
    requires |stream| == 2
  {
    [version, flags] + stream + [opcode] + rest
  }

  /** Queries, executes and batches are requests, results and errors are responses, and both are known by the same stream id. */
  lemma CassandraFrameIff(version: byte, flags: byte, stream: seq<byte>, opcode: byte, rest: seq<byte>)
    requires |stream| == 2 && rest != []
    ensures
      var mem := CassandraFrame(version, flags, stream, opcode, rest);
      var id := S16(stream[0] as int + 256 * stream[1] as int);
      && IsCassandraRequest(mem, |mem|) == (if version == 4 && opcode in {7, 10, 13} then Some(id) else None)
      && IsCassandraResponse(mem, |mem|)
           == if version == 0x84 && opcode in {0, 8} then Some((id, if opcode == 8 then 200 else 500)) else None
  {
    var mem := CassandraFrame(version, flags, stream, opcode, rest);
    assert mem[2..4] == stream && mem[4] == opcode;
  }

  /** A message of the MongoDB wire protocol. */
  function MongoMessage(length: u32, requestId: u32, responseTo: u32, opcode: u32, rest: seq<byte>): seq<byte> {
    M.LE32(length) + M.LE32(requestId) + M.LE32(responseTo) + M.LE32(opcode) + rest
  }

  /** A message with one of the two operation codes is a query when it responds to nothing, and an answer otherwise. */
  lemma MongoMessageIff(length: u32, requestId: u32, responseTo: u32, opcode: u32, rest: seq<byte>)
    ensures
      var mem := MongoMessage(length, requestId, responseTo, opcode, rest);
      && (IsMongoQuery(mem, |mem|) <==> responseTo == 0 && opcode in {2012, 2013})
      && IsMongoResponse(mem, |mem|, false)
           == if responseTo != 0 && opcode in {2012, 2013} then Reply(STATUS_UNKNOWN, 0) else NoReply
  {
    var mem := MongoMessage(length, requestId, responseTo, opcode, rest);
    assert mem[8..12] == M.LE32(responseTo) && mem[12..16] == M.LE32(opcode);
    M.LE32RoundTrip(responseTo);
    M.LE32RoundTrip(opcode);
  }

  /** An answer read in two parts, its length first, is recognised exactly when it is read at once. */
  lemma MongoPartsAgree(mem: seq<byte>, size: nat, restSize: nat)
    requires |mem| >= 4 && size != 4
    ensures IsMongoResponse(mem[..4], 4, false) == Partial
    ensures IsMongoResponse(mem[4..], restSize, true) == IsMongoResponse(mem, size, false)
  {
    if |mem| >= 16 {
      assert mem[4..][4..8] == mem[8..12] && mem[4..][8..12] == mem[12..16];
    }
  }

  /** So a split answer leads to the event of a whole one, in the same table. */
  lemma MongoSplitAgrees(c: Classifiers, t: Tables, ts: Timestamps, k: Key, mem: seq<byte>, size: u64, restSize: u64, now: u64,
                         heap: Request, heap': Request, event: Event, event': Event)
    requires k.streamId == -1 && TagsOk(t) && k in t.pending && t.pending[k].protocol == Mongo && !t.pending[k].partial
    requires |mem| >= 4 && size != 4
    requires forall part, n: nat :: part in {mem, mem[..4], mem[4..]} ==>
      !c.isRabbitmqConsume(part, n) && c.natsMethod(part, n) != Consume
    ensures
      var whole := HandleRead(c, t, ts, k, mem, size, now, heap, event, true, true);
      var first := HandleRead(c, t, ts, k, mem[..4], 4, now, heap, event, true, true);
      var second := HandleRead(c, first.tables, ts, k, mem[4..], restSize, now, heap', event', true, true);
      && first.event.None? && second.tables == whole.tables
      && (second.event.Some? <==> whole.event.Some?)
      && (whole.event.Some? ==>
            && second.event.value.protocol == whole.event.value.protocol == Mongo
            && second.event.value.status == whole.event.value.status)
  {
    var first := HandleRead(c, t, ts, k, mem[..4], 4, now, heap, event, true, true);
    MongoPartsAgree(mem, size, restSize);
    ReadSettles(c, t, ts, k, mem, size, now, heap, event, true, true);
    ReadSettles(c, t, ts, k, mem[..4], 4, now, heap, event, true, true);
    ReadSettles(c, first.tables, ts, k, mem[4..], restSize, now, heap', event', true, true);
  }

  /** A MySQL packet with sequence number 0 is accepted exactly for the four commands. */
  lemma MysqlPacketIff(command: byte, body: seq<byte>, requestType: byte)
    requires 1 + |body| < TWO_24
    ensures
      var mem := M.Packet(command, body);
      IsMysqlQuery(mem, |mem|, requestType).0 <==> command in {3, 0x16, 0x17, 0x19}
  {
    M.LengthRoundTrip(1 + |body|);
    var mem := M.Packet(command, body);
    assert mem[0] == M.LE24(1 + |body|)[0] && mem[1] == M.LE24(1 + |body|)[1] && mem[2] == M.LE24(1 + |body|)[2];
  }

  /** An answer packet: length, sequence number, body. */
  function MysqlAnswer(sequence: byte, body: seq<byte>): seq<byte>
    requires 1 <= |body| < TWO_24
  {
    M.LE24(|body|) + [sequence] + body
  }

  /** The answer to a PREPARE carries the statement id behind its first byte; an answer says that the statement failed exactly
      when it is an error packet. */
  lemma MysqlAnswerIff(sequence: byte, first: byte, id: u32, rest: seq<byte>, requestType: byte)
    requires 5 + |rest| < TWO_24
    ensures
      IsMysqlResponse(MysqlAnswer(sequence, [first] + M.LE32(id) + rest), requestType)
        == if sequence == 0 || first !in {0x00, 0xfe, 0xff} then NoReply
           else Reply(if first == 0xff then 500 else 200, if first == 0x00 && requestType == MYSQL_PREPARE then id else 0)
  {
    var body := [first] + M.LE32(id) + rest;
    var mem := MysqlAnswer(sequence, body);
    M.LengthRoundTrip(|body|);
    var n := M.LE24(|body|);
    assert mem[0] == n[0] && mem[1] == n[1] && mem[2] == n[2] && mem[3] == sequence && mem[4] == first;
    assert mem[5..9] == M.LE32(id);
    M.LE32RoundTrip(id);
  }

  /** A message of the Postgres protocol. */
  function PostgresMessage(tag: byte, body: seq<byte>): seq<byte>
    requires 5 + |body| < 0x8000_0000
  {
    [tag] + BE32(4 + |body|) + body
  }

  /** One message alone is accepted when it is a simple query or a Close; anything is that ends with a Sync message within the
      first 1023 bytes. The tag becomes the request type in any case. */
  lemma PostgresMessageIff(tag: byte, body: seq<byte>, requestType: byte)
    requires 5 + |body| < 0x8000_0000
    ensures
      var mem := PostgresMessage(tag, body);
      var end := Min(|mem|, 1023);
      && IsPostgresQuery(mem, |mem|, requestType).1 == tag
      && (IsPostgresQuery(mem, |mem|, requestType).0
          <==> tag in {'Q' as int, 'C' as int} || mem[end - 5..end] == ['S' as int, 0, 0, 0, 4])
  {
    var mem := PostgresMessage(tag, body);
    assert mem[1..5] == BE32(4 + |body|) && mem[0] == tag;
    BE32RoundTrip(4 + |body|);
    LengthFits(4 + |body|);
  }

  lemma LengthFits(n: u32)
    requires n + 1 < 0x8000_0000
    ensures ToU64(Wrap32(S32(n) + 1)) == n + 1
  {
  }
}
