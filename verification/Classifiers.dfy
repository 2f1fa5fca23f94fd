/** The protocol classifiers of the tracer: branch-only predicates over a buffer and its claimed size.
    `mem` is what a probe read can reach from the start of the buffer on; a read past it fails and the classifier returns 0. */
module Classifiers {
  import opened Bytes

  datatype Protocol =
    | Unknown | Http | Postgres | Redis | Memcached | Mysql | Mongo | Kafka | Cassandra | Rabbitmq | Nats | Http2

  datatype Method = NoMethod | Produce | Consume | StatementPrepare | StatementClose | ClientFrames | ServerFrames

  const STATUS_UNKNOWN := 0
  const STATUS_OK := 200
  const STATUS_FAILED := 500

  const POSTGRES_QUERY: byte := 'Q' as int
  const POSTGRES_PARSE: byte := 'P' as int
  const POSTGRES_CLOSE: byte := 'C' as int

  const MYSQL_QUERY: byte := 3
  const MYSQL_PREPARE: byte := 0x16
  const MYSQL_EXECUTE: byte := 0x17
  const MYSQL_CLOSE: byte := 0x19

  /** What a response classifier decides; `statementId` stays 0 except for a MySQL prepare. */
  datatype Reply = NoReply | Partial | Reply(status: u32, statementId: u32)

  /** The classifiers whose byte tests are not modelled: any deterministic function of what they
      can read. A response classifier gives the status when it recognises an answer. */
  datatype Classifiers = Classifiers(
    isHttpRequest: seq<byte> -> bool,
    isHttpResponse: seq<byte> -> Option<u32>,
    isPostgresResponse: (seq<byte>, nat) -> Option<u32>,
    isRedisQuery: (seq<byte>, nat) -> bool,
    isRedisResponse: (seq<byte>, nat) -> Option<u32>,
    isMemcachedQuery: (seq<byte>, nat) -> bool,
    isMemcachedResponse: (seq<byte>, nat) -> Option<u32>,
    isRabbitmqProduce: (seq<byte>, nat) -> bool,
    isRabbitmqConsume: (seq<byte>, nat) -> bool,
    natsMethod: (seq<byte>, nat) -> Method,
    looksLikeHttp2Frame: (seq<byte>, nat, Method) -> bool)

  function Verdict(status: Option<u32>): Reply {
    if status.Some? then Reply(status.value, 0) else NoReply
  }

  /** `is_postgres_query`; the request type is overwritten as soon as the header was read, match or not. */
  function IsPostgresQuery(mem: seq<byte>, size: nat, requestType: byte): (bool, byte) {
    if size < 5 || |mem| < 5 then (false, requestType)
    else
      var command := mem[0];
      var length := S32(U32BE(mem[1..5]));
      if (command == POSTGRES_QUERY || command == POSTGRES_CLOSE) && ToU64(Wrap32(length + 1)) == size then
        (true, command)
      else
        match Probe(mem, Min(size, 1023) - 5, 5)
        case None => (false, command)
        case Some(sync) => (sync == ['S' as int, 0, 0, 0, 4], command)
  }

  /** `is_mysql_query`; query and execute leave the request type as they found it. */
  function IsMysqlQuery(mem: seq<byte>, size: nat, requestType: byte): (bool, byte) {
    if size < 5 || |mem| < 5 then (false, requestType)
    else if U24LE(mem) + 4 != size || mem[3] != 0 then (false, requestType)
    else if mem[4] == MYSQL_QUERY || mem[4] == MYSQL_EXECUTE then (true, requestType)
    else if mem[4] == MYSQL_CLOSE then (true, MYSQL_CLOSE)
    else if mem[4] == MYSQL_PREPARE then (true, MYSQL_PREPARE)
    else (false, requestType)
  }

  /** `is_mysql_response`; it does not look at the size of the read. */
  function IsMysqlResponse(mem: seq<byte>, requestType: byte): Reply {
    if |mem| < 5 || mem[3] < 1 then NoReply
    else if U24LE(mem) == 1 || mem[4] == 0xfe then Reply(STATUS_OK, 0)
    else if mem[4] == 0 then
      if requestType == MYSQL_PREPARE then
        match Probe(mem, 5, 4)
        case None => NoReply
        case Some(id) => Reply(STATUS_OK, U32LE(id))
      else Reply(STATUS_OK, 0)
    else if mem[4] == 0xff then Reply(STATUS_FAILED, 0)
    else NoReply
  }

  const MONGO_OP_COMPRESSED := 2012
  const MONGO_OP_MSG := 2013

  predicate IsMongoQuery(mem: seq<byte>, size: nat) {
    && size >= 16 && |mem| >= 16
    && U32LE(mem[8..12]) == 0
    && U32LE(mem[12..16]) in {MONGO_OP_COMPRESSED, MONGO_OP_MSG}
  }

  /** `is_mongo_response`: a first read of exactly 4 bytes is only the length prefix of a reply read in two parts. */
  function IsMongoResponse(mem: seq<byte>, size: nat, partial: bool): Reply {
    if !partial && size == 4 then Partial
    else
      var at := if partial then 4 else 8;
      if |mem| < at + 8 then NoReply
      else if U32LE(mem[at..at + 4]) == 0 then NoReply
      else if U32LE(mem[at + 4..at + 8]) in {MONGO_OP_COMPRESSED, MONGO_OP_MSG} then Reply(STATUS_UNKNOWN, 0)
      else NoReply
  }

  /** `is_kafka_request`, with the correlation id of the request when it is one. */
  function IsKafkaRequest(mem: seq<byte>, size: nat): (r: Option<int>)
    ensures r.Some? ==> 0 < r.value < 0x8000_0000
  {
    if size < 12 || |mem| < 12 then None
    else if ToU64(Wrap32(S32(U32BE(mem[..4])) + 4)) != size then None
    else
      var apiKey := S16(U16BE(mem[4..6]));
      var correlation := S32(U32BE(mem[8..12]));
      if correlation > 0 && 0 <= apiKey <= 67 then Some(correlation) else None
  }

  function IsKafkaResponse(mem: seq<byte>, requestId: int): Reply {
    if |mem| >= 8 && S32(U32BE(mem[4..8])) == requestId then Reply(STATUS_UNKNOWN, 0) else NoReply
  }

  /** `is_cassandra_request`, with the stream id of the frame when it is one. */
  function IsCassandraRequest(mem: seq<byte>, size: nat): Option<int> {
    if size < 6 || |mem| < 6 || mem[0] != 4 then None
    else if mem[4] in {0x07, 0x0A, 0x0D} then Some(S16(U16LE(mem[2..4])))
    else None
  }

  /** `is_cassandra_response`, with the stream id and the status. */
  function IsCassandraResponse(mem: seq<byte>, size: nat): Option<(int, u32)> {
    if size < 6 || |mem| < 6 || mem[0] != 0x84 then None
    else if mem[4] == 0x08 then Some((S16(U16LE(mem[2..4])), STATUS_OK))
    else if mem[4] == 0x00 then Some((S16(U16LE(mem[2..4])), STATUS_FAILED))
    else None
  }
}
