/** What a write is taken for, and what the answer to it has in common with it: correlation ids, stream ids, request types. */
module L7Pairs {
  import opened Bytes
  import opened Payload
  import opened Classifiers
  import opened L7
  import opened L7History
  import opened L7Provenance
  import opened L7Verdicts

  /** The order in which protocols may claim a write. */
  const ORDER := [Http, Postgres, Redis, Memcached, Mysql, Mongo, Rabbitmq, Nats, Cassandra, Kafka, Http2]

  predicate Claims(c: Classifiers, p: Protocol, mem: seq<byte>, size: nat) {
    match p
    case Unknown => false
    case Http => c.isHttpRequest(mem)
    case Postgres => IsPostgresQuery(mem, size, 0).0
    case Redis => c.isRedisQuery(mem, size)
    case Memcached => c.isMemcachedQuery(mem, size)
    case Mysql => IsMysqlQuery(mem, size, 0).0
    case Mongo => IsMongoQuery(mem, size)
    case Rabbitmq => c.isRabbitmqProduce(mem, size)
    case Nats => c.natsMethod(mem, size) == Produce
    case Cassandra => IsCassandraRequest(mem, size).Some?
    case Kafka => IsKafkaRequest(mem, size).Some?
    case Http2 => c.looksLikeHttp2Frame(mem, size, ClientFrames)
  }

  /** The `i`-th protocol is the first that claims the bytes. */
  predicate ClaimedBy(c: Classifiers, i: nat, mem: seq<byte>, size: nat) {
    i < |ORDER| && Claims(c, ORDER[i], mem, size) && forall j :: 0 <= j < i ==> !Claims(c, ORDER[j], mem, size)
  }

  function Rank(p: Protocol): nat {
    match p
    case Http => 0
    case Postgres => 1
    case Redis => 2
    case Memcached => 3
    case Mysql => 4
    case Mongo => 5
    case Rabbitmq => 6
    case Nats => 7
    case Cassandra => 8
    case Kafka => 9
    case Http2 => 10
    case Unknown => 11
  }

  /** Messages that get no answer are sent at once: closed statements, messages produced, HTTP/2 frames. */
  predicate AtOnce(p: Protocol, mem: seq<byte>) {
    match p
    case Postgres => mem != [] && mem[0] == POSTGRES_CLOSE
    case Mysql => |mem| >= 5 && (mem[4] == MYSQL_CLOSE || (mem[4] != MYSQL_PREPARE && mem[0] == MYSQL_CLOSE))
    case Rabbitmq => true
    case Nats => true
    case Http2 => true
    case _ => false
  }

  /** What the event of such a message calls it. */
  function OpOf(p: Protocol): Method {
    if p in {Postgres, Mysql} then StatementClose else if p == Http2 then ClientFrames else Produce
  }

  /** A write is taken for the first protocol that claims it, and waits for an answer unless it gets none; what is stored to
      recognise the answer comes out of its bytes. */
  lemma FirstClaimWins(c: Classifiers, mem: seq<byte>, size: nat, staleType: byte)
    ensures
      match ClassifyWrite(c, mem, size, staleType)
      case Ignored => forall i :: 0 <= i < |ORDER| ==> !Claims(c, ORDER[i], mem, size)
      case OneWay(p, op, carriesPayload) =>
        && ClaimedBy(c, Rank(p), mem, size) && ORDER[Rank(p)] == p && AtOnce(p, mem) && op == OpOf(p)
        && (carriesPayload <==> p !in {Rabbitmq, Nats})
      case Pending(p, streamId, requestType, requestId) =>
        && ClaimedBy(c, Rank(p), mem, size) && ORDER[Rank(p)] == p && !AtOnce(p, mem)
        && streamId == (if p == Cassandra then IsCassandraRequest(mem, size).value else -1)
        && (p == Kafka ==> IsKafkaRequest(mem, size) == Some(requestId))
        && (p == Postgres ==> |mem| >= 5 && requestType == mem[0])
  {
    if IsMysqlQuery(mem, size, IsPostgresQuery(mem, size, staleType).1).0 {
      MysqlRequestType(mem, size, staleType);
    }
  }

  /** What is stored for a write. */
  lemma StoredFor(c: Classifiers, t: Tables, ts: Timestamps, s: Step)
    requires s.Write? && Apply(c, t, ts, s).effect.Attempt?
    ensures
      var (mem, size) := BytesSeen(t, s);
      var o := Apply(c, t, ts, s);
      var k, r := o.effect.key, o.effect.request;
      && ClaimedBy(c, Rank(r.protocol), mem, size) && ORDER[Rank(r.protocol)] == r.protocol && !AtOnce(r.protocol, mem)
      && k.streamId == (if r.protocol == Cassandra then IsCassandraRequest(mem, size).value else -1)
      && (r.protocol == Kafka ==> IsKafkaRequest(mem, size) == Some(r.requestId))
      && (r.protocol == Postgres ==> |mem| >= 5 && r.requestType == mem[0])
  {
    var (mem, size) := BytesSeen(t, s);
    FirstClaimWins(c, mem, size, s.cpu.request.requestType);
  }

  lemma FirstIsUnique(c: Classifiers, i: nat, j: nat, mem: seq<byte>, size: nat)
    requires ClaimedBy(c, i, mem, size) && ClaimedBy(c, j, mem, size)
    ensures i == j
  {
  }

  /** A write that no protocol claims does nothing. */
  lemma UnclaimedWrite(c: Classifiers, t: Tables, ts: Timestamps, s: Step)
    requires s.Write?
    requires
      var (mem, size) := BytesSeen(t, s);
      size == 0 || forall i :: 0 <= i < |ORDER| ==> !Claims(c, ORDER[i], mem, size)
    ensures Apply(c, t, ts, s) == Outcome(t, None, Quiet)
  {
    var (mem, size) := BytesSeen(t, s);
    FirstClaimWins(c, mem, size, s.cpu.request.requestType);
  }

  /** Any other sends the event of a message without an answer, or asks to store the request, when the bytes that go along are
      readable. */
  lemma ClaimedWrite(c: Classifiers, t: Tables, ts: Timestamps, s: Step, i: nat)
    requires s.Write?
    requires var (mem, size) := BytesSeen(t, s); size != 0 && ClaimedBy(c, i, mem, size)
    ensures
      var (mem, size) := BytesSeen(t, s);
      var o, p, readable := Apply(c, t, ts, s), ORDER[i], Min(size, 1023) <= |mem|;
      && (o.event.Some? <==> AtOnce(p, mem) && (readable || p in {Rabbitmq, Nats}))
      && (o.effect.Attempt? <==> !AtOnce(p, mem) && readable)
      && (o.event.Some? ==> o.event.value.protocol == p && o.event.value.op == OpOf(p))
      && (o.effect.Attempt? ==> o.effect.request.protocol == p)
  {
    var (mem, size) := BytesSeen(t, s);
    FirstClaimWins(c, mem, size, s.cpu.request.requestType);
    var w := ClassifyWrite(c, mem, size, s.cpu.request.requestType);
    if !w.Ignored? {
      FirstIsUnique(c, i, Rank(w.protocol), mem, size);
    }
  }

  /** An answered write and its answer: the bytes written, the request stored for them, the bytes read. */
  lemma PairFacts(c: Classifiers, steps: seq<Timed>, i: nat, n: nat, m: nat)
    requires AnsweredLater(c, steps, i, n, m)
    ensures
      var (written, size) := BytesSeen(Before(c, steps, n).tables, steps[n].step);
      var (read, count) := BytesSeen(Before(c, steps, m).tables, steps[m].step);
      var e, k, r := Run(c, steps).emitted[i].event, OutcomeOf(c, steps, n).effect.key, OutcomeOf(c, steps, n).effect.request;
      && e.protocol == r.protocol && ClaimedBy(c, Rank(r.protocol), written, size) && ORDER[Rank(r.protocol)] == r.protocol
      && k.streamId == (if r.protocol == Cassandra then IsCassandraRequest(written, size).value else -1)
      && (r.protocol == Kafka ==> IsKafkaRequest(written, size) == Some(r.requestId))
      && (r.protocol == Postgres ==> |written| >= 5 && r.requestType == written[0])
      && (r.protocol == Mongo ==> e.op == NoMethod)
      && (r.protocol != Mongo ==> e.op == MethodOf(r) && Replies(c, r, k.streamId, read, count, e.status, e.statementId))
  {
    AnsweredIsStored(c, steps, i, n, m);
    StepEffect(c, steps, m);
    SendingStepSaw(c, steps, m);
    StoredFor(c, Before(c, steps, n).tables, steps[n].ts, steps[n].step);
  }

  lemma LastDigit(x: nat, a: byte, y: nat, b: byte)
    requires x * 256 + a == y * 256 + b
    ensures x == y && a == b
  {
  }

  lemma U32BEInjective(a: seq<byte>, b: seq<byte>)
    requires |a| == |b| == 4 && U32BE(a) == U32BE(b)
    ensures a == b
  {
    var x: nat, y: nat := a[0] as int * 256 + a[1], b[0] as int * 256 + b[1];
    assert TWO_24 == 256 * 65536;
    assert U32BE(a) == (x * 256 + a[2]) * 256 + a[3] && U32BE(b) == (y * 256 + b[2]) * 256 + b[3];
    LastDigit(x * 256 + a[2], a[3], y * 256 + b[2], b[3]);
    LastDigit(x, a[2], y, b[2]);
    LastDigit(a[0], a[1], b[0], b[1]);
  }

  lemma U16LEInjective(a: seq<byte>, b: seq<byte>)
    requires |a| == |b| == 2 && S16(U16LE(a)) == S16(U16LE(b))
    ensures a == b
  {
  }

  /** Over every run: the answer a Kafka event was sent for has the correlation id of the request written. */
  lemma KafkaPairs(c: Classifiers, steps: seq<Timed>, i: nat, n: nat, m: nat)
    requires AnsweredLater(c, steps, i, n, m) && Run(c, steps).emitted[i].event.protocol == Kafka
    ensures
      var (written, _) := BytesSeen(Before(c, steps, n).tables, steps[n].step);
      var (read, _) := BytesSeen(Before(c, steps, m).tables, steps[m].step);
      |written| >= 12 && |read| >= 8 && read[4..8] == written[8..12] && S32(U32BE(written[8..12])) > 0
  {
    PairFacts(c, steps, i, n, m);
    var (written, size) := BytesSeen(Before(c, steps, n).tables, steps[n].step);
    var (read, count) := BytesSeen(Before(c, steps, m).tables, steps[m].step);
    U32BEInjective(read[4..8], written[8..12]);
  }

  /** Over every run: a Cassandra event was sent for an answer with the stream id of the request written, and has its status. */
  lemma CassandraPairs(c: Classifiers, steps: seq<Timed>, i: nat, n: nat, m: nat)
    requires AnsweredLater(c, steps, i, n, m) && Run(c, steps).emitted[i].event.protocol == Cassandra
    ensures
      var (written, _) := BytesSeen(Before(c, steps, n).tables, steps[n].step);
      var (read, _) := BytesSeen(Before(c, steps, m).tables, steps[m].step);
      var e := Run(c, steps).emitted[i].event;
      && |written| >= 6 && |read| >= 6 && written[0] == 4 && read[0] == 0x84 && read[2..4] == written[2..4]
      && read[4] in {0x00, 0x08} && e.status == if read[4] == 0x08 then 200 else 500
  {
    PairFacts(c, steps, i, n, m);
    var (written, size) := BytesSeen(Before(c, steps, n).tables, steps[n].step);
    var (read, count) := BytesSeen(Before(c, steps, m).tables, steps[m].step);
    U16LEInjective(read[2..4], written[2..4]);
  }

  /** Over every run: a MySQL event says that the statement failed exactly for an error packet; a packet of length 1 is none. */
  lemma MysqlStatus(c: Classifiers, steps: seq<Timed>, i: nat, n: nat, m: nat)
    requires AnsweredLater(c, steps, i, n, m) && Run(c, steps).emitted[i].event.protocol == Mysql
    ensures
      var (read, _) := BytesSeen(Before(c, steps, m).tables, steps[m].step);
      var e := Run(c, steps).emitted[i].event;
      && |read| >= 5 && read[3] >= 1
      && e.status == if read[4] == 0xff && U24LE(read) != 1 then 500 else 200
  {
    PairFacts(c, steps, i, n, m);
  }

  /** Over every run: a Postgres event is marked as a prepared statement exactly when a Parse was written; the events of the
      protocols without statements carry no method. */
  lemma PostgresPrepareEvents(c: Classifiers, steps: seq<Timed>, i: nat, n: nat, m: nat)
    requires AnsweredLater(c, steps, i, n, m)
    ensures
      var (written, _) := BytesSeen(Before(c, steps, n).tables, steps[n].step);
      var e := Run(c, steps).emitted[i].event;
      && (e.protocol == Postgres ==>
            |written| >= 5 && e.op == if written[0] == 'P' as int then StatementPrepare else NoMethod)
      && (e.protocol !in {Postgres, Mysql} ==> e.op == NoMethod)
  {
    PairFacts(c, steps, i, n, m);
  }
}
