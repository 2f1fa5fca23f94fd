/** The request/response correlation of `l7.c`: one function for each handler, from table contents to table contents. */
module L7 {
  import opened Bytes
  import opened Payload
  import opened Classifiers

  /** A `pid_tgid` word, or a read id made from one; the upper half of a `pid_tgid` word is the pid. */
  datatype Id = Id(bits: bv64)

  type Pid = bv64

  function PidOf(pidTgid: Id): Pid {
    pidTgid.bits >> 32
  }

  /** `struct sk_info` as the key of `connection_timestamps`. */
  datatype PidFd = PidFd(pid: Pid, fd: u64)

  datatype ReadArgs = ReadArgs(fd: u64, buf: u64, ret: u64, iovlen: u64)

  datatype Key = Key(fd: u64, pid: Pid, isTls: bool, streamId: int)

  datatype Request = Request(ns: u64, protocol: Protocol, partial: bool, requestType: byte, requestId: int,
                             payloadSize: u64, payload: Block)

  datatype Event = Event(fd: u64, connectionTimestamp: u64, pid: Pid, status: u32, duration: u64, protocol: Protocol,
                         op: Method, statementId: u32, payloadSize: u64, payload: Block)

  type Timestamps = map<PidFd, u64>

  function GetConnectionTimestamp(ts: Timestamps, pid: Pid, fd: u64): u64 {
    if PidFd(pid, fd) in ts then ts[PidFd(pid, fd)] else 0
  }

  /** The user buffer a handler looks at: memory readable at the buffer, or the readable part of an iovec array. */
  datatype Source = Source(mem: seq<byte>, iovs: seq<Iovec>)

  /** What earlier handlers left in the per-CPU entries. */
  datatype Scratch = Scratch(request: Request, event: Event, iovecBuf: IovecBuf)

  /** The two tables the handlers own. */
  datatype Tables = Tables(activeReads: map<Id, ReadArgs>, pending: map<Key, Request>)

  /** What a handler did to the pending table. */
  datatype Effect =
    | Quiet
    | Attempt(key: Key, request: Request)                     // a store that succeeds only when the key is free
    | Matched(key: Key, at: u64)                              // the request was removed and its event emitted
    | Dropped(key: Key)                                       // the request was removed without an event
    | Split(key: Key)                                         // the request was put back as partial
    | Shrunk(key: Key)                                        // the request stayed, its size cut in place
    | Evicted(keys: set<Key>)

  datatype Outcome = Outcome(tables: Tables, event: Option<Event>, effect: Effect)

  /** The bytes and the size the classifiers see, after a gather when there are iovecs. */
  function Resolve(src: Source, size: u64, iovlen: u64, ret: u64, buf: IovecBuf): (seq<byte>, u64) {
    if iovlen != 0 then
      var g := Gather(src.iovs, iovlen, ret, buf);
      (g.buf, g.size)
    else (src.mem, size)
  }

  /** How the classifier chain of `trace_enter_write` sorts an outgoing buffer. */
  datatype WriteClass =
    | Ignored
    | OneWay(protocol: Protocol, op: Method, carriesPayload: bool)
    | Pending(protocol: Protocol, streamId: int, requestType: byte, requestId: int)

  function ClassifyWrite(c: Classifiers, mem: seq<byte>, size: nat, staleType: byte): WriteClass {
    var (postgres, type1) := IsPostgresQuery(mem, size, staleType);
    var (mysql, type2) := IsMysqlQuery(mem, size, type1);
    if c.isHttpRequest(mem) then Pending(Http, -1, staleType, 0)
    else if postgres then
      if type1 == POSTGRES_CLOSE then OneWay(Postgres, StatementClose, true) else Pending(Postgres, -1, type1, 0)
    else if c.isRedisQuery(mem, size) then Pending(Redis, -1, type1, 0)
    else if c.isMemcachedQuery(mem, size) then Pending(Memcached, -1, type1, 0)
    else if mysql then
      if type2 == MYSQL_CLOSE then OneWay(Mysql, StatementClose, true) else Pending(Mysql, -1, type2, 0)
    else if IsMongoQuery(mem, size) then Pending(Mongo, -1, type2, 0)
    else if c.isRabbitmqProduce(mem, size) then OneWay(Rabbitmq, Produce, false)
    else if c.natsMethod(mem, size) == Produce then OneWay(Nats, Produce, false)
    else if IsCassandraRequest(mem, size).Some? then
      Pending(Cassandra, IsCassandraRequest(mem, size).value, type2, 0)
    else if IsKafkaRequest(mem, size).Some? then Pending(Kafka, -1, type2, IsKafkaRequest(mem, size).value)
    else if c.looksLikeHttp2Frame(mem, size, ClientFrames) then OneWay(Http2, ClientFrames, true)
    else Ignored
  }

  /** The store time: Kafka takes over the time of the Kafka request already waiting under its key. */
  function StoreTime(carry: bool, pending: map<Key, Request>, k: Key, protocol: Protocol, now: u64): u64 {
    if carry && protocol == Kafka && k in pending && pending[k].protocol == Kafka && pending[k].ns != 0 then
      pending[k].ns
    else now
  }

  /** `trace_enter_write`. With `carry` false it is the same handler without the Kafka carry-over branch. */
  function EnterWrite(c: Classifiers, t: Tables, ts: Timestamps, pidTgid: Id, fd: u64, isTls: bool, src: Source,
                      size0: u64, iovlen: u64, now: u64, cpu: Scratch, carry: bool := true): Outcome
  {
    var (mem, size) := Resolve(src, size0, iovlen, 0, cpu.iovecBuf);
    if size == 0 then Outcome(t, None, Quiet)
    else
      match ClassifyWrite(c, mem, size, cpu.request.requestType)
      case Ignored => Outcome(t, None, Quiet)
      case OneWay(protocol, op, carriesPayload) =>
        var pid := PidOf(pidTgid);
        var e := cpu.event.(protocol := protocol, fd := fd, pid := pid, op := op,
                            connectionTimestamp := GetConnectionTimestamp(ts, pid, fd));
        var e := if protocol == Http2 then e.(duration := now) else e;
        if carriesPayload then
          match CopyPayload(e.payload, size, mem)
          case None => Outcome(t, None, Quiet)
          case Some(payload) => Outcome(t, Some(e.(payloadSize := size, payload := payload)), Quiet)
        else Outcome(t, Some(e), Quiet)
      case Pending(protocol, streamId, requestType, requestId) =>
        var k := Key(fd, PidOf(pidTgid), isTls, streamId);
        match CopyPayload(cpu.request.payload, size, mem)
        case None => Outcome(t, None, Quiet)
        case Some(payload) =>
          var ns := StoreTime(carry, t.pending, k, protocol, now);
          var r := Request(ns, protocol, false, requestType, requestId, size, payload);
          Outcome(if k in t.pending then t else t.(pending := t.pending[k := r]), None, Attempt(k, r))
  }

  /** `trace_enter_read`; `room` is false when the update of the full table fails. */
  function EnterRead(t: Tables, id: Id, args: ReadArgs, room: bool): Tables {
    if room then t.(activeReads := t.activeReads[id := args]) else t
  }

  /** What a returned read brings: the return value, the value stored where the read was told to, the data. */
  datatype Returned = Returned(ret: s64, retValue: Option<s64>, src: Source)

  /** The number of bytes read, if positive. */
  function BytesRead(args: ReadArgs, r: Returned): Option<u64> {
    if r.ret <= 0 then None
    else if args.ret == 0 then Some(r.ret)
    else
      match r.retValue
      case None => None
      case Some(v) => if v <= 0 then None else Some(v)
  }

  /** The protocol chain that decides whether a read answers `req`; `response` is the verdict when no protocol applies. */
  function Respond(c: Classifiers, req: Request, mem: seq<byte>, size: nat, response: Reply): Reply {
    match req.protocol
    case Http => Verdict(c.isHttpResponse(mem))
    case Postgres => Verdict(c.isPostgresResponse(mem, size))
    case Redis => Verdict(c.isRedisResponse(mem, size))
    case Memcached => Verdict(c.isMemcachedResponse(mem, size))
    case Mysql => IsMysqlResponse(mem, req.requestType)
    case Mongo => IsMongoResponse(mem, size, req.partial)
    case Kafka => IsKafkaResponse(mem, req.requestId)
    case _ => response
  }

  function MethodOf(req: Request): Method {
    if req.protocol == Postgres && req.requestType == POSTGRES_PARSE then StatementPrepare
    else if req.protocol == Mysql && req.requestType == MYSQL_PREPARE then StatementPrepare
    else NoMethod
  }

  /** The end of `trace_exit_read`: request `k` is found and copied, then answered, put back as partial or dropped.
      `copies` and `recopies` say whether the probe reads of the stored payload succeed; `heap` is the per-CPU request entry. */
  function Answer(c: Classifiers, t: Tables, ts: Timestamps, k: Key, mem: seq<byte>, size: nat, response: Reply,
                  now: u64, e: Event, heap: Request, copies: bool, recopies: bool): Outcome
    requires k in t.pending
  {
    var req := t.pending[k];
    var cut := Truncate(req.payloadSize);
    if !copies then
      Outcome(t.(pending := t.pending[k := req.(payloadSize := cut)]), None, Shrunk(k))
    else
      var e := e.(protocol := req.protocol, payloadSize := req.payloadSize, op := MethodOf(req),
                  payload := req.payload[..cut] + e.payload[cut..]);
      var rest := t.(pending := t.pending - {k});
      match Respond(c, req, mem, size, response)
      case Partial =>
        if !recopies then Outcome(rest, None, Dropped(k))
        else
          var r := heap.(partial := true, protocol := req.protocol, ns := req.ns, payloadSize := cut,
                                payload := req.payload[..cut] + heap.payload[cut..]);
          Outcome(t.(pending := t.pending[k := r]), None, Split(k))
      case NoReply => Outcome(rest, None, Dropped(k))
      case Reply(status, statementId) =>
        Outcome(rest, Some(Finish(e.(status := status, statementId := statementId), ts, req, now)), Matched(k, now))
  }

  function Finish(e: Event, ts: Timestamps, req: Request, now: u64): Event {
    e.(duration := Sub64(now, req.ns), connectionTimestamp := GetConnectionTimestamp(ts, e.pid, e.fd))
  }

  /** `trace_exit_read`. */
  function ExitRead(c: Classifiers, t: Tables, ts: Timestamps, id: Id, pidTgid: Id, isTls: bool, r: Returned,
                    now: u64, cpu: Scratch, copies: bool, recopies: bool): Outcome
  {
    if id !in t.activeReads then Outcome(t, None, Quiet)
    else
      var args := t.activeReads[id];
      var t := t.(activeReads := t.activeReads - {id});
      match BytesRead(args, r)
      case None => Outcome(t, None, Quiet)
      case Some(n) =>
        var (mem, size) := Resolve(r.src, n, args.iovlen, n, cpu.iovecBuf);
        if size == 0 then Outcome(t, None, Quiet)
        else HandleRead(c, t, ts, Key(args.fd, PidOf(pidTgid), isTls, -1), mem, size, now, cpu.request, cpu.event, copies,
                        recopies)
  }

  /** The rest of `trace_exit_read`, once the bytes are known. */
  function HandleRead(c: Classifiers, t: Tables, ts: Timestamps, k: Key, mem: seq<byte>, size: u64,
                      now: u64, heap: Request, event: Event, copies: bool, recopies: bool): Outcome
  {
    var stamp := GetConnectionTimestamp(ts, k.pid, k.fd);
    var e := event.(fd := k.fd, pid := k.pid, protocol := Unknown, connectionTimestamp := 0,
                        status := STATUS_UNKNOWN, op := NoMethod, statementId := 0, payloadSize := 0);
    if c.isRabbitmqConsume(mem, size) then
      Outcome(t, Some(e.(protocol := Rabbitmq, op := Consume, connectionTimestamp := stamp)), Quiet)
    else if c.natsMethod(mem, size) == Consume then
      Outcome(t, Some(e.(protocol := Nats, op := Consume, connectionTimestamp := stamp)), Quiet)
    else if k in t.pending then
      Answer(c, t, ts, k, mem, size, NoReply, now, e, heap, copies, recopies)
    else
      match IsCassandraResponse(mem, size)
      case Some((streamId, status)) =>
        var k' := k.(streamId := streamId);
        if k' !in t.pending then Outcome(t, None, Quiet)
        else Answer(c, t, ts, k', mem, size, Reply(status, 0), now, e.(status := status), heap, copies, recopies)
      case None =>
        if c.looksLikeHttp2Frame(mem, size, ServerFrames) then
          match CopyPayload(e.payload, size, mem)
          case None => Outcome(t, None, Quiet)
          case Some(payload) =>
            var e := e.(protocol := Http2, op := ServerFrames, duration := now, connectionTimestamp := stamp,
                        payloadSize := size, payload := payload);
            Outcome(t, Some(e), Quiet)
        else Outcome(t, None, Quiet)
  }

  /** The LRU table may lose entries at any time. */
  function Evict(t: Tables, keys: set<Key>): Outcome {
    Outcome(t.(pending := t.pending - keys), None, Evicted(keys))
  }

  /** One atomic step on the tables, with every input the handler takes from outside. */
  datatype Step =
    | Write(pidTgid: Id, fd: u64, isTls: bool, src: Source, size: u64, iovlen: u64, now: u64, cpu: Scratch)
    | ReadEnter(id: Id, args: ReadArgs, room: bool)
    | ReadExit(id: Id, pidTgid: Id, isTls: bool, r: Returned, now: u64, cpu: Scratch, copies: bool, recopies: bool)
    | Evicts(keys: set<Key>)

  function Apply(c: Classifiers, t: Tables, ts: Timestamps, s: Step, carry: bool := true): Outcome {
    match s
    case Write(pidTgid, fd, isTls, src, size, iovlen, now, cpu) =>
      EnterWrite(c, t, ts, pidTgid, fd, isTls, src, size, iovlen, now, cpu, carry)
    case ReadEnter(id, args, room) => Outcome(EnterRead(t, id, args, room), None, Quiet)
    case ReadExit(id, pidTgid, isTls, r, now, cpu, copies, recopies) =>
      ExitRead(c, t, ts, id, pidTgid, isTls, r, now, cpu, copies, recopies)
    case Evicts(keys) => Evict(t, keys)
  }
}
