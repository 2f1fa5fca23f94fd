/** The handlers of `l7.c` as they run: tables updated in place, per-CPU entries filled field by field. */
module L7Tracer {
  import opened Bytes
  import opened Payload
  import opened Classifiers
  import opened L7

  /** The `connection_timestamps` map, filled by the TCP handlers and read by these. */
  class ConnectionTimestamps {
    var entries: Timestamps

    constructor ()
      ensures entries == map[]
    {
      entries := map[];
    }
  }

  /** The per-CPU scratch entries; whatever an earlier handler left in them is still there. */
  class PerCpu {
    var request: Request
    var event: Event
    const iovecBuf: array<byte>

    constructor (request: Request, event: Event)
      ensures this.request == request && this.event == event && iovecBuf.Length == IOVEC_BUF_SIZE && fresh(iovecBuf)
    {
      this.request := request;
      this.event := event;
      iovecBuf := new byte[IOVEC_BUF_SIZE](_ => 0);
    }

    ghost function Contents(): Scratch
      requires iovecBuf.Length == IOVEC_BUF_SIZE
      reads this, iovecBuf
    {
      Scratch(request, event, iovecBuf[..])
    }
  }

  ghost function RemoveThenStore(m: map<Key, Request>, k: Key, r: Request): map<Key, Request> {
    (m - {k})[k := r]
  }

  lemma CutThenRemove(m: map<Key, Request>, k: Key, cut: Request)
    requires k in m
    ensures m[k := cut] - {k} == m - {k}
    ensures forall r :: RemoveThenStore(m, k, r) == m[k := r]
  {
  }

  class Tracer {
    const c: Classifiers
    const timestamps: ConnectionTimestamps
    var activeReads: map<Id, ReadArgs>
    var pending: map<Key, Request>

    constructor (c: Classifiers, timestamps: ConnectionTimestamps)
      ensures this.c == c && this.timestamps == timestamps && View() == Tables(map[], map[])
    {
      this.c := c;
      this.timestamps := timestamps;
      activeReads := map[];
      pending := map[];
    }

    ghost function View(): Tables
      reads this
    {
      Tables(activeReads, pending)
    }

    /** Point `mem` at the user buffer, or at the scratch buffer after gathering the iovecs into it. */
    method ReadSource(src: Source, size: u64, iovlen: u64, ret: u64, cpu: PerCpu) returns (mem: seq<byte>, n: u64)
      requires cpu.iovecBuf.Length == IOVEC_BUF_SIZE
      modifies cpu.iovecBuf
      ensures (mem, n) == Resolve(src, size, iovlen, ret, old(cpu.iovecBuf[..]))
    {
      mem, n := src.mem, size;
      if iovlen != 0 {
        n := ReadIovec(src.iovs, iovlen, ret, cpu.iovecBuf);
        mem := cpu.iovecBuf[..];
      }
    }

    /** The one-way events of `trace_enter_write`. */
    method EmitOneWay(pidTgid: Id, fd: u64, protocol: Protocol, op: Method, carriesPayload: bool, mem: seq<byte>, size: u64,
                      now: u64, cpu: PerCpu) returns (out: Option<Event>)
      modifies cpu`event
      ensures
        var pid := PidOf(pidTgid);
        var e := old(cpu.event).(protocol := protocol, fd := fd, pid := pid, op := op,
                                 connectionTimestamp := GetConnectionTimestamp(timestamps.entries, pid, fd));
        var e := if protocol == Http2 then e.(duration := now) else e;
        out == if !carriesPayload then Some(e)
               else match CopyPayload(e.payload, size, mem)
                    case None => None
                    case Some(payload) => Some(e.(payloadSize := size, payload := payload))
    {
      cpu.event := cpu.event.(protocol := protocol, fd := fd, pid := PidOf(pidTgid), op := op);
      if protocol == Http2 {
        cpu.event := cpu.event.(duration := now);
      }
      cpu.event := cpu.event.(connectionTimestamp := GetConnectionTimestamp(timestamps.entries, cpu.event.pid, fd));
      if carriesPayload {
        cpu.event := cpu.event.(payloadSize := size);
        var payload := CopyPayload(cpu.event.payload, size, mem);
        if payload.None? {
          return None;
        }
        cpu.event := cpu.event.(payload := payload.value);
      }
      return Some(cpu.event);
    }

    method TraceEnterWrite(pidTgid: Id, fd: u64, isTls: bool, src: Source, size: u64, iovlen: u64, now: u64, cpu: PerCpu)
      returns (out: Option<Event>)
      requires cpu.iovecBuf.Length == IOVEC_BUF_SIZE
      modifies this`pending, cpu, cpu.iovecBuf
      ensures
        var o := EnterWrite(c, old(View()), old(timestamps.entries), pidTgid, fd, isTls, src, size, iovlen, now,
                            old(cpu.Contents()));
        View() == o.tables && out == o.event
    {
      var mem, n := ReadSource(src, size, iovlen, 0, cpu);
      if n == 0 {
        return None;
      }
      cpu.request := cpu.request.(protocol := Unknown, partial := false, requestId := 0, ns := 0, payloadSize := n);
      match ClassifyWrite(c, mem, n, cpu.request.requestType)
      case Ignored => return None;
      case OneWay(protocol, op, carriesPayload) =>
        out := EmitOneWay(pidTgid, fd, protocol, op, carriesPayload, mem, n, now, cpu);
      case Pending(protocol, streamId, requestType, requestId) =>
        var k := Key(fd, PidOf(pidTgid), isTls, streamId);
        cpu.request := cpu.request.(protocol := protocol, requestType := requestType, requestId := requestId);
        if protocol == Kafka && k in pending && pending[k].protocol == Kafka {
          cpu.request := cpu.request.(ns := pending[k].ns);
        }
        if cpu.request.ns == 0 {
          cpu.request := cpu.request.(ns := now);
        }
        var payload := CopyPayload(cpu.request.payload, n, mem);
        if payload.None? {
          return None;
        }
        cpu.request := cpu.request.(payload := payload.value);
        if k !in pending {
          pending := pending[k := cpu.request];
        }
        return None;
    }

    method TraceEnterRead(id: Id, fd: u64, buf: u64, ret: u64, iovlen: u64, room: bool)
      modifies this`activeReads
      ensures View() == EnterRead(old(View()), id, ReadArgs(fd, buf, ret, iovlen), room)
    {
      if room {
        activeReads := activeReads[id := ReadArgs(fd, buf, ret, iovlen)];
      }
    }

    /** From the lookup of the request on: copy it, remove it, decide, put it back or send the event. */
    method AnswerRequest(k: Key, mem: seq<byte>, size: u64, response: Reply, now: u64, cpu: PerCpu, copies: bool, recopies: bool)
      returns (out: Option<Event>)
      requires k in pending
      modifies this`pending, cpu
      ensures
        var o := Answer(c, old(View()), timestamps.entries, k, mem, size, response, now, old(cpu.event),
                        old(cpu.request), copies, recopies);
        View() == o.tables && out == o.event
    {
      var req := pending[k];
      cpu.event := cpu.event.(protocol := req.protocol, payloadSize := req.payloadSize);
      req := req.(payloadSize := Truncate(req.payloadSize));
      pending := pending[k := req];
      if !copies {
        return None;
      }
      cpu.event := cpu.event.(payload := req.payload[..req.payloadSize] + cpu.event.payload[req.payloadSize..]);
      pending := pending - {k};
      CutThenRemove(old(pending), k, req);
      var verdict := Respond(c, req, mem, size, response);
      assert verdict == Respond(c, old(pending)[k], mem, size, response);
      cpu.event := cpu.event.(op := MethodOf(req));
      if verdict == Partial {
        PutBack(k, req, cpu, recopies);
        assert recopies ==> pending == RemoveThenStore(old(pending), k, pending[k]);
        return None;
      }
      if verdict == NoReply {
        return None;
      }
      cpu.event := cpu.event.(status := verdict.status, statementId := verdict.statementId);
      out := Send(req, now, cpu);
    }

    /** A partial answer: the request goes back into the table, marked. */
    method PutBack(k: Key, req: Request, cpu: PerCpu, recopies: bool)
      requires req.payloadSize <= 1023
      modifies this`pending, cpu`request
      ensures
        var r := old(cpu.request).(partial := true, protocol := req.protocol, ns := req.ns, payloadSize := req.payloadSize,
                                   payload := req.payload[..req.payloadSize] + old(cpu.request).payload[req.payloadSize..]);
        pending == if recopies then old(pending)[k := r] else old(pending)
    {
      cpu.request := cpu.request.(partial := true, protocol := req.protocol, ns := req.ns, payloadSize := req.payloadSize);
      if !recopies {
        return;
      }
      cpu.request := cpu.request.(payload := req.payload[..req.payloadSize] + cpu.request.payload[req.payloadSize..]);
      pending := pending[k := cpu.request];
    }

    /** A complete answer: the event is finished and sent. */
    method Send(req: Request, now: u64, cpu: PerCpu) returns (out: Option<Event>)
      modifies cpu`event
      ensures out == Some(Finish(old(cpu.event), timestamps.entries, req, now))
    {
      cpu.event := cpu.event.(duration := Sub64(now, req.ns));
      cpu.event := cpu.event.(connectionTimestamp := GetConnectionTimestamp(timestamps.entries, cpu.event.pid, cpu.event.fd));
      return Some(cpu.event);
    }

    /** From the classification of the bytes read on. */
    method TraceBytesRead(k0: Key, mem: seq<byte>, size: u64, now: u64, cpu: PerCpu, copies: bool, recopies: bool)
      returns (out: Option<Event>)
      modifies this`pending, cpu
      ensures
        var o := HandleRead(c, old(View()), timestamps.entries, k0, mem, size, now, old(cpu.request), old(cpu.event),
                            copies, recopies);
        View() == o.tables && out == o.event
    {
      var k := k0;
      cpu.event := cpu.event.(fd := k.fd, pid := k.pid, protocol := Unknown, connectionTimestamp := 0, status := STATUS_UNKNOWN,
                              op := NoMethod, statementId := 0, payloadSize := 0);
      var stamp := GetConnectionTimestamp(timestamps.entries, k.pid, k.fd);
      if c.isRabbitmqConsume(mem, size) {
        cpu.event := cpu.event.(protocol := Rabbitmq, op := Consume, connectionTimestamp := stamp);
        return Some(cpu.event);
      }
      if c.natsMethod(mem, size) == Consume {
        cpu.event := cpu.event.(protocol := Nats, op := Consume, connectionTimestamp := stamp);
        return Some(cpu.event);
      }
      var response := NoReply;
      if k !in pending {
        var cassandra := IsCassandraResponse(mem, size);
        if cassandra.Some? {
          k := k.(streamId := cassandra.value.0);
          cpu.event := cpu.event.(status := cassandra.value.1);
          if k !in pending {
            return None;
          }
          response := Reply(cassandra.value.1, 0);
        } else if c.looksLikeHttp2Frame(mem, size, ServerFrames) {
          cpu.event := cpu.event.(protocol := Http2, op := ServerFrames, duration := now, connectionTimestamp := stamp,
                                  payloadSize := size);
          var payload := CopyPayload(cpu.event.payload, size, mem);
          if payload.None? {
            return None;
          }
          cpu.event := cpu.event.(payload := payload.value);
          return Some(cpu.event);
        } else {
          return None;
        }
      }
      out := AnswerRequest(k, mem, size, response, now, cpu, copies, recopies);
    }

    method TraceExitRead(id: Id, pidTgid: Id, isTls: bool, r: Returned, now: u64, cpu: PerCpu, copies: bool, recopies: bool)
      returns (out: Option<Event>)
      requires cpu.iovecBuf.Length == IOVEC_BUF_SIZE
      modifies this, cpu, cpu.iovecBuf
      ensures
        var o := ExitRead(c, old(View()), old(timestamps.entries), id, pidTgid, isTls, r, now, old(cpu.Contents()), copies,
                          recopies);
        View() == o.tables && out == o.event
    {
      if id !in activeReads {
        return None;
      }
      var args := activeReads[id];
      activeReads := activeReads - {id};
      if r.ret <= 0 {
        return None;
      }
      var ret := r.ret;
      if args.ret != 0 {
        if r.retValue.None? {
          return None;
        }
        ret := r.retValue.value;
        if ret <= 0 {
          return None;
        }
      }
      var mem, n := ReadSource(r.src, ret, args.iovlen, ret, cpu);
      if n == 0 {
        return None;
      }
      out := TraceBytesRead(Key(args.fd, PidOf(pidTgid), isTls, -1), mem, n, now, cpu, copies, recopies);
    }
  }
}
