/** From the bytes a handler saw to the payload user space parses, for every event of every run. */
module Delivery {
  import opened Bytes
  import opened Payload
  import opened Classifiers
  import opened L7
  import opened L7History
  import opened L7Provenance
  import opened L7Theorems
  import opened Reader

  /** The last byte of the event that earlier handlers left in the per-CPU entry a step uses. */
  function StaleByte(s: Step): byte {
    match s
    case Write(_, _, _, _, _, _, _, cpu) => cpu.event.payload[1023]
    case ReadExit(_, _, _, _, _, cpu, _, _) => cpu.event.payload[1023]
    case _ => 0
  }

  lemma ReadLeavesLastByte(c: Classifiers, t: Tables, ts: Timestamps, k: Key, mem: seq<byte>, size: u64, now: u64, heap: Request,
                           event: Event, copies: bool, recopies: bool)
    ensures
      var e := HandleRead(c, t, ts, k, mem, size, now, heap, event, copies, recopies).event;
      e.Some? ==> e.value.payload[1023] == event.payload[1023]
  {
  }

  /** No handler writes the 1024th payload byte of an event. */
  lemma LastByteIsStale(c: Classifiers, t: Tables, ts: Timestamps, s: Step)
    ensures var e := Apply(c, t, ts, s).event; e.Some? ==> e.value.payload[1023] == StaleByte(s)
  {
    if s.ReadExit? && s.id in t.activeReads {
      var (mem, size) := BytesSeen(t, s);
      ReadLeavesLastByte(c, t.(activeReads := t.activeReads - {s.id}), ts,
                         Key(t.activeReads[s.id].fd, PidOf(s.pidTgid), s.isTls, -1), mem, size, s.now, s.cpu.request, s.cpu.event,
                         s.copies, s.recopies);
    }
  }

  /** The payload `p` is what is left of the `size` bytes at `mem`: the first 1023 are the bytes seen, and the 1024th, if there
      is one, is `stale`. It ends at 1023 bytes when the size was `cut` in place, and at 1024 otherwise. */
  predicate Delivers(p: seq<byte>, mem: seq<byte>, size: u64, cut: bool, stale: byte) {
    var n := Min(size, 1023);
    && n <= |mem| && |p| == Min(size, if cut then 1023 else 1024) && p[..n] == mem[..n]
    && (|p| == 1024 ==> p[1023] == stale)
  }

  /** All of the bytes user space can have are the bytes seen. */
  predicate IsExact(p: seq<byte>, mem: seq<byte>, size: u64)
    requires Min(size, 1024) <= |mem|
  {
    p == mem[..Min(size, 1024)]
  }

  /** They are so exactly when there are no more than 1023, or the stale byte happens to be the right one. */
  lemma ExactIff(p: seq<byte>, mem: seq<byte>, size: u64, cut: bool, stale: byte)
    requires Delivers(p, mem, size, cut, stale) && Min(size, 1024) <= |mem|
    ensures IsExact(p, mem, size) <==> size <= 1023 || (!cut && stale == mem[1023])
  {
    if size > 1023 && !cut {
      assert p == p[..1023] + [p[1023]] && mem[..1024] == mem[..1023] + [mem[1023]];
      assert mem[..1024][1023] == mem[1023];
    }
  }

  /** A stored request is the front of what was written, with its full size. */
  lemma AttemptStoresPrefix(c: Classifiers, t: Tables, ts: Timestamps, s: Step)
    requires s.Write? && Apply(c, t, ts, s).effect.Attempt?
    ensures
      var (mem, size) := BytesSeen(t, s);
      var r := Apply(c, t, ts, s).effect.request;
      r.payloadSize == size && Min(size, 1023) <= |mem| && Prefix(r) == mem[..Min(size, 1023)]
  {
  }

  /** For a vectored write out of readable memory that front is the front of the buffers joined together. */
  lemma VectoredStoresPrefix(c: Classifiers, t: Tables, ts: Timestamps, s: Step)
    requires s.Write? && s.iovlen != 0 && FirstReadable(s.src.iovs, Visited(s.iovlen))
    requires Apply(c, t, ts, s).effect.Attempt?
    ensures
      var all := Concat(s.src.iovs, Visited(s.iovlen));
      var r := Apply(c, t, ts, s).effect.request;
      Prefix(r) == all[..Min(|all|, 1023)] && Min(r.payloadSize, 1023) == Min(|all|, 1023)
  {
    var all, n := Concat(s.src.iovs, Visited(s.iovlen)), Visited(s.iovlen);
    AttemptStoresPrefix(c, t, ts, s);
    GatherFromPrefix(s.src.iovs, n, 1024, 0, s.cpu.iovecBuf);
    assert s.cpu.iovecBuf[..0] + all == all;
  }

  lemma SliceOfAnswer(e: Event, k: Key, s: Request, cut: bool, at: u64, tail: seq<byte>, mem: seq<byte>)
    requires Answers(e, k, s, cut, at) && s.payloadSize > 0
    requires Min(s.payloadSize, 1023) <= |mem| && Prefix(s) == mem[..Min(s.payloadSize, 1023)]
    ensures Delivers(Slice(e, tail), mem, s.payloadSize, cut, e.payload[1023])
  {
    var n := Min(s.payloadSize, 1023);
    assert Slice(e, tail)[..n] == e.payload[..n];
  }

  /** What is delivered for a response event, told from the write that stored its request and the step that sent it. */
  lemma DeliveredPayload(c: Classifiers, steps: seq<Timed>, i: nat, n: nat, m: nat, tail: seq<byte>)
    requires AnsweredLater(c, steps, i, n, m)
    ensures
      var (mem, size) := BytesSeen(Before(c, steps, n).tables, steps[n].step);
      var h := Run(c, steps);
      var p, cut, stale := Slice(h.emitted[i].event, tail), h.emitted[i].store in h.cut, StaleByte(steps[m].step);
      && Delivers(p, mem, size, cut, stale)
      && (Min(size, 1024) <= |mem| ==> (IsExact(p, mem, size) <==> size <= 1023 || (!cut && stale == mem[1023])))
  {
    StoreStays(c, steps, n);
    RunInv(c, steps);
    var h := Run(c, steps);
    var e := h.emitted[i];
    assert EmissionOk(h, e) && StoredOk(h, e.store);
    AttemptStoresPrefix(c, Before(c, steps, n).tables, steps[n].ts, steps[n].step);
    var (mem, size) := BytesSeen(Before(c, steps, n).tables, steps[n].step);
    SliceOfAnswer(e.event, e.key, h.stored[e.store].request, e.store in h.cut, e.at, tail, mem);
    LastByteIsStale(c, Before(c, steps, m).tables, steps[m].ts, steps[m].step);
    if Min(size, 1024) <= |mem| {
      ExactIff(Slice(e.event, tail), mem, size, e.store in h.cut, StaleByte(steps[m].step));
    }
  }

  /** An event sent at once: closed statements and HTTP/2 frames carry their payload, RabbitMQ and NATS events do not. */
  predicate SentAtOnce(o: Outcome) {
    o.event.Some? && o.effect.Quiet? && o.event.value.protocol !in {Rabbitmq, Nats}
  }

  lemma SliceOfCopy(e: Event, size: u64, dst: Block, mem: seq<byte>, tail: seq<byte>)
    requires e.payloadSize == size && CopyPayload(dst, size, mem) == Some(e.payload)
    ensures Delivers(Slice(e, tail), mem, size, false, e.payload[1023])
  {
    var n := Min(size, 1023);
    assert Slice(e, tail)[..n] == e.payload[..n] == mem[..n];
  }

  lemma FramesSentAtOnce(c: Classifiers, t: Tables, ts: Timestamps, k: Key, mem: seq<byte>, size: u64, now: u64, heap: Request,
                         event: Event, copies: bool, recopies: bool, tail: seq<byte>)
    requires SentAtOnce(HandleRead(c, t, ts, k, mem, size, now, heap, event, copies, recopies))
    ensures
      var e := HandleRead(c, t, ts, k, mem, size, now, heap, event, copies, recopies).event.value;
      e.protocol == Http2 && Delivers(Slice(e, tail), mem, size, false, e.payload[1023])
  {
    var e := HandleRead(c, t, ts, k, mem, size, now, heap, event, copies, recopies).event.value;
    SliceOfCopy(e, size, event.payload, mem, tail);
  }

  /** What is stored or sent at once as MySQL was accepted as MySQL. */
  lemma ClassifiedMysql(c: Classifiers, mem: seq<byte>, size: u64, staleType: byte)
    ensures
      var w := ClassifyWrite(c, mem, size, staleType);
      && (!w.Ignored? && w.protocol == Mysql ==> IsMysqlQuery(mem, size, 0).0)
      && (IsMysqlQuery(mem, size, 0).0 ==> !w.Ignored? && w.protocol in {Http, Postgres, Redis, Memcached, Mysql})
  {
  }

  lemma AcceptedSentAtOnce(c: Classifiers, t: Tables, ts: Timestamps, s: Step)
    requires s.Write? && Apply(c, t, ts, s).event.Some?
    requires var (mem, size) := BytesSeen(t, s); IsMysqlQuery(mem, size, 0).0
    ensures SentAtOnce(Apply(c, t, ts, s))
  {
    var (mem, size) := BytesSeen(t, s);
    ClassifiedMysql(c, mem, size, s.cpu.request.requestType);
  }

  lemma MysqlWasAccepted(c: Classifiers, t: Tables, ts: Timestamps, s: Step)
    requires s.Write?
    ensures
      var (mem, size) := BytesSeen(t, s);
      var o := Apply(c, t, ts, s);
      (o.event.Some? && o.event.value.protocol == Mysql) || (o.effect.Attempt? && o.effect.request.protocol == Mysql) ==>
        IsMysqlQuery(mem, size, 0).0
  {
    var (mem, size) := BytesSeen(t, s);
    ClassifiedMysql(c, mem, size, s.cpu.request.requestType);
  }

  lemma OneWayCopies(c: Classifiers, t: Tables, ts: Timestamps, s: Step, e: Event)
    requires s.Write? && SentAtOnce(Apply(c, t, ts, s)) && Apply(c, t, ts, s).event == Some(e)
    ensures
      var (mem, size) := BytesSeen(t, s);
      e.payloadSize == size && CopyPayload(s.cpu.event.payload, size, mem) == Some(e.payload)
  {
    var (mem, size) := BytesSeen(t, s);
    assert ClassifyWrite(c, mem, size, s.cpu.request.requestType).OneWay?;
  }

  lemma WritesSentAtOnce(c: Classifiers, t: Tables, ts: Timestamps, s: Step, e: Event, tail: seq<byte>)
    requires s.Write? && SentAtOnce(Apply(c, t, ts, s)) && Apply(c, t, ts, s).event == Some(e)
    ensures
      var (mem, size) := BytesSeen(t, s);
      Delivers(Slice(e, tail), mem, size, false, e.payload[1023])
  {
    var (mem, size) := BytesSeen(t, s);
    OneWayCopies(c, t, ts, s, e);
    SliceOfCopy(e, size, s.cpu.event.payload, mem, tail);
  }

  lemma ReadsSentAtOnce(c: Classifiers, t: Tables, ts: Timestamps, s: Step, tail: seq<byte>)
    requires s.ReadExit? && SentAtOnce(Apply(c, t, ts, s))
    ensures
      var (mem, size) := BytesSeen(t, s);
      var e := Apply(c, t, ts, s).event.value;
      Delivers(Slice(e, tail), mem, size, false, e.payload[1023]) && e.protocol == Http2
  {
    var (mem, size) := BytesSeen(t, s);
    FramesSentAtOnce(c, t.(activeReads := t.activeReads - {s.id}), ts,
                     Key(t.activeReads[s.id].fd, PidOf(s.pidTgid), s.isTls, -1), mem, size, s.now, s.cpu.request, s.cpu.event,
                     s.copies, s.recopies, tail);
  }

  /** What is delivered for every event that is sent at once with a payload. */
  lemma OneWayPayload(c: Classifiers, t: Tables, ts: Timestamps, s: Step, tail: seq<byte>)
    requires SentAtOnce(Apply(c, t, ts, s))
    ensures
      var (mem, size) := BytesSeen(t, s);
      var e := Apply(c, t, ts, s).event.value;
      var p, stale := Slice(e, tail), StaleByte(s);
      && Delivers(p, mem, size, false, stale)
      && (Min(size, 1024) <= |mem| ==> (IsExact(p, mem, size) <==> size <= 1023 || stale == mem[1023]))
      && (s.ReadExit? ==> e.protocol == Http2)
      && (e.protocol == Mysql ==> IsMysqlQuery(mem, size, 0).0)
  {
    LastByteIsStale(c, t, ts, s);
    if s.Write? {
      WritesSentAtOnce(c, t, ts, s, Apply(c, t, ts, s).event.value, tail);
      MysqlWasAccepted(c, t, ts, s);
    } else {
      ReadsSentAtOnce(c, t, ts, s, tail);
    }
    var (mem, size) := BytesSeen(t, s);
    if Min(size, 1024) <= |mem| {
      ExactIff(Slice(Apply(c, t, ts, s).event.value, tail), mem, size, false, StaleByte(s));
    }
  }

  /** A MySQL CLOSE packet of 1024 bytes. */
  function LongClose(body: seq<byte>): seq<byte> {
    [252, 3, 0, 0, MYSQL_CLOSE] + body
  }

  /** Its last byte is lost unless an earlier event left the same one. */
  lemma LastByteLost(c: Classifiers, t: Tables, ts: Timestamps, pidTgid: Id, fd: u64, body: seq<byte>, now: u64, cpu: Scratch,
                     tail: seq<byte>)
    requires |body| == 1019 && ReachesMysql(c, LongClose(body), 1024)
    requires cpu.event.payload[1023] != body[1018]
    ensures
      var mem := LongClose(body);
      var e := Apply(c, t, ts, Write(pidTgid, fd, false, Source(mem, []), 1024, 0, now, cpu)).event;
      |mem| == 1024 && e.Some? && e.value.protocol == Mysql && Slice(e.value, tail) != mem
  {
    var mem := LongClose(body);
    var s := Write(pidTgid, fd, false, Source(mem, []), 1024, 0, now, cpu);
    assert U24LE(mem) == 1020;
    assert ClassifyWrite(c, mem, 1024, cpu.request.requestType) == OneWay(Mysql, StatementClose, true);
    OneWayPayload(c, t, ts, s, tail);
    assert mem[1023] == body[1018] && mem[..1024] == mem;
  }
}
