/** What the run invariant of `L7History` means for the events user space receives. */
module L7Theorems {
  import opened Bytes
  import opened Payload
  import opened Classifiers
  import opened L7
  import opened L7History

  /** Events and stores: each event answers one store under its own key made before it, and no store is answered twice. */
  lemma {:induction false} AtMostOnce(c: Classifiers, steps: seq<Timed>)
    ensures
      var h := Run(c, steps);
      && (forall i :: 0 <= i < |h.emitted| ==>
            var m := h.emitted[i];
            && m.store < m.before <= |h.stored| && h.stored[m.store].key == m.key
            && Answers(m.event, m.key, h.stored[m.store].request, m.store in h.cut, m.at))
      && (forall i, j :: 0 <= i < j < |h.emitted| ==> h.emitted[i].store != h.emitted[j].store)
  {
    RunInv(c, steps);
    var h := Run(c, steps);
    forall i | 0 <= i < |h.emitted| ensures EmissionOk(h, h.emitted[i]) {
    }
  }

  /** The time of the last step that reads the clock. */
  function Clock(steps: seq<Timed>): u64 {
    if steps == [] then 0
    else
      var s := steps[|steps| - 1].step;
      if s.Write? || s.ReadExit? then s.now else Clock(steps[..|steps| - 1])
  }

  predicate Monotone(steps: seq<Timed>) {
    steps == [] || (Monotone(steps[..|steps| - 1]) && Clock(steps[..|steps| - 1]) <= Clock(steps))
  }

  predicate TimesOk(h: History, clock: u64) {
    && (forall i :: 0 <= i < |h.stored| ==> h.stored[i].request.ns <= clock)
    && (forall i :: 0 <= i < |h.emitted| ==>
          h.emitted[i].store < |h.stored| && h.stored[h.emitted[i].store].request.ns <= h.emitted[i].at)
  }

  lemma TimesStep(h: History, o: Outcome, now: u64, clock: u64)
    requires Inv(h) && EffectMeans(h.tables, now, o) && TimesOk(h, clock)
    requires o.effect.Attempt? || o.effect.Matched? ==> clock <= now
    ensures TimesOk(Remember(h, o), if o.effect.Attempt? || o.effect.Matched? then now else clock)
  {
    if o.effect.Matched? {
      assert LiveOk(h, o.effect.key);
    }
  }

  lemma EffectOfStep(c: Classifiers, t: Tables, s: Timed)
    requires s.step.ReadEnter? || s.step.Evicts?
    ensures !Apply(c, t, s.ts, s.step).effect.Attempt? && !Apply(c, t, s.ts, s.step).effect.Matched?
  {
  }

  lemma {:induction false} RunTimes(c: Classifiers, steps: seq<Timed>)
    requires Monotone(steps)
    ensures TimesOk(Run(c, steps), Clock(steps))
  {
    if steps != [] {
      var prev, s := steps[..|steps| - 1], steps[|steps| - 1];
      RunTimes(c, prev);
      RunInv(c, prev);
      var h := Run(c, prev);
      ApplyEffect(c, h.tables, s.ts, s.step);
      if s.step.ReadEnter? || s.step.Evicts? {
        EffectOfStep(c, h.tables, s);
      }
      TimesStep(h, Apply(c, h.tables, s.ts, s.step), NowOf(s.step), Clock(prev));
    }
  }

  lemma NoUnderflow(at: u64, ns: u64)
    requires ns <= at
    ensures Sub64(at, ns) == at - ns
  {
  }

  /** With a monotone clock no duration underflows: it is the time from the store to the event. */
  lemma {:induction false} DurationsExact(c: Classifiers, steps: seq<Timed>, i: nat)
    requires Monotone(steps) && i < |Run(c, steps).emitted|
    ensures
      var h := Run(c, steps);
      var m := h.emitted[i];
      m.store < |h.stored| && m.event.duration == m.at - h.stored[m.store].request.ns
  {
    RunInv(c, steps);
    RunTimes(c, steps);
    var h := Run(c, steps);
    var m := h.emitted[i];
    assert EmissionOk(h, m);
    NoUnderflow(m.at, h.stored[m.store].request.ns);
  }

  /** The request under a key is the first that asked for it since the key was last free. */
  lemma {:induction false} FirstPendingWins(c: Classifiers, steps: seq<Timed>, k: Key)
    ensures
      var h := Run(c, steps);
      && (k in h.tables.pending <==> k in h.origin)
      && (k in h.tables.pending ==>
            && h.origin[k].waiting != []
            && Carries(h.tables.pending[k], h.origin[k].waiting[0], h.origin[k].store in h.cut))
  {
    RunInv(c, steps);
    assert LiveOk(Run(c, steps), k);
  }

  /** The tables and the events of a run, with or without the Kafka branch that takes over the waiting request's time. */
  function Play(c: Classifiers, steps: seq<Timed>, carry: bool): (Tables, seq<Event>) {
    if steps == [] then (INIT.tables, [])
    else
      var (t, out) := Play(c, steps[..|steps| - 1], carry);
      var o := Apply(c, t, steps[|steps| - 1].ts, steps[|steps| - 1].step, carry);
      (o.tables, if o.event.Some? then out + [o.event.value] else out)
  }

  function WithTime(cpu: Scratch, ns: u64): Scratch {
    cpu.(request := cpu.request.(ns := ns))
  }

  /** A step whose handler finds another time in the per-CPU request entry. */
  function WithScratchTime(s: Step, ns: u64): Step {
    match s
    case Write(pidTgid, fd, isTls, src, size, iovlen, now, cpu) =>
      Write(pidTgid, fd, isTls, src, size, iovlen, now, WithTime(cpu, ns))
    case ReadExit(id, pidTgid, isTls, r, now, cpu, copies, recopies) =>
      ReadExit(id, pidTgid, isTls, r, now, WithTime(cpu, ns), copies, recopies)
    case _ => s
  }

  lemma HandleReadScratchTime(c: Classifiers, t: Tables, ts: Timestamps, k: Key, mem: seq<byte>, size: u64, now: u64,
                              heap: Request, event: Event, copies: bool, recopies: bool, ns: u64)
    ensures HandleRead(c, t, ts, k, mem, size, now, heap.(ns := ns), event, copies, recopies)
         == HandleRead(c, t, ts, k, mem, size, now, heap, event, copies, recopies)
  {
  }

  /** No handler's result depends on the time an earlier handler left in the per-CPU request entry. */
  lemma ScratchTimeIsDead(c: Classifiers, t: Tables, ts: Timestamps, s: Step, ns: u64, carry: bool)
    ensures Apply(c, t, ts, WithScratchTime(s, ns), carry) == Apply(c, t, ts, s, carry)
  {
    if s.ReadExit? && s.id in t.activeReads && BytesRead(t.activeReads[s.id], s.r).Some? {
      var args := t.activeReads[s.id];
      var n := BytesRead(args, s.r).value;
      var (mem, size) := Resolve(s.r.src, n, args.iovlen, n, s.cpu.iovecBuf);
      HandleReadScratchTime(c, t.(activeReads := t.activeReads - {s.id}), ts, Key(args.fd, PidOf(s.pidTgid), s.isTls, -1), mem,
                            size, s.now, s.cpu.request, s.cpu.event, s.copies, s.recopies, ns);
    }
  }

  /** Two runs of the same steps, but for the times left in the per-CPU entries. */
  predicate SameButScratchTimes(steps: seq<Timed>, others: seq<Timed>) {
    |steps| == |others| &&
    forall i :: 0 <= i < |steps| ==>
      steps[i].ts == others[i].ts && WithScratchTime(steps[i].step, 0) == WithScratchTime(others[i].step, 0)
  }

  lemma CarryIsDead(c: Classifiers, t: Tables, ts: Timestamps, s: Step)
    ensures
      var o, o' := Apply(c, t, ts, s, true), Apply(c, t, ts, s, false);
      o.tables == o'.tables && o.event == o'.event
  {
  }

  lemma KafkaStep(c: Classifiers, t: Tables, ts: Timestamps, s: Step, s': Step)
    requires WithScratchTime(s, 0) == WithScratchTime(s', 0)
    ensures
      var o, o' := Apply(c, t, ts, s, true), Apply(c, t, ts, s', false);
      o.tables == o'.tables && o.event == o'.event
  {
    ScratchTimeIsDead(c, t, ts, s, 0, true);
    ScratchTimeIsDead(c, t, ts, s', 0, false);
    CarryIsDead(c, t, ts, WithScratchTime(s, 0));
  }

  lemma {:induction false} PlayIsRun(c: Classifiers, steps: seq<Timed>)
    ensures Play(c, steps, true).0 == Run(c, steps).tables
  {
    if steps != [] {
      PlayIsRun(c, steps[..|steps| - 1]);
    }
  }

  /** The machine without the carry-over branch has the same tables and events on every run, also when the two leave
      different times in the per-CPU entries. */
  lemma {:induction false} KafkaCarryOverIsDead(c: Classifiers, steps: seq<Timed>, others: seq<Timed>)
    requires SameButScratchTimes(steps, others)
    ensures Play(c, steps, true) == Play(c, others, false)
    ensures Play(c, steps, true).0 == Run(c, steps).tables
  {
    PlayIsRun(c, steps);
    if steps != [] {
      var n := |steps| - 1;
      KafkaCarryOverIsDead(c, steps[..n], others[..n]);
      KafkaStep(c, Play(c, steps[..n], true).0, steps[n].ts, steps[n].step, others[n].step);
    }
  }

  /** In every reachable table a stream id marks a Cassandra request and the partial mark a Mongo request. */
  lemma {:induction false} PendingTags(c: Classifiers, steps: seq<Timed>, k: Key)
    requires k in Run(c, steps).tables.pending
    ensures
      var r := Run(c, steps).tables.pending[k];
      (k.streamId != -1 ==> r.protocol == Cassandra) && (r.partial ==> r.protocol == Mongo)
  {
    RunInv(c, steps);
    var h := Run(c, steps);
    assert LiveOk(h, k) && StoredOk(h, h.origin[k].store);
  }

  /** So the verdict of the Cassandra fallback stands: the chain never overrules it. A Cassandra event is sent exactly when
      the stored payload can be copied; otherwise the request stays, its size cut in place. */
  lemma {:induction false} CassandraFallbackStands(c: Classifiers, steps: seq<Timed>, ts: Timestamps, k: Key, mem: seq<byte>,
                                                   size: u64, now: u64, heap: Request, event: Event, copies: bool, recopies: bool)
    requires k.streamId == -1 && k !in Run(c, steps).tables.pending
    requires !c.isRabbitmqConsume(mem, size) && c.natsMethod(mem, size) != Consume
    requires IsCassandraResponse(mem, size).Some?
    requires k.(streamId := IsCassandraResponse(mem, size).value.0) in Run(c, steps).tables.pending
    ensures
      var t := Run(c, steps).tables;
      var k' := k.(streamId := IsCassandraResponse(mem, size).value.0);
      var o := HandleRead(c, t, ts, k, mem, size, now, heap, event, copies, recopies);
      && (o.effect == Matched(k', now) <==> copies) && (o.event.Some? <==> copies)
      && (copies ==>
            && o.tables.pending == t.pending - {k'} && o.event.value.protocol == Cassandra
            && o.event.value.status == IsCassandraResponse(mem, size).value.1)
      && (!copies ==> o.effect == Shrunk(k') && o.tables.pending.Keys == t.pending.Keys)
  {
    PendingTags(c, steps, k.(streamId := IsCassandraResponse(mem, size).value.0));
  }

  /** A Cassandra event always answers a request stored under a stream id, and only such requests give one. */
  lemma {:induction false} CassandraEventsPair(c: Classifiers, steps: seq<Timed>)
    ensures
      var h := Run(c, steps);
      forall i :: 0 <= i < |h.emitted| ==>
        && (h.emitted[i].event.protocol == Cassandra <==> h.emitted[i].key.streamId != -1)
        && h.emitted[i].store < |h.stored|
        && h.stored[h.emitted[i].store].request.protocol == h.emitted[i].event.protocol
  {
    RunInv(c, steps);
    var h := Run(c, steps);
    forall i | 0 <= i < |h.emitted| ensures EmissionOk(h, h.emitted[i]) {
    }
  }

  /** A request is put back as partial at most once, and an event after that still has its time and its payload prefix. */
  lemma MongoSplits(c: Classifiers, steps: seq<Timed>)
    ensures
      var h := Run(c, steps);
      && Distinct(h.splits)
      && (forall k :: k in h.tables.pending && h.tables.pending[k].partial ==>
            k in h.origin && h.origin[k].store in h.splits)
      && (forall i :: 0 <= i < |h.emitted| && h.emitted[i].store in h.splits ==>
            h.emitted[i].store < |h.stored| &&
            var e, s := h.emitted[i].event, h.stored[h.emitted[i].store].request;
            && e.payload[..Min(s.payloadSize, 1023)] == Prefix(s)
            && e.payloadSize == Min(s.payloadSize, 1023)
            && e.duration == Sub64(h.emitted[i].at, s.ns))
  {
    RunInv(c, steps);
    var h := Run(c, steps);
    forall k | k in h.tables.pending ensures EntryOk(h, k) {
      assert LiveOk(h, k);
    }
    forall i | 0 <= i < |h.emitted| ensures EmissionOk(h, h.emitted[i]) {
    }
  }

  /** An event for Kafka carries back the correlation id of the stored request. */
  lemma KafkaCorrelation(c: Classifiers, t: Tables, ts: Timestamps, k: Key, mem: seq<byte>, size: u64,
                         now: u64, heap: Request, event: Event, copies: bool, recopies: bool)
    requires k in t.pending && t.pending[k].protocol == Kafka
    ensures
      var o := HandleRead(c, t, ts, k, mem, size, now, heap, event, copies, recopies);
      o.effect.Matched? <==>
        && !c.isRabbitmqConsume(mem, size) && c.natsMethod(mem, size) != Consume && copies
        && |mem| >= 8 && S32(U32BE(mem[4..8])) == t.pending[k].requestId
  {
  }

  /** Which MySQL events are marked as prepared statements: those whose command is PREPARE, and also every query or
      execute whose packet length has the low byte 0x16, as the request type is inherited from the Postgres classifier. */
  lemma {:induction false} MysqlPrepareEvents(c: Classifiers, steps: seq<Timed>, i: nat)
    requires i < |Run(c, steps).emitted| && Run(c, steps).emitted[i].event.protocol == Mysql
    ensures
      var e := Run(c, steps).emitted[i].event;
      e.op == StatementPrepare <==> (e.payload[4] == MYSQL_PREPARE || e.payload[0] == MYSQL_PREPARE)
  {
    RunInv(c, steps);
    var h := Run(c, steps);
    var m := h.emitted[i];
    assert EmissionOk(h, m) && StoredOk(h, m.store);
    MysqlMethod(m, h.stored[m.store].request, m.store in h.cut);
  }

  lemma MysqlMethod(m: Emission, s: Request, cut: bool)
    requires Answers(m.event, m.key, s, cut, m.at) && s.protocol == Mysql && MysqlShape(s)
    ensures m.event.payload[..5] == s.payload[..5]
    ensures m.event.op == StatementPrepare <==> (m.event.payload[4] == MYSQL_PREPARE || m.event.payload[0] == MYSQL_PREPARE)
  {
    var n := Min(s.payloadSize, 1023);
    assert m.event.payload[..n][..5] == m.event.payload[..5] && s.payload[..n][..5] == s.payload[..5];
    assert m.event.payload[4] == m.event.payload[..5][4] && m.event.payload[0] == m.event.payload[..5][0];
    assert s.payload[4] == s.payload[..5][4] && s.payload[0] == s.payload[..5][0];
  }

  /** A 26-byte query packet; its length has the low byte 0x16. */
  function ShortQuery(text: seq<byte>): seq<byte> {
    [22, 0, 0, 0, MYSQL_QUERY] + text
  }

  /** No classifier that comes before MySQL claims the packet. */
  predicate ReachesMysql(c: Classifiers, mem: seq<byte>, size: u64) {
    && !c.isHttpRequest(mem) && !IsPostgresQuery(mem, size, 0).0
    && !c.isRedisQuery(mem, size) && !c.isMemcachedQuery(mem, size)
  }

  lemma ShortQueryStored(c: Classifiers, t: Tables, ts: Timestamps, pidTgid: Id, fd: u64, text: seq<byte>, now: u64, cpu: Scratch)
    requires |text| == 21 && ReachesMysql(c, ShortQuery(text), 26)
    requires Key(fd, PidOf(pidTgid), false, -1) !in t.pending
    ensures
      var mem, k := ShortQuery(text), Key(fd, PidOf(pidTgid), false, -1);
      var r := Request(now, Mysql, false, MYSQL_PREPARE, 0, 26, mem + cpu.request.payload[26..]);
      Apply(c, t, ts, Write(pidTgid, fd, false, Source(mem, []), 26, 0, now, cpu))
        == Outcome(t.(pending := t.pending[k := r]), None, Attempt(k, r))
  {
    var mem := ShortQuery(text);
    assert U24LE(mem) == 22;
    assert CopyPayload(cpu.request.payload, 26, mem).value == mem + cpu.request.payload[26..];
  }

  /** When it is stored and answered, the event is marked as a prepared statement although its command is a query. */
  lemma QueryReportedAsPrepare(c: Classifiers, t: Tables, ts: Timestamps, pidTgid: Id, fd: u64, text: seq<byte>, cpu: Scratch,
                               now: u64, answer: seq<byte>, size: u64, later: u64, heap: Request, event: Event)
    requires |text| == 21 && ReachesMysql(c, ShortQuery(text), 26)
    requires Key(fd, PidOf(pidTgid), false, -1) !in t.pending
    requires !c.isRabbitmqConsume(answer, size) && c.natsMethod(answer, size) != Consume
    requires IsMysqlResponse(answer, MYSQL_PREPARE).Reply?
    ensures
      var k := Key(fd, PidOf(pidTgid), false, -1);
      var o := Apply(c, t, ts, Write(pidTgid, fd, false, Source(ShortQuery(text), []), 26, 0, now, cpu));
      var e := HandleRead(c, o.tables, ts, k, answer, size, later, heap, event, true, true).event;
      e.Some? && e.value.protocol == Mysql && e.value.op == StatementPrepare && e.value.payload[4] == MYSQL_QUERY
  {
    ShortQueryStored(c, t, ts, pidTgid, fd, text, now, cpu);
  }

  /** Three steps: the packet is written, a read is entered, and it returns the answer. */
  function QueryAndAnswer(pidTgid: Id, fd: u64, text: seq<byte>, cpu: Scratch, answer: seq<byte>, size: s64): seq<Step> {
    [Write(pidTgid, fd, false, Source(ShortQuery(text), []), 26, 0, 1, cpu),
     ReadEnter(pidTgid, ReadArgs(fd, 0, 0, 0), true),
     ReadExit(pidTgid, pidTgid, false, Returned(size, None, Source(answer, [])), 2, cpu, true, true)]
  }

  /** So there is a run with a MySQL event that is marked as a prepared statement and carries a query. */
  lemma QueryMarkedPrepareInARun(c: Classifiers, pidTgid: Id, fd: u64, text: seq<byte>, cpu: Scratch, answer: seq<byte>,
                                 size: s64)
    requires |text| == 21 && ReachesMysql(c, ShortQuery(text), 26)
    requires 0 < size && !c.isRabbitmqConsume(answer, size) && c.natsMethod(answer, size) != Consume
    requires IsMysqlResponse(answer, MYSQL_PREPARE).Reply?
    ensures
      var s := QueryAndAnswer(pidTgid, fd, text, cpu, answer, size);
      var h := Run(c, [Timed(s[0], map[]), Timed(s[1], map[]), Timed(s[2], map[])]);
      && |h.emitted| == 1
      && var e := h.emitted[0].event; e.protocol == Mysql && e.op == StatementPrepare && e.payload[4] == MYSQL_QUERY
  {
    var s := QueryAndAnswer(pidTgid, fd, text, cpu, answer, size);
    var steps := [Timed(s[0], map[]), Timed(s[1], map[]), Timed(s[2], map[])];
    ShortQueryStored(c, INIT.tables, map[], pidTgid, fd, text, 1, cpu);
    var h1 := After(c, INIT, steps[0]);
    var h2 := After(c, h1, steps[1]);
    assert steps[..2][..1] == steps[..1] && steps[..1][..0] == [];
    assert Run(c, steps[..1]) == h1 && Run(c, steps[..2]) == h2;
    assert h2.emitted == [];
    QueryReportedAsPrepare(c, INIT.tables, map[], pidTgid, fd, text, cpu, 1, answer, size, 2, cpu.request, cpu.event);
  }

  /** When an accepted MySQL packet is reported at once as a closed statement instead of being stored:
      for CLOSE, and for a query or execute whose packet length has the low byte 0x19. */
  lemma MysqlCloseEvents(c: Classifiers, mem: seq<byte>, size: u64, staleType: byte)
    requires IsMysqlQuery(mem, size, 0).0
    requires !c.isHttpRequest(mem) && !IsPostgresQuery(mem, size, 0).0
    requires !c.isRedisQuery(mem, size) && !c.isMemcachedQuery(mem, size)
    ensures
      var w := ClassifyWrite(c, mem, size, staleType);
      && (w == OneWay(Mysql, StatementClose, true) <==>
            mem[4] == MYSQL_CLOSE || (mem[4] != MYSQL_PREPARE && (size - 4) % 256 == MYSQL_CLOSE))
      && (w != OneWay(Mysql, StatementClose, true) ==> w.Pending? && w.protocol == Mysql)
  {
    assert U24LE(mem) % 256 == mem[0];
  }

  /** A 29-byte query packet is such a query: it is reported as a closed statement. */
  lemma QueryReportedAsClose(c: Classifiers, text: seq<byte>)
    requires |text| == 24
    requires var mem := [25, 0, 0, 0, MYSQL_QUERY] + text;
             && !c.isHttpRequest(mem) && !c.isRedisQuery(mem, 29) && !c.isMemcachedQuery(mem, 29)
             && mem[24..29] != ['S' as int, 0, 0, 0, 4]
    ensures ClassifyWrite(c, [25, 0, 0, 0, MYSQL_QUERY] + text, 29, 0) == OneWay(Mysql, StatementClose, true)
  {
    var mem := [25, 0, 0, 0, MYSQL_QUERY] + text;
    assert U24LE(mem) == 25;
  }
}
