/** What every run of the handlers of `l7.c` keeps: at-most-once matching, tags, order of waiting requests, split reads. */
module L7History {
  import opened Bytes
  import opened Payload
  import opened Classifiers
  import opened L7

  datatype Stored = Stored(key: Key, request: Request)

  /** An event sent at the end of `trace_exit_read`, with the store it answers and the number of stores made before it. */
  datatype Emission = Emission(store: nat, key: Key, event: Event, at: u64, before: nat)

  /** Where a pending entry comes from: its store, and every attempt to store under the key since it was last removed. */
  datatype Origin = Origin(store: nat, waiting: seq<Request>)

  /** The tables with their history. `answered` and `cut` hold the stores that were answered, or whose size was cut in place. */
  datatype History = History(
    tables: Tables, stored: seq<Stored>, origin: map<Key, Origin>, emitted: seq<Emission>, answered: set<nat>,
    splits: seq<nat>, cut: set<nat>)

  const INIT := History(Tables(map[], map[]), [], map[], [], {}, [], {})

  function NowOf(s: Step): u64 {
    match s
    case Write(_, _, _, _, _, _, now, _) => now
    case ReadExit(_, _, _, _, now, _, _, _) => now
    case _ => 0
  }

  function OriginOf(h: History, k: Key): Origin {
    if k in h.origin then h.origin[k] else Origin(|h.stored|, [])
  }

  function Remember(h: History, o: Outcome): History {
    var h' := h.(tables := o.tables);
    match o.effect
    case Quiet => h'
    case Attempt(k, r) =>
      var from := OriginOf(h, k);
      var h' := h'.(origin := h.origin[k := from.(waiting := from.waiting + [r])]);
      if k in o.tables.pending && k !in h.tables.pending then h'.(stored := h.stored + [Stored(k, r)]) else h'
    case Matched(k, at) =>
      var store := OriginOf(h, k).store;
      var emitted := if o.event.None? then h.emitted else h.emitted + [Emission(store, k, o.event.value, at, |h.stored|)];
      h'.(origin := h.origin - {k}, emitted := emitted, answered := h.answered + {store})
    case Dropped(k) => h'.(origin := h.origin - {k})
    case Split(k) => h'.(splits := h.splits + [OriginOf(h, k).store], cut := h.cut + {OriginOf(h, k).store})
    case Shrunk(k) => h'.(cut := h.cut + {OriginOf(h, k).store})
    case Evicted(keys) => h'.(origin := h.origin - keys)
  }

  /** A step together with the connection timestamps the handler sees. */
  datatype Timed = Timed(step: Step, ts: Timestamps)

  function After(c: Classifiers, h: History, s: Timed): History {
    Remember(h, Apply(c, h.tables, s.ts, s.step))
  }

  function Run(c: Classifiers, steps: seq<Timed>): History {
    if steps == [] then INIT else After(c, Run(c, steps[..|steps| - 1]), steps[|steps| - 1])
  }

  /** What a stored MySQL packet looks like; the request type of a query or execute is its length byte. */
  predicate MysqlShape(r: Request) {
    && r.payloadSize == U24LE(r.payload) + 4 >= 5 && r.payload[3] == 0
    && r.payload[4] in {MYSQL_QUERY, MYSQL_EXECUTE, MYSQL_PREPARE}
    && r.requestType == (if r.payload[4] == MYSQL_PREPARE then MYSQL_PREPARE else r.payload[0])
  }

  /** What every stored request satisfies. */
  predicate Shape(k: Key, r: Request) {
    && !r.partial && r.payloadSize > 0
    && (k.streamId != -1 ==> r.protocol == Cassandra)
    && (r.protocol == Mysql ==> MysqlShape(r) && r.requestType != MYSQL_CLOSE)
    && (r.protocol == Kafka ==> r.requestId > 0)
  }

  function Prefix(r: Request): seq<byte> {
    r.payload[..Min(r.payloadSize, 1023)]
  }

  /** `r`, found in the table, is the stored `s`, apart from the marks a split or a failed copy leaves. */
  predicate Carries(r: Request, s: Request, cut: bool) {
    && r.protocol == s.protocol && r.ns == s.ns
    && r.payloadSize == (if cut then Min(s.payloadSize, 1023) else s.payloadSize)
    && Prefix(r) == Prefix(s)
    && (r.partial ==> r.protocol == Mongo)
    && (!r.partial ==> r.requestType == s.requestType && r.requestId == s.requestId)
  }

  /** `e` is the event for `r`. */
  predicate Reports(e: Event, k: Key, r: Request, at: u64) {
    && e.fd == k.fd && e.pid == k.pid && e.protocol == r.protocol
    && e.payloadSize == r.payloadSize && e.payload[..Min(r.payloadSize, 1023)] == Prefix(r)
    && e.duration == Sub64(at, r.ns) && e.op == MethodOf(r)
  }

  /** The request type the MySQL classifier leaves, given the one the Postgres classifier left before it. */
  lemma MysqlRequestType(mem: seq<byte>, size: nat, staleType: byte)
    requires IsMysqlQuery(mem, size, IsPostgresQuery(mem, size, staleType).1).0
    ensures size >= 5 && |mem| >= 5 && size == U24LE(mem) + 4 && mem[3] == 0
    ensures
      var requestType := IsMysqlQuery(mem, size, IsPostgresQuery(mem, size, staleType).1).1;
      || (mem[4] == MYSQL_PREPARE == requestType)
      || (mem[4] == MYSQL_CLOSE == requestType)
      || (mem[4] in {MYSQL_QUERY, MYSQL_EXECUTE} && requestType == mem[0])
  {
    assert IsPostgresQuery(mem, size, staleType).1 == mem[0];
  }

  lemma ClassifiedShape(c: Classifiers, mem: seq<byte>, size: u64, staleType: byte)
    ensures match ClassifyWrite(c, mem, size, staleType)
            case Pending(protocol, streamId, requestType, requestId) =>
              && (streamId != -1 ==> protocol == Cassandra)
              && (protocol == Kafka ==> requestId > 0)
              && (protocol == Mysql ==>
                    && size >= 5 && |mem| >= 5
                    && size == U24LE(mem) + 4 && mem[3] == 0 && mem[4] in {MYSQL_QUERY, MYSQL_EXECUTE, MYSQL_PREPARE}
                    && requestType == (if mem[4] == MYSQL_PREPARE then MYSQL_PREPARE else mem[0])
                    && requestType != MYSQL_CLOSE)
            case _ => true
  {
    if IsMysqlQuery(mem, size, IsPostgresQuery(mem, size, staleType).1).0 {
      MysqlRequestType(mem, size, staleType);
    }
  }

  /** How a step changes the pending table, for each effect it reports. */
  ghost predicate EffectMeans(t: Tables, now: u64, o: Outcome) {
    match o.effect
    case Quiet => o.tables.pending == t.pending
    case Attempt(k, r) =>
      && Shape(k, r) && o.event.None? && (k !in t.pending ==> r.ns == now)
      && o.tables.pending == if k in t.pending then t.pending else t.pending[k := r]
    case Matched(k, at) =>
      && k in t.pending && o.tables.pending == t.pending - {k}
      && at == now && o.event.Some? && Reports(o.event.value, k, t.pending[k], at)
      && (t.pending[k].protocol == Cassandra ==> k.streamId != -1)
    case Dropped(k) => k in t.pending && o.tables.pending == t.pending - {k} && o.event.None?
    case Split(k) =>
      && k in t.pending && t.pending[k].protocol == Mongo && !t.pending[k].partial && o.event.None?
      && k in o.tables.pending && o.tables.pending == t.pending[k := o.tables.pending[k]]
      && var r, r' := t.pending[k], o.tables.pending[k];
         r'.partial && r'.protocol == Mongo && r'.ns == r.ns && r'.payloadSize == Min(r.payloadSize, 1023)
         && Prefix(r') == Prefix(r)
    case Shrunk(k) =>
      && k in t.pending && o.event.None?
      && o.tables.pending == t.pending[k := t.pending[k].(payloadSize := Min(t.pending[k].payloadSize, 1023))]
    case Evicted(keys) => o.tables.pending == t.pending - keys && o.event.None?
  }

  lemma AnswerEffect(c: Classifiers, t: Tables, ts: Timestamps, s: Step, k: Key, mem: seq<byte>, size: nat,
                     response: Reply, e: Event)
    requires s.ReadExit? && k in t.pending && e.fd == k.fd && e.pid == k.pid && response != Partial
    requires response.Reply? ==> k.streamId != -1
    ensures EffectMeans(t, s.now, Answer(c, t, ts, k, mem, size, response, s.now, e, s.cpu.request, s.copies, s.recopies))
  {
    var req := t.pending[k];
    var cut := Truncate(req.payloadSize);
    assert (req.payload[..cut] + e.payload[cut..])[..cut] == req.payload[..cut];
    assert (req.payload[..cut] + s.cpu.request.payload[cut..])[..cut] == req.payload[..cut];
  }

  lemma HandleReadEffect(c: Classifiers, t: Tables, ts: Timestamps, s: Step, k: Key, mem: seq<byte>, size: u64)
    requires s.ReadExit? && k.streamId == -1
    ensures EffectMeans(t, s.now, HandleRead(c, t, ts, k, mem, size, s.now, s.cpu.request, s.cpu.event, s.copies, s.recopies))
  {
    var e := s.cpu.event.(fd := k.fd, pid := k.pid, protocol := Unknown, connectionTimestamp := 0,
                          status := STATUS_UNKNOWN, op := NoMethod, statementId := 0, payloadSize := 0);
    if k in t.pending {
      AnswerEffect(c, t, ts, s, k, mem, size, NoReply, e);
    } else if IsCassandraResponse(mem, size).Some? {
      var (streamId, status) := IsCassandraResponse(mem, size).value;
      if k.(streamId := streamId) in t.pending {
        AnswerEffect(c, t, ts, s, k.(streamId := streamId), mem, size, Reply(status, 0), e.(status := status));
      }
    }
  }

  lemma WriteEffect(c: Classifiers, t: Tables, ts: Timestamps, s: Step)
    requires s.Write?
    ensures EffectMeans(t, s.now, Apply(c, t, ts, s))
  {
    var (mem, size) := Resolve(s.src, s.size, s.iovlen, 0, s.cpu.iovecBuf);
    if Min(size, 1023) <= |mem| {
      ClassifiedShape(c, mem, size, s.cpu.request.requestType);
      if ClassifyWrite(c, mem, size, s.cpu.request.requestType).Pending? {
        var payload := CopyPayload(s.cpu.request.payload, size, mem).value;
        assert size >= 5 ==> payload[..5] == mem[..5];
      }
    }
  }

  lemma ReadEffect(c: Classifiers, t: Tables, ts: Timestamps, s: Step)
    requires s.ReadExit?
    ensures EffectMeans(t, s.now, ExitRead(c, t, ts, s.id, s.pidTgid, s.isTls, s.r, s.now, s.cpu, s.copies, s.recopies))
  {
    if s.id in t.activeReads && BytesRead(t.activeReads[s.id], s.r).Some? {
      var args := t.activeReads[s.id];
      var n := BytesRead(args, s.r).value;
      var (mem, size) := Resolve(s.r.src, n, args.iovlen, n, s.cpu.iovecBuf);
      HandleReadEffect(c, t.(activeReads := t.activeReads - {s.id}), ts, s,
                       Key(args.fd, PidOf(s.pidTgid), s.isTls, -1), mem, size);
    }
  }

  lemma ApplyEffect(c: Classifiers, t: Tables, ts: Timestamps, s: Step)
    ensures EffectMeans(t, NowOf(s), Apply(c, t, ts, s))
  {
    match s
    case Write(_, _, _, _, _, _, _, _) => WriteEffect(c, t, ts, s);
    case ReadExit(_, _, _, _, _, _, _, _) => ReadEffect(c, t, ts, s);
    case ReadEnter(_, _, _) =>
    case Evicts(_) =>
  }

  /** Event `e` answers the stored request `s`; a cut request reports at most 1023 bytes. */
  predicate Answers(e: Event, k: Key, s: Request, cut: bool, at: u64) {
    && e.fd == k.fd && e.pid == k.pid && e.protocol == s.protocol && e.op == MethodOf(s)
    && e.payloadSize == (if cut then Min(s.payloadSize, 1023) else s.payloadSize)
    && e.payload[..Min(s.payloadSize, 1023)] == Prefix(s)
    && e.duration == Sub64(at, s.ns)
  }

  /** The entry under `k` comes from a store of its own, unanswered so far and the first of those waiting. */
  predicate EntryOk(h: History, k: Key) {
    k in h.tables.pending && k in h.origin &&
    var o := h.origin[k].store;
    && o < |h.stored| && h.stored[o].key == k
    && Carries(h.tables.pending[k], h.stored[o].request, o in h.cut)
    && o !in h.answered
    && (h.tables.pending[k].partial <==> o in h.splits)
    && h.origin[k].waiting != [] && h.origin[k].waiting[0] == h.stored[o].request
  }

  predicate LiveOk(h: History, k: Key) {
    if k in h.tables.pending then EntryOk(h, k) else k !in h.origin
  }

  predicate EmissionOk(h: History, m: Emission) {
    && m.store < m.before <= |h.stored| && m.store in h.answered && h.stored[m.store].key == m.key
    && Answers(m.event, m.key, h.stored[m.store].request, m.store in h.cut, m.at)
    && (m.event.protocol == Cassandra <==> m.key.streamId != -1)
  }

  predicate StoredOk(h: History, i: nat)
    requires i < |h.stored|
  {
    Shape(h.stored[i].key, h.stored[i].request)
  }

  /** No mark was made for a store that did not happen yet. */
  ghost predicate MarksOk(h: History) {
    && (forall o :: o in h.answered ==> o < |h.stored|)
    && (forall o :: o in h.cut ==> o < |h.stored|)
    && (forall o :: o in h.splits ==> o in h.cut)
    && Distinct(h.splits)
  }

  ghost predicate Inv(h: History) {
    && (forall k :: LiveOk(h, k))
    && (forall i :: 0 <= i < |h.stored| ==> StoredOk(h, i))
    && (forall i :: 0 <= i < |h.emitted| ==> EmissionOk(h, h.emitted[i]))
    && (forall i, j :: 0 <= i < j < |h.emitted| ==> h.emitted[i].store != h.emitted[j].store)
    && MarksOk(h)
  }

  function Touched(o: Outcome, k: Key): Key {
    match o.effect
    case Attempt(k', _) => k'
    case Matched(k', _) => k'
    case Dropped(k') => k'
    case Split(k') => k'
    case Shrunk(k') => k'
    case _ => k
  }

  /** One step keeps the claim about one key; it may depend on the key the step touches. */
  lemma LiveStep(h: History, o: Outcome, now: u64, k: Key)
    requires EffectMeans(h.tables, now, o) && LiveOk(h, k) && LiveOk(h, Touched(o, k)) && MarksOk(h)
    ensures LiveOk(Remember(h, o), k)
  {
    var h' := Remember(h, o);
    if o.effect.Attempt? && k == o.effect.key && k !in h.tables.pending {
      assert |h.stored| !in h.splits;
    }
  }

  lemma EmissionStep(h: History, o: Outcome, now: u64, m: Emission)
    requires EffectMeans(h.tables, now, o) && EmissionOk(h, m)
    requires forall k :: LiveOk(h, k)
    ensures EmissionOk(Remember(h, o), m)
  {
    assert LiveOk(h, Touched(o, m.key));
  }

  lemma NewEmission(h: History, o: Outcome, now: u64)
    requires EffectMeans(h.tables, now, o) && o.effect.Matched? && LiveOk(h, o.effect.key)
    requires StoredOk(h, h.origin[o.effect.key].store)
    ensures EmissionOk(Remember(h, o), Emission(OriginOf(h, o.effect.key).store, o.effect.key, o.event.value, now, |h.stored|))
  {
    var k := o.effect.key;
    assert Prefix(h.tables.pending[k]) == Prefix(h.stored[h.origin[k].store].request);
  }

  lemma MarksStep(h: History, o: Outcome, now: u64)
    requires EffectMeans(h.tables, now, o) && MarksOk(h)
    requires forall k :: LiveOk(h, k)
    ensures MarksOk(Remember(h, o))
  {
    if o.effect.Matched? || o.effect.Split? || o.effect.Shrunk? {
      assert LiveOk(h, o.effect.key);
    }
  }

  lemma EmissionsStep(h: History, o: Outcome, now: u64)
    requires Inv(h) && EffectMeans(h.tables, now, o)
    ensures
      var h' := Remember(h, o);
      && (forall i :: 0 <= i < |h'.emitted| ==> EmissionOk(h', h'.emitted[i]))
      && (forall i, j :: 0 <= i < j < |h'.emitted| ==> h'.emitted[i].store != h'.emitted[j].store)
  {
    var h' := Remember(h, o);
    forall i | 0 <= i < |h'.emitted| ensures EmissionOk(h', h'.emitted[i]) {
      if i < |h.emitted| {
        EmissionStep(h, o, now, h.emitted[i]);
      } else {
        assert LiveOk(h, o.effect.key) && StoredOk(h, h.origin[o.effect.key].store);
        NewEmission(h, o, now);
      }
    }
    if o.effect.Matched? {
      assert LiveOk(h, o.effect.key);
    }
  }

  lemma InvStep(h: History, o: Outcome, now: u64)
    requires Inv(h) && EffectMeans(h.tables, now, o)
    ensures Inv(Remember(h, o))
  {
    var h' := Remember(h, o);
    EmissionsStep(h, o, now);
    MarksStep(h, o, now);
    forall k ensures LiveOk(h', k) {
      LiveStep(h, o, now, k);
    }
    forall i | 0 <= i < |h'.stored| ensures StoredOk(h', i) {
      assert i < |h.stored| ==> StoredOk(h, i);
    }
  }

  lemma {:induction false} RunInv(c: Classifiers, steps: seq<Timed>)
    ensures Inv(Run(c, steps))
  {
    if steps != [] {
      var h, s := Run(c, steps[..|steps| - 1]), steps[|steps| - 1];
      RunInv(c, steps[..|steps| - 1]);
      ApplyEffect(c, h.tables, s.ts, s.step);
      InvStep(h, Apply(c, h.tables, s.ts, s.step), NowOf(s.step));
    }
  }
}
