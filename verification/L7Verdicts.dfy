/** What decides an answer: which bytes answer which request, what the event then says, and when a request is settled. */
module L7Verdicts {
  import opened Bytes
  import opened Payload
  import opened Classifiers
  import opened L7
  import opened L7History
  import opened L7Provenance

  /** These bytes answer request `r`, stored under a key with this stream id, with this status and statement id. */
  predicate Replies(c: Classifiers, r: Request, streamId: int, mem: seq<byte>, size: nat, status: u32, statementId: u32) {
    match r.protocol
    case Http => c.isHttpResponse(mem) == Some(status) && statementId == 0
    case Postgres => c.isPostgresResponse(mem, size) == Some(status) && statementId == 0
    case Redis => c.isRedisResponse(mem, size) == Some(status) && statementId == 0
    case Memcached => c.isMemcachedResponse(mem, size) == Some(status) && statementId == 0
    case Mysql => IsMysqlResponse(mem, r.requestType) == Reply(status, statementId)
    case Mongo => IsMongoResponse(mem, size, r.partial) == Reply(status, statementId)
    case Kafka => IsKafkaResponse(mem, r.requestId) == Reply(status, statementId)
    case Cassandra => streamId != -1 && IsCassandraResponse(mem, size) == Some((streamId, status)) && statementId == 0
    case _ => false
  }

  /** A stream id marks a Cassandra request. */
  ghost predicate TagsOk(t: Tables) {
    forall k :: k in t.pending && k.streamId != -1 ==> t.pending[k].protocol == Cassandra
  }

  lemma TagsBefore(c: Classifiers, steps: seq<Timed>, n: nat)
    requires n <= |steps|
    ensures TagsOk(Before(c, steps, n).tables)
  {
    RunInv(c, steps[..n]);
    var h := Before(c, steps, n);
    forall k | k in h.tables.pending && k.streamId != -1 ensures h.tables.pending[k].protocol == Cassandra {
      assert LiveOk(h, k) && StoredOk(h, h.origin[k].store);
    }
  }

  predicate Answered(c: Classifiers, r: Request, streamId: int, mem: seq<byte>, size: nat) {
    exists status, statementId :: Replies(c, r, streamId, mem, size, status, statementId)
  }

  /** How a read settles the request it found: an event is sent exactly when the stored payload can be copied and the bytes
      answer the request, and it says what they say. The request is removed, unless the copy fails, or unless it is put
      back because the bytes are the first part of a Mongo answer. */
  ghost predicate Settles(c: Classifiers, pending: map<Key, Request>, k: Key, mem: seq<byte>, size: nat, copies: bool,
                          recopies: bool, o: Outcome)
    requires k in pending
  {
    var r := pending[k];
    && (o.event.Some? <==> copies && Answered(c, r, k.streamId, mem, size))
    && (o.event.Some? ==>
          && Replies(c, r, k.streamId, mem, size, o.event.value.status, o.event.value.statementId)
          && o.event.value.protocol == r.protocol)
    && if !copies then o.tables.pending == pending[k := r.(payloadSize := Min(r.payloadSize, 1023))]
       else if r.protocol == Mongo && !r.partial && size == 4 && recopies then
         k in o.tables.pending && o.tables.pending == pending[k := o.tables.pending[k]] && o.tables.pending[k].partial
       else o.tables.pending == pending - {k}
  }

  /** The verdict when no protocol applies stands for a Cassandra answer under this key. */
  predicate FallbackOk(t: Tables, k: Key, mem: seq<byte>, size: nat, response: Reply)
    requires k in t.pending
  {
    if k.streamId == -1 then response == NoReply
    else
      && t.pending[k].protocol == Cassandra && response.Reply? && response.statementId == 0
      && IsCassandraResponse(mem, size) == Some((k.streamId, response.status))
  }

  lemma Verdict(c: Classifiers, t: Tables, k: Key, mem: seq<byte>, size: nat, response: Reply)
    requires k in t.pending && FallbackOk(t, k, mem, size, response)
    ensures
      var r := t.pending[k];
      match Respond(c, r, mem, size, response)
      case Reply(status, statementId) => Replies(c, r, k.streamId, mem, size, status, statementId)
      case Partial => r.protocol == Mongo && !r.partial && size == 4 && !Answered(c, r, k.streamId, mem, size)
      case NoReply => !Answered(c, r, k.streamId, mem, size) && !(r.protocol == Mongo && !r.partial && size == 4)
  {
  }

  lemma AnswerSettles(c: Classifiers, t: Tables, ts: Timestamps, k: Key, mem: seq<byte>, size: nat, response: Reply, now: u64,
                      e: Event, heap: Request, copies: bool, recopies: bool)
    requires k in t.pending && FallbackOk(t, k, mem, size, response)
    ensures
      var o := Answer(c, t, ts, k, mem, size, response, now, e, heap, copies, recopies);
      Settles(c, t.pending, k, mem, size, copies, recopies, o)
  {
    Verdict(c, t, k, mem, size, response);
  }

  /** The key a read ends up with: its own, or with the stream id of a Cassandra answer. */
  function FoundKey(t: Tables, k: Key, mem: seq<byte>, size: nat): Option<Key> {
    if k in t.pending then Some(k)
    else
      match IsCassandraResponse(mem, size)
      case None => None
      case Some((streamId, _)) => if k.(streamId := streamId) in t.pending then Some(k.(streamId := streamId)) else None
  }

  /** A read of bytes that no consume classifier takes: it settles the request it finds, and otherwise passes on what looks
      like HTTP/2 frames of a server and is no Cassandra answer. */
  lemma ReadSettles(c: Classifiers, t: Tables, ts: Timestamps, k: Key, mem: seq<byte>, size: u64, now: u64, heap: Request,
                    event: Event, copies: bool, recopies: bool)
    requires k.streamId == -1 && TagsOk(t) && !c.isRabbitmqConsume(mem, size) && c.natsMethod(mem, size) != Consume
    ensures
      var o := HandleRead(c, t, ts, k, mem, size, now, heap, event, copies, recopies);
      match FoundKey(t, k, mem, size)
      case Some(found) => Settles(c, t.pending, found, mem, size, copies, recopies, o)
      case None =>
        && o.tables.pending == t.pending
        && (o.event.Some? <==>
              IsCassandraResponse(mem, size).None? && c.looksLikeHttp2Frame(mem, size, ServerFrames) && Min(size, 1023) <= |mem|)
        && (o.event.Some? ==> o.event.value.protocol == Http2)
  {
    var e := event.(fd := k.fd, pid := k.pid, protocol := Unknown, connectionTimestamp := 0,
                    status := STATUS_UNKNOWN, op := NoMethod, statementId := 0, payloadSize := 0);
    match FoundKey(t, k, mem, size)
    case None =>
    case Some(found) =>
      if found == k {
        AnswerSettles(c, t, ts, k, mem, size, NoReply, now, e, heap, copies, recopies);
      } else {
        var (streamId, status) := IsCassandraResponse(mem, size).value;
        AnswerSettles(c, t, ts, found, mem, size, Reply(status, 0), now, e.(status := status), heap, copies, recopies);
      }
  }

  lemma ConsumedFirst(c: Classifiers, t: Tables, ts: Timestamps, k: Key, mem: seq<byte>, size: u64, now: u64, heap: Request,
                      event: Event, copies: bool, recopies: bool)
    requires c.isRabbitmqConsume(mem, size) || c.natsMethod(mem, size) == Consume
    ensures
      var o := HandleRead(c, t, ts, k, mem, size, now, heap, event, copies, recopies);
      && o.tables == t && o.effect.Quiet? && o.event.Some? && o.event.value.op == Consume
      && o.event.value.protocol == if c.isRabbitmqConsume(mem, size) then Rabbitmq else Nats
  {
  }

  lemma MatchedKey(c: Classifiers, t: Tables, ts: Timestamps, k: Key, mem: seq<byte>, size: u64, now: u64, heap: Request,
                   event: Event, copies: bool, recopies: bool)
    requires HandleRead(c, t, ts, k, mem, size, now, heap, event, copies, recopies).effect.Matched?
    ensures
      var o := HandleRead(c, t, ts, k, mem, size, now, heap, event, copies, recopies);
      && o.event.Some? && FoundKey(t, k, mem, size) == Some(o.effect.key)
      && !c.isRabbitmqConsume(mem, size) && c.natsMethod(mem, size) != Consume
  {
  }

  /** The key a returning read looks up. */
  function KeyOf(t: Tables, s: Step): Key
    requires s.ReadExit? && s.id in t.activeReads
  {
    Key(t.activeReads[s.id].fd, PidOf(s.pidTgid), s.isTls, -1)
  }

  /** The step that sends a response event saw the answer to the request: its status and statement id are in the event. */
  lemma SendingStepSaw(c: Classifiers, steps: seq<Timed>, m: nat)
    requires Sends(c, steps, m)
    ensures
      var t, s, o := Before(c, steps, m).tables, steps[m].step, OutcomeOf(c, steps, m);
      var (mem, size) := BytesSeen(t, s);
      s.ReadExit? && o.effect.key in t.pending && o.event.Some? &&
      Replies(c, t.pending[o.effect.key], o.effect.key.streamId, mem, size, o.event.value.status, o.event.value.statementId)
  {
    TagsBefore(c, steps, m);
    var t, s := Before(c, steps, m).tables, steps[m].step;
    var (mem, size) := BytesSeen(t, s);
    MatchedKey(c, t.(activeReads := t.activeReads - {s.id}), steps[m].ts, KeyOf(t, s), mem, size, s.now, s.cpu.request,
               s.cpu.event, s.copies, s.recopies);
    ReadSettles(c, t.(activeReads := t.activeReads - {s.id}), steps[m].ts, KeyOf(t, s), mem, size, s.now, s.cpu.request,
                s.cpu.event, s.copies, s.recopies);
  }

  /** A read step gets to the lookup of the pending table with bytes that end there at this key. */
  predicate LooksUp(c: Classifiers, t: Tables, s: Step, k: Key) {
    s.ReadExit? && s.id in t.activeReads &&
    var (mem, size) := BytesSeen(t, s);
    && size != 0 && !c.isRabbitmqConsume(mem, size) && c.natsMethod(mem, size) != Consume
    && FoundKey(t, KeyOf(t, s), mem, size) == Some(k)
  }

  /** Over every run: the next read that looks up the key of a waiting request settles it. */
  lemma SettledByNextRead(c: Classifiers, steps: seq<Timed>, n: nat, k: Key)
    requires n < |steps| && LooksUp(c, Before(c, steps, n).tables, steps[n].step, k)
    ensures
      var t, s := Before(c, steps, n).tables, steps[n].step;
      var (mem, size) := BytesSeen(t, s);
      && k in t.pending && Settles(c, t.pending, k, mem, size, s.copies, s.recopies, OutcomeOf(c, steps, n))
  {
    TagsBefore(c, steps, n);
    var t, s := Before(c, steps, n).tables, steps[n].step;
    var (mem, size) := BytesSeen(t, s);
    ReadSettles(c, t.(activeReads := t.activeReads - {s.id}), steps[n].ts, KeyOf(t, s), mem, size, s.now, s.cpu.request,
                s.cpu.event, s.copies, s.recopies);
  }

  /** Over every run: the next read that looks up the key of a partial request removes it, and only it, exactly when its
      payload can be copied. */
  lemma PartialRetiredByNextRead(c: Classifiers, steps: seq<Timed>, n: nat, k: Key)
    requires n < |steps| && LooksUp(c, Before(c, steps, n).tables, steps[n].step, k)
    requires k in Before(c, steps, n).tables.pending && Before(c, steps, n).tables.pending[k].partial
    ensures
      var before, after := Before(c, steps, n).tables.pending, Before(c, steps, n + 1).tables.pending;
      (k !in after <==> steps[n].step.copies) && (steps[n].step.copies ==> after == before - {k})
  {
    SettledByNextRead(c, steps, n, k);
    OneStep(c, steps, n);
    TablesAfter(Before(c, steps, n), OutcomeOf(c, steps, n));
  }
}
