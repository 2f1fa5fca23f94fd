/** What is left of a MySQL packet: never a panic, which text, and from a PREPARE to a later EXECUTE. */
module MysqlDelivery {
  import opened Bytes
  import opened Payload
  import opened Classifiers
  import opened L7
  import opened L7History
  import opened L7Provenance
  import opened L7Verdicts
  import opened Reader
  import opened Delivery
  import opened Statements
  import opened MysqlCommands
  import M = Mysql

  lemma FrontSurvives(p: seq<byte>, mem: seq<byte>, size: u64, cut: bool, stale: byte)
    requires IsMysqlQuery(mem, size, 0).0 && Delivers(p, mem, size, cut, stale)
    ensures |p| >= 5 && p[..5] == mem[..5] && p[..3] != [0, 0, 0]
  {
    var n := Min(size, 1023);
    assert p[..n][..5] == p[..5] && mem[..n][..5] == mem[..5];
    assert p[..5][..3] == mem[..5][..3] == [mem[0], mem[1], mem[2]];
    assert p[..5][..3] == p[..3];
  }

  /** The parser does not panic on what is left of an accepted packet. */
  lemma AcceptedNeverPanics(p: seq<byte>, mem: seq<byte>, size: u64, cut: bool, stale: byte, statementId: u32,
                            prepared: Option<Text>)
    requires IsMysqlQuery(mem, size, 0).0 && Delivers(p, mem, size, cut, stale)
    ensures M.Report(p, statementId, prepared) != M.Panic
  {
    FrontSurvives(p, mem, size, cut, stale);
    M.PanicIff(p, statementId, prepared);
  }

  lemma AnsweredMysqlAccepted(c: Classifiers, steps: seq<Timed>, i: nat, n: nat, m: nat)
    requires AnsweredLater(c, steps, i, n, m) && Run(c, steps).emitted[i].event.protocol == Mysql
    ensures OutcomeOf(c, steps, n).effect.request.protocol == Mysql
    ensures var (mem, size) := BytesSeen(Before(c, steps, n).tables, steps[n].step); IsMysqlQuery(mem, size, 0).0
  {
    StepEffect(c, steps, m);
    AnsweredIsStored(c, steps, i, n, m);
    MysqlWasAccepted(c, Before(c, steps, n).tables, steps[n].ts, steps[n].step);
  }

  lemma ResponsesNeverPanic(c: Classifiers, steps: seq<Timed>, i: nat, tail: seq<byte>, statementId: u32, prepared: Option<Text>)
    requires i < |Run(c, steps).emitted| && Run(c, steps).emitted[i].event.protocol == Mysql
    ensures M.Report(Slice(Run(c, steps).emitted[i].event, tail), statementId, prepared) != M.Panic
  {
    EventAfterItsWrite(c, steps, i);
    var n: nat, m: nat :| AnsweredLater(c, steps, i, n, m);
    DeliveredPayload(c, steps, i, n, m, tail);
    AnsweredMysqlAccepted(c, steps, i, n, m);
    var h := Run(c, steps);
    var (mem, size) := BytesSeen(Before(c, steps, n).tables, steps[n].step);
    AcceptedNeverPanics(Slice(h.emitted[i].event, tail), mem, size, h.emitted[i].store in h.cut, StaleByte(steps[m].step),
                        statementId, prepared);
  }

  /** Whatever the next step of any run sends as a MySQL event, in answer to a request or at once, the parser does not panic
      on it. */
  lemma MysqlNeverPanics(c: Classifiers, steps: seq<Timed>, s: Timed, tail: seq<byte>, statementId: u32, prepared: Option<Text>)
    requires var e := Apply(c, Run(c, steps).tables, s.ts, s.step).event; e.Some? && e.value.protocol == Mysql
    ensures
      var e := Apply(c, Run(c, steps).tables, s.ts, s.step).event.value;
      M.Report(Slice(e, tail), statementId, prepared) != M.Panic
  {
    var h := Run(c, steps);
    var o := Apply(c, h.tables, s.ts, s.step);
    ApplyEffect(c, h.tables, s.ts, s.step);
    if o.effect.Quiet? {
      OneWayPayload(c, h.tables, s.ts, s.step, tail);
      var (mem, size) := BytesSeen(h.tables, s.step);
      AcceptedNeverPanics(Slice(o.event.value, tail), mem, size, false, StaleByte(s.step), statementId, prepared);
    } else {
      assert (steps + [s])[..|steps|] == steps;
      assert Run(c, steps + [s]) == Remember(h, o);
      ResponsesNeverPanic(c, steps + [s], |h.emitted|, tail, statementId, prepared);
    }
  }

  /** The text of a packet of at least 9 bytes as it is read from what is delivered: the exact body up to 1023 bytes; beyond,
      the front of the body and the stale byte, with the marker exactly when the packet is over 1024 bytes. When the size was
      cut in place, the stale byte is not there, and the marker stands from 1024 bytes on. */
  function TextOf(mem: seq<byte>, size: u64, cut: bool, stale: byte): Text
    requires size >= 9 && Min(size, 1023) <= |mem|
  {
    if size <= 1023 then mem[5..size]
    else if cut then mem[5..1023] + MARKER
    else mem[5..1023] + [stale] + if size == 1024 then [] else MARKER
  }

  lemma TextDelivered(p: seq<byte>, mem: seq<byte>, size: u64, cut: bool, stale: byte)
    requires IsMysqlQuery(mem, size, 0).0 && size >= 9 && Delivers(p, mem, size, cut, stale)
    ensures |p| >= 9 && p[4] == mem[4] && M.ReadQuery(p) == Some(TextOf(mem, size, cut, stale))
  {
    FrontSurvives(p, mem, size, cut, stale);
    assert p[0] == p[..5][0] && p[1] == p[..5][1] && p[2] == p[..5][2] && p[4] == p[..5][4];
    var n := Min(size, 1023);
    assert p[5..n] == p[..n][5..] == mem[..n][5..] == mem[5..n];
    if |p| == 1024 {
      assert p[5..1024] == p[5..] == p[5..1023] + [p[1023]];
      assert mem[5..1023] + [stale] + [] == mem[5..1023] + [stale];
    } else {
      assert p[5..] == p[5..n];
    }
  }

  /** From the written packet to the reported text, when it was stored and answered. */
  lemma MysqlQueryEndToEnd(c: Classifiers, steps: seq<Timed>, i: nat, n: nat, m: nat, tail: seq<byte>, statementId: u32,
                           prepared: Option<Text>)
    requires AnsweredLater(c, steps, i, n, m)
    requires
      var (mem, size) := BytesSeen(Before(c, steps, n).tables, steps[n].step);
      IsMysqlQuery(mem, size, 0).0 && mem[4] == MYSQL_QUERY && size >= 9
    ensures
      var (mem, size) := BytesSeen(Before(c, steps, n).tables, steps[n].step);
      var h := Run(c, steps);
      && Min(size, 1023) <= |mem|
      && M.Report(Slice(h.emitted[i].event, tail), statementId, prepared)
           == M.Parsed(TextOf(mem, size, h.emitted[i].store in h.cut, StaleByte(steps[m].step)))
  {
    DeliveredPayload(c, steps, i, n, m, tail);
    var h := Run(c, steps);
    var (mem, size) := BytesSeen(Before(c, steps, n).tables, steps[n].step);
    TextDelivered(Slice(h.emitted[i].event, tail), mem, size, h.emitted[i].store in h.cut, StaleByte(steps[m].step));
  }

  /** The same when it was sent at once instead. */
  lemma MysqlQuerySentAtOnce(c: Classifiers, t: Tables, ts: Timestamps, s: Step, tail: seq<byte>, statementId: u32,
                             prepared: Option<Text>)
    requires s.Write? && Apply(c, t, ts, s).event.Some?
    requires
      var (mem, size) := BytesSeen(t, s);
      IsMysqlQuery(mem, size, 0).0 && mem[4] == MYSQL_QUERY && size >= 9
    ensures
      var (mem, size) := BytesSeen(t, s);
      && Min(size, 1023) <= |mem|
      && M.Report(Slice(Apply(c, t, ts, s).event.value, tail), statementId, prepared)
           == M.Parsed(TextOf(mem, size, false, StaleByte(s)))
  {
    AcceptedSentAtOnce(c, t, ts, s);
    OneWayPayload(c, t, ts, s, tail);
    var (mem, size) := BytesSeen(t, s);
    TextDelivered(Slice(Apply(c, t, ts, s).event.value, tail), mem, size, false, StaleByte(s));
  }

  /** The statement id an answer to PREPARE carries. */
  function IdInAnswer(answer: seq<byte>): Option<u32> {
    if |answer| >= 9 && answer[4] == 0 && U24LE(answer) != 1 then Some(U32LE(answer[5..9])) else None
  }

  lemma PrepareStored(c: Classifiers, t: Tables, ts: Timestamps, s: Step)
    requires s.Write? && Apply(c, t, ts, s).effect.Attempt? && Apply(c, t, ts, s).effect.request.protocol == Mysql
    requires var (mem, size) := BytesSeen(t, s); |mem| >= 5 && mem[4] == MYSQL_PREPARE
    ensures Apply(c, t, ts, s).effect.request.requestType == MYSQL_PREPARE
  {
    var (mem, size) := BytesSeen(t, s);
    ClassifiedShape(c, mem, size, s.cpu.request.requestType);
  }

  /** What the event of an answered PREPARE does in the parser: it prepares the written text under the id in the answer. */
  lemma PrepareEndToEnd(c: Classifiers, steps: seq<Timed>, i: nat, n: nat, m: nat, tail: seq<byte>)
    requires AnsweredLater(c, steps, i, n, m) && Run(c, steps).emitted[i].event.protocol == Mysql
    requires
      var (mem, size) := BytesSeen(Before(c, steps, n).tables, steps[n].step);
      |mem| >= 5 && mem[4] == MYSQL_PREPARE && size >= 9
    requires IdInAnswer(BytesSeen(Before(c, steps, m).tables, steps[m].step).0).Some?
    ensures
      var (mem, size) := BytesSeen(Before(c, steps, n).tables, steps[n].step);
      var id := IdInAnswer(BytesSeen(Before(c, steps, m).tables, steps[m].step).0).value;
      var h := Run(c, steps);
      var e := h.emitted[i].event;
      && e.statementId == id && Min(size, 1023) <= |mem|
      && M.EffectOf(Slice(e, tail), e.statementId)
           == M.Prepares(id, TextOf(mem, size, h.emitted[i].store in h.cut, StaleByte(steps[m].step)))
  {
    DeliveredPayload(c, steps, i, n, m, tail);
    AnsweredMysqlAccepted(c, steps, i, n, m);
    AnsweredIsStored(c, steps, i, n, m);
    PrepareStored(c, Before(c, steps, n).tables, steps[n].ts, steps[n].step);
    SendingStepSaw(c, steps, m);
    var h := Run(c, steps);
    var (mem, size) := BytesSeen(Before(c, steps, n).tables, steps[n].step);
    TextDelivered(Slice(h.emitted[i].event, tail), mem, size, h.emitted[i].store in h.cut, StaleByte(steps[m].step));
  }

  /** None of these packets prepares or closes statement `id`. */
  predicate LeaveAlone(packets: seq<(seq<byte>, u32)>, id: u32) {
    forall i :: 0 <= i < |packets| ==>
      match M.EffectOf(packets[i].0, packets[i].1)
      case Nothing => true
      case Prepares(other, _) => other != id
      case Closes(other) => other != id
  }

  lemma {:induction false} StaysPrepared(before: seq<(seq<byte>, u32)>, p: seq<byte>, id: u32, query: Text,
                                         between: seq<(seq<byte>, u32)>)
    requires M.EffectOf(p, id) == M.Prepares(id, query) && LeaveAlone(between, id)
    ensures M.Prepared(before + [(p, id)] + between, id) == Some(query)
  {
    var all := before + [(p, id)] + between;
    if between == [] {
      assert all[..|all| - 1] == before && all[|all| - 1] == (p, id);
    } else {
      var front := between[..|between| - 1];
      assert all[..|all| - 1] == before + [(p, id)] + front && all[|all| - 1] == between[|between| - 1];
      StaysPrepared(before, p, id, query, front);
    }
  }

  lemma StatementIdDelivered(p: seq<byte>, mem: seq<byte>, size: u64, cut: bool, stale: byte)
    requires size >= 9 && Delivers(p, mem, size, cut, stale)
    ensures |p| >= 9 && |mem| >= 9 && p[4] == mem[4] && M.ReadStatementId(p) == U32LE(mem[5..9])
  {
    var n := Min(size, 1023);
    assert p[..n][5..9] == p[5..9] && mem[..n][5..9] == mem[5..9];
    assert p[..n][4] == p[4] && mem[..n][4] == mem[4];
    assert p[5..][..4] == p[5..9];
    assert p[5..][0] == p[5..9][0] && p[5..][1] == p[5..9][1] && p[5..][2] == p[5..9][2] && p[5..][3] == p[5..9][3];
  }

  /** From a PREPARE and its answer to a later EXECUTE: when `execute` is what is delivered of a packet that executes the id in
      the answer, it is reported with the text written in the PREPARE, if no packet in between prepares or closes that id. */
  lemma ExecuteReportsPrepare(c: Classifiers, steps: seq<Timed>, i: nat, n: nat, m: nat, tail: seq<byte>,
                              before: seq<(seq<byte>, u32)>, between: seq<(seq<byte>, u32)>,
                              execute: seq<byte>, written: seq<byte>, length: u64, short: bool, stale: byte, sid: u32)
    requires AnsweredLater(c, steps, i, n, m) && Run(c, steps).emitted[i].event.protocol == Mysql
    requires
      var (mem, size) := BytesSeen(Before(c, steps, n).tables, steps[n].step);
      |mem| >= 5 && mem[4] == MYSQL_PREPARE && size >= 9
    requires IdInAnswer(BytesSeen(Before(c, steps, m).tables, steps[m].step).0).Some?
    requires length >= 9 && Delivers(execute, written, length, short, stale) && |written| >= 9 && written[4] == MYSQL_EXECUTE
    requires
      var id := IdInAnswer(BytesSeen(Before(c, steps, m).tables, steps[m].step).0).value;
      U32LE(written[5..9]) == id && LeaveAlone(between, id)
    ensures
      var (mem, size) := BytesSeen(Before(c, steps, n).tables, steps[n].step);
      var h := Run(c, steps);
      var e := h.emitted[i].event;
      var packets := before + [(Slice(e, tail), e.statementId)] + between;
      && Min(size, 1023) <= |mem| && |execute| >= 9
      && M.Report(execute, sid, M.Prepared(packets, M.ReadStatementId(execute)))
           == M.Parsed(TextOf(mem, size, h.emitted[i].store in h.cut, StaleByte(steps[m].step)))
  {
    StatementIdDelivered(execute, written, length, short, stale);
    PrepareEndToEnd(c, steps, i, n, m, tail);
    var (mem, size) := BytesSeen(Before(c, steps, n).tables, steps[n].step);
    var h := Run(c, steps);
    var e := h.emitted[i].event;
    StaysPrepared(before, Slice(e, tail), e.statementId,
                  TextOf(mem, size, h.emitted[i].store in h.cut, StaleByte(steps[m].step)), between);
  }

  /** From the write of a CLOSE packet to the parser: its event, sent at once, closes the statement named in the packet, so that
      it is unknown until a packet prepares it again. */
  lemma CloseEndToEnd(c: Classifiers, t: Tables, ts: Timestamps, s: Step, tail: seq<byte>,
                      before: seq<(seq<byte>, u32)>, between: seq<(seq<byte>, u32)>)
    requires s.Write? && Apply(c, t, ts, s).event.Some?
    requires
      var (mem, size) := BytesSeen(t, s);
      IsMysqlQuery(mem, size, 0).0 && mem[4] == MYSQL_CLOSE && size >= 9
    requires var (mem, _) := BytesSeen(t, s); |mem| >= 9 && PreparesNone(between, U32LE(mem[5..9]))
    ensures
      var (mem, _) := BytesSeen(t, s);
      var e, id := Apply(c, t, ts, s).event.value, U32LE(mem[5..9]);
      && M.EffectOf(Slice(e, tail), e.statementId) == M.Closes(id)
      && M.Prepared(before + [(Slice(e, tail), e.statementId)] + between, id) == None
  {
    AcceptedSentAtOnce(c, t, ts, s);
    OneWayPayload(c, t, ts, s, tail);
    var (mem, size) := BytesSeen(t, s);
    var e := Apply(c, t, ts, s).event.value;
    StatementIdDelivered(Slice(e, tail), mem, size, false, StaleByte(s));
    var packets := before + [(Slice(e, tail), e.statementId)];
    assert packets[..|before|] == before && packets[|packets| - 1] == (Slice(e, tail), e.statementId);
    StaysUnknown(packets, between, U32LE(mem[5..9]));
  }
}
