/** The L7 case of the reader loop: what user space slices out of a perf record, and who gets it. */
module Reader {
  import opened Bytes
  import opened Payload
  import opened Classifiers
  import opened L7

  datatype RequestData = RequestData(protocol: Protocol, status: u32, duration: u64, op: Method, statementId: u32,
                                     payload: seq<byte>)

  const PRINTER_CHATTER := Ascii("CUPS/2.4.1")

  predicate Contains(s: seq<byte>, part: seq<byte>) {
    part <= s || (s != [] && Contains(s[1..], part))
  }

  /** The payload slice of a record; `tail` is what the record holds behind the event. */
  function Slice(e: Event, tail: seq<byte>): seq<byte> {
    var payload := e.payload + tail;
    if e.payloadSize == 0 then []
    else if e.payloadSize > MAX_PAYLOAD_SIZE then payload[..MAX_PAYLOAD_SIZE]
    else payload[..e.payloadSize]
  }

  /** The request that is passed on for a record, unless it is printer chatter. */
  function ReadRecord(e: Event, tail: seq<byte>): Option<RequestData> {
    var payload := Slice(e, tail);
    if Contains(payload, PRINTER_CHATTER) then None
    else Some(RequestData(e.protocol, e.status, e.duration, e.op, e.statementId, payload))
  }

  /** What user space calls an event; the types are numbered from 1, and type 0 is an event that was never filled in. */
  datatype UserEvent = UserEvent(kind: nat, pid: Pid, fd: u64, timestamp: u64, request: Option<RequestData>)

  const EMPTY_EVENT := UserEvent(0, 0, 0, 0, None)
  const L7_REQUEST := 10

  /** An event sent on a channel. */
  datatype Sent = Sent(channel: nat, event: UserEvent)

  function ChannelsOf(subscribers: map<nat, seq<nat>>, kind: nat): seq<nat> {
    if kind in subscribers then subscribers[kind] else []
  }

  function ToEach(channels: seq<nat>, event: UserEvent): seq<Sent> {
    seq(|channels|, i requires 0 <= i < |channels| => Sent(channels[i], event))
  }

  /** The bytes of `part` stand in `s` from position `i` on. */
  predicate StandsAt(s: seq<byte>, part: seq<byte>, i: nat) {
    i + |part| <= |s| && s[i..i + |part|] == part
  }

  lemma {:induction false} ContainsIff(s: seq<byte>, part: seq<byte>)
    ensures Contains(s, part) <==> exists i: nat :: StandsAt(s, part, i)
  {
    if part <= s {
      assert StandsAt(s, part, 0);
    } else if s != [] {
      ContainsIff(s[1..], part);
      forall i: nat | StandsAt(s, part, i) ensures i > 0 && StandsAt(s[1..], part, i - 1) {
        assert i > 0 ==> s[1..][i - 1..i - 1 + |part|] == s[i..i + |part|];
      }
      forall i: nat | StandsAt(s[1..], part, i) ensures StandsAt(s, part, i + 1) {
        assert s[1..][i..i + |part|] == s[i + 1..i + 1 + |part|];
      }
    }
  }

  /** A record is dropped exactly when the chatter stands somewhere in its payload; otherwise each field of the request is that of
      the event. */
  lemma RecordTold(e: Event, tail: seq<byte>)
    ensures
      match ReadRecord(e, tail)
      case None => exists i: nat :: StandsAt(Slice(e, tail), PRINTER_CHATTER, i)
      case Some(req) =>
        && (forall i: nat :: !StandsAt(Slice(e, tail), PRINTER_CHATTER, i))
        && req.payload == Slice(e, tail) && req.protocol == e.protocol && req.op == e.op
        && req.status == e.status && req.statementId == e.statementId && req.duration == e.duration
  {
    ContainsIff(Slice(e, tail), PRINTER_CHATTER);
  }

  /** What a round of the reader loop sends for a record, and what the rounds for some records send. */
  function RoundSends(channels: seq<nat>, e: Event, tail: seq<byte>): seq<Sent> {
    match ReadRecord(e, tail)
    case None => []
    case Some(req) => ToEach(channels, UserEvent(L7_REQUEST, e.pid, e.fd, e.connectionTimestamp, Some(req)))
  }

  function SentFor(channels: seq<nat>, records: seq<(Event, seq<byte>)>): seq<Sent> {
    if records == [] then []
    else
      var (e, tail) := records[|records| - 1];
      SentFor(channels, records[..|records| - 1]) + RoundSends(channels, e, tail)
  }

  /** What arrives on a channel. */
  function On(sent: seq<Sent>, channel: nat): seq<UserEvent> {
    if sent == [] then []
    else
      On(sent[..|sent| - 1], channel)
      + if sent[|sent| - 1].channel == channel then [sent[|sent| - 1].event] else []
  }

  lemma {:induction false} OnAppends(a: seq<Sent>, b: seq<Sent>, channel: nat)
    ensures On(a + b, channel) == On(a, channel) + On(b, channel)
    decreases |b|
  {
    if b == [] {
      assert a + b == a;
    } else {
      assert (a + b)[..|a + b| - 1] == a + b[..|b| - 1];
      OnAppends(a, b[..|b| - 1], channel);
    }
  }

  /** The requests among the records, in order. */
  function Passed(records: seq<(Event, seq<byte>)>): seq<UserEvent> {
    if records == [] then []
    else
      var (e, tail) := records[|records| - 1];
      Passed(records[..|records| - 1])
      + match ReadRecord(e, tail)
        case None => []
        case Some(req) => [UserEvent(L7_REQUEST, e.pid, e.fd, e.connectionTimestamp, Some(req))]
  }

  lemma {:induction false} NoneOn(channels: seq<nat>, event: UserEvent, channel: nat)
    requires channel !in channels
    ensures On(ToEach(channels, event), channel) == []
    decreases |channels|
  {
    if channels != [] {
      var front := channels[..|channels| - 1];
      assert ToEach(channels, event)[..|channels| - 1] == ToEach(front, event);
      NoneOn(front, event, channel);
    }
  }

  lemma {:induction false} OnceOn(channels: seq<nat>, event: UserEvent, channel: nat)
    requires Distinct(channels) && channel in channels
    ensures On(ToEach(channels, event), channel) == [event]
    decreases |channels|
  {
    var front := channels[..|channels| - 1];
    assert ToEach(channels, event)[..|channels| - 1] == ToEach(front, event);
    if channels[|channels| - 1] == channel {
      NoneOn(front, event, channel);
    } else {
      OnceOn(front, event, channel);
    }
  }

  /** Over any run of records each channel that subscribed once gets every request, once and in order, and nothing else. */
  lemma {:induction false} EachChannelGetsAll(channels: seq<nat>, records: seq<(Event, seq<byte>)>, channel: nat)
    requires Distinct(channels) && channel in channels
    ensures On(SentFor(channels, records), channel) == Passed(records)
  {
    if records != [] {
      var front := records[..|records| - 1];
      var (e, tail) := records[|records| - 1];
      EachChannelGetsAll(channels, front, channel);
      match ReadRecord(e, tail)
      case None => assert SentFor(channels, front) + [] == SentFor(channels, front);
      case Some(req) =>
        var event := UserEvent(L7_REQUEST, e.pid, e.fd, e.connectionTimestamp, Some(req));
        OnceOn(channels, event, channel);
        OnAppends(SentFor(channels, front), ToEach(channels, event), channel);
    }
  }

  class EbpfTracer {
    var subscribers: map<nat, seq<nat>>
    ghost var sent: seq<Sent>

    constructor ()
      ensures Valid() && subscribers == map[] && sent == []
    {
      subscribers, sent := map[], [];
    }

    /** Nobody subscribes to type 0, so that what the filter drops goes nowhere. */
    ghost predicate Valid()
      reads this
    {
      0 !in subscribers
    }

    method SubscribeEvents(kind: nat, channel: nat)
      requires Valid() && 1 <= kind <= L7_REQUEST
      modifies this`subscribers
      ensures Valid() && subscribers == old(subscribers)[kind := ChannelsOf(old(subscribers), kind) + [channel]]
    {
      if kind in subscribers {
        subscribers := subscribers[kind := subscribers[kind] + [channel]];
      } else {
        assert [] + [channel] == [channel];
        subscribers := subscribers[kind := [channel]];
      }
    }

    /** One round of the reader loop for an L7 record: every subscriber gets the request once, in order of subscription. */
    method ReadL7(e: Event, tail: seq<byte>)
      requires Valid()
      modifies this`sent
      ensures sent == old(sent) + RoundSends(ChannelsOf(subscribers, L7_REQUEST), e, tail)
    {
      var event := EMPTY_EVENT;
      var payload := [];
      if e.payloadSize == 0 {
      } else if e.payloadSize > MAX_PAYLOAD_SIZE {
        payload := (e.payload + tail)[..MAX_PAYLOAD_SIZE];
      } else {
        payload := (e.payload + tail)[..e.payloadSize];
      }
      if !Contains(payload, PRINTER_CHATTER) {
        var req := RequestData(e.protocol, e.status, e.duration, e.op, e.statementId, payload);
        event := UserEvent(L7_REQUEST, e.pid, e.fd, e.connectionTimestamp, Some(req));
      }
      if event.kind in subscribers {
        var channels := subscribers[event.kind];
        var i := 0;
        assert sent == sent + ToEach(channels[..0], event);
        while i < |channels|
          invariant 0 <= i <= |channels|
          invariant sent == old(sent) + ToEach(channels[..i], event)
        {
          sent := sent + [Sent(channels[i], event)];
          i := i + 1;
        }
        assert channels[..i] == channels;
      }
    }
  }
}
