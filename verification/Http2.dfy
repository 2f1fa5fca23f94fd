/** `Http2Parser`: the frame loop, the table of active requests and its sweep. The HPACK decoder is any state machine. */
module Http2 {
  import opened Bytes

  const FRAME_HEADER_LENGTH := 9
  const HEADERS: byte := 1
  const GC_INTERVAL := 600_000_000_000
  const CLIENT_PREFACE := Ascii("PRI * HTTP/2.0\r\n\r\nSM\r\n\r\n")

  /** Which frames a payload holds: those of the client or those of the server. */
  datatype Side = Client | Server

  function Other(side: Side): Side {
    if side == Client then Server else Client
  }

  datatype Field = Field(name: Text, value: Text)

  /** A decoder is known by what was written to it so far. */
  type Decoder = seq<seq<byte>>

  /** One write to a decoder: the fields it emits and whether it succeeds. */
  datatype Written = Written(fields: seq<Field>, ok: bool)

  datatype Request = Request(verb: Text, path: Text, scheme: Text, status: int, duration: u64, kernelTime: u64)

  /** The two library parts: what a write does, which may depend on all writes before it, and `strconv.Atoi` with its
      error dropped. */
  datatype Library = Library(write: (Decoder, seq<byte>) -> Written, atoi: Text -> int)

  datatype FrameHeader = FrameHeader(length: nat, kind: byte, stream: u32)

  /** Bytes as a big-endian number. */
  function Number(b: seq<byte>): (r: nat)
    ensures |b| == 0 ==> r == 0
    ensures |b| <= 1 ==> r < 256
    ensures |b| <= 2 ==> r < TWO_16
    ensures |b| <= 3 ==> r < TWO_24
    ensures |b| <= 4 ==> r < TWO_32
  {
    if b == [] then 0 else 256 * Number(b[..|b| - 1]) + b[|b| - 1] as int
  }

  /** All bits but the top one. */
  function Low31(x: u32): (r: u32)
    ensures r < 0x8000_0000
  {
    if x < 0x8000_0000 then x else x - 0x8000_0000
  }

  function HeaderOf(b: seq<byte>): (h: FrameHeader)
    requires |b| >= FRAME_HEADER_LENGTH
    ensures h.length < TWO_24 && h.stream < 0x8000_0000
  {
    FrameHeader(Number(b[..3]), b[3], Low31(Number(b[5..9])))
  }

  /** A header block written to the decoder, with what came of it. */
  datatype Fed = Fed(stream: u32, block: seq<byte>, fields: seq<Field>, ok: bool)

  datatype FeedResult = FeedResult(decoder: Decoder, feds: seq<Fed>)

  /** One round of the loop: it ends, or goes on `n` bytes later after writing at most one block. */
  datatype Round = Stop | Go(n: nat, decoder: Decoder, feds: seq<Fed>)

  /** The round at the front of `rest`; after a failed write the loop goes on right behind the frame header. */
  function RoundOf(lib: Library, rest: seq<byte>, decoder: Decoder): (r: Round)
    ensures r.Go? ==> FRAME_HEADER_LENGTH <= r.n <= |rest| && |r.feds| <= 1
  {
    if |rest| < FRAME_HEADER_LENGTH then Stop
    else
      var h := HeaderOf(rest);
      var end := FRAME_HEADER_LENGTH + h.length;
      if h.kind != HEADERS then
        if |rest| < end then Stop else Go(end, decoder, [])
      else
        var block := rest[FRAME_HEADER_LENGTH..Min(end, |rest|)];
        var w := lib.write(decoder, block);
        Go(if w.ok then Min(end, |rest|) else FRAME_HEADER_LENGTH, decoder + [block], [Fed(h.stream, block, w.fields, w.ok)])
  }

  /** The frame loop on what is left of a payload. */
  function Feed(lib: Library, rest: seq<byte>, decoder: Decoder): FeedResult
    decreases |rest|
  {
    match RoundOf(lib, rest, decoder)
    case Stop => FeedResult(decoder, [])
    case Go(n, decoder', feds) =>
      var more := Feed(lib, rest[n..], decoder');
      FeedResult(more.decoder, feds + more.feds)
  }

  predicate IsHttpMethod(s: Text) {
    s in {Ascii("GET"), Ascii("HEAD"), Ascii("POST"), Ascii("PUT"), Ascii("PATCH"), Ascii("DELETE"), Ascii("CONNECT"),
          Ascii("OPTIONS"), Ascii("TRACE")}
  }

  predicate IsHttpPath(s: Text) {
    Ascii("/") <= s || s == Ascii("*")
  }

  predicate IsHttpScheme(s: Text) {
    s == Ascii("http") || s == Ascii("https")
  }

  /** The callback of a client header block. */
  function ApplyField(r: Request, f: Field): Request {
    if f.name == Ascii(":method") then
      if r.verb == [] && IsHttpMethod(f.value) then r.(verb := f.value) else r
    else if f.name == Ascii(":path") then
      if r.path == [] && IsHttpPath(f.value) then r.(path := f.value) else r
    else if f.name == Ascii(":scheme") then
      if r.scheme == [] && IsHttpScheme(f.value) then r.(scheme := f.value) else r
    else r
  }

  function ApplyFields(r: Request, fields: seq<Field>): Request {
    if fields == [] then r else ApplyField(ApplyFields(r, fields[..|fields| - 1]), fields[|fields| - 1])
  }

  /** The callback of a server header block: every status overwrites the one before. */
  function StatusAfter(lib: Library, status: int, fields: seq<Field>): int {
    if fields == [] then status
    else
      var f := fields[|fields| - 1];
      if f.name == Ascii(":status") then lib.atoi(f.value) else StatusAfter(lib, status, fields[..|fields| - 1])
  }

  type Active = map<u32, Request>

  function Registered(active: Active, stream: u32, now: u64): Request {
    if stream in active then active[stream] else Request([], [], [], 0, 0, now)
  }

  function RegisterOne(active: Active, fed: Fed, now: u64): Active {
    active[fed.stream := ApplyFields(Registered(active, fed.stream, now), fed.fields)]
  }

  /** What the client header blocks do to the active requests. */
  function Register(active: Active, feds: seq<Fed>, now: u64): Active {
    if feds == [] then active else RegisterOne(Register(active, feds[..|feds| - 1], now), feds[|feds| - 1], now)
  }

  type Statuses = map<u32, int>

  function StatusOne(lib: Library, statuses: Statuses, fed: Fed): Statuses {
    var before := if fed.stream in statuses then statuses[fed.stream] else 0;
    statuses[fed.stream := StatusAfter(lib, before, fed.fields)]
  }

  /** The statuses the server header blocks give. */
  function StatusesOf(lib: Library, feds: seq<Fed>): Statuses {
    if feds == [] then map[] else StatusOne(lib, StatusesOf(lib, feds[..|feds| - 1]), feds[|feds| - 1])
  }

  datatype State = State(clientDecoder: Decoder, serverDecoder: Decoder, active: Active, lastGcTime: u64)

  function Strip(side: Side, payload: seq<byte>): seq<byte> {
    if side == Client && CLIENT_PREFACE <= payload then payload[|CLIENT_PREFACE|..] else payload
  }

  /** An active request as it is reported when its status arrives. */
  function Completed(r: Request, status: int, now: u64): Request {
    r.(status := status, duration := Sub64(now, r.kernelTime))
  }

  /** The requests reported for those of the streams `done` that are active. */
  function Reports(active: Active, statuses: Statuses, now: u64, done: set<u32>): map<u32, Request> {
    map stream | stream in done && stream in statuses && stream in active :: Completed(active[stream], statuses[stream], now)
  }

  predicate Expired(r: Request, now: u64) {
    Sub64(now, r.kernelTime) > GC_INTERVAL
  }

  /** The sweep at the end of a call. */
  function Swept(active: Active, lastGcTime: u64, now: u64): Active {
    if Sub64(now, lastGcTime) > GC_INTERVAL && lastGcTime > 0 then
      map stream | stream in active && !Expired(active[stream], now) :: active[stream]
    else active
  }

  /** A call: the next state, and for each stream that was completed the request reported for it. */
  datatype Result = Result(state: State, reported: map<u32, Request>)

  function Parsed(lib: Library, p: State, side: Side, payload: seq<byte>, now: u64): Result {
    var rest := Strip(side, payload);
    if rest == [] then Result(p, map[])
    else
      var f := Feed(lib, rest, if side == Client then p.clientDecoder else p.serverDecoder);
      var active := if side == Client then Register(p.active, f.feds, now) else p.active;
      var statuses := if side == Client then map[] else StatusesOf(lib, f.feds);
      var reported := Reports(active, statuses, now, statuses.Keys);
      var left := active - statuses.Keys;
      Result(State(if side == Client then f.decoder else p.clientDecoder,
                   if side == Server then f.decoder else p.serverDecoder,
                   Swept(left, p.lastGcTime, now),
                   if Sub64(now, p.lastGcTime) > GC_INTERVAL then now else p.lastGcTime), reported)
  }

  datatype Call = Call(side: Side, payload: seq<byte>, now: u64)

  const INITIAL := State([], [], map[], 0)

  /** The parser after any calls. */
  function StateAfter(lib: Library, calls: seq<Call>): State {
    if calls == [] then INITIAL
    else
      var c := calls[|calls| - 1];
      Parsed(lib, StateAfter(lib, calls[..|calls| - 1]), c.side, c.payload, c.now).state
  }

  /** `res` lists the reported requests, in some order of their streams. */
  predicate Lists(res: seq<Request>, order: seq<u32>, reported: map<u32, Request>) {
    && Distinct(order) && |res| == |order|
    && (set s | s in order) == reported.Keys
    && forall i :: 0 <= i < |order| ==> order[i] in reported && res[i] == reported[order[i]]
  }

  lemma ListsOneMore(res: seq<Request>, order: seq<u32>, reported: map<u32, Request>, stream: u32, r: Request)
    requires Lists(res, order, reported) && stream !in reported
    ensures Lists(res + [r], order + [stream], reported[stream := r])
  {
    forall s ensures s in order + [stream] <==> s in reported[stream := r] {
      assert s in order <==> s in (set s | s in order);
    }
    forall i | 0 <= i < |order| ensures order[i] in reported {
    }
  }

  lemma ReportsOneMore(active: Active, statuses: Statuses, now: u64, done: set<u32>, stream: u32,
                       res: seq<Request>, order: seq<u32>)
    requires stream in statuses && stream !in done && Lists(res, order, Reports(active, statuses, now, done))
    ensures Lists(if stream in active then res + [Completed(active[stream], statuses[stream], now)] else res,
                  if stream in active then order + [stream] else order,
                  Reports(active, statuses, now, done + {stream}))
  {
    var reported := Reports(active, statuses, now, done);
    if stream in active {
      var r := Completed(active[stream], statuses[stream], now);
      assert Reports(active, statuses, now, done + {stream}) == reported[stream := r];
      ListsOneMore(res, order, reported, stream, r);
    } else {
      assert Reports(active, statuses, now, done + {stream}) == reported;
    }
  }

  class Http2Parser {
    const lib: Library
    var clientDecoder: Decoder
    var serverDecoder: Decoder
    var active: Active
    var lastGcTime: u64

    constructor (lib: Library)
      ensures this.lib == lib && View() == INITIAL
    {
      this.lib := lib;
      clientDecoder, serverDecoder := [], [];
      active := map[];
      lastGcTime := 0;
    }

    ghost function View(): State
      reads this
    {
      State(clientDecoder, serverDecoder, active, lastGcTime)
    }

    ghost function DecoderOf(side: Side): Decoder
      reads this
    {
      if side == Client then clientDecoder else serverDecoder
    }

    /** One header block: register or look up, decode, let the callback fill in. */
    method HandleHeaders(side: Side, stream: u32, block: seq<byte>, kernelTime: u64, statuses0: Statuses)
      returns (statuses: Statuses, ghost fed: Fed, ok: bool)
      modifies this`active, this`clientDecoder, this`serverDecoder
      ensures
        var w := lib.write(old(DecoderOf(side)), block);
        && fed == Fed(stream, block, w.fields, w.ok) && ok == w.ok && DecoderOf(side) == old(DecoderOf(side)) + [block]
        && (side == Client ==> serverDecoder == old(serverDecoder) && statuses == statuses0
                               && active == RegisterOne(old(active), fed, kernelTime))
        && (side == Server ==> clientDecoder == old(clientDecoder) && active == old(active)
                               && statuses == StatusOne(lib, statuses0, fed))
    {
      statuses := statuses0;
      match side {
        case Client =>
          if stream !in active {
            active := active[stream := Request([], [], [], 0, 0, kernelTime)];
          }
          var w := lib.write(clientDecoder, block);
          active := active[stream := ApplyFields(active[stream], w.fields)];
          clientDecoder := clientDecoder + [block];
          fed, ok := Fed(stream, block, w.fields, w.ok), w.ok;
        case Server =>
          if stream !in statuses {
            statuses := statuses[stream := 0];
          }
          var w := lib.write(serverDecoder, block);
          statuses := statuses[stream := StatusAfter(lib, statuses[stream], w.fields)];
          serverDecoder := serverDecoder + [block];
          fed, ok := Fed(stream, block, w.fields, w.ok), w.ok;
      }
    }

    /** The loop body: the round it takes, and what its block, if there is one, does to the tables. */
    method ReadFrame(side: Side, payload: seq<byte>, offset0: nat, kernelTime: u64, statuses0: Statuses)
      returns (offset: nat, statuses: Statuses, more: bool)
      requires offset0 <= |payload|
      modifies this`active, this`clientDecoder, this`serverDecoder
      ensures offset0 <= offset <= |payload|
      ensures
        match RoundOf(lib, payload[offset0..], old(DecoderOf(side)))
        case Stop => !more && View() == old(View()) && statuses == statuses0
        case Go(n, decoder', feds) =>
          && more && offset == offset0 + n && DecoderOf(side) == decoder'
          && DecoderOf(Other(side)) == old(DecoderOf(Other(side)))
          && active == (if side == Client && feds != [] then RegisterOne(old(active), feds[0], kernelTime) else old(active))
          && statuses == (if side == Server && feds != [] then StatusOne(lib, statuses0, feds[0]) else statuses0)
    {
      offset, statuses, more := offset0, statuses0, true;
      if |payload| - offset < FRAME_HEADER_LENGTH {
        return offset, statuses, false;
      }
      var h := HeaderOf(payload[offset..]);
      offset := offset + FRAME_HEADER_LENGTH;
      if h.kind != HEADERS {
        if |payload| - offset < h.length {
          return offset, statuses, false;
        }
        offset := offset + h.length;
        return;
      }
      var next := Min(offset + h.length, |payload|);
      assert payload[offset..next] == payload[offset0..][FRAME_HEADER_LENGTH..next - offset0];
      ghost var fed;
      var ok;
      statuses, fed, ok := HandleHeaders(side, h.stream, payload[offset..next], kernelTime, statuses);
      if ok {
        offset := next;
      }
    }

    /** What the tables hold once the blocks `feds` were handled, starting from `before`. */
    ghost predicate Handled(side: Side, before: State, feds: seq<Fed>, kernelTime: u64, statuses: Statuses)
      reads this
    {
      && lastGcTime == before.lastGcTime
      && (side == Client ==> serverDecoder == before.serverDecoder && statuses == map[]
                             && active == Register(before.active, feds, kernelTime))
      && (side == Server ==> clientDecoder == before.clientDecoder && active == before.active
                             && statuses == StatusesOf(lib, feds))
    }

    /** The frame loop: it stays in bounds and ends, as the offset grows by at least a frame header each time. */
    method ReadFrames(side: Side, payload: seq<byte>, kernelTime: u64) returns (statuses: Statuses)
      modifies this`active, this`clientDecoder, this`serverDecoder
      ensures
        var f := Feed(lib, payload, old(DecoderOf(side)));
        DecoderOf(side) == f.decoder && Handled(side, old(View()), f.feds, kernelTime, statuses)
    {
      statuses := map[];
      var offset, more := 0, true;
      ghost var goal, feds: seq<Fed> := Feed(lib, payload, DecoderOf(side)), [];
      assert payload[0..] == payload;
      while more
        invariant 0 <= offset <= |payload|
        invariant Handled(side, old(View()), feds, kernelTime, statuses)
        invariant more ==> goal.feds == feds + Feed(lib, payload[offset..], DecoderOf(side)).feds
        invariant more ==> goal.decoder == Feed(lib, payload[offset..], DecoderOf(side)).decoder
        invariant !more ==> goal == FeedResult(DecoderOf(side), feds)
        decreases |payload| - offset, more
      {
        ghost var rest := payload[offset..];
        ghost var round := RoundOf(lib, rest, DecoderOf(side));
        offset, statuses, more := ReadFrame(side, payload, offset, kernelTime, statuses);
        if round.Go? {
          assert payload[offset..] == rest[round.n..];
          Regroup(feds, round.feds, Feed(lib, rest[round.n..], round.decoder).feds);
          Appended(lib, old(active), feds, round.feds, kernelTime);
          feds := feds + round.feds;
        }
      }
    }

    /** The completion loop over the statuses, in any order. */
    method Complete(statuses: Statuses, kernelTime: u64) returns (res: seq<Request>, ghost order: seq<u32>)
      modifies this`active
      ensures active == old(active) - statuses.Keys
      ensures Lists(res, order, Reports(old(active), statuses, kernelTime, statuses.Keys))
    {
      res, order := [], [];
      var todo := statuses.Keys;
      ghost var before, done := active, {};
      while todo != {}
        invariant todo !! done && todo + done == statuses.Keys
        invariant active == before - done
        invariant Lists(res, order, Reports(before, statuses, kernelTime, done))
        decreases todo
      {
        var stream :| stream in todo;
        ReportsOneMore(before, statuses, kernelTime, done, stream, res, order);
        todo := todo - {stream};
        done := done + {stream};
        if stream in active {
          var r := active[stream].(status := statuses[stream]);
          r := r.(duration := Sub64(kernelTime, r.kernelTime));
          res, order := res + [r], order + [stream];
          active := active - {stream};
        }
      }
    }

    /** The sweep, in any order. */
    method CollectGarbage(kernelTime: u64)
      modifies this`active, this`lastGcTime
      ensures active == Swept(old(active), old(lastGcTime), kernelTime)
      ensures lastGcTime == if Sub64(kernelTime, old(lastGcTime)) > GC_INTERVAL then kernelTime else old(lastGcTime)
    {
      if Sub64(kernelTime, lastGcTime) > GC_INTERVAL {
        if lastGcTime > 0 {
          var todo := active.Keys;
          while todo != {}
            invariant todo <= old(active).Keys
            invariant active == map s | s in old(active) && (s in todo || !Expired(old(active)[s], kernelTime)) :: old(active)[s]
            decreases todo
          {
            var stream :| stream in todo;
            todo := todo - {stream};
            if Sub64(kernelTime, active[stream].kernelTime) > GC_INTERVAL {
              active := active - {stream};
            }
          }
        }
        lastGcTime := kernelTime;
      }
    }

    method Parse(side: Side, payload: seq<byte>, kernelTime: u64) returns (res: seq<Request>, ghost order: seq<u32>)
      modifies this
      ensures
        var r := Parsed(lib, old(View()), side, payload, kernelTime);
        View() == r.state && Lists(res, order, r.reported)
    {
      var rest := Strip(side, payload);
      if |rest| == 0 {
        return [], [];
      }
      var statuses := ReadFrames(side, rest, kernelTime);
      res, order := Complete(statuses, kernelTime);
      CollectGarbage(kernelTime);
    }
  }

  lemma Regroup(a: seq<Fed>, b: seq<Fed>, c: seq<Fed>)
    ensures a + (b + c) == a + b + c
  {
  }

  lemma Appended(lib: Library, active: Active, feds: seq<Fed>, more: seq<Fed>, now: u64)
    requires |more| <= 1
    ensures
      Register(active, feds + more, now)
        == if more == [] then Register(active, feds, now) else RegisterOne(Register(active, feds, now), more[0], now)
    ensures
      StatusesOf(lib, feds + more)
        == if more == [] then StatusesOf(lib, feds) else StatusOne(lib, StatusesOf(lib, feds), more[0])
  {
    if more == [] {
      assert feds + more == feds;
    } else {
      assert (feds + more)[..|feds|] == feds;
    }
  }
}
