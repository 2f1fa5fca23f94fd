/** The frame loop refines a frame parser: from any cut of serialized frames the decoder gets exactly the HEADERS bodies. */
module Http2Frames {
  import opened Bytes
  import opened Http2

  /** A frame in the layout of section 4.1 of RFC 7540; the reserved bit is ignored by a receiver. */
  datatype Frame = Frame(kind: byte, flags: byte, reserved: bool, stream: u32, body: seq<byte>)

  predicate Valid(f: Frame) {
    f.stream < 0x8000_0000 && |f.body| < TWO_24
  }

  predicate AllValid(fs: seq<Frame>) {
    forall i :: 0 <= i < |fs| ==> Valid(fs[i])
  }

  /** The low `width` bytes of a number, big-endian. */
  function Digits(n: nat, width: nat): (s: seq<byte>)
    ensures |s| == width
    decreases width, n
  {
    if width == 0 then [] else Digits(n / 256, width - 1) + [n % 256]
  }

  function Serialize(f: Frame): (s: seq<byte>)
    requires Valid(f)
    ensures |s| == FRAME_HEADER_LENGTH + |f.body|
  {
    Digits(|f.body|, 3) + [f.kind, f.flags] + Digits(f.stream + if f.reserved then 0x8000_0000 else 0, 4) + f.body
  }

  function SerializeAll(fs: seq<Frame>): seq<byte>
    requires AllValid(fs)
  {
    if fs == [] then [] else Serialize(fs[0]) + SerializeAll(fs[1..])
  }

  /** What a frame of which `left` body bytes are there contributes to the reference. */
  function BlockOf(f: Frame, left: nat): seq<(u32, seq<byte>)> {
    if f.kind == HEADERS then [(f.stream, f.body[..Min(|f.body|, left)])] else []
  }

  /** The reference: the streams and bodies of the HEADERS frames among the first `k` bytes, the last body possibly cut.
      A frame of another kind that is cut ends the list. */
  function HeaderBlocks(fs: seq<Frame>, k: nat): seq<(u32, seq<byte>)> {
    if fs == [] || k < FRAME_HEADER_LENGTH then []
    else
      var f, left := fs[0], k - FRAME_HEADER_LENGTH;
      BlockOf(f, left) + if left < |f.body| then [] else HeaderBlocks(fs[1..], left - |f.body|)
  }

  /** What stands at the front of some bytes that are read as frames: a HEADERS frame up to byte `n`, cut or whole, another
      whole frame, or neither. */
  datatype Front = End | Other(n: nat) | Headers(stream: u32, n: nat)

  function FrontOf(x: seq<byte>): (r: Front)
    ensures !r.End? ==> FRAME_HEADER_LENGTH <= r.n <= |x|
  {
    if |x| < FRAME_HEADER_LENGTH then End
    else
      var h := HeaderOf(x);
      var end := FRAME_HEADER_LENGTH + h.length;
      if h.kind == HEADERS then Headers(h.stream, Min(end, |x|)) else if |x| < end then End else Other(end)
  }

  /** The header blocks of any bytes read as frames. */
  function Walk(x: seq<byte>): seq<(u32, seq<byte>)>
    decreases |x|
  {
    match FrontOf(x)
    case End => []
    case Other(n) => Walk(x[n..])
    case Headers(stream, n) => [(stream, x[FRAME_HEADER_LENGTH..n])] + Walk(x[n..])
  }

  function BlocksOf(feds: seq<Fed>): (r: seq<(u32, seq<byte>)>)
    ensures |r| == |feds|
  {
    seq(|feds|, i requires 0 <= i < |feds| => (feds[i].stream, feds[i].block))
  }

  function Bodies(blocks: seq<(u32, seq<byte>)>): (r: seq<seq<byte>>)
    ensures |r| == |blocks|
  {
    seq(|blocks|, i requires 0 <= i < |blocks| => blocks[i].1)
  }

  lemma DecodesPartsIff(lib: Library, decoder: Decoder, body: seq<byte>, more: seq<seq<byte>>)
    ensures Decodes(lib, decoder, [body] + more) <==> lib.write(decoder, body).ok && Decodes(lib, decoder + [body], more)
  {
    var all := [body] + more;
    assert decoder + all[..0] == decoder && all[0] == body;
    if lib.write(decoder, body).ok && Decodes(lib, decoder + [body], more) {
      forall i | 0 <= i < |all| ensures lib.write(decoder + all[..i], all[i]).ok {
        if i > 0 {
          assert decoder + all[..i] == decoder + [body] + more[..i - 1] && all[i] == more[i - 1];
        }
      }
    }
    if Decodes(lib, decoder, all) {
      forall i | 0 <= i < |more| ensures lib.write(decoder + [body] + more[..i], more[i]).ok {
        assert decoder + all[..i + 1] == decoder + [body] + more[..i] && all[i + 1] == more[i];
      }
    }
  }

  lemma BlocksAppend(a: seq<Fed>, b: seq<Fed>)
    ensures BlocksOf(a + b) == BlocksOf(a) + BlocksOf(b)
    ensures Bodies(BlocksOf(a + b)) == Bodies(BlocksOf(a)) + Bodies(BlocksOf(b))
  {
  }

  /** A decoder takes these blocks one after the other without an error. */
  predicate Decodes(lib: Library, decoder: Decoder, bodies: seq<seq<byte>>) {
    forall i :: 0 <= i < |bodies| ==> lib.write(decoder + bodies[..i], bodies[i]).ok
  }

  lemma LastDigit(n: nat, width: nat)
    requires width > 0
    ensures Number(Digits(n, width)) == 256 * Number(Digits(n / 256, width - 1)) + n % 256
  {
    var s := Digits(n, width);
    assert s[..width - 1] == Digits(n / 256, width - 1);
  }

  /** `limit` is 256 to the power of `width`. */
  predicate IsPower(limit: nat, width: nat)
    decreases width
  {
    if width == 0 then limit == 1 else limit % 256 == 0 && IsPower(limit / 256, width - 1)
  }

  lemma {:induction false} DigitsRoundTrip(n: nat, width: nat, limit: nat)
    requires IsPower(limit, width) && n < limit
    ensures Number(Digits(n, width)) == n
    decreases width
  {
    if width > 0 {
      var high, top := n / 256, limit / 256;
      assert limit == 256 * top && n == 256 * high + n % 256;
      DigitsRoundTrip(high, width - 1, top);
      LastDigit(n, width);
    }
  }

  /** `payload` is the first `k` bytes of `f` and `rest`. */
  predicate StartsWith(payload: seq<byte>, f: Frame, rest: seq<byte>, k: nat) {
    Valid(f) && FRAME_HEADER_LENGTH <= k <= |Serialize(f) + rest| && payload == (Serialize(f) + rest)[..k]
  }

  lemma HeaderRoundTrip(payload: seq<byte>, f: Frame, rest: seq<byte>, k: nat)
    requires StartsWith(payload, f, rest, k)
    ensures HeaderOf(payload) == FrameHeader(|f.body|, f.kind, f.stream)
  {
    var stream := f.stream + if f.reserved then 0x8000_0000 else 0;
    assert payload[..9] == Digits(|f.body|, 3) + [f.kind, f.flags] + Digits(stream, 4);
    assert payload[..3] == payload[..9][..3] == Digits(|f.body|, 3);
    assert payload[3] == payload[..9][3] == f.kind;
    assert payload[5..9] == payload[..9][5..] == Digits(stream, 4);
    DigitsRoundTrip(|f.body|, 3, TWO_24);
    DigitsRoundTrip(stream, 4, TWO_32);
  }

  lemma SlicesOfCut(head: seq<byte>, body: seq<byte>, rest: seq<byte>, k: nat, payload: seq<byte>)
    requires |head| <= k <= |head + body + rest| && payload == (head + body + rest)[..k]
    ensures
      var n := Min(|head + body|, k);
      payload[|head|..n] == body[..n - |head|] && (k >= |head + body| ==> payload[n..] == rest[..k - n])
  {
    var n := Min(|head + body|, k);
    assert payload[..n] == (head + body)[..n];
    assert payload[|head|..n] == payload[..n][|head|..] == body[..n - |head|];
  }

  lemma SlicesOfFrame(payload: seq<byte>, f: Frame, rest: seq<byte>, k: nat)
    requires StartsWith(payload, f, rest, k)
    ensures
      var n := Min(|Serialize(f)|, k);
      && payload[FRAME_HEADER_LENGTH..n] == f.body[..n - FRAME_HEADER_LENGTH]
      && (k >= |Serialize(f)| ==> payload[n..] == rest[..k - n])
  {
    var head := Serialize(f)[..FRAME_HEADER_LENGTH];
    assert Serialize(f) == head + f.body;
    SlicesOfCut(head, f.body, rest, k, payload);
  }

  /** The loop at a serialized frame: it skips it, or writes its body, cut or not. */
  lemma RoundAtFrame(lib: Library, payload: seq<byte>, f: Frame, rest: seq<byte>, k: nat, decoder: Decoder)
    requires StartsWith(payload, f, rest, k)
    ensures
      var left, n := k - FRAME_HEADER_LENGTH, Min(|Serialize(f)|, k);
      var block := f.body[..Min(|f.body|, left)];
      var w := lib.write(decoder, block);
      RoundOf(lib, payload, decoder)
        == if f.kind != HEADERS then if left < |f.body| then Stop else Go(n, decoder, [])
           else Go(if w.ok then n else FRAME_HEADER_LENGTH, decoder + [block], [Fed(f.stream, block, w.fields, w.ok)])
  {
    HeaderRoundTrip(payload, f, rest, k);
    SlicesOfFrame(payload, f, rest, k);
  }

  lemma FrontAtFrame(payload: seq<byte>, f: Frame, rest: seq<byte>, k: nat)
    requires StartsWith(payload, f, rest, k)
    ensures
      var left, n := k - FRAME_HEADER_LENGTH, Min(|Serialize(f)|, k);
      FrontOf(payload) == if f.kind == HEADERS then Headers(f.stream, n) else if left < |f.body| then End else Other(n)
  {
    HeaderRoundTrip(payload, f, rest, k);
  }

  lemma WalkAtFrame(payload: seq<byte>, f: Frame, rest: seq<byte>, k: nat)
    requires StartsWith(payload, f, rest, k)
    ensures
      var left, n := k - FRAME_HEADER_LENGTH, Min(|Serialize(f)|, k);
      Walk(payload) == BlockOf(f, left) + if left < |f.body| then [] else Walk(rest[..k - n])
  {
    FrontAtFrame(payload, f, rest, k);
    SlicesOfFrame(payload, f, rest, k);
    var n := Min(|Serialize(f)|, k);
    if k - FRAME_HEADER_LENGTH < |f.body| && f.kind == HEADERS {
      assert payload[n..] == [];
    }
  }

  /** `payload` is the first `k` bytes of serialized frames. */
  predicate IsCut(payload: seq<byte>, fs: seq<Frame>, k: nat) {
    AllValid(fs) && k <= |SerializeAll(fs)| && payload == SerializeAll(fs)[..k]
  }

  predicate Agree(payload: seq<byte>, fs: seq<Frame>, k: nat) {
    Walk(payload) == HeaderBlocks(fs, k)
  }

  lemma ShortAgrees(payload: seq<byte>, fs: seq<Frame>, k: nat)
    requires |payload| == k && (fs == [] || k < FRAME_HEADER_LENGTH) && (fs == [] ==> k == 0)
    ensures Agree(payload, fs, k)
  {
  }

  lemma FirstFrameOfCut(payload: seq<byte>, fs: seq<Frame>, k: nat)
    requires IsCut(payload, fs, k) && fs != [] && k >= FRAME_HEADER_LENGTH
    ensures StartsWith(payload, fs[0], SerializeAll(fs[1..]), k)
    ensures
      var left := k - FRAME_HEADER_LENGTH;
      left >= |fs[0].body| ==> IsCut(SerializeAll(fs[1..])[..left - |fs[0].body|], fs[1..], left - |fs[0].body|)
  {
  }

  lemma BlocksAgree(walk: seq<(u32, seq<byte>)>, fs: seq<Frame>, k: nat, more: seq<(u32, seq<byte>)>)
    requires fs != [] && k >= FRAME_HEADER_LENGTH && walk == BlockOf(fs[0], k - FRAME_HEADER_LENGTH) + more
    requires
      var left := k - FRAME_HEADER_LENGTH;
      more == if left < |fs[0].body| then [] else HeaderBlocks(fs[1..], left - |fs[0].body|)
    ensures walk == HeaderBlocks(fs, k)
  {
  }

  /** The reference and the walk agree on every cut of serialized frames. */
  lemma {:induction false} WalkIsReference(payload: seq<byte>, fs: seq<Frame>, k: nat)
    requires IsCut(payload, fs, k)
    ensures Agree(payload, fs, k)
    decreases |fs|
  {
    if fs == [] || k < FRAME_HEADER_LENGTH {
      ShortAgrees(payload, fs, k);
    } else {
      var rest, left := SerializeAll(fs[1..]), k - FRAME_HEADER_LENGTH;
      FirstFrameOfCut(payload, fs, k);
      WalkAtFrame(payload, fs[0], rest, k);
      if left >= |fs[0].body| {
        WalkIsReference(rest[..left - |fs[0].body|], fs[1..], left - |fs[0].body|);
        BlocksAgree(Walk(payload), fs, k, Walk(rest[..left - |fs[0].body|]));
      } else {
        BlocksAgree(Walk(payload), fs, k, []);
      }
    }
  }

  type Claim = (seq<byte>, Decoder, FeedResult) -> bool

  /** One round of the loop keeps a claim about what the loop does from there on. */
  predicate RoundKeeps(lib: Library, claim: Claim, rest: seq<byte>, decoder: Decoder) {
    match RoundOf(lib, rest, decoder)
    case Stop => claim(rest, decoder, FeedResult(decoder, []))
    case Go(n, decoder', feds) =>
      var more := Feed(lib, rest[n..], decoder');
      claim(rest[n..], decoder', more) ==> claim(rest, decoder, FeedResult(more.decoder, feds + more.feds))
  }

  /** Induction over the rounds of the loop. */
  lemma {:induction false} FeedInduction(lib: Library, claim: Claim, rest: seq<byte>, decoder: Decoder)
    requires forall r, d :: RoundKeeps(lib, claim, r, d)
    ensures claim(rest, decoder, Feed(lib, rest, decoder))
    decreases |rest|
  {
    assert RoundKeeps(lib, claim, rest, decoder);
    match RoundOf(lib, rest, decoder)
    case Stop =>
    case Go(n, decoder', feds) => FeedInduction(lib, claim, rest[n..], decoder');
  }

  predicate Writes(decoder: Decoder, f: FeedResult) {
    f.decoder == decoder + Bodies(BlocksOf(f.feds))
  }

  lemma RoundWrites(lib: Library, rest: seq<byte>, decoder: Decoder, more: FeedResult)
    ensures
      match RoundOf(lib, rest, decoder)
      case Stop => Writes(decoder, FeedResult(decoder, []))
      case Go(n, decoder', feds) => Writes(decoder', more) ==> Writes(decoder, FeedResult(more.decoder, feds + more.feds))
  {
    var round := RoundOf(lib, rest, decoder);
    if round.Go? {
      BlocksAppend(round.feds, more.feds);
      assert round.decoder == decoder + Bodies(BlocksOf(round.feds));
    }
  }

  /** Errors included, what is written to the decoder is what the loop says it fed. */
  lemma DecoderGetsBlocks(lib: Library, rest: seq<byte>, decoder: Decoder)
    ensures var f := Feed(lib, rest, decoder); f.decoder == decoder + Bodies(BlocksOf(f.feds))
  {
    var claim: Claim := (_, d: Decoder, f: FeedResult) => Writes(d, f);
    forall r: seq<byte>, d: Decoder ensures RoundKeeps(lib, claim, r, d) {
      var round := RoundOf(lib, r, d);
      if round.Go? {
        RoundWrites(lib, r, d, Feed(lib, r[round.n..], round.decoder));
      }
    }
    FeedInduction(lib, claim, rest, decoder);
    assert Writes(decoder, Feed(lib, rest, decoder));
  }

  /** What the calls of one side write to its decoder, told without the calls of the other side. */
  function WrittenBy(lib: Library, calls: seq<Call>, side: Side): Decoder {
    if calls == [] then []
    else
      var c, before := calls[|calls| - 1], WrittenBy(lib, calls[..|calls| - 1], side);
      if c.side != side then before else before + Bodies(BlocksOf(Feed(lib, Strip(side, c.payload), before).feds))
  }

  lemma OneCallWrites(lib: Library, p: State, c: Call)
    ensures
      var q := Parsed(lib, p, c.side, c.payload, c.now).state;
      var rest := Strip(c.side, c.payload);
      && (c.side == Client ==>
            q.serverDecoder == p.serverDecoder
            && q.clientDecoder == p.clientDecoder + Bodies(BlocksOf(Feed(lib, rest, p.clientDecoder).feds)))
      && (c.side == Server ==>
            q.clientDecoder == p.clientDecoder
            && q.serverDecoder == p.serverDecoder + Bodies(BlocksOf(Feed(lib, rest, p.serverDecoder).feds)))
  {
    DecoderGetsBlocks(lib, Strip(c.side, c.payload), if c.side == Client then p.clientDecoder else p.serverDecoder);
  }

  /** Over every run each decoder gets what the frames of its own side feed it, in order, and nothing else. */
  lemma {:induction false} DecodersNeverMix(lib: Library, calls: seq<Call>)
    ensures StateAfter(lib, calls).clientDecoder == WrittenBy(lib, calls, Client)
    ensures StateAfter(lib, calls).serverDecoder == WrittenBy(lib, calls, Server)
  {
    if calls != [] {
      DecodersNeverMix(lib, calls[..|calls| - 1]);
      OneCallWrites(lib, StateAfter(lib, calls[..|calls| - 1]), calls[|calls| - 1]);
    }
  }

  lemma RoundAtFront(lib: Library, x: seq<byte>, decoder: Decoder)
    ensures
      match FrontOf(x)
      case End => RoundOf(lib, x, decoder) == Stop
      case Other(n) => RoundOf(lib, x, decoder) == Go(n, decoder, [])
      case Headers(stream, n) =>
        var block := x[FRAME_HEADER_LENGTH..n];
        var w := lib.write(decoder, block);
        RoundOf(lib, x, decoder)
          == Go(if w.ok then n else FRAME_HEADER_LENGTH, decoder + [block], [Fed(stream, block, w.fields, w.ok)])
  {
  }

  /** The first HEADERS body that the decoder does not take: the body, what follows it, and the decoder after it. */
  datatype Failure = Failure(block: seq<byte>, rest: seq<byte>, decoder: Decoder)

  function FirstFailure(lib: Library, x: seq<byte>, decoder: Decoder): Option<Failure>
    decreases |x|
  {
    match FrontOf(x)
    case End => None
    case Other(n) => FirstFailure(lib, x[n..], decoder)
    case Headers(_, n) =>
      var block := x[FRAME_HEADER_LENGTH..n];
      if lib.write(decoder, block).ok then FirstFailure(lib, x[n..], decoder + [block])
      else Some(Failure(block, x[n..], decoder + [block]))
  }

  /** The header blocks up to and with the first one that fails. */
  function UpToFailure(lib: Library, x: seq<byte>, decoder: Decoder): seq<(u32, seq<byte>)>
    decreases |x|
  {
    match FrontOf(x)
    case End => []
    case Other(n) => UpToFailure(lib, x[n..], decoder)
    case Headers(stream, n) =>
      var block := x[FRAME_HEADER_LENGTH..n];
      [(stream, block)] + if lib.write(decoder, block).ok then UpToFailure(lib, x[n..], decoder + [block]) else []
  }

  lemma {:induction false} NoFailureIff(lib: Library, x: seq<byte>, decoder: Decoder)
    ensures FirstFailure(lib, x, decoder).None? <==> Decodes(lib, decoder, Bodies(Walk(x)))
    decreases |x|
  {
    match FrontOf(x)
    case End =>
    case Other(n) => NoFailureIff(lib, x[n..], decoder);
    case Headers(stream, n) =>
      var block := x[FRAME_HEADER_LENGTH..n];
      var more := Walk(x[n..]);
      NoFailureIff(lib, x[n..], decoder + [block]);
      assert Bodies([(stream, block)] + more) == [block] + Bodies(more);
      DecodesPartsIff(lib, decoder, block, Bodies(more));
  }

  lemma {:induction false} WalkParts(lib: Library, x: seq<byte>, decoder: Decoder)
    ensures
      Walk(x) == UpToFailure(lib, x, decoder)
                 + match FirstFailure(lib, x, decoder) case None => [] case Some(failed) => Walk(failed.rest)
    decreases |x|
  {
    match FrontOf(x)
    case End =>
    case Other(n) => WalkParts(lib, x[n..], decoder);
    case Headers(_, n) => WalkParts(lib, x[n..], decoder + [x[FRAME_HEADER_LENGTH..n]]);
  }

  /** What the loop feeds from the first failed write on: the failed body and what follows it, read as frames. */
  function Reread(lib: Library, failed: Failure): seq<(u32, seq<byte>)> {
    BlocksOf(Feed(lib, failed.block + failed.rest, failed.decoder).feds)
  }

  /** The loop feeds the header blocks up to the first failed write, and then rereads. */
  predicate FeedsParts(lib: Library, x: seq<byte>, decoder: Decoder, f: FeedResult) {
    BlocksOf(f.feds) == UpToFailure(lib, x, decoder)
                        + match FirstFailure(lib, x, decoder) case None => [] case Some(failed) => Reread(lib, failed)
  }

  lemma SkippedFeedsParts(lib: Library, x: seq<byte>, decoder: Decoder, more: FeedResult)
    requires FrontOf(x).Other? && FeedsParts(lib, x[FrontOf(x).n..], decoder, more)
    ensures FeedsParts(lib, x, decoder, FeedResult(more.decoder, [] + more.feds))
  {
    assert [] + more.feds == more.feds;
  }

  lemma WrittenFeedsParts(lib: Library, x: seq<byte>, decoder: Decoder, block: seq<byte>, more: FeedResult)
    requires FrontOf(x).Headers? && block == x[FRAME_HEADER_LENGTH..FrontOf(x).n] && lib.write(decoder, block).ok
    requires FeedsParts(lib, x[FrontOf(x).n..], decoder + [block], more)
    ensures
      var fed := Fed(FrontOf(x).stream, block, lib.write(decoder, block).fields, true);
      FeedsParts(lib, x, decoder, FeedResult(more.decoder, [fed] + more.feds))
  {
    BlocksAppend([Fed(FrontOf(x).stream, block, lib.write(decoder, block).fields, true)], more.feds);
  }

  lemma FailsFirst(lib: Library, x: seq<byte>, decoder: Decoder, block: seq<byte>)
    requires FrontOf(x).Headers? && block == x[FRAME_HEADER_LENGTH..FrontOf(x).n] && !lib.write(decoder, block).ok
    ensures FirstFailure(lib, x, decoder) == Some(Failure(block, x[FrontOf(x).n..], decoder + [block]))
    ensures UpToFailure(lib, x, decoder) == [(FrontOf(x).stream, block)]
    ensures block + x[FrontOf(x).n..] == x[FRAME_HEADER_LENGTH..]
  {
  }

  lemma FailedFeedsParts(lib: Library, x: seq<byte>, decoder: Decoder, block: seq<byte>, more: FeedResult)
    requires FrontOf(x).Headers? && block == x[FRAME_HEADER_LENGTH..FrontOf(x).n] && !lib.write(decoder, block).ok
    requires more == Feed(lib, x[FRAME_HEADER_LENGTH..], decoder + [block])
    ensures
      var fed := Fed(FrontOf(x).stream, block, lib.write(decoder, block).fields, false);
      FeedsParts(lib, x, decoder, FeedResult(more.decoder, [fed] + more.feds))
  {
    FailsFirst(lib, x, decoder, block);
    BlocksAppend([Fed(FrontOf(x).stream, block, lib.write(decoder, block).fields, false)], more.feds);
  }

  lemma RoundFeedsParts(lib: Library, x: seq<byte>, decoder: Decoder)
    ensures RoundKeeps(lib, (r: seq<byte>, d: Decoder, f: FeedResult) => FeedsParts(lib, r, d, f), x, decoder)
  {
    RoundAtFront(lib, x, decoder);
    var round := RoundOf(lib, x, decoder);
    if round.Go? {
      var more := Feed(lib, x[round.n..], round.decoder);
      if FeedsParts(lib, x[round.n..], round.decoder, more) {
        if FrontOf(x).Other? {
          SkippedFeedsParts(lib, x, decoder, more);
        } else if round.feds[0].ok {
          WrittenFeedsParts(lib, x, decoder, round.feds[0].block, more);
        } else {
          FailedFeedsParts(lib, x, decoder, round.feds[0].block, more);
        }
      }
    }
  }

  /** On any bytes the loop feeds the header blocks up to the first failed write. That body is not skipped: it and what
      follows are read as frames. */
  lemma FailedWriteRereadsBody(lib: Library, x: seq<byte>, decoder: Decoder)
    ensures FeedsParts(lib, x, decoder, Feed(lib, x, decoder))
  {
    var claim: Claim := (r: seq<byte>, d: Decoder, f: FeedResult) => FeedsParts(lib, r, d, f);
    forall r: seq<byte>, d: Decoder ensures RoundKeeps(lib, claim, r, d) {
      RoundFeedsParts(lib, r, d);
    }
    FeedInduction(lib, claim, x, decoder);
  }

  /** On any bytes whose header blocks the decoder takes, the loop writes exactly these. */
  lemma FeedIsWalk(lib: Library, x: seq<byte>, decoder: Decoder)
    requires Decodes(lib, decoder, Bodies(Walk(x)))
    ensures BlocksOf(Feed(lib, x, decoder).feds) == Walk(x)
  {
    NoFailureIff(lib, x, decoder);
    WalkParts(lib, x, decoder);
    FailedWriteRereadsBody(lib, x, decoder);
  }

  /** The frame loop on a cut of serialized frames, when no write fails. */
  lemma FeedRefines(lib: Library, payload: seq<byte>, fs: seq<Frame>, k: nat, decoder: Decoder)
    requires IsCut(payload, fs, k) && Decodes(lib, decoder, Bodies(HeaderBlocks(fs, k)))
    ensures BlocksOf(Feed(lib, payload, decoder).feds) == HeaderBlocks(fs, k)
  {
    WalkIsReference(payload, fs, k);
    FeedIsWalk(lib, payload, decoder);
  }

  predicate BothNothing(x: seq<byte>, f: FeedResult) {
    f.feds == [] <==> Walk(x) == []
  }

  lemma FeedsNothingIff(lib: Library, x: seq<byte>, decoder: Decoder)
    ensures BothNothing(x, Feed(lib, x, decoder))
  {
    var claim: Claim := (r: seq<byte>, _, f: FeedResult) => BothNothing(r, f);
    forall r: seq<byte>, d: Decoder ensures RoundKeeps(lib, claim, r, d) {
      RoundAtFront(lib, r, d);
    }
    FeedInduction(lib, claim, x, decoder);
  }

  lemma FailureParts(lib: Library, x: seq<byte>, decoder: Decoder, failed: Failure)
    requires FirstFailure(lib, x, decoder) == Some(failed)
    ensures BlocksOf(Feed(lib, x, decoder).feds) == Walk(x) <==> Reread(lib, failed) == Walk(failed.rest)
  {
    WalkParts(lib, x, decoder);
    FailedWriteRereadsBody(lib, x, decoder);
    var before, reread, wanted := UpToFailure(lib, x, decoder), Reread(lib, failed), Walk(failed.rest);
    assert (before + reread)[|before|..] == reread && (before + wanted)[|before|..] == wanted;
  }

  /** When a failed write is harmless. The failed body is not skipped: it and what follows are read as frames, and that must
      give exactly the header blocks of what follows. If nothing fails from there on, or if no header block follows, this
      is a matter of the bytes alone. */
  lemma ErrorHarmlessIff(lib: Library, x: seq<byte>, decoder: Decoder, failed: Failure)
    requires FirstFailure(lib, x, decoder) == Some(failed)
    ensures
      var reread := failed.block + failed.rest;
      var harmless := BlocksOf(Feed(lib, x, decoder).feds) == Walk(x);
      && (harmless <==> BlocksOf(Feed(lib, reread, failed.decoder).feds) == Walk(failed.rest))
      && (Decodes(lib, failed.decoder, Bodies(Walk(reread))) ==> (harmless <==> Walk(reread) == Walk(failed.rest)))
      && (Walk(failed.rest) == [] ==> (harmless <==> Walk(reread) == []))
  {
    var reread := failed.block + failed.rest;
    FailureParts(lib, x, decoder, failed);
    FeedsNothingIff(lib, reread, failed.decoder);
    if Decodes(lib, failed.decoder, Bodies(Walk(reread))) {
      FeedIsWalk(lib, reread, failed.decoder);
    }
  }

  /** These bytes read as whole frames of other kinds. */
  predicate IsSkipped(x: seq<byte>)
    decreases |x|
  {
    x == [] || (FrontOf(x).Other? && IsSkipped(x[FrontOf(x).n..]))
  }

  lemma {:induction false} SkippedBeforeRest(x: seq<byte>, rest: seq<byte>)
    requires IsSkipped(x)
    ensures Walk(x + rest) == Walk(rest)
    decreases |x|
  {
    if x == [] {
      assert x + rest == rest;
    } else {
      var n := FrontOf(x).n;
      assert (x + rest)[..3] == x[..3] && (x + rest)[5..9] == x[5..9];
      assert (x + rest)[n..] == x[n..] + rest;
      SkippedBeforeRest(x[n..], rest);
    }
  }

  /** Two harmless bodies: one that reads as whole frames of other kinds, before frames that decode, and a last one shorter than
      a frame header. The nine bytes [0, 0, 0, 0x80, 0, 0, 0, 0, 0] are of the first sort: a literal field and then the
      indexed field 0, or an empty frame of kind 0x80. */
  lemma HarmlessBodies(lib: Library, x: seq<byte>, decoder: Decoder, failed: Failure)
    requires FirstFailure(lib, x, decoder) == Some(failed)
    requires (IsSkipped(failed.block) && Decodes(lib, failed.decoder, Bodies(Walk(failed.rest))))
          || (failed.rest == [] && |failed.block| < FRAME_HEADER_LENGTH)
    ensures BlocksOf(Feed(lib, x, decoder).feds) == Walk(x)
  {
    ErrorHarmlessIff(lib, x, decoder, failed);
    if failed.rest == [] && |failed.block| < FRAME_HEADER_LENGTH {
      assert failed.block + [] == failed.block;
      assert Walk(failed.block) == [] == Walk([]);
    } else {
      SkippedBeforeRest(failed.block, failed.rest);
    }
  }

  lemma HarmlessExample()
    ensures IsSkipped([0, 0, 0, 0x80, 0, 0, 0, 0, 0])
  {
    var x: seq<byte> := [0, 0, 0, 0x80, 0, 0, 0, 0, 0];
    assert x[..3] == [0, 0, 0] && x[9..] == [];
    NumberOfThree(0, 0, 0);
  }

  /** The header of a HEADERS frame on stream 3, whose length has this first byte. */
  function HeaderOnStream3(a: byte): seq<byte> {
    [a, 0, 0, 1, 0, 0, 0, 0, 3]
  }

  lemma HeaderOnStream3Front(a: byte, x: seq<byte>)
    requires x == HeaderOnStream3(a)
    ensures FrontOf(x) == Headers(3, FRAME_HEADER_LENGTH)
  {
    NumberOfThree(a, 0, 0);
    NumberOfThree(0, 0, 0);
    assert x[..3] == [a, 0, 0] && x[5..9] == [0, 0, 0, 3];
    assert Number(x[5..9]) == 3 by {
      assert x[5..9][..3] == [0, 0, 0];
    }
  }

  /** Alone it makes the loop write an empty block of stream 3, whatever the length says. */
  lemma HeaderOnStream3Feeds(lib: Library, a: byte, x: seq<byte>, decoder: Decoder)
    requires x == HeaderOnStream3(a)
    ensures BlocksOf(Feed(lib, x, decoder).feds) == [(3, [])]
  {
    HeaderOnStream3Front(a, x);
    RoundAtFront(lib, x, decoder);
    assert x[FRAME_HEADER_LENGTH..] == [] && x[9..9] == [];
  }

  lemma LoneFailure(lib: Library, f: Frame, payload: seq<byte>)
    requires Valid(f) && f.kind == HEADERS && !lib.write([], f.body).ok && payload == SerializeAll([f])
    ensures HeaderBlocks([f], |payload|) == [(f.stream, f.body)]
    ensures FirstFailure(lib, payload, []) == Some(Failure(f.body, [], [f.body]))
    ensures UpToFailure(lib, payload, []) == [(f.stream, f.body)]
  {
    assert payload == Serialize(f) + [] == payload[..|payload|] && f.body[..|f.body|] == f.body;
    FrontAtFrame(payload, f, [], |payload|);
    SlicesOfFrame(payload, f, [], |payload|);
    assert [] + [f.body] == [f.body] && payload[|payload|..] == [];
  }

  /** A harmful one: a HEADERS frame on stream 1 whose body begins with the indexed field 0, a decoding error by section 6.1 of
      RFC 7541, and looks like the header of a HEADERS frame on stream 3. The decoder is then written an empty block of
      stream 3 that nobody sent. */
  lemma ErrorFeedsWrongBlocks(lib: Library, fs: seq<Frame>)
    requires !lib.write([], HeaderOnStream3(0x80)).ok && fs == [Frame(HEADERS, 0, false, 1, HeaderOnStream3(0x80))]
    ensures
      && HeaderBlocks(fs, |SerializeAll(fs)|) == [(1, HeaderOnStream3(0x80))]
      && BlocksOf(Feed(lib, SerializeAll(fs), []).feds) == [(1, HeaderOnStream3(0x80)), (3, [])]
  {
    var body := fs[0].body;
    LoneFailure(lib, fs[0], SerializeAll(fs));
    FailedWriteRereadsBody(lib, SerializeAll(fs), []);
    assert body + [] == body;
    HeaderOnStream3Feeds(lib, 0x80, body, [body]);
  }

  lemma NumberOfThree(a: byte, b: byte, c: byte)
    ensures Number([a, b, c]) == 65536 * a + 256 * b + c
  {
    var s := [a, b, c];
    assert s[..2] == [a, b] && s[..2][..1] == [a];
    assert Number(s[..2]) == 256 * Number(s[..2][..1]) + b;
    assert Number([a]) == a by {
      assert [a][..0] == [];
    }
  }

  lemma PrefaceBytes()
    ensures |CLIENT_PREFACE| == 24
    ensures CLIENT_PREFACE[0] == 80 && CLIENT_PREFACE[1] == 82 && CLIENT_PREFACE[2] == 73 && CLIENT_PREFACE[3] == 32
  {
    var s := "PRI * HTTP/2.0\r\n\r\nSM\r\n\r\n";
    assert s[0] == 'P' && s[1] == 'R' && s[2] == 'I' && s[3] == ' ';
  }

  lemma CutPrefaceIsNoFrame(k: nat)
    requires k < |CLIENT_PREFACE|
    ensures FrontOf(CLIENT_PREFACE[..k]) == End
  {
    var b := CLIENT_PREFACE[..k];
    if k >= FRAME_HEADER_LENGTH {
      PrefaceBytes();
      assert b[..3] == [80, 82, 73];
      NumberOfThree(80, 82, 73);
    }
  }

  /** A cut inside the client preface looks like one long frame of an unknown kind and feeds nothing. */
  lemma CutPrefaceFeedsNothing(lib: Library, k: nat, decoder: Decoder)
    requires k < |CLIENT_PREFACE|
    ensures Feed(lib, CLIENT_PREFACE[..k], decoder) == FeedResult(decoder, [])
  {
    CutPrefaceIsNoFrame(k);
    RoundAtFront(lib, CLIENT_PREFACE[..k], decoder);
  }

  /** The first `k` bytes of an optional client preface (section 3.5 of RFC 7540) and serialized frames, and the header
      blocks among them. */
  function Sent(preface: bool, fs: seq<Frame>, k: nat): seq<byte>
    requires AllValid(fs)
  {
    var all := (if preface then CLIENT_PREFACE else []) + SerializeAll(fs);
    all[..Min(k, |all|)]
  }

  function BlocksSent(preface: bool, fs: seq<Frame>, k: nat): seq<(u32, seq<byte>)>
    requires AllValid(fs)
  {
    var n := if preface then Max(0, k - |CLIENT_PREFACE|) else k;
    HeaderBlocks(fs, Min(n, |SerializeAll(fs)|))
  }

  lemma StripSent(side: Side, preface: bool, fs: seq<Frame>, k: nat)
    requires AllValid(fs) && (side == Server ==> !preface)
    requires !LooksPrefaced(side, preface, fs, k)
    ensures
      var n := |CLIENT_PREFACE|;
      Strip(side, Sent(preface, fs, k))
        == if preface && k < n then CLIENT_PREFACE[..k]
           else SerializeAll(fs)[..Min(if preface then k - n else k, |SerializeAll(fs)|)]
  {
    var n, s := |CLIENT_PREFACE|, SerializeAll(fs);
    if preface {
      var all := CLIENT_PREFACE + s;
      if k < n {
        assert all[..k] == CLIENT_PREFACE[..k];
      } else {
        var m := Min(k - n, |s|);
        assert all[..n + m] == CLIENT_PREFACE + s[..m];
        assert (CLIENT_PREFACE + s[..m])[n..] == s[..m];
      }
    } else {
      assert [] + s == s;
    }
  }

  /** The client's frames are taken for a preface, which the code drops. */
  predicate LooksPrefaced(side: Side, preface: bool, fs: seq<Frame>, k: nat)
    requires AllValid(fs)
  {
    side == Client && !preface && CLIENT_PREFACE <= Sent(preface, fs, k)
  }

  lemma StrippedWalk(side: Side, preface: bool, fs: seq<Frame>, k: nat)
    requires AllValid(fs) && (side == Server ==> !preface)
    requires !LooksPrefaced(side, preface, fs, k)
    ensures Walk(Strip(side, Sent(preface, fs, k))) == BlocksSent(preface, fs, k)
  {
    StripSent(side, preface, fs, k);
    if preface && k < |CLIENT_PREFACE| {
      CutPrefaceIsNoFrame(k);
    } else {
      var n := Min(if preface then k - |CLIENT_PREFACE| else k, |SerializeAll(fs)|);
      WalkIsReference(SerializeAll(fs)[..n], fs, n);
    }
  }

  /** What a call hands to the decoder of its side, if the decoder takes what is left after the preface: the header blocks
      sent, in order, the last one possibly cut, exactly when the frames are not taken for a preface, or when dropping their
      first 24 bytes happens not to change the header blocks. */
  lemma CallFeedsHeaderBlocks(lib: Library, side: Side, preface: bool, fs: seq<Frame>, k: nat, decoder: Decoder)
    requires AllValid(fs) && (side == Server ==> !preface)
    requires Decodes(lib, decoder, Bodies(Walk(Strip(side, Sent(preface, fs, k)))))
    ensures
      var payload, blocks := Sent(preface, fs, k), BlocksSent(preface, fs, k);
      var f := Feed(lib, Strip(side, payload), decoder);
      && (BlocksOf(f.feds) == blocks
          <==> !LooksPrefaced(side, preface, fs, k) || Walk(payload[|CLIENT_PREFACE|..]) == Walk(payload))
      && (BlocksOf(f.feds) == blocks ==> f.decoder == decoder + Bodies(blocks))
  {
    var payload := Sent(preface, fs, k);
    FeedIsWalk(lib, Strip(side, payload), decoder);
    DecoderGetsBlocks(lib, Strip(side, payload), decoder);
    if LooksPrefaced(side, preface, fs, k) {
      var n := Min(k, |SerializeAll(fs)|);
      assert payload == SerializeAll(fs)[..n] by {
        assert [] + SerializeAll(fs) == SerializeAll(fs);
      }
      WalkIsReference(payload, fs, n);
    } else {
      StrippedWalk(side, preface, fs, k);
    }
  }

  lemma {:induction false} NumberRoundTrip(b: seq<byte>)
    ensures Digits(Number(b), |b|) == b
  {
    if b != [] {
      NumberRoundTrip(b[..|b| - 1]);
    }
  }

  /** A frame of kind 0x20 that begins with the bytes of the preface, and has the header of a HEADERS frame right behind. */
  function DisguisedFrame(): Frame {
    Frame(CLIENT_PREFACE[3], CLIENT_PREFACE[4], false, Number(CLIENT_PREFACE[5..9]),
          CLIENT_PREFACE[9..] + HeaderOnStream3(0) + seq(5263945 - 24, _ => 0))
  }

  lemma DisguisedSerialized()
    ensures Valid(DisguisedFrame()) && DisguisedFrame().kind == 32
    ensures var s := Serialize(DisguisedFrame()); |s| >= 33 && s[..33] == CLIENT_PREFACE + HeaderOnStream3(0)
  {
    PrefaceBytes();
    var p, f := CLIENT_PREFACE, DisguisedFrame();
    var t := p[5..9];
    assert t[..3] == [p[5], p[6], p[7]];
    assert p[5] == 32 by {
      var text := "PRI * HTTP/2.0\r\n\r\nSM\r\n\r\n";
      assert text[5] == ' ';
    }
    NumberOfThree(p[5], p[6], p[7]);
    NumberOfThree(80, 82, 73);
    assert p[..3] == [80, 82, 73];
    NumberRoundTrip(p[..3]);
    NumberRoundTrip(t);
    assert Serialize(f)[..9] == p[..3] + [p[3], p[4]] + t == p[..9];
    assert f.body[..24] == p[9..] + HeaderOnStream3(0);
    assert Serialize(f) == Serialize(f)[..9] + f.body;
  }

  /** Such a frame, cut at 33 bytes, holds no header block; but the code takes its front for the preface and feeds one that
      nobody sent. */
  lemma PrefaceFeedsWrongBlock(lib: Library, decoder: Decoder, fs: seq<Frame>)
    requires fs == [DisguisedFrame()]
    ensures
      && AllValid(fs) && BlocksSent(false, fs, 33) == []
      && BlocksOf(Feed(lib, Strip(Client, Sent(false, fs, 33)), decoder).feds) == [(3, [])]
  {
    DisguisedSerialized();
    PrefaceBytes();
    var payload := Sent(false, fs, 33);
    assert payload == CLIENT_PREFACE + HeaderOnStream3(0) by {
      assert [] + SerializeAll(fs) == SerializeAll(fs) == Serialize(fs[0]) + [] == Serialize(fs[0]);
    }
    assert Strip(Client, payload) == HeaderOnStream3(0);
    HeaderOnStream3Feeds(lib, 0, Strip(Client, payload), decoder);
  }
}
