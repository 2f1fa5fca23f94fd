/** HTTP/2 frames from the system call to the decoder, the stale byte of a full payload included. */
module Http2Delivery {
  import opened Bytes
  import opened Payload
  import opened Classifiers
  import L7
  import opened L7Provenance
  import opened Reader
  import opened Delivery
  import opened Http2
  import opened Http2Frames

  type Blocks = seq<(u32, seq<byte>)>

  /** Two header blocks that differ in one byte at the end: the last byte of their bodies, or, when the byte completes a frame
      header, the low byte of their streams. */
  predicate LastByteApart(a: (u32, seq<byte>), b: (u32, seq<byte>)) {
    || (a.0 == b.0 && |a.1| == |b.1| > 0 && a.1[..|a.1| - 1] == b.1[..|b.1| - 1])
    || (a.1 == b.1 == [] && a.0 / 256 == b.0 / 256)
  }

  /** The same header blocks, but for the end of the last one. */
  predicate AlmostSame(a: Blocks, b: Blocks) {
    a == b || (|a| == |b| > 0 && a[..|a| - 1] == b[..|b| - 1] && LastByteApart(a[|a| - 1], b[|b| - 1]))
  }

  lemma AlmostSameLonger(front: Blocks, a: Blocks, b: Blocks)
    requires AlmostSame(a, b)
    ensures AlmostSame(front + a, front + b)
  {
    if a != b {
      var k := |front| + |a| - 1;
      assert (front + a)[..k] == front + a[..|a| - 1] == front + b[..|b| - 1] == (front + b)[..k];
    }
  }

  lemma Low31High(x: u32, y: u32)
    requires x / 256 == y / 256
    ensures Low31(x) / 256 == Low31(y) / 256
  {
    var h := x / 256;
    assert x == 256 * h + x % 256 && y == 256 * h + y % 256;
    assert 0x8000_0000 == 256 * 0x80_0000;
    if h >= 0x80_0000 {
      assert Low31(x) == 256 * (h - 0x80_0000) + x % 256 && Low31(y) == 256 * (h - 0x80_0000) + y % 256;
    }
  }

  /** A byte that completes a frame header decides the low byte of the stream at most. */
  lemma HeaderCompleted(q: seq<byte>, s: byte, t: byte)
    requires |q| == 8
    ensures
      var a, b := HeaderOf(q + [s]), HeaderOf(q + [t]);
      a.length == b.length && a.kind == b.kind && a.stream / 256 == b.stream / 256
  {
    var x, y := q + [s], q + [t];
    assert x[..3] == q[..3] == y[..3];
    assert x[5..9] == q[5..] + [s] && y[5..9] == q[5..] + [t];
    assert x[5..9][..3] == q[5..] == y[5..9][..3];
    Low31High(Number(x[5..9]), Number(y[5..9]));
  }

  lemma HeaderKept(q: seq<byte>, s: byte)
    requires |q| >= FRAME_HEADER_LENGTH
    ensures HeaderOf(q + [s]) == HeaderOf(q)
  {
    assert (q + [s])[..3] == q[..3] && (q + [s])[5..9] == q[5..9];
  }

  /** What the last frame gives, when it ends with the bytes or is cut by their end. */
  function OnlyBlock(h: FrameHeader, body: seq<byte>): Blocks {
    if h.kind == HEADERS then [(h.stream, body)] else []
  }

  lemma FirstFront(x: seq<byte>, end: nat)
    requires |x| >= FRAME_HEADER_LENGTH && end == FRAME_HEADER_LENGTH + HeaderOf(x).length
    ensures
      var h := HeaderOf(x);
      FrontOf(x) == if h.kind == HEADERS then Headers(h.stream, Min(end, |x|)) else if |x| < end then End else Other(end)
  {
  }

  lemma WalkFirstFrame(x: seq<byte>, end: nat, rest: Blocks)
    requires |x| >= FRAME_HEADER_LENGTH && end == FRAME_HEADER_LENGTH + HeaderOf(x).length <= |x|
    requires rest == Walk(x[end..])
    ensures Walk(x) == OnlyBlock(HeaderOf(x), x[FRAME_HEADER_LENGTH..end]) + rest
  {
    FirstFront(x, end);
  }

  lemma ShortWalk(x: seq<byte>)
    requires |x| < FRAME_HEADER_LENGTH
    ensures Walk(x) == []
  {
  }

  lemma WalkLastFrame(x: seq<byte>, end: nat)
    requires |x| >= FRAME_HEADER_LENGTH && end == FRAME_HEADER_LENGTH + HeaderOf(x).length >= |x|
    ensures Walk(x) == OnlyBlock(HeaderOf(x), x[FRAME_HEADER_LENGTH..])
  {
    FirstFront(x, end);
    ShortWalk(x[|x|..]);
    assert x[FRAME_HEADER_LENGTH..|x|] == x[FRAME_HEADER_LENGTH..];
  }

  lemma ShortWalks(q: seq<byte>, s: byte, t: byte)
    requires |q| <= 8
    ensures AlmostSame(Walk(q + [s]), Walk(q + [t]))
  {
    if |q| == 8 {
      HeaderCompleted(q, s, t);
      var end := FRAME_HEADER_LENGTH + HeaderOf(q + [s]).length;
      WalkLastFrame(q + [s], end);
      WalkLastFrame(q + [t], end);
    }
  }

  lemma LastByteBehind(q: seq<byte>, s: byte, end: nat)
    requires |q| >= FRAME_HEADER_LENGTH && end == FRAME_HEADER_LENGTH + HeaderOf(q).length <= |q|
    ensures
      var x := q + [s];
      && HeaderOf(x) == HeaderOf(q) && end <= |x|
      && x[end..] == q[end..] + [s] && x[FRAME_HEADER_LENGTH..end] == q[FRAME_HEADER_LENGTH..end]
  {
    HeaderKept(q, s);
  }

  /** Bytes that differ in the last one only give almost the same header blocks. */
  lemma {:induction false} OneByteWalks(q: seq<byte>, s: byte, t: byte)
    ensures AlmostSame(Walk(q + [s]), Walk(q + [t]))
    decreases |q|
  {
    var x, y := q + [s], q + [t];
    if |q| <= 8 {
      ShortWalks(q, s, t);
    } else {
      var end := FRAME_HEADER_LENGTH + HeaderOf(q).length;
      if end <= |q| {
        LastByteBehind(q, s, end);
        LastByteBehind(q, t, end);
        OneByteWalks(q[end..], s, t);
        var a, b := Walk(x[end..]), Walk(y[end..]);
        WalkFirstFrame(x, end, a);
        WalkFirstFrame(y, end, b);
        AlmostSameLonger(OnlyBlock(HeaderOf(q), q[9..end]), a, b);
      } else {
        HeaderKept(q, s);
        HeaderKept(q, t);
        WalkLastFrame(x, end);
        WalkLastFrame(y, end);
        LastFrameApart(q, s, t, Walk(x), Walk(y));
      }
    }
  }

  lemma OnlyBlockApart(h: FrameHeader, body: seq<byte>, s: byte, t: byte)
    ensures AlmostSame(OnlyBlock(h, body + [s]), OnlyBlock(h, body + [t]))
  {
    assert (body + [s])[..|body|] == body == (body + [t])[..|body|];
  }

  lemma LastFrameApart(q: seq<byte>, s: byte, t: byte, a: Blocks, b: Blocks)
    requires |q| > 8
    requires a == OnlyBlock(HeaderOf(q + [s]), (q + [s])[9..]) && b == OnlyBlock(HeaderOf(q + [t]), (q + [t])[9..])
    ensures AlmostSame(a, b)
  {
    HeaderKept(q, s);
    HeaderKept(q, t);
    OnlyBlockApart(HeaderOf(q), q[9..], s, t);
    assert (q + [s])[9..] == q[9..] + [s] && (q + [t])[9..] == q[9..] + [t];
  }

  lemma OneByteStripped(side: Side, q: seq<byte>, s: byte, t: byte)
    requires |q| >= |CLIENT_PREFACE|
    ensures AlmostSame(Walk(Strip(side, q + [s])), Walk(Strip(side, q + [t])))
  {
    var n := |CLIENT_PREFACE|;
    assert (q + [s])[..n] == q[..n] == (q + [t])[..n];
    if Strip(side, q + [s]) == q + [s] {
      OneByteWalks(q, s, t);
    } else {
      assert (q + [s])[n..] == q[n..] + [s] && (q + [t])[n..] == q[n..] + [t];
      OneByteWalks(q[n..], s, t);
    }
  }

  /** The side whose frames a step carries. */
  function SideOf(s: L7.Step): Side {
    if s.Write? then Client else Server
  }

  lemma LeftOfFrames(side: Side, p: seq<byte>, mem: seq<byte>, size: u64, stale: byte)
    requires Min(size, 1024) <= |mem| && Delivers(p, mem, size, false, stale)
    ensures AlmostSame(Walk(Strip(side, p)), Walk(Strip(side, mem[..Min(size, 1024)])))
    ensures size <= 1023 || stale == mem[1023] ==> p == mem[..Min(size, 1024)]
  {
    if size <= 1023 {
      assert p == p[..size] == mem[..size];
    } else {
      assert p == p[..1023] + [p[1023]] && mem[..1024] == mem[..1023] + [mem[1023]];
      OneByteStripped(side, mem[..1023], stale, mem[1023]);
    }
  }

  /** The header blocks in what user space gets for an HTTP/2 event, compared with those in the bytes the handler saw. Up to
      1023 bytes they are the same. Beyond, they are those of the first 1024 bytes but for the end of the last one, and that
      only when the stale byte is the wrong one. */
  lemma FramesDelivered(c: Classifiers, t: L7.Tables, ts: L7.Timestamps, s: L7.Step, tail: seq<byte>)
    requires SentAtOnce(L7.Apply(c, t, ts, s)) && L7.Apply(c, t, ts, s).event.value.protocol == Protocol.Http2
    requires var (mem, size) := BytesSeen(t, s); Min(size, 1024) <= |mem|
    ensures
      var (mem, size) := BytesSeen(t, s);
      var e := L7.Apply(c, t, ts, s).event.value;
      var got, seen := Strip(SideOf(s), Slice(e, tail)), Strip(SideOf(s), mem[..Min(size, 1024)]);
      && (e.op == ClientFrames <==> s.Write?) && (e.op == ServerFrames <==> s.ReadExit?)
      && AlmostSame(Walk(got), Walk(seen))
      && (size <= 1023 || StaleByte(s) == mem[1023] ==> got == seen)
  {
    OneWayPayload(c, t, ts, s, tail);
    FramesKind(c, t, ts, s);
    var (mem, size) := BytesSeen(t, s);
    LeftOfFrames(SideOf(s), Slice(L7.Apply(c, t, ts, s).event.value, tail), mem, size, StaleByte(s));
  }

  lemma ReadFramesKind(c: Classifiers, t: L7.Tables, ts: L7.Timestamps, k: L7.Key, mem: seq<byte>, size: u64, now: u64,
                       heap: L7.Request, event: L7.Event, copies: bool, recopies: bool)
    ensures
      var o := L7.HandleRead(c, t, ts, k, mem, size, now, heap, event, copies, recopies);
      SentAtOnce(o) ==> o.event.value.op == ServerFrames
  {
  }

  lemma ClassifiedHttp2(c: Classifiers, mem: seq<byte>, size: u64, staleType: byte)
    ensures
      var w := L7.ClassifyWrite(c, mem, size, staleType);
      w.OneWay? && w.protocol == Protocol.Http2 ==> w.op == ClientFrames
  {
  }

  lemma WriteFramesKind(c: Classifiers, t: L7.Tables, ts: L7.Timestamps, s: L7.Step, e: L7.Event)
    requires s.Write? && SentAtOnce(L7.Apply(c, t, ts, s)) && L7.Apply(c, t, ts, s).event == Some(e)
    requires e.protocol == Protocol.Http2
    ensures e.op == ClientFrames
  {
    var (mem, size) := BytesSeen(t, s);
    ClassifiedHttp2(c, mem, size, s.cpu.request.requestType);
  }

  lemma FramesKind(c: Classifiers, t: L7.Tables, ts: L7.Timestamps, s: L7.Step)
    requires SentAtOnce(L7.Apply(c, t, ts, s)) && L7.Apply(c, t, ts, s).event.value.protocol == Protocol.Http2
    ensures L7.Apply(c, t, ts, s).event.value.op == if s.Write? then ClientFrames else ServerFrames
    ensures s.Write? || s.ReadExit?
  {
    if s.Write? {
      WriteFramesKind(c, t, ts, s, L7.Apply(c, t, ts, s).event.value);
    } else {
      var (mem, size) := BytesSeen(t, s);
      ReadFramesKind(c, t.(activeReads := t.activeReads - {s.id}), ts,
                     L7.Key(t.activeReads[s.id].fd, L7.PidOf(s.pidTgid), s.isTls, -1), mem, size, s.now, s.cpu.request,
                     s.cpu.event, s.copies, s.recopies);
    }
  }

  /** From the system call to the decoder: when the bytes seen are a cut of an optional preface and serialized frames, and the
      decoder takes what user space gets, it gets exactly the header blocks sent, or, of more than 1023 bytes, these with
      one stale byte at the end. */
  lemma FramesEndToEnd(lib: Library, c: Classifiers, t: L7.Tables, ts: L7.Timestamps, s: L7.Step, tail: seq<byte>,
                       preface: bool, fs: seq<Frame>, decoder: Decoder)
    requires SentAtOnce(L7.Apply(c, t, ts, s)) && L7.Apply(c, t, ts, s).event.value.protocol == Protocol.Http2
    requires AllValid(fs) && (SideOf(s) == Server ==> !preface)
    requires
      var (mem, size) := BytesSeen(t, s);
      var k := Min(size, 1024);
      k <= |mem| && mem[..k] == Http2Frames.Sent(preface, fs, k) && !LooksPrefaced(SideOf(s), preface, fs, k)
    requires Decodes(lib, decoder, Bodies(Walk(Strip(SideOf(s), Slice(L7.Apply(c, t, ts, s).event.value, tail)))))
    ensures
      var (mem, size) := BytesSeen(t, s);
      var blocks := BlocksSent(preface, fs, Min(size, 1024));
      var f := Feed(lib, Strip(SideOf(s), Slice(L7.Apply(c, t, ts, s).event.value, tail)), decoder);
      && AlmostSame(BlocksOf(f.feds), blocks) && f.decoder == decoder + Bodies(BlocksOf(f.feds))
      && (size <= 1023 || StaleByte(s) == mem[1023] ==> BlocksOf(f.feds) == blocks)
  {
    FramesDelivered(c, t, ts, s, tail);
    var (mem, size) := BytesSeen(t, s);
    var p := Strip(SideOf(s), Slice(L7.Apply(c, t, ts, s).event.value, tail));
    FeedIsWalk(lib, p, decoder);
    DecoderGetsBlocks(lib, p, decoder);
    StrippedWalk(SideOf(s), preface, fs, Min(size, 1024));
  }
}
