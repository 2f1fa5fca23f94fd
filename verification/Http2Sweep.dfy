/** How old an active HTTP/2 request can get before the sweep takes it, for clocks that do not go back. */
module Http2Sweep {
  import opened Bytes
  import opened Http2

  /** The times of the calls that reach the sweep: those with something left after the client preface. */
  function Times(calls: seq<Call>): seq<u64> {
    if calls == [] then []
    else
      var c := calls[|calls| - 1];
      Times(calls[..|calls| - 1]) + if Strip(c.side, c.payload) == [] then [] else [c.now]
  }

  predicate Nondecreasing(ts: seq<u64>) {
    forall i, j :: 0 <= i <= j < |ts| ==> ts[i] <= ts[j]
  }

  /** The time of the last pass. */
  function PassTime(ts: seq<u64>): u64 {
    if ts == [] then 0
    else
      var t, before := ts[|ts| - 1], PassTime(ts[..|ts| - 1]);
      if t - before > GC_INTERVAL then t else before
  }

  /** No pass has swept yet: the first pass never does. */
  predicate Unswept(ts: seq<u64>) {
    ts == [] || (var t, before := ts[|ts| - 1], PassTime(ts[..|ts| - 1]);
                 Unswept(ts[..|ts| - 1]) && !(before > 0 && t - before > GC_INTERVAL))
  }

  /** While nothing was swept, the calls span at most twice the interval. */
  predicate SpansLittle(ts: seq<u64>) {
    Unswept(ts) && ts != [] ==> ts[|ts| - 1] - ts[0] <= 2 * GC_INTERVAL
  }

  lemma {:induction false} PassTimeBounds(ts: seq<u64>)
    requires Nondecreasing(ts)
    ensures ts != [] ==> PassTime(ts) <= ts[|ts| - 1] <= PassTime(ts) + GC_INTERVAL
    ensures ts == [] ==> PassTime(ts) == 0
    ensures !Unswept(ts) ==> PassTime(ts) > 0
  {
    if ts != [] {
      PassTimeBounds(ts[..|ts| - 1]);
      if |ts| > 1 {
        assert ts[|ts| - 2] <= ts[|ts| - 1];
      }
    }
  }

  lemma {:induction false} ApplyFieldsTime(r: Request, fields: seq<Field>)
    ensures ApplyFields(r, fields).kernelTime == r.kernelTime
  {
    if fields != [] {
      ApplyFieldsTime(r, fields[..|fields| - 1]);
    }
  }

  /** Every active request dates from one of the calls, and not from more than an interval before the last sweeping pass. */
  predicate AgeOk(active: Active, ts: seq<u64>, s: u32) {
    s in active ==>
      && ts != [] && ts[0] <= active[s].kernelTime <= ts[|ts| - 1]
      && (!Unswept(ts) ==> PassTime(ts) <= active[s].kernelTime + GC_INTERVAL)
  }

  lemma {:induction false} RegisterTimes(active: Active, feds: seq<Fed>, now: u64, s: u32)
    ensures
      var active' := Register(active, feds, now);
      s in active' ==> active'[s].kernelTime == if s in active then active[s].kernelTime else now
    ensures s in active ==> s in Register(active, feds, now)
  {
    if feds != [] {
      var n := |feds| - 1;
      RegisterTimes(active, feds[..n], now, s);
      ApplyFieldsTime(Registered(Register(active, feds[..n], now), feds[n].stream, now), feds[n].fields);
    }
  }

  /** A call that reaches the sweep: what is active after it was active before or is new, and outlived the sweep. */
  predicate CallAges(p: State, p': State, now: u64, s: u32)
    requires p.lastGcTime <= now
  {
    && p'.lastGcTime == (if now - p.lastGcTime > GC_INTERVAL then now else p.lastGcTime)
    && (s in p'.active ==>
          && p'.active[s].kernelTime == (if s in p.active then p.active[s].kernelTime else now)
          && (p.lastGcTime > 0 && now - p.lastGcTime > GC_INTERVAL ==> !Expired(p'.active[s], now)))
  }

  lemma ParsedAges(lib: Library, p: State, c: Call, s: u32)
    requires Strip(c.side, c.payload) != [] && p.lastGcTime <= c.now
    ensures CallAges(p, Parsed(lib, p, c.side, c.payload, c.now).state, c.now, s)
  {
    if c.side == Client {
      RegisterTimes(p.active, Feed(lib, Strip(c.side, c.payload), p.clientDecoder).feds, c.now, s);
    }
  }

  lemma AgeKept(p: State, p': State, now: u64, ts: seq<u64>, s: u32)
    requires Nondecreasing(ts + [now]) && p.lastGcTime == PassTime(ts) <= now
    requires AgeOk(p.active, ts, s) && CallAges(p, p', now, s)
    ensures p'.lastGcTime == PassTime(ts + [now]) && AgeOk(p'.active, ts + [now], s)
  {
    var all := ts + [now];
    assert all[..|all| - 1] == ts;
    PassTimeBounds(all);
    if ts != [] {
      FrontNondecreasing(all);
      PassTimeBounds(ts);
      assert all[0] <= all[|all| - 2] <= all[|all| - 1];
    }
  }

  lemma FrontNondecreasing(ts: seq<u64>)
    requires Nondecreasing(ts) && ts != []
    ensures Nondecreasing(ts[..|ts| - 1]) && PassTime(ts[..|ts| - 1]) <= ts[|ts| - 1]
  {
    var front := ts[..|ts| - 1];
    forall i, j | 0 <= i <= j < |front| ensures front[i] <= front[j] {
      assert ts[i] <= ts[j];
    }
    PassTimeBounds(front);
    assert front != [] ==> ts[|ts| - 2] <= ts[|ts| - 1];
  }

  lemma {:induction false} RunAges(lib: Library, calls: seq<Call>)
    requires Nondecreasing(Times(calls))
    ensures
      var p := StateAfter(lib, calls);
      p.lastGcTime == PassTime(Times(calls)) && forall s :: AgeOk(p.active, Times(calls), s)
  {
    if calls != [] {
      var front, c := calls[..|calls| - 1], calls[|calls| - 1];
      var ts := Times(front);
      if Strip(c.side, c.payload) == [] {
        assert ts + [] == ts;
        RunAges(lib, front);
      } else {
        assert Times(calls)[..|Times(calls)| - 1] == ts;
        FrontNondecreasing(Times(calls));
        RunAges(lib, front);
        var p, p' := StateAfter(lib, front), StateAfter(lib, calls);
        forall s ensures p'.lastGcTime == PassTime(Times(calls)) && AgeOk(p'.active, Times(calls), s) {
          ParsedAges(lib, p, c, s);
          AgeKept(p, p', c.now, ts, s);
        }
        assert AgeOk(p'.active, Times(calls), 0);
      }
    }
  }

  /** Every active request is at most twice the interval old, unless nothing was swept yet and the calls span longer. */
  lemma SweepBound(lib: Library, calls: seq<Call>, s: u32)
    requires Nondecreasing(Times(calls)) && SpansLittle(Times(calls))
    ensures
      var active, ts := StateAfter(lib, calls).active, Times(calls);
      s in active ==> ts != [] && active[s].kernelTime <= ts[|ts| - 1] <= active[s].kernelTime + 2 * GC_INTERVAL
  {
    RunAges(lib, calls);
    PassTimeBounds(Times(calls));
    assert AgeOk(StateAfter(lib, calls).active, Times(calls), s);
  }

  /** When the first such call comes later than the interval, the calls never span that long unswept. */
  lemma {:induction false} LateStartSpansLittle(ts: seq<u64>)
    requires Nondecreasing(ts) && ts != [] && ts[0] > GC_INTERVAL
    ensures SpansLittle(ts)
    ensures Unswept(ts) ==> PassTime(ts) == ts[0]
  {
    PassTimeBounds(ts);
    if |ts| > 1 {
      var front := ts[..|ts| - 1];
      assert front[0] == ts[0];
      LateStartSpansLittle(front);
    }
  }

  const LONE_HEADERS: seq<byte> := [0, 0, 0, 1, 0, 0, 0, 0, 1]

  lemma LoneHeader()
    ensures HeaderOf(LONE_HEADERS) == FrameHeader(0, HEADERS, 1)
  {
    assert LONE_HEADERS[..3] == [0, 0, 0] && LONE_HEADERS[5..9] == [0, 0, 0, 1];
    assert [0, 0, 0, 1][..3] == [0, 0, 0] && [0, 0, 0][..2] == [0, 0] && [0, 0][..1] == [0];
  }

  /** A client that opens stream 1 at the first call and goes on sending the same. */
  function Abandoned(ts: seq<u64>): seq<Call> {
    seq(|ts|, i requires 0 <= i < |ts| => Call(Client, LONE_HEADERS, ts[i]))
  }

  predicate FromClient(calls: seq<Call>) {
    forall i :: 0 <= i < |calls| ==> calls[i].side == Client && Strip(Client, calls[i].payload) != []
  }

  lemma {:induction false} AbandonedTimes(ts: seq<u64>)
    ensures Times(Abandoned(ts)) == ts && FromClient(Abandoned(ts))
  {
    assert CLIENT_PREFACE[0] == 80;
    if ts != [] {
      var n := |ts| - 1;
      assert Abandoned(ts)[..n] == Abandoned(ts[..n]);
      AbandonedTimes(ts[..n]);
      assert ts == ts[..n] + [ts[n]];
    }
  }

  lemma AbandonedOpens(lib: Library, now: u64)
    ensures
      var p := Parsed(lib, INITIAL, Client, LONE_HEADERS, now).state;
      1 in p.active && p.active[1].kernelTime == now
  {
    assert CLIENT_PREFACE[0] == 80;
    LoneHeader();
    var feds := Feed(lib, LONE_HEADERS, []).feds;
    assert feds[|feds| - 1].stream == 1 by {
      assert LONE_HEADERS[FRAME_HEADER_LENGTH..] == [];
    }
    RegisterTimes(map[], feds, now, 1);
  }

  /** The client's frames end no request, and without a sweep nothing else does. */
  lemma ClientKeeps(lib: Library, p: State, c: Call, s: u32)
    requires c.side == Client && s in p.active
    requires p.lastGcTime <= c.now && !(p.lastGcTime > 0 && c.now - p.lastGcTime > GC_INTERVAL)
    ensures
      var p' := Parsed(lib, p, c.side, c.payload, c.now).state;
      s in p'.active && p'.active[s].kernelTime == p.active[s].kernelTime
  {
    RegisterTimes(p.active, Feed(lib, Strip(c.side, c.payload), p.clientDecoder).feds, c.now, s);
  }

  lemma {:induction false} OpenStreamStays(lib: Library, calls: seq<Call>, ts: seq<u64>, s: u32)
    requires FromClient(calls) && calls != [] && ts == Times(calls) && Nondecreasing(ts) && Unswept(ts)
    requires var p := StateAfter(lib, calls[..1]); s in p.active && p.active[s].kernelTime == calls[0].now
    ensures var p := StateAfter(lib, calls); s in p.active && p.active[s].kernelTime == calls[0].now
    decreases |calls|
  {
    var n := |calls| - 1;
    if n == 0 {
      assert calls[..1] == calls;
    } else {
      var front := calls[..n];
      assert ts == Times(front) + [calls[n].now] && ts[..|ts| - 1] == Times(front);
      assert front[..1] == calls[..1];
      FrontNondecreasing(ts);
      OpenStreamStays(lib, front, Times(front), s);
      RunAges(lib, front);
      ClientKeeps(lib, StateAfter(lib, front), calls[n], s);
    }
  }

  lemma AbandonedStays(lib: Library, ts: seq<u64>)
    requires Nondecreasing(ts) && ts != [] && Unswept(ts)
    ensures var active := StateAfter(lib, Abandoned(ts)).active; 1 in active && active[1].kernelTime == ts[0]
  {
    var calls := Abandoned(ts);
    AbandonedTimes(ts);
    assert calls[..1][..0] == [] && calls[..1][0] == Call(Client, LONE_HEADERS, ts[0]);
    AbandonedOpens(lib, ts[0]);
    OpenStreamStays(lib, calls, ts, 1);
  }

  /** The bound holds for whatever arrives at the times `ts` exactly when these, while unswept, span at most twice the
      interval; a start later than the interval is one way to have that. */
  lemma SweepBoundIff(lib: Library, ts: seq<u64>)
    requires Nondecreasing(ts) && ts != []
    ensures
      SpansLittle(ts) <==>
        forall calls: seq<Call>, s :: Times(calls) == ts && s in StateAfter(lib, calls).active ==>
          ts[|ts| - 1] <= StateAfter(lib, calls).active[s].kernelTime + 2 * GC_INTERVAL
    ensures ts[0] > GC_INTERVAL ==> SpansLittle(ts)
  {
    if SpansLittle(ts) {
      forall calls: seq<Call>, s | Times(calls) == ts && s in StateAfter(lib, calls).active
        ensures ts[|ts| - 1] <= StateAfter(lib, calls).active[s].kernelTime + 2 * GC_INTERVAL
      {
        SweepBound(lib, calls, s);
      }
    } else {
      AbandonedTimes(ts);
      AbandonedStays(lib, ts);
      assert 1 in StateAfter(lib, Abandoned(ts)).active;
    }
    if ts[0] > GC_INTERVAL {
      LateStartSpansLittle(ts);
    }
  }

  /** The first pass never sweeps: a stream opened at time 1 outlives a call half an hour later. */
  lemma FirstPassNeverSweeps(lib: Library)
    ensures
      var later := 3 * GC_INTERVAL;
      var active := StateAfter(lib, Abandoned([1, later])).active;
      1 in active && later > active[1].kernelTime + 2 * GC_INTERVAL
  {
    var ts: seq<u64> := [1, 3 * GC_INTERVAL];
    assert ts[..1] == [1] && ts[..1][..0] == [];
    AbandonedStays(lib, ts);
  }
}
