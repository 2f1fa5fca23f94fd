/** Over any run of calls: what happens to every registered request, what a report says, and how old a request can get. */
module Http2Accounting {
  import opened Bytes
  import opened Http2

  /** The value of the first field with this name that is valid, or nothing. */
  function FirstValid(fields: seq<Field>, name: Text, valid: Text -> bool): Text {
    if fields == [] then []
    else if fields[0].name == name && valid(fields[0].value) then fields[0].value
    else FirstValid(fields[1..], name, valid)
  }

  lemma {:induction false} FirstValidAppended(fields: seq<Field>, f: Field, name: Text, valid: Text -> bool)
    requires forall v :: valid(v) ==> v != []
    ensures FirstValid(fields + [f], name, valid)
         == if FirstValid(fields, name, valid) != [] then FirstValid(fields, name, valid)
            else if f.name == name && valid(f.value) then f.value else []
  {
    if fields != [] {
      assert (fields + [f])[1..] == fields[1..] + [f];
      FirstValidAppended(fields[1..], f, name, valid);
    }
  }

  /** A valid path begins with a slash or is an asterisk, so that it is never empty. */
  lemma PathIff(v: Text)
    ensures IsHttpPath(v) <==> v != [] && (v[0] == '/' as int || v == ['*' as int])
  {
    assert Ascii("*") == ['*' as int];
    if v != [] {
      assert Ascii("/") <= v <==> v[0] == Ascii("/")[0];
    }
  }

  /** A registration: the stream and time of its first HEADERS, and every field emitted for it. */
  datatype Registration = Registration(stream: u32, time: u64, fields: seq<Field>)

  /** The request a registration amounts to: the first valid method, path and scheme win. */
  function Built(r: Registration): Request {
    Request(FirstValid(r.fields, Ascii(":method"), IsHttpMethod), FirstValid(r.fields, Ascii(":path"), IsHttpPath),
            FirstValid(r.fields, Ascii(":scheme"), IsHttpScheme), 0, 0, r.time)
  }

  lemma NamesDiffer()
    ensures Ascii(":method") != Ascii(":path") && Ascii(":method") != Ascii(":scheme") && Ascii(":path") != Ascii(":scheme")
  {
    assert |Ascii(":method")| == 7 && |Ascii(":path")| == 5 && |Ascii(":scheme")| == 7;
    assert Ascii(":method")[1] != Ascii(":scheme")[1];
  }

  lemma OneField(r: Registration, f: Field)
    ensures ApplyField(Built(r), f) == Built(r.(fields := r.fields + [f]))
  {
    NamesDiffer();
    FirstValidAppended(r.fields, f, Ascii(":method"), IsHttpMethod);
    FirstValidAppended(r.fields, f, Ascii(":path"), IsHttpPath);
    FirstValidAppended(r.fields, f, Ascii(":scheme"), IsHttpScheme);
  }

  lemma {:induction false} AllFields(r: Registration, fields: seq<Field>)
    ensures ApplyFields(Built(r), fields) == Built(r.(fields := r.fields + fields))
  {
    if fields == [] {
      assert r.fields + [] == r.fields;
    } else {
      var front, last := fields[..|fields| - 1], fields[|fields| - 1];
      AllFields(r, front);
      OneField(r.(fields := r.fields + front), last);
      assert r.fields + front + [last] == r.fields + fields;
    }
  }

  /** All registrations so far, and the number of the one each active stream stands for. */
  datatype Books = Books(registrations: seq<Registration>, ids: map<u32, nat>)

  function TrackOne(b: Books, fed: Fed, now: u64): Books {
    if fed.stream in b.ids && b.ids[fed.stream] < |b.registrations| then
      var id := b.ids[fed.stream];
      var r := b.registrations[id];
      b.(registrations := b.registrations[id := r.(fields := r.fields + fed.fields)])
    else
      Books(b.registrations + [Registration(fed.stream, now, fed.fields)], b.ids[fed.stream := |b.registrations|])
  }

  function Track(b: Books, feds: seq<Fed>, now: u64): Books {
    if feds == [] then b else TrackOne(Track(b, feds[..|feds| - 1], now), feds[|feds| - 1], now)
  }

  /** The active request of a stream is what its registration amounts to. */
  predicate StreamOk(active: Active, b: Books, s: u32) {
    && (s in active <==> s in b.ids)
    && (s in b.ids ==>
          b.ids[s] < |b.registrations| && b.registrations[b.ids[s]].stream == s && active[s] == Built(b.registrations[b.ids[s]]))
  }

  lemma TrackOneOk(active: Active, b: Books, fed: Fed, now: u64, s: u32)
    requires StreamOk(active, b, s) && StreamOk(active, b, fed.stream)
    ensures StreamOk(RegisterOne(active, fed, now), TrackOne(b, fed, now), s)
  {
    if fed.stream in b.ids {
      AllFields(b.registrations[b.ids[fed.stream]], fed.fields);
    } else {
      var empty := Registration(fed.stream, now, []);
      AllFields(empty, fed.fields);
      assert empty.(fields := [] + fed.fields) == Registration(fed.stream, now, fed.fields);
    }
  }

  lemma {:induction false} TrackOk(active: Active, b: Books, feds: seq<Fed>, now: u64)
    requires forall s :: StreamOk(active, b, s)
    ensures forall s :: StreamOk(Register(active, feds, now), Track(b, feds, now), s)
  {
    if feds != [] {
      var front, last := feds[..|feds| - 1], feds[|feds| - 1];
      TrackOk(active, b, front, now);
      forall s ensures StreamOk(Register(active, feds, now), Track(b, feds, now), s) {
        TrackOneOk(Register(active, front, now), Track(b, front, now), last, now, s);
      }
    }
  }

  /** A registration is live while an active stream stands for it. */
  predicate Live(b: Books, id: nat) {
    id < |b.registrations| && b.registrations[id].stream in b.ids && b.ids[b.registrations[id].stream] == id
  }

  /** Every registration counts once: reported, swept or live. */
  predicate Counted(b: Books, reported: multiset<nat>, swept: multiset<nat>, id: nat) {
    reported[id] + swept[id] + (if Live(b, id) then 1 else 0) == if id < |b.registrations| then 1 else 0
  }

  lemma TrackOneCounted(active: Active, b: Books, fed: Fed, now: u64, reported: multiset<nat>, swept: multiset<nat>, id: nat)
    requires StreamOk(active, b, fed.stream) && Counted(b, reported, swept, id)
    ensures Counted(TrackOne(b, fed, now), reported, swept, id)
  {
  }

  lemma {:induction false} TrackCounted(active: Active, b: Books, feds: seq<Fed>, now: u64, reported: multiset<nat>,
                                        swept: multiset<nat>, id: nat)
    requires (forall s :: StreamOk(active, b, s)) && Counted(b, reported, swept, id)
    ensures Counted(Track(b, feds, now), reported, swept, id)
  {
    if feds != [] {
      var front, last := feds[..|feds| - 1], feds[|feds| - 1];
      TrackCounted(active, b, front, now, reported, swept, id);
      TrackOk(active, b, front, now);
      TrackOneCounted(Register(active, front, now), Track(b, front, now), last, now, reported, swept, id);
    }
  }

  /** The ids of the streams in `gone`. */
  function IdsOf(b: Books, gone: set<u32>): set<nat> {
    set s | s in gone && s in b.ids :: b.ids[s]
  }

  function Drop(b: Books, gone: set<u32>): Books {
    b.(ids := b.ids - gone)
  }

  lemma DropCounted(active: Active, b: Books, gone: set<u32>, reported: multiset<nat>, swept: multiset<nat>, id: nat)
    requires (forall s :: StreamOk(active, b, s)) && Counted(b, reported, swept, id)
    ensures Counted(Drop(b, gone), reported + multiset(IdsOf(b, gone)), swept, id)
    ensures Counted(Drop(b, gone), reported, swept + multiset(IdsOf(b, gone)), id)
  {
    assert id in IdsOf(b, gone) <==> Live(b, id) && b.registrations[id].stream in gone by {
      if id in IdsOf(b, gone) {
        var s :| s in gone && s in b.ids && b.ids[s] == id;
        assert StreamOk(active, b, s);
      }
    }
    assert multiset(IdsOf(b, gone))[id] == if id in IdsOf(b, gone) then 1 else 0;
  }

  lemma DropOk(active: Active, b: Books, gone: set<u32>)
    requires forall s :: StreamOk(active, b, s)
    ensures forall s :: StreamOk(active - gone, Drop(b, gone), s)
  {
    forall s ensures StreamOk(active - gone, Drop(b, gone), s) {
      assert StreamOk(active, b, s);
    }
  }

  /** The parser with its books: how often each registration was reported or swept. */
  datatype Ledger = Ledger(p: State, books: Books, reported: multiset<nat>, swept: multiset<nat>)

  function FedBy(lib: Library, p: State, c: Call): seq<Fed> {
    Feed(lib, Strip(c.side, c.payload), if c.side == Client then p.clientDecoder else p.serverDecoder).feds
  }

  /** The books after the frames of a call. */
  function Noted(lib: Library, l: Ledger, c: Call): Books {
    if c.side == Client then Track(l.books, FedBy(lib, l.p, c), c.now) else l.books
  }

  /** The streams a sweep has to take: in a call that is a pass, but not the first one, those whose first HEADERS came more
      than the interval ago. */
  function Due(b: Books, lastGcTime: u64, c: Call): set<u32> {
    if Strip(c.side, c.payload) == [] || lastGcTime == 0 || Sub64(c.now, lastGcTime) <= GC_INTERVAL then {}
    else
      set s | s in b.ids && b.ids[s] < |b.registrations| && Sub64(c.now, b.registrations[b.ids[s]].time) > GC_INTERVAL
  }

  /** Off the books goes what the call reports and what its sweep has to take, nothing else. */
  function After(lib: Library, l: Ledger, c: Call): Ledger {
    var r := Parsed(lib, l.p, c.side, c.payload, c.now);
    var b := Noted(lib, l, c);
    var b' := Drop(b, r.reported.Keys);
    var due := Due(b', l.p.lastGcTime, c);
    Ledger(r.state, Drop(b', due), l.reported + multiset(IdsOf(b, r.reported.Keys)), l.swept + multiset(IdsOf(b', due)))
  }

  const START := Ledger(INITIAL, Books([], map[]), multiset{}, multiset{})

  function Run(lib: Library, calls: seq<Call>): Ledger {
    if calls == [] then START else After(lib, Run(lib, calls[..|calls| - 1]), calls[|calls| - 1])
  }

  ghost predicate Inv(l: Ledger) {
    && (forall s :: StreamOk(l.p.active, l.books, s))
    && (forall id :: Counted(l.books, l.reported, l.swept, id))
  }

  /** The active requests after the frames of a call. */
  function ActiveNoted(lib: Library, l: Ledger, c: Call): Active {
    if c.side == Client then Register(l.p.active, FedBy(lib, l.p, c), c.now) else l.p.active
  }

  lemma NotedOk(lib: Library, l: Ledger, c: Call)
    requires Inv(l)
    ensures forall s :: StreamOk(ActiveNoted(lib, l, c), Noted(lib, l, c), s)
    ensures forall id :: Counted(Noted(lib, l, c), l.reported, l.swept, id)
  {
    if c.side == Client {
      var feds := FedBy(lib, l.p, c);
      TrackOk(l.p.active, l.books, feds, c.now);
      forall id ensures Counted(Noted(lib, l, c), l.reported, l.swept, id) {
        TrackCounted(l.p.active, l.books, feds, c.now, l.reported, l.swept, id);
      }
    }
  }

  /** What a call reports and leaves active, in terms of the active requests after its frames. */
  lemma ParsedTables(lib: Library, l: Ledger, c: Call)
    ensures
      var r := Parsed(lib, l.p, c.side, c.payload, c.now);
      var active := ActiveNoted(lib, l, c);
      && r.reported.Keys <= active.Keys
      && r.state.active == if Strip(c.side, c.payload) == [] then active
                           else Swept(active - r.reported.Keys, l.p.lastGcTime, c.now)
  {
    if Strip(c.side, c.payload) == [] {
      assert FedBy(lib, l.p, c) == [];
    } else if c.side == Server {
      var statuses := StatusesOf(lib, FedBy(lib, l.p, c));
      var reported := Reports(l.p.active, statuses, c.now, statuses.Keys);
      assert l.p.active - statuses.Keys == l.p.active - reported.Keys;
    } else {
      assert Parsed(lib, l.p, c.side, c.payload, c.now).reported == map[];
    }
  }

  /** The sweep takes exactly the streams that are due. */
  lemma SweptAreDue(active: Active, b: Books, lastGcTime: u64, c: Call)
    requires forall s :: StreamOk(active, b, s)
    ensures
      active - Due(b, lastGcTime, c)
        == if Strip(c.side, c.payload) == [] then active else Swept(active, lastGcTime, c.now)
  {
    var due := Due(b, lastGcTime, c);
    var swept := if Strip(c.side, c.payload) == [] then active else Swept(active, lastGcTime, c.now);
    forall s ensures s in active - due <==> s in swept {
      assert StreamOk(active, b, s);
    }
  }

  lemma AfterInv(lib: Library, l: Ledger, c: Call)
    requires Inv(l)
    ensures Inv(After(lib, l, c))
  {
    var r := Parsed(lib, l.p, c.side, c.payload, c.now);
    var active, b := ActiveNoted(lib, l, c), Noted(lib, l, c);
    NotedOk(lib, l, c);
    ParsedTables(lib, l, c);
    var done := r.reported.Keys;
    DropOk(active, b, done);
    var active', b' := active - done, Drop(b, done);
    var due := Due(b', l.p.lastGcTime, c);
    SweptAreDue(active', b', l.p.lastGcTime, c);
    DropOk(active', b', due);
    if Strip(c.side, c.payload) == [] {
      assert done == {} && active' == active;
    }
    forall id ensures Counted(Drop(b', due), l.reported + multiset(IdsOf(b, done)), l.swept + multiset(IdsOf(b', due)), id) {
      DropCounted(active, b, done, l.reported, l.swept, id);
      DropCounted(active', b', due, l.reported + multiset(IdsOf(b, done)), l.swept, id);
    }
  }

  lemma {:induction false} RunInv(lib: Library, calls: seq<Call>)
    ensures Inv(Run(lib, calls)) && Run(lib, calls).p == StateAfter(lib, calls)
  {
    if calls != [] {
      RunInv(lib, calls[..|calls| - 1]);
      AfterInv(lib, Run(lib, calls[..|calls| - 1]), calls[|calls| - 1]);
    }
  }

  /** Over every run each registration is reported, swept because it was due, or still active, exactly one of these and once;
      an active stream holds what its live registration amounts to. */
  lemma RegistrationsBalance(lib: Library, calls: seq<Call>, id: nat)
    ensures
      var l := Run(lib, calls);
      && l.reported[id] + l.swept[id] + (if Live(l.books, id) then 1 else 0) == (if id < |l.books.registrations| then 1 else 0)
      && (Live(l.books, id) ==>
            var r := l.books.registrations[id]; r.stream in l.p.active && l.p.active[r.stream] == Built(r))
      && (forall s :: s in l.p.active ==> s in l.books.ids && Live(l.books, l.books.ids[s]))
  {
    RunInv(lib, calls);
    var l := Run(lib, calls);
    forall s | s in l.p.active ensures s in l.books.ids && Live(l.books, l.books.ids[s]) {
      assert StreamOk(l.p.active, l.books, s);
    }
    assert Counted(l.books, l.reported, l.swept, id);
    if Live(l.books, id) {
      assert StreamOk(l.p.active, l.books, l.books.registrations[id].stream);
    }
  }

  /** The fields emitted for a stream, in order. */
  function FieldsOn(feds: seq<Fed>, s: u32): seq<Field> {
    if feds == [] then []
    else
      var last := feds[|feds| - 1];
      FieldsOn(feds[..|feds| - 1], s) + if last.stream == s then last.fields else []
  }

  /** The number read from the last `:status` field, and 0 when there is none. */
  ghost predicate IsLastStatus(lib: Library, fields: seq<Field>, status: int) {
    || (status == 0 && forall i :: 0 <= i < |fields| ==> fields[i].name != Ascii(":status"))
    || (exists i :: 0 <= i < |fields| && fields[i].name == Ascii(":status") && status == lib.atoi(fields[i].value)
                    && forall j :: i < j < |fields| ==> fields[j].name != Ascii(":status"))
  }

  lemma {:induction false} StatusAfterAppends(lib: Library, status: int, a: seq<Field>, b: seq<Field>)
    ensures StatusAfter(lib, StatusAfter(lib, status, a), b) == StatusAfter(lib, status, a + b)
  {
    if b == [] {
      assert a + b == a;
    } else {
      assert (a + b)[..|a + b| - 1] == a + b[..|b| - 1];
      StatusAfterAppends(lib, status, a, b[..|b| - 1]);
    }
  }

  lemma {:induction false} StatusIsLast(lib: Library, fields: seq<Field>)
    ensures IsLastStatus(lib, fields, StatusAfter(lib, 0, fields))
  {
    if fields != [] {
      var n := |fields| - 1;
      StatusIsLast(lib, fields[..n]);
      if fields[n].name != Ascii(":status") && exists i :: 0 <= i < n && fields[i].name == Ascii(":status") {
        var status := StatusAfter(lib, 0, fields);
        var i :| 0 <= i < n && fields[..n][i].name == Ascii(":status") && status == lib.atoi(fields[..n][i].value)
                 && forall j :: i < j < n ==> fields[..n][j].name != Ascii(":status");
        assert fields[i].name == Ascii(":status") && status == lib.atoi(fields[i].value);
        forall j | i < j < |fields| ensures fields[j].name != Ascii(":status") {
          assert j < n ==> fields[..n][j] == fields[j];
        }
      } else if fields[n].name != Ascii(":status") {
        assert forall i :: 0 <= i < n ==> fields[..n][i] == fields[i];
      }
    }
  }

  predicate FedOn(feds: seq<Fed>, s: u32) {
    exists i :: 0 <= i < |feds| && feds[i].stream == s
  }

  lemma FedOnOneMore(feds: seq<Fed>, s: u32)
    requires feds != []
    ensures FedOn(feds, s) <==> FedOn(feds[..|feds| - 1], s) || feds[|feds| - 1].stream == s
  {
    var n := |feds| - 1;
    if FedOn(feds[..n], s) {
      var i :| 0 <= i < n && feds[..n][i].stream == s;
      assert feds[i].stream == s;
    }
    if FedOn(feds, s) && feds[n].stream != s {
      var i :| 0 <= i < |feds| && feds[i].stream == s;
      assert feds[..n][i].stream == s;
    }
  }

  lemma {:induction false} StatusesHold(lib: Library, feds: seq<Fed>, s: u32)
    ensures s in StatusesOf(lib, feds) <==> FedOn(feds, s)
    ensures StatusAfter(lib, 0, FieldsOn(feds, s)) == if s in StatusesOf(lib, feds) then StatusesOf(lib, feds)[s] else 0
  {
    if feds != [] {
      var n := |feds| - 1;
      StatusesHold(lib, feds[..n], s);
      FedOnOneMore(feds, s);
      var before := FieldsOn(feds[..n], s);
      if feds[n].stream == s {
        StatusAfterAppends(lib, 0, before, feds[n].fields);
        assert FieldsOn(feds, s) == before + feds[n].fields;
      } else {
        assert FieldsOn(feds, s) == before + [] == before;
      }
    }
  }

  /** `r` is the report for a registration completed at time `now` by header blocks with these fields: the first valid method,
      path and scheme, the last status, and the time since the first HEADERS. */
  ghost predicate IsReportOf(lib: Library, reg: Registration, fields: seq<Field>, now: u64, r: Request) {
    && r.verb == FirstValid(reg.fields, Ascii(":method"), IsHttpMethod)
    && r.path == FirstValid(reg.fields, Ascii(":path"), IsHttpPath)
    && r.scheme == FirstValid(reg.fields, Ascii(":scheme"), IsHttpScheme)
    && IsLastStatus(lib, fields, r.status)
    && r.duration == (now - reg.time) % TWO_64
  }

  lemma CompletedIsReport(lib: Library, reg: Registration, fields: seq<Field>, now: u64, status: int)
    requires IsLastStatus(lib, fields, status)
    ensures IsReportOf(lib, reg, fields, now, Completed(Built(reg), status, now))
  {
  }

  lemma ReportedIs(lib: Library, l: Ledger, c: Call, s: u32)
    requires Inv(l)
    ensures
      var r := Parsed(lib, l.p, c.side, c.payload, c.now);
      && (s in r.reported <==> c.side == Server && s in l.p.active && FedOn(FedBy(lib, l.p, c), s))
      && (s in r.reported ==>
            && s in l.books.ids && l.books.ids[s] < |l.books.registrations|
            && r.reported[s] == Completed(Built(l.books.registrations[l.books.ids[s]]),
                                          StatusAfter(lib, 0, FieldsOn(FedBy(lib, l.p, c), s)), c.now))
      && (c.side == Server ==> Noted(lib, l, c) == l.books && (s in r.state.active ==> s in l.p.active))
  {
    var feds := FedBy(lib, l.p, c);
    assert StreamOk(l.p.active, l.books, s);
    StatusesHold(lib, feds, s);
    if Strip(c.side, c.payload) == [] {
      assert feds == [];
    }
  }

  /** What a call reports after any run: nothing for the client's frames; for the server's frames exactly the active streams
      among them, each with the report for its registration. The server's frames register nothing. */
  lemma ReportsAreExact(lib: Library, calls: seq<Call>, c: Call, s: u32)
    ensures
      var l := Run(lib, calls);
      var r := Parsed(lib, l.p, c.side, c.payload, c.now);
      && (s in r.reported <==> c.side == Server && s in l.p.active && FedOn(FedBy(lib, l.p, c), s))
      && (s in r.reported ==>
            && s in l.books.ids && l.books.ids[s] < |l.books.registrations|
            && IsReportOf(lib, l.books.registrations[l.books.ids[s]], FieldsOn(FedBy(lib, l.p, c), s), c.now, r.reported[s]))
      && (c.side == Server ==> After(lib, l, c).books.registrations == l.books.registrations
                               && (s in r.state.active ==> s in l.p.active))
  {
    RunInv(lib, calls);
    var l := Run(lib, calls);
    ReportedIs(lib, l, c, s);
    if s in l.books.ids && l.books.ids[s] < |l.books.registrations| {
      var fields := FieldsOn(FedBy(lib, l.p, c), s);
      StatusIsLast(lib, fields);
      CompletedIsReport(lib, l.books.registrations[l.books.ids[s]], fields, c.now, StatusAfter(lib, 0, fields));
    }
  }

  /** The streams for which `r` is reported. */
  function StreamsOf(reported: map<u32, Request>, r: Request): set<u32> {
    set s | s in reported && reported[s] == r
  }

  lemma StreamsOfOneMore(reported: map<u32, Request>, stream: u32, r: Request)
    requires stream in reported
    ensures |StreamsOf(reported, r)| == |StreamsOf(reported - {stream}, r)| + if reported[stream] == r then 1 else 0
  {
    var before := StreamsOf(reported - {stream}, r);
    assert StreamsOf(reported, r) == if reported[stream] == r then before + {stream} else before;
  }

  lemma ListsOneLess(res: seq<Request>, order: seq<u32>, reported: map<u32, Request>)
    requires Lists(res, order, reported) && res != []
    ensures
      var n := |res| - 1;
      order[n] in reported && res[n] == reported[order[n]] && Lists(res[..n], order[..n], reported - {order[n]})
  {
    var n := |res| - 1;
    assert order == order[..n] + [order[n]];
    forall s ensures s in order[..n] <==> s in reported - {order[n]} {
      assert s in order <==> s in (set t | t in order);
    }
  }

  lemma OneMore(res: seq<Request>, last: Request, r: Request)
    ensures multiset(res + [last])[r] == multiset(res)[r] + if last == r then 1 else 0
  {
  }

  lemma {:induction false} CountsOf(res: seq<Request>, order: seq<u32>, reported: map<u32, Request>, r: Request)
    requires Lists(res, order, reported)
    ensures multiset(res)[r] == |StreamsOf(reported, r)|
    decreases |res|
  {
    if res == [] {
      assert reported.Keys == {} && StreamsOf(reported, r) == {};
    } else {
      var n := |res| - 1;
      ListsOneLess(res, order, reported);
      CountsOf(res[..n], order[..n], reported - {order[n]}, r);
      StreamsOfOneMore(reported, order[n], r);
      OneMore(res[..n], res[n], r);
      assert res == res[..n] + [res[n]];
    }
  }

  /** Whatever orders the map is walked in, the reported requests are the same, each as often. */
  lemma ReportsIgnoreOrder(res: seq<Request>, order: seq<u32>, res': seq<Request>, order': seq<u32>, reported: map<u32, Request>)
    requires Lists(res, order, reported) && Lists(res', order', reported)
    ensures multiset(res) == multiset(res')
  {
    forall r ensures multiset(res)[r] == multiset(res')[r] {
      CountsOf(res, order, reported, r);
      CountsOf(res', order', reported, r);
    }
  }
}
