/** Read ids of system calls and of TLS probes share one table; with pids below 2^31 they behave as if they had one each. */
module TlsReads {
  import opened Bytes
  import opened ReadIds
  import opened L7
  import opened Classifiers
  import opened L7History
  import opened L7Provenance
  import opened L7Sockets

  /** Who enters or leaves a read: a system call, OpenSSL, or the TLS code of a Go program in some goroutine. */
  datatype Probe = Syscall(pidTgid: Id) | OpenSsl(pidTgid: Id) | GoTls(pidTgid: Id, goroutine: bv64)

  function ReadId(p: Probe): Id {
    match p
    case Syscall(pidTgid) => pidTgid
    case OpenSsl(pidTgid) => Id(OpenSslId(pidTgid.bits))
    case GoTls(pidTgid, goroutine) => Id(GoId(PidOf(pidTgid), goroutine))
  }

  predicate TlsBit(id: Id) {
    id.bits & IS_TLS_READ_ID != 0
  }

  /** A pid below 2^31. */
  predicate PidFits(p: Probe) {
    PidOf(p.pidTgid) < 0x8000_0000
  }

  lemma TlsIds(p: Probe)
    requires !p.Syscall?
    ensures TlsBit(ReadId(p))
  {
    if p.OpenSsl? {
      OrSetsTheBit(p.pidTgid.bits);
    } else {
      OrSetsTheBit((PidOf(p.pidTgid) << 32) | p.goroutine);
    }
  }

  lemma PlainIds(p: Probe)
    requires p.Syscall?
    ensures TlsBit(ReadId(p)) <==> !PidFits(p)
  {
    BitMeansLargePid(p.pidTgid.bits);
  }

  /** A system call can meet the entry of some TLS probe exactly when its pid does not fit. */
  lemma CollisionIff(pidTgid: Id)
    ensures (exists q: Probe :: !q.Syscall? && ReadId(q) == ReadId(Syscall(pidTgid))) <==> !PidFits(Syscall(pidTgid))
  {
    PlainIds(Syscall(pidTgid));
    if TlsBit(pidTgid) {
      OrKeepsTheBit(pidTgid.bits);
      assert ReadId(OpenSsl(pidTgid)) == ReadId(Syscall(pidTgid));
    } else {
      forall q: Probe | !q.Syscall? ensures ReadId(q) != pidTgid {
        TlsIds(q);
      }
    }
  }

  /** A step made by a probe, or a step that does not use the read table. */
  datatype ProbeStep =
    | Enter(probe: Probe, args: ReadArgs, room: bool)
    | Exit(probe: Probe, r: Returned, now: u64, cpu: Scratch, copies: bool, recopies: bool)
    | Other(step: Step)

  predicate WellFormed(s: ProbeStep) {
    match s
    case Enter(p, _, _) => PidFits(p)
    case Exit(p, _, _, _, _, _) => PidFits(p)
    case Other(step) => step.Write? || step.Evicts?
  }

  function ToStep(s: ProbeStep): Step {
    match s
    case Enter(p, args, room) => ReadEnter(ReadId(p), args, room)
    case Exit(p, r, now, cpu, copies, recopies) =>
      ReadExit(ReadId(p), p.pidTgid, !p.Syscall?, r, now, cpu, copies, recopies)
    case Other(step) => step
  }

  /** The machine with a table of plain reads and a table of TLS reads. */
  datatype TwoTables = TwoTables(plain: map<Id, ReadArgs>, tls: map<Id, ReadArgs>, pending: map<Key, Request>)

  function ApplySplit(c: Classifiers, t: TwoTables, ts: Timestamps, s: ProbeStep): (TwoTables, Option<Event>) {
    var useTls := !s.Other? && !s.probe.Syscall?;
    var o := Apply(c, Tables(if useTls then t.tls else t.plain, t.pending), ts, ToStep(s));
    (if useTls then TwoTables(t.plain, o.tables.activeReads, o.tables.pending)
     else TwoTables(o.tables.activeReads, t.tls, o.tables.pending), o.event)
  }

  /** The shared table: its entries with bit 63 are the TLS reads, the others the plain reads. */
  ghost predicate Together(shared: map<Id, ReadArgs>, plain: map<Id, ReadArgs>, tls: map<Id, ReadArgs>) {
    forall id :: Lookup(shared, id) == Lookup(if TlsBit(id) then tls else plain, id)
  }

  ghost predicate Merges(t: Tables, u: TwoTables) {
    t.pending == u.pending && Together(t.activeReads, u.plain, u.tls)
  }

  lemma StoreTogether(shared: map<Id, ReadArgs>, plain: map<Id, ReadArgs>, tls: map<Id, ReadArgs>, id: Id, args: ReadArgs)
    requires Together(shared, plain, tls)
    ensures if TlsBit(id) then Together(shared[id := args], plain, tls[id := args])
            else Together(shared[id := args], plain[id := args], tls)
  {
    var plain', tls' := if TlsBit(id) then plain else plain[id := args], if TlsBit(id) then tls[id := args] else tls;
    forall i ensures Lookup(shared[id := args], i) == Lookup(if TlsBit(i) then tls' else plain', i) {
      assert Lookup(shared, i) == Lookup(if TlsBit(i) then tls else plain, i);
    }
  }

  lemma RemoveTogether(shared: map<Id, ReadArgs>, plain: map<Id, ReadArgs>, tls: map<Id, ReadArgs>, id: Id)
    requires Together(shared, plain, tls)
    ensures if TlsBit(id) then Together(shared - {id}, plain, tls - {id}) else Together(shared - {id}, plain - {id}, tls)
  {
    var plain', tls' := if TlsBit(id) then plain else plain - {id}, if TlsBit(id) then tls - {id} else tls;
    forall i ensures Lookup(shared - {id}, i) == Lookup(if TlsBit(i) then tls' else plain', i) {
      assert Lookup(shared, i) == Lookup(if TlsBit(i) then tls else plain, i);
    }
  }

  lemma HandleReadFrame(c: Classifiers, t: Tables, a: map<Id, ReadArgs>, ts: Timestamps, k: Key, mem: seq<byte>, size: u64,
                        now: u64, heap: Request, event: Event, copies: bool, recopies: bool)
    ensures
      var o := HandleRead(c, t, ts, k, mem, size, now, heap, event, copies, recopies);
      HandleRead(c, t.(activeReads := a), ts, k, mem, size, now, heap, event, copies, recopies)
        == o.(tables := o.tables.(activeReads := a))
  {
  }

  /** What an exit does depends on the read table only through the entry it looks up, which it removes. */
  lemma ExitFrame(c: Classifiers, pending: map<Key, Request>, a: map<Id, ReadArgs>, b: map<Id, ReadArgs>, ts: Timestamps,
                  id: Id, pidTgid: Id, isTls: bool, r: Returned, now: u64, cpu: Scratch, copies: bool, recopies: bool)
    requires Lookup(a, id) == Lookup(b, id)
    ensures
      var o := ExitRead(c, Tables(a, pending), ts, id, pidTgid, isTls, r, now, cpu, copies, recopies);
      var o' := ExitRead(c, Tables(b, pending), ts, id, pidTgid, isTls, r, now, cpu, copies, recopies);
      && o.event == o'.event && o.tables.pending == o'.tables.pending
      && o.tables.activeReads == a - {id} && o'.tables.activeReads == b - {id}
  {
    if id in a && BytesRead(a[id], r).Some? {
      var n := BytesRead(a[id], r).value;
      var (mem, size) := Resolve(r.src, n, a[id].iovlen, n, cpu.iovecBuf);
      var k := Key(a[id].fd, PidOf(pidTgid), isTls, -1);
      HandleReadFrame(c, Tables(map[], pending), a - {id}, ts, k, mem, size, now, cpu.request, cpu.event, copies, recopies);
      HandleReadFrame(c, Tables(map[], pending), b - {id}, ts, k, mem, size, now, cpu.request, cpu.event, copies, recopies);
    }
  }

  lemma BitOfReadId(p: Probe)
    requires PidFits(p)
    ensures TlsBit(ReadId(p)) <==> !p.Syscall?
  {
    if p.Syscall? {
      PlainIds(p);
    } else {
      TlsIds(p);
    }
  }

  lemma SplitExit(c: Classifiers, t: Tables, u: TwoTables, ts: Timestamps, s: ProbeStep)
    requires Merges(t, u) && WellFormed(s) && s.Exit?
    ensures
      var o, o' := Apply(c, t, ts, ToStep(s)), ApplySplit(c, u, ts, s);
      o.event == o'.1 && Merges(o.tables, o'.0)
  {
    BitOfReadId(s.probe);
    var id := ReadId(s.probe);
    assert Lookup(t.activeReads, id) == Lookup(if TlsBit(id) then u.tls else u.plain, id);
    ExitFrame(c, t.pending, t.activeReads, if s.probe.Syscall? then u.plain else u.tls, ts, id, s.probe.pidTgid,
              !s.probe.Syscall?, s.r, s.now, s.cpu, s.copies, s.recopies);
    RemoveTogether(t.activeReads, u.plain, u.tls, id);
  }

  lemma SplitEnter(c: Classifiers, t: Tables, u: TwoTables, ts: Timestamps, s: ProbeStep)
    requires Merges(t, u) && WellFormed(s) && s.Enter?
    ensures
      var o, o' := Apply(c, t, ts, ToStep(s)), ApplySplit(c, u, ts, s);
      o.event == o'.1 && Merges(o.tables, o'.0)
  {
    BitOfReadId(s.probe);
    StoreTogether(t.activeReads, u.plain, u.tls, ReadId(s.probe), s.args);
  }

  /** Stores and evictions leave the read table alone and do not look at it. */
  lemma OtherFrame(c: Classifiers, t: Tables, a: map<Id, ReadArgs>, ts: Timestamps, step: Step)
    requires step.Write? || step.Evicts?
    ensures
      var o := Apply(c, t, ts, step);
      o.tables.activeReads == t.activeReads
      && Apply(c, t.(activeReads := a), ts, step) == o.(tables := o.tables.(activeReads := a))
  {
  }

  /** One step of the shared machine is one step of the split machine, with the same event. */
  lemma SplitStep(c: Classifiers, t: Tables, u: TwoTables, ts: Timestamps, s: ProbeStep)
    requires Merges(t, u) && WellFormed(s)
    ensures
      var o, o' := Apply(c, t, ts, ToStep(s)), ApplySplit(c, u, ts, s);
      o.event == o'.1 && Merges(o.tables, o'.0)
  {
    match s
    case Enter(_, _, _) => SplitEnter(c, t, u, ts, s);
    case Exit(_, _, _, _, _, _) => SplitExit(c, t, u, ts, s);
    case Other(step) => OtherFrame(c, t, u.plain, ts, step);
  }

  function RunShared(c: Classifiers, steps: seq<(ProbeStep, Timestamps)>): (Tables, seq<Option<Event>>) {
    if steps == [] then (Tables(map[], map[]), [])
    else
      var (t, out) := RunShared(c, steps[..|steps| - 1]);
      var o := Apply(c, t, steps[|steps| - 1].1, ToStep(steps[|steps| - 1].0));
      (o.tables, out + [o.event])
  }

  function RunSplit(c: Classifiers, steps: seq<(ProbeStep, Timestamps)>): (TwoTables, seq<Option<Event>>) {
    if steps == [] then (TwoTables(map[], map[], map[]), [])
    else
      var (t, out) := RunSplit(c, steps[..|steps| - 1]);
      var (t', e) := ApplySplit(c, t, steps[|steps| - 1].1, steps[|steps| - 1].0);
      (t', out + [e])
  }

  /** Plain and TLS reads never mix: over every run the shared table gives the events of two separate tables,
      and its entries with bit 63 are exactly those of the TLS table. */
  lemma {:induction false} ReadsNeverMix(c: Classifiers, steps: seq<(ProbeStep, Timestamps)>)
    requires forall i :: 0 <= i < |steps| ==> WellFormed(steps[i].0)
    ensures RunShared(c, steps).1 == RunSplit(c, steps).1
    ensures Merges(RunShared(c, steps).0, RunSplit(c, steps).0)
  {
    if steps != [] {
      var prev, s := steps[..|steps| - 1], steps[|steps| - 1];
      ReadsNeverMix(c, prev);
      SplitStep(c, RunShared(c, prev).0, RunSplit(c, prev).0, s.1, s.0);
    }
  }

  /** The steps of the probes with the timestamps they see. */
  function StepsOf(ps: seq<(ProbeStep, Timestamps)>): (steps: seq<Timed>)
    ensures |steps| == |ps|
  {
    seq(|ps|, i requires 0 <= i < |ps| => Timed(ToStep(ps[i].0), ps[i].1))
  }

  /** Over every run of probes: what was written through TLS is answered only by what a TLS probe read, and what was written by
      a system call only by what a system call read; the read was entered on the same fd by a probe of that sort. */
  lemma AnsweredAsWritten(c: Classifiers, ps: seq<(ProbeStep, Timestamps)>, i: nat, n: nat, m: nat)
    requires forall j :: 0 <= j < |ps| ==> WellFormed(ps[j].0)
    requires AnsweredLater(c, StepsOf(ps), i, n, m)
    ensures ps[n].0.Other? && ps[n].0.step.Write? && ps[m].0.Exit?
    ensures
      var write, e := ps[n].0.step, LatestEnter(StepsOf(ps)[..m], ReadId(ps[m].0.probe));
      && (write.isTls <==> !ps[m].0.probe.Syscall?)
      && e.Some? && ps[e.value].0.Enter? && ps[e.value].0.args.fd == write.fd
      && (ps[e.value].0.probe.Syscall? <==> ps[m].0.probe.Syscall?)
  {
    var steps := StepsOf(ps);
    SameSocket(c, steps, i, n, m);
    var id := ReadId(ps[m].0.probe);
    var e := LatestEnter(steps[..m], id).value;
    EnteredWithId(steps[..m], id);
    assert steps[..m][e] == steps[e] && WellFormed(ps[e].0) && WellFormed(ps[m].0);
    BitOfReadId(ps[e].0.probe);
    BitOfReadId(ps[m].0.probe);
  }

  lemma {:induction false} EnteredWithId(steps: seq<Timed>, id: Id)
    requires LatestEnter(steps, id).Some?
    ensures steps[LatestEnter(steps, id).value].step.id == id
  {
    var n := |steps| - 1;
    if LatestEnter(steps, id) != Some(n) {
      EnteredWithId(steps[..n], id);
    }
  }
}
