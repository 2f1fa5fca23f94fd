/** On legal traces each OPEN or ERROR event names the connect() that moved its socket to SYN_SENT, at most one for each. */
module TcpConnect {
  import opened Bytes
  import opened L7
  import opened Tcp

  datatype Step =
    | Enter(thread: Id, fd: u64, room: bool)
    | Exit(thread: Id)
    | Change(tr: Transition, thread: Id, now: u64, room: bool)

  /** A call of connect(). */
  datatype Call = Call(thread: Id, fd: u64)

  /** An OPEN or ERROR event with the call that moved its socket to SYN_SENT, if some call did. */
  datatype Report = Report(event: TcpEvent, cause: Option<nat>)

  /** The tables beside what really happened: every call so far, the call each thread is in, the state of each socket,
      and the call that moved each socket to SYN_SENT. */
  datatype World = World(tables: TcpTables, calls: seq<Call>, current: map<Id, nat>, state: map<u64, SockState>,
                         cause: map<u64, nat>, reports: seq<Report>)

  const INIT := World(TcpTables(map[], map[], map[]), [], map[], map[], map[], [])

  function StateOf(w: World, sk: u64): SockState {
    if sk in w.state then w.state[sk] else Close
  }

  /** A thread enters connect() only outside it; it may leave a call that it entered before the tracer ran. A TCP socket
      changes from the state it is in; one that was not seen before, or was last seen closed, may turn up in any state: it
      is older than the tracer, or it was accepted and starts as a copy of its listener. */
  predicate Legal(w: World, s: Step) {
    match s
    case Enter(thread, _, _) => thread !in w.current
    case Exit(_) => true
    case Change(tr, _, _, _) => tr.isTcp && StateOf(w, tr.sk) != Close ==> tr.before == StateOf(w, tr.sk)
  }

  function After(w: World, s: Step): World {
    match s
    case Enter(thread, fd, room) =>
      w.(tables := EnterConnect(w.tables, thread, fd, room), calls := w.calls + [Call(thread, fd)],
         current := w.current[thread := |w.calls|])
    case Exit(thread) => w.(tables := ExitConnect(w.tables, thread), current := w.current - {thread})
    case Change(tr, thread, now, room) =>
      var (t, e) := SetState(w.tables, tr, thread, now, room);
      if !tr.isTcp then w.(tables := t)
      else
        var moved := tr.before == Close && tr.after == SynSent;
        w.(tables := t,
           state := w.state[tr.sk := tr.after],
           cause := if moved then
                      (if thread in w.current then w.cause[tr.sk := w.current[thread]] else w.cause - {tr.sk})
                    else w.cause,
           reports := if e.Some? && e.value.kind in {ConnectionOpen, ConnectionError}
                      then w.reports + [Report(e.value, Lookup(w.cause, tr.sk))] else w.reports)
  }

  predicate LegalRun(steps: seq<Step>) {
    steps == [] || (LegalRun(steps[..|steps| - 1]) && Legal(Run(steps[..|steps| - 1]), steps[|steps| - 1]))
  }

  function Run(steps: seq<Step>): World {
    if steps == [] then INIT else After(Run(steps[..|steps| - 1]), steps[|steps| - 1])
  }

  /** Where the chance of a call to give an event is: with its thread, behind a socket, or used up by a report. */
  datatype Holder = InThread(thread: Id) | AtSocket(sk: u64) | Reported(i: nat)

  type Holders = map<nat, Holder>

  function Hold(w: World, h: Holders, s: Step): Holders {
    match s
    case Enter(thread, _, _) => h[|w.calls| := InThread(thread)]
    case Exit(_) => h
    case Change(tr, thread, now, room) =>
      if tr.isTcp && tr.before == Close && tr.after == SynSent && thread in w.tables.fdByThread && thread in w.current then
        h[w.current[thread] := AtSocket(tr.sk)]
      else if |After(w, s).reports| > |w.reports| && tr.sk in w.cause then h[w.cause[tr.sk] := Reported(|w.reports|)]
      else h
  }

  function RunHolders(steps: seq<Step>): Holders {
    if steps == [] then map[]
    else Hold(Run(steps[..|steps| - 1]), RunHolders(steps[..|steps| - 1]), steps[|steps| - 1])
  }

  predicate Holds(h: Holders, call: nat, holder: Holder) {
    call in h && h[call] == holder
  }

  /** An entry of `fd_by_pid_tgid` belongs to a thread inside connect() and holds the fd of that call. */
  predicate ThreadOk(w: World, h: Holders, thread: Id) {
    && (thread in w.current ==> w.current[thread] < |w.calls| && w.calls[w.current[thread]].thread == thread)
    && (thread in w.tables.fdByThread ==>
          && thread in w.current && w.tables.fdByThread[thread] == w.calls[w.current[thread]].fd
          && Holds(h, w.current[thread], InThread(thread)))
  }

  /** An entry of `sk_info` belongs to a socket in SYN_SENT and names the call that moved it there. */
  predicate SockOk(w: World, h: Holders, sk: u64) {
    sk in w.tables.skInfo ==>
      && StateOf(w, sk) == SynSent && sk in w.cause && w.cause[sk] < |w.calls|
      && w.tables.skInfo[sk] == PidFd(PidOf(w.calls[w.cause[sk]].thread), w.calls[w.cause[sk]].fd)
      && Holds(h, w.cause[sk], AtSocket(sk))
  }

  predicate Names(w: World, r: Report) {
    && r.cause.Some? && r.cause.value < |w.calls|
    && r.event.pid == PidOf(w.calls[r.cause.value].thread) && r.event.fd == w.calls[r.cause.value].fd
  }

  predicate ReportOk(w: World, h: Holders, i: nat)
    requires i < |w.reports|
  {
    Names(w, w.reports[i]) && Holds(h, w.reports[i].cause.value, Reported(i))
  }

  ghost predicate Inv(w: World, h: Holders) {
    && (forall thread :: ThreadOk(w, h, thread))
    && (forall sk :: SockOk(w, h, sk))
    && (forall i :: 0 <= i < |w.reports| ==> ReportOk(w, h, i))
  }

  function ThreadOf(s: Step): Id {
    match s
    case Enter(thread, _, _) => thread
    case Exit(thread) => thread
    case Change(_, thread, _, _) => thread
  }

  lemma ThreadStep(w: World, h: Holders, s: Step, thread: Id)
    requires Legal(w, s) && ThreadOk(w, h, thread) && ThreadOk(w, h, ThreadOf(s))
    requires s.Change? ==> SockOk(w, h, s.tr.sk)
    ensures ThreadOk(After(w, s), Hold(w, h, s), thread)
  {
  }

  lemma SockStep(w: World, h: Holders, s: Step, sk: u64)
    requires Legal(w, s) && SockOk(w, h, sk) && ThreadOk(w, h, ThreadOf(s))
    requires s.Change? ==> SockOk(w, h, s.tr.sk)
    ensures SockOk(After(w, s), Hold(w, h, s), sk)
  {
  }

  lemma ReportStep(w: World, h: Holders, s: Step, i: nat)
    requires Legal(w, s) && ThreadOk(w, h, ThreadOf(s)) && i < |After(w, s).reports|
    requires s.Change? ==> SockOk(w, h, s.tr.sk)
    requires i < |w.reports| ==> ReportOk(w, h, i)
    ensures ReportOk(After(w, s), Hold(w, h, s), i)
  {
  }

  lemma {:induction false} RunInv(steps: seq<Step>)
    requires LegalRun(steps)
    ensures Inv(Run(steps), RunHolders(steps))
  {
    if steps != [] {
      var prev, s := steps[..|steps| - 1], steps[|steps| - 1];
      RunInv(prev);
      var w, h := Run(prev), RunHolders(prev);
      assert ThreadOk(w, h, ThreadOf(s));
      assert s.Change? ==> SockOk(w, h, s.tr.sk);
      forall thread ensures ThreadOk(After(w, s), Hold(w, h, s), thread) {
        ThreadStep(w, h, s, thread);
      }
      forall sk ensures SockOk(After(w, s), Hold(w, h, s), sk) {
        SockStep(w, h, s, sk);
      }
      forall i | 0 <= i < |After(w, s).reports| ensures ReportOk(After(w, s), Hold(w, h, s), i) {
        ReportStep(w, h, s, i);
      }
    }
  }

  /** Connect tracking on every legal trace: `sk_info` holds only sockets in SYN_SENT and `fd_by_pid_tgid` only threads inside
      connect(); each OPEN or ERROR event carries the pid and fd of the call that moved its socket to SYN_SENT; no call gives
      two. */
  lemma {:induction false} ConnectTracking(steps: seq<Step>)
    requires LegalRun(steps)
    ensures
      var w := Run(steps);
      && (forall sk :: sk in w.tables.skInfo ==> StateOf(w, sk) == SynSent)
      && (forall thread :: thread in w.tables.fdByThread ==> thread in w.current)
      && (forall i :: 0 <= i < |w.reports| ==> Names(w, w.reports[i]))
      && (forall i, j :: 0 <= i < j < |w.reports| ==> w.reports[i].cause != w.reports[j].cause)
  {
    RunInv(steps);
    var w, h := Run(steps), RunHolders(steps);
    forall sk | sk in w.tables.skInfo ensures StateOf(w, sk) == SynSent {
      assert SockOk(w, h, sk);
    }
    forall thread | thread in w.tables.fdByThread ensures thread in w.current {
      assert ThreadOk(w, h, thread);
    }
    forall i | 0 <= i < |w.reports| ensures Names(w, w.reports[i]) {
      assert ReportOk(w, h, i);
    }
    forall i, j | 0 <= i < j < |w.reports| ensures w.reports[i].cause != w.reports[j].cause {
      assert ReportOk(w, h, i) && ReportOk(w, h, j);
    }
  }

  /** The transitions an event is sent for. */
  predicate IsReported(t: TcpTables, tr: Transition) {
    tr.isTcp && match tr.before
                case SynSent => tr.after in {Established, Close} && tr.sk in t.skInfo
                case Established => tr.after in {FinWait1, CloseWait}
                case Close => tr.after == Listen
                case Listen => tr.after == Close
                case _ => false
  }

  /** What an event says: the addresses are those of its socket, the kind is told by the transition, only an open has a time,
      and a listen event names the process that made the transition. */
  lemma EventTells(t: TcpTables, tr: Transition, thread: Id, now: u64, room: bool)
    ensures
      var e := SetState(t, tr, thread, now, room).1;
      && (e.Some? <==> IsReported(t, tr))
      && (e.Some? ==>
            && e.value.src == tr.src && e.value.dst == tr.dst
            && (e.value.kind == ConnectionOpen <==> tr.after == Established)
            && (e.value.kind == ConnectionError <==> tr.before == SynSent && tr.after == Close)
            && (e.value.kind == ConnectionClose <==> tr.before == Established)
            && (e.value.kind == ListenOpen <==> tr.after == Listen)
            && (e.value.kind == ListenClose <==> tr.before == Listen)
            && e.value.timestamp == (if tr.after == Established then now else 0)
            && (e.value.kind == ConnectionClose ==> e.value.pid == 0 && e.value.fd == 0)
            && (e.value.kind in {ListenOpen, ListenClose} ==> e.value.pid == PidOf(thread) && e.value.fd == 0))
  {
  }

  /** A tracked socket that leaves SYN_SENT for ESTABLISHED or CLOSE does give its event, about its own call and with its own
      addresses, and an ESTABLISHED one also leaves the time of the transition for that pid and fd. */
  lemma {:induction false} TrackedSocketReports(steps: seq<Step>, tr: Transition, thread: Id, now: u64, room: bool)
    requires LegalRun(steps) && tr.isTcp && tr.sk in Run(steps).tables.skInfo
    requires Legal(Run(steps), Change(tr, thread, now, room)) && tr.after in {Established, Close}
    ensures
      var w, w' := Run(steps), After(Run(steps), Change(tr, thread, now, room));
      && |w'.reports| == |w.reports| + 1 && tr.sk in w.cause
      && var r := w'.reports[|w.reports|];
         && r.cause == Some(w.cause[tr.sk]) && Names(w', r) && r.event.src == tr.src && r.event.dst == tr.dst
         && (r.event.kind == ConnectionOpen <==> tr.after == Established)
         && (r.event.kind == ConnectionError <==> tr.after == Close)
         && (tr.after == Established ==>
               r.event.timestamp == now == GetConnectionTimestamp(w'.tables.timestamps, r.event.pid, r.event.fd))
  {
    RunInv(steps);
    assert SockOk(Run(steps), RunHolders(steps), tr.sk);
  }

  /** This step does not touch what is noted for a thread. */
  predicate LeavesThread(s: Step, thread: Id) {
    ThreadOf(s) == thread ==> s.Change? && !(s.tr.isTcp && s.tr.before == Close && s.tr.after == SynSent)
  }

  /** This step does not touch what is noted for a socket. */
  predicate LeavesSocket(s: Step, sk: u64) {
    s.Change? && s.tr.isTcp && s.tr.sk == sk ==> s.tr.before != SynSent && !(s.tr.before == Close && s.tr.after == SynSent)
  }

  lemma ThreadKept(w: World, s: Step, thread: Id)
    requires LeavesThread(s, thread)
    ensures Lookup(After(w, s).tables.fdByThread, thread) == Lookup(w.tables.fdByThread, thread)
  {
  }

  lemma SocketKept(w: World, s: Step, sk: u64)
    requires LeavesSocket(s, sk)
    ensures Lookup(After(w, s).tables.skInfo, sk) == Lookup(w.tables.skInfo, sk)
  {
  }

  lemma OneMoreStep(steps: seq<Step>, s: Step)
    ensures Run(steps + [s]) == After(Run(steps), s)
  {
    assert (steps + [s])[..|steps|] == steps;
  }

  lemma {:induction false} ThreadStays(before: seq<Step>, more: seq<Step>, thread: Id)
    requires forall s :: s in more ==> LeavesThread(s, thread)
    ensures Lookup(Run(before + more).tables.fdByThread, thread) == Lookup(Run(before).tables.fdByThread, thread)
    decreases |more|
  {
    if more == [] {
      assert before + more == before;
    } else {
      var front, last := more[..|more| - 1], more[|more| - 1];
      ThreadStays(before, front, thread);
      ThreadKept(Run(before + front), last, thread);
      OneMoreStep(before + front, last);
      assert before + front + [last] == before + more;
    }
  }

  lemma {:induction false} SocketStays(before: seq<Step>, more: seq<Step>, sk: u64)
    requires forall s :: s in more ==> LeavesSocket(s, sk)
    ensures Lookup(Run(before + more).tables.skInfo, sk) == Lookup(Run(before).tables.skInfo, sk)
    decreases |more|
  {
    if more == [] {
      assert before + more == before;
    } else {
      var front, last := more[..|more| - 1], more[|more| - 1];
      SocketStays(before, front, sk);
      SocketKept(Run(before + front), last, sk);
      OneMoreStep(before + front, last);
      assert before + front + [last] == before + more;
    }
  }

  /** No connection is missed while the tables have room: a thread enters connect(), moves a socket to SYN_SENT, and the socket
      leaves that state later. Whatever else happens in between, the event for it is sent, and an open leaves its time. */
  lemma ConnectIsReported(before: seq<Step>, thread: Id, fd: u64, inside: seq<Step>, start: Transition, at: u64,
                          waiting: seq<Step>, end: Transition, other: Id, now: u64, room: bool)
    requires forall s :: s in inside ==> LeavesThread(s, thread)
    requires start.isTcp && start.before == Close && start.after == SynSent
    requires forall s :: s in waiting ==> LeavesSocket(s, start.sk)
    requires end.isTcp && end.sk == start.sk && end.before == SynSent && end.after in {Established, Close}
    ensures
      var steps := before + [Enter(thread, fd, true)] + inside + [Change(start, thread, at, true)] + waiting;
      SetState(Run(steps).tables, end, other, now, room).1
        == Some(if end.after == Established then TcpEvent(ConnectionOpen, fd, now, PidOf(thread), end.src, end.dst)
                else TcpEvent(ConnectionError, fd, 0, PidOf(thread), end.src, end.dst))
      && (end.after == Established ==>
            GetConnectionTimestamp(SetState(Run(steps).tables, end, other, now, room).0.timestamps, PidOf(thread), fd) == now)
  {
    var entered := before + [Enter(thread, fd, true)];
    var started := entered + inside + [Change(start, thread, at, true)];
    OneMoreStep(before, Enter(thread, fd, true));
    ThreadStays(entered, inside, thread);
    assert Lookup(Run(entered + inside).tables.fdByThread, thread) == Some(fd);
    OneMoreStep(entered + inside, Change(start, thread, at, true));
    SocketStays(started, waiting, start.sk);
    assert Lookup(Run(started + waiting).tables.skInfo, start.sk) == Some(PidFd(PidOf(thread), fd));
  }
}
