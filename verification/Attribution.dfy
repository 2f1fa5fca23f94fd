/** End to end: kernel tables, perf buffers read in any order, and the connection tables in user space. */
module Attribution {
  import opened Bytes
  import opened Classifiers
  import opened L7
  import opened Tcp
  import opened Container

  /** A tracked transition to ESTABLISHED: the pid and fd of the connect(), the time, and the peer of the socket. */
  datatype Open = Open(pid: Pid, fd: u64, at: u64, dst: Endpoint)

  /** Events on their way to user space: a TCP event with the open it announces, and an L7 event with
      the latest open on its pid and fd at the moment it was sent. */
  datatype SentTcp = SentTcp(event: TcpEvent, open: Option<nat>)
  datatype SentL7 = SentL7(event: Event, latest: Option<nat>)

  /** A request a container accepted: its connection, the open the connection was made from, and the sent event. */
  datatype Match = Match(conn: ActiveConnection, open: nat, sent: SentL7)

  /** `origin` says from which open the connection of a container at a pid and fd was made. */
  datatype Host = Host(
    tcp: TcpTables, l7: Tables, opens: seq<Open>, tcpSent: seq<SentTcp>, l7Sent: seq<SentL7>,
    containers: map<nat, Connections>, origin: map<(nat, PidFd), nat>, matches: seq<Match>)

  const INIT := Host(TcpTables(map[], map[], map[]), Tables(map[], map[]), [], [], [], map[], map[], [])

  /** One step: a handler, an eviction, or the arrival or loss of any event still on its way.
      Which container an event is routed to, and when a container starts afresh, is arbitrary. */
  datatype Step =
    | ConnectEnter(thread: Id, fd: u64, room: bool)
    | ConnectExit(thread: Id)
    | SockChange(tr: Transition, thread: Id, now: u64, room: bool)
    | Handler(step: L7.Step)
    | EvictTimestamps(keys: set<PidFd>)
    | TcpArrives(i: nat, container: nat, actual: Option<Endpoint>, wallTime: u64)
    | TcpLost(i: nat)
    | L7Arrives(j: nat, container: nat)
    | L7Lost(j: nat)
    | ContainerStarts(container: nat)

  /** The last of the opens for a pid and fd. */
  function Latest(opens: seq<Open>, k: PidFd): Option<nat> {
    if opens == [] then None
    else
      var n := |opens| - 1;
      if PidFd(opens[n].pid, opens[n].fd) == k then Some(n) else Latest(opens[..n], k)
  }

  function ConnectionsOf(h: Host, container: nat): Connections {
    if container in h.containers then h.containers[container] else NO_CONNECTIONS
  }

  /** The open a step is, if any, told from the transition and not from what is sent about it. */
  function OpenOf(h: Host, s: Step): Option<Open> {
    if s.SockChange? && s.tr.isTcp && s.tr.before == SynSent && s.tr.after == Established && s.tr.sk in h.tcp.skInfo then
      var info := h.tcp.skInfo[s.tr.sk];
      Some(Open(info.pid, info.fd, s.now, s.tr.dst))
    else None
  }

  /** The host after a change of state: the open is noted, and the event is on its way. */
  function AfterTcp(h: Host, open: Option<Open>, e: Option<TcpEvent>): Host {
    h.(opens := if open.Some? then h.opens + [open.value] else h.opens,
       tcpSent := if e.Some? then h.tcpSent + [SentTcp(e.value, if open.Some? then Some(|h.opens|) else None)] else h.tcpSent)
  }

  /** What the event loop does with a TCP event. */
  function Receive(h: Host, sent: SentTcp, container: nat, actual: Option<Endpoint>, wallTime: u64): Host {
    var e, c := sent.event, ConnectionsOf(h, container);
    match e.kind
    case ConnectionOpen =>
      var c' := Opened(c, e.src, e.dst, e.pid, e.fd, e.timestamp, false, actual, wallTime);
      h.(containers := h.containers[container := c'],
         origin := if IsLoopback(e.dst) || sent.open.None? then h.origin
                   else h.origin[(container, PidFd(e.pid, e.fd)) := sent.open.value])
    case ConnectionError =>
      h.(containers := h.containers[container := Opened(c, e.src, e.dst, e.pid, e.fd, 0, true, actual, wallTime)])
    case _ => h
  }

  function ReceiveL7(h: Host, sent: SentL7, container: nat): Host {
    var e := sent.event;
    var at := (container, PidFd(e.pid, e.fd));
    match Accepted(ConnectionsOf(h, container), e.pid, e.fd, e.connectionTimestamp)
    case None => h
    case Some(conn) => h.(matches := h.matches + [Match(conn, if at in h.origin then h.origin[at] else |h.opens|, sent)])
  }

  /** The host after a step; `o` is what the handler does when the step is one. */
  function Next(h: Host, s: Step, o: Outcome): Host {
    match s
    case ConnectEnter(thread, fd, room) => h.(tcp := EnterConnect(h.tcp, thread, fd, room))
    case ConnectExit(thread) => h.(tcp := ExitConnect(h.tcp, thread))
    case SockChange(tr, thread, now, room) =>
      var (t, e) := SetState(h.tcp, tr, thread, now, room);
      AfterTcp(h.(tcp := t), OpenOf(h, s), e)
    case Handler(_) =>
      var h' := h.(l7 := o.tables);
      if o.event.None? then h'
      else h'.(l7Sent := h.l7Sent + [SentL7(o.event.value, Latest(h.opens, PidFd(o.event.value.pid, o.event.value.fd)))])
    case EvictTimestamps(keys) => h.(tcp := h.tcp.(timestamps := h.tcp.timestamps - keys))
    case TcpArrives(i, container, actual, wallTime) =>
      if i < |h.tcpSent| then
        Receive(h.(tcpSent := Without(h.tcpSent, i)), h.tcpSent[i], container, actual, wallTime)
      else h
    case TcpLost(i) => if i < |h.tcpSent| then h.(tcpSent := Without(h.tcpSent, i)) else h
    case L7Arrives(j, container) =>
      if j < |h.l7Sent| then ReceiveL7(h.(l7Sent := Without(h.l7Sent, j)), h.l7Sent[j], container) else h
    case L7Lost(j) => if j < |h.l7Sent| then h.(l7Sent := Without(h.l7Sent, j)) else h
    case ContainerStarts(container) => h.(containers := h.containers[container := NO_CONNECTIONS])
  }

  function After(c: Classifiers, h: Host, s: Step): Host {
    Next(h, s, if s.Handler? then Apply(c, h.l7, h.tcp.timestamps, s.step) else Outcome(h.l7, None, Quiet))
  }

  function Run(c: Classifiers, steps: seq<Step>): Host {
    if steps == [] then INIT else After(c, Run(c, steps[..|steps| - 1]), steps[|steps| - 1])
  }

  /** The open of number `n` is for this pid and fd and has this time. */
  predicate IsOpen(h: Host, n: nat, pid: Pid, fd: u64, at: u64) {
    n < |h.opens| && h.opens[n].pid == pid && h.opens[n].fd == fd && h.opens[n].at == at
  }

  predicate TimestampOk(h: Host, k: PidFd) {
    k in h.tcp.timestamps ==>
      Latest(h.opens, k).Some? && IsOpen(h, Latest(h.opens, k).value, k.pid, k.fd, h.tcp.timestamps[k])
  }

  predicate SentTcpOk(h: Host, s: SentTcp) {
    s.event.kind == ConnectionOpen ==>
      s.open.Some? && IsOpen(h, s.open.value, s.event.pid, s.event.fd, s.event.timestamp)
      && h.opens[s.open.value].dst == s.event.dst
  }

  predicate SentL7Ok(h: Host, s: SentL7) {
    s.event.connectionTimestamp != 0 ==>
      s.latest.Some? && IsOpen(h, s.latest.value, s.event.pid, s.event.fd, s.event.connectionTimestamp)
  }

  predicate ConnectionOk(h: Host, container: nat, k: PidFd) {
    k in ConnectionsOf(h, container).byPidFd ==>
      var conn := ConnectionsOf(h, container).byPidFd[k];
      && (container, k) in h.origin && conn.pid == k.pid && conn.fd == k.fd
      && IsOpen(h, h.origin[(container, k)], k.pid, k.fd, conn.timestamp)
      && h.opens[h.origin[(container, k)]].dst == conn.dest && !IsLoopback(conn.dest)
  }

  predicate MatchOk(h: Host, m: Match) {
    && SentL7Ok(h, m.sent)
    && m.conn.pid == m.sent.event.pid && m.conn.fd == m.sent.event.fd
    && (m.sent.event.connectionTimestamp != 0 ==> m.conn.timestamp == m.sent.event.connectionTimestamp)
    && IsOpen(h, m.open, m.conn.pid, m.conn.fd, m.conn.timestamp)
    && h.opens[m.open].dst == m.conn.dest && !IsLoopback(m.conn.dest)
  }

  ghost predicate Inv(h: Host) {
    && (forall k :: TimestampOk(h, k))
    && (forall s :: s in h.tcpSent ==> SentTcpOk(h, s))
    && (forall s :: s in h.l7Sent ==> SentL7Ok(h, s))
    && (forall container, k :: ConnectionOk(h, container, k))
    && (forall m :: m in h.matches ==> MatchOk(h, m))
  }

  lemma LatestAppended(opens: seq<Open>, o: Open, k: PidFd)
    ensures Latest(opens + [o], k) == if PidFd(o.pid, o.fd) == k then Some(|opens|) else Latest(opens, k)
  {
    assert (opens + [o])[..|opens|] == opens;
  }

  predicate Stamped(o: Outcome, ts: Timestamps) {
    o.event.Some? ==> o.event.value.connectionTimestamp == GetConnectionTimestamp(ts, o.event.value.pid, o.event.value.fd)
  }

  /** Every event of the L7 handlers carries the connection timestamp its own pid and fd have at that moment. */
  lemma AnswerStamp(c: Classifiers, t: Tables, ts: Timestamps, k: Key, mem: seq<byte>, size: nat, response: Reply,
                    now: u64, e: Event, heap: Request, copies: bool, recopies: bool)
    requires k in t.pending
    ensures
      var o := Answer(c, t, ts, k, mem, size, response, now, e, heap, copies, recopies);
      Stamped(o, ts)
  {
  }

  lemma HandleReadStamp(c: Classifiers, t: Tables, ts: Timestamps, k: Key, mem: seq<byte>, size: u64,
                        now: u64, heap: Request, event: Event, copies: bool, recopies: bool)
    ensures
      var o := HandleRead(c, t, ts, k, mem, size, now, heap, event, copies, recopies);
      Stamped(o, ts)
  {
    var e := event.(fd := k.fd, pid := k.pid, protocol := Unknown, connectionTimestamp := 0,
                    status := STATUS_UNKNOWN, op := NoMethod, statementId := 0, payloadSize := 0);
    if k in t.pending {
      AnswerStamp(c, t, ts, k, mem, size, NoReply, now, e, heap, copies, recopies);
    } else if IsCassandraResponse(mem, size).Some? {
      var (streamId, status) := IsCassandraResponse(mem, size).value;
      if k.(streamId := streamId) in t.pending {
        AnswerStamp(c, t, ts, k.(streamId := streamId), mem, size, Reply(status, 0), now, e.(status := status), heap, copies,
                    recopies);
      }
    }
  }

  lemma EventStamp(c: Classifiers, t: Tables, ts: Timestamps, s: L7.Step)
    ensures
      var o := Apply(c, t, ts, s);
      Stamped(o, ts)
  {
    if s.ReadExit? && s.id in t.activeReads && BytesRead(t.activeReads[s.id], s.r).Some? {
      var args := t.activeReads[s.id];
      var n := BytesRead(args, s.r).value;
      var (mem, size) := Resolve(s.r.src, n, args.iovlen, n, s.cpu.iovecBuf);
      HandleReadStamp(c, t.(activeReads := t.activeReads - {s.id}), ts, Key(args.fd, PidOf(s.pidTgid), s.isTls, -1), mem, size,
                      s.now, s.cpu.request, s.cpu.event, s.copies, s.recopies);
    }
  }

  /** The log of opens and the timestamp table change together. */
  lemma OpensAndTimestamps(h: Host, s: Step, o: Outcome)
    ensures
      var h' := Next(h, s, o);
      match OpenOf(h, s)
      case None => h'.opens == h.opens && h'.tcp.timestamps == h.tcp.timestamps - if s.EvictTimestamps? then s.keys else {}
      case Some(op) =>
        h'.opens == h.opens + [op] && h'.tcp.timestamps == h.tcp.timestamps[PidFd(op.pid, op.fd) := op.at]
  {
  }

  lemma TimestampStep(h: Host, s: Step, o: Outcome, k: PidFd, h': Host)
    requires TimestampOk(h, k)
    requires match OpenOf(h, s)
             case None => h'.opens == h.opens && h'.tcp.timestamps == h.tcp.timestamps - if s.EvictTimestamps? then s.keys else {}
             case Some(op) =>
               h'.opens == h.opens + [op] && h'.tcp.timestamps == h.tcp.timestamps[PidFd(op.pid, op.fd) := op.at]
    ensures TimestampOk(h', k)
  {
    if OpenOf(h, s).Some? {
      LatestAppended(h.opens, OpenOf(h, s).value, k);
    }
  }

  lemma SentTcpStep(h: Host, s: Step, o: Outcome, sent: SentTcp)
    requires sent in Next(h, s, o).tcpSent && (sent in h.tcpSent ==> SentTcpOk(h, sent))
    ensures SentTcpOk(Next(h, s, o), sent)
  {
  }

  lemma SentL7Step(h: Host, s: Step, o: Outcome, sent: SentL7)
    requires sent in Next(h, s, o).l7Sent && (sent in h.l7Sent ==> SentL7Ok(h, sent))
    requires Stamped(o, h.tcp.timestamps)
    requires o.event.Some? ==> TimestampOk(h, PidFd(o.event.value.pid, o.event.value.fd))
    ensures SentL7Ok(Next(h, s, o), sent)
  {
  }

  lemma ConnectionFrame(h: Host, h': Host, container: nat, k: PidFd)
    requires ConnectionOk(h, container, k) && h.opens <= h'.opens && h'.origin == h.origin
    requires ConnectionsOf(h', container).byPidFd in {ConnectionsOf(h, container).byPidFd, map[]}
    ensures ConnectionOk(h', container, k)
  {
  }

  lemma OpenedConnection(h: Host, sent: SentTcp, to: nat, actual: Option<Endpoint>, wallTime: u64, container: nat, k: PidFd)
    requires ConnectionOk(h, container, k) && SentTcpOk(h, sent)
    requires sent.event.kind == ConnectionOpen && !IsLoopback(sent.event.dst)
    ensures ConnectionOk(Receive(h, sent, to, actual, wallTime), container, k)
  {
  }

  lemma ReceiveConnection(h: Host, sent: SentTcp, to: nat, actual: Option<Endpoint>, wallTime: u64, container: nat, k: PidFd)
    requires ConnectionOk(h, container, k) && SentTcpOk(h, sent)
    ensures ConnectionOk(Receive(h, sent, to, actual, wallTime), container, k)
  {
    if sent.event.kind == ConnectionOpen && !IsLoopback(sent.event.dst) {
      OpenedConnection(h, sent, to, actual, wallTime, container, k);
    } else {
      ConnectionFrame(h, Receive(h, sent, to, actual, wallTime), container, k);
    }
  }

  lemma ConnectionStep(h: Host, s: Step, o: Outcome, container: nat, k: PidFd)
    requires ConnectionOk(h, container, k)
    requires s.TcpArrives? && s.i < |h.tcpSent| ==> SentTcpOk(h, h.tcpSent[s.i])
    ensures ConnectionOk(Next(h, s, o), container, k)
  {
    if s.TcpArrives? && s.i < |h.tcpSent| {
      var h' := h.(tcpSent := Without(h.tcpSent, s.i));
      ConnectionFrame(h, h', container, k);
      ReceiveConnection(h', h.tcpSent[s.i], s.container, s.actual, s.wallTime, container, k);
    } else {
      ConnectionFrame(h, Next(h, s, o), container, k);
    }
  }

  lemma MatchStep(h: Host, s: Step, o: Outcome, m: Match)
    requires m in Next(h, s, o).matches && (m in h.matches ==> MatchOk(h, m))
    requires s.L7Arrives? && s.j < |h.l7Sent| ==>
      var e := h.l7Sent[s.j].event;
      SentL7Ok(h, h.l7Sent[s.j]) && ConnectionOk(h, s.container, PidFd(e.pid, e.fd))
    ensures MatchOk(Next(h, s, o), m)
  {
  }

  lemma NextInv(h: Host, s: Step, o: Outcome)
    requires Inv(h) && Stamped(o, h.tcp.timestamps)
    ensures Inv(Next(h, s, o))
  {
    var h' := Next(h, s, o);
    OpensAndTimestamps(h, s, o);
    forall k ensures TimestampOk(h', k) {
      TimestampStep(h, s, o, k, h');
    }
    forall sent | sent in h'.tcpSent ensures SentTcpOk(h', sent) {
      SentTcpStep(h, s, o, sent);
    }
    forall sent | sent in h'.l7Sent ensures SentL7Ok(h', sent) {
      assert o.event.Some? ==> TimestampOk(h, PidFd(o.event.value.pid, o.event.value.fd));
      SentL7Step(h, s, o, sent);
    }
    forall container, k ensures ConnectionOk(h', container, k) {
      ConnectionStep(h, s, o, container, k);
    }
    forall m | m in h'.matches ensures MatchOk(h', m) {
      if s.L7Arrives? && s.j < |h.l7Sent| {
        var e := h.l7Sent[s.j].event;
        assert ConnectionOk(h, s.container, PidFd(e.pid, e.fd));
      }
      MatchStep(h, s, o, m);
    }
  }

  lemma {:induction false} RunInv(c: Classifiers, steps: seq<Step>)
    ensures Inv(Run(c, steps))
  {
    if steps != [] {
      var h, s := Run(c, steps[..|steps| - 1]), steps[|steps| - 1];
      RunInv(c, steps[..|steps| - 1]);
      if s.Handler? {
        EventStamp(c, h.l7, h.tcp.timestamps, s.step);
      }
      NextInv(h, s, if s.Handler? then Apply(c, h.l7, h.tcp.timestamps, s.step) else Outcome(h.l7, None, Quiet));
    }
  }

  /** Opens for one pid and fd happen at different times. */
  predicate ClockTellsOpensApart(opens: seq<Open>) {
    forall i, j :: 0 <= i < j < |opens| && opens[i].pid == opens[j].pid && opens[i].fd == opens[j].fd ==>
      opens[i].at != opens[j].at
  }

  /** A request with a connection timestamp is accepted only for the connection made from the very open that was the latest
      tracked one on its pid and fd when it was sent, whatever the order of arrival, reuse, loss and eviction. */
  lemma {:induction false} RequestsMeetTheirConnection(c: Classifiers, steps: seq<Step>)
    requires ClockTellsOpensApart(Run(c, steps).opens)
    ensures
      var h := Run(c, steps);
      forall m :: m in h.matches && m.sent.event.connectionTimestamp != 0 ==>
        && m.sent.latest == Some(m.open) && m.open < |h.opens|
        && h.opens[m.open] == Open(m.sent.event.pid, m.sent.event.fd, m.sent.event.connectionTimestamp, m.conn.dest)
        && m.conn.timestamp == m.sent.event.connectionTimestamp && !IsLoopback(m.conn.dest)
  {
    RunInv(c, steps);
    var h := Run(c, steps);
    forall m | m in h.matches && m.sent.event.connectionTimestamp != 0
      ensures m.sent.latest == Some(m.open) && m.open < |h.opens|
      ensures h.opens[m.open] == Open(m.sent.event.pid, m.sent.event.fd, m.sent.event.connectionTimestamp, m.conn.dest)
      ensures m.conn.timestamp == m.sent.event.connectionTimestamp && !IsLoopback(m.conn.dest)
    {
      assert MatchOk(h, m);
    }
  }
}
