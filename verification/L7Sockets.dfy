/** What ties a step to its socket, its thread and its read: keys, read arguments, the bytes a read brings. */
module L7Sockets {
  import opened Bytes
  import opened Payload
  import opened Classifiers
  import opened L7
  import opened L7History
  import opened L7Provenance
  import opened L7Verdicts

  /** The pid is the upper half of a `pid_tgid` word. */
  lemma PidOfWord(pid: bv64, tid: bv64)
    requires pid < 0x1_0000_0000 && tid < 0x1_0000_0000
    ensures PidOf(Id((pid << 32) | tid)) == pid
  {
  }

  /** The read brings `n` bytes: the return value, or what is stored where the read was told to. */
  predicate Brings(args: ReadArgs, r: Returned, n: nat) {
    r.ret > 0 && n > 0 && if args.ret == 0 then n == r.ret else r.retValue == Some(n)
  }

  /** What the classifiers see of a read that brings `n` bytes: its buffer, or the front of its iovecs cut at `n`. */
  lemma ReadSees(t: Tables, s: Step, n: nat)
    requires s.ReadExit? && s.id in t.activeReads && Brings(t.activeReads[s.id], s.r, n)
    ensures
      var (mem, size) := BytesSeen(t, s);
      var iovlen := t.activeReads[s.id].iovlen;
      && (iovlen == 0 ==> mem == s.r.src.mem && size == n)
      && (iovlen != 0 && FirstReadable(s.r.src.iovs, Visited(iovlen)) ==>
            var all := Concat(s.r.src.iovs, Visited(iovlen));
            var m := Min(Min(|all|, n), 1023);
            && Min(size, 1023) == m && mem[..m] == all[..m]
            && (n <= 1023 ==> size == m))
  {
    var iovlen, iovs := t.activeReads[s.id].iovlen, s.r.src.iovs;
    if iovlen != 0 && FirstReadable(iovs, Visited(iovlen)) {
      var all := Concat(iovs, Visited(iovlen));
      GatherFromPrefix(iovs, Visited(iovlen), Limit(n), 0, s.cpu.iovecBuf);
      assert s.cpu.iovecBuf[..0] + all == all;
      if n <= 1023 {
        GatherExact(iovs, iovlen, n, s.cpu.iovecBuf);
      }
    }
  }

  /** A read that brings nothing is forgotten and does nothing else. */
  lemma FailedRead(c: Classifiers, t: Tables, ts: Timestamps, s: Step)
    requires s.ReadExit? && s.id in t.activeReads && forall n :: !Brings(t.activeReads[s.id], s.r, n)
    ensures Apply(c, t, ts, s) == Outcome(t.(activeReads := t.activeReads - {s.id}), None, Quiet)
  {
    var args := t.activeReads[s.id];
    if BytesRead(args, s.r).Some? {
      assert Brings(args, s.r, BytesRead(args, s.r).value);
    }
  }

  /** The socket of a step, as its process names it. */
  datatype Socket = Socket(fd: u64, pid: Pid, isTls: bool)

  function SocketOf(t: Tables, s: Step): Option<Socket> {
    match s
    case Write(pidTgid, fd, isTls, _, _, _, _, _) => Some(Socket(fd, PidOf(pidTgid), isTls))
    case ReadExit(id, pidTgid, isTls, _, _, _, _, _) =>
      if id in t.activeReads then Some(Socket(t.activeReads[id].fd, PidOf(pidTgid), isTls)) else None
    case _ => None
  }

  function SocketOfKey(k: Key): Socket {
    Socket(k.fd, k.pid, k.isTls)
  }

  /** What a step stores, takes out, puts back or sends is about its own socket, and HTTP/2 frames carry its time. */
  predicate Names(o: Outcome, socket: Socket, now: u64) {
    && (match o.effect
        case Attempt(k, _) => SocketOfKey(k) == socket
        case Matched(k, _) => SocketOfKey(k) == socket
        case Dropped(k) => SocketOfKey(k) == socket
        case Split(k) => SocketOfKey(k) == socket
        case Shrunk(k) => SocketOfKey(k) == socket
        case _ => true)
    && (o.event.Some? ==>
          && o.event.value.fd == socket.fd && o.event.value.pid == socket.pid
          && (o.effect.Quiet? && o.event.value.protocol == Http2 ==> o.event.value.duration == now))
  }

  lemma HandleReadNames(c: Classifiers, t: Tables, ts: Timestamps, k: Key, mem: seq<byte>, size: u64, now: u64, heap: Request,
                        event: Event, copies: bool, recopies: bool)
    ensures Names(HandleRead(c, t, ts, k, mem, size, now, heap, event, copies, recopies), SocketOfKey(k), now)
  {
  }

  lemma StepNames(c: Classifiers, t: Tables, ts: Timestamps, s: Step)
    requires SocketOf(t, s).Some?
    ensures var o := Apply(c, t, ts, s); Names(o, SocketOf(t, s).value, NowOf(s))
  {
    if s.ReadExit? {
      var (mem, size) := BytesSeen(t, s);
      HandleReadNames(c, t.(activeReads := t.activeReads - {s.id}), ts,
                      Key(t.activeReads[s.id].fd, PidOf(s.pidTgid), s.isTls, -1), mem, size, s.now, s.cpu.request, s.cpu.event,
                      s.copies, s.recopies);
    }
  }

  /** The step that entered the read with this id last, if the read did not return since. */
  function LatestEnter(steps: seq<Timed>, id: Id): (r: Option<nat>)
    ensures r.Some? ==> r.value < |steps| && steps[r.value].step.ReadEnter?
  {
    if steps == [] then None
    else
      var n := |steps| - 1;
      match steps[n].step
      case ReadEnter(id', _, room) => if id' == id && room then Some(n) else LatestEnter(steps[..n], id)
      case ReadExit(id', _, _, _, _, _, _, _) => if id' == id then None else LatestEnter(steps[..n], id)
      case _ => LatestEnter(steps[..n], id)
  }

  lemma HandleReadKeepsReads(c: Classifiers, t: Tables, ts: Timestamps, k: Key, mem: seq<byte>, size: u64, now: u64,
                             heap: Request, event: Event, copies: bool, recopies: bool)
    ensures HandleRead(c, t, ts, k, mem, size, now, heap, event, copies, recopies).tables.activeReads == t.activeReads
  {
  }

  lemma ReadsAfter(c: Classifiers, t: Tables, ts: Timestamps, s: Step, id: Id)
    ensures
      Lookup(Apply(c, t, ts, s).tables.activeReads, id)
        == if s.ReadEnter? && s.id == id && s.room then Some(s.args)
           else if s.ReadExit? && s.id == id then None
           else Lookup(t.activeReads, id)
  {
    if s.ReadExit? && s.id in t.activeReads {
      var (mem, size) := BytesSeen(t, s);
      HandleReadKeepsReads(c, t.(activeReads := t.activeReads - {s.id}), ts,
                           Key(t.activeReads[s.id].fd, PidOf(s.pidTgid), s.isTls, -1), mem, size, s.now, s.cpu.request,
                           s.cpu.event, s.copies, s.recopies);
    }
  }

  function ArgsOf(steps: seq<Timed>, id: Id): Option<ReadArgs> {
    match LatestEnter(steps, id)
    case None => None
    case Some(e) => Some(steps[e].step.args)
  }

  lemma ArgsOneMore(steps: seq<Timed>, id: Id, n: nat, before: Option<ReadArgs>)
    requires |steps| == n + 1 && before == ArgsOf(steps[..n], id)
    ensures
      ArgsOf(steps, id)
        == if steps[n].step.ReadEnter? && steps[n].step.id == id && steps[n].step.room then Some(steps[n].step.args)
           else if steps[n].step.ReadExit? && steps[n].step.id == id then None
           else before
  {
  }

  /** Over every run the table holds the arguments of the reads entered and not returned, each as it was entered last. */
  lemma {:induction false} ReadArgsAreLatest(c: Classifiers, steps: seq<Timed>, n: nat, id: Id)
    requires n <= |steps|
    ensures Lookup(Before(c, steps, n).tables.activeReads, id) == ArgsOf(steps[..n], id)
    decreases n
  {
    if n > 0 {
      ReadArgsAreLatest(c, steps, n - 1, id);
      OneStep(c, steps, n - 1);
      TablesAfter(Before(c, steps, n - 1), OutcomeOf(c, steps, n - 1));
      ReadsAfter(c, Before(c, steps, n - 1).tables, steps[n - 1].ts, steps[n - 1].step, id);
      assert steps[..n][..n - 1] == steps[..n - 1];
      ArgsOneMore(steps[..n], id, n - 1, ArgsOf(steps[..n - 1], id));
    }
  }

  /** Over every run: a response event answers a write on the very socket its read was entered for, by the same process and
      both through TLS or both not; and it names that socket. */
  lemma SameSocket(c: Classifiers, steps: seq<Timed>, i: nat, n: nat, m: nat)
    requires AnsweredLater(c, steps, i, n, m)
    ensures
      var write, read, e := steps[n].step, steps[m].step, Run(c, steps).emitted[i].event;
      && read.ReadExit? && PidOf(write.pidTgid) == PidOf(read.pidTgid) == e.pid && write.isTls == read.isTls
      && LatestEnter(steps[..m], read.id).Some?
      && write.fd == steps[LatestEnter(steps[..m], read.id).value].step.args.fd == e.fd
  {
    var t, read := Before(c, steps, m).tables, steps[m].step;
    SendingStepSaw(c, steps, m);
    AnsweredIsStored(c, steps, i, n, m);
    ReadArgsAreLatest(c, steps, m, read.id);
    StepNames(c, t, steps[m].ts, read);
    StepNames(c, Before(c, steps, n).tables, steps[n].ts, steps[n].step);
  }
}
