/** Connect tracking of `tcp/state.c`: the handlers as functions on their tables, and as they run. */
module Tcp {
  import opened Bytes
  import opened L7
  import opened L7Tracer

  datatype SockState =
    | Established | SynSent | SynRecv | FinWait1 | FinWait2 | TimeWait | Close | CloseWait | LastAck | Listen | Closing
    | NewSynRecv

  datatype Kind = ConnectionOpen | ConnectionError | ConnectionClose | ListenOpen | ListenClose

  datatype TcpEvent = TcpEvent(kind: Kind, fd: u64, timestamp: u64, pid: Pid, src: Endpoint, dst: Endpoint)

  /** A change of state of socket `sk` as `inet_sock_set_state` reports it. */
  datatype Transition = Transition(sk: u64, before: SockState, after: SockState, isTcp: bool, src: Endpoint, dst: Endpoint)

  datatype TcpTables = TcpTables(fdByThread: map<Id, u64>, skInfo: map<u64, PidFd>, timestamps: Timestamps)

  function EnterConnect(t: TcpTables, thread: Id, fd: u64, room: bool): TcpTables {
    if room then t.(fdByThread := t.fdByThread[thread := fd]) else t
  }

  function ExitConnect(t: TcpTables, thread: Id): TcpTables {
    t.(fdByThread := t.fdByThread - {thread})
  }

  /** The events of transitions that do not leave SYN_SENT. */
  function PlainKind(before: SockState, after: SockState): Option<Kind> {
    if before == Established && (after == FinWait1 || after == CloseWait) then Some(ConnectionClose)
    else if before == Close && after == Listen then Some(ListenOpen)
    else if before == Listen && after == Close then Some(ListenClose)
    else None
  }

  /** `inet_sock_set_state`; `room` is false when the update of a full `sk_info` fails. */
  function SetState(t: TcpTables, tr: Transition, thread: Id, now: u64, room: bool): (TcpTables, Option<TcpEvent>) {
    if !tr.isTcp then (t, None)
    else if tr.before == Close && tr.after == SynSent then
      if thread !in t.fdByThread then (t, None)
      else
        var info := PidFd(PidOf(thread), t.fdByThread[thread]);
        (t.(fdByThread := t.fdByThread - {thread}, skInfo := if room then t.skInfo[tr.sk := info] else t.skInfo), None)
    else if tr.before == SynSent then
      if tr.sk !in t.skInfo then (t, None)
      else
        var info := t.skInfo[tr.sk];
        var t := t.(skInfo := t.skInfo - {tr.sk});
        if tr.after == Established then
          (t.(timestamps := t.timestamps[info := now]),
           Some(TcpEvent(ConnectionOpen, info.fd, now, info.pid, tr.src, tr.dst)))
        else if tr.after == Close then (t, Some(TcpEvent(ConnectionError, info.fd, 0, info.pid, tr.src, tr.dst)))
        else (t, None)
    else
      match PlainKind(tr.before, tr.after)
      case None => (t, None)
      case Some(kind) =>
        (t, Some(TcpEvent(kind, 0, 0, if kind == ConnectionClose then 0 else PidOf(thread), tr.src, tr.dst)))
  }

  class TcpTracer {
    const timestamps: ConnectionTimestamps
    var fdByThread: map<Id, u64>
    var skInfo: map<u64, PidFd>

    constructor (timestamps: ConnectionTimestamps)
      ensures this.timestamps == timestamps && fdByThread == map[] && skInfo == map[]
    {
      this.timestamps := timestamps;
      fdByThread, skInfo := map[], map[];
    }

    ghost function View(): TcpTables
      reads this, timestamps
    {
      TcpTables(fdByThread, skInfo, timestamps.entries)
    }

    method SysEnterConnect(thread: Id, fd: u64, room: bool)
      modifies this`fdByThread
      ensures View() == EnterConnect(old(View()), thread, fd, room)
    {
      if room {
        fdByThread := fdByThread[thread := fd];
      }
    }

    method SysExitConnect(thread: Id)
      modifies this`fdByThread
      ensures View() == ExitConnect(old(View()), thread)
    {
      fdByThread := fdByThread - {thread};
    }

    method InetSockSetState(tr: Transition, thread: Id, now: u64, room: bool) returns (out: Option<TcpEvent>)
      modifies this, timestamps
      ensures (View(), out) == SetState(old(View()), tr, thread, now, room)
    {
      if !tr.isTcp {
        return None;
      }
      var pid := PidOf(thread);
      if tr.before == Close && tr.after == SynSent {
        if thread !in fdByThread {
          return None;
        }
        var info := PidFd(pid, fdByThread[thread]);
        fdByThread := fdByThread - {thread};
        if room {
          skInfo := skInfo[tr.sk := info];
        }
        return None;
      }
      var fd, timestamp := 0, 0;
      var kind: Option<Kind> := None;
      if tr.before == SynSent {
        if tr.sk !in skInfo {
          return None;
        }
        var info := skInfo[tr.sk];
        if tr.after == Established {
          timestamp := now;
          timestamps.entries := timestamps.entries[info := timestamp];
          kind := Some(ConnectionOpen);
        } else if tr.after == Close {
          kind := Some(ConnectionError);
        }
        pid, fd := info.pid, info.fd;
        skInfo := skInfo - {tr.sk};
      }
      if tr.before == Established && (tr.after == FinWait1 || tr.after == CloseWait) {
        pid := 0;
        kind := Some(ConnectionClose);
      }
      if tr.before == Close && tr.after == Listen {
        kind := Some(ListenOpen);
      }
      if tr.before == Listen && tr.after == Close {
        kind := Some(ListenClose);
      }
      if kind.None? {
        return None;
      }
      return Some(TcpEvent(kind.value, fd, timestamp, pid, tr.src, tr.dst));
    }
  }
}
