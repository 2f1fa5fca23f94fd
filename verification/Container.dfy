/** The connection tables of a container: `OnConnectionOpen` and the guard of `OnL7Request`. */
module Container {
  import opened Bytes
  import opened L7

  datatype ActiveConnection = ActiveConnection(dest: Endpoint, actualDest: Endpoint, pid: Pid, fd: u64, timestamp: u64)

  datatype AddrPair = AddrPair(src: Endpoint, dst: Endpoint)

  /** The tables `OnConnectionOpen` fills. */
  datatype Connections = Connections(
    byPidFd: map<PidFd, ActiveConnection>, active: map<AddrPair, ActiveConnection>,
    successful: map<AddrPair, nat>, failed: map<Endpoint, nat>, lastAttempt: map<Endpoint, u64>)

  const NO_CONNECTIONS := Connections(map[], map[], map[], map[], map[])

  /** A loopback address, in its 4-byte form, as IPv6, or mapped into IPv6. */
  predicate IsLoopback(e: Endpoint) {
    || (|e.addr| == 4 && e.addr[0] == 127)
    || e.addr == seq(15, _ => 0) + [1]
    || (|e.addr| == 16 && e.addr[..12] == seq(10, _ => 0) + [0xff, 0xff] && e.addr[12] == 127)
  }

  function Count<K>(m: map<K, nat>, k: K): nat {
    if k in m then m[k] else 0
  }

  /** `OnConnectionOpen`; `actual` is what conntrack answers and `wallTime` the time of the call. */
  function Opened(c: Connections, src: Endpoint, dst: Endpoint, pid: Pid, fd: u64, timestamp: u64, isError: bool,
                  actual: Option<Endpoint>, wallTime: u64): Connections
  {
    if IsLoopback(dst) then c
    else
      var actualDst := if actual.Some? then actual.value else dst;
      var conn := ActiveConnection(dst, actualDst, pid, fd, timestamp);
      var c := c.(lastAttempt := c.lastAttempt[dst := wallTime]);
      if isError then c.(failed := c.failed[dst := Count(c.failed, dst) + 1])
      else
        var pair := AddrPair(src, actualDst);
        c.(active := c.active[pair := conn], byPidFd := c.byPidFd[PidFd(pid, fd) := conn],
           successful := c.successful[pair := Count(c.successful, pair) + 1])
  }

  /** `OnL7Request` up to its guard: the connection the request is accepted for, if any. */
  function Accepted(c: Connections, pid: Pid, fd: u64, timestamp: u64): (conn: Option<ActiveConnection>)
    ensures conn.Some? && timestamp != 0 ==> conn.value.timestamp == timestamp
    ensures conn.None? <==>
      PidFd(pid, fd) !in c.byPidFd || (timestamp != 0 && c.byPidFd[PidFd(pid, fd)].timestamp != timestamp)
  {
    if PidFd(pid, fd) !in c.byPidFd then None
    else
      var conn := c.byPidFd[PidFd(pid, fd)];
      if timestamp != 0 && conn.timestamp != timestamp then None else Some(conn)
  }

  class Container {
    var byPidFd: map<PidFd, ActiveConnection>
    var active: map<AddrPair, ActiveConnection>
    var successful: map<AddrPair, nat>
    var failed: map<Endpoint, nat>
    var lastAttempt: map<Endpoint, u64>

    constructor ()
      ensures View() == NO_CONNECTIONS
    {
      byPidFd, active, successful, failed, lastAttempt := map[], map[], map[], map[], map[];
    }

    ghost function View(): Connections
      reads this
    {
      Connections(byPidFd, active, successful, failed, lastAttempt)
    }

    method OnConnectionOpen(src: Endpoint, dst: Endpoint, pid: Pid, fd: u64, timestamp: u64, isError: bool,
                            actual: Option<Endpoint>, wallTime: u64)
      modifies this
      ensures View() == Opened(old(View()), src, dst, pid, fd, timestamp, isError, actual, wallTime)
    {
      if IsLoopback(dst) {
        return;
      }
      var actualDst := dst;
      if actual.Some? {
        actualDst := actual.value;
      }
      var conn := ActiveConnection(dst, actualDst, pid, fd, timestamp);
      if isError {
        failed := failed[dst := Count(failed, dst) + 1];
      } else {
        active := active[AddrPair(src, actualDst) := conn];
        byPidFd := byPidFd[PidFd(pid, fd) := conn];
        successful := successful[AddrPair(src, actualDst) := Count(successful, AddrPair(src, actualDst)) + 1];
      }
      lastAttempt := lastAttempt[dst := wallTime];
    }

    method OnL7Request(pid: Pid, fd: u64, timestamp: u64) returns (conn: Option<ActiveConnection>)
      ensures conn == Accepted(View(), pid, fd, timestamp)
    {
      if PidFd(pid, fd) !in byPidFd {
        return None;
      }
      var found := byPidFd[PidFd(pid, fd)];
      if timestamp != 0 && found.timestamp != timestamp {
        return None;
      }
      return Some(found);
    }
  }

  /** The counters, the last attempts and the index agree with the calls: what a sequence of calls leaves behind. */
  datatype Call = Call(src: Endpoint, dst: Endpoint, pid: Pid, fd: u64, timestamp: u64, isError: bool,
                       actual: Option<Endpoint>, wallTime: u64)

  function RunCalls(calls: seq<Call>): Connections {
    if calls == [] then NO_CONNECTIONS
    else
      var c := calls[|calls| - 1];
      Opened(RunCalls(calls[..|calls| - 1]), c.src, c.dst, c.pid, c.fd, c.timestamp, c.isError, c.actual, c.wallTime)
  }

  /** The last successful call for a pid and fd that was not to a loopback address. */
  function LastOpen(calls: seq<Call>, k: PidFd): Option<Call> {
    if calls == [] then None
    else
      var c := calls[|calls| - 1];
      if PidFd(c.pid, c.fd) == k && !c.isError && !IsLoopback(c.dst) then Some(c) else LastOpen(calls[..|calls| - 1], k)
  }

  /** The index by pid and fd holds exactly the connection of the last such call. */
  lemma {:induction false} IndexHoldsLastOpen(calls: seq<Call>, k: PidFd)
    ensures
      var index := RunCalls(calls).byPidFd;
      match LastOpen(calls, k)
      case None => k !in index
      case Some(c) =>
        && k in index && index[k].pid == k.pid && index[k].fd == k.fd && index[k].timestamp == c.timestamp
        && index[k].dest == c.dst && index[k].actualDest == (if c.actual.Some? then c.actual.value else c.dst)
  {
    if calls != [] {
      IndexHoldsLastOpen(calls[..|calls| - 1], k);
    }
  }

  /** The last such call for a pair of addresses, and the last call about a destination, failed attempts included. */
  function LastOpenOf(calls: seq<Call>, p: AddrPair): Option<Call> {
    if calls == [] then None
    else
      var c := calls[|calls| - 1];
      if !c.isError && !IsLoopback(c.dst) && c.src == p.src && p.dst == (if c.actual.Some? then c.actual.value else c.dst)
      then Some(c)
      else LastOpenOf(calls[..|calls| - 1], p)
  }

  function LastCallTo(calls: seq<Call>, dst: Endpoint): Option<Call> {
    if calls == [] then None
    else
      var c := calls[|calls| - 1];
      if c.dst == dst && !IsLoopback(dst) then Some(c) else LastCallTo(calls[..|calls| - 1], dst)
  }

  /** The table of active connections holds that of the last open of the pair, and the last attempt at a destination has the
      time of the last call about it. */
  lemma {:induction false} TablesHoldLast(calls: seq<Call>, p: AddrPair, dst: Endpoint)
    ensures
      Lookup(RunCalls(calls).active, p)
        == match LastOpenOf(calls, p)
           case None => None
           case Some(c) => Some(ActiveConnection(c.dst, p.dst, c.pid, c.fd, c.timestamp))
    ensures
      Lookup(RunCalls(calls).lastAttempt, dst)
        == match LastCallTo(calls, dst)
           case None => None
           case Some(c) => Some(c.wallTime)
  {
    if calls != [] {
      TablesHoldLast(calls[..|calls| - 1], p, dst);
    }
  }

  /** An IPv4 address is a loopback address exactly when it begins with 127, mapped into IPv6 or not; an IPv6 address that
      is not mapped is one exactly when it is ::1. */
  lemma LoopbackForms(a: seq<byte>, port: nat)
    requires |a| == 4
    ensures IsLoopback(Endpoint(a, port)) <==> a[0] == 127
    ensures IsLoopback(Endpoint([0, 0, 0, 0, 0, 0, 0, 0, 0, 0, 255, 255] + a, port)) <==> a[0] == 127
    ensures IsLoopback(Endpoint([0, 0, 0, 0, 0, 0, 0, 0, 0, 0, 0, 0] + a, port)) <==> a == [0, 0, 0, 1]
  {
    var prefix := [0, 0, 0, 0, 0, 0, 0, 0, 0, 0, 255, 255];
    var zeros := [0, 0, 0, 0, 0, 0, 0, 0, 0, 0, 0, 0];
    assert prefix == seq(10, _ => 0) + [255, 255] && (prefix + a)[..12] == prefix && (prefix + a)[12] == a[0];
    assert (prefix + a)[10] == 255 && (seq(15, _ => 0) + [1])[10] == 0;
    assert (zeros + a)[..12] == zeros && zeros[10] == 0 && (seq(10, _ => 0) + [255, 255])[10] == 255;
    assert (zeros + a)[12..] == a && (seq(15, _ => 0) + [1])[12..] == [0, 0, 0, 1];
    assert zeros + [0, 0, 0, 1] == seq(15, _ => 0) + [1];
  }

  function CountOpens(calls: seq<Call>, p: AddrPair): nat {
    if calls == [] then 0
    else
      var c := calls[|calls| - 1];
      CountOpens(calls[..|calls| - 1], p)
      + if !IsLoopback(c.dst) && !c.isError && AddrPair(c.src, if c.actual.Some? then c.actual.value else c.dst) == p
        then 1
        else 0
  }

  function CountErrors(calls: seq<Call>, dst: Endpoint): nat {
    if calls == [] then 0
    else
      var c := calls[|calls| - 1];
      CountErrors(calls[..|calls| - 1], dst) + if !IsLoopback(c.dst) && c.isError && c.dst == dst then 1 else 0
  }

  /** The counters count: one for each open of a pair of addresses, one for each failed attempt at a destination. */
  lemma {:induction false} CountersCount(calls: seq<Call>, p: AddrPair, dst: Endpoint)
    ensures Count(RunCalls(calls).successful, p) == CountOpens(calls, p)
    ensures Count(RunCalls(calls).failed, dst) == CountErrors(calls, dst)
    ensures p in RunCalls(calls).active <==> CountOpens(calls, p) > 0
  {
    if calls != [] {
      CountersCount(calls[..|calls| - 1], p, dst);
    }
  }
}
