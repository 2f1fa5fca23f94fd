/** Payload capture: `TRUNCATE_PAYLOAD_SIZE`, `COPY_PAYLOAD` and the gather copy `read_iovec`. */
module Payload {
  import opened Bytes

  const MAX_PAYLOAD_SIZE := 1024
  const IOVEC_BUF_SIZE := MAX_PAYLOAD_SIZE * 2
  const MAX_IOVEC_SIZE := 32

  /** The payload array of a request or of an event. */
  type Block = s: seq<byte> | |s| == MAX_PAYLOAD_SIZE witness seq(MAX_PAYLOAD_SIZE, _ => 0)

  /** The per-CPU scratch buffer vectored transfers are gathered into. */
  type IovecBuf = s: seq<byte> | |s| == IOVEC_BUF_SIZE witness seq(IOVEC_BUF_SIZE, _ => 0)

  /** The size is capped at 1023 and then masked with 1023. */
  function Truncate(size: nat): (r: nat)
    ensures r == Min(size, MAX_PAYLOAD_SIZE - 1)
  {
    Min(size, MAX_PAYLOAD_SIZE - 1) % MAX_PAYLOAD_SIZE
  }

  /** `COPY_PAYLOAD`: overwrite the front of `dst`, or fail when the source is not readable. */
  function CopyPayload(dst: Block, size: nat, src: seq<byte>): (r: Option<Block>)
    ensures r.Some? <==> Min(size, 1023) <= |src|
    ensures r.Some? ==> forall i :: 0 <= i < Min(size, 1023) ==> r.value[i] == src[i]
    ensures r.Some? ==> forall i :: Min(size, 1023) <= i < 1024 ==> r.value[i] == dst[i]
  {
    var n := Truncate(size);
    match Probe(src, 0, n)
    case None => None
    case Some(bytes) => Some(bytes + dst[n..])
  }

  /** One `struct iovec`: the bytes readable at its base, and its length field. */
  datatype Iovec = Iovec(mem: seq<byte>, size: u64)

  /** Overwrite `buf` with `bytes` from `at` on. */
  function Splice(buf: IovecBuf, at: nat, bytes: seq<byte>): (r: IovecBuf)
    requires at + |bytes| <= |buf|
    ensures r[..at] == buf[..at] && r[at..at + |bytes|] == bytes && r[at + |bytes|..] == buf[at + |bytes|..]
  {
    buf[..at] + bytes + buf[at + |bytes|..]
  }

  datatype Gathered = Gathered(buf: IovecBuf, size: nat)

  function Limit(ret: u64): (max: nat)
    ensures 1 <= max <= 1024
  {
    if ret != 0 then Min(ret, MAX_PAYLOAD_SIZE) else MAX_PAYLOAD_SIZE
  }

  /** The number of iovecs the loop looks at. */
  function Visited(iovlen: u64): nat {
    Min(iovlen, MAX_IOVEC_SIZE)
  }

  /** One round of the gather loop: it ends the loop, or leaves a new offset and buffer. */
  datatype Round = Done(g: Gathered) | More(offset: nat, buf: IovecBuf)

  function GatherRound(iov: Iovec, max: nat, offset: nat, buf: IovecBuf): (r: Round)
    requires offset < max <= MAX_PAYLOAD_SIZE
    ensures r.More? ==> offset <= r.offset < max && r.buf[1024..] == buf[1024..]
    ensures r.Done? ==> r.g.size <= max && r.g.buf[1024..] == buf[1024..]
  {
    if iov.size <= 0 then
      More(offset, buf)
    else
      var size := Truncate(Min(iov.size, max - offset));
      var at := Truncate(offset);
      match Probe(iov.mem, 0, size)
      case None => Done(Gathered(buf, 0))
      case Some(bytes) =>
        var buf' := Splice(buf, at, bytes);
        assert buf'[1024..] == buf'[at + size..][1024 - at - size..];
        if at + size >= max then Done(Gathered(buf', at + size)) else More(at + size, buf')
  }

  /** The gather loop when `n` rounds are left; `iovs` is the readable rest of the iovec array. */
  function GatherFrom(iovs: seq<Iovec>, n: nat, max: nat, offset: nat, buf: IovecBuf): (g: Gathered)
    requires offset < max <= MAX_PAYLOAD_SIZE
    ensures g.size <= max && g.buf[1024..] == buf[1024..]
    decreases n
  {
    if n == 0 then Gathered(buf, offset)
    else if iovs == [] then Gathered(buf, 0)
    else
      match GatherRound(iovs[0], max, offset, buf)
      case Done(g) => g
      case More(offset', buf') => GatherFrom(iovs[1..], n - 1, max, offset', buf')
  }

  function Gather(iovs: seq<Iovec>, iovlen: u64, ret: u64, buf: IovecBuf): Gathered {
    GatherFrom(iovs, Visited(iovlen), Limit(ret), 0, buf)
  }

  /** The probe read into `buf + at`. */
  method Store(buf: array<byte>, at: nat, bytes: seq<byte>)
    requires buf.Length == IOVEC_BUF_SIZE && at + |bytes| <= buf.Length
    modifies buf
    ensures buf[..] == Splice(old(buf[..]), at, bytes)
  {
    forall j | 0 <= j < |bytes| {
      buf[at + j] := bytes[j];
    }
    assert buf[..] == old(buf[..])[..at] + bytes + old(buf[..])[at + |bytes|..];
  }

  /** The body of the loop of `read_iovec` for a nonempty iovec; truncating `offset` changes nothing. */
  method CopyIovec(iov: Iovec, max: nat, offset: nat, buf: array<byte>) returns (ok: bool, next: nat)
    requires buf.Length == IOVEC_BUF_SIZE && offset < max <= 1024 && iov.size > 0
    modifies buf
    ensures match GatherRound(iov, max, offset, old(buf[..]))
            case Done(g) => g == Gathered(buf[..], if ok then next else 0) && (ok ==> next >= max)
            case More(offset', buf') => ok && next == offset' && buf[..] == buf'
  {
    var size := Truncate(Min(iov.size, max - offset));
    next := Truncate(offset);
    assert next == offset;
    var bytes := Probe(iov.mem, 0, size);
    if bytes.None? {
      return false, next;
    }
    Store(buf, next, bytes.value);
    return true, next + size;
  }

  /** `read_iovec`, in place on the scratch buffer. */
  method ReadIovec(iovs: seq<Iovec>, iovlen: u64, ret: u64, buf: array<byte>) returns (total: nat)
    requires buf.Length == IOVEC_BUF_SIZE
    modifies buf
    ensures Gathered(buf[..], total) == Gather(iovs, iovlen, ret, old(buf[..]))
    ensures total <= 1024 && buf[..][1024..] == old(buf[..])[1024..]
  {
    var max := Limit(ret);
    var offset := 0;
    var i := 0;
    ghost var goal := Gather(iovs, iovlen, ret, buf[..]);
    assert iovs[0..] == iovs;
    while i < MAX_IOVEC_SIZE
      invariant 0 <= i <= Visited(iovlen) && i <= |iovs| && 0 <= offset < max
      invariant GatherFrom(iovs[i..], Visited(iovlen) - i, max, offset, buf[..]) == goal
      decreases MAX_IOVEC_SIZE - i
    {
      if i >= iovlen {
        break;
      }
      if i >= |iovs| {
        return 0;
      }
      var iov := iovs[i];
      assert iovs[i..][0] == iov && iovs[i..][1..] == iovs[i + 1..];
      i := i + 1;
      if iov.size <= 0 {
        continue;
      }
      var ok, next := CopyIovec(iov, max, offset, buf);
      if !ok {
        return 0;
      }
      offset := next;
      if offset >= max {
        break;
      }
    }
    return offset;
  }

  /** What the first `n` iovecs hold, in order. */
  function Concat(iovs: seq<Iovec>, n: nat): seq<byte>
    requires FirstReadable(iovs, n)
    decreases n
  {
    if n == 0 then [] else iovs[0].mem[..iovs[0].size] + Concat(iovs[1..], n - 1)
  }

  predicate FirstReadable(iovs: seq<Iovec>, n: nat) {
    n <= |iovs| && forall j :: 0 <= j < n ==> iovs[j].size <= |iovs[j].mem|
  }

  /** One round appends the next iovec, cut at the limit and at 1023 bytes. */
  lemma RoundPrefix(iov: Iovec, max: nat, offset: nat, buf: IovecBuf)
    requires iov.size <= |iov.mem| && offset < max <= 1024
    ensures
      var all := buf[..offset] + iov.mem[..iov.size];
      match GatherRound(iov, max, offset, buf)
      case Done(g) => Min(g.size, 1023) == Min(max, 1023) <= |all| && g.buf[..Min(max, 1023)] == all[..Min(max, 1023)]
      case More(offset', buf') =>
        && offset' == Min(|all|, Min(max, 1023))
        && buf'[..offset'] == all[..offset']
  {
    var size := Truncate(Min(iov.size, max - offset));
    var buf' := Splice(buf, offset, iov.mem[..size]);
    assert buf'[..offset + size] == buf[..offset] + iov.mem[..size];
    if offset + size >= max {
      var m := Min(max, 1023);
      assert buf'[..m] == buf'[..offset + size][..m];
    }
  }

  lemma TakeAppend(a: seq<byte>, h: seq<byte>, r: seq<byte>, k: nat, m: nat)
    requires k <= |a + h| && m <= |(a + h)[..k] + r| && (k == |a + h| || m <= k)
    ensures ((a + h)[..k] + r)[..m] == (a + (h + r))[..m]
  {
    assert (a + h) + r == a + (h + r);
  }

  /** Where byte 1023 is concerned the loop may be wrong, so the claim is about the positions before it. */
  lemma {:induction false} GatherFromPrefix(iovs: seq<Iovec>, n: nat, max: nat, offset: nat, buf: IovecBuf)
    requires FirstReadable(iovs, n) && offset < max <= 1024
    ensures
      var g := GatherFrom(iovs, n, max, offset, buf);
      var all := buf[..offset] + Concat(iovs, n);
      var m := Min(|all|, Min(max, 1023));
      Min(g.size, 1023) == m && g.buf[..m] == all[..m]
    decreases n
  {
    if n > 0 {
      var head, rest := iovs[0].mem[..iovs[0].size], Concat(iovs[1..], n - 1);
      var m := Min(|buf[..offset] + (head + rest)|, Min(max, 1023));
      RoundPrefix(iovs[0], max, offset, buf);
      match GatherRound(iovs[0], max, offset, buf) {
        case Done(g) =>
          TakeAppend(buf[..offset], head, rest, |buf[..offset] + head|, m);
          assert ((buf[..offset] + head) + rest)[..m] == (buf[..offset] + head)[..m];
        case More(offset', buf') =>
          GatherFromPrefix(iovs[1..], n - 1, max, offset', buf');
          TakeAppend(buf[..offset], head, rest, offset', m);
      }
    }
  }

  /** The stored payload is the exact prefix of the concatenation, cut at 1023 bytes and at a nonzero `ret`. */
  lemma GatherCopyPrefix(iovs: seq<Iovec>, iovlen: u64, ret: u64, buf: IovecBuf, dst: Block)
    requires FirstReadable(iovs, Visited(iovlen))
    ensures
      var all := Concat(iovs, Visited(iovlen));
      var g := Gather(iovs, iovlen, ret, buf);
      var n := Min(Min(|all|, if ret == 0 then 1023 else ret), 1023);
      && CopyPayload(dst, g.size, g.buf) == Some(all[..n] + dst[n..])
      && (g.size == 0 <==> |all| == 0)
  {
    GatherFromPrefix(iovs, Visited(iovlen), Limit(ret), 0, buf);
    var all := Concat(iovs, Visited(iovlen));
    var g := Gather(iovs, iovlen, ret, buf);
    var n := Min(Min(|all|, if ret == 0 then 1023 else ret), 1023);
    assert buf[..0] + all == all;
    assert CopyPayload(dst, g.size, g.buf).value == all[..n] + dst[n..];
  }

  /** The first iovec that is not empty has at most 1023 bytes. */
  predicate SmallFirst(iovs: seq<Iovec>, n: nat)
    requires n <= |iovs|
    decreases n
  {
    n == 0 || (if iovs[0].size == 0 then SmallFirst(iovs[1..], n - 1) else iovs[0].size <= 1023)
  }

  lemma RoundExact(iov: Iovec, max: nat, offset: nat, buf: IovecBuf)
    requires iov.size <= |iov.mem| && offset < max <= 1024 && (offset > 0 || iov.size <= 1023 || max <= 1023)
    ensures
      var all := buf[..offset] + iov.mem[..iov.size];
      match GatherRound(iov, max, offset, buf)
      case Done(g) => g.size == max <= |all| && g.buf[..max] == all[..max]
      case More(offset', buf') => offset' == |all| && buf'[..offset'] == all
  {
    var size := Min(iov.size, max - offset);
    var buf' := Splice(buf, offset, iov.mem[..size]);
    assert buf'[..offset + size] == buf[..offset] + iov.mem[..size];
  }

  lemma {:induction false} GatherFromExact(iovs: seq<Iovec>, n: nat, max: nat, offset: nat, buf: IovecBuf)
    requires FirstReadable(iovs, n) && offset < max <= 1024 && (offset > 0 || max <= 1023 || SmallFirst(iovs, n))
    ensures
      var g := GatherFrom(iovs, n, max, offset, buf);
      var all := buf[..offset] + Concat(iovs, n);
      g.size == Min(|all|, max) && g.buf[..g.size] == all[..g.size]
    decreases n
  {
    if n > 0 {
      var head, rest := iovs[0].mem[..iovs[0].size], Concat(iovs[1..], n - 1);
      assert buf[..offset] + head + rest == buf[..offset] + (head + rest);
      RoundExact(iovs[0], max, offset, buf);
      match GatherRound(iovs[0], max, offset, buf) {
        case Done(g) => assert (buf[..offset] + head + rest)[..max] == (buf[..offset] + head)[..max];
        case More(offset', buf') => GatherFromExact(iovs[1..], n - 1, max, offset', buf');
      }
    }
  }

  /** Byte 1023 included, everything gathered is right when the first nonempty iovec is small or `ret` is below 1024. */
  lemma GatherExact(iovs: seq<Iovec>, iovlen: u64, ret: u64, buf: IovecBuf)
    requires FirstReadable(iovs, Visited(iovlen)) && (SmallFirst(iovs, Visited(iovlen)) || 0 < ret <= 1023)
    ensures
      var all := Concat(iovs, Visited(iovlen));
      var g := Gather(iovs, iovlen, ret, buf);
      g.size == Min(|all|, Limit(ret)) && g.buf[..g.size] == all[..g.size]
  {
    GatherFromExact(iovs, Visited(iovlen), Limit(ret), 0, buf);
    assert buf[..0] + Concat(iovs, Visited(iovlen)) == Concat(iovs, Visited(iovlen));
  }

  /** What follows the first nonempty iovec. */
  function AfterFirst(iovs: seq<Iovec>, n: nat): seq<byte>
    requires FirstReadable(iovs, n)
    decreases n
  {
    if n == 0 then [] else if iovs[0].size == 0 then AfterFirst(iovs[1..], n - 1) else Concat(iovs[1..], n - 1)
  }

  lemma {:induction false} StrayByteFrom(iovs: seq<Iovec>, n: nat, buf: IovecBuf)
    requires FirstReadable(iovs, n) && !SmallFirst(iovs, n)
    ensures
      var g := GatherFrom(iovs, n, 1024, 0, buf);
      var after := AfterFirst(iovs, n);
      g.size == 1023 + Min(|after|, 1) && (after != [] ==> g.buf[1023] == after[0])
    ensures |Concat(iovs, n)| >= 1024 + |AfterFirst(iovs, n)|
    decreases n
  {
    if iovs[0].size == 0 {
      StrayByteFrom(iovs[1..], n - 1, buf);
    } else {
      RoundPrefix(iovs[0], 1024, 0, buf);
      var round := GatherRound(iovs[0], 1024, 0, buf);
      GatherFromExact(iovs[1..], n - 1, 1024, 1023, round.buf);
      var after := Concat(iovs[1..], n - 1);
      var g := GatherFrom(iovs[1..], n - 1, 1024, 1023, round.buf);
      assert after != [] ==> g.buf[..1024][1023] == after[0];
    }
  }

  /** Otherwise byte 1023 is missing, or it is the first byte of a later iovec. */
  lemma StrayByte(iovs: seq<Iovec>, iovlen: u64, ret: u64, buf: IovecBuf)
    requires FirstReadable(iovs, Visited(iovlen)) && !SmallFirst(iovs, Visited(iovlen)) && !(0 < ret <= 1023)
    ensures
      var g := Gather(iovs, iovlen, ret, buf);
      var after := AfterFirst(iovs, Visited(iovlen));
      && |Concat(iovs, Visited(iovlen))| >= 1024
      && (after == [] ==> g.size == 1023) && (after != [] ==> g.size == 1024 && g.buf[1023] == after[0])
  {
    StrayByteFrom(iovs, Visited(iovlen), buf);
  }

  /** When everything gathered is right, byte 1023 included: the first nonempty iovec is small, `ret` is below 1024, or the
      first byte of a later iovec happens to be the byte that belongs there. */
  lemma GatherExactIff(iovs: seq<Iovec>, iovlen: u64, ret: u64, buf: IovecBuf)
    requires FirstReadable(iovs, Visited(iovlen))
    ensures
      var n := Visited(iovlen);
      var all, after := Concat(iovs, n), AfterFirst(iovs, n);
      var g := Gather(iovs, iovlen, ret, buf);
      (g.size == Min(|all|, Limit(ret)) && g.buf[..g.size] == all[..g.size])
      <==> SmallFirst(iovs, n) || 0 < ret <= 1023 || (after != [] && |all| >= 1024 && after[0] == all[1023])
  {
    var n := Visited(iovlen);
    if SmallFirst(iovs, n) || 0 < ret <= 1023 {
      GatherExact(iovs, iovlen, ret, buf);
    } else {
      StrayByte(iovs, iovlen, ret, buf);
      GatherFromPrefix(iovs, n, 1024, 0, buf);
      var all, after, g := Concat(iovs, n), AfterFirst(iovs, n), Gather(iovs, iovlen, ret, buf);
      assert buf[..0] + all == all && g.buf[..1023] == all[..1023];
      assert g.buf[..1024] == g.buf[..1023] + [g.buf[1023]] && all[..1024] == all[..1023] + [all[1023]];
      assert g.buf[..1024][1023] == g.buf[1023] && all[..1024][1023] == all[1023];
    }
  }
}
