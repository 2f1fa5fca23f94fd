/** The words read ids are made of: which threads and goroutines they tell apart. */
module ReadIds {
  const IS_TLS_READ_ID: bv64 := 0x8000_0000_0000_0000

  /** The id of a read made through OpenSSL by a thread. */
  function OpenSslId(pidTgid: bv64): bv64 {
    pidTgid | IS_TLS_READ_ID
  }

  /** The id of a read made by the TLS code of a Go program in a goroutine. */
  function GoId(pid: bv64, goroutine: bv64): bv64 {
    (pid << 32) | goroutine | IS_TLS_READ_ID
  }

  lemma OrSetsTheBit(x: bv64)
    ensures (x | IS_TLS_READ_ID) & IS_TLS_READ_ID != 0
  {
  }

  lemma BitMeansLargePid(x: bv64)
    ensures (x & IS_TLS_READ_ID != 0) <==> !(x >> 32 < 0x8000_0000)
  {
  }

  lemma OrKeepsTheBit(x: bv64)
    requires x & IS_TLS_READ_ID != 0
    ensures x | IS_TLS_READ_ID == x
  {
  }

  /** With pids below 2^31 different threads have different ids. */
  lemma ThreadsApart(x: bv64, y: bv64)
    requires x >> 32 < 0x8000_0000 && y >> 32 < 0x8000_0000
    ensures OpenSslId(x) == OpenSslId(y) <==> x == y
  {
  }

  lemma CoverIff(pid: bv64, g: bv64, h: bv64)
    ensures
      (pid << 32) | g | IS_TLS_READ_ID == (pid << 32) | h | IS_TLS_READ_ID
      <==> (g ^ h) | ((pid << 32) | IS_TLS_READ_ID) == (pid << 32) | IS_TLS_READ_ID
  {
  }

  lemma SharedBits(pid: bv64, g: bv64, h: bv64)
    requires GoId(pid, g) == GoId(pid, h)
    ensures (g ^ h) | ((pid << 32) | IS_TLS_READ_ID) == (pid << 32) | IS_TLS_READ_ID
  {
  }

  lemma SharedId(pid: bv64, g: bv64, h: bv64)
    requires (g ^ h) | ((pid << 32) | IS_TLS_READ_ID) == (pid << 32) | IS_TLS_READ_ID
    ensures GoId(pid, g) == GoId(pid, h)
  {
    CoverIff(pid, g, h);
  }

  /** Two goroutines of a process share an id exactly when the bits their words differ in are all set by the pid or are bit 63. */
  lemma GoroutinesShareIff(pid: bv64, g: bv64, h: bv64)
    ensures
      GoId(pid, g) == GoId(pid, h)
      <==> (g ^ h) | ((pid << 32) | IS_TLS_READ_ID) == (pid << 32) | IS_TLS_READ_ID
  {
    if GoId(pid, g) == GoId(pid, h) {
      SharedBits(pid, g, h);
    } else if (g ^ h) | ((pid << 32) | IS_TLS_READ_ID) == (pid << 32) | IS_TLS_READ_ID {
      SharedId(pid, g, h);
    }
  }

  /** Two different words in a process that share: they differ where pid 192 sets its bits. */
  lemma GoroutinesShare()
    ensures GoId(192, 0xc0_0000_2000) == GoId(192, 0x80_0000_2000)
  {
  }

  /** With pids below 2^31 and words below 2^32 they do not, and neither do goroutines of different processes. */
  lemma GoroutinesApart(pid: bv64, g: bv64, other: bv64, h: bv64)
    requires pid < 0x8000_0000 && g < 0x1_0000_0000 && other < 0x8000_0000 && h < 0x1_0000_0000
    ensures GoId(pid, g) == GoId(other, h) <==> pid == other && g == h
  {
  }
}
