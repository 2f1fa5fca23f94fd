/** Bytes, fixed-width integers and probe reads, shared by the kernel and the user side of the model. */
module Bytes {

  datatype Option<+T> = None | Some(value: T)

  type byte = x: int | 0 <= x < 256

  /** A string as bytes. */
  type Text = seq<byte>

  /** An address with its port. */
  datatype Endpoint = Endpoint(addr: seq<byte>, port: nat)

  const TWO_16 := 0x1_0000
  const TWO_24 := 0x100_0000
  const TWO_32 := 0x1_0000_0000
  const TWO_64 := 0x1_0000_0000_0000_0000

  type u32 = x: int | 0 <= x < TWO_32
  type u64 = x: int | 0 <= x < TWO_64
  type s64 = x: int | -0x8000_0000_0000_0000 <= x < 0x8000_0000_0000_0000

  function Min(a: int, b: int): int {
    if a < b then a else b
  }

  function Max(a: int, b: int): int {
    if a < b then b else a
  }

  /** A probe read of `n` bytes at offset `off` of readable memory `mem`; it fails when the bytes are not all readable. */
  function Probe(mem: seq<byte>, off: nat, n: nat): (r: Option<seq<byte>>)
    ensures r.Some? ==> |r.value| == n
  {
    if off + n <= |mem| then Some(mem[off..off + n]) else None
  }

  function U16LE(b: seq<byte>): (r: nat)
    requires |b| >= 2
    ensures r < TWO_16
  {
    b[0] as int + 256 * (b[1] as int)
  }

  function U16BE(b: seq<byte>): (r: nat)
    requires |b| >= 2
    ensures r < TWO_16
  {
    256 * (b[0] as int) + b[1] as int
  }

  function U24LE(b: seq<byte>): (r: nat)
    requires |b| >= 3
    ensures r < TWO_24
  {
    b[0] as int + 256 * (b[1] as int) + 65536 * (b[2] as int)
  }

  function U32LE(b: seq<byte>): (r: u32)
    requires |b| >= 4
  {
    b[0] as int + 256 * (b[1] as int) + 65536 * (b[2] as int) + TWO_24 * (b[3] as int)
  }

  function U32BE(b: seq<byte>): (r: u32)
    requires |b| >= 4
  {
    TWO_24 * (b[0] as int) + 65536 * (b[1] as int) + 256 * (b[2] as int) + b[3] as int
  }

  /** The two's-complement reading of a 16-bit or 32-bit pattern, and a sum wrapped to 32 bits. */
  function S16(x: int): int
    requires 0 <= x < TWO_16
  {
    if x < 0x8000 then x else x - TWO_16
  }

  function S32(x: u32): int {
    if x < 0x8000_0000 then x else x - TWO_32
  }

  function Wrap32(x: int): int {
    S32(x % TWO_32)
  }

  /** C's conversion of a signed integer to an unsigned 64-bit one, and unsigned 64-bit subtraction. */
  function ToU64(x: int): u64 {
    x % TWO_64
  }

  function Sub64(a: u64, b: u64): u64 {
    (a - b) % TWO_64
  }

  /** The bytes of an ASCII literal. */
  function Ascii(s: string): (r: seq<byte>)
    ensures |r| == |s|
    ensures forall i :: 0 <= i < |s| ==> r[i] == s[i] as int % 256
  {
    seq(|s|, i requires 0 <= i < |s| => s[i] as int % 256)
  }

  function Lookup<K, V>(m: map<K, V>, k: K): Option<V> {
    if k in m then Some(m[k]) else None
  }

  predicate Distinct<T(==)>(s: seq<T>) {
    forall i, j :: 0 <= i < j < |s| ==> s[i] != s[j]
  }

  /** A sequence without its element `i`. */
  function Without<T>(s: seq<T>, i: nat): (r: seq<T>)
    requires i < |s|
    ensures |r| == |s| - 1
    ensures forall x :: x in r ==> x in s
  {
    s[..i] + s[i + 1..]
  }
}
