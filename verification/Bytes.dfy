/** Bytes, and the positional file write every transfer path relies on. */
module Bytes {

  type Byte = b: nat | b < 256

  function Min(a: nat, b: nat): nat { if a <= b then a else b }

  function Max(a: nat, b: nat): nat { if a >= b then a else b }

  /** `u64::saturating_add`. */
  const U64_MAX: nat := 0xFFFF_FFFF_FFFF_FFFF

  function SatAdd(a: nat, b: nat): nat { Min(a + b, U64_MAX) }

  function Zeros(n: nat): seq<Byte> { seq(n, _ => 0) }

  /**
   * Seek to `offset`, then write all of `buf`: what a POSIX file holds afterwards.
   * A write past the end leaves a zero-filled hole; an empty write changes nothing.
   */
  function WriteAt(file: seq<Byte>, offset: nat, buf: seq<Byte>): (r: seq<Byte>)
    ensures |r| == if buf == [] then |file| else Max(|file|, offset + |buf|)
    ensures forall i :: offset <= i < offset + |buf| ==> r[i] == buf[i - offset]
    ensures forall i :: 0 <= i < |r| && !(offset <= i < offset + |buf|) ==>
                          r[i] == if i < |file| then file[i] else 0
  {
    if buf == [] then file
    else
      var padded := file + Zeros(Max(|file|, offset + |buf|) - |file|);
      padded[..offset] + buf + padded[offset + |buf|..]
  }

  /** The concatenation of a list of strings. */
  function Concat<T>(parts: seq<seq<T>>): seq<T> {
    if parts == [] then [] else parts[0] + Concat(parts[1..])
  }

  // ---------------------------------------------------------------------------
  // Little-endian numbers
  // ---------------------------------------------------------------------------

  /** The number a little-endian byte string stands for. */
  function LittleEndian(b: seq<Byte>): nat {
    if b == [] then 0 else b[0] + 256 * LittleEndian(b[1..])
  }

  /** The first `n` little-endian bytes of a number. */
  function ToLittleEndian(v: nat, n: nat): (b: seq<Byte>)
    ensures |b| == n
  {
    if n == 0 then [] else [v % 256] + ToLittleEndian(v / 256, n - 1)
  }

  function Pow2(n: nat): nat { if n == 0 then 1 else 2 * Pow2(n - 1) }

  function Pow256(n: nat): nat { if n == 0 then 1 else 256 * Pow256(n - 1) }

  lemma {:induction false} LittleEndianRoundTrip(v: nat, n: nat)
    requires v < Pow256(n)
    ensures LittleEndian(ToLittleEndian(v, n)) == v
  {
    if n > 0 { LittleEndianRoundTrip(v / 256, n - 1); }
  }

  lemma {:induction false} ToLittleEndianOf(b: seq<Byte>)
    ensures LittleEndian(b) < Pow256(|b|)
    ensures ToLittleEndian(LittleEndian(b), |b|) == b
  {
    if b != [] { ToLittleEndianOf(b[1..]); }
  }
}
