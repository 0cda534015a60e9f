/** Octets and the C integer conversions the other modules share. */
module Bytes {

  /** An octet (`uint8_t`, `unsigned char`). */
  type byte = x: int | 0 <= x < 256

  /** The octets that steer the flow on a serial line, and the one that escapes them. */
  const DLE: byte := 0x10
  const XON: byte := 0x11
  const XOFF: byte := 0x13

  predicate Special(c: byte) {
    c == DLE || c == XON || c == XOFF
  }

  function Min(a: int, b: int): int {
    if a < b then a else b
  }

  /** The number that two octets make. */
  function Word(hi: int, lo: int): int {
    hi * 256 + lo
  }

  lemma PartOfSlice<T>(b: seq<T>, at: nat, n: nat, i: nat, j: nat)
    requires at + n <= |b| && i <= j <= n
    ensures b[at..at + n][i..j] == b[at + i..at + j]
  {
    var x, y := b[at..at + n][i..j], b[at + i..at + j];
    forall k | 0 <= k < j - i
      ensures x[k] == y[k]
    {
      assert x[k] == b[at..at + n][i + k] == b[at + (i + k)];
      assert y[k] == b[at + i + k];
    }
  }

  /** m with data in place of what it has at `at`. */
  function Overlay(m: seq<byte>, at: nat, data: seq<byte>): (r: seq<byte>)
    requires at + |data| <= |m|
    ensures |r| == |m|
    ensures forall k :: 0 <= k < |m| ==> r[k] == if at <= k < at + |data| then data[k - at] else m[k]
  {
    m[..at] + data + m[at + |data|..]
  }

  lemma OverlayTwice(m: seq<byte>, at: nat, a: seq<byte>, b: seq<byte>)
    requires at + |a| + |b| <= |m|
    ensures Overlay(Overlay(m, at, a), at + |a|, b) == Overlay(m, at, a + b)
  {
  }

  lemma OverlayNothing(m: seq<byte>, at: nat, none: seq<byte>)
    requires none == [] && at <= |m|
    ensures Overlay(m, at, none) == m
  {
  }
}
