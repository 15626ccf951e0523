/** Bytes, byte strings, and the optional result shared by the other modules. */
module Bytes {

  type byte = x: int | 0 <= x < 256

  /** The size of a receive buffer. */
  const BUFFER_SIZE: nat := 7168

  datatype Option<+T> = None | Some(value: T)

  /** The bytes of an ASCII literal, as in the source's b"..." literals. */
  function Ascii(s: string): (r: seq<byte>)
    ensures |r| == |s|
  {
    seq(|s|, i requires 0 <= i < |s| => (s[i] as int) % 256)
  }

  function Take<T>(s: seq<T>, n: nat): (r: seq<T>) {
    if |s| <= n then s else s[..n]
  }

  function Zeros(n: nat): (r: seq<byte>)
    ensures |r| == n
  {
    seq(n, _ => 0)
  }

  function Min(a: nat, b: nat): nat { if a <= b then a else b }

  lemma Middle(pre: seq<byte>, part: seq<byte>, rest: seq<byte>)
    ensures pre + (part + rest) == (pre + part) + rest
    ensures (pre + (part + rest))[|pre|..|pre| + |part|] == part
  {
  }
}
