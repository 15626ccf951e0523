/**
 The AVX2 operations that the scanner, the window parser, the trims and the shift use.
 Every vector load carries the bound that keeps it inside its buffer.
 */
module Simd {
  import opened Bytes
  import opened Bits

  const LANES: nat := 32

  /** _mm256_loadu_si256: reads 32 bytes, all of which must lie in the buffer. */
  function LoadU(buf: seq<byte>, i: nat): (v: seq<byte>)
    requires i + LANES <= |buf|
    ensures |v| == LANES
  {
    buf[i..i + LANES]
  }

  /** _mm256_cmpeq_epi8 against a splat, one truth value a lane. */
  function CmpEq(v: seq<byte>, b: byte): (r: seq<bool>)
    requires |v| == LANES
    ensures |r| == LANES
  {
    seq(LANES, i requires 0 <= i < LANES => v[i] == b)
  }

  /** _mm256_and_si256 on comparison results. */
  function And(a: seq<bool>, b: seq<bool>): (r: seq<bool>)
    requires |a| == |b| == LANES
    ensures |r| == LANES
  {
    seq(LANES, i requires 0 <= i < LANES => a[i] && b[i])
  }

  /** _mm256_movemask_epi8: lane k becomes bit k. */
  function MoveMask(lanes: seq<bool>): nat {
    if lanes == [] then 0
    else (if lanes[0] then 1 else 0) + 2 * MoveMask(lanes[1..])
  }

  /** Lane k of a comparison is bit k of its movemask, and there are no other bits. */
  lemma {:induction false} MoveMaskBit(lanes: seq<bool>, k: nat)
    ensures MoveMask(lanes) < Pow2(|lanes|)
    ensures Bit(MoveMask(lanes), k) <==> k < |lanes| && lanes[k]
    decreases |lanes|
  {
    if lanes == [] {
      ZeroBit(k);
    } else {
      MoveMaskBit(lanes[1..], if k > 0 then k - 1 else 0);
    }
  }

  /** The mask of lanes equal to a byte. */
  function EqMask(v: seq<byte>, b: byte): nat
    requires |v| == LANES
  {
    MoveMask(CmpEq(v, b))
  }

  lemma EqMaskBit(v: seq<byte>, b: byte, k: nat)
    requires |v| == LANES
    ensures EqMask(v, b) < Pow2(LANES)
    ensures Bit(EqMask(v, b), k) <==> k < LANES && v[k] == b
  {
    MoveMaskBit(CmpEq(v, b), k);
  }
}
