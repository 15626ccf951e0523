/**
 The three routines that move the first `len` bytes of a buffer to its end, and what the
 left trim makes of the result.
 */
module Shift {
  import opened Bytes
  import opened Simd
  import Trim
  import Http

  /** The packet right-aligned behind zeros. */
  function RightAligned(s: seq<byte>, len: nat): (r: seq<byte>)
    requires len <= |s|
    ensures |r| == |s|
  {
    Zeros(|s| - len) + s[..len]
  }

  /** copy_within(0..len, n - len) followed by a fill of the front. */
  method ShiftUbInplace(buf: array<byte>, len: nat)
    requires len <= buf.Length
    modifies buf
    ensures buf[..] == RightAligned(old(buf[..]), len)
  {
    var dst := buf.Length - len;
    forall k | 0 <= k < len {
      buf[dst + k] := buf[k];
    }
    assert buf[dst..] == old(buf[..len]);
    forall k | 0 <= k < dst {
      buf[k] := 0;
    }
    assert buf[..] == buf[..dst] + buf[dst..];
  }

  /** The vector copy into a zeroed BUFFER_SIZE array: 32-byte chunks, then single bytes. */
  method ShiftUb(buf: seq<byte>, len: nat) returns (dst: array<byte>)
    requires len <= |buf| && len <= BUFFER_SIZE
    ensures fresh(dst) && dst.Length == BUFFER_SIZE
    ensures dst[..] == Zeros(BUFFER_SIZE - len) + buf[..len]
  {
    dst := new byte[BUFFER_SIZE](_ => 0);
    var base := BUFFER_SIZE - len;
    var i := 0;
    while i + 32 <= len
      invariant i <= len
      invariant forall k :: 0 <= k < base ==> dst[k] == 0
      invariant forall k :: 0 <= k < i ==> dst[base + k] == buf[k]
    {
      var chunk := LoadU(buf, i);
      forall k | base + i <= k < base + i + 32 {
        dst[k] := chunk[k - base - i];
      }
      i := i + 32;
    }
    while i < len
      invariant i <= len
      invariant forall k :: 0 <= k < base ==> dst[k] == 0
      invariant forall k :: 0 <= k < i ==> dst[base + k] == buf[k]
    {
      dst[base + i] := buf[i];
      i := i + 1;
    }
    assert dst[base..] == buf[..len];
    assert dst[..] == dst[..base] + dst[base..];
  }

  /** What the overlapping byte loop leaves behind, the gap and the full-length case included. */
  function SafeShifted(s: seq<byte>, len: nat): (r: seq<byte>)
    requires len <= |s|
    ensures |r| == |s|
  {
    var dst := |s| - len;
    seq(|s|, p requires 0 <= p < |s| =>
      if dst > 0 && p >= dst then s[p - dst] else if p < len then 0 else s[p])
  }

  lemma SafeShiftedIs(s: seq<byte>, len: nat, r: seq<byte>)
    requires len <= |s| == |r|
    requires forall p :: 0 <= p < |s| && p < |s| - len ==> r[p] == if p < len then 0 else s[p]
    requires forall p :: |s| - len <= p < |s| ==> r[p] == if len == |s| then 0 else s[p - (|s| - len)]
    ensures r == SafeShifted(s, len)
  {
  }

  /** Moves bytes from the back, zeroing each original after its copy. */
  method ShiftSafe(buf: array<byte>, len: nat)
    requires len <= buf.Length
    modifies buf
    ensures buf[..] == SafeShifted(old(buf[..]), len)
  {
    hide SafeShifted;
    var dst := buf.Length - len;
    var i := len;
    while i > 0
      invariant 0 <= i <= len
      invariant forall p :: 0 <= p < i ==> buf[p] == old(buf[p])
      invariant forall p :: i <= p < buf.Length && p < dst + i ==> buf[p] == if p < len then 0 else old(buf[p])
      invariant forall p :: dst + i <= p < buf.Length ==>
        buf[p] == if dst == 0 then 0 else old(buf[p - dst])
    {
      i := i - 1;
      buf[dst + i] := buf[i];
      buf[i] := 0;
    }
    SafeShiftedIs(old(buf[..]), len, buf[..]);
  }

  /**
   The byte loop agrees with the other two exactly when the gap between the packet and its
   new place was already zero and, for a packet that fills the buffer, the packet is all zeros.
   */
  lemma SafeShiftAgrees(s: seq<byte>, len: nat)
    requires len <= |s|
    ensures SafeShifted(s, len) == RightAligned(s, len) <==>
      && (forall p :: len <= p < |s| - len ==> s[p] == 0)
      && (len == |s| ==> forall p :: 0 <= p < len ==> s[p] == 0)
  {
    var a, b := SafeShifted(s, len), RightAligned(s, len);
    var dst := |s| - len;
    forall p | 0 <= p < |s|
      ensures b[p] == if p < dst then 0 else s[p - dst]
    {
    }
    if a == b {
      forall p | len <= p < dst ensures s[p] == 0 { assert a[p] == s[p]; }
      if dst == 0 {
        forall p | 0 <= p < len ensures s[p] == 0 { assert a[p] == 0 && b[p] == s[p]; }
      }
    }
  }

  /** A buffer of nonzero bytes that the byte loop erases. */
  lemma SafeShiftErases()
    ensures SafeShifted([1], 1) == [0] && RightAligned([1], 1) == [1]
  {
    assert RightAligned([1], 1) == [1];
  }

  // ----- shift, then trim, then parse

  /** The trimmed view of a shifted buffer is the packet without its leading zeros. */
  lemma TrimAfterShift(s: seq<byte>, len: nat)
    requires len <= |s|
    ensures Trim.TrimLeft(RightAligned(s, len)) == Trim.TrimLeft(s[..len])
  {
    var packet := s[..len];
    var n := Trim.LeadingZeros(packet);
    var zeros := Zeros(|s| - len) + packet[..n];
    assert RightAligned(s, len) == zeros + packet[n..];
    Trim.TrimLeftUnique(zeros, packet[n..]);
  }

  /** A buffer that is left unshifted is seen with what lies behind the packet. */
  lemma StaleViewIff(s: seq<byte>, len: nat)
    requires 1 <= len <= |s| && s[|s| - 1] != 0
    ensures Trim.TrimLeft(s) == s[..len] <==> s[0] != 0 && len == |s|
  {
    if s[0] != 0 {
      Trim.TrimLeftUnique([], s);
      assert [] + s == s;
    } else {
      TrimmedHead(s);
    }
  }

  lemma TrimmedHead(s: seq<byte>)
    ensures Trim.TrimLeft(s) != [] ==> Trim.TrimLeft(s)[0] != 0
    ensures s != [] && s[|s| - 1] != 0 ==> Trim.TrimLeft(s) != []
  {
  }

  /** So a packet that starts with a nonzero byte is parsed from the shifted buffer as it would be directly. */
  lemma ShiftedViewParses(s: seq<byte>, len: nat, N: nat)
    requires 1 <= len <= |s|
    ensures Trim.TrimLeft(RightAligned(s, len)) == s[..len] <==> s[0] != 0
    ensures s[0] != 0 ==>
      Http.Parse(Trim.TrimLeft(RightAligned(s, len)), N) == Http.Parse(s[..len], N)
  {
    TrimAfterShift(s, len);
    var packet := s[..len];
    if s[0] != 0 {
      Trim.TrimLeftUnique([], packet);
      assert [] + packet == packet;
    } else {
      assert Trim.LeadingZeros(packet) > 0;
    }
  }
}
