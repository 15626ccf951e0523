/** l_trim256 and r_trim256: vector trims against a byte-at-a-time reading. */
module Trim {
  import opened Bytes
  import opened Bits
  import opened Simd

  // ----- byte-wise trims

  /** The index of the first nonzero byte, or the length. */
  function LeadingZeros(s: seq<byte>): (n: nat)
    ensures n <= |s|
    ensures forall k :: 0 <= k < n ==> s[k] == 0
    ensures n < |s| ==> s[n] != 0
  {
    if s == [] || s[0] != 0 then 0 else 1 + LeadingZeros(s[1..])
  }

  /** One past the index of the last nonzero byte, or zero. */
  function ContentEnd(s: seq<byte>): (n: nat)
    ensures n <= |s|
    ensures forall k :: n <= k < |s| ==> s[k] == 0
    ensures n > 0 ==> s[n - 1] != 0
  {
    if s == [] then 0 else if s[|s| - 1] != 0 then |s| else ContentEnd(s[..|s| - 1])
  }

  function TrimLeft(s: seq<byte>): seq<byte> { s[LeadingZeros(s)..] }

  function TrimRight(s: seq<byte>): seq<byte> { s[..ContentEnd(s)] }

  lemma LeadingZerosUnique(s: seq<byte>, n: nat)
    requires n <= |s| && (forall k :: 0 <= k < n ==> s[k] == 0) && (n < |s| ==> s[n] != 0)
    ensures LeadingZeros(s) == n
  {
  }

  lemma ContentEndUnique(s: seq<byte>, n: nat)
    requires n <= |s| && (forall k :: n <= k < |s| ==> s[k] == 0) && (n > 0 ==> s[n - 1] != 0)
    ensures ContentEnd(s) == n
  {
  }

  /** The left trim is the one suffix that drops only zeros and then starts with a nonzero byte. */
  lemma TrimLeftUnique(zeros: seq<byte>, t: seq<byte>)
    requires forall k :: 0 <= k < |zeros| ==> zeros[k] == 0
    requires t == [] || t[0] != 0
    ensures TrimLeft(zeros + t) == t
  {
    LeadingZerosUnique(zeros + t, |zeros|);
  }

  lemma TrimRightUnique(t: seq<byte>, zeros: seq<byte>)
    requires forall k :: 0 <= k < |zeros| ==> zeros[k] == 0
    requires t == [] || t[|t| - 1] != 0
    ensures TrimRight(t + zeros) == t
  {
    ContentEndUnique(t + zeros, |t|);
  }

  /** Each trim changes nothing the second time, and their order does not matter. */
  lemma {:induction false} TrimsIdempotentAndCommute(s: seq<byte>)
    ensures TrimLeft(TrimLeft(s)) == TrimLeft(s)
    ensures TrimRight(TrimRight(s)) == TrimRight(s)
    ensures TrimLeft(TrimRight(s)) == TrimRight(TrimLeft(s))
  {
    hide LeadingZeros, ContentEnd;
    var a, b := LeadingZeros(s), ContentEnd(s);
    LeadingZerosUnique(s[a..], 0);
    ContentEndUnique(s[..b], b);
    if a == |s| {
      ContentEndUnique(s, 0);
    } else {
      CommuteNonzero(s, a, b);
    }
  }

  lemma CommuteNonzero(s: seq<byte>, a: nat, b: nat)
    requires a < |s| && a == LeadingZeros(s) && b == ContentEnd(s)
    ensures TrimLeft(TrimRight(s)) == TrimRight(TrimLeft(s))
  {
    hide LeadingZeros, ContentEnd;
    assert s[a] != 0;
    LeadingZerosUnique(s[..b], a);
    ContentEndUnique(s[a..], b - a);
    SliceBothWays(s, a, b);
  }

  lemma SliceBothWays(s: seq<byte>, a: nat, b: nat)
    requires a <= b <= |s|
    ensures s[a..][..b - a] == s[..b][a..]
  {
  }

  // ----- the vector trims

  /** A 32-byte block is all zeros exactly when its zero mask is full; else its trailing ones end at its first nonzero byte. */
  lemma ZeroBlock(v: seq<byte>)
    requires |v| == LANES
    ensures var flipped := Pow2(LANES) - 1 - EqMask(v, 0);
      && EqMask(v, 0) < Pow2(LANES)
      && (flipped == 0 ==> forall k :: 0 <= k < LANES ==> v[k] == 0)
      && (flipped != 0 ==>
        && TrailingZeros(flipped) < LANES
        && v[TrailingZeros(flipped)] != 0
        && forall k :: 0 <= k < TrailingZeros(flipped) ==> v[k] == 0)
  {
    hide EqMask, Pow2;
    var mask := EqMask(v, 0);
    EqMaskBit(v, 0, 0);
    var flipped := Pow2(LANES) - 1 - mask;
    forall k: nat | k < LANES ensures Bit(flipped, k) <==> v[k] != 0 {
      FlipBit(mask, LANES, k);
      EqMaskBit(v, 0, k);
    }
    ZeroBlockBits(v, flipped);
  }

  lemma ZeroBlockBits(v: seq<byte>, m: nat)
    requires |v| == LANES && m < Pow2(LANES)
    requires forall k: nat :: k < LANES ==> (Bit(m, k) <==> v[k] != 0)
    ensures m == 0 ==> forall k :: 0 <= k < LANES ==> v[k] == 0
    ensures m != 0 ==>
      && TrailingZeros(m) < LANES
      && v[TrailingZeros(m)] != 0
      && forall k :: 0 <= k < TrailingZeros(m) ==> v[k] == 0
  {
    EmptyWord(m, LANES);
    if m == 0 {
      forall k: nat | k < LANES ensures v[k] == 0 { assert !Bit(m, k); }
    } else {
      TrailingZerosIsLowest(m);
      TrailingZerosBound(m, LANES);
      forall k: nat | k < TrailingZeros(m) ensures v[k] == 0 { assert !Bit(m, k); }
    }
  }

  /** The mask is an i32: all ones is -1, and its trailing ones are the trailing zeros of its complement. */
  method LTrim256(data: seq<byte>) returns (r: seq<byte>)
    ensures r == TrimLeft(data)
  {
    hide LoadU, EqMask, TrailingZeros, Pow2, TrimLeft;
    var len := |data|;
    var i := 0;
    while i + 32 <= len
      invariant i <= len
      invariant forall k :: 0 <= k < i ==> data[k] == 0
    {
      var chunk := LoadU(data, i);
      var mask := EqMask(chunk, 0);
      LoadIs(data, i);
      ZeroBlock(chunk);
      if Pow2(32) - 1 - mask != 0 {
        var tz := TrailingZeros(Pow2(32) - 1 - mask);
        TrimLeftAt(data, i + tz);
        return data[i + tz..];
      }
      i := i + 32;
    }
    while i < len
      invariant i <= len
      invariant forall k :: 0 <= k < i ==> data[k] == 0
    {
      if data[i] != 0 {
        TrimLeftAt(data, i);
        return data[i..];
      }
      i := i + 1;
    }
    TrimLeftAt(data, len);
    return [];
  }

  method RTrim256(buf: seq<byte>) returns (r: seq<byte>)
    ensures r == TrimRight(buf)
  {
    hide LoadU, EqMask, TrailingZeros, Pow2, TrimRight;
    var len := |buf|;
    if len == 0 {
      TrimRightAt(buf, 0);
      return [];
    }
    var i := len;
    while i >= 32
      invariant 0 <= i <= len
      invariant forall k :: i <= k < len ==> buf[k] == 0
    {
      var offset := i - 32;
      var chunk := LoadU(buf, offset);
      var mask := EqMask(chunk, 0);
      LoadIs(buf, offset);
      ZeroBlock(chunk);
      if Pow2(32) - 1 - mask != 0 {
        var j := 32;
        while j > 0
          invariant 0 <= j <= 32
          invariant forall k :: offset + j <= k < len ==> buf[k] == 0
        {
          j := j - 1;
          if buf[offset + j] != 0 {
            TrimRightAt(buf, offset + j + 1);
            return buf[..offset + j + 1];
          }
        }
      }
      i := i - 32;
    }
    while i > 0
      invariant 0 <= i <= len
      invariant forall k :: i <= k < len ==> buf[k] == 0
    {
      if buf[i - 1] != 0 {
        TrimRightAt(buf, i);
        return buf[..i];
      }
      i := i - 1;
    }
    TrimRightAt(buf, 0);
    return [];
  }

  lemma LoadIs(data: seq<byte>, i: nat)
    requires i + 32 <= |data|
    ensures forall k :: i <= k < i + 32 ==> data[k] == LoadU(data, i)[k - i]
    ensures LANES == 32
  {
  }

  lemma TrimLeftAt(data: seq<byte>, n: nat)
    requires n <= |data| && (forall k :: 0 <= k < n ==> data[k] == 0) && (n < |data| ==> data[n] != 0)
    ensures TrimLeft(data) == data[n..]
  {
    LeadingZerosUnique(data, n);
  }

  lemma TrimRightAt(data: seq<byte>, n: nat)
    requires n <= |data| && (forall k :: n <= k < |data| ==> data[k] == 0) && (n > 0 ==> data[n - 1] != 0)
    ensures TrimRight(data) == data[..n]
  {
    ContentEndUnique(data, n);
  }
}
