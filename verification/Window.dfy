/**
 parse_one_manual: reads method and path from the 32 bytes at a request start, with fast
 paths for "GET " and "POST " and a generic path, against a two-space search.
 The release profile is modelled: a shift count wraps to its low five bits.
 */
module Window {
  import opened Bytes
  import opened Bits
  import opened Simd

  const SPACE: byte := 32

  /** Offsets relative to the window, as the source returns them. */
  datatype Fields = Fields(methodOff: nat, methodLen: nat, pathOff: nat, pathLen: nat)

  /** A little-endian load. */
  function LoadLE(s: seq<byte>): nat {
    if s == [] then 0 else s[0] + 256 * LoadLE(s[1..])
  }

  /** A u32 shift without overflow checks: the hardware keeps the low five bits of the count. */
  function ShrWrapping(m: nat, n: nat): nat { Shr(m, n % 32) }

  /** The search for a space from `pathStart`, shared by the three branches. */
  function PathFrom(w: seq<byte>, methodLen: nat, pathStart: nat): Option<Fields>
    requires |w| == LANES
  {
    var mask2 := ShrWrapping(EqMask(w, SPACE), pathStart);
    if mask2 == 0 then None
    else Some(Fields(0, methodLen, pathStart, TrailingZeros(mask2)))
  }

  function ParseOne(w: seq<byte>): Option<Fields>
    requires |w| == LANES
  {
    var first8 := LoadLE(w[..8]);
    if first8 % 0x1_0000_0000 == LoadLE(Ascii("GET ")) then PathFrom(w, 3, 4)
    else if first8 % 0x100_0000_0000 == LoadLE(Ascii("POST ")) then PathFrom(w, 4, 5)
    else
      var mask := EqMask(w, SPACE);
      if mask == 0 then None
      else
        var methodLen := TrailingZeros(mask);
        PathFrom(w, methodLen, methodLen + 1)
  }

  // ----- the two-space search

  /** The first space at or after `from`, or the end of the window. */
  function FirstSpace(w: seq<byte>, from: nat): (p: nat)
    requires from <= |w|
    ensures from <= p <= |w|
    ensures forall k :: from <= k < p ==> w[k] != SPACE
    ensures p < |w| ==> w[p] == SPACE
    decreases |w| - from
  {
    if from == |w| || w[from] == SPACE then from else FirstSpace(w, from + 1)
  }

  /** Method up to the first space, path up to the second; nothing with fewer than two spaces. */
  function TwoSpaces(w: seq<byte>): Option<Fields> {
    var f := FirstSpace(w, 0);
    if f == |w| then None
    else
      var g := FirstSpace(w, f + 1);
      if g == |w| then None else Some(Fields(0, f, f + 1, g - f - 1))
  }

  lemma FirstSpaceUnique(w: seq<byte>, from: nat, p: nat)
    requires from <= p < |w| && w[p] == SPACE
    requires forall k :: from <= k < p ==> w[k] != SPACE
    ensures FirstSpace(w, from) == p
  {
  }

  // ----- the mask search is the byte search

  lemma {:induction false} MaskSearch(w: seq<byte>, from: nat)
    requires |w| == LANES && from < LANES
    ensures var m := Shr(EqMask(w, SPACE), from);
      if m == 0 then FirstSpace(w, from) == LANES
      else FirstSpace(w, from) < LANES && TrailingZeros(m) == FirstSpace(w, from) - from
  {
    var mask := EqMask(w, SPACE);
    var m := Shr(mask, from);
    EqMaskBit(w, SPACE, 0);
    ShrBound(mask, from);
    EmptyWord(m, LANES);
    forall k: nat ensures Bit(m, k) <==> from + k < LANES && w[from + k] == SPACE {
      ShrBit(mask, from, k);
      EqMaskBit(w, SPACE, from + k);
    }
    MaskSearchFrom(w, from, m);
  }

  lemma MaskSearchFrom(w: seq<byte>, from: nat, m: nat)
    requires |w| == LANES && from < LANES
    requires m == 0 ==> forall k: nat :: !Bit(m, k)
    requires forall k: nat :: Bit(m, k) <==> from + k < LANES && w[from + k] == SPACE
    ensures if m == 0 then FirstSpace(w, from) == LANES
      else FirstSpace(w, from) < LANES && TrailingZeros(m) == FirstSpace(w, from) - from
  {
    var p := FirstSpace(w, from);
    if m == 0 {
      assert !Bit(m, p - from);
    } else {
      TrailingZerosIsLowest(m);
      var tz := TrailingZeros(m);
      assert Bit(m, tz);
      forall k | from <= k < from + tz ensures w[k] != SPACE {
        assert !Bit(m, k - from);
      }
      FirstSpaceUnique(w, from, from + tz);
    }
  }

  /** The low k bytes of a load are the load of the first k bytes, which determines them. */
  lemma {:induction false} LowBytes(s: seq<byte>, t: seq<byte>)
    requires |t| <= |s|
    ensures LoadLE(t) < Pow256(|t|)
    ensures LoadLE(s) % Pow256(|t|) == LoadLE(t) <==> s[..|t|] == t
  {
    if t == [] {
      assert LoadLE(s) % 1 == 0;
    } else {
      LowBytes(s[1..], t[1..]);
      var p := Pow256(|t| - 1);
      ModStep(s[0], LoadLE(s[1..]), p);
      assert s[..|t|] == [s[0]] + s[1..][..|t| - 1];
      assert t == [t[0]] + t[1..];
    }
  }

  function Pow256(n: nat): (r: nat)
    ensures r >= 1
  {
    if n == 0 then 1 else 256 * Pow256(n - 1)
  }

  lemma ModStep(b: byte, x: nat, p: nat)
    requires p >= 1
    ensures (b + 256 * x) % (256 * p) == b + 256 * (x % p)
  {
    var q, r := x / p, x % p;
    assert x == q * p + r;
    assert b + 256 * x == (256 * p) * q + (b + 256 * r) by {
      assert 256 * (q * p) == (256 * p) * q;
    }
    ModUnique(b + 256 * x, 256 * p, q, b + 256 * r);
  }

  lemma ModUnique(a: nat, d: nat, q: nat, r: nat)
    requires d >= 1 && a == d * q + r && r < d
    ensures a % d == r
  {
    var q2, r2 := a / d, a % d;
    if q2 < q {
      MulStep(d, q2, q);
    } else if q < q2 {
      MulStep(d, q, q2);
    }
  }

  lemma MulStep(d: nat, x: nat, y: nat)
    requires x < y
    ensures d * x + d <= d * y
  {
    assert d * (x + 1) <= d * y;
  }

  /** The masked 64-bit compare is a comparison of the leading bytes. */
  lemma {:induction false} MaskedCompare(w: seq<byte>)
    requires |w| == LANES
    ensures LoadLE(w[..8]) % 0x1_0000_0000 == LoadLE(Ascii("GET ")) <==> w[..4] == Ascii("GET ")
    ensures LoadLE(w[..8]) % 0x100_0000_0000 == LoadLE(Ascii("POST ")) <==> w[..5] == Ascii("POST ")
  {
    LowBytes(w[..8], Ascii("GET "));
    LowBytes(w[..8], Ascii("POST "));
    assert Pow256(4) == 0x1_0000_0000 && Pow256(5) == 0x100_0000_0000;
    assert w[..8][..4] == w[..4] && w[..8][..5] == w[..5];
  }

  lemma FastPathSpaces(w: seq<byte>)
    requires |w| == LANES
    ensures w[..4] == Ascii("GET ") ==> FirstSpace(w, 0) == 3
    ensures w[..5] == Ascii("POST ") ==> FirstSpace(w, 0) == 4
  {
    if w[..4] == Ascii("GET ") {
      assert Ascii("GET ") == ['G' as int, 'E' as int, 'T' as int, SPACE];
      assert forall k :: 0 <= k < 4 ==> w[k] == w[..4][k];
      FirstSpaceUnique(w, 0, 3);
    }
    if w[..5] == Ascii("POST ") {
      assert Ascii("POST ") == ['P' as int, 'O' as int, 'S' as int, 'T' as int, SPACE];
      assert forall k :: 0 <= k < 5 ==> w[k] == w[..5][k];
      FirstSpaceUnique(w, 0, 4);
    }
  }

  lemma PathFromIs(w: seq<byte>, f: nat)
    requires |w| == LANES && f + 1 < LANES
    ensures PathFrom(w, f, f + 1) ==
      if FirstSpace(w, f + 1) == LANES then None
      else Some(Fields(0, f, f + 1, FirstSpace(w, f + 1) - f - 1))
  {
    assert (f + 1) % 32 == f + 1;
    MaskSearch(w, f + 1);
  }

  /** Every branch looks for the path right after the first space. */
  lemma {:induction false} ParseOneBranches(w: seq<byte>)
    requires |w| == LANES
    ensures ParseOne(w) ==
      if FirstSpace(w, 0) == LANES then None else PathFrom(w, FirstSpace(w, 0), FirstSpace(w, 0) + 1)
  {
    hide Shr, EqMask, LoadLE, FirstSpace, PathFrom, ShrWrapping, Ascii, TrailingZeros;
    MaskedCompare(w);
    FastPathSpaces(w);
    MaskSearch(w, 0);
    ShrZero(EqMask(w, SPACE));
  }

  lemma ShrZero(m: nat)
    ensures Shr(m, 0) == m && ShrWrapping(m, 32) == m
  {
  }

  /**
   All three branches compute the two-space search, except when the first space is the
   window's last byte: the generic shift then wraps and reports a path beyond the window.
   */
  lemma {:induction false} ParseOneExact(w: seq<byte>)
    requires |w| == LANES
    ensures ParseOne(w) == TwoSpaces(w) <==> FirstSpace(w, 0) != 31
    ensures FirstSpace(w, 0) == 31 ==> ParseOne(w) == Some(Fields(0, 31, 32, 31))
  {
    hide ParseOne, Shr, EqMask, ShrWrapping, TrailingZeros, FirstSpace;
    ParseOneBranches(w);
    var f := FirstSpace(w, 0);
    if f < 31 {
      PathFromIs(w, f);
    } else if f == 31 {
      LastByteSpace(w);
    }
  }

  lemma LastByteSpace(w: seq<byte>)
    requires |w| == LANES && FirstSpace(w, 0) == 31
    ensures PathFrom(w, 31, 32) == Some(Fields(0, 31, 32, 31))
  {
    hide Shr, EqMask, ShrWrapping, TrailingZeros, FirstSpace;
    MaskSearch(w, 0);
    ShrZero(EqMask(w, SPACE));
  }

  /** What the two-space search means: the window is method, space, path, space. */
  lemma TwoSpacesMeaning(w: seq<byte>)
    ensures match TwoSpaces(w)
      case Some(x) =>
        && x.methodOff == 0 && x.pathOff == x.methodLen + 1 && x.pathOff + x.pathLen < |w|
        && SPACE !in w[..x.methodLen] && w[x.methodLen] == SPACE
        && SPACE !in w[x.pathOff..x.pathOff + x.pathLen] && w[x.pathOff + x.pathLen] == SPACE
      case None =>
        forall i, j :: 0 <= i < j < |w| && w[i] == SPACE ==> w[j] != SPACE
  {
  }

  /** Where the spaces of such a window are. */
  lemma HeadSpaces(w: seq<byte>, verb: seq<byte>, path: seq<byte>)
    requires |verb| + |path| + 2 <= |w| && w[..|verb| + |path| + 2] == verb + [SPACE] + path + [SPACE]
    requires SPACE !in verb && SPACE !in path
    ensures FirstSpace(w, 0) == |verb| && FirstSpace(w, |verb| + 1) == |verb| + 1 + |path|
  {
    hide FirstSpace;
    var head := verb + [SPACE] + path + [SPACE];
    var m, g := |verb|, |verb| + 1 + |path|;
    assert forall k :: 0 <= k < |head| ==> w[k] == head[k];
    forall k | 0 <= k < m ensures w[k] != SPACE { assert head[k] == verb[k]; }
    forall k | m + 1 <= k < g ensures w[k] != SPACE { assert head[k] == path[k - m - 1]; }
    assert w[m] == head[m] == SPACE && w[g] == head[g] == SPACE;
    FirstSpaceUnique(w, 0, m);
    FirstSpaceUnique(w, m + 1, g);
  }

  /** A window with a method and a path that end in spaces is read back. */
  lemma ParseOneReads(w: seq<byte>, verb: seq<byte>, path: seq<byte>)
    requires |w| == LANES && |verb| + |path| + 2 <= LANES
    requires w[..|verb| + |path| + 2] == verb + [SPACE] + path + [SPACE]
    requires SPACE !in verb && SPACE !in path
    ensures ParseOne(w) == Some(Fields(0, |verb|, |verb| + 1, |path|))
  {
    hide ParseOne, FirstSpace;
    HeadSpaces(w, verb, path);
    ParseOneExact(w);
  }

  // ----- on the bytes

  /** The first two spaces of a window are its bytes i and j. */
  ghost predicate FirstTwo(w: seq<byte>, i: nat, j: nat) {
    i < j < |w| && w[i] == SPACE && w[j] == SPACE && forall k :: 0 <= k < j && k != i ==> w[k] != SPACE
  }

  /** The only space of a window is its last byte. */
  ghost predicate SpaceLast(w: seq<byte>) {
    w != [] && w[|w| - 1] == SPACE && forall k :: 0 <= k < |w| - 1 ==> w[k] != SPACE
  }

  /** Some two bytes of a window are spaces, or its only space is its last byte. */
  ghost predicate Legible(w: seq<byte>) {
    (exists i, j :: 0 <= i < j < |w| && w[i] == SPACE && w[j] == SPACE) || SpaceLast(w)
  }

  /** A window gives fields exactly when it holds two spaces or ends in its only one, and they are the first two's. */
  lemma ParseOneLegible(w: seq<byte>)
    requires |w| == LANES
    ensures ParseOne(w).Some? <==> Legible(w)
    ensures ParseOne(w).Some? ==>
      var x := ParseOne(w).value;
      && x.methodOff == 0
      && (|| (FirstTwo(w, x.methodLen, x.methodLen + 1 + x.pathLen) && x.pathOff == x.methodLen + 1)
          || (SpaceLast(w) && x == Fields(0, LANES - 1, LANES, LANES - 1)))
  {
    ParseOneExact(w);
    hide ParseOne;
    var f := FirstSpace(w, 0);
    if f < LANES - 1 {
      var g := FirstSpace(w, f + 1);
      if g < LANES { assert FirstTwo(w, f, g); }
    }
  }
}
