/**
 find_request_starts_avx2: a 64-byte unrolled scan and a 32-byte tail scan for the first
 three bytes of "GET" or "POST", refined to a byte-at-a-time reading of the buffer.
 */
module Scanner {
  import opened Bytes
  import opened Bits
  import opened Simd

  // ----- the byte-at-a-time reading

  /** Bytes p..p+3 are `GET` or `POS`. */
  predicate IsStart(buf: seq<byte>, p: nat) {
    p + 3 <= |buf| &&
    (buf[p..p + 3] == Ascii("GET") || buf[p..p + 3] == Ascii("POS"))
  }

  /** The starts in [0, hi), ascending. */
  function Starts(buf: seq<byte>, hi: nat): seq<nat> {
    if hi == 0 then []
    else Starts(buf, hi - 1) + (if IsStart(buf, hi - 1) then [hi - 1] else [])
  }

  /** Where the blocks end: 0 below 34 bytes, else the least multiple of 32 within 33 bytes of the end. */
  function ScanEnd(len: nat): (s: nat)
    ensures s % 32 == 0 && len < s + 34
    ensures s == 0 || s + 2 <= len
  {
    if len < 34 then 0 else 32 + ScanEnd(len - 32)
  }

  /** A block that still fits 34 bytes is scanned in full. */
  lemma {:induction false} ScanEndAdvance(len: nat, blocks: nat)
    requires 32 * blocks + 34 <= len
    ensures 32 * blocks + 32 <= ScanEnd(len)
  {
    if blocks > 0 {
      ScanEndAdvance(len - 32, blocks - 1);
    }
  }

  lemma {:induction false} ScanEndReached(len: nat, blocks: nat)
    requires 32 * blocks <= ScanEnd(len) && len < 32 * blocks + 34
    ensures 32 * blocks == ScanEnd(len)
  {
    if blocks > 0 {
      ScanEndReached(len - 32, blocks - 1);
    }
  }

  // ----- facts about the reading

  /** Starts lists exactly the starts below hi, in strictly ascending order. */
  lemma {:induction false} StartsExact(buf: seq<byte>, hi: nat)
    ensures forall p: nat :: p in Starts(buf, hi) <==> p < hi && IsStart(buf, p)
    ensures forall i, j :: 0 <= i < j < |Starts(buf, hi)| ==> Starts(buf, hi)[i] < Starts(buf, hi)[j]
  {
    if hi > 0 {
      StartsExact(buf, hi - 1);
      var init := Starts(buf, hi - 1);
      forall i | 0 <= i < |init| ensures init[i] < hi - 1 {
        assert init[i] in init;
      }
    }
  }

  /** Starts that lie beyond lo come after those below it. */
  lemma {:induction false} StartsPrefix(buf: seq<byte>, lo: nat, hi: nat)
    requires lo <= hi
    ensures Starts(buf, lo) <= Starts(buf, hi)
  {
    if lo < hi {
      StartsPrefix(buf, lo, hi - 1);
    }
  }

  lemma {:induction false} StartsSkip(buf: seq<byte>, lo: nat, hi: nat)
    requires lo <= hi
    requires forall p: nat :: lo <= p < hi ==> !IsStart(buf, p)
    ensures Starts(buf, lo) == Starts(buf, hi)
  {
    if lo < hi {
      StartsSkip(buf, lo, hi - 1);
    }
  }

  lemma NothingBelowZero(buf: seq<byte>, n: nat)
    ensures Take(Starts(buf, 0), n) == []
  {
  }

  /** With the cap reached, reading further changes nothing. */
  lemma CapReached(buf: seq<byte>, lo: nat, hi: nat, n: nat)
    requires lo <= hi && |Take(Starts(buf, lo), n)| == n
    ensures Take(Starts(buf, lo), n) == Take(Starts(buf, hi), n)
  {
    StartsPrefix(buf, lo, hi);
  }

  // ----- the vector block

  /** The mask of the places in a block where three given bytes follow each other. */
  function TripleMask(buf: seq<byte>, i: nat, a: byte, b: byte, c: byte): nat
    requires i + 34 <= |buf|
  {
    MoveMask(And(CmpEq(LoadU(buf, i), a), And(CmpEq(LoadU(buf, i + 1), b), CmpEq(LoadU(buf, i + 2), c))))
  }

  /** The mask of one 32-byte block. */
  function BlockMask(buf: seq<byte>, i: nat): nat
    requires i + 34 <= |buf|
  {
    BitOr(TripleMask(buf, i, 'G' as int, 'E' as int, 'T' as int),
          TripleMask(buf, i, 'P' as int, 'O' as int, 'S' as int))
  }

  lemma TripleMaskBit(buf: seq<byte>, i: nat, a: byte, b: byte, c: byte, k: nat)
    requires i + 34 <= |buf|
    ensures TripleMask(buf, i, a, b, c) < Pow2(LANES)
    ensures Bit(TripleMask(buf, i, a, b, c), k) <==>
      k < LANES && buf[i + k] == a && buf[i + k + 1] == b && buf[i + k + 2] == c
  {
    var c0, c1, c2 := CmpEq(LoadU(buf, i), a), CmpEq(LoadU(buf, i + 1), b), CmpEq(LoadU(buf, i + 2), c);
    MoveMaskBit(And(c0, And(c1, c2)), k);
    if k < LANES {
      assert c0[k] == (buf[i + k] == a) && c1[k] == (buf[i + k + 1] == b) && c2[k] == (buf[i + k + 2] == c);
    }
  }

  lemma IsStartBytes(buf: seq<byte>, p: nat)
    requires p + 3 <= |buf|
    ensures IsStart(buf, p) <==>
      || (buf[p] == 'G' as int && buf[p + 1] == 'E' as int && buf[p + 2] == 'T' as int)
      || (buf[p] == 'P' as int && buf[p + 1] == 'O' as int && buf[p + 2] == 'S' as int)
  {
    assert buf[p..p + 3] == [buf[p], buf[p + 1], buf[p + 2]];
    assert Ascii("GET") == ['G' as int, 'E' as int, 'T' as int];
    assert Ascii("POS") == ['P' as int, 'O' as int, 'S' as int];
  }

  /** Bit k of a block's mask says whether a request starts k bytes into the block. */
  lemma BlockMaskBit(buf: seq<byte>, i: nat, k: nat)
    requires i + 34 <= |buf|
    ensures BlockMask(buf, i) < Pow2(LANES)
    ensures Bit(BlockMask(buf, i), k) <==> k < LANES && IsStart(buf, i + k)
  {
    var get := TripleMask(buf, i, 'G' as int, 'E' as int, 'T' as int);
    var post := TripleMask(buf, i, 'P' as int, 'O' as int, 'S' as int);
    TripleMaskBit(buf, i, 'G' as int, 'E' as int, 'T' as int, k);
    TripleMaskBit(buf, i, 'P' as int, 'O' as int, 'S' as int, k);
    OrBit(get, post, k);
    OrBound(get, post, LANES);
    if k < LANES {
      IsStartBytes(buf, i + k);
    }
  }

  /** The starts at or after offset j of the block at i are the bits left in `bits`. */
  ghost predicate BitsLeft(buf: seq<byte>, i: nat, j: nat, bits: nat) {
    && j <= LANES && bits < Pow2(LANES)
    && forall k: nat :: Bit(bits, k) <==> j <= k < LANES && IsStart(buf, i + k)
  }

  /** Loads one block and reduces it to its mask. */
  method LoadBlock(buf: seq<byte>, i: nat) returns (mask: nat)
    requires i + 34 <= |buf|
    ensures BitsLeft(buf, i, 0, mask)
  {
    mask := BlockMask(buf, i);
    BlockMaskBit(buf, i, 0);
    forall k: nat ensures Bit(mask, k) <==> 0 <= k < LANES && IsStart(buf, i + k) {
      BlockMaskBit(buf, i, k);
    }
  }

  /** Taking the lowest bit out of a block appends the next start. */
  lemma DrainStep(buf: seq<byte>, i: nat, j: nat, bits: nat)
    requires BitsLeft(buf, i, j, bits) && bits != 0
    ensures var tz := TrailingZeros(bits);
      && j <= tz < LANES
      && BitAnd(bits, bits - 1) < bits
      && BitsLeft(buf, i, tz + 1, BitAnd(bits, bits - 1))
      && Starts(buf, i + tz + 1) == Starts(buf, i + j) + [i + tz]
  {
    var tz := TrailingZeros(bits);
    TrailingZerosIsLowest(bits);
    ClearLowestBit(bits, 0);
    var left := BitAnd(bits, bits - 1);
    forall k: nat ensures Bit(left, k) <==> tz + 1 <= k < LANES && IsStart(buf, i + k) {
      ClearLowestBit(bits, k);
    }
    forall p: nat | i + j <= p < i + tz ensures !IsStart(buf, p) {
      assert !Bit(bits, p - i);
    }
    StartsSkip(buf, i + j, i + tz);
  }

  /** A drained block holds no further start. */
  lemma DrainDone(buf: seq<byte>, i: nat, j: nat)
    requires BitsLeft(buf, i, j, 0)
    ensures Starts(buf, i + j) == Starts(buf, i + LANES)
  {
    forall p: nat | i + j <= p < i + LANES ensures !IsStart(buf, p) {
      ZeroBit(p - i);
    }
    StartsSkip(buf, i + j, i + LANES);
  }

  // ----- the scanner

  /** The loop that empties one block's mask into `found`. */
  method DrainMask(ghost buf: seq<byte>, found: array<nat>, count: nat, i: nat, mask: nat) returns (count': nat)
    requires count <= found.Length
    requires found[..count] == Take(Starts(buf, i), found.Length)
    requires BitsLeft(buf, i, 0, mask)
    modifies found
    ensures count' <= found.Length
    ensures found[..count'] == Take(Starts(buf, i + 32), found.Length)
  {
    count' := count;
    var bits := mask;
    ghost var j := 0;
    while bits != 0 && count' < found.Length
      invariant count' <= found.Length
      invariant BitsLeft(buf, i, j, bits)
      invariant found[..count'] == Take(Starts(buf, i + j), found.Length)
      decreases bits
    {
      DrainStep(buf, i, j, bits);
      var tz := TrailingZeros(bits);
      found[count'] := i + tz;
      count' := count' + 1;
      bits := BitAnd(bits, bits - 1);
      j := tz + 1;
    }
    if bits == 0 {
      DrainDone(buf, i, j);
    } else {
      CapReached(buf, i + j, i + LANES, found.Length);
    }
  }

  /** The 64-byte unrolled loop: two blocks a turn while both fit. */
  method ScanUnrolled(buf: seq<byte>, found: array<nat>) returns (count: nat, i: nat, ghost blocks: nat)
    modifies found
    ensures i == 32 * blocks && i <= ScanEnd(|buf|)
    ensures count <= found.Length
    ensures count < found.Length ==> |buf| < i + 66
    ensures found[..count] == Take(Starts(buf, i), found.Length)
  {
    hide *;
    count, i, blocks := 0, 0, 0;
    NothingBelowZero(buf, found.Length);
    while i + 66 <= |buf| && count < found.Length
      invariant i == 32 * blocks && i <= ScanEnd(|buf|)
      invariant count <= found.Length
      invariant found[..count] == Take(Starts(buf, i), found.Length)
    {
      var maskA := LoadBlock(buf, i);
      var maskB := LoadBlock(buf, i + 32);
      ScanEndAdvance(|buf|, blocks + 1);
      count := DrainMask(buf, found, count, i, maskA);
      count := DrainMask(buf, found, count, i + 32, maskB);
      i := i + 64;
      blocks := blocks + 2;
    }
  }

  /** The 32-byte tail loop. */
  method ScanTail(buf: seq<byte>, found: array<nat>, count: nat, i: nat, ghost blocks: nat) returns (count': nat)
    requires i == 32 * blocks && i <= ScanEnd(|buf|)
    requires count <= found.Length
    requires count < found.Length ==> |buf| < i + 66
    requires found[..count] == Take(Starts(buf, i), found.Length)
    modifies found
    ensures count' <= found.Length
    ensures found[..count'] == Take(Starts(buf, ScanEnd(|buf|)), found.Length)
  {
    hide *;
    var at := i;
    ghost var done := blocks;
    count' := count;
    while at + 34 <= |buf| && count' < found.Length
      invariant at == 32 * done && at <= ScanEnd(|buf|)
      invariant count' <= found.Length
      invariant found[..count'] == Take(Starts(buf, at), found.Length)
    {
      var mask := LoadBlock(buf, at);
      ScanEndAdvance(|buf|, done);
      count' := DrainMask(buf, found, count', at, mask);
      at := at + 32;
      done := done + 1;
    }
    if count' < found.Length {
      ScanEndReached(|buf|, done);
    } else {
      CapReached(buf, at, ScanEnd(|buf|), found.Length);
    }
  }

  /** The first N starts below ScanEnd, in ascending order. */
  method FindRequestStarts(buf: seq<byte>, N: nat) returns (found: array<nat>, count: nat)
    ensures fresh(found) && found.Length == N && count <= N
    ensures found[..count] == Take(Starts(buf, ScanEnd(|buf|)), N)
  {
    found := new nat[N](_ => 0);
    var i;
    ghost var blocks;
    count, i, blocks := ScanUnrolled(buf, found);
    count := ScanTail(buf, found, count, i, blocks);
  }

  /**
   Below the cap nothing that fits is missed: every start with 34 bytes after it is reported.
   */
  lemma NothingMissed(buf: seq<byte>, N: nat, p: nat)
    requires |Take(Starts(buf, ScanEnd(|buf|)), N)| < N
    requires IsStart(buf, p) && p + 34 <= |buf|
    ensures p in Take(Starts(buf, ScanEnd(|buf|)), N)
  {
    StartsExact(buf, ScanEnd(|buf|));
  }

  /** The last 33 bytes are another matter: a start there can go unseen although 32 bytes follow it. */
  lemma TailStartMissed()
    ensures exists buf: seq<byte>, p: nat ::
      IsStart(buf, p) && p + 33 <= |buf| && p !in Starts(buf, ScanEnd(|buf|))
  {
    var buf := Ascii("GET") + Zeros(30);
    assert buf[0..3] == Ascii("GET");
    assert IsStart(buf, 0) && 0 !in Starts(buf, ScanEnd(|buf|));
  }
}
