/**
 Machine words as naturals, with the bitwise operators defined one binary digit at a
 time.  The scanner's 32-bit masks and the ring's 64-bit user data are both built here.
 */
module Bits {

  function Pow2(n: nat): (r: nat)
    ensures r >= 1
  {
    if n == 0 then 1 else 2 * Pow2(n - 1)
  }

  lemma {:induction false} Pow2Sum(a: nat, b: nat)
    ensures Pow2(a + b) == Pow2(a) * Pow2(b)
  {
    if a > 0 {
      Pow2Sum(a - 1, b);
    }
  }

  predicate Bit(m: nat, k: nat)
    decreases k
  {
    if k == 0 then m % 2 == 1 else Bit(m / 2, k - 1)
  }

  function BitAnd(a: nat, b: nat): nat {
    if a == 0 || b == 0 then 0 else (a % 2) * (b % 2) + 2 * BitAnd(a / 2, b / 2)
  }

  function BitOr(a: nat, b: nat): nat {
    if a == 0 then b else if b == 0 then a
    else (if a % 2 == 1 || b % 2 == 1 then 1 else 0) + 2 * BitOr(a / 2, b / 2)
  }

  /** Logical right shift by a count. */
  function Shr(m: nat, n: nat): nat
    decreases n
  {
    if n == 0 then m else Shr(m / 2, n - 1)
  }

  /** u32::trailing_zeros: 32 for the empty mask. */
  function TrailingZeros(m: nat): nat {
    if m == 0 then 32 else if m % 2 == 1 then 0 else 1 + TrailingZeros(m / 2)
  }

  // ----- words as sets of bits

  lemma {:induction false} ZeroBit(k: nat)
    ensures !Bit(0, k)
    decreases k
  {
    if k > 0 {
      ZeroBit(k - 1);
    }
  }

  lemma {:induction false} OrBit(a: nat, b: nat, k: nat)
    ensures Bit(BitOr(a, b), k) <==> Bit(a, k) || Bit(b, k)
    decreases k
  {
    ZeroBit(k);
    if k > 0 && a != 0 && b != 0 {
      OrBit(a / 2, b / 2, k - 1);
    }
  }

  lemma {:induction false} ShrBit(m: nat, n: nat, k: nat)
    ensures Bit(Shr(m, n), k) <==> Bit(m, n + k)
    decreases n
  {
    if n > 0 {
      ShrBit(m / 2, n - 1, k);
    }
  }

  lemma {:induction false} ShrBound(m: nat, n: nat)
    ensures Shr(m, n) <= m
    decreases n
  {
    if n > 0 {
      ShrBound(m / 2, n - 1);
    }
  }

  /** trailing_zeros of a nonempty word is its lowest set bit. */
  lemma {:induction false} TrailingZerosIsLowest(m: nat)
    requires m != 0
    ensures Bit(m, TrailingZeros(m))
    ensures forall k: nat :: k < TrailingZeros(m) ==> !Bit(m, k)
    decreases m
  {
    if m % 2 == 0 {
      TrailingZerosIsLowest(m / 2);
      forall k: nat | k < TrailingZeros(m) ensures !Bit(m, k) {
        if k > 0 {
          assert !Bit(m / 2, k - 1);
        }
      }
    }
  }

  lemma {:induction false} TrailingZerosBound(m: nat, n: nat)
    requires 0 < m < Pow2(n)
    ensures TrailingZeros(m) < n
    decreases n
  {
    if m % 2 == 0 {
      TrailingZerosBound(m / 2, n - 1);
    }
  }

  /** bits &= bits - 1 removes exactly the lowest set bit. */
  lemma {:induction false} ClearLowestBit(m: nat, k: nat)
    requires m != 0
    ensures BitAnd(m, m - 1) < m
    ensures Bit(BitAnd(m, m - 1), k) <==> Bit(m, k) && k != TrailingZeros(m)
    decreases m
  {
    if m % 2 == 1 {
      AndSelf(m / 2);
      assert BitAnd(m, m - 1) == m - 1;
    } else {
      ClearLowestBit(m / 2, if k > 0 then k - 1 else 0);
    }
  }

  lemma {:induction false} AndSelf(m: nat)
    ensures BitAnd(m, m) == m
  {
    if m != 0 {
      AndSelf(m / 2);
    }
  }

  /** A word is zero exactly when it has no bit. */
  lemma {:induction false} EmptyWord(m: nat, n: nat)
    requires m < Pow2(n)
    ensures m == 0 ==> forall k: nat :: !Bit(m, k)
    ensures m != 0 ==> exists k: nat :: k < n && Bit(m, k)
  {
    if m == 0 {
      forall k: nat ensures !Bit(m, k) { ZeroBit(k); }
    } else {
      TrailingZerosIsLowest(m);
      TrailingZerosBound(m, n);
    }
  }

  lemma {:induction false} FlipBit(m: nat, n: nat, k: nat)
    requires m < Pow2(n) && k < n
    ensures Bit(Pow2(n) - 1 - m, k) <==> !Bit(m, k)
    decreases n
  {
    if k > 0 {
      assert (Pow2(n) - 1 - m) / 2 == Pow2(n - 1) - 1 - m / 2;
      FlipBit(m / 2, n - 1, k - 1);
    }
  }

  // ----- words as sums of fields

  lemma {:induction false} OrBound(a: nat, b: nat, n: nat)
    requires a < Pow2(n) && b < Pow2(n)
    ensures BitOr(a, b) < Pow2(n)
    decreases n
  {
    if a != 0 && b != 0 {
      OrBound(a / 2, b / 2, n - 1);
    }
  }

  /** The or of two words is the or of their high parts beside the or of their low parts. */
  lemma {:induction false} OrSplit(hi1: nat, lo1: nat, hi2: nat, lo2: nat, k: nat)
    requires lo1 < Pow2(k) && lo2 < Pow2(k)
    ensures BitOr(hi1 * Pow2(k) + lo1, hi2 * Pow2(k) + lo2) == BitOr(hi1, hi2) * Pow2(k) + BitOr(lo1, lo2)
    decreases k
  {
    if k > 0 {
      var p := Pow2(k - 1);
      assert lo1 / 2 < p && lo2 / 2 < p;
      OrSplit(hi1, lo1 / 2, hi2, lo2 / 2, k - 1);
      SplitStep(hi1, lo1, hi2, lo2, p);
    }
  }

  lemma SplitStep(hi1: nat, lo1: nat, hi2: nat, lo2: nat, p: nat)
    requires BitOr(hi1 * p + lo1 / 2, hi2 * p + lo2 / 2) == BitOr(hi1, hi2) * p + BitOr(lo1 / 2, lo2 / 2)
    ensures BitOr(hi1 * (2 * p) + lo1, hi2 * (2 * p) + lo2) == BitOr(hi1, hi2) * (2 * p) + BitOr(lo1, lo2)
  {
    hide *;
    var a, b := hi1 * (2 * p) + lo1, hi2 * (2 * p) + lo2;
    Halve(hi1, lo1, p);
    Halve(hi2, lo2, p);
    OrStep(a, b);
    OrStep(lo1, lo2);
    Double(BitOr(hi1, hi2), p);
  }

  lemma Halve(hi: nat, lo: nat, p: nat)
    ensures (hi * (2 * p) + lo) / 2 == hi * p + lo / 2
    ensures (hi * (2 * p) + lo) % 2 == lo % 2
  {
    assert hi * (2 * p) == 2 * (hi * p);
  }

  lemma OrStep(a: nat, b: nat)
    ensures BitOr(a, b) == (if a % 2 == 1 || b % 2 == 1 then 1 else 0) + 2 * BitOr(a / 2, b / 2)
  {
  }

  lemma Double(x: nat, p: nat)
    ensures x * (2 * p) == 2 * (x * p)
  {
  }

  lemma {:induction false} OrOnes(a: nat, n: nat)
    requires a < Pow2(n)
    ensures BitOr(a, Pow2(n) - 1) == Pow2(n) - 1
    decreases n
  {
    if n > 0 {
      var p := Pow2(n - 1);
      OrOnes(a / 2, n - 1);
      OrStep(a, 2 * p - 1);
      assert (2 * p - 1) / 2 == p - 1 && (2 * p - 1) % 2 == 1;
    }
  }
}
