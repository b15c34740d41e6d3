/** The 32-bit words in which an mspace marks its non-empty bins, and the bit tricks on them (malloc.c). */
module BinMaps {
  import opened Encodings
  import opened TreeSearches

  const BITS: nat := 32

  // ---------------------------------------------------------------- words

  /** Bit i of a word. */
  predicate BitAt(x: nat, i: nat) {
    if i == 0 then x % 2 == 1 else BitAt(x / 2, i - 1)
  }

  /** The bitwise operations on words of n bits, and unsigned negation. */
  function And(a: nat, b: nat, n: nat): nat {
    if n == 0 then 0 else (if a % 2 == 1 && b % 2 == 1 then 1 else 0) + 2 * And(a / 2, b / 2, n - 1)
  }

  function Or(a: nat, b: nat, n: nat): nat {
    if n == 0 then 0 else (if a % 2 == 1 || b % 2 == 1 then 1 else 0) + 2 * Or(a / 2, b / 2, n - 1)
  }

  function Not(a: nat, n: nat): nat {
    Pow2(n) - 1 - Low(a, n)
  }

  function Neg(a: nat, n: nat): nat {
    if Low(a, n) == 0 then 0 else Pow2(n) - Low(a, n)
  }

  /** idx2bit, least_bit and left_bits. */
  function Idx2Bit(i: nat): nat {
    Pow2(i)
  }

  function LeastBitOf(x: nat): nat {
    And(x, Neg(x, BITS), BITS)
  }

  function LeftBits(x: nat): nat {
    var y := Low(2 * x, BITS);
    Or(y, Neg(y, BITS), BITS)
  }

  lemma {:induction false} AndBit(a: nat, b: nat, n: nat, i: nat)
    ensures BitAt(And(a, b, n), i) <==> i < n && BitAt(a, i) && BitAt(b, i)
    decreases n
  {
    if n == 0 {
      ZeroBit(i);
    } else if i > 0 {
      AndBit(a / 2, b / 2, n - 1, i - 1);
    }
  }

  lemma {:induction false} OrBit(a: nat, b: nat, n: nat, i: nat)
    ensures BitAt(Or(a, b, n), i) <==> i < n && (BitAt(a, i) || BitAt(b, i))
    decreases n
  {
    if n == 0 {
      ZeroBit(i);
    } else if i > 0 {
      OrBit(a / 2, b / 2, n - 1, i - 1);
    }
  }

  lemma {:induction false} ZeroBit(i: nat)
    ensures !BitAt(0, i)
  {
    if i > 0 {
      ZeroBit(i - 1);
    }
  }

  lemma {:induction false} LowBitAt(x: nat, n: nat, i: nat)
    ensures BitAt(Low(x, n), i) <==> i < n && BitAt(x, i)
    decreases n
  {
    if n == 0 {
      ZeroBit(i);
    } else if i > 0 {
      LowBitAt(x / 2, n - 1, i - 1);
    }
  }

  lemma {:induction false} ComplementBit(y: nat, n: nat, i: nat)
    requires y < Pow2(n)
    ensures BitAt(Pow2(n) - 1 - y, i) <==> i < n && !BitAt(y, i)
    decreases n
  {
    if n == 0 {
      ZeroBit(i);
    } else if i > 0 {
      assert (Pow2(n) - 1 - y) / 2 == Pow2(n - 1) - 1 - y / 2;
      ComplementBit(y / 2, n - 1, i - 1);
    }
  }

  lemma {:induction false} NotBit(a: nat, n: nat, i: nat)
    ensures BitAt(Not(a, n), i) <==> i < n && !BitAt(a, i)
  {
    ComplementBit(Low(a, n), n, i);
    LowBitAt(a, n, i);
  }

  /** Negation keeps the lowest one and flips everything above it. */
  lemma {:induction false} NegatedBit(x: nat, n: nat, i: nat)
    requires 0 < x < Pow2(n)
    ensures BitAt(Pow2(n) - x, i) <==> i < n && (i == TrailingZeros(x) || (i > TrailingZeros(x) && !BitAt(x, i)))
    decreases n
  {
    if x % 2 == 1 {
      if i > 0 {
        assert (Pow2(n) - x) / 2 == Pow2(n - 1) - 1 - x / 2;
        ComplementBit(x / 2, n - 1, i - 1);
      }
    } else if i > 0 {
      assert (Pow2(n) - x) / 2 == Pow2(n - 1) - x / 2;
      NegatedBit(x / 2, n - 1, i - 1);
    }
  }

  lemma {:induction false} LowestOne(x: nat, i: nat)
    requires x > 0
    ensures BitAt(x, TrailingZeros(x)) && (i < TrailingZeros(x) ==> !BitAt(x, i))
  {
    if x % 2 == 0 {
      LowestOne(x / 2, if i == 0 then 0 else i - 1);
    }
  }

  lemma {:induction false} PowerBit(k: nat, i: nat)
    ensures BitAt(Pow2(k), i) <==> i == k
    ensures TrailingZeros(Pow2(k)) == k
    decreases k
  {
    if k == 0 {
      if i > 0 {
        ZeroBit(i - 1);
      }
    } else {
      assert Pow2(k) / 2 == Pow2(k - 1);
      PowerBit(k - 1, if i == 0 then 0 else i - 1);
    }
  }

  lemma {:induction false} OnlyBit(x: nat, k: nat)
    requires forall i: nat :: BitAt(x, i) <==> i == k
    ensures x == Pow2(k)
    decreases k
  {
    assert BitAt(x, k);
    forall i: nat ensures BitAt(x / 2, i) <==> i + 1 == k {
      assert BitAt(x, i + 1) <==> BitAt(x / 2, i);
    }
    if k == 0 {
      assert BitAt(x, 0);
      NoBits(x / 2);
    } else {
      assert !BitAt(x, 0);
      OnlyBit(x / 2, k - 1);
    }
  }

  lemma {:induction false} NoBits(x: nat)
    requires forall i: nat :: !BitAt(x, i)
    ensures x == 0
  {
    if x > 0 {
      LowestOne(x, 0);
    }
  }

  /** x & -x is the lowest one of x, and compute_bit2idx of it is that bit's index. */
  lemma LeastBitExact(x: nat)
    requires 0 < x < Pow2(BITS)
    ensures LeastBitOf(x) == Pow2(TrailingZeros(x)) && TrailingZeros(LeastBitOf(x)) == TrailingZeros(x)
  {
    LowSmall(x, BITS);
    forall i: nat ensures BitAt(LeastBitOf(x), i) <==> i == TrailingZeros(x) {
      AndBit(x, Neg(x, BITS), BITS, i);
      NegatedBit(x, BITS, i);
      LowestOne(x, i);
      BelowWidth(x, BITS);
    }
    OnlyBit(LeastBitOf(x), TrailingZeros(x));
    PowerBit(TrailingZeros(x), 0);
  }

  lemma {:induction false} BelowWidth(x: nat, n: nat)
    requires 0 < x < Pow2(n)
    ensures TrailingZeros(x) < n
  {
    if x % 2 == 0 {
      BelowWidth(x / 2, n - 1);
    }
  }

  /** left_bits of one bit are all the bits above it. */
  lemma LeftBitsExact(k: nat, i: nat)
    requires k < BITS
    ensures BitAt(LeftBits(Idx2Bit(k)), i) <==> k < i < BITS
  {
    BitsAbove(k, BITS, i);
  }

  lemma BitsAbove(k: nat, n: nat, i: nat)
    requires k < n
    ensures var y := Low(2 * Pow2(k), n); BitAt(Or(y, Neg(y, n), n), i) <==> k < i < n
  {
    var y := Low(2 * Pow2(k), n);
    assert 2 * Pow2(k) == Pow2(k + 1);
    if k + 1 < n {
      PowerBelow(k + 1, n);
      LowSmall(Pow2(k + 1), n);
      PowerOrNegated(k + 1, n, i);
    } else {
      LowPow2(n);
      LowSmall(0, n);
      OrBit(0, 0, n, i);
      ZeroBit(i);
    }
  }

  lemma PowerOrNegated(k: nat, n: nat, i: nat)
    requires k < n
    ensures BitAt(Or(Pow2(k), Neg(Pow2(k), n), n), i) <==> k <= i < n
  {
    PowerBelow(k, n);
    LowSmall(Pow2(k), n);
    OrBit(Pow2(k), Neg(Pow2(k), n), n, i);
    PowerBit(k, i);
    NegatedBit(Pow2(k), n, i);
  }

  lemma {:induction false} PowerBelow(a: nat, b: nat)
    requires a < b
    ensures Pow2(a) < Pow2(b)
    decreases b
  {
    if a < b - 1 {
      PowerBelow(a, b - 1);
    }
  }

  // ---------------------------------------------------------------- maps of bins

  /** The word marks exactly these bins. */
  ghost predicate Marks(x: nat, bins: set<nat>) {
    x < Pow2(BITS) && forall i: nat :: i in bins <==> BitAt(x, i)
  }

  lemma {:induction false} AndBelow(a: nat, b: nat, n: nat)
    ensures And(a, b, n) < Pow2(n) && Or(a, b, n) < Pow2(n)
  {
    if n > 0 {
      AndBelow(a / 2, b / 2, n - 1);
    }
  }

  lemma {:induction false} BitBelow(x: nat, n: nat, i: nat)
    requires x < Pow2(n) && BitAt(x, i)
    ensures i < n
  {
    if n == 0 {
      ZeroBit(i);
    } else if i > 0 {
      BitBelow(x / 2, n - 1, i - 1);
    }
  }

  /** Marking and clearing a bin. */
  lemma MarkedBins(x: nat, bins: set<nat>, k: nat)
    requires Marks(x, bins) && k < BITS
    ensures Marks(Or(x, Idx2Bit(k), BITS), bins + {k})
    ensures Marks(And(x, Not(Idx2Bit(k), BITS), BITS), bins - {k})
  {
    AndBelow(x, Idx2Bit(k), BITS);
    AndBelow(x, Not(Idx2Bit(k), BITS), BITS);
    forall i: nat
      ensures i in bins + {k} <==> BitAt(Or(x, Idx2Bit(k), BITS), i)
      ensures i in bins - {k} <==> BitAt(And(x, Not(Idx2Bit(k), BITS), BITS), i)
    {
      OrBit(x, Idx2Bit(k), BITS, i);
      AndBit(x, Not(Idx2Bit(k), BITS), BITS, i);
      NotBit(Idx2Bit(k), BITS, i);
      PowerBit(k, i);
      if BitAt(x, i) {
        BitBelow(x, BITS, i);
      }
    }
  }

  /** The bit tricks find the least marked bin... */
  lemma LeastMarked(x: nat, bins: set<nat>)
    requires Marks(x, bins) && bins != {}
    ensures x > 0 && LeastBitOf(x) > 0 && TrailingZeros(LeastBitOf(x)) in bins
    ensures forall j | j in bins :: TrailingZeros(LeastBitOf(x)) <= j
  {
    var some :| some in bins;
    assert BitAt(x, some);
    if x == 0 {
      ZeroBit(some);
    }
    LeastBitExact(x);
    LowestOne(x, 0);
    forall j | j in bins ensures TrailingZeros(LeastBitOf(x)) <= j {
      LowestOne(x, j);
    }
  }

  /** ... and select the marked bins above one. */
  lemma AboveMarked(x: nat, bins: set<nat>, k: nat)
    requires Marks(x, bins) && k < BITS
    ensures Marks(And(LeftBits(Idx2Bit(k)), x, BITS), Above(bins, k))
  {
    AndBelow(LeftBits(Idx2Bit(k)), x, BITS);
    forall i: nat ensures i in Above(bins, k) <==> BitAt(And(LeftBits(Idx2Bit(k)), x, BITS), i) {
      AndBit(LeftBits(Idx2Bit(k)), x, BITS, i);
      LeftBitsExact(k, i);
      if BitAt(x, i) {
        BitBelow(x, BITS, i);
      }
    }
  }

  /** The word shifted right by k. */
  function ShiftRight(x: nat, k: nat): nat {
    if k == 0 then x else ShiftRight(x / 2, k - 1)
  }

  lemma {:induction false} ShiftedBit(x: nat, k: nat, i: nat)
    ensures BitAt(ShiftRight(x, k), i) <==> BitAt(x, k + i)
    decreases k
  {
    if k > 0 {
      ShiftedBit(x / 2, k - 1, i);
    }
  }

  /** The test for a remainderless fit: the two lowest bits of the shifted map tell whether the bin of the request or
      the next one is marked, and adding the negated lowest bit to the index picks the first of them that is. */
  lemma RemainderlessBin(smallmap: nat, bins: set<nat>, k: nat)
    requires Marks(smallmap, bins)
    ensures var smallbits := ShiftRight(smallmap, k);
      && (smallbits % 4 != 0 <==> k in bins || k + 1 in bins)
      && (smallbits % 4 != 0 ==> (if smallbits % 2 == 1 then k else k + 1) in bins)
      && (k in bins <==> smallbits % 2 == 1)
  {
    ShiftedBit(smallmap, k, 0);
    ShiftedBit(smallmap, k, 1);
    TwoBits(ShiftRight(smallmap, k));
  }

  lemma TwoBits(x: nat)
    ensures BitAt(x, 0) <==> x % 2 == 1
    ensures BitAt(x, 0) || BitAt(x, 1) <==> x % 4 != 0
  {
    var q, r := x / 4, x % 4;
    assert x == 4 * q + r;
    assert x / 2 == 2 * q + (if r >= 2 then 1 else 0) && x % 2 == (if r == 1 || r == 3 then 1 else 0);
    assert BitAt(x, 1) <==> BitAt(x / 2, 0);
  }
}
