/** Shifts and masks of 64-bit words, seen one bit at a time, and of the two-word
  * bitmap of 128 bits. Only the section on whole words looks at bit-vectors; the
  * rest hides them and argues about single bits. */
module BitOps {

  type Word = bv64

  function Or(w: Word, v: Word): Word { w | v }
  function Double(w: Word): Word { w << 1 }
  function Half(w: Word): Word { w >> 1 }
  predicate Test(w: Word, mask: Word) { w & mask != 0 }
  predicate TopSet(w: Word) { w & 0x8000_0000_0000_0000 != 0 }
  predicate OneHot(w: Word) { w != 0 && w & (w - 1) == 0 }

  // "Shifts behave as if the left operand is shifted n times by 1 for a shift
  // count of n" (The Go Programming Language Specification, Arithmetic operators).

  function ShiftLeft(w: Word, n: nat): Word {
    if n == 0 then w else Double(ShiftLeft(w, n - 1))
  }

  function ShiftRight(w: Word, n: nat): Word {
    if n == 0 then w else Half(ShiftRight(w, n - 1))
  }

  /** The word with only bit n set. */
  function Mask(n: nat): Word {
    ShiftLeft(1, n)
  }

  predicate Bit(w: Word, i: nat)
    requires i < 64
  {
    Test(w, Mask(i))
  }

  /** Bit d of a pair of words; word 0 holds bits 0..63. */
  predicate PairBit(w0: Word, w1: Word, d: nat)
    requires d < 128
  {
    if d < 64 then Bit(w0, d) else Bit(w1, d - 64)
  }

  // Whole words.

  lemma DisjointOr(w: Word, v: Word, m: Word)
    requires !Test(w, m) && !Test(v, m)
    ensures !Test(Or(w, v), m)
  {
  }

  lemma OrDisjoint(w: Word, v: Word, m: Word)
    requires !Test(Or(w, v), m)
    ensures !Test(w, m) && !Test(v, m)
  {
  }

  lemma TestOr(w: Word, v: Word, m: Word)
    ensures Test(Or(w, v), m) <==> Test(w, m) || Test(v, m)
  {
    hide Or, Test;
    if Test(Or(w, v), m) {
      if !Test(w, m) && !Test(v, m) {
        DisjointOr(w, v, m);
      }
    } else {
      OrDisjoint(w, v, m);
    }
  }

  lemma TestZero(m: Word)
    ensures !Test(0, m)
  {
  }

  lemma TestDouble(w: Word, m: Word)
    requires !TopSet(m)
    ensures Test(Double(w), Double(m)) <==> Test(w, m)
  {
  }

  lemma TestLowOfDouble(w: Word)
    ensures !Test(Double(w), 1)
    ensures !Test(1, Double(w))
  {
  }

  lemma TestHalf(w: Word, m: Word)
    ensures Test(Half(w), m) <==> Test(w, Double(m))
  {
  }

  lemma TestTopOfHalf(w: Word)
    ensures !Test(Half(w), 0x8000_0000_0000_0000)
  {
  }

  lemma OneHotDouble(m: Word)
    requires OneHot(m) && Double(m) != 0
    ensures OneHot(Double(m)) && !TopSet(m)
  {
  }

  lemma OneOneHot()
    ensures OneHot(1) && Test(1, 1)
  {
  }

  lemma DoubleZero()
    ensures Double(0) == 0
  {
  }

  lemma EightDoubles(m: Word)
    ensures Double(Double(Double(Double(Double(Double(Double(Double(m)))))))) == m << 8
  {
  }

  // Single bits.

  lemma MaskStep(n: nat)
    ensures Mask(0) == 1
    ensures Mask(n + 1) == Double(Mask(n))
  {
  }

  lemma EightPlaces(n: nat)
    ensures Mask(n + 8) == Mask(n) << 8
  {
    EightDoubles(Mask(n));
    hide Double, ShiftLeft;
    MaskStep(n);
    MaskStep(n + 1);
    MaskStep(n + 2);
    MaskStep(n + 3);
    MaskStep(n + 4);
    MaskStep(n + 5);
    MaskStep(n + 6);
    MaskStep(n + 7);
  }

  lemma TopMask()
    ensures Mask(63) == 0x8000_0000_0000_0000
  {
    MaskStep(0);
    MaskStep(1);
    MaskStep(2);
    MaskStep(3);
    MaskStep(4);
    MaskStep(5);
    MaskStep(6);
    EightPlaces(7);
    EightPlaces(15);
    EightPlaces(23);
    EightPlaces(31);
    EightPlaces(39);
    EightPlaces(47);
    EightPlaces(55);
  }

  lemma {:induction false} ZeroMaskStaysZero(i: nat, k: nat)
    requires Mask(i) == 0
    ensures Mask(i + k) == 0
    decreases k
  {
    if k > 0 {
      ZeroMaskStaysZero(i, k - 1);
      DoubleZero();
    }
  }

  lemma {:induction false} MaskOneHot(i: nat)
    requires i < 64
    ensures OneHot(Mask(i))
    ensures i < 63 ==> !TopSet(Mask(i))
  {
    hide Double, OneHot, TopSet;
    if Mask(i) == 0 {
      ZeroMaskStaysZero(i, 63 - i);
      TopMask();
      assert false;
    }
    if i == 0 {
      OneOneHot();
    } else {
      MaskOneHot(i - 1);
      OneHotDouble(Mask(i - 1));
    }
    if i < 63 {
      if Mask(i + 1) == 0 {
        ZeroMaskStaysZero(i + 1, 62 - i);
        TopMask();
        assert false;
      }
      OneHotDouble(Mask(i));
    }
  }

  lemma BitOfZero(i: nat)
    requires i < 64
    ensures !Bit(0, i)
  {
    TestZero(Mask(i));
  }

  lemma BitOfOr(w: Word, v: Word, i: nat)
    requires i < 64
    ensures Bit(Or(w, v), i) <==> Bit(w, i) || Bit(v, i)
  {
    hide Or, Test, Mask;
    TestOr(w, v, Mask(i));
  }

  lemma BitOfDouble(w: Word, i: nat)
    requires i < 64
    ensures Bit(Double(w), i) <==> i > 0 && Bit(w, i - 1)
  {
    hide Double, Test, TopSet, OneHot;
    if i == 0 {
      TestLowOfDouble(w);
    } else {
      MaskOneHot(i - 1);
      TestDouble(w, Mask(i - 1));
    }
  }

  lemma BitOfHalf(w: Word, i: nat)
    requires i < 64
    ensures Bit(Half(w), i) <==> i < 63 && Bit(w, i + 1)
  {
    hide Half, Double, Test;
    if i == 63 {
      TopMask();
      TestTopOfHalf(w);
    } else {
      MaskStep(i);
      TestHalf(w, Mask(i));
    }
  }

  lemma {:induction false} BitOfLeft(w: Word, n: nat, i: nat)
    requires i < 64
    ensures Bit(ShiftLeft(w, n), i) <==> n <= i && Bit(w, i - n)
    decreases n
  {
    hide Bit, Double;
    if n > 0 {
      BitOfDouble(ShiftLeft(w, n - 1), i);
      if i > 0 {
        BitOfLeft(w, n - 1, i - 1);
      }
    }
  }

  lemma {:induction false} BitOfRight(w: Word, n: nat, i: nat)
    requires i < 64
    ensures Bit(ShiftRight(w, n), i) <==> n + i < 64 && Bit(w, n + i)
    decreases n
  {
    hide Bit, Half;
    if n > 0 {
      BitOfHalf(ShiftRight(w, n - 1), i);
      if i < 63 {
        BitOfRight(w, n - 1, i + 1);
      }
    }
  }

  lemma {:induction false} BitOfMask(n: nat, i: nat)
    requires n < 64 && i < 64
    ensures Bit(Mask(n), i) <==> i == n
  {
    hide Double, Test;
    BitOfLeft(1, n, i);
    if n == i {
      OneOneHot();
      MaskStep(0);
    } else if n < i {
      MaskStep(i - n - 1);
      TestLowOfDouble(Mask(i - n - 1));
    }
  }

  /** A shift by 1..63 carries bits from word 0 into word 1. */
  lemma ShiftWithCarry(w0: Word, w1: Word, n: nat, d: nat)
    requires 0 < n < 64 && d < 128
    ensures PairBit(ShiftLeft(w0, n), Or(ShiftLeft(w1, n), ShiftRight(w0, 64 - n)), d)
       <==> n <= d && PairBit(w0, w1, d - n)
  {
    hide Bit, Or, ShiftLeft, ShiftRight;
    if d < 64 {
      BitOfLeft(w0, n, d);
    } else {
      BitOfOr(ShiftLeft(w1, n), ShiftRight(w0, 64 - n), d - 64);
      BitOfLeft(w1, n, d - 64);
      BitOfRight(w0, 64 - n, d - 64);
    }
  }

  /** A shift by 64..127 moves word 0 into word 1. */
  lemma ShiftByWord(w0: Word, w1: Word, n: nat, d: nat)
    requires 64 <= n < 128 && d < 128
    ensures PairBit(0, ShiftLeft(w0, n - 64), d) <==> n <= d && PairBit(w0, w1, d - n)
  {
    hide Bit, ShiftLeft;
    if d < 64 {
      BitOfZero(d);
    } else {
      BitOfLeft(w0, n - 64, d - 64);
    }
  }

  /** Or-ing in a mask sets exactly that bit. */
  lemma SetBit(w: Word, n: nat, i: nat)
    requires n < 64 && i < 64
    ensures Bit(Or(w, Mask(n)), i) <==> Bit(w, i) || i == n
  {
    hide Bit, Or, Mask;
    BitOfOr(w, Mask(n), i);
    BitOfMask(n, i);
  }
}
