/** Unsigned words as natural numbers: exclusive or, shifts and masks, and the
    facts that relate them. */
module Bits {

  type Byte = b: nat | b < 0x100
  type Word = w: nat | w < 0x1_0000_0000

  function ShiftLeft(x: nat, k: nat): nat {
    if k == 0 then x else 2 * ShiftLeft(x, k - 1)
  }

  function ShiftRight(x: nat, k: nat): nat {
    if k == 0 then x else ShiftRight(x / 2, k - 1)
  }

  /** The low k bits. */
  function Low(x: nat, k: nat): nat {
    if k == 0 then 0 else x % 2 + 2 * Low(x / 2, k - 1)
  }

  function Pow2(k: nat): nat {
    ShiftLeft(1, k)
  }

  /** Bitwise exclusive or, least significant bit first. */
  function Xor(a: nat, b: nat): nat
    decreases a + b
  {
    if a == 0 then b
    else if b == 0 then a
    else (if a % 2 == b % 2 then 0 else 1) + 2 * Xor(a / 2, b / 2)
  }

  lemma {:induction false} XorBits(a: nat, b: nat)
    ensures Xor(a, b) % 2 == (if a % 2 == b % 2 then 0 else 1)
    ensures Xor(a, b) / 2 == Xor(a / 2, b / 2)
  {
    if a > 0 && b > 0 {
      var bit, rest := if a % 2 == b % 2 then 0 else 1, Xor(a / 2, b / 2);
      assert Xor(a, b) == bit + 2 * rest;
    }
  }

  lemma SameBits(x: nat, y: nat)
    requires x % 2 == y % 2 && x / 2 == y / 2
    ensures x == y
  {
  }

  lemma {:induction false} XorSelf(a: nat)
    ensures Xor(a, a) == 0
  {
    if a > 0 {
      XorSelf(a / 2);
    }
  }

  lemma {:induction false} XorCommutes(a: nat, b: nat)
    ensures Xor(a, b) == Xor(b, a)
  {
    if a > 0 && b > 0 {
      XorCommutes(a / 2, b / 2);
    }
  }

  lemma {:induction false} XorAssociates(a: nat, b: nat, c: nat)
    ensures Xor(Xor(a, b), c) == Xor(a, Xor(b, c))
    decreases a + b + c
  {
    if a > 0 && b > 0 && c > 0 {
      XorAssociates(a / 2, b / 2, c / 2);
      XorBits(a, b);
      XorBits(b, c);
      XorBits(Xor(a, b), c);
      XorBits(a, Xor(b, c));
      SameBits(Xor(Xor(a, b), c), Xor(a, Xor(b, c)));
    }
  }

  /** Exchange of the middle operands of a fourfold exclusive or. */
  lemma XorSwap(a: nat, b: nat, c: nat, d: nat)
    ensures Xor(Xor(a, b), Xor(c, d)) == Xor(Xor(a, c), Xor(b, d))
  {
    calc {
      Xor(Xor(a, b), Xor(c, d));
      { XorAssociates(a, b, Xor(c, d)); XorAssociates(b, c, d); }
      Xor(a, Xor(Xor(b, c), d));
      { XorCommutes(b, c); XorAssociates(c, b, d); }
      Xor(a, Xor(c, Xor(b, d)));
      { XorAssociates(a, c, Xor(b, d)); }
      Xor(Xor(a, c), Xor(b, d));
    }
  }

  /** Xor with the same word twice cancels. */
  lemma XorCancels(a: nat, b: nat)
    ensures Xor(Xor(a, b), b) == a
  {
    XorAssociates(a, b, b);
    XorSelf(b);
    XorCommutes(a, 0);
  }

  lemma {:induction false} XorBound(a: nat, b: nat, k: nat)
    requires a < Pow2(k) && b < Pow2(k)
    ensures Xor(a, b) < Pow2(k)
  {
    if k > 0 && a > 0 && b > 0 {
      XorBound(a / 2, b / 2, k - 1);
    }
  }

  lemma WordXor(a: Word, b: Word)
    ensures Xor(a, b) < 0x1_0000_0000
  {
    Widths();
    XorBound(a, b, 32);
  }

  lemma {:induction false} ShiftsAdd(x: nat, i: nat, j: nat)
    ensures ShiftLeft(ShiftLeft(x, i), j) == ShiftLeft(x, i + j)
    ensures ShiftRight(ShiftRight(x, i), j) == ShiftRight(x, i + j)
  {
    if j > 0 {
      ShiftsAdd(x, i, j - 1);
    }
    if i > 0 {
      ShiftsAdd(x / 2, i - 1, j);
    }
  }

  lemma TwoBits(x: nat, k: nat)
    ensures ShiftLeft(x, k + 2) == 4 * ShiftLeft(x, k)
    ensures ShiftRight(x, k + 2) == ShiftRight(x / 4, k)
    ensures Low(x, k + 2) == x % 4 + 4 * Low(x / 4, k)
  {
    assert x / 2 / 2 == x / 4;
  }

  lemma FourBits(x: nat, k: nat)
    ensures ShiftLeft(x, k + 4) == 16 * ShiftLeft(x, k)
    ensures ShiftRight(x, k + 4) == ShiftRight(x / 16, k)
    ensures Low(x, k + 4) == x % 16 + 16 * Low(x / 16, k)
  {
    TwoBits(x, k + 2);
    TwoBits(x, k);
    TwoBits(x / 4, k);
    assert x / 4 / 4 == x / 16;
  }

  /** The byte-sized shifts and masks of the source, as arithmetic. */
  lemma {:induction false} ByteShift(x: nat)
    ensures ShiftLeft(x, 8) == 0x100 * x
    ensures ShiftRight(x, 8) == x / 0x100
    ensures Low(x, 8) == x % 0x100
  {
    FourBits(x, 4);
    FourBits(x, 0);
    FourBits(x / 16, 0);
    assert x / 16 / 16 == x / 0x100;
  }

  lemma Widths()
    ensures Pow2(8) == 0x100
    ensures Pow2(16) == 0x1_0000
    ensures Pow2(24) == 0x100_0000
    ensures Pow2(32) == 0x1_0000_0000
  {
    ByteShift(1);
    ShiftsAdd(1, 8, 8);
    ByteShift(Pow2(8));
    ShiftsAdd(1, 16, 8);
    ByteShift(Pow2(16));
    ShiftsAdd(1, 24, 8);
    ByteShift(Pow2(24));
  }

  /** Words that occupy disjoint bit ranges add without carries. */
  lemma {:induction false} XorDisjoint(low: nat, high: nat, k: nat)
    requires low < Pow2(k)
    ensures Xor(low, ShiftLeft(high, k)) == low + ShiftLeft(high, k)
  {
    if k > 0 {
      XorDisjoint(low / 2, high, k - 1);
      XorBits(low, ShiftLeft(high, k));
    }
  }

  lemma {:induction false} SplitSum(x: nat, k: nat)
    ensures Low(x, k) < Pow2(k)
    ensures Low(x, k) + ShiftLeft(ShiftRight(x, k), k) == x
  {
    if k > 0 {
      SplitSum(x / 2, k - 1);
    }
  }

  /** A word is the exclusive or of its low k bits and the rest. */
  lemma SplitBits(x: nat, k: nat)
    ensures Xor(Low(x, k), ShiftLeft(ShiftRight(x, k), k)) == x
  {
    SplitSum(x, k);
    XorDisjoint(Low(x, k), ShiftRight(x, k), k);
  }

  /** Xor with a word narrower than k bits leaves the bits from k up alone. */
  lemma {:induction false} XorHigh(x: nat, low: nat, k: nat)
    requires low < Pow2(k)
    ensures ShiftRight(Xor(x, low), k) == ShiftRight(x, k)
  {
    if k > 0 {
      XorHigh(x / 2, low / 2, k - 1);
      XorBits(x, low);
    } else {
      XorCommutes(x, 0);
    }
  }
}
