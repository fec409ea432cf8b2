/**
 Bitwise operators and shifts on the unbounded non-negative integers, as the Python of
 `ubwc_tiling.py` uses them, with the few laws the swizzle proofs need: an operator works
 separately on the bits above a position and on the bits below it.
 */
module Bits {

  datatype Op = AndOp | OrOp | XorOp

  function Apply(op: Op, p: bool, q: bool): bool {
    match op
    case AndOp => p && q
    case OrOp => p || q
    case XorOp => p != q
  }

  function Bit(p: bool): nat { if p then 1 else 0 }

  function Bitwise(op: Op, a: nat, b: nat): nat
    decreases a + b
  {
    if a == 0 && b == 0 then 0
    else Bit(Apply(op, a % 2 == 1, b % 2 == 1)) + 2 * Bitwise(op, a / 2, b / 2)
  }

  function And(a: nat, b: nat): nat { Bitwise(AndOp, a, b) }
  function Or(a: nat, b: nat): nat { Bitwise(OrOp, a, b) }
  function Xor(a: nat, b: nat): nat { Bitwise(XorOp, a, b) }

  function Shl(a: nat, k: nat): nat { if k == 0 then a else 2 * Shl(a, k - 1) }
  function Shr(a: nat, k: nat): nat { if k == 0 then a else Shr(a, k - 1) / 2 }

  function Pow2(k: nat): (p: nat)
    ensures p >= 1
  {
    ShlPositive(1, k);
    Shl(1, k)
  }

  // ---- shifts ----

  lemma {:induction false} ShlSum(a: nat, j: nat, k: nat)
    ensures Shl(Shl(a, j), k) == Shl(a, j + k)
  {
    if k == 0 {
    } else {
      ShlSum(a, j, k - 1);
    }
  }

  lemma ShlStep(a: nat, k: nat)
    requires k > 0
    ensures Shl(a, k) == 2 * Shl(a, k - 1)
  {
  }

  lemma {:induction false} ShlTable(a: nat)
    ensures Shl(a, 1) == 2 * a && Shl(a, 2) == 4 * a && Shl(a, 3) == 8 * a && Shl(a, 4) == 16 * a
    ensures Shl(a, 7) == 128 * a && Shl(a, 8) == 256 * a && Shl(a, 9) == 512 * a && Shl(a, 11) == 2048 * a
  {
    ShlStep(a, 1); ShlStep(a, 2); ShlStep(a, 3); ShlStep(a, 4); ShlStep(a, 5); ShlStep(a, 6);
    ShlStep(a, 7); ShlStep(a, 8); ShlStep(a, 9); ShlStep(a, 10); ShlStep(a, 11);
  }

  lemma Pow2Table()
    ensures Pow2(0) == 1 && Pow2(1) == 2 && Pow2(2) == 4 && Pow2(3) == 8 && Pow2(4) == 16
    ensures Pow2(5) == 32 && Pow2(6) == 64 && Pow2(7) == 128 && Pow2(8) == 256
  {
    assert forall k: nat :: Pow2(k + 1) == 2 * Pow2(k);
    assert Pow2(2) == 2 * Pow2(1) && Pow2(3) == 2 * Pow2(2) && Pow2(4) == 2 * Pow2(3) && Pow2(5) == 2 * Pow2(4);
    assert Pow2(6) == 2 * Pow2(5) && Pow2(7) == 2 * Pow2(6) && Pow2(8) == 2 * Pow2(7);
  }

  lemma {:induction false} ShlPositive(a: nat, k: nat)
    ensures a <= Shl(a, k)
  {
    if k == 0 {
    } else {
      ShlPositive(a, k - 1);
    }
  }

  // ---- an operator splits at every bit position ----

  /** The recursion equation, which holds at zero too. */
  lemma {:induction false} Unfold(op: Op, a: nat, b: nat)
    ensures Bitwise(op, a, b) == Bit(Apply(op, a % 2 == 1, b % 2 == 1)) + 2 * Bitwise(op, a / 2, b / 2)
  {
  }

  lemma {:induction false} Bounded(op: Op, a: nat, b: nat, k: nat)
    requires a < Pow2(k) && b < Pow2(k)
    ensures Bitwise(op, a, b) < Pow2(k)
  {
    if k == 0 {
    } else {
      Unfold(op, a, b);
      Bounded(op, a / 2, b / 2, k - 1);
    }
  }

  lemma {:induction false} Joined(op: Op, k: nat, ah: nat, al: nat, bh: nat, bl: nat)
    requires al < Pow2(k) && bl < Pow2(k)
    ensures Bitwise(op, Shl(ah, k) + al, Shl(bh, k) + bl) == Shl(Bitwise(op, ah, bh), k) + Bitwise(op, al, bl)
  {
    if k == 0 {
    } else {
      Joined(op, k - 1, ah, al / 2, bh, bl / 2);
      Unfold(op, Shl(ah, k) + al, Shl(bh, k) + bl);
      Unfold(op, al, bl);
    }
  }

  lemma {:induction false} Zero(a: nat)
    ensures Or(a, 0) == a == Or(0, a)
    ensures Xor(a, 0) == a == Xor(0, a)
    ensures And(a, 0) == 0 == And(0, a)
  {
    if a == 0 {
    } else {
      Zero(a / 2);
    }
  }

  /** Numbers whose bits do not overlap: `|` and `^` are both addition. */
  lemma {:induction false} Disjoint(op: Op, k: nat, h: nat, l: nat)
    requires op != AndOp && l < Pow2(k)
    ensures Bitwise(op, l, Shl(h, k)) == l + Shl(h, k) == Bitwise(op, Shl(h, k), l)
  {
    if k == 0 {
      Zero(h);
    } else {
      Unfold(op, l, Shl(h, k));
      Unfold(op, Shl(h, k), l);
      Disjoint(op, k - 1, h, l / 2);
    }
  }

  lemma {:induction false} ShlZero(k: nat)
    ensures Shl(0, k) == 0
  {
    if k == 0 {
    } else {
      ShlZero(k - 1);
    }
  }

  /** XOR with a number below 2^k stays below every multiple of 2^k that bounds the other operand. */
  lemma {:induction false} XorStaysBelow(a: nat, b: nat, k: nat, n: nat)
    requires a < Shl(n, k) && b < Pow2(k)
    ensures Xor(a, b) < Shl(n, k)
  {
    if k == 0 {
      Zero(a);
    } else {
      Unfold(XorOp, a, b);
      XorStaysBelow(a / 2, b / 2, k - 1, n);
    }
  }

  /** `a & (2^k - 1) == 0` is the test that 2^k divides `a`. */
  lemma {:induction false} Aligned(a: nat, k: nat)
    ensures And(a, Pow2(k) - 1) == 0 <==> a == Shl(Shr(a, k), k)
  {
    if k == 0 {
      Zero(a);
    } else {
      ShlPositive(1, k - 1);
      Unfold(AndOp, a, Pow2(k) - 1);
      Aligned(a / 2, k - 1);
      ShrHalf(a, k - 1);
    }
  }

  lemma {:induction false} ShrHalf(a: nat, k: nat)
    ensures Shr(a / 2, k) == Shr(a, k + 1)
  {
    if k == 0 {
    } else {
      ShrHalf(a, k - 1);
    }
  }

  lemma {:induction false} XorCancels(a: nat, b: nat)
    ensures Xor(Xor(a, b), b) == a
    decreases a + b
  {
    if a + b == 0 {
    } else {
      Unfold(XorOp, a, b);
      Unfold(XorOp, Xor(a, b), b);
      XorCancels(a / 2, b / 2);
    }
  }

  lemma {:induction false} XorAssociative(a: nat, b: nat, c: nat)
    ensures Xor(Xor(a, b), c) == Xor(a, Xor(b, c))
    decreases a + b + c
  {
    if a + b + c == 0 {
    } else {
      Unfold(XorOp, a, b);
      Unfold(XorOp, b, c);
      Unfold(XorOp, Xor(a, b), c);
      Unfold(XorOp, a, Xor(b, c));
      XorAssociative(a / 2, b / 2, c / 2);
    }
  }

  lemma {:induction false} XorCommutes(a: nat, b: nat)
    ensures Xor(a, b) == Xor(b, a)
    decreases a + b
  {
    if a + b == 0 {
    } else {
      XorCommutes(a / 2, b / 2);
    }
  }

  // ---- three-bit numbers as triples of bits ----

  function Num(b0: bool, b1: bool, b2: bool): nat { Bit(b0) + 2 * Bit(b1) + 4 * Bit(b2) }

  lemma {:induction false} BitOp(op: Op, p: bool, q: bool)
    ensures Bitwise(op, Bit(p), Bit(q)) == Bit(Apply(op, p, q))
  {
    Unfold(op, Bit(p), Bit(q));
    assert Bit(p) / 2 == 0 && Bit(q) / 2 == 0;
    assert Bitwise(op, 0, 0) == 0;
  }

  lemma PrependBit(op: Op, p: bool, a: nat, q: bool, b: nat)
    ensures Bitwise(op, Bit(p) + 2 * a, Bit(q) + 2 * b) == Bit(Apply(op, p, q)) + 2 * Bitwise(op, a, b)
  {
    Unfold(op, Bit(p) + 2 * a, Bit(q) + 2 * b);
  }

  lemma {:induction false} NumOp(op: Op, a0: bool, a1: bool, a2: bool, b0: bool, b1: bool, b2: bool)
    ensures Bitwise(op, Num(a0, a1, a2), Num(b0, b1, b2)) == Num(Apply(op, a0, b0), Apply(op, a1, b1), Apply(op, a2, b2))
  {
    hide Bitwise, Apply;
    BitOp(op, a2, b2);
    PrependBit(op, a1, Bit(a2), b1, Bit(b2));
    PrependBit(op, a0, Bit(a1) + 2 * Bit(a2), b0, Bit(b1) + 2 * Bit(b2));
  }
}
