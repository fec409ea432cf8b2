/**
 The two block masks are linear over GF(2): each is determined by its values at the powers of two, which are
 listed here.  Together with the bit interleave of UbwcBlock.dfy this fixes every address bit.
 */
module UbwcLinear {
  import opened Bits
  import opened UbwcTiling
  import opened UbwcRow

  lemma XorHalf(a: nat, b: nat)
    ensures Xor(a, b) / 2 == Xor(a / 2, b / 2)
    ensures Odd(Xor(a, b)) == (Odd(a) != Odd(b))
  {
    Unfold(XorOp, a, b);
  }

  lemma {:induction false} AndDistributes(a: nat, b: nat, m: nat)
    ensures And(Xor(a, b), m) == Xor(And(a, m), And(b, m))
    decreases a + b + m
  {
    if a + b + m == 0 {
    } else {
      Unfold(XorOp, a, b);
      Unfold(AndOp, Xor(a, b), m);
      Unfold(AndOp, a, m);
      Unfold(AndOp, b, m);
      Unfold(XorOp, And(a, m), And(b, m));
      AndDistributes(a / 2, b / 2, m / 2);
    }
  }

  lemma {:induction false} ShlDistributes(a: nat, b: nat, k: nat)
    ensures Shl(Xor(a, b), k) == Xor(Shl(a, k), Shl(b, k))
  {
    Joined(XorOp, k, a, 0, b, 0);
  }

  /** XOR of two pairs, regrouped. */
  lemma Regroup(a: nat, b: nat, c: nat, d: nat)
    ensures Xor(Xor(a, b), Xor(c, d)) == Xor(Xor(a, c), Xor(b, d))
  {
    hide Xor;
    XorAssociative(a, b, Xor(c, d));
    XorAssociative(b, c, d);
    XorCommutes(b, c);
    XorAssociative(c, b, d);
    XorAssociative(a, c, Xor(b, d));
  }

  lemma XLowLinear(t: Tiling, a: nat, b: nat)
    ensures XLow(t, Xor(a, b)) == Xor(XLow(t, a), XLow(t, b))
  {
    hide Bitwise;
    XorHalf(a, b);
    XorHalf(a / 2, b / 2);
    XorHalf(a / 2 / 2, b / 2 / 2);
    var a0, a1, a2 := Odd(a), Hi1(t, a / 2), Hi2(t, a / 2);
    var b0, b1, b2 := Odd(b), Hi1(t, b / 2), Hi2(t, b / 2);
    NumOp(XorOp, a0, a0 != a1, a0 != a2, b0, b0 != b1, b0 != b2);
  }

  lemma XMaskLinear(t: Tiling, a: nat, b: nat)
    ensures BlockXXorMask(Xor(a, b), t.cpp, t.mode)
         == Xor(BlockXXorMask(a, t.cpp, t.mode), BlockXXorMask(b, t.cpp, t.mode))
  {
    hide BlockXXorMask, Bitwise, XLow, Shl;
    XMaskSplit(t, a);
    XMaskSplit(t, b);
    XMaskSplit(t, Xor(a, b));
    XorHalf(a, b);
    XLowLinear(t, a, b);
    LowBelow(t, a);
    LowBelow(t, b);
    Joined(XorOp, 3, a / 2, XLow(t, a), b / 2, XLow(t, b));
    ShlDistributes(Shl(a / 2, 3) + XLow(t, a), Shl(b / 2, 3) + XLow(t, b), 8);
  }

  lemma LowBelow(t: Tiling, xb: nat)
    ensures XLow(t, xb) < Pow2(3)
  {
    Pow2Table();
  }

  /** The column mask at the powers of two. */
  lemma XMaskBasis(t: Tiling, k: nat)
    ensures BlockXXorMask(1, t.cpp, t.mode) == 0x700
    ensures BlockXXorMask(2, t.cpp, t.mode) == 0x800 + (if t.cpp < 16 then 0x200 else 0)
    ensures BlockXXorMask(4, t.cpp, t.mode) == 0x1000 + (if t.cpp < 16 && t.mode.EightChannel? then 0x400 else 0)
    ensures k >= 3 ==> BlockXXorMask(Pow2(k), t.cpp, t.mode) == Pow2(k + 10)
  {
    hide BlockXXorMask, Shl;
    XMaskSplit(t, 1);
    XMaskSplit(t, 2);
    XMaskSplit(t, 4);
    ShlTable(0);
    ShlTable(1);
    ShlTable(2);
    ShlTable(Shl(0, 3) + XLow(t, 1));
    ShlTable(Shl(1, 3) + XLow(t, 2));
    ShlTable(Shl(2, 3) + XLow(t, 4));
    if k >= 3 { XMaskHighBasis(t, k); }
  }

  lemma XMaskHighBasis(t: Tiling, k: nat)
    requires k >= 3
    ensures BlockXXorMask(Pow2(k), t.cpp, t.mode) == Pow2(k + 10)
  {
    hide BlockXXorMask, Shl;
    var p := Pow2(k - 3);
    ShlStep(1, k);
    ShlStep(1, k - 1);
    ShlStep(1, k - 2);
    assert Pow2(k) == 8 * p && Pow2(k) / 2 == 4 * p && Pow2(k - 1) == 4 * p;
    XMaskSplit(t, Pow2(k));
    EvenBits(t, p);
    ShlSum(1, k - 1, 3);
    ShlSum(1, k + 2, 8);
  }

  lemma EvenBits(t: Tiling, p: nat)
    ensures XLow(t, 8 * p) == 0
  {
    assert 8 * p / 2 == 4 * p && 4 * p / 2 == 2 * p;
    assert !Odd(8 * p) && !Odd(4 * p) && !Odd(2 * p);
  }

  // ---- the row mask, where the bank bits stay clear of the place bits ----

  lemma YMaskIsXor(t: Tiling, yb: nat)
    requires t.highestBankBit >= 12
    ensures BlockYXorMask(yb, t.cpp, GetBankMask(t), GetBankShift(t.highestBankBit), t.mode)
         == Xor(Shl(YLow(t, yb), 8), RowBank(t, yb / 4))
  {
    hide BlockYXorMask, GetBankMask, Bitwise, Shl, YLow;
    YMaskSplit(t, yb);
    var a := And(yb / 4, BankMaskBits(t));
    ShlSum(a, t.highestBankBit - 12, 11);
    YLowBelow(t, yb);
    ShlTable(YLow(t, yb));
    ShlTable(1);
    Disjoint(OrOp, 11, Shl(a, t.highestBankBit - 12), Shl(YLow(t, yb), 8));
    Disjoint(XorOp, 11, Shl(a, t.highestBankBit - 12), Shl(YLow(t, yb), 8));
  }

  lemma YLowBelow(t: Tiling, yb: nat)
    ensures YLow(t, yb) < 8
  {
  }

  lemma YLowLinear(t: Tiling, a: nat, b: nat)
    ensures YLow(t, Xor(a, b)) == Xor(YLow(t, a), YLow(t, b))
  {
    hide Bitwise;
    XorHalf(a, b);
    XorHalf(a / 2, b / 2);
    XorHalf(a / 2 / 2, b / 2 / 2);
    var c := Xor(a, b);
    assert a / 4 == a / 2 / 2 && b / 4 == b / 2 / 2 && c / 4 == c / 2 / 2;
    var a0, a1, a2 := Odd(a), Odd(a / 2), Extra(t, a / 4);
    var b0, b1, b2 := Odd(b), Odd(b / 2), Extra(t, b / 4);
    NumOp(XorOp, a1, a0 != a1, a0 != a2, b1, b0 != b1, b0 != b2);
  }

  /** The `|` in the row mask is an XOR, and the row mask is linear, once `highest_bank_bit >= 12`. */
  lemma YMaskLinear(t: Tiling, a: nat, b: nat)
    requires t.highestBankBit >= 12
    ensures var m, s := GetBankMask(t), GetBankShift(t.highestBankBit);
      && BlockYXorMask(Xor(a, b), t.cpp, m, s, t.mode)
         == Xor(BlockYXorMask(a, t.cpp, m, s, t.mode), BlockYXorMask(b, t.cpp, m, s, t.mode))
  {
    hide BlockYXorMask, GetBankMask, Bitwise, YLow, Shl;
    YMaskIsXor(t, a);
    YMaskIsXor(t, b);
    YMaskIsXor(t, Xor(a, b));
    YLowLinear(t, a, b);
    ShlDistributes(YLow(t, a), YLow(t, b), 8);
    XorHalf(a, b);
    XorHalf(a / 2, b / 2);
    assert Xor(a, b) / 4 == Xor(a / 4, b / 4) by { assert Xor(a, b) / 4 == Xor(a, b) / 2 / 2 && a / 4 == a / 2 / 2 && b / 4 == b / 2 / 2; }
    var m := BankMaskBits(t);
    AndDistributes(a / 4, b / 4, m);
    ShlDistributes(And(a / 4, m), And(b / 4, m), t.highestBankBit - 1);
    Regroup(Shl(YLow(t, a), 8), RowBank(t, a / 4), Shl(YLow(t, b), 8), RowBank(t, b / 4));
  }

  /** The row mask at the powers of two: bank line `j` carries row bit `2 + j` to address bit `highest_bank_bit - 1 + j`. */
  lemma YMaskBasis(t: Tiling, k: nat)
    requires t.highestBankBit >= 12
    ensures var m, s, hbb := GetBankMask(t), GetBankShift(t.highestBankBit), t.highestBankBit;
      && BlockYXorMask(1, t.cpp, m, s, t.mode) == 0x600
      && BlockYXorMask(2, t.cpp, m, s, t.mode) == 0x300
      && BlockYXorMask(4, t.cpp, m, s, t.mode)
         == (if t.cpp < 16 && t.mode.EightChannel? then 0x400 else 0) + (if BankLine(t, 0) then Pow2(hbb - 1) else 0)
      && BlockYXorMask(8, t.cpp, m, s, t.mode) == (if BankLine(t, 1) then Pow2(hbb) else 0)
      && BlockYXorMask(16, t.cpp, m, s, t.mode) == (if BankLine(t, 2) then Pow2(hbb + 1) else 0)
      && (k >= 5 ==> BlockYXorMask(Pow2(k), t.cpp, m, s, t.mode) == 0)
  {
    hide BlockYXorMask, GetBankMask, Bitwise, Shl, BankLine, RowBank;
    BankColumns(t);
    YMaskValue(t, 1); YMaskValue(t, 2); YMaskValue(t, 4); YMaskValue(t, 8); YMaskValue(t, 16);
    if k >= 5 { YMaskHighBasis(t, k); }
  }

  lemma YMaskValue(t: Tiling, yb: nat)
    requires t.highestBankBit >= 12
    ensures BlockYXorMask(yb, t.cpp, GetBankMask(t), GetBankShift(t.highestBankBit), t.mode)
         == 256 * YLow(t, yb) + RowBank(t, yb / 4)
  {
    hide BlockYXorMask, GetBankMask, Bitwise, Shl, YLow;
    YMaskIsXor(t, yb);
    var a := And(yb / 4, BankMaskBits(t));
    ShlSum(a, t.highestBankBit - 12, 11);
    YLowBelow(t, yb);
    ShlTable(YLow(t, yb));
    ShlTable(1);
    Disjoint(XorOp, 11, Shl(a, t.highestBankBit - 12), Shl(YLow(t, yb), 8));
  }

  lemma BankColumns(t: Tiling)
    requires t.highestBankBit >= 12
    ensures RowBank(t, 0) == 0
    ensures RowBank(t, 1) == if BankLine(t, 0) then Pow2(t.highestBankBit - 1) else 0
    ensures RowBank(t, 2) == if BankLine(t, 1) then Pow2(t.highestBankBit) else 0
    ensures RowBank(t, 4) == if BankLine(t, 2) then Pow2(t.highestBankBit + 1) else 0
  {
    hide Bitwise, Shl, BankLine;
    var b0, b1, b2 := BankLine(t, 0), BankLine(t, 1), BankLine(t, 2);
    var s := t.highestBankBit - 1;
    NumOp(AndOp, false, false, false, b0, b1, b2);
    NumOp(AndOp, true, false, false, b0, b1, b2);
    NumOp(AndOp, false, true, false, b0, b1, b2);
    NumOp(AndOp, false, false, true, b0, b1, b2);
    ShlZero(s);
    ShlSum(1, 1, s);
    ShlSum(1, 2, s);
    ShlTable(1);
  }

  lemma YMaskHighBasis(t: Tiling, k: nat)
    requires t.highestBankBit >= 12 && k >= 5
    ensures BlockYXorMask(Pow2(k), t.cpp, GetBankMask(t), GetBankShift(t.highestBankBit), t.mode) == 0
  {
    hide BlockYXorMask, GetBankMask, Bitwise, Shl, BankLine;
    var p := Pow2(k - 5);
    ShlStep(1, k); ShlStep(1, k - 1); ShlStep(1, k - 2); ShlStep(1, k - 3); ShlStep(1, k - 4);
    assert Pow2(k) == 32 * p && Pow2(k) / 4 == 8 * p;
    YMaskValue(t, Pow2(k));
    NoLowBits(t, p);
    var m := BankMaskBits(t);
    AndHigh(p, m);
    ShlZero(t.highestBankBit - 1);
  }

  lemma NoLowBits(t: Tiling, p: nat)
    ensures YLow(t, 32 * p) == 0
  {
    assert 32 * p / 2 == 16 * p && 32 * p / 4 == 8 * p;
    assert !Odd(32 * p) && !Odd(16 * p) && !Odd(8 * p);
  }

  lemma AndHigh(p: nat, m: nat)
    requires m < 8
    ensures And(8 * p, m) == 0
  {
    hide Bitwise, Shl;
    Pow2Table();
    ShlTable(p);
    ShlTable(0);
    Zero(p);
    Zero(m);
    Joined(AndOp, 3, p, 0, 0, m);
  }
}
