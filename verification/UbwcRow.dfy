/**
 One macrotile row (four rows of blocks): the two XOR masks place the row's blocks.  A block offset is split
 into its macrotile part (bits 11 and up), its place in the macrotile (bits 8..10) and the byte part.
 */
module UbwcRow {
  import opened Arith
  import opened Bits
  import opened UbwcTiling
  import opened UbwcBlock

  predicate Odd(x: nat) { x % 2 == 1 }

  /** Bits 1 and 2 of the block column, where the mode and the pixel size let them into the mask. */
  predicate Hi1(t: Tiling, xh: nat) { t.cpp < 16 && Odd(xh) }
  predicate Hi2(t: Tiling, xh: nat) { t.cpp < 16 && t.mode.EightChannel? && Odd(xh / 2) }

  /** Bit 2 of the block row, likewise: it depends on the macrotile row only. */
  predicate Extra(t: Tiling, row: nat) { t.cpp < 16 && t.mode.EightChannel? && Odd(row) }

  function XLow(t: Tiling, xb: nat): nat {
    Num(Odd(xb), Odd(xb) != Hi1(t, xb / 2), Odd(xb) != Hi2(t, xb / 2))
  }

  function YLow(t: Tiling, yb: nat): nat {
    Num(Odd(yb / 2), Odd(yb) != Odd(yb / 2), Odd(yb) != Extra(t, yb / 4))
  }

  /** The bank-swizzle bits of a macrotile row, as they enter the offset. */
  function RowBank(t: Tiling, row: nat): nat
    requires t.highestBankBit >= 3
  {
    Shl(And(row, BankMaskBits(t)), t.highestBankBit - 1)
  }

  /** Its part above bit 10, its part on the place bits 8..10, and its part below. */
  function MacrotileBank(t: Tiling, row: nat): nat
    requires t.highestBankBit >= 3
  {
    RowBank(t, row) / 2048
  }

  function PlaceBank(t: Tiling, row: nat): (v: nat)
    requires t.highestBankBit >= 3
    ensures v < 8
  {
    RowBank(t, row) / 256 % 8
  }

  function ByteBank(t: Tiling, row: nat): nat
    requires t.highestBankBit >= 3
  {
    RowBank(t, row) % 256
  }

  lemma SevenTimes(x0: bool)
    ensures Bit(x0) * 7 == Num(x0, x0, x0) && Bit(x0) * 6 == Num(false, x0, x0) && Bit(x0) * 3 == Num(x0, x0, false)
  {
  }

  lemma {:induction false} XMaskSplit(t: Tiling, xb: nat)
    ensures BlockXXorMask(xb, t.cpp, t.mode) == Shl(Shl(xb / 2, 3) + XLow(t, xb), 8)
  {
    hide Bitwise, Shl;
    Fields(xb);
    var x0, h1, h2 := Odd(xb), Hi1(t, xb / 2), Hi2(t, xb / 2);
    SevenTimes(x0);
    assert xb % 2 == Bit(x0) && xb / 2 % 2 == Bit(Odd(xb / 2)) && xb / 2 / 2 % 2 == Bit(Odd(xb / 2 / 2));
    NumOp(XorOp, x0, x0, x0, false, h1, h2);
    Pow2Table();
    Disjoint(XorOp, 3, xb / 2, XLow(t, xb));
    assert Shr(xb, 1) == xb / 2;
  }

  lemma YMaskSplit(t: Tiling, yb: nat)
    requires t.highestBankBit >= 3
    ensures BlockYXorMask(yb, t.cpp, GetBankMask(t), GetBankShift(t.highestBankBit), t.mode)
         == Or(Shl(YLow(t, yb), 8), RowBank(t, yb / 4))
  {
    hide Bitwise, Shl;
    Fields(yb);
    AndOne(yb / 2);
    var y0, y1, e := Odd(yb), Odd(yb / 2), Extra(t, yb / 4);
    assert yb / 2 / 2 == yb / 4;
    assert Shr(yb, 1) == yb / 2;
    SevenTimes(y0);
    SevenTimes(y1);
    assert yb % 2 == Bit(y0) && yb / 2 % 2 == Bit(y1) && yb / 4 % 2 == Bit(Odd(yb / 4));
    NumOp(XorOp, false, y0, y0, y1, y1, false);
    NumOp(XorOp, y1, y0 != y1, y0, false, false, e);
    BankTermMoves(t, yb);
  }

  /** `(y & (m << 2)) << (hbb - 3)` is `((y >> 2) & m) << (hbb - 1)`: a bank term depends on the macrotile row only. */
  lemma BankTermMoves(t: Tiling, yb: nat)
    requires t.highestBankBit >= 3
    ensures Shl(And(yb, GetBankMask(t)), GetBankShift(t.highestBankBit)) == RowBank(t, yb / 4)
  {
    hide Bitwise, Shl;
    var m := BankMaskBits(t);
    AndDouble(yb / 2, m);
    AndDouble(yb, 2 * m);
    assert yb / 2 / 2 == yb / 4;
    ShlSum(And(yb / 4, m), 2, t.highestBankBit - 3);
    ShlTable(m);
    ShlTable(And(yb / 4, m));
  }

  /** Place of a block in its macrotile row, in blocks of 256 bytes. */
  function BlockIndex(t: Tiling, xb: nat, yb: nat): nat
    requires t.highestBankBit >= 3
  {
    8 * Xor(xb / 2, MacrotileBank(t, yb / 4)) + Xor(XLow(t, xb), Or(YLow(t, yb), PlaceBank(t, yb / 4)))
  }

  lemma BlockOffsetSplit(t: Tiling, xb: nat, yb: nat)
    requires t.highestBankBit >= 3
    ensures BlockOffset(t, xb, yb) == 256 * BlockIndex(t, xb, yb) + ByteBank(t, yb / 4)
  {
    XMaskSplit(t, xb);
    YMaskSplit(t, yb);
    MaskXor(xb / 2, XLow(t, xb), YLow(t, yb), RowBank(t, yb / 4));
  }

  lemma {:induction false} MaskXor(xh: nat, xl: nat, yl: nat, bank: nat)
    requires xl < 8 && yl < 8
    ensures Xor(Shl(Shl(xh, 3) + xl, 8), Or(Shl(yl, 8), bank))
         == 256 * (8 * Xor(xh, bank / 2048) + Xor(xl, Or(yl, bank / 256 % 8))) + bank % 256
  {
    hide Bitwise, Shl;
    var vh, vm, vl := bank / 2048, bank / 256 % 8, bank % 256;
    var low := Or(yl, vm);
    OrPart(yl, bank, vh, vm, vl);
    NumBelow(OrOp, yl, vm);
    Pow2Table();
    Joined(XorOp, 3, xh, xl, vh, low);
    Zero(vl);
    Joined(XorOp, 8, Shl(xh, 3) + xl, 0, Shl(vh, 3) + low, vl);
    ShlTable(Shl(Xor(xh, vh), 3) + Xor(xl, low));
    ShlTable(Xor(xh, vh));
  }

  /** The row mask: the `|` meets the bank term at the place bits only. */
  lemma OrPart(yl: nat, bank: nat, vh: nat, vm: nat, vl: nat)
    requires yl < 8 && vh == bank / 2048 && vm == bank / 256 % 8 && vl == bank % 256
    ensures Or(Shl(yl, 8), bank) == Shl(Shl(vh, 3) + Or(yl, vm), 8) + vl
  {
    hide Bitwise, Shl;
    Pow2Table();
    EightAndElevenBits(bank, vh, vm, vl);
    ShlZero(3);
    Zero(vh);
    Zero(vl);
    Joined(OrOp, 3, 0, yl, vh, vm);
    Joined(OrOp, 8, yl, 0, Shl(vh, 3) + vm, vl);
  }

  lemma {:induction false} NumBelow(op: Op, a: nat, b: nat)
    requires a < 8 && b < 8
    ensures Bitwise(op, a, b) < 8
  {
    Pow2Table();
    Bounded(op, a, b, 3);
  }

  lemma EightAndElevenBits(bank: nat, vh: nat, vm: nat, vl: nat)
    requires vh == bank / 2048 && vm == bank / 256 % 8 && vl == bank % 256
    ensures bank == Shl(Shl(vh, 3) + vm, 8) + vl
  {
    ShlTable(8 * vh + vm);
    ShlTable(vh);
    assert bank / 256 / 8 == bank / 2048;
  }

  // ---- the macrotile part stays inside the row ----

  lemma {:induction false} AndAtMostMask(a: nat, m: nat)
    ensures And(a, m) <= m
    decreases a + m
  {
    if a + m == 0 {
    } else {
      Unfold(AndOp, a, m);
      AndAtMostMask(a / 2, m / 2);
    }
  }

  lemma {:induction false} ShlBelow(v: nat, j: nat, k: nat)
    requires v < Pow2(j)
    ensures Shl(v, k) < Pow2(j + k)
  {
    if k == 0 {
    } else {
      ShlBelow(v, j, k - 1);
    }
  }

  /** Bank lines 0..j only: the bank term is below 2^(hbb + j). */
  lemma BankBelow(t: Tiling, row: nat, j: nat)
    requires t.highestBankBit >= 3 && j < 3 && BankMaskBits(t) < Pow2(j + 1)
    ensures RowBank(t, row) < Pow2(j + t.highestBankBit)
  {
    var m := BankMaskBits(t);
    AndAtMostMask(row, m);
    ShlBelow(And(row, m), j + 1, t.highestBankBit - 1);
  }

  /** The alignment test of an enabled line makes twice the stride a multiple of 2^(k+1), where the line flips bit k. */
  lemma LineAligns(t: Tiling, j: nat, k: nat) returns (n: nat)
    requires j < 3 && BankLine(t, j) && k + 12 == t.highestBankBit + j
    ensures 2 * t.stride == Shl(n, k + 1)
  {
    var k' := k + BankOffset(t.cpp, t.r8g8);
    Aligned(t.stride, k');
    var q := Shr(t.stride, k');
    if k' == k {
      n := q;
    } else {
      n := 2 * q;
      ShlSum(q, 1, k + 1);
      assert Shl(q, 1) == 2 * q;
    }
  }

  /** The mask test says that the low bits are zero, which is divisibility. */
  lemma {:induction false} LowBitsClear(a: nat, k: nat)
    ensures And(a, Pow2(k) - 1) == 0 <==> a % Pow2(k) == 0
  {
    hide Bitwise;
    if k == 0 {
      Zero(a);
    } else {
      var m := Pow2(k - 1);
      AndOdd(a, m - 1);
      LowBitsClear(a / 2, k - 1);
      EvenMultiple(a, m);
      assert 2 * (m - 1) + 1 == Pow2(k) - 1;
    }
  }

  lemma EvenMultiple(a: nat, m: nat)
    requires m > 0
    ensures a % (2 * m) == 0 <==> a % 2 == 0 && a / 2 % m == 0
  {
    var q, r := a / 2 / m, a / 2 % m;
    assert a / 2 == m * q + r;
    assert a == 2 * m * q + (2 * r + a % 2);
    Remainder(2 * m, q, 2 * r + a % 2);
  }

  lemma Remainder(d: nat, q: nat, r: nat)
    requires r < d
    ensures d * q + r >= 0 && (d * q + r) % d == r
  {
    DivModUnique(d, q, r);
  }

  /**
   Which bank lines are on: line 0 by level bit 1, line 1 by bit 2 and line 2 by bit 0, each if the stride is a multiple of
   the power of two that its own bank bit asks for, one more for narrow pixels, and without condition when that is below one.
   */
  lemma EnabledLines(t: Tiling)
    ensures var k := t.highestBankBit - 12 + if t.r8g8 || t.cpp == 1 then 1 else 0;
      && (BankLine(t, 0) <==> t.levels / 2 % 2 == 1 && (k < 0 || t.stride % Pow2(k) == 0))
      && (BankLine(t, 1) <==> t.levels / 2 / 2 % 2 == 1 && (k + 1 < 0 || t.stride % Pow2(k + 1) == 0))
      && (BankLine(t, 2) <==> t.levels % 2 == 1 && (k + 2 < 0 || t.stride % Pow2(k + 2) == 0))
  {
    hide Bitwise, Shl, StrideAligned;
    Fields(t.levels);
    var k := t.highestBankBit - 12 + BankOffset(t.cpp, t.r8g8);
    AlignedIff(t.stride, k);
    AlignedIff(t.stride, k + 1);
    AlignedIff(t.stride, k + 2);
  }

  lemma AlignedIff(stride: nat, k: int)
    ensures StrideAligned(stride, k) <==> k < 0 || stride % Pow2(k) == 0
  {
    hide Bitwise, Shl;
    if k >= 0 { LowBitsClear(stride, k); }
  }

  /** XOR with the bank term never moves a macrotile column out of the row. */
  lemma MacrotileStaysInRow(t: Tiling, row: nat, xh: nat)
    requires t.highestBankBit >= 3 && xh < 2 * t.stride
    ensures Xor(xh, MacrotileBank(t, row)) < 2 * t.stride
  {
    Pow2Table();
    if BankLine(t, 2) {
      TopLine(t, row, xh, 2);
    } else if BankLine(t, 1) {
      TopLine(t, row, xh, 1);
    } else if BankLine(t, 0) {
      TopLine(t, row, xh, 0);
    } else {
      Zero(row);
      ShlZero(t.highestBankBit - 1);
      Zero(xh);
    }
  }

  lemma TopLine(t: Tiling, row: nat, xh: nat, j: nat)
    requires t.highestBankBit >= 3 && xh < 2 * t.stride
    requires j < 3 && BankLine(t, j) && BankMaskBits(t) < Pow2(j + 1)
    ensures Xor(xh, MacrotileBank(t, row)) < 2 * t.stride
  {
    var bank := RowBank(t, row);
    BankBelow(t, row, j);
    if t.highestBankBit + j < 12 {
      TwoTo11(j + t.highestBankBit);
      Zero(xh);
    } else {
      var k := t.highestBankBit + j - 12;
      var n := LineAligns(t, j, k);
      ShlSum(1, k + 1, 11);
      ShlTable(Pow2(k + 1));
      assert bank / 2048 < Pow2(k + 1);
      XorStaysBelow(xh, bank / 2048, k + 1, n);
    }
  }

  lemma TwoTo11(k: nat)
    requires k <= 11
    ensures Pow2(k) <= 2048
  {
    ShlSum(1, k, 11 - k);
    ShlPositive(Pow2(k), 11 - k);
    ShlTable(1);
  }

  // ---- the place in the macrotile ----

  /** The three place bits, from the block's low column bit, the terms of its row and column, and the bank bits
      that land there (none when highest_bank_bit >= 12). */
  function Place(x0: bool, y0: bool, y1: bool, h1: bool, h2: bool, e: bool, v0: bool, v1: bool, v2: bool): (bool, bool, bool) {
    (x0 != (y1 || v0), (x0 != h1) != ((y0 != y1) || v1), (x0 != h2) != ((y0 != e) || v2))
  }

  /** Its inverse while at most one bank bit lands on the place bits. */
  function Unplace(c0: bool, c1: bool, c2: bool, h1: bool, h2: bool, e: bool, v0: bool, v1: bool, v2: bool): (bool, bool, bool) {
    var x0 := if v0 then !c0 else if v1 then c1 == h1 else if v2 then c2 == h2
              else ((c0 != c1) != c2) != ((h1 != h2) != e);
    var z0, z1, z2 := c0 != x0, (c1 != x0) != h1, (c2 != x0) != h2;
    var y0 := if v2 then z1 != z0 else z2 != e;
    (x0, y0, if v0 then z1 != y0 else z0)
  }

  predicate AtMostOne(v0: bool, v1: bool, v2: bool) { !(v0 && v1) && !(v0 && v2) && !(v1 && v2) }

  lemma PlaceInverse(a: bool, b: bool, c: bool, h1: bool, h2: bool, e: bool, v0: bool, v1: bool, v2: bool)
    requires AtMostOne(v0, v1, v2)
    ensures var (c0, c1, c2) := Place(a, b, c, h1, h2, e, v0, v1, v2);
            Unplace(c0, c1, c2, h1, h2, e, v0, v1, v2) == (a, b, c)
    ensures var (x0, y0, y1) := Unplace(a, b, c, h1, h2, e, v0, v1, v2);
            Place(x0, y0, y1, h1, h2, e, v0, v1, v2) == (a, b, c)
  {
  }

  /** When two bank bits land on the place bits, two block rows of the macrotile row share their places. */
  lemma PlaceCollides(h1: bool, h2: bool, e: bool, v0: bool, v1: bool, v2: bool) returns (y0: bool, y1: bool)
    requires !AtMostOne(v0, v1, v2)
    ensures (y0 || y1) && Place(false, y0, y1, h1, h2, e, v0, v1, v2) == Place(false, false, false, h1, h2, e, v0, v1, v2)
  {
    if v0 && v1 { y0, y1 := false, true; } else if v0 && v2 { y0, y1 := true, true; } else { y0, y1 := true, false; }
  }

  function Tuple(n: nat): (bool, bool, bool) { (Odd(n), Odd(n / 2), Odd(n / 4)) }

  lemma TupleOfNum(a: bool, b: bool, c: bool)
    ensures Tuple(Num(a, b, c)) == (a, b, c) && Num(a, b, c) < 8
  {
    var n := Num(a, b, c);
    assert n / 2 == Bit(b) + 2 * Bit(c) && n / 4 == Bit(c);
  }

  lemma NumOfTuple(n: nat)
    requires n < 8
    ensures var (a, b, c) := Tuple(n); Num(a, b, c) == n
  {
  }

  function PlaceOf(t: Tiling, row: nat, xh: nat, x0: bool, y0: bool, y1: bool): (bool, bool, bool)
    requires t.highestBankBit >= 3
  {
    var (v0, v1, v2) := Tuple(PlaceBank(t, row));
    Place(x0, y0, y1, Hi1(t, xh), Hi2(t, xh), Extra(t, row), v0, v1, v2)
  }

  /** A block's index in its macrotile row is its XORed macrotile column and its place bits. */
  lemma IndexSplit(t: Tiling, row: nat, xb: nat, yb: nat)
    requires t.highestBankBit >= 3 && yb / 4 == row
    ensures var (c0, c1, c2) := PlaceOf(t, row, xb / 2, Odd(xb), Odd(yb), Odd(yb / 2));
            BlockIndex(t, xb, yb) == 8 * Xor(xb / 2, MacrotileBank(t, row)) + Num(c0, c1, c2)
  {
    hide Bitwise, MacrotileBank, PlaceBank, Odd, Num, Hi1, Hi2, Extra;
    var v := PlaceBank(t, row);
    var (v0, v1, v2) := Tuple(v);
    NumOfTuple(v);
    var x0, y0, y1, e := Odd(xb), Odd(yb), Odd(yb / 2), Extra(t, row);
    NumOp(OrOp, y1, y0 != y1, y0 != e, v0, v1, v2);
    NumOp(XorOp, x0, x0 != Hi1(t, xb / 2), x0 != Hi2(t, xb / 2), y1 || v0, (y0 != y1) || v1, (y0 != e) || v2);
  }
}
