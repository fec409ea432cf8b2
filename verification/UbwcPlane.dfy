/**
 The whole colour plane: the address map of `ubwc_detile` is a bijection between the pixel bytes of the largest
 image a plane can hold and the bytes of the plane, and exactly when.
 */
module UbwcPlane {
  import opened Arith
  import opened Bits
  import opened UbwcTiling
  import opened UbwcBlock
  import opened UbwcRow

  /** A tiling the source can work with: a known pixel size, at least one macrotile per row, no negative shift. */
  predicate WellFormed(t: Tiling) { KnownCpp(t.cpp) && t.stride >= 1 && t.highestBankBit >= 3 }

  /** The largest image with `rows` macrotile rows. */
  predicate InImage(t: Tiling, rows: nat, x: nat, y: nat, b: nat)
    requires WellFormed(t)
  {
    && x < 4 * t.stride * BlockWidth(t.cpp, t.r8g8)
    && y < 4 * rows * BlockHeight(t.cpp, t.r8g8)
    && b < t.cpp
  }

  function PlaneSize(t: Tiling, rows: nat): nat { rows * RowSize(t) }

  /** The bank bits of the row land on at most one of the place bits, and on no byte bit. */
  predicate RowClean(t: Tiling, row: nat)
    requires WellFormed(t)
  {
    RowBank(t, row) % 2048 in {0, 256, 512, 1024}
  }

  predicate AllRowsClean(t: Tiling, rows: nat)
    requires WellFormed(t)
  {
    forall row :: 0 <= row < rows ==> RowClean(t, row)
  }

  /** The part of it about the place bits: blocks of the row then have places of their own. */
  predicate PlacesClean(t: Tiling, row: nat)
    requires WellFormed(t)
  {
    var (v0, v1, v2) := Tuple(PlaceBank(t, row));
    AtMostOne(v0, v1, v2)
  }

  lemma CleanBits(t: Tiling, row: nat)
    requires WellFormed(t)
    ensures RowClean(t, row) <==> PlacesClean(t, row) && ByteBank(t, row) == 0
  {
    LowPart(RowBank(t, row), PlaceBank(t, row));
    OneBit(PlaceBank(t, row));
  }

  lemma OneBit(m: nat)
    requires m < 8
    ensures var (v0, v1, v2) := Tuple(m); AtMostOne(v0, v1, v2) <==> m in {0, 1, 2, 4}
  {
    if m == 0 {} else if m == 1 {} else if m == 2 {} else if m == 3 {}
    else if m == 4 {} else if m == 5 {} else if m == 6 {} else { assert m == 7; }
  }

  lemma LowPart(bank: nat, m: nat)
    requires m == bank / 256 % 8
    ensures bank % 2048 in {0, 256, 512, 1024} <==> m in {0, 1, 2, 4} && bank % 256 == 0
  {
    assert bank % 2048 == 256 * m + bank % 256;
  }

  /** With `highest_bank_bit >= 11` every row is clean, whatever the levels and the stride. */
  lemma HighBankBitIsClean(t: Tiling, row: nat)
    requires WellFormed(t) && t.highestBankBit >= 11
    ensures RowClean(t, row)
  {
    hide And, Shl, BankMaskBits;
    var a := And(row, BankMaskBits(t));
    ShlSum(a, t.highestBankBit - 11, 10);
    var b := Shl(a, t.highestBankBit - 11);
    ShlTable(b);
    ShlStep(b, 11);
    assert RowBank(t, row) == 1024 * b;
    EvenOrOdd(b);
  }

  lemma EvenOrOdd(b: nat)
    ensures 1024 * b % 2048 in {0, 1024}
  {
    assert b == 2 * (b / 2) + b % 2;
  }

  // ---- blocks of a macrotile row ----

  /** The block with macrotile column `k` and place bits `c0 c1 c2` after the XORs. */
  function BlockIn(t: Tiling, row: nat, k: nat, c0: bool, c1: bool, c2: bool): (nat, nat)
    requires WellFormed(t)
  {
    var xh := Xor(k, MacrotileBank(t, row));
    var (v0, v1, v2) := Tuple(PlaceBank(t, row));
    var (x0, y0, y1) := Unplace(c0, c1, c2, Hi1(t, xh), Hi2(t, xh), Extra(t, row), v0, v1, v2);
    (2 * xh + Bit(x0), 4 * row + Bit(y0) + 2 * Bit(y1))
  }

  function BlockAt(t: Tiling, row: nat, c: nat): (nat, nat)
    requires WellFormed(t)
  {
    var (c0, c1, c2) := Tuple(c % 8);
    BlockIn(t, row, c / 8, c0, c1, c2)
  }

  lemma IndexInRow(t: Tiling, xb: nat, yb: nat)
    requires WellFormed(t) && xb < 4 * t.stride
    ensures BlockIndex(t, xb, yb) < 16 * t.stride
  {
    hide MacrotileBank, PlaceBank, Xor, BlockIndex;
    var row := yb / 4;
    MacrotileStaysInRow(t, row, xb / 2);
    IndexSplit(t, row, xb, yb);
  }

  lemma EightTimes(k: nat, n: nat)
    requires n < 8
    ensures (8 * k + n) / 8 == k && (8 * k + n) % 8 == n
  {
  }

  lemma BlockRoundTrip(t: Tiling, xb: nat, yb: nat)
    requires WellFormed(t) && PlacesClean(t, yb / 4)
    ensures BlockAt(t, yb / 4, BlockIndex(t, xb, yb)) == (xb, yb)
  {
    hide MacrotileBank, PlaceBank, Xor, Num, Odd, Tuple, BlockIndex, BlockIn, PlacesClean;
    var row, xh := yb / 4, xb / 2;
    IndexSplit(t, row, xb, yb);
    var (c0, c1, c2) := PlaceOf(t, row, xh, Odd(xb), Odd(yb), Odd(yb / 2));
    TupleOfNum(c0, c1, c2);
    EightTimes(Xor(xh, MacrotileBank(t, row)), Num(c0, c1, c2));
    BlockInRoundTrip(t, row, xh, Odd(xb), Odd(yb), Odd(yb / 2));
    Recompose(xb, yb);
  }

  lemma BlockInRoundTrip(t: Tiling, row: nat, xh: nat, x0: bool, y0: bool, y1: bool)
    requires WellFormed(t) && PlacesClean(t, row)
    ensures var (c0, c1, c2) := PlaceOf(t, row, xh, x0, y0, y1);
            BlockIn(t, row, Xor(xh, MacrotileBank(t, row)), c0, c1, c2) == (2 * xh + Bit(x0), 4 * row + Bit(y0) + 2 * Bit(y1))
  {
    hide MacrotileBank, PlaceBank, ByteBank, Xor, Tuple, Hi1, Hi2, Extra, Bit, AtMostOne, Place, Unplace;
    var (v0, v1, v2) := Tuple(PlaceBank(t, row));
    XorCancels(xh, MacrotileBank(t, row));
    PlaceInverse(x0, y0, y1, Hi1(t, xh), Hi2(t, xh), Extra(t, row), v0, v1, v2);
  }

  lemma Recompose(xb: nat, yb: nat)
    ensures 2 * (xb / 2) + Bit(Odd(xb)) == xb
    ensures 4 * (yb / 4) + Bit(Odd(yb)) + 2 * Bit(Odd(yb / 2)) == yb
  {
    assert yb == 2 * (yb / 2) + yb % 2 && yb / 2 == 2 * (yb / 4) + yb / 2 % 2;
  }

  lemma IndexRoundTrip(t: Tiling, row: nat, c: nat)
    requires WellFormed(t) && PlacesClean(t, row) && c < 16 * t.stride
    ensures var (xb, yb) := BlockAt(t, row, c);
            xb < 4 * t.stride && yb / 4 == row && BlockIndex(t, xb, yb) == c
  {
    hide MacrotileBank, PlaceBank, Xor, Num, Odd, Tuple, Hi1, Hi2, Extra, BlockIndex, BlockIn, PlaceOf, PlacesClean;
    MacrotileStaysInRow(t, row, c / 8);
    var k := c / 8;
    var xh := Xor(k, MacrotileBank(t, row));
    var (c0, c1, c2) := Tuple(c % 8);
    var x0, y0, y1 := PlaceFound(t, row, k, c0, c1, c2);
    var (xb, yb) := BlockAt(t, row, c);
    Decompose(xh, row, x0, y0, y1);
    XorCancels(k, MacrotileBank(t, row));
    IndexSplit(t, row, xb, yb);
    NumOfTuple(c % 8);
  }

  lemma PlaceFound(t: Tiling, row: nat, k: nat, c0: bool, c1: bool, c2: bool) returns (x0: bool, y0: bool, y1: bool)
    requires WellFormed(t) && PlacesClean(t, row)
    ensures var xh := Xor(k, MacrotileBank(t, row));
            BlockIn(t, row, k, c0, c1, c2) == (2 * xh + Bit(x0), 4 * row + Bit(y0) + 2 * Bit(y1))
            && PlaceOf(t, row, xh, x0, y0, y1) == (c0, c1, c2)
  {
    hide MacrotileBank, PlaceBank, ByteBank, Xor, Tuple, Hi1, Hi2, Extra, Bit, AtMostOne, Place, Unplace;
    var xh := Xor(k, MacrotileBank(t, row));
    var (v0, v1, v2) := Tuple(PlaceBank(t, row));
    PlaceInverse(c0, c1, c2, Hi1(t, xh), Hi2(t, xh), Extra(t, row), v0, v1, v2);
    var (a, b, c) := Unplace(c0, c1, c2, Hi1(t, xh), Hi2(t, xh), Extra(t, row), v0, v1, v2);
    x0, y0, y1 := a, b, c;
  }

  lemma Decompose(xh: nat, row: nat, x0: bool, y0: bool, y1: bool)
    ensures var xb := 2 * xh + Bit(x0); xb / 2 == xh && Odd(xb) == x0
    ensures var yb := 4 * row + Bit(y0) + 2 * Bit(y1); yb / 4 == row && Odd(yb) == y0 && Odd(yb / 2) == y1
  {
    var yb := 4 * row + Bit(y0) + 2 * Bit(y1);
    assert yb / 2 == 2 * row + Bit(y1);
  }

  // ---- pixels of the plane ----

  /** Block coordinates of a pixel of the image, and coordinates inside the block. */
  lemma ImageBlocks(t: Tiling, rows: nat, x: nat, y: nat, b: nat)
    requires WellFormed(t)
    ensures var w, h := BlockWidth(t.cpp, t.r8g8), BlockHeight(t.cpp, t.r8g8);
            InImage(t, rows, x, y, b) <==> x / w < 4 * t.stride && y / h / 4 < rows && b < t.cpp
    ensures var w, h := BlockWidth(t.cpp, t.r8g8), BlockHeight(t.cpp, t.r8g8);
            b < t.cpp ==> InBlock(t.cpp, t.r8g8, x % w, y % h, b)
  {
    hide BlockWidth, BlockHeight;
    var w, h := BlockWidth(t.cpp, t.r8g8), BlockHeight(t.cpp, t.r8g8);
    QuotientBelow(x, w, 4 * t.stride);
    QuotientBelow(y, h, 4 * rows);
  }

  lemma QuotientBelow(a: nat, d: nat, n: nat)
    requires d > 0
    ensures a / d < n <==> a < n * d
  {
    DivModSplit(a, d);
    if a < n * d { RowOf(a, d, n); }
    if a / d < n { RowFits(a / d, a % d, d, n); }
  }

  lemma AddressSplit(t: Tiling, x: nat, y: nat, b: nat)
    requires WellFormed(t)
    ensures var w, h := BlockWidth(t.cpp, t.r8g8), BlockHeight(t.cpp, t.r8g8);
            Address(t, x, y, b) == (y / h / 4) * RowSize(t) + 256 * BlockIndex(t, x / w, y / h)
                                 + ByteBank(t, y / h / 4) + PixelByte(t.cpp, x % w, y % h, b)
  {
    hide BlockWidth, BlockHeight, BlockOffset, BlockIndex, ByteBank, PixelByte, RowSize;
    var w, h := BlockWidth(t.cpp, t.r8g8), BlockHeight(t.cpp, t.r8g8);
    BlockOffsetSplit(t, x / w, y / h);
  }

  /** A coordinate from its block and its place in the block. */
  function Join(block: nat, size: nat, pix: nat): nat { block * size + pix }

  /** The pixel and byte at an address of the plane. */
  function Locate(t: Tiling, o: nat): (nat, nat, nat)
    requires WellFormed(t)
  {
    var w, h := BlockWidth(t.cpp, t.r8g8), BlockHeight(t.cpp, t.r8g8);
    DivModSplit(o, RowSize(t));
    var row: nat, rest: nat := o / RowSize(t), o % RowSize(t);
    var (xb, yb) := BlockAt(t, row, rest / 256);
    var (px, py, b) := PixelAt(t.cpp, rest % 256);
    (Join(xb, w, px), Join(yb, h, py), b)
  }

  lemma SplitOffset(c: nat, w: nat, s: nat)
    requires w < 256
    ensures (256 * c + w) / 256 == c && (256 * c + w) % 256 == w
    ensures 256 * c + w < 4096 * s <==> c < 16 * s
  {
  }

  /** In a clean row the address is the row, the block and the byte, side by side. */
  lemma CleanAddress(t: Tiling, rows: nat, x: nat, y: nat, b: nat) returns (row: nat, c: nat, p: nat)
    requires WellFormed(t) && !Gapped(t.cpp, t.r8g8) && InImage(t, rows, x, y, b) && AllRowsClean(t, rows)
    ensures var w, h := BlockWidth(t.cpp, t.r8g8), BlockHeight(t.cpp, t.r8g8);
            row == y / h / 4 && c == BlockIndex(t, x / w, y / h) && p == PixelByte(t.cpp, x % w, y % h, b)
    ensures row < rows && c < 16 * t.stride && p < 256
    ensures Address(t, x, y, b) == row * RowSize(t) + (256 * c + p)
  {
    hide BlockWidth, BlockHeight, Address, BlockIndex, PixelByte, RowSize, ByteBank, InImage, RowClean, PlacesClean;
    var w, h := BlockWidth(t.cpp, t.r8g8), BlockHeight(t.cpp, t.r8g8);
    ImageBlocks(t, rows, x, y, b);
    row, c, p := y / h / 4, BlockIndex(t, x / w, y / h), PixelByte(t.cpp, x % w, y % h, b);
    AddressSplit(t, x, y, b);
    CleanBits(t, row);
    IndexInRow(t, x / w, y / h);
    PixelByteInSpan(t.cpp, t.r8g8, x % w, y % h, b);
  }

  /** Every pixel byte of the image lands in the plane, and its address gives the pixel back. */
  lemma LocateAddress(t: Tiling, rows: nat, x: nat, y: nat, b: nat)
    requires WellFormed(t) && !Gapped(t.cpp, t.r8g8) && InImage(t, rows, x, y, b) && AllRowsClean(t, rows)
    ensures Address(t, x, y, b) < PlaneSize(t, rows)
    ensures Locate(t, Address(t, x, y, b)) == (x, y, b)
  {
    hide BlockWidth, BlockHeight, Address, BlockIndex, PixelByte, InImage, RowClean, PlacesClean, BlockAt, PixelAt;
    var w, h := BlockWidth(t.cpp, t.r8g8), BlockHeight(t.cpp, t.r8g8);
    var row, c, p := CleanAddress(t, rows, x, y, b);
    SplitOffset(c, p, t.stride);
    RowFits(row, 256 * c + p, RowSize(t), rows);
    DivModUnique(RowSize(t), row, 256 * c + p);
    ImageBlocks(t, rows, x, y, b);
    assert PlacesClean(t, row) by { CleanBits(t, row); }
    BlockRoundTrip(t, x / w, y / h);
    PixelByteInSpan(t.cpp, t.r8g8, x % w, y % h, b);
    DivModSplit(x, w);
    DivModSplit(y, h);
  }

  /** Every byte of the plane belongs to a pixel of the image. */
  lemma AddressLocate(t: Tiling, rows: nat, o: nat)
    requires WellFormed(t) && !Gapped(t.cpp, t.r8g8) && o < PlaneSize(t, rows) && AllRowsClean(t, rows)
    ensures var (x, y, b) := Locate(t, o); InImage(t, rows, x, y, b) && Address(t, x, y, b) == o
  {
    hide BlockWidth, BlockHeight, Address, BlockIndex, PixelByte, InImage, RowClean, PlacesClean, BlockAt, PixelAt;
    var w, h, size := BlockWidth(t.cpp, t.r8g8), BlockHeight(t.cpp, t.r8g8), RowSize(t);
    var row, rest := o / size, o % size;
    RowOf(o, size, rows);
    DivModSplit(o, size);
    SplitOffset(rest / 256, rest % 256, t.stride);
    CleanBits(t, row);
    IndexRoundTrip(t, row, rest / 256);
    SpanCovered(t.cpp, t.r8g8, rest % 256);
    var (xb, yb) := BlockAt(t, row, rest / 256);
    var (px, py, b) := PixelAt(t.cpp, rest % 256);
    InBlockFacts(t, px, py, b);
    DivModUnique(w, xb, px);
    DivModUnique(h, yb, py);
    var x, y := Join(xb, w, px), Join(yb, h, py);
    ImageBlocks(t, rows, x, y, b);
    AddressSplit(t, x, y, b);
  }

  lemma InBlockFacts(t: Tiling, px: nat, py: nat, b: nat)
    requires WellFormed(t) && InBlock(t.cpp, t.r8g8, px, py, b)
    ensures px < BlockWidth(t.cpp, t.r8g8) && py < BlockHeight(t.cpp, t.r8g8) && b < t.cpp
  {
  }
}
