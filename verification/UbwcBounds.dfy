/** Which planes are long enough: exactly when no pixel of the largest image is addressed past the end. */
module UbwcBounds {
  import opened Arith
  import opened Bits
  import opened UbwcTiling
  import opened UbwcBlock
  import opened UbwcRow
  import opened UbwcPlane

  /** The last row's bank bits touch no byte bit, or keep its last block from being the last place. */
  predicate InPlane(t: Tiling, rows: nat)
    requires WellFormed(t) && rows >= 1
  {
    ByteBank(t, rows - 1) == 0 || (!PlacesClean(t, rows - 1) && t.cpp < 16)
  }

  /** Bank bits that touch the byte bits lie below the macrotile, and below the last place bit. */
  lemma ByteBitsAreLow(t: Tiling, row: nat)
    requires WellFormed(t) && ByteBank(t, row) != 0
    ensures RowBank(t, row) < 1024
  {
    assert BankMaskBits(t) < 8 by { hide BankLine; }
    hide And, Shl, BankMaskBits;
    var a, k := And(row, BankMaskBits(t)), t.highestBankBit - 1;
    if k >= 8 {
      ShlSum(a, k - 8, 8);
      ShlTable(Shl(a, k - 8));
      assert false;
    } else {
      assert Pow2(3) == 8 by { Pow2Table(); }
      BankBelow(t, row, 2);
      TwoTo10(k + 3);
    }
  }

  lemma TwoTo10(k: nat)
    requires k <= 10
    ensures Pow2(k) <= 1024
  {
    ShlSum(1, k, 10 - k);
    ShlPositive(Pow2(k), 10 - k);
    ShlTable(1);
    ShlStep(1, 10);
  }

  /** So such a row keeps its macrotiles, and its last place bit. */
  lemma LowBankParts(t: Tiling, row: nat)
    requires WellFormed(t) && ByteBank(t, row) != 0
    ensures MacrotileBank(t, row) == 0
    ensures var (v0, v1, v2) := Tuple(PlaceBank(t, row)); !v2
  {
    ByteBitsAreLow(t, row);
    hide RowBank;
    assert PlaceBank(t, row) < 4;
  }

  lemma LastPlaceMissed(x0: bool, y0: bool, y1: bool, h2: bool, e: bool)
    ensures var (c0, c1, c2) := Place(x0, y0, y1, true, h2, e, true, true, false); Num(c0, c1, c2) < 7
  {
  }

  /** When places collide in such a row, odd macrotile columns have no block in the last place. */
  lemma OddColumnMisses(t: Tiling, row: nat, xh: nat, x0: bool, y0: bool, y1: bool)
    requires WellFormed(t) && ByteBank(t, row) != 0 && !PlacesClean(t, row) && t.cpp < 16 && Odd(xh)
    ensures var (c0, c1, c2) := PlaceOf(t, row, xh, x0, y0, y1); Num(c0, c1, c2) < 7
  {
    LowBankParts(t, row);
    hide ByteBank, PlaceBank, MacrotileBank, Tuple, Place, Num, Hi2, Extra, Odd;
    LastPlaceMissed(x0, y0, y1, Hi2(t, xh), Extra(t, row));
  }

  lemma CollidingPlaces(t: Tiling, xb: nat, yb: nat)
    requires WellFormed(t) && ByteBank(t, yb / 4) != 0 && !PlacesClean(t, yb / 4) && t.cpp < 16
    requires xb < 4 * t.stride
    ensures BlockIndex(t, xb, yb) < 16 * t.stride - 1
  {
    hide BlockIndex, Xor, ByteBank, PlaceBank, MacrotileBank, PlacesClean, PlaceOf, Num, Odd;
    var row, xh, s := yb / 4, xb / 2, t.stride;
    var x0, y0, y1 := Odd(xb), Odd(yb), Odd(yb / 2);
    LowBankParts(t, row);
    Zero(xh);
    IndexSplit(t, row, xb, yb);
    var (c0, c1, c2) := PlaceOf(t, row, xh, x0, y0, y1);
    TupleOfNum(c0, c1, c2);
    if xh == 2 * s - 1 {
      assert Odd(xh) by { OddTop(s); }
      OddColumnMisses(t, row, xh, x0, y0, y1);
    }
  }

  lemma OddTop(s: nat)
    requires s > 0
    ensures Odd(2 * s - 1)
  {
  }

  /** Otherwise some block of the row takes it. */
  lemma LastBlock(t: Tiling, row: nat) returns (xb: nat, yb: nat)
    requires WellFormed(t) && ByteBank(t, row) != 0 && (PlacesClean(t, row) || t.cpp >= 16)
    ensures xb < 4 * t.stride && yb / 4 == row && BlockIndex(t, xb, yb) == 16 * t.stride - 1
  {
    var last := 16 * t.stride - 1;
    if PlacesClean(t, row) {
      hide BlockAt, BlockIndex, PlacesClean, ByteBank;
      IndexRoundTrip(t, row, last);
      var block := BlockAt(t, row, last);
      xb, yb := block.0, block.1;
    } else {
      LowBankParts(t, row);
      hide BlockIndex, Xor, ByteBank, PlaceBank, MacrotileBank, Tuple, Odd;
      var xh := 2 * t.stride - 1;
      Zero(xh);
      Decompose(xh, row, false, true, false);
      xb, yb := 2 * xh, 4 * row + 1;
      IndexSplit(t, row, xb, yb);
    }
  }

  lemma StaysInPlane(t: Tiling, rows: nat, x: nat, y: nat, b: nat)
    requires WellFormed(t) && !Gapped(t.cpp, t.r8g8) && rows >= 1 && InPlane(t, rows) && InImage(t, rows, x, y, b)
    ensures Address(t, x, y, b) < PlaneSize(t, rows)
  {
    hide BlockWidth, BlockHeight, Address, BlockIndex, PixelByte, InImage, PlacesClean, RowBank;
    var w, h, size := BlockWidth(t.cpp, t.r8g8), BlockHeight(t.cpp, t.r8g8), RowSize(t);
    ImageBlocks(t, rows, x, y, b);
    AddressSplit(t, x, y, b);
    IndexInRow(t, x / w, y / h);
    PixelByteInSpan(t.cpp, t.r8g8, x % w, y % h, b);
    var row := y / h / 4;
    if row < rows - 1 {
      MulMono(row + 2, rows, size);
      Successor(row, size);
      Successor(row + 1, size);
    } else {
      MulMono(row + 1, rows, size);
      Successor(row, size);
      if ByteBank(t, row) != 0 { CollidingPlaces(t, x / w, y / h); }
    }
  }

  /** Its last byte is then past the end of the plane. */
  lemma SpillsOver(t: Tiling, rows: nat) returns (x: nat, y: nat, b: nat)
    requires WellFormed(t) && !Gapped(t.cpp, t.r8g8) && rows >= 1 && !InPlane(t, rows)
    ensures InImage(t, rows, x, y, b) && Address(t, x, y, b) >= PlaneSize(t, rows)
  {
    hide BlockWidth, BlockHeight, Address, BlockIndex, PixelByte, InImage, PlacesClean, ByteBank, PixelAt;
    var w, h := BlockWidth(t.cpp, t.r8g8), BlockHeight(t.cpp, t.r8g8);
    var xb, yb := LastBlock(t, rows - 1);
    SpanCovered(t.cpp, t.r8g8, 255);
    var pixel := PixelAt(t.cpp, 255);
    InBlockFacts(t, pixel.0, pixel.1, pixel.2);
    DivModUnique(w, xb, pixel.0);
    DivModUnique(h, yb, pixel.1);
    x, y, b := Join(xb, w, pixel.0), Join(yb, h, pixel.1), pixel.2;
    ImageBlocks(t, rows, x, y, b);
    AddressSplit(t, x, y, b);
    Successor(rows - 1, RowSize(t));
  }

  /** Every pixel byte of the largest image lies in the plane exactly when the last row's bank bits allow it. */
  lemma StaysInPlaneIff(t: Tiling, rows: nat)
    requires WellFormed(t) && !Gapped(t.cpp, t.r8g8) && rows >= 1
    ensures InPlane(t, rows) <==>
      forall x: nat, y: nat, b: nat :: InImage(t, rows, x, y, b) ==> Address(t, x, y, b) < PlaneSize(t, rows)
  {
    hide InPlane, InImage, Address, PlaneSize;
    if InPlane(t, rows) {
      forall x: nat, y: nat, b: nat | InImage(t, rows, x, y, b)
        ensures Address(t, x, y, b) < PlaneSize(t, rows)
      {
        StaysInPlane(t, rows, x, y, b);
      }
    } else {
      var x, y, b := SpillsOver(t, rows);
    }
  }
}
