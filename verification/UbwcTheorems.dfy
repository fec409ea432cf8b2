/** The main results about the colour plane: exactly when its address map is a bijection, and what follows. */
module UbwcTheorems {
  import opened Arith
  import opened Bits
  import opened UbwcTiling
  import opened UbwcBlock
  import opened UbwcRow
  import opened UbwcPlane

  ghost predicate Injective(t: Tiling, rows: nat)
    requires WellFormed(t)
  {
    forall x: nat, y: nat, b: nat, x': nat, y': nat, b': nat ::
      InImage(t, rows, x, y, b) && InImage(t, rows, x', y', b') && Address(t, x, y, b) == Address(t, x', y', b')
      ==> x == x' && y == y' && b == b'
  }

  ghost predicate Reached(t: Tiling, rows: nat, o: nat)
    requires WellFormed(t)
  {
    exists x: nat, y: nat, b: nat :: InImage(t, rows, x, y, b) && Address(t, x, y, b) == o
  }

  /** The pixel bytes of the image and the bytes of the plane correspond one to one. */
  ghost predicate Bijective(t: Tiling, rows: nat)
    requires WellFormed(t)
  {
    && (forall x: nat, y: nat, b: nat :: InImage(t, rows, x, y, b) ==> Address(t, x, y, b) < PlaneSize(t, rows))
    && Injective(t, rows)
    && (forall o: nat :: o < PlaneSize(t, rows) ==> Reached(t, rows, o))
  }

  lemma CleanPlaneIsBijective(t: Tiling, rows: nat)
    requires WellFormed(t) && !Gapped(t.cpp, t.r8g8) && AllRowsClean(t, rows)
    ensures Bijective(t, rows)
  {
    hide InImage, Address, RowClean, PlaneSize, Locate, Gapped;
    forall x: nat, y: nat, b: nat | InImage(t, rows, x, y, b)
      ensures Address(t, x, y, b) < PlaneSize(t, rows) && Locate(t, Address(t, x, y, b)) == (x, y, b)
    {
      LocateAddress(t, rows, x, y, b);
    }
    forall o: nat | o < PlaneSize(t, rows)
      ensures Reached(t, rows, o)
    {
      AddressLocate(t, rows, o);
      var (x, y, b) := Locate(t, o);
      assert InImage(t, rows, x, y, b);
    }
  }

  // ---- what goes wrong otherwise ----

  lemma FirstRowHasNoBank(t: Tiling)
    requires WellFormed(t)
    ensures ByteBank(t, 0) == 0
  {
    Zero(BankMaskBits(t));
    ShlZero(t.highestBankBit - 1);
  }

  /** The 16x8 block leaves byte 128 of the plane without a pixel. */
  lemma GapUnreached(t: Tiling, rows: nat)
    requires WellFormed(t) && Gapped(t.cpp, t.r8g8)
    ensures !Reached(t, rows, 128)
  {
    hide Address, BlockIndex, PixelByte, ByteBank;
    forall x: nat, y: nat, b: nat | InImage(t, rows, x, y, b)
      ensures Address(t, x, y, b) != 128
    {
      hide InImage;
      AddressSplit(t, x, y, b);
      ImageBlocks(t, rows, x, y, b);
      var row, c, p := y / 8 / 4, BlockIndex(t, x / 16, y / 8), PixelByte(t.cpp, x % 16, y % 8, b);
      GapUnused(x % 16, y % 8, b);
      FirstRowHasNoBank(t);
      if row == 0 {
        assert (256 * c + p) % 256 == p % 256;
      } else {
        MulMono(1, row, RowSize(t));
      }
    }
  }

  /** Two place bits hit by the bank term: two pixels share an address. */
  lemma PlaceCollision(t: Tiling, rows: nat, row: nat)
    requires WellFormed(t) && row < rows
    requires !PlacesClean(t, row)
    ensures !Injective(t, rows)
  {
    hide Address, BlockIndex, PixelByte, ByteBank, BlockWidth, BlockHeight, PlaceBank, Tuple, AtMostOne, Hi1, Hi2, Extra;
    var w, h := BlockWidth(t.cpp, t.r8g8), BlockHeight(t.cpp, t.r8g8);
    var (v0, v1, v2) := Tuple(PlaceBank(t, row));
    var y0, y1 := PlaceCollides(Hi1(t, 0), Hi2(t, 0), Extra(t, row), v0, v1, v2);
    var d := Bit(y0) + 2 * Bit(y1);
    Decompose(0, row, false, y0, y1);
    Decompose(0, row, false, false, false);
    IndexSplit(t, row, 0, 4 * row);
    IndexSplit(t, row, 0, 4 * row + d);
    BlockCorner(t, rows, 0, 4 * row);
    BlockCorner(t, rows, 0, 4 * row + d);
    assert (4 * row + d) * h != 4 * row * h by { Distribute(4 * row, d, h); }
  }

  lemma Distribute(a: nat, d: nat, h: nat)
    requires d > 0 && h > 0
    ensures (a + d) * h > a * h
  {
    MulMono(a + 1, a + d, h);
    Successor(a, h);
  }

  /** The first pixel of a block, as a pixel of the image. */
  lemma BlockCorner(t: Tiling, rows: nat, xb: nat, yb: nat)
    requires WellFormed(t) && xb < 4 * t.stride && yb / 4 < rows
    ensures var w, h := BlockWidth(t.cpp, t.r8g8), BlockHeight(t.cpp, t.r8g8);
      && xb * w >= 0 && yb * h >= 0 && InImage(t, rows, xb * w, yb * h, 0)
      && Address(t, xb * w, yb * h, 0)
         == (yb / 4) * RowSize(t) + 256 * BlockIndex(t, xb, yb) + ByteBank(t, yb / 4) + PixelByte(t.cpp, 0, 0, 0)
  {
    hide Address, BlockIndex, PixelByte, ByteBank, BlockWidth, BlockHeight, InImage;
    var w, h := BlockWidth(t.cpp, t.r8g8), BlockHeight(t.cpp, t.r8g8);
    DivModUnique(w, xb, 0);
    DivModUnique(h, yb, 0);
    ImageBlocks(t, rows, xb * w, yb * h, 0);
    AddressSplit(t, xb * w, yb * h, 0);
  }

  /** A bank term with byte bits shifts its row: the row's first byte is left without a pixel. */
  lemma ShiftedRowUnreached(t: Tiling, rows: nat, row: nat)
    requires WellFormed(t) && !Gapped(t.cpp, t.r8g8) && row < rows
    requires ByteBank(t, row) != 0 && forall q :: 0 <= q < row ==> ByteBank(t, q) == 0
    ensures 0 <= row * RowSize(t) < PlaneSize(t, rows) && !Reached(t, rows, row * RowSize(t))
  {
    hide Address, ByteBank, InImage;
    RowFits(row, 0, RowSize(t), rows);
    forall x: nat, y: nat, b: nat | InImage(t, rows, x, y, b)
      ensures Address(t, x, y, b) != row * RowSize(t)
    {
      ShiftedAvoids(t, rows, row, x, y, b);
    }
  }

  lemma ShiftedAvoids(t: Tiling, rows: nat, row: nat, x: nat, y: nat, b: nat)
    requires WellFormed(t) && !Gapped(t.cpp, t.r8g8) && InImage(t, rows, x, y, b)
    requires ByteBank(t, row) != 0 && forall q :: 0 <= q < row ==> ByteBank(t, q) == 0
    ensures Address(t, x, y, b) != row * RowSize(t)
  {
    hide Address, BlockIndex, PixelByte, ByteBank, BlockWidth, BlockHeight, InImage;
    var w, h := BlockWidth(t.cpp, t.r8g8), BlockHeight(t.cpp, t.r8g8);
    var q, c, p := y / h / 4, BlockIndex(t, x / w, y / h), PixelByte(t.cpp, x % w, y % h, b);
    AddressSplit(t, x, y, b);
    ImageBlocks(t, rows, x, y, b);
    IndexInRow(t, x / w, y / h);
    PixelByteInSpan(t.cpp, t.r8g8, x % w, y % h, b);
    SplitOffset(c, p, t.stride);
    RowStartMissed(q, row, RowSize(t), 256 * c + p, ByteBank(t, q));
  }

  lemma RowStartMissed(q: nat, row: nat, size: nat, rest: nat, bank: nat)
    requires q < row ==> rest < size && bank == 0
    requires q == row ==> bank > 0
    requires size > 0
    ensures q * size + rest + bank != row * size
  {
    if q < row {
      RowFits(q, rest, size, row);
    } else if q > row {
      RowFits(row, 0, size, q);
    }
  }

  /**
   The address map is a bijection exactly when the block has no hole and every macrotile row is clean: its bank
   bits touch no byte bit and at most one place bit.  Nothing else about pitch, levels, mode or stride matters.
   */
  lemma BijectiveIff(t: Tiling, rows: nat)
    requires WellFormed(t) && rows >= 1
    ensures Bijective(t, rows) <==> !Gapped(t.cpp, t.r8g8) && AllRowsClean(t, rows)
  {
    hide InImage, Address, RowClean, ByteBank, PlaceBank, Tuple, AtMostOne;
    if Gapped(t.cpp, t.r8g8) {
      GapUnreached(t, rows);
      MulMono(1, rows, RowSize(t));
    } else if AllRowsClean(t, rows) {
      CleanPlaneIsBijective(t, rows);
    } else {
      UncleanRowBreaks(t, rows);
    }
  }

  lemma UncleanRowBreaks(t: Tiling, rows: nat)
    requires WellFormed(t) && !Gapped(t.cpp, t.r8g8) && !AllRowsClean(t, rows)
    ensures !Bijective(t, rows)
  {
    hide InImage, Address, RowClean, ByteBank, PlaceBank, Tuple, AtMostOne, Injective, Reached;
    var row :| 0 <= row < rows && !RowClean(t, row);
    CleanBits(t, row);
    if ByteBank(t, row) == 0 {
      PlaceCollision(t, rows, row);
    } else {
      var first := FirstShifted(t, row);
      ShiftedRowUnreached(t, rows, first);
    }
  }

  lemma {:induction false} FirstShifted(t: Tiling, row: nat) returns (first: nat)
    requires WellFormed(t) && ByteBank(t, row) != 0
    ensures first <= row && ByteBank(t, first) != 0 && forall q :: 0 <= q < first ==> ByteBank(t, q) == 0
  {
    hide ByteBank;
    if q :| 0 <= q < row && ByteBank(t, q) != 0 {
      first := FirstShifted(t, q);
    } else {
      first := row;
    }
  }

  /** The configurations the decoder and its autotuner use (`highest_bank_bit` 13..17, and down to 11) are bijective. */
  lemma BijectiveFromEleven(t: Tiling, rows: nat)
    requires WellFormed(t) && !Gapped(t.cpp, t.r8g8) && t.highestBankBit >= 11
    ensures Bijective(t, rows)
  {
    hide RowClean;
    forall row | 0 <= row < rows ensures RowClean(t, row) { HighBankBitIsClean(t, row); }
    CleanPlaneIsBijective(t, rows);
  }

  /** All three levels enabled on a plane one macrotile wide, with `highest_bank_bit` 10. */
  const TEN: Tiling := Tiling(4, EightChannel, 10, 7, 1, false)

  lemma TenEnablesAllLines()
    ensures BankMaskBits(TEN) == 7
  {
    hide Bitwise, Shl;
    Fields(7);
    Zero(1);
    Pow2Table();
  }

  /** Below 11 it can fail: row 3 then carries two bits into the place bits, and pixels share addresses. */
  lemma BankBitTenFails()
    ensures !Bijective(TEN, 4)
  {
    hide Bitwise, Shl, BankMaskBits, Bijective, Gapped;
    TenEnablesAllLines();
    NumOp(AndOp, true, true, false, true, true, true);
    ShlTable(3);
    ShlStep(3, 9);
    assert RowBank(TEN, 3) == 1536;
    assert !RowClean(TEN, 3);
    BijectiveIff(TEN, 4);
  }
}
