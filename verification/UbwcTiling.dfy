/**
 Adreno UBWC addressing (`ubwc_decoder_v2/ubwc_tiling.py`): the formulas of the tiled layout, written
 with the source's own bit operators.  The other `Ubwc` files show what they mean.
 */
module UbwcTiling {
  import opened Bits

  datatype Result<T> = Ok(value: T) | Err

  datatype Macrotile = FourChannel | EightChannel

  /** Everything the address of a pixel depends on besides the pixel. */
  datatype Tiling = Tiling(cpp: nat, mode: Macrotile, highestBankBit: nat, levels: nat, stride: nat, r8g8: bool)

  function GetBlockSize(cpp: nat, r8g8: bool): Result<(nat, nat)> {
    if cpp == 2 && r8g8 then Ok((16, 8))
    else if cpp == 1 then Ok((32, 8))
    else if cpp == 2 then Ok((32, 4))
    else if cpp == 4 then Ok((16, 4))
    else if cpp == 8 then Ok((8, 4))
    else if cpp == 16 then Ok((4, 4))
    else if cpp == 32 then Ok((4, 2))
    else if cpp == 64 then Ok((2, 2))
    else Err
  }

  predicate KnownCpp(cpp: nat) { GetBlockSize(cpp, false).Ok? }

  function BlockWidth(cpp: nat, r8g8: bool): (w: nat)
    requires KnownCpp(cpp)
    ensures w > 0
  {
    GetBlockSize(cpp, r8g8).value.0
  }

  function BlockHeight(cpp: nat, r8g8: bool): (h: nat)
    requires KnownCpp(cpp)
    ensures h > 0
  {
    GetBlockSize(cpp, r8g8).value.1
  }

  function GetPixelOffset(x: nat, y: nat): nat {
    Or(Or(Or(Or(Or(And(x, 1),
                   Shl(And(y, 1), 1)),
                Shl(Shr(And(x, 2), 1), 2)),
             Shl(Shr(And(y, 2), 1), 3)),
          Shl(Shr(And(x, 0x1C), 2), 4)),
       Shl(Shr(And(y, 4), 2), 7))
  }

  function BlockXXorMask(x: nat, cpp: nat, mode: Macrotile): nat {
    var hiTerm := match mode
      case FourChannel => if cpp < 16 then And(x, 2) else 0
      case EightChannel => if cpp < 16 then And(x, 6) else 0;
    Shl(Xor(Xor(And(x, 1) * 7, hiTerm), Shl(Shr(x, 1), 3)), 8)
  }

  function BlockYXorMask(y: nat, cpp: nat, bankMask: nat, bankShift: nat, mode: Macrotile): nat {
    var base := Xor(And(y, 1) * 6, And(Shr(y, 1), 1) * 3);
    var core := match mode
      case FourChannel => Shl(base, 8)
      case EightChannel => Shl(Xor(base, if cpp < 16 then And(y, 4) else 0), 8);
    Or(core, Shl(And(y, bankMask), bankShift))
  }

  /** The `aligned` helper: a negative shift counts as aligned. */
  predicate StrideAligned(stride: nat, shiftBits: int) {
    shiftBits < 0 || And(stride, Pow2(shiftBits) - 1) == 0
  }

  function BankOffset(cpp: nat, r8g8: bool): nat { if r8g8 || cpp == 1 then 1 else 0 }

  /** Whether bank-swizzle line `j` (0, 1 or 2) is enabled by its level bit and its alignment test. */
  predicate BankLine(t: Tiling, j: nat)
    requires j < 3
  {
    && (if j == 0 then And(t.levels, 2) != 0 else if j == 1 then And(t.levels, 4) != 0 else And(t.levels, 1) != 0)
    && StrideAligned(t.stride, t.highestBankBit - 12 + j + BankOffset(t.cpp, t.r8g8))
  }

  function BankMaskBits(t: Tiling): nat { Num(BankLine(t, 0), BankLine(t, 1), BankLine(t, 2)) }

  function GetBankMask(t: Tiling): nat { Shl(BankMaskBits(t), 2) }

  function GetBankShift(highestBankBit: nat): int { highestBankBit - 1 - 2 }

  /** Where a pixel byte lives.  The bank shift is negative below highest bank bit 3, which this model leaves out. */
  function BlockOffset(t: Tiling, xBlock: nat, yBlock: nat): nat
    requires t.highestBankBit >= 3
  {
    Xor(BlockXXorMask(xBlock, t.cpp, t.mode),
        BlockYXorMask(yBlock, t.cpp, GetBankMask(t), GetBankShift(t.highestBankBit), t.mode))
  }

  function RowSize(t: Tiling): nat { t.stride * 4096 }

  /** `block_base_offset` of analyze_block_headers.py and `block_byte_offset` of inspect_meta.py. */
  function BlockBaseOffset(t: Tiling, xBlock: nat, yBlock: nat): nat
    requires t.highestBankBit >= 3
  {
    (yBlock / 4) * RowSize(t) + BlockOffset(t, xBlock, yBlock)
  }

  /** A byte of a pixel inside its block. */
  function PixelByte(cpp: nat, xPix: nat, yPix: nat, b: nat): nat {
    GetPixelOffset(xPix, yPix) * cpp + b
  }

  function Address(t: Tiling, x: nat, y: nat, b: nat): nat
    requires KnownCpp(t.cpp) && t.highestBankBit >= 3
  {
    var w, h := BlockWidth(t.cpp, t.r8g8), BlockHeight(t.cpp, t.r8g8);
    BlockBaseOffset(t, x / w, y / h) + PixelByte(t.cpp, x % w, y % h, b)
  }
}
