/** `fdl6_get_bank_mask` and `ubwc_detile` in their own form: what every byte of the decoded image is. */
module UbwcDetile {
  import opened Common
  import opened Arith
  import opened Bits
  import opened UbwcTiling

  /** The three bank tests, as the source accumulates them into `mask`. */
  method Fdl6GetBankMask(t: Tiling) returns (mask: nat)
    ensures mask == BankMaskBits(t)
  {
    hide Bitwise, StrideAligned;
    var offset := if t.r8g8 || t.cpp == 1 then 1 else 0;
    mask := 0;
    if And(t.levels, 0x2) != 0 && StrideAligned(t.stride, t.highestBankBit - 12 + offset) {
      mask := Or(mask, 1);
    }
    if And(t.levels, 0x4) != 0 && StrideAligned(t.stride, t.highestBankBit - 11 + offset) {
      mask := Or(mask, 2);
    }
    if And(t.levels, 0x1) != 0 && StrideAligned(t.stride, t.highestBankBit - 10 + offset) {
      mask := Or(mask, 4);
    }
    var b0, b1, b2 := BankLine(t, 0), BankLine(t, 1), BankLine(t, 2);
    NumOp(OrOp, false, false, false, true, false, false);
    NumOp(OrOp, b0, false, false, false, true, false);
    NumOp(OrOp, b0, b1, false, false, false, true);
  }

  // ---- detiling ----

  const META_ALL_ZERO: byte := 0x05
  const META_ALL_FF: byte := 0x0D

  /** A byte of the plane; the source pads a short plane with zeros. */
  function PlaneByte(plane: seq<byte>, o: nat): byte {
    if o < |plane| then plane[o] else 0
  }

  function DetiledByte(t: Tiling, plane: seq<byte>, x: nat, y: nat, b: nat): byte
    requires KnownCpp(t.cpp) && t.highestBankBit >= 3
  {
    PlaneByte(plane, Address(t, x, y, b))
  }

  type Grid = seq<seq<byte>>

  /** Number of blocks along a side; the last one may be partly outside the image. */
  function BlocksAlong(length: nat, blockSize: nat): nat
    requires blockSize > 0
  {
    (length + blockSize - 1) / blockSize
  }

  predicate GridCovers(grid: Grid, blocksW: nat, blocksH: nat) {
    blocksH <= |grid| && forall j :: 0 <= j < blocksH ==> blocksW <= |grid[j]|
  }

  lemma BlockInGrid(a: nat, length: nat, blockSize: nat)
    requires a < length && blockSize > 0
    ensures a / blockSize < BlocksAlong(length, blockSize)
  {
    var q, n := a / blockSize, BlocksAlong(length, blockSize);
    DivModSplit(a, blockSize);
    DivModSplit(length + blockSize - 1, blockSize);
    if n <= q { MulMono(n, q, blockSize); }
  }

  /** The blocks are just enough to hold every pixel. */
  lemma BlocksCount(length: nat, blockSize: nat)
    requires blockSize > 0
    ensures length == 0 ==> BlocksAlong(length, blockSize) == 0
    ensures length > 0 ==> BlocksAlong(length, blockSize) == (length - 1) / blockSize + 1
    ensures length <= BlocksAlong(length, blockSize) * blockSize < length + blockSize
  {
    DivModSplit(length + blockSize - 1, blockSize);
    if length == 0 {
      DivModUnique(blockSize, 0, blockSize - 1);
    } else {
      DivModSplit(length - 1, blockSize);
      var q, r := (length - 1) / blockSize, (length - 1) % blockSize;
      Successor(q, blockSize);
      DivModUnique(blockSize, q + 1, r);
    }
  }

  predicate Covered(t: Tiling, meta: Option<Grid>, width: nat, height: nat)
    requires KnownCpp(t.cpp)
  {
    meta.Some? ==> GridCovers(meta.value, BlocksAlong(width, BlockWidth(t.cpp, t.r8g8)), BlocksAlong(height, BlockHeight(t.cpp, t.r8g8)))
  }

  /** A grid covers an image exactly when it has a code for the block of every pixel. */
  lemma CoveredIff(t: Tiling, grid: Grid, width: nat, height: nat)
    requires KnownCpp(t.cpp) && width > 0 && height > 0
    ensures var w, h := BlockWidth(t.cpp, t.r8g8), BlockHeight(t.cpp, t.r8g8);
      Covered(t, Some(grid), width, height) <==> forall x: nat, y: nat :: x < width && y < height ==> HasCode(grid, x / w, y / h)
  {
    hide BlocksAlong, BlockWidth, BlockHeight;
    var w, h := BlockWidth(t.cpp, t.r8g8), BlockHeight(t.cpp, t.r8g8);
    var blocksW, blocksH := BlocksAlong(width, w), BlocksAlong(height, h);
    BlocksCount(width, w);
    BlocksCount(height, h);
    if Covered(t, Some(grid), width, height) {
      forall x: nat, y: nat | x < width && y < height ensures HasCode(grid, x / w, y / h) {
        BlockInGrid(x, width, w);
        BlockInGrid(y, height, h);
        DivModSplit(y, h);
        DivModSplit(x, w);
      }
    } else if forall x: nat, y: nat :: x < width && y < height ==> HasCode(grid, x / w, y / h) {
      CodesCover(grid, width, height, w, h);
      assert false;
    }
  }

  lemma CodesCover(grid: Grid, width: nat, height: nat, w: nat, h: nat)
    requires width > 0 && height > 0 && w > 0 && h > 0
    requires forall x: nat, y: nat :: x < width && y < height ==> HasCode(grid, x / w, y / h)
    ensures GridCovers(grid, BlocksAlong(width, w), BlocksAlong(height, h))
  {
    hide BlocksAlong;
    BlocksCount(width, w);
    BlocksCount(height, h);
    assert HasCode(grid, (width - 1) / w, (height - 1) / h);
    forall j | 0 <= j < BlocksAlong(height, h) ensures BlocksAlong(width, w) <= |grid[j]| {
      MulMono(j, (height - 1) / h, h);
      MulMono(0, j, h);
      DivModSplit(height - 1, h);
      DivModUnique(h, j, 0);
      assert HasCode(grid, (width - 1) / w, j * h / h);
    }
  }

  predicate HasCode(grid: Grid, i: int, j: int) { 0 <= j < |grid| && 0 <= i < |grid[j]| }

  function MetaCode(t: Tiling, grid: Grid, width: nat, height: nat, x: nat, y: nat): byte
    requires KnownCpp(t.cpp) && Covered(t, Some(grid), width, height) && x < width && y < height
  {
    BlockInGrid(x, width, BlockWidth(t.cpp, t.r8g8));
    BlockInGrid(y, height, BlockHeight(t.cpp, t.r8g8));
    grid[y / BlockHeight(t.cpp, t.r8g8)][x / BlockWidth(t.cpp, t.r8g8)]
  }

  /** What a decoded byte means: two meta codes stand for constant blocks, every other block is read from the plane. */
  function DecodedByte(t: Tiling, plane: seq<byte>, meta: Option<Grid>, width: nat, height: nat, x: nat, y: nat, b: nat): byte
    requires KnownCpp(t.cpp) && t.highestBankBit >= 3 && Covered(t, meta, width, height) && x < width && y < height
  {
    match meta
    case None => DetiledByte(t, plane, x, y, b)
    case Some(grid) =>
      var code := MetaCode(t, grid, width, height, x, y);
      if code == META_ALL_ZERO then 0 else if code == META_ALL_FF then 255 else DetiledByte(t, plane, x, y, b)
  }

  function StrideOf(pitch: nat, cpp: nat, blockWidth: nat): nat
    requires cpp > 0 && blockWidth > 0
  {
    DivModSplit(pitch, 4 * blockWidth * cpp);
    pitch / (4 * blockWidth * cpp)
  }

  function TilingOf(pitch: nat, cpp: nat, highestBankBit: nat, levels: nat, mode: Macrotile, r8g8: bool): Tiling
    requires KnownCpp(cpp)
  {
    Tiling(cpp, mode, highestBankBit, levels, StrideOf(pitch, cpp, BlockWidth(cpp, r8g8)), r8g8)
  }

  /** The detiler: read every byte of the image through the address map, then overwrite the constant blocks. */
  method UbwcDetile(plane: seq<byte>, width: nat, height: nat, pitch: nat, cpp: nat, highestBankBit: nat, levels: nat,
                    mode: Macrotile, r8g8: bool, meta: Option<Grid>) returns (r: Result<array3<byte>>)
    requires highestBankBit >= 3
    ensures r.Ok? <==> KnownCpp(cpp) && width > 0 && height > 0
                       && Covered(TilingOf(pitch, cpp, highestBankBit, levels, mode, r8g8), meta, width, height)
    ensures r.Ok? ==> fresh(r.value) && r.value.Length0 == height && r.value.Length1 == width && r.value.Length2 == cpp
    ensures r.Ok? ==> forall y: nat, x: nat, b: nat :: y < height && x < width && b < cpp ==>
      r.value[y, x, b] == DecodedByte(TilingOf(pitch, cpp, highestBankBit, levels, mode, r8g8), plane, meta, width, height, x, y, b)
  {
    hide Address, TilingOf, KnownCpp, BlockWidth, BlockHeight, GridCovers, BlocksAlong;
    if !KnownCpp(cpp) { return Err; }
    var t := TilingOf(pitch, cpp, highestBankBit, levels, mode, r8g8);
    SameParameters(pitch, cpp, highestBankBit, levels, mode, r8g8);
    if width == 0 || height == 0 || !Covered(t, meta, width, height) { return Err; }
    var out := new byte[height, width, cpp];
    forall y: nat, x: nat, b: nat | y < height && x < width && b < cpp {
      out[y, x, b] := DetiledByte(t, plane, x, y, b);
    }
    if meta.Some? {
      forall y: nat, x: nat, b: nat | y < height && x < width && b < cpp && MetaCode(t, meta.value, width, height, x, y) == META_ALL_ZERO {
        out[y, x, b] := 0;
      }
      forall y: nat, x: nat, b: nat | y < height && x < width && b < cpp && MetaCode(t, meta.value, width, height, x, y) == META_ALL_FF {
        out[y, x, b] := 255;
      }
    }
    r := Ok(out);
  }

  lemma SameParameters(pitch: nat, cpp: nat, highestBankBit: nat, levels: nat, mode: Macrotile, r8g8: bool)
    requires KnownCpp(cpp)
    ensures var t := TilingOf(pitch, cpp, highestBankBit, levels, mode, r8g8);
            t.cpp == cpp && t.highestBankBit == highestBankBit && t.r8g8 == r8g8 && t.levels == levels && t.mode == mode
  {
  }

  /** The stride counts the whole macrotiles, four blocks wide, that a line of `pitch` bytes holds. */
  lemma StrideBounds(pitch: nat, cpp: nat, highestBankBit: nat, levels: nat, mode: Macrotile, r8g8: bool)
    requires KnownCpp(cpp)
    ensures var s, w := TilingOf(pitch, cpp, highestBankBit, levels, mode, r8g8).stride, BlockWidth(cpp, r8g8);
      s * (4 * w * cpp) <= pitch < (s + 1) * (4 * w * cpp)
  {
    hide BlockWidth;
    var d := 4 * BlockWidth(cpp, r8g8) * cpp;
    DivModSplit(pitch, d);
    Successor(pitch / d, d);
  }
}
