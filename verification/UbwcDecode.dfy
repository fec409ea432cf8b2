/** `decode_frame`: a captured frame is a meta plane followed by a tiled colour plane. */
module UbwcDecode {
  import opened Common
  import opened Arith
  import opened UbwcTiling
  import opened UbwcPlane
  import opened UbwcDetile
  import opened UbwcFrames

  /** Lines of `pitch` bytes, trimmed to the real blocks. */
  function Trimmed(payload: seq<byte>, pitch: nat, lines: nat, blocksW: nat, blocksH: nat): Grid
    requires blocksW <= pitch && blocksH <= lines && pitch * lines <= |payload|
  {
    seq(blocksH, (j: nat) requires j < blocksH =>
      LineFits(pitch, lines, j); payload[j * pitch..j * pitch + blocksW])
  }

  lemma LineFits(pitch: nat, lines: nat, j: nat)
    requires j < lines
    ensures 0 <= j * pitch && j * pitch + pitch <= pitch * lines
  {
    MulMono(0, j, pitch);
    MulMono(j + 1, lines, pitch);
    Successor(j, pitch);
  }

  /** The meta bytes of the real blocks, one line of blocks per row, and the start of the colour plane. */
  function MetaGrid(payload: seq<byte>, width: nat, height: nat, cpp: nat): Result<(Grid, nat)> {
    if !KnownCpp(cpp) then Err
    else
      MetaPlaneCovers(width, height, cpp, false);
      var MetaPlane(size, pitch, lines) := ComputeMetaPlaneSize(width, height, cpp, false).value;
      if |payload| < pitch * lines then Err
      else Ok((Trimmed(payload, pitch, lines, BlocksAlong(width, BlockWidth(cpp, false)), BlocksAlong(height, BlockHeight(cpp, false))), size))
  }

  function At(s: seq<byte>, i: int): byte { if 0 <= i < |s| then s[i] else 0 }

  /** Position of a pixel's meta byte in the frame. */
  function CodePosition(t: Tiling, pitch: nat, x: nat, y: nat): int
    requires KnownCpp(t.cpp)
  {
    (y / BlockHeight(t.cpp, t.r8g8)) * pitch + x / BlockWidth(t.cpp, t.r8g8)
  }

  /** What a byte of a captured frame decodes to, told from the frame's bytes alone. */
  function FrameByte(t: Tiling, raw: seq<byte>, plane: MetaPlane, x: nat, y: nat, b: nat): byte
    requires KnownCpp(t.cpp) && t.highestBankBit >= 3 && plane.size <= |raw|
  {
    var code := At(raw, CodePosition(t, plane.pitch, x, y));
    if code == META_ALL_ZERO then 0 else if code == META_ALL_FF then 255 else DetiledByte(t, raw[plane.size..], x, y, b)
  }

  /** The meta byte of every pixel of the image lies in the meta plane. */
  lemma CodeInMetaPlane(t: Tiling, width: nat, height: nat, x: nat, y: nat)
    requires KnownCpp(t.cpp) && !t.r8g8 && x < width && y < height
    ensures var r := ComputeMetaPlaneSize(width, height, t.cpp, false);
      && r.Ok? && 0 <= CodePosition(t, r.value.pitch, x, y) < r.value.pitch * r.value.height <= r.value.size
  {
    hide BlocksAlong, BlockWidth, BlockHeight, ComputeMetaPlaneSize;
    MetaPlaneCovers(width, height, t.cpp, false);
    var MetaPlane(size, pitch, metaHeight) := ComputeMetaPlaneSize(width, height, t.cpp, false).value;
    var w, h := BlockWidth(t.cpp, false), BlockHeight(t.cpp, false);
    BlockInGrid(x, width, w);
    BlockInGrid(y, height, h);
    DivModSplit(x, w);
    DivModSplit(y, h);
    RowFits(y / h, x / w, pitch, metaHeight);
  }

  /**
   How the meta bytes are laid out: the first block's comes first, all pixels of a block share one, the block to the right
   has the next byte and the block below the byte one line on.
   */
  lemma CodesInOrder(t: Tiling, pitch: nat, x: nat, y: nat)
    requires KnownCpp(t.cpp)
    ensures var w, h := BlockWidth(t.cpp, t.r8g8), BlockHeight(t.cpp, t.r8g8);
      && (x < w && y < h ==> CodePosition(t, pitch, x, y) == 0)
      && CodePosition(t, pitch, x + w, y) == CodePosition(t, pitch, x, y) + 1
      && CodePosition(t, pitch, x, y + h) == CodePosition(t, pitch, x, y) + pitch
  {
    hide BlockWidth, BlockHeight;
    var w, h := BlockWidth(t.cpp, t.r8g8), BlockHeight(t.cpp, t.r8g8);
    DivStep(x, w);
    DivStep(y, h);
    if x < w && y < h { DivSmall(x, w); DivSmall(y, h); }
    Successor(y / h, pitch);
  }

  lemma DivSmall(v: nat, d: nat)
    requires v < d
    ensures v / d == 0
  {
  }

  lemma DivStep(v: nat, d: nat)
    requires d > 0
    ensures (v + d) / d == v / d + 1
  {
    DivModSplit(v, d);
    Successor(v / d, d);
    DivModUnique(d, v / d + 1, v % d);
  }

  method DecodeFrame(raw: seq<byte>, width: nat, height: nat, pitch: nat, cpp: nat, highestBankBit: nat, levels: nat,
                     mode: Macrotile) returns (r: Result<array3<byte>>)
    requires highestBankBit >= 3
    ensures r.Ok? <==> KnownCpp(cpp) && width > 0 && height > 0
                       && |raw| > ComputeMetaPlaneSize(width, height, cpp, false).value.size
    ensures r.Ok? ==> fresh(r.value) && r.value.Length0 == height && r.value.Length1 == width && r.value.Length2 == cpp
    ensures r.Ok? ==> forall y: nat, x: nat, b: nat :: y < height && x < width && b < cpp ==>
      r.value[y, x, b] == FrameByte(TilingOf(pitch, cpp, highestBankBit, levels, mode, false), raw,
                                    ComputeMetaPlaneSize(width, height, cpp, false).value, x, y, b)
  {
    hide DetiledByte, BlocksAlong, KnownCpp, BlockWidth, BlockHeight, Align, TilingOf, At, CodePosition, DecodedByte, MetaGrid,
         ComputeMetaPlaneSize, FrameByte;
    var grid := MetaGrid(raw, width, height, cpp);
    GridOutcome(raw, width, height, cpp);
    if grid.Err? { return Err; }
    var (meta, size) := grid.value;
    ghost var plane := ComputeMetaPlaneSize(width, height, cpp, false).value;
    if |raw| <= size { return Err; }
    var t := TilingOf(pitch, cpp, highestBankBit, levels, mode, false);
    SameParameters(pitch, cpp, highestBankBit, levels, mode, false);
    r := UbwcDetile.UbwcDetile(raw[size..], width, height, pitch, cpp, highestBankBit, levels, mode, false, Some(meta));
    if r.Ok? {
      forall y: nat, x: nat, b: nat | y < height && x < width && b < cpp
        ensures r.value[y, x, b] == FrameByte(t, raw, plane, x, y, b)
      {
        DecodedIsFrameByte(t, raw, meta, plane, width, height, x, y, b);
      }
    } else if width > 0 && height > 0 {
      GridAlwaysCovers(t, raw, meta, plane, width, height);
    }
  }

  lemma GridAlwaysCovers(t: Tiling, raw: seq<byte>, meta: Grid, plane: MetaPlane, width: nat, height: nat)
    requires KnownCpp(t.cpp) && !t.r8g8 && t.highestBankBit >= 3 && width > 0 && height > 0
    requires ComputeMetaPlaneSize(width, height, t.cpp, false) == Ok(plane)
    requires MetaGrid(raw, width, height, t.cpp) == Ok((meta, plane.size)) && plane.size <= |raw|
    ensures Covered(t, Some(meta), width, height)
  {
    hide ComputeMetaPlaneSize, MetaGrid, Covered;
    KnownCppPositive(t.cpp);
    DecodedIsFrameByte(t, raw, meta, plane, width, height, 0, 0, 0);
  }

  lemma KnownCppPositive(cpp: nat)
    requires KnownCpp(cpp)
    ensures cpp > 0
  {
  }

  lemma GridOutcome(raw: seq<byte>, width: nat, height: nat, cpp: nat)
    ensures var grid, plane := MetaGrid(raw, width, height, cpp), ComputeMetaPlaneSize(width, height, cpp, false);
      && (KnownCpp(cpp) <==> plane.Ok?)
      && (grid.Ok? ==> plane.Ok? && grid.value.1 == plane.value.size)
      && (plane.Ok? && |raw| >= plane.value.size ==> grid.Ok?)
  {
    if KnownCpp(cpp) { MetaPlaneCovers(width, height, cpp, false); }
  }

  lemma DecodedIsFrameByte(t: Tiling, raw: seq<byte>, meta: Grid, plane: MetaPlane, width: nat, height: nat, x: nat, y: nat, b: nat)
    requires KnownCpp(t.cpp) && t.highestBankBit >= 3 && !t.r8g8 && x < width && y < height && b < t.cpp
    requires ComputeMetaPlaneSize(width, height, t.cpp, false) == Ok(plane)
    requires MetaGrid(raw, width, height, t.cpp) == Ok((meta, plane.size)) && plane.size <= |raw|
    ensures Covered(t, Some(meta), width, height)
    ensures DecodedByte(t, raw[plane.size..], Some(meta), width, height, x, y, b) == FrameByte(t, raw, plane, x, y, b)
  {
    hide DetiledByte, BlocksAlong, BlockWidth, BlockHeight, ComputeMetaPlaneSize, At, Trimmed;
    var w, h := BlockWidth(t.cpp, false), BlockHeight(t.cpp, false);
    var blocksW, blocksH := BlocksAlong(width, w), BlocksAlong(height, h);
    MetaPlaneCovers(width, height, t.cpp, false);
    BlockInGrid(x, width, w);
    BlockInGrid(y, height, h);
    DivModSplit(x, w);
    DivModSplit(y, h);
    TrimmedAt(raw, plane.pitch, plane.height, blocksW, blocksH, x / w, y / h);
  }

  lemma TrimmedAt(payload: seq<byte>, pitch: nat, lines: nat, blocksW: nat, blocksH: nat, i: nat, j: nat)
    requires blocksW <= pitch && blocksH <= lines && pitch * lines <= |payload| && i < blocksW && j < blocksH
    ensures var grid := Trimmed(payload, pitch, lines, blocksW, blocksH);
            GridCovers(grid, blocksW, blocksH) && grid[j][i] == At(payload, j * pitch + i)
  {
    var grid := Trimmed(payload, pitch, lines, blocksW, blocksH);
    forall k | 0 <= k < blocksH ensures |grid[k]| == blocksW { LineFits(pitch, lines, k); }
    LineFits(pitch, lines, j);
  }

  /**
   Encode and decode: if the colour part of a frame holds an image that fits, decoding returns each of its bytes,
   except in the blocks whose meta byte says "all zero" or "all 0xFF".
   */
  lemma FrameRoundTrip(t: Tiling, rows: nat, img: Image, width: nat, height: nat, raw: seq<byte>, x: nat, y: nat, b: nat)
    requires WellFormed(t) && !t.r8g8 && AllRowsClean(t, rows) && Fits(t, rows, width, height)
    requires HasShape(img, width, height, t.cpp) && x < width && y < height && b < t.cpp
    requires var plane := ComputeMetaPlaneSize(width, height, t.cpp, false).value;
             plane.size <= |raw| && raw[plane.size..] == Scatter(t, rows, img)
    ensures var plane := ComputeMetaPlaneSize(width, height, t.cpp, false).value;
            var p := CodePosition(t, plane.pitch, x, y);
      && 0 <= p < plane.size
      && FrameByte(t, raw, plane, x, y, b) == if raw[p] == 0x05 then 0 else if raw[p] == 0x0D then 255 else img[y][x][b]
  {
    hide Address, RowClean, BlockWidth, BlockHeight, PlaneSize, Locate, Fits, InImage, ComputeMetaPlaneSize, Scatter, CodePosition, DetiledByte;
    CodeInMetaPlane(t, width, height, x, y);
    DetileScatter(t, rows, img, width, height);
    var plane := ComputeMetaPlaneSize(width, height, t.cpp, false).value;
    assert Detiled(t, raw[plane.size..], width, height)[y][x][b] == DetiledByte(t, raw[plane.size..], x, y, b);
  }
}
