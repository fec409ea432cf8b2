/** Whole frames: detiling loses nothing, blocks are contiguous, and the meta plane never overlaps the colours. */
module UbwcFrames {
  import opened Common
  import opened Arith
  import opened UbwcTiling
  import opened UbwcBlock
  import opened UbwcRow
  import opened UbwcPlane
  import opened UbwcBounds
  import opened UbwcDetile

  type Image = seq<seq<seq<byte>>>

  predicate HasShape(img: Image, width: nat, height: nat, cpp: nat) {
    |img| == height
    && (forall y :: 0 <= y < height ==> |img[y]| == width)
    && (forall y, x :: 0 <= y < height && 0 <= x < width ==> |img[y][x]| == cpp)
  }

  /** The plain image read out of a plane, as `ubwc_detile` without meta returns it. */
  function Detiled(t: Tiling, plane: seq<byte>, width: nat, height: nat): Image
    requires KnownCpp(t.cpp) && t.highestBankBit >= 3
  {
    seq(height, (y: nat) => seq(width, (x: nat) => seq(t.cpp, (b: nat) => DetiledByte(t, plane, x, y, b))))
  }

  function PixelByteOf(img: Image, x: nat, y: nat, b: nat): byte {
    if y < |img| && x < |img[y]| && b < |img[y][x]| then img[y][x][b] else 0
  }

  /** A plane holding an image: every byte of the plane takes the byte of the pixel that lives there. */
  function Scatter(t: Tiling, rows: nat, img: Image): seq<byte>
    requires WellFormed(t)
  {
    seq(PlaneSize(t, rows), (o: nat) => var (x, y, b) := Locate(t, o); PixelByteOf(img, x, y, b))
  }

  /** The image fits the plane's columns and rows. */
  predicate Fits(t: Tiling, rows: nat, width: nat, height: nat)
    requires WellFormed(t)
  {
    width <= 4 * t.stride * BlockWidth(t.cpp, t.r8g8) && height <= 4 * rows * BlockHeight(t.cpp, t.r8g8)
  }

  /**
   No pixel byte of a fitting image is read past the plane: the zero padding is never used.  The condition is exact, by
   `UbwcBounds.StaysInPlaneIff`; a clean last row meets it.
   */
  lemma NoPaddingUsed(t: Tiling, rows: nat, width: nat, height: nat, plane: seq<byte>, x: nat, y: nat, b: nat)
    requires WellFormed(t) && !Gapped(t.cpp, t.r8g8) && rows >= 1 && InPlane(t, rows) && Fits(t, rows, width, height)
    requires x < width && y < height && b < t.cpp && |plane| == PlaneSize(t, rows)
    ensures InImage(t, rows, x, y, b)
    ensures Address(t, x, y, b) < |plane| && DetiledByte(t, plane, x, y, b) == plane[Address(t, x, y, b)]
  {
    hide Address, InPlane, BlockWidth, BlockHeight, PlaneSize;
    StaysInPlane(t, rows, x, y, b);
  }

  /** A plane that is too short decodes like the plane with zeros behind it. */
  lemma ShortPlane(t: Tiling, plane: seq<byte>, zeros: seq<byte>, x: nat, y: nat, b: nat)
    requires WellFormed(t) && forall i :: 0 <= i < |zeros| ==> zeros[i] == 0
    ensures DetiledByte(t, plane, x, y, b) == DetiledByte(t, plane + zeros, x, y, b)
    ensures Address(t, x, y, b) >= |plane| ==> DetiledByte(t, plane, x, y, b) == 0
  {
    hide Address;
  }

  /** Detiling a scattered image gives the image back, for every image that fits. */
  lemma DetileScatter(t: Tiling, rows: nat, img: Image, width: nat, height: nat)
    requires WellFormed(t) && !Gapped(t.cpp, t.r8g8) && AllRowsClean(t, rows) && Fits(t, rows, width, height)
    requires HasShape(img, width, height, t.cpp)
    ensures Detiled(t, Scatter(t, rows, img), width, height) == img
  {
    var plane := Scatter(t, rows, img);
    var out := Detiled(t, plane, width, height);
    forall y: nat, x: nat, b: nat | y < height && x < width && b < t.cpp
      ensures out[y][x][b] == img[y][x][b]
    {
      assert rows >= 1 by { hide BlockHeight; }
      hide Address, RowClean, PlacesClean, BlockWidth, BlockHeight, PlaneSize, Locate, Fits, InImage, DetiledByte;
      CleanBits(t, rows - 1);
      NoPaddingUsed(t, rows, width, height, plane, x, y, b);
      LocateAddress(t, rows, x, y, b);
    }
    forall y: nat | y < height ensures out[y] == img[y] {
      forall x: nat | x < width ensures out[y][x] == img[y][x] {
        assert forall b: nat :: b < t.cpp ==> out[y][x][b] == img[y][x][b];
      }
    }
  }

  /** And scattering a full detiled image gives the plane back. */
  lemma ScatterDetile(t: Tiling, rows: nat, plane: seq<byte>)
    requires WellFormed(t) && !Gapped(t.cpp, t.r8g8) && AllRowsClean(t, rows) && |plane| == PlaneSize(t, rows)
    ensures var width, height := 4 * t.stride * BlockWidth(t.cpp, t.r8g8), 4 * rows * BlockHeight(t.cpp, t.r8g8);
      width >= 0 && height >= 0 && Scatter(t, rows, Detiled(t, plane, width, height)) == plane
  {
    hide Address, RowClean, BlockWidth, BlockHeight, PlaneSize, Locate, Fits;
    var width, height := 4 * t.stride * BlockWidth(t.cpp, t.r8g8), 4 * rows * BlockHeight(t.cpp, t.r8g8);
    MulMono(0, 4 * t.stride, BlockWidth(t.cpp, t.r8g8));
    MulMono(0, 4 * rows, BlockHeight(t.cpp, t.r8g8));
    var img := Detiled(t, plane, width, height);
    var again := Scatter(t, rows, img);
    forall o: nat | o < |plane| ensures again[o] == plane[o] {
      AddressLocate(t, rows, o);
      var (x, y, b) := Locate(t, o);
      ScatterAt(t, rows, img, o);
      DetiledAt(t, plane, width, height, x, y, b);
    }
  }

  lemma ScatterAt(t: Tiling, rows: nat, img: Image, o: nat)
    requires WellFormed(t) && o < PlaneSize(t, rows)
    ensures |Scatter(t, rows, img)| == PlaneSize(t, rows)
    ensures var (x, y, b) := Locate(t, o); Scatter(t, rows, img)[o] == PixelByteOf(img, x, y, b)
  {
    hide Locate, PlaneSize, PixelByteOf;
  }

  lemma DetiledAt(t: Tiling, plane: seq<byte>, width: nat, height: nat, x: nat, y: nat, b: nat)
    requires WellFormed(t) && x < width && y < height && b < t.cpp
    ensures PixelByteOf(Detiled(t, plane, width, height), x, y, b) == DetiledByte(t, plane, x, y, b)
  {
    hide DetiledByte;
  }

  /**
   What the pitch means: when it is a whole number of macrotiles, the plane holds `pitch` bytes for every line of pixels, and
   the images that fit are those no wider in bytes and no taller.
   */
  lemma PlaneOfPitch(pitch: nat, cpp: nat, highestBankBit: nat, levels: nat, mode: Macrotile, r8g8: bool, rows: nat, width: nat, height: nat)
    requires KnownCpp(cpp) && !Gapped(cpp, r8g8) && highestBankBit >= 3 && pitch > 0
    requires pitch % (4 * BlockWidth(cpp, r8g8) * cpp) == 0
    ensures var t, lines := TilingOf(pitch, cpp, highestBankBit, levels, mode, r8g8), 4 * rows * BlockHeight(cpp, r8g8);
      && WellFormed(t) && PlaneSize(t, rows) == pitch * lines
      && (Fits(t, rows, width, height) <==> width * cpp <= pitch && height <= lines)
  {
    var w, h := BlockWidth(cpp, r8g8), BlockHeight(cpp, r8g8);
    assert w * h * cpp == 256 by { BlockArea(cpp, r8g8); }
    var t := TilingOf(pitch, cpp, highestBankBit, levels, mode, r8g8);
    StrideBounds(pitch, cpp, highestBankBit, levels, mode, r8g8);
    SameParameters(pitch, cpp, highestBankBit, levels, mode, r8g8);
    hide BlockWidth, BlockHeight, TilingOf, KnownCpp, Gapped;
    var s := t.stride;
    WholeQuotient(pitch, 4 * w * cpp, s);
    PitchArea(s, rows, w, h, cpp);
    WidthInBytes(width, 4 * s * w, cpp);
    assert 4 * s * w * cpp == pitch by { assert 4 * s * w * cpp == s * (4 * w * cpp); }
  }

  lemma WholeQuotient(a: nat, d: nat, q: nat)
    requires d > 0 && a % d == 0 && a > 0 && q * d <= a < (q + 1) * d
    ensures a == q * d && q > 0
  {
    DivModSplit(a, d);
    var p := a / d;
    if p < q { MulMono(p + 1, q, d); Successor(p, d); }
    if q < p { MulMono(q + 1, p, d); }
  }

  lemma PitchArea(s: nat, rows: nat, w: nat, h: nat, cpp: nat)
    requires w * h * cpp == 256
    ensures s * (4 * w * cpp) * (4 * rows * h) == rows * (s * 4096)
  {
    var a := rows * s;
    assert s * (4 * w * cpp) * (4 * rows * h) == 16 * a * (w * h * cpp);
  }

  lemma WidthInBytes(width: nat, most: nat, cpp: nat)
    requires cpp > 0
    ensures width <= most <==> width * cpp <= most * cpp
  {
    if width <= most { MulMono(width, most, cpp); } else { MulMono(most + 1, width, cpp); Successor(most, cpp); }
  }

  // ---- the output of a full image is a permutation of the plane ----

  /** The elements of `p` at the positions `idx`. */
  function Gather<T>(p: seq<T>, idx: seq<nat>): (s: seq<T>)
    requires forall i :: 0 <= i < |idx| ==> idx[i] < |p|
    ensures |s| == |idx| && forall i :: 0 <= i < |idx| ==> s[i] == p[idx[i]]
  {
    seq(|idx|, (i: nat) requires i < |idx| && idx[i] < |p| => p[idx[i]])
  }

  predicate Permutes(idx: seq<nat>, n: nat) {
    && |idx| == n
    && (forall i :: 0 <= i < n ==> idx[i] < n)
    && (forall i, j :: 0 <= i < j < n ==> idx[i] != idx[j])
    && (forall v: nat :: v < n ==> v in idx)
  }

  lemma {:induction false} GatherIsPermutation<T>(p: seq<T>, idx: seq<nat>)
    requires Permutes(idx, |p|)
    ensures multiset(Gather(p, idx)) == multiset(p)
  {
    if p == [] {
      assert Gather(p, idx) == [];
    } else {
      var n := |p| - 1;
      assert n in idx;
      var j :| 0 <= j < |idx| && idx[j] == n;
      var front, rest := p[..n], idx[..j] + idx[j + 1..];
      Removed(idx, j, n);
      GatherIsPermutation(front, rest);
      GatherSkips(p, idx, j);
    }
  }

  /** Leaving out the position of the last element leaves out the last element. */
  lemma GatherSkips<T>(p: seq<T>, idx: seq<nat>, j: nat)
    requires p != [] && Permutes(idx, |p|) && j < |idx| && idx[j] == |p| - 1
    requires Permutes(idx[..j] + idx[j + 1..], |p| - 1)
    requires multiset(Gather(p[..|p| - 1], idx[..j] + idx[j + 1..])) == multiset(p[..|p| - 1])
    ensures multiset(Gather(p, idx)) == multiset(p)
  {
    hide Permutes;
    var n := |p| - 1;
    var front, rest := p[..n], idx[..j] + idx[j + 1..];
    InRange(idx, |p|);
    var g := Gather(p, idx);
    var a, b := g[..j], g[j + 1..];
    SkippedElements(p, idx, j);
    assert g == a + ([p[n]] + b);
    assert p == front + ([p[n]] + []);
    OneMore(a, p[n], b);
    OneMore(front, p[n], []);
    assert front + [] == front;
  }

  lemma OneMore<T>(a: seq<T>, x: T, b: seq<T>)
    ensures multiset(a + ([x] + b)) == multiset(a + b) + multiset{x}
  {
    assert multiset(a + ([x] + b)) == multiset(a) + (multiset{x} + multiset(b));
    assert multiset(a + b) == multiset(a) + multiset(b);
  }

  lemma InRange(idx: seq<nat>, n: nat)
    requires Permutes(idx, n)
    ensures |idx| == n && forall i :: 0 <= i < n ==> idx[i] < n
  {
  }

  lemma SkippedElements<T>(p: seq<T>, idx: seq<nat>, j: nat)
    requires p != [] && Permutes(idx, |p|) && j < |idx| && idx[j] == |p| - 1
    requires Permutes(idx[..j] + idx[j + 1..], |p| - 1)
    ensures var g := Gather(p, idx);
            Gather(p[..|p| - 1], idx[..j] + idx[j + 1..]) == g[..j] + g[j + 1..]
  {
  }

  lemma Removed(idx: seq<nat>, j: nat, n: nat)
    requires Permutes(idx, n + 1) && j <= n && idx[j] == n
    ensures Permutes(idx[..j] + idx[j + 1..], n)
  {
    var rest := idx[..j] + idx[j + 1..];
    forall i | 0 <= i < n ensures rest[i] < n { assert rest[i] == idx[if i < j then i else i + 1]; }
    forall v: nat | v < n ensures v in rest {
      assert v in idx;
      var i :| 0 <= i < |idx| && idx[i] == v;
      assert i < j ==> rest[i] == v;
      assert i > j ==> rest[i - 1] == v;
    }
  }

  /** Position `i` of the flattened output is pixel (i / cpp) % width of line i / cpp / width, byte i % cpp. */
  function FlatAddress(t: Tiling, width: nat, i: nat): nat
    requires WellFormed(t) && width > 0
  {
    DivModSplit(i, t.cpp);
    DivModSplit(i / t.cpp, width);
    Address(t, (i / t.cpp) % width, i / t.cpp / width, i % t.cpp)
  }

  /** The output array in memory order. */
  function Flattened(t: Tiling, plane: seq<byte>, width: nat, height: nat): seq<byte>
    requires WellFormed(t) && width > 0
  {
    seq(height * width * t.cpp, (i: nat) => PlaneByte(plane, FlatAddress(t, width, i)))
  }

  lemma FullSize(t: Tiling, rows: nat)
    requires WellFormed(t) && !Gapped(t.cpp, t.r8g8)
    ensures var width, height := 4 * t.stride * BlockWidth(t.cpp, t.r8g8), 4 * rows * BlockHeight(t.cpp, t.r8g8);
      width > 0 && height >= 0 && height * width * t.cpp == PlaneSize(t, rows)
  {
    var w, h := BlockWidth(t.cpp, t.r8g8), BlockHeight(t.cpp, t.r8g8);
    var s, cpp := t.stride, t.cpp;
    assert w * h * cpp == 256 by { BlockArea(cpp, t.r8g8); }
    hide BlockWidth, BlockHeight;
    MulMono(1, 4 * s, w);
    MulMono(0, 4 * rows, h);
    SixFactors(s, rows, w, h, cpp);
  }

  lemma BlockArea(cpp: nat, r8g8: bool)
    requires KnownCpp(cpp) && !Gapped(cpp, r8g8)
    ensures BlockWidth(cpp, r8g8) * BlockHeight(cpp, r8g8) * cpp == 256
  {
  }

  lemma SixFactors(s: nat, rows: nat, w: nat, h: nat, cpp: nat)
    requires w * h * cpp == 256
    ensures (4 * rows * h) * (4 * s * w) * cpp == rows * (s * 4096)
  {
    var a := rows * s;
    assert (4 * rows * h) * (4 * s * w) == 16 * a * (w * h);
    assert 16 * a * (w * h) * cpp == 16 * a * (w * h * cpp);
  }

  /** A flat position and its coordinates determine each other. */
  lemma FlatCoordinates(width: nat, height: nat, cpp: nat, i: nat)
    requires width > 0 && cpp > 0 && i < height * width * cpp
    ensures (i / cpp) % width < width && 0 <= i / cpp / width < height && i % cpp < cpp
    ensures i == (i / cpp / width * width + (i / cpp) % width) * cpp + i % cpp
  {
    DivModSplit(i, cpp);
    RowOf(i, cpp, height * width);
    DivModSplit(i / cpp, width);
    RowOf(i / cpp, width, height);
  }

  lemma FlatPosition(width: nat, height: nat, cpp: nat, x: nat, y: nat, b: nat) returns (i: nat)
    requires x < width && y < height && b < cpp
    ensures i < height * width * cpp
    ensures (i / cpp) % width == x && i / cpp / width == y && i % cpp == b
  {
    RowFits(y, x, width, height);
    var p := y * width + x;
    RowFits(p, b, cpp, height * width);
    i := p * cpp + b;
    DivModUnique(cpp, p, b);
    DivModUnique(width, y, x);
  }

  /** For a full-size image the output bytes are the plane's bytes in another order. */
  lemma FullImagePermutes(t: Tiling, rows: nat, plane: seq<byte>)
    requires WellFormed(t) && !Gapped(t.cpp, t.r8g8) && AllRowsClean(t, rows) && |plane| == PlaneSize(t, rows)
    ensures var width, height := 4 * t.stride * BlockWidth(t.cpp, t.r8g8), 4 * rows * BlockHeight(t.cpp, t.r8g8);
      width > 0 && height >= 0 && multiset(Flattened(t, plane, width, height)) == multiset(plane)
  {
    hide Address, RowClean, PlaneSize, FlatAddress, BlockWidth, BlockHeight;
    FullSize(t, rows);
    var width, height := 4 * t.stride * BlockWidth(t.cpp, t.r8g8), 4 * rows * BlockHeight(t.cpp, t.r8g8);
    var idx := seq(|plane|, (i: nat) => FlatAddress(t, width, i));
    FlatAddressesPermute(t, rows, width, height, idx);
    GatherIsPermutation(plane, idx);
    assert Flattened(t, plane, width, height) == Gather(plane, idx);
  }

  lemma FlatAddressesPermute(t: Tiling, rows: nat, width: nat, height: nat, idx: seq<nat>)
    requires WellFormed(t) && !Gapped(t.cpp, t.r8g8) && AllRowsClean(t, rows)
    requires width == 4 * t.stride * BlockWidth(t.cpp, t.r8g8) && height == 4 * rows * BlockHeight(t.cpp, t.r8g8) && width > 0
    requires |idx| == PlaneSize(t, rows) == height * width * t.cpp
    requires forall i: nat :: i < |idx| ==> idx[i] == FlatAddress(t, width, i)
    ensures Permutes(idx, PlaneSize(t, rows))
  {
    hide Address, RowClean, PlaneSize, BlockWidth, BlockHeight, Locate;
    var n := |idx|;
    forall i: nat | i < n
      ensures idx[i] < n
      ensures var (x, y, b) := Locate(t, idx[i]); x == (i / t.cpp) % width && y == i / t.cpp / width && b == i % t.cpp
    {
      FlatCoordinates(width, height, t.cpp, i);
      LocateAddress(t, rows, (i / t.cpp) % width, i / t.cpp / width, i % t.cpp);
    }
    forall i: nat, j: nat | i < j < n
      ensures idx[i] != idx[j]
    {
      FlatCoordinates(width, height, t.cpp, i);
      FlatCoordinates(width, height, t.cpp, j);
    }
    forall v: nat | v < n
      ensures v in idx
    {
      AddressLocate(t, rows, v);
      var (x, y, b) := Locate(t, v);
      var i := FlatPosition(width, height, t.cpp, x, y, b);
      assert idx[i] == v;
    }
  }

  /** The flattened output is the image, line by line, pixel by pixel. */
  lemma FlattenedIsImage(t: Tiling, plane: seq<byte>, width: nat, height: nat, i: nat)
    requires WellFormed(t) && width > 0 && i < height * width * t.cpp
    ensures 0 <= i / t.cpp / width < height && (i / t.cpp) % width < width && i % t.cpp < t.cpp
    ensures i < |Flattened(t, plane, width, height)|
    ensures Flattened(t, plane, width, height)[i]
         == Detiled(t, plane, width, height)[i / t.cpp / width][(i / t.cpp) % width][i % t.cpp]
  {
    hide Address, PlaneByte;
    FlatCoordinates(width, height, t.cpp, i);
  }

  // ---- a block's pixels are one contiguous span ----

  /** The pixels of block (xb, yb) occupy exactly [base, base + 256). */
  lemma BlockIsSpan(t: Tiling, xb: nat, yb: nat, o: nat)
    requires WellFormed(t) && !Gapped(t.cpp, t.r8g8)
    ensures var base := BlockBaseOffset(t, xb, yb);
      base <= o < base + 256
      <==> exists px: nat, py: nat, b: nat :: InBlock(t.cpp, t.r8g8, px, py, b) && o == PixelAddress(t, xb, yb, px, py, b)
  {
    hide BlockBaseOffset, InBlock, PixelByte, PixelAt, PixelAddress;
    var base := BlockBaseOffset(t, xb, yb);
    forall px: nat, py: nat, b: nat | InBlock(t.cpp, t.r8g8, px, py, b)
      ensures base <= PixelAddress(t, xb, yb, px, py, b) < base + 256
    {
      PixelByteInSpan(t.cpp, t.r8g8, px, py, b);
      PixelAddressIs(t, xb, yb, px, py, b);
    }
    if base <= o < base + 256 {
      SpanCovered(t.cpp, t.r8g8, o - base);
      var (px, py, b) := PixelAt(t.cpp, o - base);
      PixelAddressIs(t, xb, yb, px, py, b);
      assert o == PixelAddress(t, xb, yb, px, py, b);
    }
  }

  /** Address of a pixel given by its block and its place in the block. */
  function PixelAddress(t: Tiling, xb: nat, yb: nat, px: nat, py: nat, b: nat): nat
    requires WellFormed(t)
  {
    Address(t, Join(xb, BlockWidth(t.cpp, t.r8g8), px), Join(yb, BlockHeight(t.cpp, t.r8g8), py), b)
  }

  lemma PixelAddressIs(t: Tiling, xb: nat, yb: nat, px: nat, py: nat, b: nat)
    requires WellFormed(t) && InBlock(t.cpp, t.r8g8, px, py, b)
    ensures PixelAddress(t, xb, yb, px, py, b) == BlockBaseOffset(t, xb, yb) + PixelByte(t.cpp, px, py, b)
  {
    hide BlockBaseOffset, PixelByte, BlockWidth, BlockHeight, InBlock;
    InBlockFacts(t, px, py, b);
    DivModUnique(BlockWidth(t.cpp, t.r8g8), xb, px);
    DivModUnique(BlockHeight(t.cpp, t.r8g8), yb, py);
  }

  /** Spans of different blocks of a clean plane do not overlap. */
  lemma SpansDisjoint(t: Tiling, rows: nat, xb: nat, yb: nat, xb': nat, yb': nat)
    requires WellFormed(t) && AllRowsClean(t, rows)
    requires xb < 4 * t.stride && xb' < 4 * t.stride && yb / 4 < rows && yb' / 4 < rows
    requires (xb, yb) != (xb', yb')
    ensures var a, b := BlockBaseOffset(t, xb, yb), BlockBaseOffset(t, xb', yb'); a + 256 <= b || b + 256 <= a
  {
    hide BlockBaseOffset, BlockIndex, RowClean, PlacesClean, BlockAt;
    BaseIsMultiple(t, rows, xb, yb);
    BaseIsMultiple(t, rows, xb', yb');
    CleanBits(t, yb / 4);
    CleanBits(t, yb' / 4);
    BlockRoundTrip(t, xb, yb);
    BlockRoundTrip(t, xb', yb');
    var c, c' := BlockIndex(t, xb, yb), BlockIndex(t, xb', yb');
    var m := 16 * t.stride;
    DivModUnique(m, yb / 4, c);
    DivModUnique(m, yb' / 4, c');
  }

  lemma BaseIsMultiple(t: Tiling, rows: nat, xb: nat, yb: nat)
    requires WellFormed(t) && AllRowsClean(t, rows) && xb < 4 * t.stride && yb / 4 < rows
    ensures BlockIndex(t, xb, yb) < 16 * t.stride
    ensures BlockBaseOffset(t, xb, yb) == 256 * (yb / 4 * (16 * t.stride) + BlockIndex(t, xb, yb))
  {
    hide BlockIndex, RowClean, PlacesClean, BlockOffset, ByteBank;
    BlockOffsetSplit(t, xb, yb);
    CleanBits(t, yb / 4);
    IndexInRow(t, xb, yb);
    assert yb / 4 * RowSize(t) == 256 * (yb / 4 * (16 * t.stride));
  }

  // ---- the meta plane ----

  function Align(v: nat, a: nat): nat
    requires a > 0
  {
    (v + a - 1) / a * a
  }

  lemma AlignUp(v: nat, a: nat)
    requires a > 0
    ensures Align(v, a) % a == 0 && v <= Align(v, a) < v + a
  {
    var q := (v + a - 1) / a;
    DivModSplit(v + a - 1, a);
    DivModUnique(a, q, 0);
  }

  datatype MetaPlane = MetaPlane(size: nat, pitch: nat, height: nat)

  function ComputeMetaPlaneSize(width: nat, height: nat, cpp: nat, r8g8: bool): Result<MetaPlane> {
    match GetBlockSize(cpp, r8g8)
    case Err => Err
    case Ok((w, h)) =>
      var pitch := Align(BlocksAlong(width, w), 64);
      var metaHeight := Align(BlocksAlong(height, h), 16);
      MulMono(0, pitch, metaHeight);
      Ok(MetaPlane(Align(pitch * metaHeight, 4096), pitch, metaHeight))
  }

  /** An aligned number of blocks, told in pixels. */
  lemma JustEnough(length: nat, block: nat, aligned: nat, a: nat)
    requires block > 0 && BlocksAlong(length, block) <= aligned < BlocksAlong(length, block) + a
    ensures length <= aligned * block < length + a * block
  {
    hide BlocksAlong;
    BlocksCount(length, block);
    var n := BlocksAlong(length, block);
    MulMono(n, aligned, block);
    MulMono(aligned, n + (a - 1), block);
    assert (n + (a - 1)) * block == n * block + (a - 1) * block;
    Successor(a - 1, block);
  }

  /** The meta plane has one byte for every block, in aligned lines, and ends on the 4K page where the colours start. */
  lemma MetaPlaneCovers(width: nat, height: nat, cpp: nat, r8g8: bool)
    requires KnownCpp(cpp)
    ensures var r := ComputeMetaPlaneSize(width, height, cpp, r8g8);
      && r.Ok?
      && var MetaPlane(size, pitch, metaHeight) := r.value;
      && size % 4096 == 0 && pitch % 64 == 0 && metaHeight % 16 == 0
      && BlocksAlong(width, BlockWidth(cpp, r8g8)) <= pitch < BlocksAlong(width, BlockWidth(cpp, r8g8)) + 64
      && BlocksAlong(height, BlockHeight(cpp, r8g8)) <= metaHeight < BlocksAlong(height, BlockHeight(cpp, r8g8)) + 16
      && pitch * metaHeight <= size < pitch * metaHeight + 4096
      && width <= pitch * BlockWidth(cpp, r8g8) < width + 64 * BlockWidth(cpp, r8g8)
      && height <= metaHeight * BlockHeight(cpp, r8g8) < height + 16 * BlockHeight(cpp, r8g8)
  {
    hide BlocksAlong, Align;
    AlignUp(BlocksAlong(width, BlockWidth(cpp, r8g8)), 64);
    AlignUp(BlocksAlong(height, BlockHeight(cpp, r8g8)), 16);
    var MetaPlane(size, pitch, metaHeight) := ComputeMetaPlaneSize(width, height, cpp, r8g8).value;
    AlignUp(pitch * metaHeight, 4096);
    JustEnough(width, BlockWidth(cpp, r8g8), pitch, 64);
    JustEnough(height, BlockHeight(cpp, r8g8), metaHeight, 16);
  }
}
