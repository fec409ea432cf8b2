/**
 Inside one compression block: `get_pixel_offset` interleaves the coordinate bits, and the bytes of a
 block's pixels fill its 256-byte span exactly once, except for the 16x8 block of r8g8.
 */
module UbwcBlock {
  import opened Bits
  import opened UbwcTiling

  // ---- numbers as bit strings, lowest bit first ----

  function Digits(x: nat, n: nat): (bs: seq<nat>)
    ensures |bs| == n && forall i :: 0 <= i < n ==> bs[i] < 2
  {
    if n == 0 then [] else [x % 2] + Digits(x / 2, n - 1)
  }

  function Value(bs: seq<nat>): nat {
    if bs == [] then 0 else bs[0] + 2 * Value(bs[1..])
  }

  predicate Binary(bs: seq<nat>) { forall i :: 0 <= i < |bs| ==> bs[i] < 2 }

  lemma {:induction false} DigitsOfValue(bs: seq<nat>)
    requires Binary(bs)
    ensures Digits(Value(bs), |bs|) == bs
  {
    if bs == [] {
    } else {
      DigitsOfValue(bs[1..]);
    }
  }

  lemma {:induction false} ValueOfDigits(x: nat, n: nat)
    requires x < Pow2(n)
    ensures Value(Digits(x, n)) == x
  {
    if n == 0 {
    } else {
      ValueOfDigits(x / 2, n - 1);
      assert Digits(x, n)[1..] == Digits(x / 2, n - 1);
    }
  }

  /** A number is below 2^k exactly when its bits from k on are zero. */
  lemma {:induction false} SmallIffHighZero(bs: seq<nat>, k: nat)
    requires Binary(bs)
    ensures Value(bs) < Pow2(k) <==> forall i :: k <= i < |bs| ==> bs[i] == 0
  {
    if bs == [] {
    } else {
      if k > 0 {
        SmallIffHighZero(bs[1..], k - 1);
        assert forall i :: k <= i < |bs| ==> bs[i] == bs[1..][i - 1];
        assert forall i :: k - 1 <= i < |bs| - 1 ==> bs[1..][i] == bs[i + 1];
      } else {
        SmallIffHighZero(bs[1..], 0);
        assert forall i :: 1 <= i < |bs| ==> bs[i] == bs[1..][i - 1];
        assert forall i :: 0 <= i < |bs| - 1 ==> bs[1..][i] == bs[i + 1];
      }
    }
  }

  // ---- the fields the source selects ----

  lemma {:induction false} AndOne(x: nat)
    ensures And(x, 1) == x % 2
  {
    Unfold(AndOp, x, 1);
    Zero(x / 2);
  }

  lemma AndDouble(x: nat, m: nat)
    ensures And(x, 2 * m) == 2 * And(x / 2, m)
  {
    Unfold(AndOp, x, 2 * m);
  }

  lemma AndOdd(x: nat, m: nat)
    ensures And(x, 2 * m + 1) == x % 2 + 2 * And(x / 2, m)
  {
    Unfold(AndOp, x, 2 * m + 1);
    assert (2 * m + 1) / 2 == m && (2 * m + 1) % 2 == 1;
  }

  /** Fields of a number in terms of its bits x0, x1, ... */
  lemma Fields(x: nat)
    ensures And(x, 1) == x % 2
    ensures And(x, 2) == 2 * (x / 2 % 2)
    ensures And(x, 4) == 4 * (x / 2 / 2 % 2)
    ensures And(x, 6) == 2 * (x / 2 % 2) + 4 * (x / 2 / 2 % 2)
  {
    AndOne(x);
    AndOne(x / 2);
    AndOne(x / 2 / 2);
    AndDouble(x, 1);
    AndDouble(x, 2);
    AndDouble(x / 2, 1);
    AndDouble(x, 3);
    AndOdd(x / 2, 1);
  }

  lemma {:induction false} WideField(x: nat)
    ensures And(x, 0x1C) == 4 * Value(Digits(x / 2 / 2, 3))
  {
    var h := x / 2 / 2;
    AndDouble(x, 14);
    AndDouble(x / 2, 7);
    AndOdd(h, 3);
    AndOdd(h / 2, 1);
    AndOne(h / 2 / 2);
    DigitsThree(h);
  }

  lemma {:induction false} DigitsThree(h: nat)
    ensures Digits(h, 3) == [h % 2, h / 2 % 2, h / 2 / 2 % 2]
    ensures Value(Digits(h, 3)) == h % 2 + 2 * (h / 2 % 2) + 4 * (h / 2 / 2 % 2)
  {
    assert Digits(h / 2 / 2, 1) == [h / 2 / 2 % 2] + Digits(h / 2 / 2 / 2, 0);
    assert Digits(h / 2, 2) == [h / 2 % 2] + Digits(h / 2 / 2, 1);
    ValueThree(h % 2, h / 2 % 2, h / 2 / 2 % 2);
  }

  lemma ValueThree(a: nat, b: nat, c: nat)
    ensures Value([a, b, c]) == a + 2 * b + 4 * c
  {
    ValueStep([a, b, c]);
    ValueStep([b, c]);
    ValueStep([c]);
    assert [a, b, c][1..] == [b, c] && [b, c][1..] == [c] && [c][1..] == [];
  }

  lemma {:induction false} ValueStep(bs: seq<nat>)
    requires bs != []
    ensures Value(bs) == bs[0] + 2 * Value(bs[1..])
  {
  }

  lemma {:induction false} OrField(acc: nat, k: nat, field: nat)
    requires acc < Pow2(k)
    ensures Or(acc, Shl(field, k)) == acc + Shl(field, k)
  {
    Disjoint(OrOp, k, field, acc);
  }

  /** The `|` chain over six disjoint fields is their sum. */
  lemma {:induction false} OrChain(a: nat, b: nat, c: nat, d: nat, e: nat, f: nat)
    requires a < 2 && b < 2 && c < 2 && d < 2 && e < 8
    ensures Or(Or(Or(Or(Or(a, Shl(b, 1)), Shl(c, 2)), Shl(d, 3)), Shl(e, 4)), Shl(f, 7))
         == a + 2 * b + 4 * c + 8 * d + 16 * e + 128 * f
  {
    LowFields(a, b, c, d);
    HighFields(a + 2 * b + 4 * c + 8 * d, e, f);
  }

  lemma {:induction false} LowFields(a: nat, b: nat, c: nat, d: nat)
    requires a < 2 && b < 2 && c < 2
    ensures Or(Or(Or(a, Shl(b, 1)), Shl(c, 2)), Shl(d, 3)) == a + 2 * b + 4 * c + 8 * d
  {
    hide *;
    Pow2Table();
    ShlTable(b); ShlTable(c); ShlTable(d);
    OrField(a, 1, b);
    OrField(a + 2 * b, 2, c);
    OrField(a + 2 * b + 4 * c, 3, d);
  }

  lemma {:induction false} HighFields(low: nat, e: nat, f: nat)
    requires low < 16 && e < 8
    ensures Or(Or(low, Shl(e, 4)), Shl(f, 7)) == low + 16 * e + 128 * f
  {
    hide *;
    Pow2Table();
    ShlTable(e); ShlTable(f);
    OrField(low, 4, e);
    OrField(low + 16 * e, 7, f);
  }

  /** Bits of the pixel offset, lowest first: x0 y0 x1 y1 x2 x3 x4 y2. */
  function Interleave(xs: seq<nat>, ys: seq<nat>): seq<nat>
    requires |xs| == 5 && |ys| == 3
  {
    [xs[0], ys[0], xs[1], ys[1], xs[2], xs[3], xs[4], ys[2]]
  }

  lemma {:induction false} PixelOffsetInterleaves(x: nat, y: nat)
    ensures GetPixelOffset(x, y) == Value(Interleave(Digits(x, 5), Digits(y, 3)))
  {
    hide Bitwise, Shl, Digits, Value;
    Fields(x);
    Fields(y);
    WideField(x);
    Halvings(x, y, Value(Digits(x / 2 / 2, 3)));
    var xs, ys := Digits(x, 5), Digits(y, 3);
    var a, b, c, d, e, f := x % 2, y % 2, x / 2 % 2, y / 2 % 2, Value(Digits(x / 2 / 2, 3)), y / 2 / 2 % 2;
    DropTwo(x, 5);
    assert xs[2..] == [xs[2], xs[3], xs[4]];
    ValueThree(xs[2], xs[3], xs[4]);
    DigitsThree(y);
    OrChain(a, b, c, d, e, f);
    ValueEight(Interleave(xs, ys));
  }

  /** Shifting a selected field back down to bit 0. */
  lemma {:induction false} Halvings(x: nat, y: nat, e: nat)
    ensures Shr(2 * (x / 2 % 2), 1) == x / 2 % 2 && Shr(2 * (y / 2 % 2), 1) == y / 2 % 2
    ensures Shr(4 * e, 2) == e && Shr(4 * (y / 2 / 2 % 2), 2) == y / 2 / 2 % 2
  {
    assert forall n: nat :: Shr(2 * n, 1) == n;
    QuarterBack(e);
    QuarterBack(y / 2 / 2 % 2);
  }

  lemma {:induction false} QuarterBack(e: nat)
    ensures Shr(4 * e, 2) == e
  {
    assert Shr(4 * e, 1) == 2 * e;
  }

  lemma DropTwo(x: nat, n: nat)
    requires n >= 2
    ensures var xs := Digits(x, n); xs[0] == x % 2 && xs[1] == x / 2 % 2 && xs[2..] == Digits(x / 2 / 2, n - 2)
  {
    assert Digits(x, n)[1..] == Digits(x / 2, n - 1);
    assert Digits(x / 2, n - 1)[1..] == Digits(x / 2 / 2, n - 2);
  }

  lemma {:induction false} ValueEight(q: seq<nat>)
    requires |q| == 8
    ensures Value(q) == q[0] + 2 * q[1] + 4 * q[2] + 8 * q[3] + 16 * q[4] + 32 * q[5] + 64 * q[6] + 128 * q[7]
  {
    ValueThree(q[5], q[6], q[7]);
    assert q[5..] == [q[5], q[6], q[7]];
    assert q[4..][1..] == q[5..] && q[3..][1..] == q[4..] && q[2..][1..] == q[3..] && q[1..][1..] == q[2..];
    ValueStep(q[4..]); ValueStep(q[3..]); ValueStep(q[2..]); ValueStep(q[1..]); ValueStep(q);
  }

  // ---- a block's bytes ----

  /** The pixel and byte at position `w` of a block: the interleave undone. */
  function PixelAt(cpp: nat, w: nat): ((nat, nat, nat))
    requires cpp > 0
  {
    var q := Digits(w / cpp, 8);
    (Value([q[0], q[2], q[4], q[5], q[6]]), Value([q[1], q[3], q[7]]), w % cpp)
  }

  predicate InBlock(cpp: nat, r8g8: bool, px: nat, py: nat, b: nat)
    requires KnownCpp(cpp)
  {
    px < BlockWidth(cpp, r8g8) && py < BlockHeight(cpp, r8g8) && b < cpp
  }

  /** The block with a hole in it. */
  predicate Gapped(cpp: nat, r8g8: bool) { cpp == 2 && r8g8 }

  /** Number of x bits and of y bits of a block; the rest of the eight address bits select a byte of a pixel. */
  function XBits(cpp: nat): nat
    requires KnownCpp(cpp)
  {
    if cpp <= 2 then 5 else if cpp == 4 then 4 else if cpp == 8 then 3 else if cpp <= 32 then 2 else 1
  }

  function YBits(cpp: nat): nat
    requires KnownCpp(cpp)
  {
    if cpp == 1 then 3 else if cpp <= 16 then 2 else 1
  }

  lemma BlockBits(cpp: nat, r8g8: bool)
    requires KnownCpp(cpp) && !Gapped(cpp, r8g8)
    ensures BlockWidth(cpp, r8g8) == Pow2(XBits(cpp)) && BlockHeight(cpp, r8g8) == Pow2(YBits(cpp))
    ensures XBits(cpp) + YBits(cpp) <= 8 && Pow2(XBits(cpp) + YBits(cpp)) * cpp == 256
  {
    Pow2Table();
  }

  /** The interleave keeps the unused high bits of both coordinates at the top of the offset. */
  lemma {:induction false} InterleaveHighZero(cpp: nat, xs: seq<nat>, ys: seq<nat>)
    requires KnownCpp(cpp) && |xs| == 5 && |ys| == 3 && Binary(xs) && Binary(ys)
    ensures Value(Interleave(xs, ys)) < Pow2(XBits(cpp) + YBits(cpp))
       <==> Value(xs) < Pow2(XBits(cpp)) && Value(ys) < Pow2(YBits(cpp))
  {
    var m, n, q := XBits(cpp), YBits(cpp), Interleave(xs, ys);
    HighZeroes(cpp, xs, ys);
    hide Value, Interleave;
    SmallIffHighZero(xs, m);
    SmallIffHighZero(ys, n);
    SmallIffHighZero(q, m + n);
  }

  lemma HighZeroes(cpp: nat, xs: seq<nat>, ys: seq<nat>)
    requires KnownCpp(cpp) && |xs| == 5 && |ys| == 3 && Binary(xs) && Binary(ys)
    ensures var q := Interleave(xs, ys);
      && Binary(q)
      && ((forall i :: XBits(cpp) + YBits(cpp) <= i < 8 ==> q[i] == 0)
          <==> (forall i :: XBits(cpp) <= i < 5 ==> xs[i] == 0) && (forall i :: YBits(cpp) <= i < 3 ==> ys[i] == 0))
  {
    var q := Interleave(xs, ys);
    assert xs[1] == q[2] && xs[2] == q[4] && xs[3] == q[5] && xs[4] == q[6] && ys[1] == q[3] && ys[2] == q[7];
  }

  /** A byte of a pixel, and dividing it off again, for each pixel size. */
  lemma PixelAndByte(cpp: nat, q: nat, b: nat)
    requires KnownCpp(cpp) && b < cpp
    ensures (q * cpp + b) / cpp == q && (q * cpp + b) % cpp == b
    ensures q < Pow2(XBits(cpp) + YBits(cpp)) <==> q * cpp + b < 256
  {
    Pow2Table();
    if cpp == 1 {} else if cpp == 2 {} else if cpp == 4 {} else if cpp == 8 {}
    else if cpp == 16 {} else if cpp == 32 {} else { assert cpp == 64; }
  }

  lemma CoordinateSizes(cpp: nat, r8g8: bool, px: nat, py: nat)
    requires KnownCpp(cpp) && !Gapped(cpp, r8g8)
    ensures px < BlockWidth(cpp, r8g8) <==> px < Pow2(XBits(cpp))
    ensures py < BlockHeight(cpp, r8g8) <==> py < Pow2(YBits(cpp))
    ensures Pow2(XBits(cpp)) <= 32 == Pow2(5) && Pow2(YBits(cpp)) <= 8 == Pow2(3)
  {
    BlockBits(cpp, r8g8);
    Pow2Table();
  }

  /** Every pixel byte of a block lies in the block's 256 bytes, and its position gives it back. */
  lemma PixelByteInSpan(cpp: nat, r8g8: bool, px: nat, py: nat, b: nat)
    requires KnownCpp(cpp) && !Gapped(cpp, r8g8) && InBlock(cpp, r8g8, px, py, b)
    ensures PixelByte(cpp, px, py, b) < 256
    ensures PixelAt(cpp, PixelByte(cpp, px, py, b)) == (px, py, b)
  {
    hide Value, Digits, GetPixelOffset, BlockWidth, BlockHeight, Shl;
    var xs, ys := Digits(px, 5), Digits(py, 3);
    var q := Interleave(xs, ys);
    CoordinateSizes(cpp, r8g8, px, py);
    PixelOffsetInterleaves(px, py);
    InterleaveHighZero(cpp, xs, ys);
    PixelAndByte(cpp, Value(q), b);
    ValueOfDigits(px, 5);
    ValueOfDigits(py, 3);
    DigitsOfValue(q);
    assert [q[0], q[2], q[4], q[5], q[6]] == xs && [q[1], q[3], q[7]] == ys;
  }

  /** Every one of the 256 bytes belongs to a pixel of the block. */
  lemma SpanCovered(cpp: nat, r8g8: bool, w: nat)
    requires KnownCpp(cpp) && !Gapped(cpp, r8g8) && w < 256
    ensures var (px, py, b) := PixelAt(cpp, w); InBlock(cpp, r8g8, px, py, b) && PixelByte(cpp, px, py, b) == w
  {
    var v, b := w / cpp, w % cpp;
    assert w == v * cpp + b;
    PixelAndByte(cpp, v, b);
    BlockBits(cpp, r8g8);
    Pow2Table();
    var q := Digits(v, 8);
    var xs, ys := [q[0], q[2], q[4], q[5], q[6]], [q[1], q[3], q[7]];
    var px, py := Value(xs), Value(ys);
    ValueOfDigits(v, 8);
    assert Interleave(xs, ys) == q;
    InterleaveHighZero(cpp, xs, ys);
    CoordinateSizes(cpp, r8g8, px, py);
    DigitsOfValue(xs);
    DigitsOfValue(ys);
    PixelOffsetInterleaves(px, py);
  }

  /** The 16x8 block never uses the upper half of a span: bit 6 of the pixel offset is never set. */
  lemma GapUnused(px: nat, py: nat, b: nat)
    requires InBlock(2, true, px, py, b)
    ensures PixelByte(2, px, py, b) % 256 < 128
  {
    hide Value, Digits, GetPixelOffset, Shl, PixelByte;
    var xs, ys := Digits(px, 5), Digits(py, 3);
    var q := Interleave(xs, ys);
    Pow2Table();
    ValueOfDigits(px, 5);
    SmallIffHighZero(xs, 4);
    PixelOffsetInterleaves(px, py);
    ValueEight(q);
    assert q[6] == 0;
    HalfSpan(q[0] + 2 * q[1] + 4 * q[2] + 8 * q[3] + 16 * q[4] + 32 * q[5], q[7], b);
    PixelByteIs(2, px, py, b);
  }

  lemma PixelByteIs(cpp: nat, px: nat, py: nat, b: nat)
    ensures PixelByte(cpp, px, py, b) == GetPixelOffset(px, py) * cpp + b
  {
  }

  lemma HalfSpan(low: nat, top: nat, b: nat)
    requires low < 64 && b < 2
    ensures ((low + 128 * top) * 2 + b) % 256 < 128
  {
    assert (low + 128 * top) * 2 + b == 256 * top + (2 * low + b);
  }
}
