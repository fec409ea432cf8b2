/** The frame-to-panel map of the daemon, over the reals. */
module TouchPanel {

  datatype Rotation = Rotation0 | Rotation90 | Rotation180 | Rotation270 | RotationUnknown

  const TOUCH_X_MAX := 14399
  const TOUCH_Y_MAX := 31999

  /** The C cast from double to int: towards zero. */
  function Truncate(r: real): int { if r >= 0.0 then r.Floor else -((-r).Floor) }

  function Clamp(v: int, max: int): int { if v < 0 then 0 else if v > max then max else v }

  function RoundToPanel(r: real, max: int): int { Clamp(Truncate(r + 0.5), max) }

  function Scaled(v: int, max: int, size: int): real
    requires size > 0
  {
    v as real * max as real / size as real
  }

  function MapFrameToPanel(width: int, height: int, rotation: Rotation, x: int, y: int): (int, int) {
    if width <= 0 || height <= 0 then (0, 0)
    else if width > height then
      var rx270 := Scaled(y, TOUCH_X_MAX, height);
      var ry270 := TOUCH_Y_MAX as real - Scaled(x, TOUCH_Y_MAX, width);
      if rotation == Rotation90 then
        (RoundToPanel(TOUCH_X_MAX as real - rx270, TOUCH_X_MAX), RoundToPanel(TOUCH_Y_MAX as real - ry270, TOUCH_Y_MAX))
      else
        (RoundToPanel(rx270, TOUCH_X_MAX), RoundToPanel(ry270, TOUCH_Y_MAX))
    else
      (RoundToPanel(Scaled(x, TOUCH_X_MAX, width), TOUCH_X_MAX), RoundToPanel(Scaled(y, TOUCH_Y_MAX, height), TOUCH_Y_MAX))
  }

  predicate InFrame(width: int, height: int, x: int, y: int) { 0 <= x <= width && 0 <= y <= height }

  /** Every result is a point of the panel. */
  lemma MapInPanel(width: int, height: int, rotation: Rotation, x: int, y: int)
    ensures var (px, py) := MapFrameToPanel(width, height, rotation, x, y);
            0 <= px <= TOUCH_X_MAX && 0 <= py <= TOUCH_Y_MAX
  {
  }

  lemma RoundMonotone(a: real, b: real, max: int)
    requires a <= b && max >= 0
    ensures RoundToPanel(a, max) <= RoundToPanel(b, max)
  {
  }

  lemma ScaledMonotone(a: int, b: int, max: int, size: int)
    requires a <= b && size > 0 && max >= 0
    ensures Scaled(a, max, size) <= Scaled(b, max, size)
  {
    ProductMonotone(a as real, b as real, max as real);
    DivMonotone(a as real * max as real, b as real * max as real, size as real);
  }

  lemma ProductMonotone(a: real, b: real, m: real)
    requires a <= b && m >= 0.0
    ensures a * m <= b * m
  {
    var d := b - a;
    assert d * m >= 0.0 && b * m == a * m + d * m;
  }

  lemma DivMonotone(a: real, b: real, s: real)
    requires a <= b && s > 0.0
    ensures a / s <= b / s
  {
    var p, q := a / s, b / s;
    assert p * s == a && q * s == b;
    if q < p { ProductStrict(q, p, s); }
  }

  lemma ProductStrict(a: real, b: real, m: real)
    requires a < b && m > 0.0
    ensures a * m < b * m
  {
  }

  /** On a fixed frame and rotation each panel axis follows one frame axis, always in the same direction. */
  lemma MapMonotone(width: int, height: int, rotation: Rotation, x: int, y: int, x': int, y': int)
    requires width > 0 && height > 0 && x <= x' && y <= y'
    ensures var (px, py) := MapFrameToPanel(width, height, rotation, x, y);
            var (qx, qy) := MapFrameToPanel(width, height, rotation, x', y');
      && (width <= height ==> px <= qx && py <= qy)
      && (width > height && rotation == Rotation90 ==> px >= qx && py <= qy)
      && (width > height && rotation != Rotation90 ==> px <= qx && py >= qy)
  {
    hide Scaled, RoundToPanel;
    if width > height {
      ScaledMonotone(y, y', TOUCH_X_MAX, height);
      ScaledMonotone(x, x', TOUCH_Y_MAX, width);
      var a, a' := Scaled(y, TOUCH_X_MAX, height), Scaled(y', TOUCH_X_MAX, height);
      var b, b' := TOUCH_Y_MAX as real - Scaled(x, TOUCH_Y_MAX, width), TOUCH_Y_MAX as real - Scaled(x', TOUCH_Y_MAX, width);
      RoundMonotone(a, a', TOUCH_X_MAX);
      RoundMonotone(b', b, TOUCH_Y_MAX);
      RoundMonotone(TOUCH_X_MAX as real - a', TOUCH_X_MAX as real - a, TOUCH_X_MAX);
      RoundMonotone(TOUCH_Y_MAX as real - b, TOUCH_Y_MAX as real - b', TOUCH_Y_MAX);
    } else {
      ScaledMonotone(x, x', TOUCH_X_MAX, width);
      ScaledMonotone(y, y', TOUCH_Y_MAX, height);
      RoundMonotone(Scaled(x, TOUCH_X_MAX, width), Scaled(x', TOUCH_X_MAX, width), TOUCH_X_MAX);
      RoundMonotone(Scaled(y, TOUCH_Y_MAX, height), Scaled(y', TOUCH_Y_MAX, height), TOUCH_Y_MAX);
    }
  }

  /** On an axis no longer than the panel's, a step of one frame unit moves at least one panel unit. */
  lemma ScaledSeparates(a: int, b: int, max: int, size: int)
    requires 0 <= a < b <= size <= max && size > 0
    ensures Scaled(a, max, size) + 1.0 <= Scaled(b, max, size)
    ensures 0.0 <= Scaled(a, max, size) && Scaled(b, max, size) <= max as real
  {
    var ra, rb, m, s := a as real, b as real, max as real, size as real;
    RatioSeparates(ra, rb, m, s);
    assert Scaled(a, max, size) == ra * m / s && Scaled(b, max, size) == rb * m / s;
  }

  lemma RatioSeparates(a: real, b: real, m: real, s: real)
    requires 0.0 <= a && a + 1.0 <= b <= s <= m && s > 0.0
    ensures a * m / s + 1.0 <= b * m / s <= m && 0.0 <= a * m / s
  {
    StepProduct(a, b, m, s);
    var x, y, z := a * m, b * m, s * m;
    DivStep(x, y, m, s);
  }

  lemma DivStep(x: real, y: real, m: real, s: real)
    requires s > 0.0 && 0.0 <= x && x + s <= y <= s * m
    ensures 0.0 <= x / s && x / s + 1.0 <= y / s <= m
  {
    DivPlusOne(x, s);
    DivMonotone(x + s, y, s);
    DivMonotone(0.0, x, s);
    DivMonotone(y, s * m, s);
    Quotient(s * m, m, s);
  }

  lemma StepProduct(a: real, b: real, m: real, s: real)
    requires 0.0 <= a && a + 1.0 <= b <= s <= m
    ensures a * m + s <= b * m <= s * m && 0.0 <= a * m
  {
    var d := b - a - 1.0;
    assert d * m >= 0.0;
    assert b * m == a * m + m + d * m;
    assert (s - b) * m >= 0.0;
  }

  lemma DivPlusOne(a: real, s: real)
    requires s > 0.0
    ensures (a + s) / s == a / s + 1.0
  {
    var q := a / s;
    assert q * s == a;
    assert (q + 1.0) * s == a + s;
    Quotient(a + s, q + 1.0, s);
  }

  lemma Quotient(x: real, y: real, s: real)
    requires s > 0.0 && y * s == x
    ensures x / s == y
  {
    var z := x / s;
    assert z * s == y * s;
  }

  lemma RoundSeparates(a: real, b: real, max: int)
    requires 0.0 <= a && a + 1.0 <= b <= max as real
    ensures RoundToPanel(a, max) != RoundToPanel(b, max)
  {
  }

  lemma AxisInjective(a: int, b: int, max: int, size: int)
    requires 0 <= a <= size <= max && 0 <= b <= size && size > 0 && a != b
    ensures RoundToPanel(Scaled(a, max, size), max) != RoundToPanel(Scaled(b, max, size), max)
    ensures RoundToPanel(max as real - Scaled(a, max, size), max) != RoundToPanel(max as real - Scaled(b, max, size), max)
  {
    hide Scaled, RoundToPanel;
    var lo, hi := if a < b then a else b, if a < b then b else a;
    ScaledSeparates(lo, hi, max, size);
    var l, h := Scaled(lo, max, size), Scaled(hi, max, size);
    RoundSeparates(l, h, max);
    RoundSeparates(max as real - h, max as real - l, max);
  }

  /** No two points of a frame that is no larger than the panel are merged. */
  lemma MapInjective(width: int, height: int, rotation: Rotation, x: int, y: int, x': int, y': int)
    requires 0 < width && 0 < height && InFrame(width, height, x, y) && InFrame(width, height, x', y')
    requires if width > height then height <= TOUCH_X_MAX && width <= TOUCH_Y_MAX else width <= TOUCH_X_MAX && height <= TOUCH_Y_MAX
    requires (x, y) != (x', y')
    ensures MapFrameToPanel(width, height, rotation, x, y) != MapFrameToPanel(width, height, rotation, x', y')
  {
    hide Scaled, RoundToPanel;
    if width > height {
      if y != y' {
        AxisInjective(y, y', TOUCH_X_MAX, height);
      } else {
        AxisInjective(x, x', TOUCH_Y_MAX, width);
        Twice(width, x);
        Twice(width, x');
      }
    } else {
      if x != x' { AxisInjective(x, x', TOUCH_X_MAX, width); } else { AxisInjective(y, y', TOUCH_Y_MAX, height); }
    }
  }

  lemma Twice(width: int, x: int)
    requires width > 0
    ensures var m := TOUCH_Y_MAX as real; m - (m - Scaled(x, TOUCH_Y_MAX, width)) == Scaled(x, TOUCH_Y_MAX, width)
  {
  }

  /** A rounded value and its rounded mirror image add up to the panel size, or to one more on a tie. */
  lemma RoundMirror(r: real, max: int)
    requires max >= 0
    ensures max <= RoundToPanel(r, max) + RoundToPanel(max as real - r, max) <= max + 1
  {
    var a, b := Truncate(r + 0.5), Truncate(max as real - r + 0.5);
    assert r + 0.5 >= 0.0 ==> a as real <= r + 0.5 < a as real + 1.0;
    assert max as real - r + 0.5 >= 0.0 ==> b as real <= max as real - r + 0.5 < b as real + 1.0;
  }

  /** The two landscape rotations are point reflections of each other, up to one unit where rounding ties. */
  lemma RotationsMirror(width: int, height: int, x: int, y: int)
    requires width > height > 0
    ensures var (px, py) := MapFrameToPanel(width, height, Rotation270, x, y);
            var (qx, qy) := MapFrameToPanel(width, height, Rotation90, x, y);
            TOUCH_X_MAX <= px + qx <= TOUCH_X_MAX + 1 && TOUCH_Y_MAX <= py + qy <= TOUCH_Y_MAX + 1
  {
    hide Scaled, RoundToPanel;
    RoundMirror(Scaled(y, TOUCH_X_MAX, height), TOUCH_X_MAX);
    RoundMirror(TOUCH_Y_MAX as real - Scaled(x, TOUCH_Y_MAX, width), TOUCH_Y_MAX);
  }

  /** Corners: the frame's origin and far corner land on the panel's corners, turned as the rotation says. */
  lemma MapCorners(width: int, height: int, rotation: Rotation)
    requires width > 0 && height > 0
    ensures var origin, far := MapFrameToPanel(width, height, rotation, 0, 0), MapFrameToPanel(width, height, rotation, width, height);
      if width <= height then origin == (0, 0) && far == (TOUCH_X_MAX, TOUCH_Y_MAX)
      else if rotation == Rotation90 then origin == (TOUCH_X_MAX, 0) && far == (0, TOUCH_Y_MAX)
      else origin == (0, TOUCH_Y_MAX) && far == (TOUCH_X_MAX, 0)
  {
    FullScale(TOUCH_X_MAX, width); FullScale(TOUCH_Y_MAX, height);
    FullScale(TOUCH_X_MAX, height); FullScale(TOUCH_Y_MAX, width);
    hide Scaled;
  }

  lemma FullScale(max: int, size: int)
    requires size > 0
    ensures Scaled(0, max, size) == 0.0 && Scaled(size, max, size) == max as real
  {
    var m, s := max as real, size as real;
    assert s * m / s == m;
  }

  // ---- the map by its values ----

  /**
   `p` is the panel unit nearest to `value / size`, the upper one on a tie: the value of a coordinate that is scaled to
   the panel, said in whole numbers.
   */
  predicate Nearest(p: int, value: int, size: int) { 2 * p * size <= 2 * value + size < 2 * (p + 1) * size }

  lemma ScaledValue(v: int, max: int, size: int)
    requires size > 0
    ensures Scaled(v, max, size) * size as real == (v * max) as real
  {
    Quotient((v * max) as real, Scaled(v, max, size), size as real);
  }

  lemma RoundInside(r: real, max: int)
    requires 0.0 <= r <= max as real
    ensures RoundToPanel(r, max) as real <= r + 0.5 < RoundToPanel(r, max) as real + 1.0
  {
  }

  lemma ProductsNearest(p: int, r: real, value: int, size: int)
    requires size > 0 && r * size as real == value as real && p as real <= r + 0.5 < p as real + 1.0
    ensures Nearest(p, value, size)
  {
    hide Nearest;
    var s, q, v := size as real, p as real, value as real;
    HalfBelow(q, r, v, s);
    HalfAbove(q, r, v, s);
    WholeProduct(p, size);
    NearestProduct(p, p * size, value, size);
  }

  lemma NearestProduct(p: int, a: int, value: int, size: int)
    requires a == p * size && a as real <= value as real + 0.5 * size as real < a as real + size as real
    ensures Nearest(p, value, size)
  {
    Doubled(a, value, size);
    assert 2 * p * size == 2 * a && 2 * (p + 1) * size == 2 * a + 2 * size;
  }

  lemma HalfBelow(q: real, r: real, v: real, s: real)
    requires s > 0.0 && r * s == v && q <= r + 0.5
    ensures q * s <= v + 0.5 * s
  {
    var d := r + 0.5 - q;
    assert d * s >= 0.0;
    assert d * s == r * s + 0.5 * s - q * s;
  }

  lemma HalfAbove(q: real, r: real, v: real, s: real)
    requires s > 0.0 && r * s == v && r + 0.5 < q + 1.0
    ensures v + 0.5 * s < q * s + s
  {
    var d := q + 0.5 - r;
    assert d * s > 0.0;
    assert d * s == q * s + 0.5 * s - r * s;
  }

  lemma Doubled(a: int, v: int, s: int)
    requires a as real <= v as real + 0.5 * s as real < a as real + s as real
    ensures 2 * a <= 2 * v + s < 2 * a + 2 * s
  {
  }

  lemma QuotientInside(r: real, value: int, size: int, max: int)
    requires size > 0 && 0 <= value <= max * size && r * size as real == value as real
    ensures 0.0 <= r <= max as real
  {
    var s := size as real;
    WholeProduct(max, size);
    if r < 0.0 { ProductStrict(r, 0.0, s); }
    if max as real < r { ProductStrict(max as real, r, s); }
  }

  lemma RoundNearest(r: real, value: int, size: int, max: int)
    requires size > 0 && max >= 0 && 0 <= value <= max * size && r * size as real == value as real
    ensures Nearest(RoundToPanel(r, max), value, size)
  {
    hide RoundToPanel, Nearest;
    QuotientInside(r, value, size, max);
    RoundInside(r, max);
    ProductsNearest(RoundToPanel(r, max), r, value, size);
  }

  lemma WholeProduct(p: int, size: int)
    ensures p as real * size as real == (p * size) as real && 2 * p * size == 2 * (p * size)
  {
  }

  lemma MirrorValue(r: real, value: int, size: int, max: int)
    requires r * size as real == value as real
    ensures (max as real - r) * size as real == (max * size - value) as real
  {
    WholeProduct(max, size);
  }

  lemma InRange(v: int, max: int, size: int)
    requires 0 <= v <= size && max >= 0
    ensures 0 <= v * max <= max * size && max * size - v * max == (size - v) * max
  {
    assert (size - v) * max >= 0;
  }

  /** One axis of a point in the frame, straight and mirrored. */
  lemma AxisNearest(v: int, max: int, size: int)
    requires 0 <= v <= size && size > 0 && max >= 0
    ensures Nearest(RoundToPanel(Scaled(v, max, size), max), v * max, size)
    ensures Nearest(RoundToPanel(max as real - Scaled(v, max, size), max), (size - v) * max, size)
  {
    hide Scaled, RoundToPanel, Nearest;
    var r, a := Scaled(v, max, size), v * max;
    ScaledValue(v, max, size);
    InRange(v, max, size);
    RoundNearest(r, a, size, max);
    MirrorValue(r, a, size, max);
    RoundNearest(max as real - r, max * size - a, size, max);
  }

  /**
   Every point of the frame goes to the nearest unit of the 14399 x 31999 panel.  In portrait the axes keep their places;
   in landscape they change places, and one of them is mirrored, which one the rotation says.
   */
  lemma MapNearest(width: int, height: int, rotation: Rotation, x: int, y: int)
    requires width > 0 && height > 0 && InFrame(width, height, x, y)
    ensures var (px, py) := MapFrameToPanel(width, height, rotation, x, y);
      if width <= height then Nearest(px, x * 14399, width) && Nearest(py, y * 31999, height)
      else if rotation == Rotation90 then Nearest(px, (height - y) * 14399, height) && Nearest(py, x * 31999, width)
      else Nearest(px, y * 14399, height) && Nearest(py, (width - x) * 31999, width)
  {
    hide Scaled, RoundToPanel, Nearest;
    if width > height {
      AxisNearest(y, TOUCH_X_MAX, height);
      AxisNearest(x, TOUCH_Y_MAX, width);
      Twice(width, x);
    } else {
      AxisNearest(x, TOUCH_X_MAX, width);
      AxisNearest(y, TOUCH_Y_MAX, height);
    }
  }

  /** A point left or right of the frame, above or below it, goes where the nearest point of the frame goes. */
  lemma MapOutside(width: int, height: int, rotation: Rotation, x: int, y: int)
    requires width > 0 && height > 0
    ensures MapFrameToPanel(width, height, rotation, x, y)
         == MapFrameToPanel(width, height, rotation, Clamp(x, width), Clamp(y, height))
  {
    hide Scaled, RoundToPanel;
    AxisOutside(x, TOUCH_X_MAX, width);
    AxisOutside(y, TOUCH_X_MAX, height);
    AxisOutside(x, TOUCH_Y_MAX, width);
    AxisOutside(y, TOUCH_Y_MAX, height);
    Twice(width, x);
    Twice(width, Clamp(x, width));
  }

  lemma AxisOutside(v: int, max: int, size: int)
    requires size > 0 && max >= 0
    ensures RoundToPanel(Scaled(v, max, size), max) == RoundToPanel(Scaled(Clamp(v, size), max, size), max)
    ensures RoundToPanel(max as real - Scaled(v, max, size), max) == RoundToPanel(max as real - Scaled(Clamp(v, size), max, size), max)
  {
    FullScale(max, size);
    if v < 0 { ScaledMonotone(v, 0, max, size); }
    if v > size { ScaledMonotone(size, v, max, size); }
    hide Scaled;
  }

  /** Without a frame size every point is the panel's origin. */
  lemma MapWithoutFrame(width: int, height: int, rotation: Rotation, x: int, y: int)
    requires width <= 0 || height <= 0
    ensures MapFrameToPanel(width, height, rotation, x, y) == (0, 0)
  {
    hide Scaled, RoundToPanel;
  }
}
