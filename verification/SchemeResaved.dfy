/**
 Files that the scheme store did not print: what the editor shows of a hand-written or old file, and whether the game
 still gets the same after the editor has saved it again.
 */
module SchemeResaved {
  import opened Common
  import opened SchemeJson
  import opened SchemeStore
  import opened SchemeRoundTrip
  import opened SchemeInGame

  /** The nodes the editor shows for an entry that no look node claims. */
  function Shown(v: Json): seq<ControlNode> {
    ParseEntry(Root(false, Point(0.0, 0.0), ""), Parse([], DefaultNode(TapSpot)), v).nodes
  }

  // ---- what an entry must be to survive ----

  /** How far apart the editor believes the taps to be. */
  function Gap(cs: seq<Json>): int {
    if |cs| > 1 then MaxOf(1, ToInt32(MaxOf(1, AsInt(Get(cs[1], Delay)) - AsInt(Get(cs[0], Delay))))) else 120
  }

  /** Taps in one place, as far as they count, each one gap after the other, the first at once. */
  predicate Even(cs: seq<Json>) {
    forall i: nat :: i < |cs| && i < 50 ==> LoadTap(cs[i]) == Timed(ToInt32(i * Gap(cs)), JsonPos(cs[0], Pos))
  }

  /** A start delay that is a whole number of the type `int`, or less than one in size. */
  predicate SafeDelay(d: real) {
    -1.0 < d < 1.0 || (d.Floor as real == d && -0x8000_0000 <= d.Floor < 0x8000_0000)
  }

  /** What the editor cannot say of an entry is not in it. */
  predicate Expressible(v: Json) {
    var kind := AsKey(v, Type);
    if kind == "KMT_CLICK" then !AsFlag(Get(v, SwitchMap)) && AsNumber(v, AndroidKey) == 0.0
    else if kind == "KMT_CLICK_MULTI" then Even(AsItems(Get(v, ClickNodes)))
    else if kind == "KMT_STEER_WHEEL" then
      AsNumber(v, LeftOffset) == AsNumber(v, RightOffset) == AsNumber(v, UpOffset) == AsNumber(v, DownOffset)
    else (Contains(v, DragSpeed) ==> HasNumber(v, DragSpeed)) && SafeDelay(AsNumber(v, StartDelay))
  }

  lemma ClickResaved(keys: KeyTable, v: Json)
    requires AsKey(v, Type) == CLICK && LoadClick(keys, v) != []
    ensures |Shown(v)| == 1 && (Played(keys, Shown(v)[0]) == LoadClick(keys, v) <==> Expressible(v))
  {
  }

  lemma WheelResaved(keys: KeyTable, v: Json)
    requires AsKey(v, Type) == STEER_WHEEL && LoadWheel(keys, v) != []
    ensures |Shown(v)| == 1 && (Played(keys, Shown(v)[0]) == LoadWheel(keys, v) <==> Expressible(v))
  {
    KindsDiffer();
  }

  /** The start delay, in the game and again after the editor. */
  lemma DelayResaved(v: Json)
    ensures var d: int := ToUint32(AsInt(Get(v, StartDelay)));
      (if Contains(v, StartDelay) then CastUnsigned(AsNumber(v, StartDelay)) else Some(0)) == (if d < 0x8000_0000 then Some(d) else None)
      <==> SafeDelay(AsNumber(v, StartDelay))
  {
    var r := AsNumber(v, StartDelay);
    if r < 0.0 { assert (-r).Floor >= 0; }
  }

  lemma DragResaved(keys: KeyTable, v: Json)
    requires AsKey(v, Type) == DRAG && LoadDrag(keys, v) != []
    ensures |Shown(v)| == 1 && (Played(keys, Shown(v)[0]) == LoadDrag(keys, v) <==> Expressible(v))
  {
    hide CastUnsigned, SafeDelay, ToUint32, AsInt;
    KindsDiffer();
    DelayResaved(v);
  }

  /** The taps of the node that the editor shows. */
  lemma TapsShown(v: Json)
    requires AsKey(v, Type) == CLICK_MULTI && 0 < |AsItems(Get(v, ClickNodes))| < 0x8000_0000
    ensures var cs, ns := AsItems(Get(v, ClickNodes)), Shown(v);
      && |ns| == 1 && ns[0].action.RepeatedTap? && ns[0].key == AsKey(v, Key)
      && |TapsOf(ns[0])| == (if |cs| <= 50 then |cs| else 50)
      && forall i: nat :: i < |cs| && i < 50 ==> TapsOf(ns[0])[i] == Timed(ToInt32(i * Gap(cs)), JsonPos(cs[0], Pos))
  {
    hide AsInt;
    KindsDiffer();
    var cs, n := AsItems(Get(v, ClickNodes)), ParseMulti(v);
    assert Shown(v) == [n];
    assert n.repeatCount == |cs| && n.pos == JsonPos(cs[0], Pos) && MaxOf(1, n.repeatIntervalMs) == Gap(cs);
  }

  lemma TapsResaved(keys: KeyTable, v: Json)
    requires AsKey(v, Type) == CLICK_MULTI && LoadTaps(keys, v) != [] && |AsItems(Get(v, ClickNodes))| < 0x8000_0000
    ensures |Shown(v)| == 1 && (Played(keys, Shown(v)[0]) == LoadTaps(keys, v) <==> Expressible(v))
  {
    hide LoadTap, HasPos, HasNumber, Gap, TapsOf, Shown;
    KindsDiffer();
    TapsShown(v);
    var cs, n := AsItems(Get(v, ClickNodes)), Shown(v)[0];
    var taps := LoadTaps(keys, v)[0].taps;
    assert forall i: nat :: i < |taps| ==> taps[i] == LoadTap(cs[i]);
    assert Played(keys, n) == [GameTaps(n.key, TapsOf(n))];
    if Even(cs) { assert TapsOf(n) == taps; }
  }

  /**
   An entry of any file that the game plays: after the editor has shown and saved it, the game plays the same if and only
   if the editor can say all of it.
   */
  lemma ResavedIff(keys: KeyTable, v: Json)
    requires v.JObj? && LoadEntry(keys, v) != [] && |AsItems(Get(v, ClickNodes))| < 0x8000_0000
    ensures |Shown(v)| == 1
    ensures LoadEntries(keys, PrintNode(Shown(v)[0])) == (LoadEntry(keys, v), true) <==> Expressible(v)
  {
    hide LoadClick, LoadTaps, LoadWheel, LoadDrag, Shown, Played, Expressible, PrintNode, LoadEntries;
    var kind := AsKey(v, Type);
    if kind == CLICK { ClickResaved(keys, v); }
    else if kind == CLICK_MULTI { TapsResaved(keys, v); }
    else if kind == STEER_WHEEL { WheelResaved(keys, v); }
    else { DragResaved(keys, v); }
    EntryLoads(keys, Shown(v)[0]);
  }

  // ---- the look control ----

  /** The speeds that are there are numbers. */
  predicate NumericSpeeds(m: Json) {
    forall name :: name in {SensitivityX, SensitivityY, SpeedRatio, SpeedRatioX, SpeedRatioY} && Contains(m, name) ==> HasNumber(m, name)
  }

  /** Both readers turn the speeds of a file, old or new, into the same multipliers, which the game keeps above a thousandth. */
  lemma SpeedsAgree(m: Json)
    requires NumericSpeeds(m)
    ensures LoadSpeed(m, SensitivityX, SpeedRatioX, AsNumber(m, SpeedRatio)) == AtLeast(0.001, ParseSpeedX(m))
    ensures LoadSpeed(m, SensitivityY, SpeedRatioY, AsNumber(m, SpeedRatio) / 2.25) == AtLeast(0.001, ParseSpeedY(m))
  {
    assert forall name :: name in {SensitivityX, SensitivityY, SpeedRatio, SpeedRatioX, SpeedRatioY} ==> (Contains(m, name) <==> HasNumber(m, name));
  }

  /** A divisor that is no number counts as one, in the editor, and still hides the common divisor. */
  lemma OddSpeeds(m: Json)
    requires !HasNumber(m, SensitivityX) && !HasNumber(m, SensitivityY)
    ensures Contains(m, SpeedRatioX) && !HasNumber(m, SpeedRatioX) ==> ParseSpeedX(m) == 1.0
    ensures Contains(m, SpeedRatioY) && !HasNumber(m, SpeedRatioY) ==> ParseSpeedY(m) == 1.0
    ensures !Contains(m, SpeedRatioX) && Contains(m, SpeedRatio) && !HasNumber(m, SpeedRatio) ==> ParseSpeedX(m) == 1.0
    ensures !Contains(m, SpeedRatioY) && Contains(m, SpeedRatio) && !HasNumber(m, SpeedRatio) ==> ParseSpeedY(m) == 2.25
  {
  }

  /**
   The look control of a file that the game plays: after the editor has saved it again the game plays the same if and only if
   its precision key, if any, stands where the look starts.
   */
  lemma LookResavedIff(keys: KeyTable, m: Json)
    requires NumericSpeeds(m) && LoadLook(keys, m).Some? && keys("").NoKey?
    ensures LoadLook(keys, PrintLook(ParseLook(m))) == LoadLook(keys, m)
       <==> (Get(m, SmallEyes).JObj? ==> JsonPos(Get(m, SmallEyes), Pos) == JsonPos(m, StartPos))
  {
    hide LoadSpeed, ParseSpeedX, ParseSpeedY, NumericSpeeds;
    SpeedsAgree(m);
    LookLoads(keys, ParseLook(m));
  }

  // ---- what is missing ----

  /** A node with nothing set but where it is and how often it taps. */
  function Blank(action: Action, pos: Point, endPos: Point, taps: int32): ControlNode {
    ControlNode(action, pos, endPos, "", "", "", "", "", 0.12, taps, 120, 0, 1.0, 1.0, 1.0, "", "", Point(0.62, 0.62), "")
  }

  /** What the editor makes of entries that say no more than their type; other types, and what is no object, it skips. */
  lemma BareEntries(p: Parse, kind: string, v: Json)
    requires v == JObj(map[Type := JStr(kind)])
    ensures var nodes := ParseEntry(Root(false, Point(0.0, 0.0), ""), p, v).nodes; var corner := Point(0.0, 0.0);
      if kind == "KMT_CLICK" then nodes == p.nodes + [Blank(TapSpot, corner, Point(0.65, 0.5), 3)]
      else if kind == "KMT_CLICK_MULTI" then nodes == p.nodes + [Blank(RepeatedTap, Point(0.5, 0.5), Point(0.65, 0.5), 1)]
      else if kind == "KMT_STEER_WHEEL" then nodes == p.nodes + [Blank(DPad, corner, Point(0.65, 0.5), 3)]
      else if kind == "KMT_DRAG" then nodes == p.nodes + [Blank(DragSwipe, corner, corner, 3)]
      else nodes == p.nodes
  {
    KindsDiffer();
  }

  lemma Skipped(r: Root, p: Parse, v: Json)
    requires !v.JObj? || AsText(Get(v, Type), "") !in {"KMT_CLICK", "KMT_CLICK_MULTI", "KMT_STEER_WHEEL", "KMT_DRAG"}
    ensures ParseEntry(r, p, v) == p
  {
  }

  /** A file with nothing in it, and one with an empty look control. */
  lemma {:induction false} BareFiles()
    ensures ParseRoot(JObj(map[])) == Scheme("Key_QuoteLeft", "Key_F1", [])
    ensures ParseRoot(JObj(map[MouseMoveMap := JObj(map[])]))
         == Scheme("Key_QuoteLeft", "Key_F1", [Blank(FreeLook, Point(0.0, 0.0), Point(0.65, 0.5), 3)])
  {
    var r := JObj(map[]);
    assert ParseEntries(RootOf(r), Parse([], LookOf(r)), []) == Parse([], LookOf(r));
    var m := JObj(map[MouseMoveMap := JObj(map[])]);
    assert ParseEntries(RootOf(m), Parse([], LookOf(m)), []) == Parse([], LookOf(m));
  }
}
