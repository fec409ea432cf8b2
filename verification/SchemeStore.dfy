/** Control schemes and their JSON form: `toJson` and `fromJson` of the scheme store, as functions. */
module SchemeStore {
  import opened SchemeJson

  datatype Point = Point(x: real, y: real)

  datatype Action = TapSpot | RepeatedTap | DPad | DragSwipe | FreeLook | AimPanShoot

  /** One control; which fields mean something depends on the action. */
  datatype ControlNode = ControlNode(
    action: Action, pos: Point, endPos: Point, key: string,
    upKey: string, downKey: string, leftKey: string, rightKey: string, offset: real,
    repeatCount: int32, repeatIntervalMs: int32,
    dragStartDelayMs: quint32, dragSpeed: real,
    lookSpeedX: real, lookSpeedY: real, smallEyesKey: string, suspendKey: string,
    fireAnchorPos: Point, caption: string)

  function DefaultNode(action: Action): ControlNode {
    ControlNode(action, Point(0.5, 0.5), Point(0.65, 0.5), "", "", "", "", "", 0.12, 3, 120, 0, 1.0, 1.0, 1.0, "", "", Point(0.62, 0.62), "")
  }

  predicate IsLook(n: ControlNode) { n.action.FreeLook? || n.action.AimPanShoot? }

  /** Which key names are mouse buttons, as `stringToKey` tells. */
  type MouseNames = string -> bool

  const LEFT_BUTTON := "LeftButton"
  const DEFAULT_SWITCH_KEY := "Key_QuoteLeft"
  const DEFAULT_CURSOR_LOCK_KEY := "Key_F1"

  const CLICK := "KMT_CLICK"
  const CLICK_MULTI := "KMT_CLICK_MULTI"
  const STEER_WHEEL := "KMT_STEER_WHEEL"
  const DRAG := "KMT_DRAG"

  predicate NamesOk(mouse: MouseNames) { mouse(LEFT_BUTTON) && !mouse("") }

  function ShootKey(n: ControlNode): string { if n.key == "" then LEFT_BUTTON else n.key }

  // ---- printing ----

  function PosJson(p: Point): Json { JObj(map[X := JNum(p.x), Y := JNum(p.y)]) }

  function ClickJson(key: string, pos: Point): Json {
    JObj(map[Type := JStr(CLICK), Key := JStr(key), Pos := PosJson(pos), SwitchMap := JBool(false), AndroidKey := JNum(0.0)])
  }

  function Click(n: ControlNode, i: nat): Json {
    JObj(map[Delay := Whole(ToInt32(i * MaxOf(1, n.repeatIntervalMs))), Pos := PosJson(n.pos)])
  }

  function Clicks(n: ControlNode, count: nat): (js: seq<Json>)
    ensures |js| == count && forall i :: 0 <= i < count ==> js[i] == Click(n, i)
  {
    if count == 0 then [] else Clicks(n, count - 1) + [Click(n, count - 1)]
  }

  /** The entry of a node in `keyMapNodes`, if it has one. */
  function PrintNode(n: ControlNode): seq<Json> {
    match n.action
    case TapSpot => [ClickJson(n.key, n.pos)]
    case RepeatedTap =>
      [JObj(map[Type := JStr(CLICK_MULTI), Key := JStr(n.key), ClickNodes := JArr(Clicks(n, MaxOf(1, n.repeatCount)))])]
    case DPad =>
      [JObj(map[Type := JStr(STEER_WHEEL), LeftKey := JStr(n.leftKey), RightKey := JStr(n.rightKey), UpKey := JStr(n.upKey),
                DownKey := JStr(n.downKey), LeftOffset := JNum(n.offset), RightOffset := JNum(n.offset), UpOffset := JNum(n.offset),
                DownOffset := JNum(n.offset), CenterPos := PosJson(n.pos)])]
    case DragSwipe =>
      [JObj(map[Type := JStr(DRAG), Key := JStr(n.key), StartPos := PosJson(n.pos), EndPos := PosJson(n.endPos),
                StartDelay := Whole(ToInt32(n.dragStartDelayMs)), DragSpeed := JNum(n.dragSpeed)])]
    case AimPanShoot => [ClickJson(ShootKey(n), n.fireAnchorPos)]
    case FreeLook => []
  }

  function PrintNodes(ns: seq<ControlNode>): seq<Json>
    decreases |ns|
  {
    if ns == [] then [] else PrintNodes(ns[..|ns| - 1]) + PrintNode(ns[|ns| - 1])
  }

  function PrintLook(n: ControlNode): Json {
    var base := map[SensitivityX := JNum(n.lookSpeedX), SensitivityY := JNum(n.lookSpeedY), StartPos := PosJson(n.pos)];
    var eyes := if n.smallEyesKey == "" then base else base[SmallEyes := ClickJson(n.smallEyesKey, n.pos)];
    JObj(if n.suspendKey == "" then eyes else eyes[SuspendKey := JStr(n.suspendKey)])
  }

  /** Index of the first look node. */
  function FirstLook(ns: seq<ControlNode>): (i: nat)
    ensures i <= |ns| && (i < |ns| ==> IsLook(ns[i])) && forall j :: 0 <= j < i ==> !IsLook(ns[j])
  {
    if ns == [] then 0 else if IsLook(ns[0]) then 0 else 1 + FirstLook(ns[1..])
  }

  /** The shoot button, printed only for a mouse button. */
  function ShootName(mouse: MouseNames, n: ControlNode): string {
    if n.action.AimPanShoot? && mouse(ShootKey(n)) then ShootKey(n) else ""
  }

  function PrintRoot(mouse: MouseNames, switchKey: string, cursorLockKey: string, ns: seq<ControlNode>): Json {
    var keys := map[SwitchKey := JStr(if switchKey == "" then DEFAULT_SWITCH_KEY else switchKey),
                    CursorLockKey := JStr(if cursorLockKey == "" then DEFAULT_CURSOR_LOCK_KEY else cursorLockKey)];
    var i := FirstLook(ns);
    var look := if i == |ns| then keys else keys[MouseMoveMap := PrintLook(ns[i])];
    var shoot := if i < |ns| && ShootName(mouse, ns[i]) != "" then look[ShootButton := JStr(ShootName(mouse, ns[i]))] else look;
    JObj(shoot[KeyMapNodes := JArr(PrintNodes(ns))])
  }

  // ---- parsing ----

  datatype Scheme = Scheme(switchKey: string, cursorLockKey: string, nodes: seq<ControlNode>)

  function JsonPos(j: Json, name: Name): Point { Point(AsReal(Get(Get(j, name), X), 0.0), AsReal(Get(Get(j, name), Y), 0.0)) }

  function LegacySpeed(ratio: real): real { if ratio < 0.001 then 1.0 else 1.0 / ratio }

  function ParseSpeedX(m: Json): real {
    var legacy := if Contains(m, SpeedRatioX) then LegacySpeed(AsReal(Get(m, SpeedRatioX), 1.0))
                  else if Contains(m, SpeedRatio) then LegacySpeed(AsReal(Get(m, SpeedRatio), 1.0))
                  else 1.0;
    if Contains(m, SensitivityX) then AsReal(Get(m, SensitivityX), legacy) else legacy
  }

  function ParseSpeedY(m: Json): real {
    var legacy := if Contains(m, SpeedRatioY) then LegacySpeed(AsReal(Get(m, SpeedRatioY), 1.0))
                  else if Contains(m, SpeedRatio) then LegacySpeed(AsReal(Get(m, SpeedRatio), 1.0) / 2.25)
                  else 1.0;
    if Contains(m, SensitivityY) then AsReal(Get(m, SensitivityY), legacy) else legacy
  }

  function ParseLook(m: Json): ControlNode {
    DefaultNode(FreeLook).(
      pos := JsonPos(m, StartPos), lookSpeedX := ParseSpeedX(m), lookSpeedY := ParseSpeedY(m),
      smallEyesKey := AsText(Get(Get(m, SmallEyes), Key), ""), suspendKey := AsText(Get(m, SuspendKey), ""))
  }

  function AbsReal(r: real): real { if r < 0.0 then -r else r }

  /** `manhattanLength() < 0.001`. */
  predicate Near(p: Point, q: Point) { AbsReal(p.x - q.x) + AbsReal(p.y - q.y) < 0.001 }

  /** The look node found at the root, if any, and the shoot button named there. */
  datatype Root = Root(hasLook: bool, anchor: Point, shoot: string)

  /** A click that is taken for the look node's shoot spot. */
  predicate Absorbs(r: Root, key: string, pos: Point) {
    r.hasLook && (Near(pos, r.anchor) || (r.shoot != "" && key == r.shoot))
  }

  /** The variables of the loop: the nodes so far and the look node, which clicks may change. */
  datatype Parse = Parse(nodes: seq<ControlNode>, look: ControlNode)

  function ParseMulti(v: Json): ControlNode {
    var cs := AsItems(Get(v, ClickNodes));
    var n := DefaultNode(RepeatedTap).(key := AsText(Get(v, Key), ""), repeatCount := ToInt32(MaxOf(1, |cs|)));
    var placed := if |cs| > 0 then n.(pos := JsonPos(cs[0], Pos)) else n;
    if |cs| > 1 then placed.(repeatIntervalMs := ToInt32(MaxOf(1, AsInt(Get(cs[1], Delay)) - AsInt(Get(cs[0], Delay))))) else placed
  }

  function ParseWheel(v: Json): ControlNode {
    DefaultNode(DPad).(
      leftKey := AsText(Get(v, LeftKey), ""), rightKey := AsText(Get(v, RightKey), ""), upKey := AsText(Get(v, UpKey), ""),
      downKey := AsText(Get(v, DownKey), ""), offset := AsReal(Get(v, LeftOffset), 0.12), pos := JsonPos(v, CenterPos))
  }

  function ParseDrag(v: Json): ControlNode {
    DefaultNode(DragSwipe).(
      key := AsText(Get(v, Key), ""), pos := JsonPos(v, StartPos), endPos := JsonPos(v, EndPos),
      dragStartDelayMs := ToUint32(AsInt(Get(v, StartDelay))), dragSpeed := AsReal(Get(v, DragSpeed), 1.0))
  }

  function ParseEntry(r: Root, p: Parse, v: Json): Parse {
    var kind := AsText(Get(v, Type), "");
    if kind == CLICK then
      var key, pos := AsText(Get(v, Key), ""), JsonPos(v, Pos);
      if Absorbs(r, key, pos) then p.(look := p.look.(action := AimPanShoot, key := key, fireAnchorPos := pos))
      else p.(nodes := p.nodes + [DefaultNode(TapSpot).(key := key, pos := pos)])
    else if kind == CLICK_MULTI then p.(nodes := p.nodes + [ParseMulti(v)])
    else if kind == STEER_WHEEL then p.(nodes := p.nodes + [ParseWheel(v)])
    else if kind == DRAG then p.(nodes := p.nodes + [ParseDrag(v)])
    else p
  }

  function ParseEntries(r: Root, p: Parse, vs: seq<Json>): Parse
    decreases |vs|
  {
    if vs == [] then p else ParseEntry(r, ParseEntries(r, p, vs[..|vs| - 1]), vs[|vs| - 1])
  }

  function RootOf(root: Json): Root {
    var m := Get(root, MouseMoveMap);
    Root(m.JObj?, ParseLook(m).pos, AsText(Get(root, ShootButton), ""))
  }

  function LookOf(root: Json): ControlNode {
    var m := Get(root, MouseMoveMap);
    if m.JObj? then ParseLook(m) else DefaultNode(TapSpot)
  }

  function ParseRoot(root: Json): Scheme {
    var p := ParseEntries(RootOf(root), Parse([], LookOf(root)), AsItems(Get(root, KeyMapNodes)));
    Scheme(AsText(Get(root, SwitchKey), DEFAULT_SWITCH_KEY), AsText(Get(root, CursorLockKey), DEFAULT_CURSOR_LOCK_KEY),
           p.nodes + if RootOf(root).hasLook then [p.look] else [])
  }
}
