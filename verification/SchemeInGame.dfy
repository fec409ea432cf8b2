/**
 What the game engine makes of a scheme file: the reader `KeyMap::loadKeyMap`, which is not the editor's own, and what it
 gets from the files that the scheme store prints.
 */
module SchemeInGame {
  import opened Common
  import opened SchemeJson
  import opened SchemeStore
  import opened SchemeRoundTrip
  import opened SchemeEditing

  /** Which names are keys and which are mouse buttons, as `getItemKey` tells. */
  datatype KeyKind = NoKey | Keyboard | MouseButton
  type KeyTable = string -> KeyKind

  predicate Known(keys: KeyTable, k: string) { !keys(k).NoKey? }

  datatype Timed = Timed(delay: int, pos: Point)
  datatype Stick = Stick(key: string, offset: real)

  /** One control of the running game.  A start delay that does not fit its type is lost: its conversion is undefined. */
  datatype GameNode =
    | GameClick(key: string, pos: Point, switchMap: bool, androidKey: real)
    | GameTaps(key: string, taps: seq<Timed>)
    | GameWheel(left: Stick, right: Stick, up: Stick, down: Stick, center: Point)
    | GameDrag(key: string, start: Point, end: Point, delay: Option<int>, speed: real)
    | GameLook(start: Point, sensitivityX: real, sensitivityY: real, eyes: Option<(string, Point)>)

  /** The loaded controls, and whether the end was reached; if not, no key is wired to any control. */
  datatype GameMap = GameMap(switchKey: string, nodes: seq<GameNode>, wired: bool)

  const MAX_DELAY_CLICK_NODES := 50

  predicate HasText(j: Json, name: Name) { Get(j, name).JStr? }
  predicate HasNumber(j: Json, name: Name) { Get(j, name).JNum? }
  predicate HasFlag(j: Json, name: Name) { Get(j, name).JBool? }
  predicate HasPos(j: Json, name: Name) { Get(j, name).JObj? && HasNumber(Get(j, name), X) && HasNumber(Get(j, name), Y) }

  predicate ClickFormed(v: Json) { HasText(v, Key) && HasPos(v, Pos) && HasFlag(v, SwitchMap) }

  function AsKey(v: Json, name: Name): string { AsText(Get(v, name), "") }
  function AsNumber(v: Json, name: Name): real { AsReal(Get(v, name), 0.0) }
  predicate AsFlag(j: Json) { j.JBool? && j.flag }

  /** `static_cast<int>` of a double and `static_cast<quint32>` of one. */
  function CastInt(r: real): int { if r >= 0.0 then r.Floor else -((-r).Floor) }
  function CastUnsigned(r: real): Option<int> {
    if -1.0 < r < 0x1_0000_0000 as real then Some(CastInt(r)) else None
  }

  function LoadClick(keys: KeyTable, v: Json): seq<GameNode> {
    if ClickFormed(v) && Known(keys, AsKey(v, Key))
    then [GameClick(AsKey(v, Key), JsonPos(v, Pos), AsFlag(Get(v, SwitchMap)), AsNumber(v, AndroidKey))] else []
  }

  function LoadTap(v: Json): Timed { Timed(CastInt(AsNumber(v, Delay)), JsonPos(v, Pos)) }

  function LoadTaps(keys: KeyTable, v: Json): seq<GameNode> {
    var items := AsItems(Get(v, ClickNodes));
    if items != [] && (forall i :: 0 <= i < |items| ==> HasPos(items[i], Pos) && HasNumber(items[i], Delay)) && Known(keys, AsKey(v, Key))
    then
      var count := if |items| <= MAX_DELAY_CLICK_NODES then |items| else MAX_DELAY_CLICK_NODES;
      [GameTaps(AsKey(v, Key), seq(count, (i: nat) requires i < |items| => LoadTap(items[i])))]
    else []
  }

  function LoadStick(v: Json, key: Name, offset: Name): Stick { Stick(AsKey(v, key), AsNumber(v, offset)) }

  function LoadWheel(keys: KeyTable, v: Json): seq<GameNode> {
    if && HasText(v, LeftKey) && HasText(v, RightKey) && HasText(v, UpKey) && HasText(v, DownKey)
       && HasNumber(v, LeftOffset) && HasNumber(v, RightOffset) && HasNumber(v, UpOffset) && HasNumber(v, DownOffset)
       && HasPos(v, CenterPos)
       && Known(keys, AsKey(v, LeftKey)) && Known(keys, AsKey(v, RightKey)) && Known(keys, AsKey(v, UpKey)) && Known(keys, AsKey(v, DownKey))
    then [GameWheel(LoadStick(v, LeftKey, LeftOffset), LoadStick(v, RightKey, RightOffset), LoadStick(v, UpKey, UpOffset),
                    LoadStick(v, DownKey, DownOffset), JsonPos(v, CenterPos))]
    else []
  }

  function LoadDrag(keys: KeyTable, v: Json): seq<GameNode> {
    if HasText(v, Key) && HasPos(v, StartPos) && HasPos(v, EndPos) && Known(keys, AsKey(v, Key))
    then [GameDrag(AsKey(v, Key), JsonPos(v, StartPos), JsonPos(v, EndPos),
                   if Contains(v, StartDelay) then CastUnsigned(AsNumber(v, StartDelay)) else Some(0),
                   if Contains(v, DragSpeed) then AsNumber(v, DragSpeed) else 1.0)]
    else []
  }

  function LoadEntry(keys: KeyTable, v: Json): seq<GameNode> {
    var kind := AsKey(v, Type);
    if kind == CLICK then LoadClick(keys, v)
    else if kind == CLICK_MULTI then LoadTaps(keys, v)
    else if kind == STEER_WHEEL then LoadWheel(keys, v)
    else if kind == DRAG then LoadDrag(keys, v)
    else []
  }

  /** The entries in order; one that is no object, or has no type, ends the loading. */
  function LoadEntries(keys: KeyTable, vs: seq<Json>): (seq<GameNode>, bool) {
    if vs == [] then ([], true)
    else if !vs[0].JObj? || !HasText(vs[0], Type) then ([], false)
    else
      var (rest, done) := LoadEntries(keys, vs[1..]);
      (LoadEntry(keys, vs[0]) + rest, done)
  }

  /** A sensitivity: a divisor of an old file, then the multiplier; never below a thousandth. */
  function LoadSpeed(m: Json, sensitivity: Name, own: Name, common: real): real {
    var legacy := if HasNumber(m, own) then LegacySpeed(AsNumber(m, own))
                  else if HasNumber(m, SpeedRatio) then LegacySpeed(common) else 1.0;
    var speed := if HasNumber(m, sensitivity) then AsNumber(m, sensitivity) else legacy;
    if speed < 0.001 then 0.001 else speed
  }

  /** The look control, unless something is missing. */
  function LoadLook(keys: KeyTable, m: Json): Option<GameNode> {
    var ratio := AsNumber(m, SpeedRatio);
    var speeds := HasNumber(m, SpeedRatio) || HasNumber(m, SpeedRatioX) || HasNumber(m, SpeedRatioY)
                  || HasNumber(m, SensitivityX) || HasNumber(m, SensitivityY);
    var eyes := Get(m, SmallEyes);
    if !speeds || !Get(m, StartPos).JObj? then None
    else if eyes.JObj? && !(AsKey(eyes, Type) == CLICK && ClickFormed(eyes) && Known(keys, AsKey(eyes, Key))) then None
    else Some(GameLook(JsonPos(m, StartPos), LoadSpeed(m, SensitivityX, SpeedRatioX, ratio),
                       LoadSpeed(m, SensitivityY, SpeedRatioY, ratio / 2.25),
                       if eyes.JObj? then Some((AsKey(eyes, Key), JsonPos(eyes, Pos))) else None))
  }

  function LoadKeyMap(keys: KeyTable, root: Json): GameMap {
    var switch := AsKey(root, SwitchKey);
    if !Known(keys, switch) then GameMap("", [], false)
    else
      var m := Get(root, MouseMoveMap);
      var look := if m.JObj? then LoadLook(keys, m) else None;
      if m.JObj? && look.None? then GameMap(switch, [], false)
      else
        var (nodes, done) := LoadEntries(keys, AsItems(Get(root, KeyMapNodes)));
        GameMap(switch, (if look.Some? then [look.value] else []) + nodes, done)
  }

  // ---- what the game should have ----

  /** The first fifty taps of a repeated tap, one interval apart, all in one place. */
  function TapsOf(n: ControlNode): seq<Timed> {
    var count := if n.repeatCount < 1 then 1 else if n.repeatCount > 50 then 50 else n.repeatCount as int;
    seq(count, (i: nat) => Timed(ToInt32(i * MaxOf(1, n.repeatIntervalMs)), n.pos))
  }

  /** The controls of a node that the editor shows; a node with an unknown key gives none. */
  function Played(keys: KeyTable, n: ControlNode): seq<GameNode> {
    match n.action
    case TapSpot => if Known(keys, n.key) then [GameClick(n.key, n.pos, false, 0.0)] else []
    case RepeatedTap => if Known(keys, n.key) then [GameTaps(n.key, TapsOf(n))] else []
    case DPad =>
      if Known(keys, n.leftKey) && Known(keys, n.rightKey) && Known(keys, n.upKey) && Known(keys, n.downKey)
      then [GameWheel(Stick(n.leftKey, n.offset), Stick(n.rightKey, n.offset), Stick(n.upKey, n.offset), Stick(n.downKey, n.offset), n.pos)]
      else []
    case DragSwipe =>
      if Known(keys, n.key)
      then [GameDrag(n.key, n.pos, n.endPos, if n.dragStartDelayMs < 0x8000_0000 then Some(n.dragStartDelayMs as int) else None, n.dragSpeed)]
      else []
    case FreeLook => []
    case AimPanShoot => if Known(keys, ShootKey(n)) then [GameClick(ShootKey(n), n.fireAnchorPos, false, 0.0)] else []
  }

  function AllPlayed(keys: KeyTable, ns: seq<ControlNode>): seq<GameNode>
    decreases |ns|
  {
    if ns == [] then [] else AllPlayed(keys, ns[..|ns| - 1]) + Played(keys, ns[|ns| - 1])
  }

  function AtLeast(lo: real, v: real): real { if v < lo then lo else v }

  function LookPlayed(n: ControlNode): GameNode {
    GameLook(n.pos, AtLeast(0.001, n.lookSpeedX), AtLeast(0.001, n.lookSpeedY),
             if n.smallEyesKey == "" then None else Some((n.smallEyesKey, n.pos)))
  }

  // ---- the two readers meet ----

  lemma PosFormed(v: Json, name: Name, pos: Point)
    requires Get(v, name) == PosJson(pos)
    ensures HasPos(v, name) && JsonPos(v, name) == pos
  {
  }

  lemma ClickLoads(keys: KeyTable, key: string, pos: Point)
    ensures LoadClick(keys, ClickJson(key, pos)) == if Known(keys, key) then [GameClick(key, pos, false, 0.0)] else []
  {
    PosFormed(ClickJson(key, pos), Pos, pos);
  }

  lemma CastsBack(v: int32)
    ensures CastInt(v as real) == v
    ensures CastUnsigned(v as real) == if v >= 0 then Some(v as int) else None
  {
  }

  lemma TapLoads(n: ControlNode, i: nat)
    ensures var v := Click(n, i);
      HasPos(v, Pos) && HasNumber(v, Delay) && LoadTap(v) == Timed(ToInt32(i * MaxOf(1, n.repeatIntervalMs)), n.pos)
  {
    hide MaxOf;
    CastsBack(ToInt32(i * MaxOf(1, n.repeatIntervalMs)));
    PosFormed(Click(n, i), Pos, n.pos);
  }

  lemma TapsLoad(keys: KeyTable, n: ControlNode)
    requires n.action.RepeatedTap?
    ensures LoadTaps(keys, PrintNode(n)[0]) == Played(keys, n)
  {
    hide Clicks, Click, LoadTap, HasPos, HasNumber;
    var v := PrintNode(n)[0];
    var items := AsItems(Get(v, ClickNodes));
    assert items == Clicks(n, MaxOf(1, n.repeatCount));
    forall i: nat | i < |items|
      ensures HasPos(items[i], Pos) && HasNumber(items[i], Delay)
      ensures LoadTap(items[i]) == Timed(ToInt32(i * MaxOf(1, n.repeatIntervalMs)), n.pos)
    {
      TapLoads(n, i);
    }
    if Known(keys, n.key) {
      assert LoadTaps(keys, v)[0].taps == TapsOf(n);
    }
  }

  lemma WheelLoads(keys: KeyTable, n: ControlNode)
    requires n.action.DPad?
    ensures LoadWheel(keys, PrintNode(n)[0]) == Played(keys, n)
  {
    PosFormed(PrintNode(n)[0], CenterPos, n.pos);
  }

  lemma DragLoads(keys: KeyTable, n: ControlNode)
    requires n.action.DragSwipe?
    ensures LoadDrag(keys, PrintNode(n)[0]) == Played(keys, n)
  {
    var v := PrintNode(n)[0];
    PosFormed(v, StartPos, n.pos);
    PosFormed(v, EndPos, n.endPos);
    CastsBack(ToInt32(n.dragStartDelayMs));
  }

  lemma {:induction false} OneEntry(keys: KeyTable, v: Json)
    requires v.JObj? && HasText(v, Type)
    ensures LoadEntries(keys, [v]) == (LoadEntry(keys, v), true)
  {
    hide LoadEntry, HasText;
    assert [v][1..] == [];
    assert LoadEntry(keys, v) + [] == LoadEntry(keys, v);
  }

  /** The types of the entries by their names. */
  lemma EntryTypes(n: ControlNode)
    ensures var vs := PrintNode(n);
      if n.action.FreeLook? then vs == []
      else
        && |vs| == 1
        && Get(vs[0], Type) == JStr(if n.action.RepeatedTap? then "KMT_CLICK_MULTI" else if n.action.DPad? then "KMT_STEER_WHEEL"
                                    else if n.action.DragSwipe? then "KMT_DRAG" else "KMT_CLICK")
  {
    hide Clicks;
  }

  /** The game makes of a node's entry what the editor shows. */
  lemma {:induction false} EntryLoads(keys: KeyTable, n: ControlNode)
    ensures LoadEntries(keys, PrintNode(n)) == (Played(keys, n), true)
  {
    hide LoadClick, LoadTaps, LoadWheel, LoadDrag, Known, Clicks, ClickJson, TapsOf;
    KindsDiffer();
    match n.action
    case FreeLook =>
    case TapSpot => ClickEntry(keys, n.key, n.pos);
    case AimPanShoot => ClickEntry(keys, ShootKey(n), n.fireAnchorPos);
    case RepeatedTap => OneEntry(keys, PrintNode(n)[0]); TapsLoad(keys, n);
    case DPad => OneEntry(keys, PrintNode(n)[0]); WheelLoads(keys, n);
    case DragSwipe => OneEntry(keys, PrintNode(n)[0]); DragLoads(keys, n);
  }

  lemma ClickEntry(keys: KeyTable, key: string, pos: Point)
    ensures LoadEntries(keys, [ClickJson(key, pos)]) == (if Known(keys, key) then [GameClick(key, pos, false, 0.0)] else [], true)
  {
    hide LoadClick, Known, LoadEntries;
    OneEntry(keys, ClickJson(key, pos));
    ClickLoads(keys, key, pos);
  }

  lemma {:induction false} EntriesAppend(keys: KeyTable, vs: seq<Json>, ws: seq<Json>)
    requires LoadEntries(keys, vs).1
    ensures LoadEntries(keys, vs + ws) == (LoadEntries(keys, vs).0 + LoadEntries(keys, ws).0, LoadEntries(keys, ws).1)
    decreases |vs|
  {
    hide LoadEntry, HasText;
    if vs == [] {
      assert vs + ws == ws;
      assert [] + LoadEntries(keys, ws).0 == LoadEntries(keys, ws).0;
    } else {
      assert (vs + ws)[0] == vs[0] && (vs + ws)[1..] == vs[1..] + ws;
      EntriesAppend(keys, vs[1..], ws);
      var a, b, c := LoadEntry(keys, vs[0]), LoadEntries(keys, vs[1..]).0, LoadEntries(keys, ws).0;
      assert a + b + c == a + (b + c);
    }
  }

  lemma {:induction false} AllEntriesLoad(keys: KeyTable, ns: seq<ControlNode>)
    ensures LoadEntries(keys, PrintNodes(ns)) == (AllPlayed(keys, ns), true)
    decreases |ns|
  {
    hide Played, PrintNode, LoadEntries;
    if ns == [] {
      NoEntries(keys);
    } else {
      var past, n := ns[..|ns| - 1], ns[|ns| - 1];
      AllEntriesLoad(keys, past);
      EntryLoads(keys, n);
      EntriesAppend(keys, PrintNodes(past), PrintNode(n));
    }
  }

  lemma {:induction false} NoEntries(keys: KeyTable)
    ensures LoadEntries(keys, []) == ([], true)
  {
  }

  lemma LookLoads(keys: KeyTable, n: ControlNode)
    requires IsLook(n)
    ensures LoadLook(keys, PrintLook(n)) ==
      if n.smallEyesKey == "" || Known(keys, n.smallEyesKey) then Some(LookPlayed(n)) else None
  {
    var m := PrintLook(n);
    PosFormed(m, StartPos, n.pos);
    PosFormed(ClickJson(n.smallEyesKey, n.pos), Pos, n.pos);
  }

  lemma {:induction false} RootMembers(mouse: MouseNames, switchKey: string, cursorLockKey: string, ns: seq<ControlNode>)
    ensures var root, i := PrintRoot(mouse, switchKey, cursorLockKey, ns), FirstLook(ns);
      && AsKey(root, SwitchKey) == (if switchKey == "" then "Key_QuoteLeft" else switchKey)
      && AsKey(root, CursorLockKey) == (if cursorLockKey == "" then "Key_F1" else cursorLockKey)
      && Get(root, MouseMoveMap) == (if i < |ns| then PrintLook(ns[i]) else Undefined)
      && AsItems(Get(root, KeyMapNodes)) == PrintNodes(ns)
  {
    hide PrintNodes, PrintLook, FirstLook, ShootName;
    var root, i := PrintRoot(mouse, switchKey, cursorLockKey, ns), FirstLook(ns);
    assert SwitchKey in root.members && CursorLockKey in root.members && KeyMapNodes in root.members;
    if i == |ns| {
      assert MouseMoveMap !in root.members;
    } else {
      assert MouseMoveMap in root.members;
    }
  }

  /** The switch key is unknown, or the precision key of the look control is set and unknown: the game loads nothing. */
  predicate Unloadable(keys: KeyTable, switchKey: string, ns: seq<ControlNode>) {
    var i := FirstLook(ns);
    || !Known(keys, if switchKey == "" then "Key_QuoteLeft" else switchKey)
    || (i < |ns| && ns[i].smallEyesKey != "" && !Known(keys, ns[i].smallEyesKey))
  }

  /**
   For every scheme: the game loads nothing of its file under the condition above, and otherwise the look control and, in
   order, the controls of all nodes whose keys it knows, each as it stands in the editor.
   */
  lemma {:induction false} GameLoads(keys: KeyTable, mouse: MouseNames, switchKey: string, cursorLockKey: string, ns: seq<ControlNode>)
    ensures var game := LoadKeyMap(keys, PrintRoot(mouse, switchKey, cursorLockKey, ns)); var i := FirstLook(ns);
      var switch := if switchKey == "" then "Key_QuoteLeft" else switchKey;
      if Unloadable(keys, switchKey, ns) then game == GameMap(if Known(keys, switch) then switch else "", [], false)
      else game == GameMap(switch,
                           (if i < |ns| then [LookPlayed(ns[i])] else []) + AllPlayed(keys, ns), true)
  {
    hide LoadEntries, PrintNodes, PrintLook, LoadLook, LookPlayed, AllPlayed, Known, FirstLook, ShootName, PrintRoot, Get, AsText;
    RootMembers(mouse, switchKey, cursorLockKey, ns);
    AllEntriesLoad(keys, ns);
    var i := FirstLook(ns);
    if i < |ns| {
      LookLoads(keys, ns[i]);
      assert PrintLook(ns[i]).JObj? by { LookIsObject(ns[i]); }
    }
  }

  /** Of a scheme made in the editor nothing is cut or lost: all taps are there, at whole intervals, and every delay. */
  lemma EditedPlays(keys: KeyTable, mouse: MouseNames, ns: seq<ControlNode>, i: nat)
    requires EditorInv(mouse, ns) && i < |ns|
    ensures var n := ns[i];
      && (n.action.RepeatedTap? && Known(keys, n.key) ==>
            Played(keys, n) == [GameTaps(n.key, seq(n.repeatCount, (j: nat) => Timed(j * n.repeatIntervalMs, n.pos)))])
      && (n.action.DragSwipe? && Known(keys, n.key) ==>
            Played(keys, n) == [GameDrag(n.key, n.pos, n.endPos, Some(n.dragStartDelayMs as int), n.dragSpeed)])
  {
    hide MouseOnce, CleanFields, Slots, KeysOf, Known;
    var n := ns[i];
    assert InBounds(n);
    if n.action.RepeatedTap? {
      var taps := seq(n.repeatCount, (j: nat) => Timed(j * n.repeatIntervalMs, n.pos));
      forall j: nat | j < n.repeatCount ensures TapsOf(n)[j] == taps[j] { SmallProduct(j, n.repeatIntervalMs); }
      assert TapsOf(n) == taps;
    }
  }

  lemma SmallProduct(j: nat, interval: int)
    requires j < 50 && 10 <= interval <= 5000
    ensures ToInt32(j * interval) == j * interval
  {
    assert 0 <= j * interval <= 50 * 5000;
  }

  // ---- entries of any file ----

  predicate Placed(v: Json, name: Name) { Get(Get(v, name), X).JNum? && Get(Get(v, name), Y).JNum? }

  predicate Keyed(keys: KeyTable, v: Json, name: Name) { Get(v, name).JStr? && Known(keys, Get(v, name).text) }

  predicate Tapped(v: Json) { Placed(v, Pos) && Get(v, Delay).JNum? }

  /** What an entry must hold to be played, by its type. */
  predicate Playable(keys: KeyTable, v: Json) {
    var kind, taps := Get(v, Type), Get(v, ClickNodes);
    || (kind == JStr("KMT_CLICK") && Keyed(keys, v, Key) && Placed(v, Pos) && Get(v, SwitchMap).JBool?)
    || (kind == JStr("KMT_CLICK_MULTI") && Keyed(keys, v, Key) && taps.JArr? && taps.items != [] && forall t :: t in taps.items ==> Tapped(t))
    || (kind == JStr("KMT_STEER_WHEEL") && Placed(v, CenterPos)
        && (forall name :: name in {LeftKey, RightKey, UpKey, DownKey} ==> Keyed(keys, v, name))
        && (forall name :: name in {LeftOffset, RightOffset, UpOffset, DownOffset} ==> Get(v, name).JNum?))
    || (kind == JStr("KMT_DRAG") && Keyed(keys, v, Key) && Placed(v, StartPos) && Placed(v, EndPos))
  }

  lemma TapsAreIff(items: seq<Json>)
    ensures (forall i :: 0 <= i < |items| ==> HasPos(items[i], Pos) && HasNumber(items[i], Delay)) <==> forall t :: t in items ==> Tapped(t)
  {
    hide HasPos, Placed;
    forall t ensures HasPos(t, Pos) <==> Placed(t, Pos) { PlaceIs(t, Pos); }
    if forall i :: 0 <= i < |items| ==> HasPos(items[i], Pos) && HasNumber(items[i], Delay) {
      forall t | t in items ensures Tapped(t) {
        var i :| 0 <= i < |items| && items[i] == t;
      }
    }
    if forall t :: t in items ==> Tapped(t) {
      forall i | 0 <= i < |items| ensures HasPos(items[i], Pos) && HasNumber(items[i], Delay) { assert Tapped(items[i]); }
    }
  }

  /** An entry is played exactly when it has every member of its type, and its keys are known. */
  lemma PlayedIff(keys: KeyTable, v: Json)
    requires keys("").NoKey?
    ensures LoadEntry(keys, v) != [] <==> Playable(keys, v)
  {
    hide Placed, Keyed, HasPos, Known, Tapped, HasNumber;
    KindsDiffer();
    if AsKey(v, Type) == CLICK_MULTI {
      KeyIs(keys, v, Key);
      TapsAreIff(AsItems(Get(v, ClickNodes)));
    } else {
      OthersPlayedIff(keys, v);
    }
  }

  lemma OthersPlayedIff(keys: KeyTable, v: Json)
    requires keys("").NoKey? && AsKey(v, Type) != CLICK_MULTI
    ensures LoadEntry(keys, v) != [] <==> Playable(keys, v)
  {
    hide Placed, Keyed, HasPos, Known;
    KindsDiffer();
    forall name ensures HasPos(v, name) <==> Placed(v, name) { PlaceIs(v, name); }
    forall name ensures Known(keys, AsKey(v, name)) <==> Keyed(keys, v, name) { KeyIs(keys, v, name); }
    forall name | Known(keys, AsKey(v, name)) ensures HasText(v, name) { KeyedIsText(keys, v, name); }
  }

  lemma KeyedIsText(keys: KeyTable, v: Json, name: Name)
    requires keys("").NoKey? && Known(keys, AsKey(v, name))
    ensures HasText(v, name)
  {
  }

  lemma PlaceIs(v: Json, name: Name)
    ensures HasPos(v, name) <==> Placed(v, name)
  {
  }

  lemma KeyIs(keys: KeyTable, v: Json, name: Name)
    requires keys("").NoKey?
    ensures Known(keys, AsKey(v, name)) <==> Keyed(keys, v, name)
  {
  }

  /** The look control is played exactly when it has a start and some speed, and its precision key, if any, is a click that plays. */
  lemma LookPlayedIff(keys: KeyTable, m: Json)
    requires keys("").NoKey?
    ensures LoadLook(keys, m).Some? <==>
      && (exists name :: name in {SensitivityX, SensitivityY, SpeedRatio, SpeedRatioX, SpeedRatioY} && Get(m, name).JNum?)
      && Get(m, StartPos).JObj?
      && (Get(m, SmallEyes).JObj? ==> Get(Get(m, SmallEyes), Type) == JStr("KMT_CLICK") && Playable(keys, Get(m, SmallEyes)))
  {
    hide Playable, ClickFormed, Known, LoadSpeed;
    var eyes := Get(m, SmallEyes);
    assert HasNumber(m, SensitivityX) || HasNumber(m, SensitivityY) || HasNumber(m, SpeedRatio) || HasNumber(m, SpeedRatioX)
           || HasNumber(m, SpeedRatioY)
      <==> exists name :: name in {SensitivityX, SensitivityY, SpeedRatio, SpeedRatioX, SpeedRatioY} && Get(m, name).JNum?;
    KindsDiffer();
    PlayedIff(keys, eyes);
    assert AsKey(eyes, Type) == CLICK ==> LoadEntry(keys, eyes) == LoadClick(keys, eyes);
  }

  /** The first entry that is no object or has no type ends the loading: what came before it stays, nothing after it counts. */
  lemma {:induction false} LoadingEnds(keys: KeyTable, vs: seq<Json>, bad: Json, more: seq<Json>)
    requires LoadEntries(keys, vs).1 && (!bad.JObj? || !Get(bad, Type).JStr?)
    ensures LoadEntries(keys, vs + ([bad] + more)) == (LoadEntries(keys, vs).0, false)
  {
    hide LoadEntry, Get;
    if vs == [] {
      assert [] + ([bad] + more) == [bad] + more;
    } else {
      assert (vs + ([bad] + more))[1..] == vs[1..] + ([bad] + more);
      LoadingEnds(keys, vs[1..], bad, more);
    }
  }

  /** A click with all it needs and no more, and a swipe with a start delay or without. */
  lemma HandWritten(keys: KeyTable, key: string, at: Point, to: Point, switches: bool, d: int)
    requires Known(keys, key)
    ensures LoadEntry(keys, JObj(map[Type := JStr("KMT_CLICK"), Key := JStr(key), Pos := PosJson(at), SwitchMap := JBool(switches)]))
         == [GameClick(key, at, switches, 0.0)]
    ensures LoadEntry(keys, JObj(map[Type := JStr("KMT_DRAG"), Key := JStr(key), StartPos := PosJson(at), EndPos := PosJson(to)]))
         == [GameDrag(key, at, to, Some(0), 1.0)]
    ensures LoadEntry(keys, JObj(map[Type := JStr("KMT_DRAG"), Key := JStr(key), StartPos := PosJson(at), EndPos := PosJson(to),
                                     StartDelay := JNum(d as real)]))
         == [GameDrag(key, at, to, if 0 <= d < 0x1_0000_0000 then Some(d) else None, 1.0)]
  {
    hide Known;
    KindsDiffer();
    var click := JObj(map[Type := JStr("KMT_CLICK"), Key := JStr(key), Pos := PosJson(at), SwitchMap := JBool(switches)]);
    var drag := JObj(map[Type := JStr("KMT_DRAG"), Key := JStr(key), StartPos := PosJson(at), EndPos := PosJson(to)]);
    PosFormed(click, Pos, at);
    PosFormed(drag, StartPos, at);
    PosFormed(drag, EndPos, to);
    var late := JObj(drag.members[StartDelay := JNum(d as real)]);
    PosFormed(late, StartPos, at);
    PosFormed(late, EndPos, to);
  }

  /** `loadKeyMap` over the entries, in its own form. */
  method LoadNodes(keys: KeyTable, entries: seq<Json>) returns (nodes: seq<GameNode>, done: bool)
    ensures (nodes, done) == LoadEntries(keys, entries)
  {
    hide LoadEntry, HasText;
    nodes, done := [], true;
    var i := 0;
    assert entries[0..] == entries && nodes + LoadEntries(keys, entries).0 == LoadEntries(keys, entries).0;
    while i < |entries|
      invariant 0 <= i <= |entries| && done
      invariant var rest := LoadEntries(keys, entries[i..]);
                LoadEntries(keys, entries) == (nodes + rest.0, rest.1)
    {
      var v := entries[i];
      assert entries[i..][0] == v && entries[i..][1..] == entries[i + 1..];
      if !v.JObj? || !HasText(v, Type) {
        assert nodes + [] == nodes;
        return nodes, false;
      }
      var more := LoadEntry(keys, v);
      assert nodes + (more + LoadEntries(keys, entries[i + 1..]).0) == nodes + more + LoadEntries(keys, entries[i + 1..]).0;
      nodes := nodes + more;
      i := i + 1;
    }
    assert entries[i..] == [];
    assert nodes + [] == nodes;
  }
}
