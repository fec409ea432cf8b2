/**
 `toJson` and `fromJson` in their own form: loops that append to arrays and to the list of nodes, and that change the
 look node on the way.
 */
module SchemeFiles {
  import opened SchemeJson
  import opened SchemeStore

  method ToJson(mouse: MouseNames, switchKey: string, cursorLockKey: string, nodes: seq<ControlNode>) returns (json: Json)
    ensures json == PrintRoot(mouse, switchKey, cursorLockKey, nodes)
  {
    hide PrintNode, PrintLook, ShootName, PrintNodes;
    var root := map[SwitchKey := JStr(if switchKey == "" then DEFAULT_SWITCH_KEY else switchKey),
                    CursorLockKey := JStr(if cursorLockKey == "" then DEFAULT_CURSOR_LOCK_KEY else cursorLockKey)];
    var i := 0;
    while i < |nodes| && !IsLook(nodes[i])
      invariant 0 <= i <= |nodes| && forall j :: 0 <= j < i ==> !IsLook(nodes[j])
    {
      i := i + 1;
    }
    assert i == FirstLook(nodes);
    if i < |nodes| {
      var look := LookToJson(nodes[i]);
      root := root[MouseMoveMap := look];
      var shoot := ShootName(mouse, nodes[i]);
      if shoot != "" { root := root[ShootButton := JStr(shoot)]; }
    }
    var entries := EntriesToJson(nodes);
    root := root[KeyMapNodes := JArr(entries)];
    json := JObj(root);
  }

  method LookToJson(node: ControlNode) returns (json: Json)
    ensures json == PrintLook(node)
  {
    var mouseMoveMap := map[SensitivityX := JNum(node.lookSpeedX), SensitivityY := JNum(node.lookSpeedY), StartPos := PosJson(node.pos)];
    if node.smallEyesKey != "" { mouseMoveMap := mouseMoveMap[SmallEyes := ClickJson(node.smallEyesKey, node.pos)]; }
    if node.suspendKey != "" { mouseMoveMap := mouseMoveMap[SuspendKey := JStr(node.suspendKey)]; }
    json := JObj(mouseMoveMap);
  }

  method EntriesToJson(nodes: seq<ControlNode>) returns (entries: seq<Json>)
    ensures entries == PrintNodes(nodes)
  {
    hide Clicks, ClickJson;
    entries := [];
    var i := 0;
    while i < |nodes|
      invariant 0 <= i <= |nodes| && entries == PrintNodes(nodes[..i])
    {
      var node := nodes[i];
      match node.action {
        case TapSpot => entries := entries + [ClickJson(node.key, node.pos)];
        case RepeatedTap =>
          var clickNodes := ClicksToJson(node);
          entries := entries + [JObj(map[Type := JStr(CLICK_MULTI), Key := JStr(node.key), ClickNodes := JArr(clickNodes)])];
        case AimPanShoot => entries := entries + [ClickJson(ShootKey(node), node.fireAnchorPos)];
        case FreeLook =>
        case _ => entries := entries + PrintNode(node);
      }
      assert nodes[..i + 1][..i] == nodes[..i];
      assert entries == PrintNodes(nodes[..i]) + PrintNode(node);
      i := i + 1;
    }
    assert nodes[..i] == nodes;
  }

  method ClicksToJson(node: ControlNode) returns (clickNodes: seq<Json>)
    ensures clickNodes == Clicks(node, MaxOf(1, node.repeatCount))
  {
    clickNodes := [];
    var count := MaxOf(1, node.repeatCount);
    var i := 0;
    while i < count
      invariant 0 <= i <= count && clickNodes == Clicks(node, i)
    {
      clickNodes := clickNodes + [Click(node, i)];
      i := i + 1;
    }
  }

  method FromJson(root: Json) returns (scheme: Scheme)
    ensures scheme == ParseRoot(root)
  {
    hide ParseLook, ParseEntry, ParseEntries;
    var switchKey := AsText(Get(root, SwitchKey), DEFAULT_SWITCH_KEY);
    var cursorLockKey := AsText(Get(root, CursorLockKey), DEFAULT_CURSOR_LOCK_KEY);
    var shoot := AsText(Get(root, ShootButton), "");
    var lookNode, haveLookNode := DefaultNode(TapSpot), false;
    var m := Get(root, MouseMoveMap);
    if m.JObj? {
      lookNode := ParseLook(m);
      haveLookNode := true;
    }
    ghost var r := RootOf(root);
    var nodes;
    nodes, lookNode := EntriesFromJson(AsItems(Get(root, KeyMapNodes)), haveLookNode, shoot, lookNode, r);
    if haveLookNode { nodes := nodes + [lookNode]; }
    else { assert nodes + [] == nodes; }
    scheme := Scheme(switchKey, cursorLockKey, nodes);
  }

  method EntriesFromJson(arr: seq<Json>, haveLookNode: bool, shoot: string, look: ControlNode, ghost r: Root)
    returns (nodes: seq<ControlNode>, lookNode: ControlNode)
    requires r.hasLook == haveLookNode && r.shoot == shoot && (haveLookNode ==> r.anchor == look.pos)
    ensures Parse(nodes, lookNode) == ParseEntries(r, Parse([], look), arr)
  {
    hide ParseEntries, ParseMulti, ParseWheel, ParseDrag, Near;
    nodes, lookNode := [], look;
    ParseNone(r, Parse([], look));
    var i := 0;
    while i < |arr|
      invariant 0 <= i <= |arr| && lookNode.pos == look.pos
      invariant Parse(nodes, lookNode) == ParseEntries(r, Parse([], look), arr[..i])
    {
      var v := arr[i];
      assert arr[..i + 1][..i] == arr[..i];
      ParseNext(r, Parse([], look), arr[..i + 1]);
      var kind := AsText(Get(v, Type), "");
      if kind == CLICK {
        var key, pos := AsText(Get(v, Key), ""), JsonPos(v, Pos);
        var atLookAnchor := haveLookNode && Near(pos, lookNode.pos);
        var isShootButton := haveLookNode && shoot != "" && key == shoot;
        if atLookAnchor || isShootButton {
          lookNode := lookNode.(action := AimPanShoot, key := key, fireAnchorPos := pos);
        } else {
          nodes := nodes + [DefaultNode(TapSpot).(key := key, pos := pos)];
        }
      } else if kind == CLICK_MULTI {
        nodes := nodes + [ParseMulti(v)];
      } else if kind == STEER_WHEEL {
        nodes := nodes + [ParseWheel(v)];
      } else if kind == DRAG {
        nodes := nodes + [ParseDrag(v)];
      }
      i := i + 1;
    }
    assert arr[..i] == arr;
  }

  lemma {:induction false} ParseNone(r: Root, p: Parse)
    ensures ParseEntries(r, p, []) == p
  {
  }

  lemma {:induction false} ParseNext(r: Root, p: Parse, vs: seq<Json>)
    requires vs != []
    ensures ParseEntries(r, p, vs) == ParseEntry(r, ParseEntries(r, p, vs[..|vs| - 1]), vs[|vs| - 1])
  {
  }
}
