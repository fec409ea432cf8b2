/**
 Printing a scheme and parsing it back: the normal form it should come back in, and exactly which schemes do.
 */
module SchemeRoundTrip {
  import opened SchemeJson
  import opened SchemeStore

  /** The fields that mean something for the action; everything else at its default. */
  function Normal(n: ControlNode): ControlNode {
    var d := DefaultNode(n.action);
    match n.action
    case TapSpot => d.(key := n.key, pos := n.pos)
    case RepeatedTap =>
      d.(key := n.key, pos := n.pos, repeatCount := MaxOf(1, n.repeatCount),
         repeatIntervalMs := if n.repeatCount > 1 then MaxOf(1, n.repeatIntervalMs) else d.repeatIntervalMs)
    case DPad => d.(pos := n.pos, upKey := n.upKey, downKey := n.downKey, leftKey := n.leftKey, rightKey := n.rightKey, offset := n.offset)
    case DragSwipe => d.(key := n.key, pos := n.pos, endPos := n.endPos, dragStartDelayMs := n.dragStartDelayMs, dragSpeed := n.dragSpeed)
    case FreeLook => NormalLook(n)
    case AimPanShoot => NormalLook(n).(action := AimPanShoot, key := ShootKey(n), fireAnchorPos := n.fireAnchorPos)
  }

  function NormalLook(n: ControlNode): ControlNode {
    DefaultNode(FreeLook).(pos := n.pos, lookSpeedX := n.lookSpeedX, lookSpeedY := n.lookSpeedY,
                           smallEyesKey := n.smallEyesKey, suspendKey := n.suspendKey)
  }

  function Others(ns: seq<ControlNode>): (r: seq<ControlNode>)
    decreases |ns|
  {
    if ns == [] then []
    else Others(ns[..|ns| - 1]) + (if IsLook(ns[|ns| - 1]) then [] else [Normal(ns[|ns| - 1])])
  }

  function Looks(ns: seq<ControlNode>): (r: seq<ControlNode>)
    decreases |ns|
  {
    if ns == [] then []
    else Looks(ns[..|ns| - 1]) + (if IsLook(ns[|ns| - 1]) then [Normal(ns[|ns| - 1])] else [])
  }

  /** The other nodes in order, the look node last, default keys filled in. */
  function NormalScheme(switchKey: string, cursorLockKey: string, ns: seq<ControlNode>): Scheme {
    Scheme(if switchKey == "" then DEFAULT_SWITCH_KEY else switchKey,
           if cursorLockKey == "" then DEFAULT_CURSOR_LOCK_KEY else cursorLockKey,
           Others(ns) + Looks(ns))
  }

  /** Near is within a thousandth of the screen, counted along the axes. */
  lemma NearMeans(p: Point, q: Point)
    ensures var dx, dy := p.x - q.x, p.y - q.y;
      Near(p, q) <==> dx + dy < 0.001 && dx - dy < 0.001 && dy - dx < 0.001 && -dx - dy < 0.001
  {
  }

  // ---- one node ----

  /** What parsing does with the entry of a node. */
  function ParseNode(r: Root, p: Parse, n: ControlNode): Parse {
    match n.action
    case FreeLook => p
    case TapSpot => ParseClick(r, p, n.key, n.pos)
    case AimPanShoot => ParseClick(r, p, ShootKey(n), n.fireAnchorPos)
    case _ => p.(nodes := p.nodes + [Normal(n)])
  }

  function ParseClick(r: Root, p: Parse, key: string, pos: Point): Parse {
    if Absorbs(r, key, pos) then p.(look := p.look.(action := AimPanShoot, key := key, fireAnchorPos := pos))
    else p.(nodes := p.nodes + [DefaultNode(TapSpot).(key := key, pos := pos)])
  }

  lemma {:induction false} ParseOne(r: Root, p: Parse, v: Json)
    ensures ParseEntries(r, p, [v]) == ParseEntry(r, p, v)
  {
    assert [v][..0] == [];
    assert ParseEntries(r, p, []) == p;
  }

  lemma PosRoundTrip(pos: Point, j: Json, name: Name)
    requires Get(j, name) == PosJson(pos)
    ensures JsonPos(j, name) == pos
  {
  }

  lemma ClickParses(r: Root, p: Parse, key: string, pos: Point)
    ensures ParseEntry(r, p, ClickJson(key, pos)) == ParseClick(r, p, key, pos)
  {
    hide Absorbs;
    PosRoundTrip(pos, ClickJson(key, pos), Pos);
  }

  lemma MultiParses(n: ControlNode)
    requires n.action.RepeatedTap?
    ensures ParseMulti(PrintNode(n)[0]) == Normal(n)
  {
    hide Clicks;
    var v := PrintNode(n)[0];
    var cs := AsItems(Get(v, ClickNodes));
    assert cs == Clicks(n, MaxOf(1, n.repeatCount));
    PosRoundTrip(n.pos, cs[0], Pos);
    WholeRoundTrip(0);
    if |cs| > 1 { WholeRoundTrip(MaxOf(1, n.repeatIntervalMs)); }
  }

  lemma DragParses(n: ControlNode)
    requires n.action.DragSwipe?
    ensures ParseDrag(PrintNode(n)[0]) == Normal(n)
  {
    var v := PrintNode(n)[0];
    PosRoundTrip(n.pos, v, StartPos);
    PosRoundTrip(n.endPos, v, EndPos);
    DelayRoundTrip(n.dragStartDelayMs);
  }

  lemma WheelParses(n: ControlNode)
    requires n.action.DPad?
    ensures ParseWheel(PrintNode(n)[0]) == Normal(n)
  {
    PosRoundTrip(n.pos, PrintNode(n)[0], CenterPos);
  }

  lemma KindsDiffer()
    ensures CLICK != CLICK_MULTI && CLICK != STEER_WHEEL && CLICK != DRAG
    ensures CLICK_MULTI != STEER_WHEEL && CLICK_MULTI != DRAG && STEER_WHEEL != DRAG
  {
    assert CLICK_MULTI[4] == 'C' && STEER_WHEEL[4] == 'S';
  }

  lemma {:induction false} NodeParses(r: Root, p: Parse, n: ControlNode)
    ensures ParseEntries(r, p, PrintNode(n)) == ParseNode(r, p, n)
  {
    hide ParseMulti, ParseWheel, ParseDrag, Normal, Absorbs, ClickJson, ParseClick, Clicks;
    match n.action
    case FreeLook =>
    case TapSpot => ParseOne(r, p, ClickJson(n.key, n.pos)); ClickParses(r, p, n.key, n.pos);
    case AimPanShoot => ParseOne(r, p, ClickJson(ShootKey(n), n.fireAnchorPos)); ClickParses(r, p, ShootKey(n), n.fireAnchorPos);
    case RepeatedTap => KindsDiffer(); ParseOne(r, p, PrintNode(n)[0]); MultiParses(n);
    case DPad => KindsDiffer(); ParseOne(r, p, PrintNode(n)[0]); WheelParses(n);
    case DragSwipe => KindsDiffer(); ParseOne(r, p, PrintNode(n)[0]); DragParses(n);
  }

  // ---- all nodes ----

  function ParseNodes(r: Root, p: Parse, ns: seq<ControlNode>): Parse
    decreases |ns|
  {
    if ns == [] then p else ParseNode(r, ParseNodes(r, p, ns[..|ns| - 1]), ns[|ns| - 1])
  }

  lemma {:induction false} ParseAppend(r: Root, p: Parse, vs: seq<Json>, ws: seq<Json>)
    ensures ParseEntries(r, p, vs + ws) == ParseEntries(r, ParseEntries(r, p, vs), ws)
    decreases |ws|
  {
    hide ParseEntry;
    if ws == [] {
      assert vs + ws == vs;
    } else {
      assert (vs + ws)[..|vs + ws| - 1] == vs + ws[..|ws| - 1];
      ParseAppend(r, p, vs, ws[..|ws| - 1]);
    }
  }

  lemma {:induction false} NodesParse(r: Root, p: Parse, ns: seq<ControlNode>)
    ensures ParseEntries(r, p, PrintNodes(ns)) == ParseNodes(r, p, ns)
    decreases |ns|
  {
    hide ParseEntry, PrintNode, ParseNode;
    if ns == [] {
    } else {
      var past, n := ns[..|ns| - 1], ns[|ns| - 1];
      NodesParse(r, p, past);
      ParseAppend(r, p, PrintNodes(past), PrintNode(n));
      NodeParses(r, ParseNodes(r, p, past), n);
    }
  }

  /** The root of a printed scheme, read back. */
  function PrintedRoot(mouse: MouseNames, ns: seq<ControlNode>): Root {
    var i := FirstLook(ns);
    if i == |ns| then Root(false, Point(0.0, 0.0), "") else Root(true, ns[i].pos, ShootName(mouse, ns[i]))
  }

  lemma LookParses(n: ControlNode)
    requires IsLook(n)
    ensures ParseLook(PrintLook(n)) == NormalLook(n)
  {
    PosRoundTrip(n.pos, PrintLook(n), StartPos);
  }

  lemma {:induction false} RootParses(mouse: MouseNames, switchKey: string, cursorLockKey: string, ns: seq<ControlNode>)
    ensures var root, normal := PrintRoot(mouse, switchKey, cursorLockKey, ns), NormalScheme(switchKey, cursorLockKey, ns);
      && RootOf(root).hasLook == PrintedRoot(mouse, ns).hasLook
      && (RootOf(root).hasLook ==> RootOf(root) == PrintedRoot(mouse, ns) && LookOf(root) == NormalLook(ns[FirstLook(ns)]))
      && AsItems(Get(root, KeyMapNodes)) == PrintNodes(ns)
      && AsText(Get(root, SwitchKey), DEFAULT_SWITCH_KEY) == normal.switchKey
      && AsText(Get(root, CursorLockKey), DEFAULT_CURSOR_LOCK_KEY) == normal.cursorLockKey
  {
    hide FirstLook, PrintNodes, ShootName, Others, Looks, ParseLook, PrintLook;
    var i := FirstLook(ns);
    if i < |ns| {
      LookParses(ns[i]);
      assert PrintLook(ns[i]).JObj? by { LookIsObject(ns[i]); }
    }
  }

  /** The multiplier for a divisor of an old file; a divisor near zero or below counts as none. */
  predicate Inverts(speed: real, divisor: real) {
    if divisor < 0.001 then speed == 1.0 else speed * divisor == 1.0
  }

  /**
   The divisors of old files become multipliers: a divisor of the axis wins over the common one, whose vertical effect is
   divided by 2.25, and a sensitivity in the file wins over both.
   */
  lemma LegacySpeeds(m: Json, sx: real, sy: real, rx: real, ry: real, r: real)
    requires Contains(m, SensitivityX) ==> Get(m, SensitivityX) == JNum(sx)
    requires Contains(m, SensitivityY) ==> Get(m, SensitivityY) == JNum(sy)
    requires Contains(m, SpeedRatioX) ==> Get(m, SpeedRatioX) == JNum(rx)
    requires Contains(m, SpeedRatioY) ==> Get(m, SpeedRatioY) == JNum(ry)
    requires Contains(m, SpeedRatio) ==> Get(m, SpeedRatio) == JNum(r)
    ensures Contains(m, SensitivityX) ==> ParseSpeedX(m) == sx
    ensures !Contains(m, SensitivityX) ==>
      Inverts(ParseSpeedX(m), if Contains(m, SpeedRatioX) then rx else if Contains(m, SpeedRatio) then r else 1.0)
    ensures Contains(m, SensitivityY) ==> ParseSpeedY(m) == sy
    ensures !Contains(m, SensitivityY) ==>
      Inverts(ParseSpeedY(m), if Contains(m, SpeedRatioY) then ry else if Contains(m, SpeedRatio) then r / 2.25 else 1.0)
  {
  }

  lemma LookIsObject(n: ControlNode)
    ensures PrintLook(n).JObj?
  {
  }

  // ---- which nodes survive ----

  /** A tap, or the shoot spot of an aim node, as a click. */
  predicate IsClick(n: ControlNode) { n.action.TapSpot? || n.action.AimPanShoot? }

  function ClickKey(n: ControlNode): string { if n.action.AimPanShoot? then ShootKey(n) else n.key }
  function ClickPos(n: ControlNode): Point { if n.action.AimPanShoot? then n.fireAnchorPos else n.pos }

  predicate IsAbsorbed(r: Root, n: ControlNode) { IsClick(n) && Absorbs(r, ClickKey(n), ClickPos(n)) }

  function Survivor(r: Root, n: ControlNode): seq<ControlNode> {
    if n.action.FreeLook? || IsAbsorbed(r, n) then []
    else if IsClick(n) then [DefaultNode(TapSpot).(key := ClickKey(n), pos := ClickPos(n))]
    else [Normal(n)]
  }

  function Survivors(r: Root, ns: seq<ControlNode>): seq<ControlNode>
    decreases |ns|
  {
    if ns == [] then [] else Survivors(r, ns[..|ns| - 1]) + Survivor(r, ns[|ns| - 1])
  }

  lemma {:induction false} NodesSurvive(r: Root, p: Parse, ns: seq<ControlNode>)
    ensures ParseNodes(r, p, ns).nodes == p.nodes + Survivors(r, ns)
    decreases |ns|
  {
    hide Absorbs, Normal;
    if ns == [] {
      assert p.nodes + [] == p.nodes;
    } else {
      NodesSurvive(r, p, ns[..|ns| - 1]);
      var n := ns[|ns| - 1];
      SurvivorJoins(p.nodes, Survivors(r, ns[..|ns| - 1]), Survivor(r, n));
    }
  }

  lemma SurvivorJoins(a: seq<ControlNode>, b: seq<ControlNode>, c: seq<ControlNode>)
    ensures a + (b + c) == (a + b) + c
  {
  }

  /** No survivor is a look node, and none is a tap that would be absorbed. */
  lemma {:induction false} SurvivorsStay(r: Root, ns: seq<ControlNode>)
    ensures forall n :: n in Survivors(r, ns) ==> !IsLook(n) && !IsAbsorbed(r, n)
    decreases |ns|
  {
    hide Absorbs;
    if ns == [] {
    } else {
      SurvivorsStay(r, ns[..|ns| - 1]);
    }
  }

  /** Nothing is absorbed but the shoot spot of an aim node. */
  predicate OnlyOwnAbsorbed(r: Root, ns: seq<ControlNode>) {
    forall i :: 0 <= i < |ns| && ns[i].action.TapSpot? ==> !IsAbsorbed(r, ns[i])
  }

  /** Aim nodes whose shoot spot comes back as a tap. */
  function LostSpots(r: Root, ns: seq<ControlNode>): nat
    decreases |ns|
  {
    if ns == [] then 0
    else LostSpots(r, ns[..|ns| - 1]) + if ns[|ns| - 1].action.AimPanShoot? && !IsAbsorbed(r, ns[|ns| - 1]) then 1 else 0
  }

  lemma OnlyOwnPrefix(r: Root, ns: seq<ControlNode>)
    requires ns != [] && OnlyOwnAbsorbed(r, ns)
    ensures OnlyOwnAbsorbed(r, ns[..|ns| - 1])
  {
    assert forall i :: 0 <= i < |ns| - 1 ==> ns[..|ns| - 1][i] == ns[i];
  }

  lemma {:induction false} SurvivorsCount(r: Root, ns: seq<ControlNode>)
    requires OnlyOwnAbsorbed(r, ns)
    ensures |Survivors(r, ns)| == |Others(ns)| + LostSpots(r, ns)
    ensures LostSpots(r, ns) == 0 ==> Survivors(r, ns) == Others(ns)
    decreases |ns|
  {
    hide Absorbs;
    if ns == [] {
    } else {
      OnlyOwnPrefix(r, ns);
      SurvivorsCount(r, ns[..|ns| - 1]);
    }
  }

  lemma {:induction false} OthersHold(ns: seq<ControlNode>, i: nat)
    requires i < |ns|
    ensures if IsLook(ns[i]) then Normal(ns[i]) in Looks(ns) else Normal(ns[i]) in Others(ns)
    decreases |ns|
  {
    hide Normal;
    if i == |ns| - 1 {
    } else {
      OthersHold(ns[..|ns| - 1], i);
    }
  }

  lemma NormalKeepsClick(r: Root, n: ControlNode)
    ensures Normal(n).action == n.action && (n.action.TapSpot? ==> IsAbsorbed(r, Normal(n)) == IsAbsorbed(r, n))
  {
    hide Absorbs;
  }

  lemma {:induction false} LooksAreLooks(ns: seq<ControlNode>)
    ensures forall n :: n in Looks(ns) ==> IsLook(n)
    ensures forall n :: n in Others(ns) ==> !IsLook(n)
    decreases |ns|
  {
    hide Normal, Absorbs;
    if ns == [] {
    } else {
      LooksAreLooks(ns[..|ns| - 1]);
      NormalKeepsClick(Root(false, Point(0.0, 0.0), ""), ns[|ns| - 1]);
    }
  }

  // ---- the look node ----

  /** Index of the last click that is absorbed. */
  function LastAbsorbed(r: Root, ns: seq<ControlNode>): (k: nat)
    ensures k <= |ns| && (k < |ns| ==> IsAbsorbed(r, ns[k]))
    ensures forall j :: 0 <= j < |ns| && (j > k || k == |ns|) ==> !IsAbsorbed(r, ns[j])
    decreases |ns|
  {
    if ns == [] then 0
    else if IsAbsorbed(r, ns[|ns| - 1]) then |ns| - 1
    else
      var k := LastAbsorbed(r, ns[..|ns| - 1]);
      if k == |ns| - 1 then |ns| else k
  }

  function Aimed(r: Root, look: ControlNode, ns: seq<ControlNode>): ControlNode {
    var k := LastAbsorbed(r, ns);
    if k == |ns| then look else look.(action := AimPanShoot, key := ClickKey(ns[k]), fireAnchorPos := ClickPos(ns[k]))
  }

  /** The look node is what the last absorbed click makes it. */
  lemma {:induction false} LookIsLast(r: Root, p: Parse, ns: seq<ControlNode>)
    ensures ParseNodes(r, p, ns).look == Aimed(r, p.look, ns)
    decreases |ns|
  {
    hide Absorbs, Normal;
    if ns == [] {
    } else {
      LookIsLast(r, p, ns[..|ns| - 1]);
    }
  }
}
