/**
 The rules of the scheme editor as functions on the list of nodes, the invariant they keep from an empty scheme on, and
 what that invariant gives for saving and loading the scheme.
 */
module SchemeEditing {
  import opened Common
  import opened SchemeStore
  import opened SchemeRoundTrip
  import opened SchemeTheorems

  function Bound(k: string): seq<string> { if k == "" then [] else [k] }

  /** The keys `collectOtherKeys` takes from a node: every bound field. */
  function AllKeys(n: ControlNode): seq<string> {
    Bound(n.key) + Bound(n.upKey) + Bound(n.downKey) + Bound(n.leftKey) + Bound(n.rightKey) + Bound(n.smallEyesKey) + Bound(n.suspendKey)
  }

  /** The slots `validateNodeKeys` looks at: those of the node's action. */
  function Slots(n: ControlNode): seq<string> {
    match n.action
    case TapSpot => Bound(n.key)
    case RepeatedTap => Bound(n.key)
    case DragSwipe => Bound(n.key)
    case DPad => Bound(n.upKey) + Bound(n.downKey) + Bound(n.leftKey) + Bound(n.rightKey)
    case FreeLook => Bound(n.key) + Bound(n.smallEyesKey) + Bound(n.suspendKey)
    case AimPanShoot => Bound(n.key) + Bound(n.smallEyesKey) + Bound(n.suspendKey)
  }

  /** Keys of all nodes but the one at `exclude`. */
  function OtherKeys(ns: seq<ControlNode>, exclude: int): seq<string>
    decreases |ns|
  {
    if ns == [] then []
    else OtherKeys(ns[..|ns| - 1], exclude) + (if exclude == |ns| - 1 then [] else AllKeys(ns[|ns| - 1]))
  }

  function KeysOf(ns: seq<ControlNode>): seq<string> { OtherKeys(ns, |ns|) }

  predicate Distinct(ks: seq<string>) { forall i, j :: 0 <= i < j < |ks| ==> ks[i] != ks[j] }

  predicate Reserved(k: string, switchKey: string, cursorLockKey: string) {
    (switchKey != "" && k == switchKey) || (cursorLockKey != "" && k == cursorLockKey)
  }

  predicate NoneReserved(ks: seq<string>, switchKey: string, cursorLockKey: string) {
    forall i :: 0 <= i < |ks| ==> !Reserved(ks[i], switchKey, cursorLockKey)
  }

  /** No mouse button is bound twice. */
  ghost predicate MouseOnce(mouse: MouseNames, ks: seq<string>) { forall k :: mouse(k) ==> multiset(ks)[k] <= 1 }

  /** What `validateNodeKeys` accepts. */
  ghost predicate Acceptable(mouse: MouseNames, switchKey: string, cursorLockKey: string, n: ControlNode, others: seq<string>) {
    Distinct(Slots(n)) && NoneReserved(Slots(n), switchKey, cursorLockKey) && MouseOnce(mouse, others + Slots(n))
  }

  // ---- the inspector dialog ----

  /** What the user does with the dialog: reject it, or accept it with these values. */
  datatype Answer = Reject | Accept(values: ControlNode)

  /** A capture button holds the key it shows until another one is pressed; a press without a name changes nothing. */
  function Held(shown: string, pressed: string): string { if pressed == "" then shown else pressed }

  /** A spin box holds a number of its range. */
  function Spin(lo: int, v: int, hi: int): int { if v < lo then lo else if v > hi then hi else v }
  function SpinReal(lo: real, v: real, hi: real): real { if v < lo then lo else if v > hi then hi else v }

  /** The result of the dialog for node `n`: only the fields of the action are taken from what was entered. */
  function Inspected(n: ControlNode, d: ControlNode): ControlNode {
    match n.action
    case TapSpot => n.(key := Held(n.key, d.key))
    case RepeatedTap =>
      n.(key := Held(n.key, d.key), repeatCount := Spin(1, d.repeatCount, 50), repeatIntervalMs := Spin(10, d.repeatIntervalMs, 5000))
    case DPad =>
      n.(upKey := Held(n.upKey, d.upKey), downKey := Held(n.downKey, d.downKey), leftKey := Held(n.leftKey, d.leftKey),
         rightKey := Held(n.rightKey, d.rightKey), offset := SpinReal(0.02, d.offset, 0.45))
    case DragSwipe =>
      n.(key := Held(n.key, d.key), endPos := Point(SpinReal(0.0, d.endPos.x, 1.0), SpinReal(0.0, d.endPos.y, 1.0)),
         dragStartDelayMs := Spin(0, d.dragStartDelayMs, 5000), dragSpeed := SpinReal(0.05, d.dragSpeed, 1.0))
    case FreeLook => InspectedLook(n, d)
    case AimPanShoot => InspectedLook(n, d).(key := Held(ShootKey(n), d.key))
  }

  function InspectedLook(n: ControlNode, d: ControlNode): ControlNode {
    n.(lookSpeedX := SpinReal(0.0, d.lookSpeedX, 10.0), lookSpeedY := SpinReal(0.0, d.lookSpeedY, 10.0),
       smallEyesKey := Held(n.smallEyesKey, d.smallEyesKey), suspendKey := Held(n.suspendKey, d.suspendKey))
  }

  predicate HasKey(a: Action) { !a.DPad? && !a.FreeLook? }
  predicate LooksAround(a: Action) { a.FreeLook? || a.AimPanShoot? }

  /** `v` is the number of the range that is nearest to the one entered. */
  predicate Boxed(lo: real, v: real, entered: real, hi: real) {
    lo <= v <= hi && (entered <= lo ==> v == lo) && (entered >= hi ==> v == hi) && (lo <= entered <= hi ==> v == entered)
  }

  /** The key entered, or the one that was there. */
  predicate KeyTaken(key: string, before: string, pressed: string) { if pressed == "" then key == before else key == pressed }

  // What comes of each field: the one entered if it belongs to the action, as it was otherwise.

  predicate TakesKey(r: ControlNode, n: ControlNode, d: ControlNode) {
    if HasKey(n.action) then KeyTaken(r.key, if n.action.AimPanShoot? && n.key == "" then "LeftButton" else n.key, d.key)
    else r.key == n.key
  }

  predicate TakesWheel(r: ControlNode, n: ControlNode, d: ControlNode) {
    if n.action.DPad? then
      && KeyTaken(r.upKey, n.upKey, d.upKey) && KeyTaken(r.downKey, n.downKey, d.downKey)
      && KeyTaken(r.leftKey, n.leftKey, d.leftKey) && KeyTaken(r.rightKey, n.rightKey, d.rightKey)
      && Boxed(0.02, r.offset, d.offset, 0.45)
    else (r.upKey, r.downKey, r.leftKey, r.rightKey, r.offset) == (n.upKey, n.downKey, n.leftKey, n.rightKey, n.offset)
  }

  predicate TakesTaps(r: ControlNode, n: ControlNode, d: ControlNode) {
    if n.action.RepeatedTap? then
      && Boxed(1.0, r.repeatCount as real, d.repeatCount as real, 50.0)
      && Boxed(10.0, r.repeatIntervalMs as real, d.repeatIntervalMs as real, 5000.0)
    else (r.repeatCount, r.repeatIntervalMs) == (n.repeatCount, n.repeatIntervalMs)
  }

  predicate TakesDrag(r: ControlNode, n: ControlNode, d: ControlNode) {
    if n.action.DragSwipe? then
      && Boxed(0.0, r.endPos.x, d.endPos.x, 1.0) && Boxed(0.0, r.endPos.y, d.endPos.y, 1.0)
      && Boxed(0.0, r.dragStartDelayMs as real, d.dragStartDelayMs as real, 5000.0)
      && Boxed(0.05, r.dragSpeed, d.dragSpeed, 1.0)
    else (r.endPos, r.dragStartDelayMs, r.dragSpeed) == (n.endPos, n.dragStartDelayMs, n.dragSpeed)
  }

  predicate TakesLook(r: ControlNode, n: ControlNode, d: ControlNode) {
    if LooksAround(n.action) then
      && Boxed(0.0, r.lookSpeedX, d.lookSpeedX, 10.0) && Boxed(0.0, r.lookSpeedY, d.lookSpeedY, 10.0)
      && KeyTaken(r.smallEyesKey, n.smallEyesKey, d.smallEyesKey) && KeyTaken(r.suspendKey, n.suspendKey, d.suspendKey)
    else (r.lookSpeedX, r.lookSpeedY, r.smallEyesKey, r.suspendKey) == (n.lookSpeedX, n.lookSpeedY, n.smallEyesKey, n.suspendKey)
  }

  predicate Takes(r: ControlNode, n: ControlNode, d: ControlNode) {
    && (r.action, r.pos, r.fireAnchorPos, r.caption) == (n.action, n.pos, n.fireAnchorPos, n.caption)
    && TakesKey(r, n, d) && TakesWheel(r, n, d) && TakesTaps(r, n, d) && TakesDrag(r, n, d) && TakesLook(r, n, d)
  }

  /** Every field of the dialog's result is the one entered, if the action has it, and the node's own otherwise. */
  lemma InspectedTakes(n: ControlNode, d: ControlNode)
    ensures Takes(Inspected(n, d), n, d)
  {
    hide Boxed, KeyTaken, Spin, SpinReal, Held;
    HeldTaken(n.key, d.key);
    HeldTaken(ShootKey(n), d.key);
    match n.action
    case TapSpot =>
    case RepeatedTap =>
      SpinBoxed(1, d.repeatCount, 50);
      SpinBoxed(10, d.repeatIntervalMs, 5000);
    case DPad =>
      HeldTaken(n.upKey, d.upKey);
      HeldTaken(n.downKey, d.downKey);
      HeldTaken(n.leftKey, d.leftKey);
      HeldTaken(n.rightKey, d.rightKey);
      SpinRealBoxed(0.02, d.offset, 0.45);
    case DragSwipe =>
      SpinRealBoxed(0.0, d.endPos.x, 1.0);
      SpinRealBoxed(0.0, d.endPos.y, 1.0);
      SpinBoxed(0, d.dragStartDelayMs, 5000);
      SpinRealBoxed(0.05, d.dragSpeed, 1.0);
    case FreeLook => LookTakes(n, d);
    case AimPanShoot => LookTakes(n, d);
  }

  lemma LookTakes(n: ControlNode, d: ControlNode)
    requires LooksAround(n.action)
    ensures TakesLook(InspectedLook(n, d), n, d)
  {
    hide Boxed, KeyTaken, SpinReal, Held;
    SpinRealBoxed(0.0, d.lookSpeedX, 10.0);
    SpinRealBoxed(0.0, d.lookSpeedY, 10.0);
    HeldTaken(n.smallEyesKey, d.smallEyesKey);
    HeldTaken(n.suspendKey, d.suspendKey);
  }

  lemma HeldTaken(shown: string, pressed: string)
    ensures KeyTaken(Held(shown, pressed), shown, pressed)
  {
  }

  lemma SpinBoxed(lo: int, v: int, hi: int)
    requires lo <= hi
    ensures Boxed(lo as real, Spin(lo, v, hi) as real, v as real, hi as real)
  {
  }

  lemma SpinRealBoxed(lo: real, v: real, hi: real)
    requires lo <= hi
    ensures Boxed(lo, SpinReal(lo, v, hi), v, hi)
  {
  }

  /** `captureValidNode`: the dialog opens again with what was entered, until the keys are accepted or it is rejected. */
  ghost function Captured(mouse: MouseNames, switchKey: string, cursorLockKey: string, others: seq<string>, n: ControlNode,
                          answers: seq<Answer>): Option<ControlNode>
    decreases |answers|
  {
    if answers == [] || answers[0].Reject? then None
    else
      var candidate := Inspected(n, answers[0].values);
      if Acceptable(mouse, switchKey, cursorLockKey, candidate, others) then Some(candidate)
      else Captured(mouse, switchKey, cursorLockKey, others, candidate, answers[1..])
  }

  /** The node the dialog shows after `k` accepted answers. */
  function ShownAfter(n: ControlNode, answers: seq<Answer>, k: nat): ControlNode
    requires k <= |answers| && forall j :: 0 <= j < k ==> answers[j].Accept?
    decreases k
  {
    if k == 0 then n else Inspected(ShownAfter(n, answers, k - 1), answers[k - 1].values)
  }

  /** Answer `k` ends the dialog with a node: it is accepted, its keys too, and no earlier answer had good keys. */
  ghost predicate EndsAt(mouse: MouseNames, switchKey: string, cursorLockKey: string, others: seq<string>, n: ControlNode,
                         answers: seq<Answer>, k: nat)
  {
    && k < |answers| && (forall j :: 0 <= j <= k ==> answers[j].Accept?)
    && forall j: nat :: 0 < j <= k + 1 ==>
         (Acceptable(mouse, switchKey, cursorLockKey, ShownAfter(n, answers, j), others) <==> j == k + 1)
  }

  lemma {:induction false} ShownNext(n: ControlNode, answers: seq<Answer>, k: nat)
    requires 0 < k <= |answers| && forall j :: 0 <= j < k ==> answers[j].Accept?
    ensures ShownAfter(Inspected(n, answers[0].values), answers[1..], k - 1) == ShownAfter(n, answers, k)
    decreases k
  {
    hide Inspected;
    if k == 1 {
      assert ShownAfter(n, answers, 0) == n;
    } else {
      ShownNext(n, answers, k - 1);
    }
  }

  /** The node that comes out is the one shown after the first answer with good keys, if no rejection came before it. */
  lemma {:induction false} CapturedIff(mouse: MouseNames, switchKey: string, cursorLockKey: string, others: seq<string>, n: ControlNode,
                                       answers: seq<Answer>)
    ensures var r := Captured(mouse, switchKey, cursorLockKey, others, n, answers);
      && (r.Some? <==> exists k: nat :: EndsAt(mouse, switchKey, cursorLockKey, others, n, answers, k))
      && forall k: nat :: EndsAt(mouse, switchKey, cursorLockKey, others, n, answers, k) ==> r == Some(ShownAfter(n, answers, k + 1))
    decreases |answers|
  {
    hide Inspected, Acceptable;
    if answers == [] || answers[0].Reject? {
    } else {
      var rest, candidate := answers[1..], Inspected(n, answers[0].values);
      assert ShownAfter(n, answers, 0) == n;
      assert ShownAfter(n, answers, 1) == candidate;
      if Acceptable(mouse, switchKey, cursorLockKey, candidate, others) {
        assert EndsAt(mouse, switchKey, cursorLockKey, others, n, answers, 0);
        forall k: nat | EndsAt(mouse, switchKey, cursorLockKey, others, n, answers, k) ensures k == 0 {
          assert Acceptable(mouse, switchKey, cursorLockKey, ShownAfter(n, answers, 1), others);
        }
      } else {
        CapturedIff(mouse, switchKey, cursorLockKey, others, candidate, rest);
        forall k: nat ensures EndsAt(mouse, switchKey, cursorLockKey, others, n, answers, k)
                         <==> k > 0 && EndsAt(mouse, switchKey, cursorLockKey, others, candidate, rest, k - 1)
        {
          EndsLater(mouse, switchKey, cursorLockKey, others, n, answers, k);
        }
        var r := Captured(mouse, switchKey, cursorLockKey, others, n, answers);
        if r.Some? {
          var k: nat :| EndsAt(mouse, switchKey, cursorLockKey, others, candidate, rest, k);
          assert EndsAt(mouse, switchKey, cursorLockKey, others, n, answers, k + 1);
        }
        forall k: nat | EndsAt(mouse, switchKey, cursorLockKey, others, n, answers, k) ensures r == Some(ShownAfter(n, answers, k + 1)) {
          ShownNext(n, answers, k + 1);
        }
      }
    }
  }

  lemma {:induction false} EndsLater(mouse: MouseNames, switchKey: string, cursorLockKey: string, others: seq<string>, n: ControlNode,
                                     answers: seq<Answer>, k: nat)
    requires answers != [] && answers[0].Accept?
    requires !Acceptable(mouse, switchKey, cursorLockKey, Inspected(n, answers[0].values), others)
    ensures EndsAt(mouse, switchKey, cursorLockKey, others, n, answers, k)
       <==> k > 0 && EndsAt(mouse, switchKey, cursorLockKey, others, Inspected(n, answers[0].values), answers[1..], k - 1)
  {
    hide Inspected, Acceptable;
    var rest, candidate := answers[1..], Inspected(n, answers[0].values);
    assert ShownAfter(n, answers, 0) == n && ShownAfter(n, answers, 1) == candidate;
    if k > 0 && k < |answers| && forall j :: 0 <= j <= k ==> answers[j].Accept? {
      forall j: nat | 0 < j <= k ensures ShownAfter(candidate, rest, j) == ShownAfter(n, answers, j + 1) { ShownNext(n, answers, j + 1); }
      if EndsAt(mouse, switchKey, cursorLockKey, others, candidate, rest, k - 1) {
        forall j: nat | 0 < j <= k + 1
          ensures Acceptable(mouse, switchKey, cursorLockKey, ShownAfter(n, answers, j), others) <==> j == k + 1
        {
          if j > 1 { assert ShownAfter(candidate, rest, j - 1) == ShownAfter(n, answers, j); }
        }
      }
    }
    if k > 0 && EndsAt(mouse, switchKey, cursorLockKey, others, candidate, rest, k - 1) {
      forall j | 0 <= j <= k ensures answers[j].Accept? { if j > 0 { assert rest[j - 1] == answers[j]; } }
    }
  }

  /** What the dialog guarantees of any node that comes out of it. */
  predicate InBounds(n: ControlNode) {
    match n.action
    case TapSpot => true
    case RepeatedTap => 1 <= n.repeatCount <= 50 && 10 <= n.repeatIntervalMs <= 5000
    case DPad => 0.02 <= n.offset <= 0.45
    case DragSwipe => n.dragStartDelayMs <= 5000 && 0.05 <= n.dragSpeed <= 1.0
    case FreeLook => 0.0 <= n.lookSpeedX <= 10.0 && 0.0 <= n.lookSpeedY <= 10.0
    case AimPanShoot => n.key != "" && 0.0 <= n.lookSpeedX <= 10.0 && 0.0 <= n.lookSpeedY <= 10.0
  }

  lemma {:induction false} CapturedGood(mouse: MouseNames, switchKey: string, cursorLockKey: string, others: seq<string>, n: ControlNode,
                                        answers: seq<Answer>)
    requires CleanFields(n)
    ensures var r := Captured(mouse, switchKey, cursorLockKey, others, n, answers);
      r.Some? ==>
        && CleanFields(r.value) && InBounds(r.value) && r.value.action == n.action && r.value.pos == n.pos
        && Acceptable(mouse, switchKey, cursorLockKey, r.value, others)
    decreases |answers|
  {
    hide Inspected, Acceptable, CleanFields, InBounds;
    if answers == [] || answers[0].Reject? {
    } else {
      InspectedClean(n, answers[0].values);
      CapturedGood(mouse, switchKey, cursorLockKey, others, Inspected(n, answers[0].values), answers[1..]);
    }
  }

  /** Fields of other actions are unbound, so the two key lists agree. */
  predicate Clean(n: ControlNode) { AllKeys(n) == Slots(n) }

  function Dropped(action: Action, pos: Point): ControlNode {
    var x := pos.x + 0.15;
    var n := DefaultNode(action).(pos := pos, endPos := Point(if x < 0.0 then 0.0 else if x > 1.0 then 1.0 else x, pos.y));
    if action.AimPanShoot? then n.(key := LEFT_BUTTON) else n
  }

  lemma InspectedClean(n: ControlNode, d: ControlNode)
    requires CleanFields(n)
    ensures CleanFields(Inspected(n, d)) && InBounds(Inspected(n, d))
    ensures Inspected(n, d).action == n.action && Inspected(n, d).pos == n.pos
  {
  }

  /** A dropped control has the defaults of a control, a swipe to the right that stays on the screen, and a shoot button. */
  lemma DroppedFields(action: Action, pos: Point)
    ensures var n := Dropped(action, pos);
      && CleanFields(n) && n.action == action && n.pos == pos && n.key == (if action.AimPanShoot? then "LeftButton" else "")
      && Boxed(0.0, n.endPos.x, pos.x + 0.15, 1.0) && n.endPos.y == pos.y && n.fireAnchorPos == Point(0.62, 0.62)
      && n.offset == 0.12 && (n.repeatCount, n.repeatIntervalMs) == (3, 120) && (n.dragStartDelayMs, n.dragSpeed) == (0, 1.0)
      && (n.lookSpeedX, n.lookSpeedY) == (1.0, 1.0) && n.caption == ""
  {
  }

  /** The key fields an action does not use are empty. */
  predicate CleanFields(n: ControlNode) {
    && (n.action.DPad? || n.action.FreeLook? ==> n.key == "")
    && (!n.action.DPad? ==> n.upKey == "" && n.downKey == "" && n.leftKey == "" && n.rightKey == "")
    && (!IsLook(n) ==> n.smallEyesKey == "" && n.suspendKey == "")
  }

  lemma CleanFieldsClean(n: ControlNode)
    requires CleanFields(n)
    ensures Clean(n)
  {
    var e: seq<string> := [];
    match n.action
    case TapSpot => assert Bound(n.key) + e + e + e + e + e + e == Bound(n.key);
    case RepeatedTap => assert Bound(n.key) + e + e + e + e + e + e == Bound(n.key);
    case DragSwipe => assert Bound(n.key) + e + e + e + e + e + e == Bound(n.key);
    case DPad =>
    case FreeLook =>
    case AimPanShoot =>
  }

  /** The fields of an action that hold keys. */
  function KeyFields(n: ControlNode): seq<string> {
    if n.action.DPad? then [n.upKey, n.downKey, n.leftKey, n.rightKey]
    else if LooksAround(n.action) then [n.key, n.smallEyesKey, n.suspendKey]
    else [n.key]
  }

  /** Slots are those fields without the unbound ones. */
  lemma SlotsAre(n: ControlNode, k: string)
    requires k != ""
    ensures multiset(Slots(n))[k] == multiset(KeyFields(n))[k]
  {
    hide Bound, Slots, KeyFields;
    if n.action.DPad? {
      WheelSlots(n, k);
    } else if LooksAround(n.action) {
      LookSlots(n, k);
    } else {
      OneSlot(n, k);
    }
  }

  lemma WheelSlots(n: ControlNode, k: string)
    requires k != "" && n.action.DPad?
    ensures multiset(Slots(n))[k] == multiset(KeyFields(n))[k]
  {
    hide Bound;
    FourFields(n.upKey, n.downKey, n.leftKey, n.rightKey, k);
  }

  lemma LookSlots(n: ControlNode, k: string)
    requires k != "" && LooksAround(n.action)
    ensures multiset(Slots(n))[k] == multiset(KeyFields(n))[k]
  {
    hide Bound;
    ThreeFields(n.key, n.smallEyesKey, n.suspendKey, k);
  }

  lemma TwoFields(a: string, b: string, k: string)
    requires k != ""
    ensures multiset(Bound(a) + Bound(b))[k] == multiset([a, b])[k]
  {
    hide Bound;
    BoundOnce(a, k);
    BoundOnce(b, k);
    CountTwo(Bound(a), Bound(b), k);
    CountTwo([a], [b], k);
    assert [a, b] == [a] + [b];
  }

  lemma ThreeFields(a: string, b: string, c: string, k: string)
    requires k != ""
    ensures multiset(Bound(a) + Bound(b) + Bound(c))[k] == multiset([a, b, c])[k]
  {
    hide Bound;
    TwoFields(a, b, k);
    BoundOnce(c, k);
    CountTwo(Bound(a) + Bound(b), Bound(c), k);
    CountTwo([a, b], [c], k);
    assert [a, b, c] == [a, b] + [c];
  }

  lemma FourFields(a: string, b: string, c: string, d: string, k: string)
    requires k != ""
    ensures multiset(Bound(a) + Bound(b) + Bound(c) + Bound(d))[k] == multiset([a, b, c, d])[k]
  {
    hide Bound;
    ThreeFields(a, b, c, k);
    BoundOnce(d, k);
    CountTwo(Bound(a) + Bound(b) + Bound(c), Bound(d), k);
    CountTwo([a, b, c], [d], k);
    assert [a, b, c, d] == [a, b, c] + [d];
  }

  lemma OneSlot(n: ControlNode, k: string)
    requires k != "" && !n.action.DPad? && !LooksAround(n.action)
    ensures multiset(Slots(n))[k] == multiset(KeyFields(n))[k]
  {
    hide Bound;
    BoundOnce(n.key, k);
  }

  lemma CountTwo(a: seq<string>, b: seq<string>, k: string)
    ensures multiset(a + b)[k] == multiset(a)[k] + multiset(b)[k]
  {
  }

  lemma BoundOnce(f: string, k: string)
    requires k != ""
    ensures multiset(Bound(f))[k] == multiset([f])[k]
  {
  }

  /** The key is held by one of the node's fields only, is free of other uses, and is no mouse button of another control. */
  predicate FreeKey(mouse: MouseNames, switchKey: string, cursorLockKey: string, n: ControlNode, others: seq<string>, k: string) {
    multiset(KeyFields(n))[k] == 1 && k != switchKey && k != cursorLockKey && (mouse(k) ==> k !in others)
  }

  /** Beside controls that share no mouse button, a node is accepted exactly when each key it holds is free. */
  lemma AcceptedIff(mouse: MouseNames, switchKey: string, cursorLockKey: string, n: ControlNode, others: seq<string>)
    requires MouseOnce(mouse, others) && !mouse("")
    ensures Acceptable(mouse, switchKey, cursorLockKey, n, others)
       <==> forall k :: k in KeyFields(n) && k != "" ==> FreeKey(mouse, switchKey, cursorLockKey, n, others, k)
  {
    hide Slots, KeyFields;
    var slots := Slots(n);
    NoEmptySlot(n);
    forall k | k != "" ensures multiset(slots)[k] == multiset(KeyFields(n))[k] { SlotsAre(n, k); }
    DistinctIff(slots);
    forall k ensures multiset(others + slots)[k] == multiset(others)[k] + multiset(slots)[k] {}
    if Acceptable(mouse, switchKey, cursorLockKey, n, others) {
      forall k | k in KeyFields(n) && k != "" ensures FreeKey(mouse, switchKey, cursorLockKey, n, others, k) {
        assert k in multiset(slots);
      }
    }
    if forall k :: k in KeyFields(n) && k != "" ==> FreeKey(mouse, switchKey, cursorLockKey, n, others, k) {
      forall k | k in slots ensures FreeKey(mouse, switchKey, cursorLockKey, n, others, k) && multiset(slots)[k] == 1 {
        assert k in multiset(slots);
        assert k in multiset(KeyFields(n));
      }
      forall k ensures multiset(slots)[k] <= 1 { if k !in slots { assert k !in multiset(slots); } }
      forall i | 0 <= i < |slots| ensures !Reserved(slots[i], switchKey, cursorLockKey) { assert slots[i] in slots; }
      forall k | mouse(k) ensures multiset(others + slots)[k] <= 1 {
        if k in slots { assert multiset(others)[k] == 0; } else { assert multiset(slots)[k] == 0; }
      }
    }
  }

  lemma NoEmptySlot(n: ControlNode)
    ensures "" !in Slots(n)
  {
  }

  lemma {:induction false} DistinctIff(ks: seq<string>)
    ensures Distinct(ks) <==> forall k :: multiset(ks)[k] <= 1
  {
    if Distinct(ks) {
      forall k ensures multiset(ks)[k] <= 1 { OnceInDistinct(ks, k); }
    }
    if !Distinct(ks) {
      var i, j :| 0 <= i < j < |ks| && ks[i] == ks[j];
      assert ks == ks[..j] + [ks[j]] + ks[j + 1..];
      assert ks[i] in ks[..j] by { assert ks[..j][i] == ks[i]; }
      assert multiset(ks)[ks[j]] >= 2;
    }
  }

  lemma {:induction false} OnceInDistinct(ks: seq<string>, k: string)
    requires Distinct(ks)
    ensures multiset(ks)[k] <= 1
  {
    if ks == [] {
    } else {
      assert ks == [ks[0]] + ks[1..];
      OnceInDistinct(ks[1..], k);
      if ks[0] == k { assert k !in ks[1..]; }
    }
  }

  // ---- the invariant ----

  predicate OneLookAtMost(ns: seq<ControlNode>) { forall i, j :: 0 <= i < j < |ns| ==> !IsLook(ns[i]) || !IsLook(ns[j]) }

  ghost predicate EditorInv(mouse: MouseNames, ns: seq<ControlNode>) {
    && OneLookAtMost(ns)
    && (forall i :: 0 <= i < |ns| ==> CleanFields(ns[i]) && InBounds(ns[i]) && Distinct(Slots(ns[i])))
    && MouseOnce(mouse, KeysOf(ns))
  }

  lemma {:induction false} OtherKeysBeyond(ns: seq<ControlNode>, i: int, j: int)
    requires i >= |ns| && j >= |ns|
    ensures OtherKeys(ns, i) == OtherKeys(ns, j)
    decreases |ns|
  {
    hide AllKeys;
    if ns == [] {
    } else {
      OtherKeysBeyond(ns[..|ns| - 1], i, j);
    }
  }

  /** A key that a field of the node holds, whatever its action. */
  predicate HoldsKey(n: ControlNode, k: string) {
    k != "" && k in [n.key, n.upKey, n.downKey, n.leftKey, n.rightKey, n.smallEyesKey, n.suspendKey]
  }

  lemma KeysHeld(n: ControlNode, k: string)
    ensures k in AllKeys(n) <==> HoldsKey(n, k)
  {
  }

  /** The other keys are just those that some other control holds. */
  lemma {:induction false} OtherKeysHeld(ns: seq<ControlNode>, exclude: int, k: string)
    ensures k in OtherKeys(ns, exclude) <==> exists j :: 0 <= j < |ns| && j != exclude && HoldsKey(ns[j], k)
    decreases |ns|
  {
    hide AllKeys, HoldsKey;
    if ns == [] {
    } else {
      var past, last := ns[..|ns| - 1], |ns| - 1;
      OtherKeysHeld(past, exclude, k);
      KeysHeld(ns[last], k);
      assert forall j :: 0 <= j < last ==> past[j] == ns[j];
    }
  }

  /** Putting a node at `i` adds its keys to the others'. */
  lemma {:induction false} KeysWith(ns: seq<ControlNode>, i: nat)
    requires i < |ns|
    ensures multiset(KeysOf(ns)) == multiset(OtherKeys(ns, i)) + multiset(AllKeys(ns[i]))
    decreases |ns|
  {
    hide AllKeys;
    var past := ns[..|ns| - 1];
    OtherKeysBeyond(past, |ns|, |past|);
    if i < |past| {
      KeysWith(past, i);
    } else {
      OtherKeysBeyond(past, i, |past|);
      assert OtherKeys(ns, i) == OtherKeys(past, i) + [];
    }
  }

  lemma {:induction false} OthersUnchanged(ns: seq<ControlNode>, i: nat, n: ControlNode)
    requires i < |ns|
    ensures OtherKeys(ns[i := n], i) == OtherKeys(ns, i)
    decreases |ns|
  {
    hide AllKeys;
    var past := ns[..|ns| - 1];
    if i < |past| {
      OthersUnchanged(past, i, n);
      assert ns[i := n][..|ns| - 1] == past[i := n];
    } else {
      assert ns[i := n][..|ns| - 1] == past;
    }
  }

  lemma {:induction false} KeysWithout(ns: seq<ControlNode>, i: nat)
    requires i < |ns|
    ensures KeysOf(ns[..i] + ns[i + 1..]) == OtherKeys(ns, i)
    decreases |ns|
  {
    hide AllKeys;
    var past := ns[..|ns| - 1];
    var left := ns[..i] + ns[i + 1..];
    if i < |past| {
      KeysWithout(past, i);
      assert left[..|left| - 1] == past[..i] + past[i + 1..];
      OtherKeysBeyond(left[..|left| - 1], |left|, |left| - 1);
    } else {
      assert left == past;
      OtherKeysBeyond(past, |past|, i);
      assert OtherKeys(past, i) + [] == OtherKeys(past, i);
    }
  }

  lemma KeysAppend(ns: seq<ControlNode>, n: ControlNode)
    ensures KeysOf(ns + [n]) == KeysOf(ns) + AllKeys(n)
  {
    hide AllKeys;
    assert (ns + [n])[..|ns|] == ns;
    OtherKeysBeyond(ns, |ns| + 1, |ns|);
  }

  lemma MouseOnceFewer(mouse: MouseNames, few: seq<string>, many: seq<string>)
    requires MouseOnce(mouse, many) && multiset(few) <= multiset(many)
    ensures MouseOnce(mouse, few)
  {
  }

  lemma MouseOnceSame(mouse: MouseNames, a: seq<string>, b: seq<string>)
    requires MouseOnce(mouse, a) && multiset(a) == multiset(b)
    ensures MouseOnce(mouse, b)
  {
  }

  /** Adding an accepted node; a look node only where there is none. */
  lemma DropKeeps(mouse: MouseNames, switchKey: string, cursorLockKey: string, ns: seq<ControlNode>, n: ControlNode)
    requires EditorInv(mouse, ns) && CleanFields(n) && InBounds(n) && Acceptable(mouse, switchKey, cursorLockKey, n, KeysOf(ns))
    requires IsLook(n) ==> forall i :: 0 <= i < |ns| ==> !IsLook(ns[i])
    ensures EditorInv(mouse, ns + [n])
  {
    hide AllKeys, Slots, CleanFields, InBounds, KeysOf, MouseOnce;
    KeysAppend(ns, n);
    CleanFieldsClean(n);
  }

  /** Replacing a node by an accepted one of the same action. */
  lemma {:induction false} EditKeeps(mouse: MouseNames, switchKey: string, cursorLockKey: string, ns: seq<ControlNode>, i: nat, n: ControlNode)
    requires EditorInv(mouse, ns) && i < |ns| && n.action == ns[i].action && CleanFields(n) && InBounds(n)
    requires Acceptable(mouse, switchKey, cursorLockKey, n, OtherKeys(ns, i))
    ensures EditorInv(mouse, ns[i := n])
  {
    hide AllKeys, Slots, CleanFields, InBounds, KeysOf, MouseOnce;
    OthersUnchanged(ns, i, n);
    KeysWith(ns[i := n], i);
    CleanFieldsClean(n);
    MouseOnceSame(mouse, OtherKeys(ns, i) + Slots(n), KeysOf(ns[i := n]));
  }

  lemma RemoveKeeps(mouse: MouseNames, ns: seq<ControlNode>, i: nat)
    requires EditorInv(mouse, ns) && i < |ns|
    ensures EditorInv(mouse, ns[..i] + ns[i + 1..])
  {
    hide AllKeys, Slots, CleanFields, InBounds, KeysOf, MouseOnce;
    KeysWithout(ns, i);
    KeysWith(ns, i);
    MouseOnceFewer(mouse, OtherKeys(ns, i), KeysOf(ns));
  }

  lemma MovedKeys(n: ControlNode, pos: Point, fire: Point)
    ensures var m := n.(pos := pos, fireAnchorPos := fire);
      AllKeys(m) == AllKeys(n) && Slots(m) == Slots(n) && CleanFields(m) == CleanFields(n) && InBounds(m) == InBounds(n)
  {
  }

  /** Moving a marker or its fire icon. */
  lemma MoveKeeps(mouse: MouseNames, ns: seq<ControlNode>, i: nat, pos: Point, fire: Point)
    requires EditorInv(mouse, ns) && i < |ns|
    ensures EditorInv(mouse, ns[i := ns[i].(pos := pos, fireAnchorPos := fire)])
  {
    hide KeysOf, MouseOnce, AllKeys, Slots, CleanFields, InBounds;
    var n := ns[i].(pos := pos, fireAnchorPos := fire);
    MovedKeys(ns[i], pos, fire);
    OthersUnchanged(ns, i, n);
    KeysWith(ns[i := n], i);
    KeysWith(ns, i);
    MouseOnceSame(mouse, KeysOf(ns), KeysOf(ns[i := n]));
  }

  lemma EmptySchemeInv(mouse: MouseNames)
    ensures EditorInv(mouse, [])
  {
  }

  // ---- saving and loading what the editor made ----

  /** What the editor's rules leave open: where the spots are, and whether the shoot spot is bound to a mouse button. */
  predicate Savable(mouse: MouseNames, ns: seq<ControlNode>) {
    var i := FirstLook(ns);
    i < |ns| ==>
      var look := ns[i];
      && (forall j :: 0 <= j < |ns| && ns[j].action.TapSpot? ==> !Near(ns[j].pos, look.pos))
      && (look.action.AimPanShoot? ==> mouse(look.key) || Near(look.fireAnchorPos, look.pos))
  }

  lemma {:induction false} LooksCounted(ns: seq<ControlNode>)
    requires OneLookAtMost(ns)
    ensures |Looks(ns)| <= 1
    ensures (forall i :: 0 <= i < |ns| ==> !IsLook(ns[i])) ==> Looks(ns) == []
    decreases |ns|
  {
    hide Normal;
    if ns == [] {
    } else {
      var past := ns[..|ns| - 1];
      assert forall i :: 0 <= i < |past| ==> past[i] == ns[i];
      LooksCounted(past);
    }
  }

  lemma {:induction false} KeyInOthers(ns: seq<ControlNode>, exclude: int, j: nat, k: string)
    requires j < |ns| && j != exclude && k in AllKeys(ns[j])
    ensures k in OtherKeys(ns, exclude)
    decreases |ns|
  {
    hide AllKeys;
    if j == |ns| - 1 {
    } else {
      KeyInOthers(ns[..|ns| - 1], exclude, j, k);
    }
  }

  lemma OwnKey(n: ControlNode)
    requires n.key != ""
    ensures n.key in AllKeys(n)
  {
    assert n.key in Bound(n.key);
  }

  /** Two different nodes never share a mouse button. */
  lemma NoSharedButton(mouse: MouseNames, ns: seq<ControlNode>, i: nat, j: nat)
    requires EditorInv(mouse, ns) && i < |ns| && j < |ns|
    ensures i != j && mouse(ns[i].key) && ns[i].key != "" ==> ns[j].key != ns[i].key
  {
    hide AllKeys, CleanFields, Slots, KeysOf;
    var k := ns[i].key;
    KeysWith(ns, i);
    if k != "" { OwnKey(ns[i]); }
    if i != j && k != "" && ns[j].key == k {
      OwnKey(ns[j]);
      KeyInOthers(ns, i, j, k);
    }
  }

  /** A scheme made in the editor comes back from its file in normal form exactly under this condition. */
  lemma EditedSchemeRoundTripsIff(mouse: MouseNames, ns: seq<ControlNode>)
    requires NamesOk(mouse) && EditorInv(mouse, ns)
    ensures RoundTrips(mouse, ns) <==> Savable(mouse, ns)
  {
    hide AllKeys, CleanFields, Slots, KeysOf, Near, Looks, MouseOnce, FirstLook;
    LooksCounted(ns);
    var i := FirstLook(ns);
    if i < |ns| && ns[i].action.AimPanShoot? && mouse(ns[i].key) {
      forall j | 0 <= j < |ns| && ns[j].action.TapSpot? ensures ns[j].key != ns[i].key {
        NoSharedButton(mouse, ns, i, j);
      }
    }
  }
}
