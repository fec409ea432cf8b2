/**
 `GameControlsEditor` in its own form: the markers on screen, each holding its node, and the operations that add, edit,
 move and remove them.  The inspector dialog is a list of answers the user will give.
 */
module ControlsEditor {
  import opened Common
  import opened SchemeStore
  import opened SchemeTheorems
  import opened SchemeEditing

  /** One thing the user does in the editor. */
  datatype Deed =
    | DropControl(kind: Action, pos: Point, answers: seq<Answer>)
    | EditControl(at: nat, answers: seq<Answer>)
    | MoveControl(at: nat, pos: Point, fire: Point)
    | RemoveControl(at: nat)
    | ChangeKeys(switchKey: string, cursorLockKey: string)

  /** Why a binding is refused. */
  datatype Verdict =
    | Fine
    | SharedKey(i: nat, j: nat)
    | ReservedKey(i: nat)
    | MouseTwice(button: string)

  /** What the editor holds. */
  datatype EditorState = EditorState(nodes: seq<ControlNode>, switchKey: string, cursorLockKey: string, dirty: bool)

  /** What one deed makes of it; deeds on controls that are not there do nothing. */
  ghost function After(mouse: MouseNames, s: EditorState, deed: Deed): EditorState {
    match deed
    case DropControl(kind, pos, answers) =>
      var added := if LooksAround(kind) && HasLook(s.nodes) then None
                   else Captured(mouse, s.switchKey, s.cursorLockKey, KeysOf(s.nodes), Dropped(kind, pos), answers);
      if added.Some? then s.(nodes := s.nodes + [added.value], dirty := true) else s
    case EditControl(at, answers) =>
      if at < |s.nodes| then
        var edited := Captured(mouse, s.switchKey, s.cursorLockKey, OtherKeys(s.nodes, at), s.nodes[at], answers);
        if edited.Some? then s.(nodes := s.nodes[at := edited.value], dirty := true) else s
      else s
    case MoveControl(at, pos, fire) =>
      if at < |s.nodes| then s.(nodes := s.nodes[at := s.nodes[at].(pos := pos, fireAnchorPos := fire)], dirty := true) else s
    case RemoveControl(at) =>
      if at < |s.nodes| then s.(nodes := s.nodes[..at] + s.nodes[at + 1..], dirty := true) else s
    case ChangeKeys(switchKey, cursorLockKey) =>
      EditorState(s.nodes, Held(s.switchKey, switchKey), Held(s.cursorLockKey, cursorLockKey),
                  s.dirty || switchKey != "" || cursorLockKey != "")
  }

  ghost function AfterAll(mouse: MouseNames, s: EditorState, deeds: seq<Deed>): EditorState
    decreases |deeds|
  {
    if deeds == [] then s else After(mouse, AfterAll(mouse, s, deeds[..|deeds| - 1]), deeds[|deeds| - 1])
  }

  predicate HasLook(ns: seq<ControlNode>) { exists i :: 0 <= i < |ns| && IsLook(ns[i]) }

  class GameControlMarker {
    var node: ControlNode

    constructor (node: ControlNode)
      ensures this.node == node
    {
      this.node := node;
    }
  }

  class GameControlsEditor {
    const mouse: MouseNames
    var switchKey: string
    var cursorLockKey: string
    var markers: seq<GameControlMarker>
    var dirty: bool

    ghost predicate Valid()
      reads this, markers
    {
      forall i, j :: 0 <= i < j < |markers| ==> markers[i] != markers[j]
    }

    ghost function Nodes(): (ns: seq<ControlNode>)
      reads this, markers
      ensures |ns| == |markers| && forall i :: 0 <= i < |ns| ==> ns[i] == markers[i].node
    {
      NodesOf(markers)
    }

    ghost static function NodesOf(ms: seq<GameControlMarker>): (ns: seq<ControlNode>)
      reads ms
      ensures |ns| == |ms| && forall i :: 0 <= i < |ns| ==> ns[i] == ms[i].node
    {
      if ms == [] then [] else NodesOf(ms[..|ms| - 1]) + [ms[|ms| - 1].node]
    }

    ghost function View(): EditorState
      reads this, markers
    {
      EditorState(Nodes(), switchKey, cursorLockKey, dirty)
    }

    constructor (mouse: MouseNames, switchKey: string, cursorLockKey: string)
      ensures this.mouse == mouse && markers == [] && Valid() && EditorInv(mouse, Nodes())
      ensures View() == EditorState([], switchKey, cursorLockKey, false)
    {
      this.mouse, this.switchKey, this.cursorLockKey, markers, dirty := mouse, switchKey, cursorLockKey, [], false;
      new;
      EmptySchemeInv(mouse);
    }

    method HasLookNode() returns (found: bool)
      ensures found <==> exists i :: 0 <= i < |markers| && IsLook(markers[i].node)
    {
      var i := 0;
      while i < |markers|
        invariant 0 <= i <= |markers| && forall j :: 0 <= j < i ==> !IsLook(markers[j].node)
      {
        if IsLook(markers[i].node) { return true; }
        i := i + 1;
      }
      return false;
    }

    /** `exclude` is the position of the marker being edited, or none. */
    method CollectOtherKeys(exclude: GameControlMarker?, ghost at: int) returns (keys: seq<string>)
      requires Valid()
      requires if exclude == null then at == |markers| else 0 <= at < |markers| && markers[at] == exclude
      ensures keys == OtherKeys(Nodes(), at)
    {
      hide AllKeys;
      keys := [];
      var i := 0;
      assert Nodes()[..0] == [];
      while i < |markers|
        invariant 0 <= i <= |markers| && keys == OtherKeys(Nodes()[..i], at)
      {
        assert Nodes()[..i + 1][..i] == Nodes()[..i];
        if markers[i] != exclude {
          keys := keys + AllKeys(markers[i].node);
        } else {
          assert i == at;
        }
        i := i + 1;
      }
      assert Nodes()[..i] == Nodes();
    }

    /** The tally of mouse buttons: one that is counted twice, if there is any. */
    method FindMouseTwice(keys: seq<string>) returns (button: Option<string>)
      ensures button.None? <==> MouseOnce(mouse, keys)
      ensures button.Some? ==> mouse(button.value) && multiset(keys)[button.value] > 1
    {
      var uses: map<string, int> := map[];
      var i := 0;
      while i < |keys|
        invariant 0 <= i <= |keys|
        invariant forall k :: k in uses <==> mouse(k) && k in keys[..i]
        invariant forall k :: k in uses ==> uses[k] == multiset(keys[..i])[k]
      {
        var k := keys[i];
        assert keys[..i + 1] == keys[..i] + [k];
        if mouse(k) { uses := uses[k := (if k in uses then uses[k] else 0) + 1]; }
        i := i + 1;
      }
      assert keys[..i] == keys;
      var twice := set k | k in uses && uses[k] > 1;
      if twice == {} {
        button := None;
        forall k | mouse(k) ensures multiset(keys)[k] <= 1 { assert k !in twice; }
      } else {
        var k :| k in twice;
        button := Some(k);
      }
    }

    method ValidateNodeKeys(node: ControlNode, otherKeys: seq<string>) returns (verdict: Verdict)
      ensures verdict.Fine? <==> Acceptable(mouse, switchKey, cursorLockKey, node, otherKeys)
      ensures verdict.SharedKey? ==> verdict.i < verdict.j < |Slots(node)| && Slots(node)[verdict.i] == Slots(node)[verdict.j]
      ensures verdict.ReservedKey? ==> verdict.i < |Slots(node)| && Reserved(Slots(node)[verdict.i], switchKey, cursorLockKey)
      ensures verdict.MouseTwice? ==> mouse(verdict.button) && multiset(otherKeys + Slots(node))[verdict.button] > 1
    {
      hide Slots, MouseOnce;
      var slots := Slots(node);
      var i := 0;
      while i < |slots|
        invariant 0 <= i <= |slots|
        invariant forall a, b :: 0 <= a < i && a < b < |slots| ==> slots[a] != slots[b]
      {
        var j := i + 1;
        while j < |slots|
          invariant i < j <= |slots| && forall b :: i < b < j ==> slots[i] != slots[b]
        {
          if slots[i] == slots[j] { return SharedKey(i, j); }
          j := j + 1;
        }
        i := i + 1;
      }
      i := 0;
      while i < |slots|
        invariant 0 <= i <= |slots| && forall a :: 0 <= a < i ==> !Reserved(slots[a], switchKey, cursorLockKey)
      {
        if Reserved(slots[i], switchKey, cursorLockKey) { return ReservedKey(i); }
        i := i + 1;
      }
      var button := FindMouseTwice(otherKeys + slots);
      return if button.None? then Fine else MouseTwice(button.value);
    }

    /** The dialog is shown again, with what was entered, until its bindings are accepted or it is rejected. */
    method CaptureValidNode(start: ControlNode, exclude: GameControlMarker?, ghost at: int, answers: seq<Answer>)
      returns (result: Option<ControlNode>)
      requires Valid()
      requires if exclude == null then at == |markers| else 0 <= at < |markers| && markers[at] == exclude
      ensures result == Captured(mouse, switchKey, cursorLockKey, OtherKeys(Nodes(), at), start, answers)
    {
      hide Acceptable, Inspected, OtherKeys, NodesOf, Slots, Reserved;
      var otherKeys := CollectOtherKeys(exclude, at);
      var node, i := start, 0;
      ghost var whole := Captured(mouse, switchKey, cursorLockKey, otherKeys, start, answers);
      assert answers[0..] == answers;
      while i < |answers|
        invariant 0 <= i <= |answers| && otherKeys == OtherKeys(Nodes(), at)
        invariant Captured(mouse, switchKey, cursorLockKey, otherKeys, node, answers[i..]) == whole
      {
        assert answers[i..][0] == answers[i] && answers[i..][1..] == answers[i + 1..];
        if answers[i].Reject? { return None; }
        var candidate := Inspected(node, answers[i].values);
        var verdict := ValidateNodeKeys(candidate, otherKeys);
        if verdict.Fine? { return Some(candidate); }
        node := candidate;
        i := i + 1;
      }
      return None;
    }

    method AddMarkerForNode(node: ControlNode)
      requires Valid()
      modifies this`markers
      ensures Valid() && Nodes() == old(Nodes()) + [node]
      ensures forall m :: m in markers ==> m in old(markers) || fresh(m)
    {
      hide NodesOf;
      ghost var ns := Nodes();
      var marker := new GameControlMarker(node);
      markers := markers + [marker];
      assert Nodes() == ns + [node];
    }

    method HandleControlDropped(kind: Action, pos: Point, answers: seq<Answer>)
      returns (ghost added: Option<ControlNode>)
      requires Valid() && EditorInv(mouse, Nodes())
      modifies this
      ensures Valid() && EditorInv(mouse, Nodes())
      ensures switchKey == old(switchKey) && cursorLockKey == old(cursorLockKey)
      ensures forall m :: m in markers ==> m in old(markers) || fresh(m)
      ensures added == if LooksAround(kind) && HasLook(old(Nodes())) then None
                       else Captured(mouse, switchKey, cursorLockKey, KeysOf(old(Nodes())), Dropped(kind, pos), answers)
      ensures Nodes() == old(Nodes()) + if added.Some? then [added.value] else []
      ensures dirty == (old(dirty) || added.Some?)
    {
      hide EditorInv, CleanFields, InBounds, Acceptable, OtherKeys, NodesOf, Captured, Dropped;
      ghost var ns := Nodes();
      assert ns + [] == ns;
      var looks := HasLookNode();
      added := None;
      if (kind.FreeLook? || kind.AimPanShoot?) && looks { return; }
      var node := Dropped(kind, pos);
      DroppedFields(kind, pos);
      var result := CaptureValidNode(node, null, |markers|, answers);
      CapturedGood(mouse, switchKey, cursorLockKey, KeysOf(ns), node, answers);
      added := result;
      if result.None? { return; }
      DropKeeps(mouse, switchKey, cursorLockKey, ns, result.value);
      dirty := true;
      AddMarkerForNode(result.value);
    }

    method EditMarker(marker: GameControlMarker, ghost at: nat, answers: seq<Answer>)
      returns (ghost edited: Option<ControlNode>)
      requires Valid() && EditorInv(mouse, Nodes()) && at < |markers| && markers[at] == marker
      modifies this`dirty, marker
      ensures Valid() && EditorInv(mouse, Nodes())
      ensures edited == Captured(mouse, switchKey, cursorLockKey, OtherKeys(old(Nodes()), at), old(marker.node), answers)
      ensures Nodes() == if edited.Some? then old(Nodes())[at := edited.value] else old(Nodes())
      ensures dirty == (old(dirty) || edited.Some?)
    {
      hide EditorInv, Acceptable, OtherKeys, NodesOf, Captured, CleanFields, InBounds;
      ghost var ns := Nodes();
      InvIsClean(mouse, ns, at);
      var result := CaptureValidNode(marker.node, marker, at, answers);
      CapturedGood(mouse, switchKey, cursorLockKey, OtherKeys(ns, at), ns[at], answers);
      edited := result;
      if result.None? { return; }
      EditKeeps(mouse, switchKey, cursorLockKey, ns, at, result.value);
      dirty := true;
      marker.node := result.value;
      assert Nodes() == ns[at := result.value];
    }

    /** The marker, or its fire icon, is dragged. */
    method MoveMarker(marker: GameControlMarker, ghost at: nat, pos: Point, fire: Point)
      requires Valid() && EditorInv(mouse, Nodes()) && at < |markers| && markers[at] == marker
      modifies this`dirty, marker
      ensures Valid() && EditorInv(mouse, Nodes())
      ensures Nodes() == old(Nodes())[at := old(marker.node).(pos := pos, fireAnchorPos := fire)] && dirty
    {
      hide EditorInv, NodesOf;
      ghost var ns := Nodes();
      MoveKeeps(mouse, ns, at, pos, fire);
      dirty := true;
      marker.node := marker.node.(pos := pos, fireAnchorPos := fire);
      assert Nodes() == ns[at := ns[at].(pos := pos, fireAnchorPos := fire)];
    }

    method RemoveMarker(marker: GameControlMarker, ghost at: nat)
      requires Valid() && EditorInv(mouse, Nodes()) && at < |markers| && markers[at] == marker
      modifies this`dirty, this`markers
      ensures Valid() && EditorInv(mouse, Nodes())
      ensures Nodes() == old(Nodes())[..at] + old(Nodes())[at + 1..] && dirty
      ensures forall m :: m in markers ==> m in old(markers)
    {
      hide EditorInv, NodesOf;
      ghost var ns, all := Nodes(), markers;
      RemoveKeeps(mouse, ns, at);
      var i := 0;
      while markers[i] != marker
        invariant 0 <= i <= at && markers == all
        decreases at - i
      {
        i := i + 1;
      }
      dirty := true;
      markers := markers[..i] + markers[i + 1..];
      assert Nodes() == ns[..at] + ns[at + 1..];
    }

    /** One deed; on a marker that is not there it does nothing. */
    method Do(deed: Deed)
      requires Valid() && EditorInv(mouse, Nodes())
      modifies this, markers
      ensures Valid() && EditorInv(mouse, Nodes()) && View() == After(mouse, old(View()), deed)
      ensures forall m :: m in markers ==> m in old(markers) || fresh(m)
    {
      hide EditorInv, NodesOf, Acceptable, Captured, OtherKeys, HasLook, Dropped;
      match deed {
        case DropControl(kind, pos, answers) => ghost var added := HandleControlDropped(kind, pos, answers);
        case EditControl(at, answers) =>
          if at < |markers| { assert markers[at] in markers; ghost var edited := EditMarker(markers[at], at, answers); }
        case MoveControl(at, pos, fire) =>
          if at < |markers| { assert markers[at] in markers; MoveMarker(markers[at], at, pos, fire); }
        case RemoveControl(at) =>
          if at < |markers| { RemoveMarker(markers[at], at); }
        case ChangeKeys(switch, lock) =>
          ghost var ns := Nodes();
          if switch != "" || lock != "" { dirty := true; }
          switchKey, cursorLockKey := Held(switchKey, switch), Held(cursorLockKey, lock);
          assert Nodes() == ns;
      }
    }

    /** A whole session from the empty scheme. */
    method Session(deeds: seq<Deed>)
      requires markers == []
      modifies this
      ensures Valid() && EditorInv(mouse, Nodes()) && View() == AfterAll(mouse, old(View()), deeds)
      ensures NamesOk(mouse) ==> (RoundTrips(mouse, Nodes()) <==> Savable(mouse, Nodes()))
    {
      hide EditorInv, NodesOf, RoundTrips, Savable, After;
      assert Nodes() == [];
      ghost var start := View();
      EmptySchemeInv(mouse);
      var i := 0;
      while i < |deeds|
        invariant 0 <= i <= |deeds| && Valid() && EditorInv(mouse, Nodes()) && forall m :: m in markers ==> fresh(m)
        invariant View() == AfterAll(mouse, start, deeds[..i])
      {
        assert deeds[..i + 1][..i] == deeds[..i];
        forall k | 0 <= k < |markers| ensures fresh(markers[k]) { assert markers[k] in markers; }
        Do(deeds[i]);
        i := i + 1;
      }
      assert deeds[..i] == deeds;
      if NamesOk(mouse) { EditedSchemeRoundTripsIff(mouse, Nodes()); }
    }

    lemma InvIsClean(mouse: MouseNames, ns: seq<ControlNode>, i: nat)
      requires EditorInv(mouse, ns) && i < |ns|
      ensures CleanFields(ns[i])
    {
    }
  }
}
