/**
 Exactly which control schemes survive being printed and parsed, and that doing it again changes nothing.
 */
module SchemeTheorems {
  import opened SchemeStore
  import opened SchemeRoundTrip

  /** The tap would be taken for the look node's shoot spot: it shares the shoot button or lies on the look anchor. */
  predicate TakenFor(mouse: MouseNames, look: ControlNode, tap: ControlNode) {
    Near(tap.pos, look.pos) || (look.action.AimPanShoot? && mouse(ShootKey(look)) && tap.key == ShootKey(look))
  }

  /** At most one look node; no tap taken for its shoot spot; and that spot recognizable, by a mouse button or by its place. */
  predicate RoundTrips(mouse: MouseNames, ns: seq<ControlNode>) {
    && |Looks(ns)| <= 1
    && var i := FirstLook(ns);
       i < |ns| ==>
         && (forall j :: 0 <= j < |ns| && ns[j].action.TapSpot? ==> !TakenFor(mouse, ns[i], ns[j]))
         && (ns[i].action.AimPanShoot? ==> mouse(ShootKey(ns[i])) || Near(ns[i].fireAnchorPos, ns[i].pos))
  }

  lemma {:induction false} FirstLookPush(past: seq<ControlNode>, n: ControlNode)
    ensures FirstLook(past + [n]) == if FirstLook(past) < |past| then FirstLook(past) else if IsLook(n) then |past| else |past| + 1
  {
    hide FirstLook, IsLook;
    var all := past + [n];
    assert forall j :: 0 <= j < |past| ==> all[j] == past[j];
    assert all[|past|] == n;
  }

  lemma {:induction false} LooksPush(past: seq<ControlNode>, n: ControlNode)
    ensures Looks(past + [n]) == Looks(past) + if IsLook(n) then [Normal(n)] else []
  {
    hide Normal;
    assert (past + [n])[..|past|] == past;
  }

  lemma {:induction false} OneLook(ns: seq<ControlNode>)
    ensures |Looks(ns)| == 0 <==> FirstLook(ns) == |ns|
    ensures |Looks(ns)| == 1 ==> Looks(ns) == [Normal(ns[FirstLook(ns)])]
    ensures |Looks(ns)| == 1 ==> forall j :: 0 <= j < |ns| && j != FirstLook(ns) ==> !IsLook(ns[j])
    decreases |ns|
  {
    hide Normal, FirstLook, Looks, IsLook;
    if ns == [] {
      assert Looks([]) == [] by { NoLooks(); }
    } else {
      var past, n := ns[..|ns| - 1], ns[|ns| - 1];
      assert ns == past + [n];
      OneLook(past);
      FirstLookPush(past, n);
      LooksPush(past, n);
      assert forall j :: 0 <= j < |past| ==> past[j] == ns[j];
    }
  }

  lemma NoLooks()
    ensures Looks([]) == []
  {
  }

  lemma {:induction false} LostOwn(r: Root, ns: seq<ControlNode>, i: nat)
    requires i <= |ns| && forall j :: 0 <= j < |ns| && j != i ==> !IsLook(ns[j])
    ensures LostSpots(r, ns) == if i < |ns| && ns[i].action.AimPanShoot? && !IsAbsorbed(r, ns[i]) then 1 else 0
    decreases |ns|
  {
    hide IsAbsorbed;
    if ns == [] {
    } else {
      var past := ns[..|ns| - 1];
      assert forall j :: 0 <= j < |past| ==> past[j] == ns[j];
      LostOwn(r, past, if i < |past| then i else |past|);
    }
  }

  lemma AbsorbedMeans(mouse: MouseNames, look: ControlNode, n: ControlNode)
    requires NamesOk(mouse)
    ensures var r := Root(true, look.pos, ShootName(mouse, look));
      && (n.action.TapSpot? ==> IsAbsorbed(r, n) == TakenFor(mouse, look, n))
      && (look.action.AimPanShoot? ==> IsAbsorbed(r, look) == (mouse(ShootKey(look)) || Near(look.fireAnchorPos, look.pos)))
      && (look.action.FreeLook? ==> !IsAbsorbed(r, look))
  {
    hide Near;
  }

  /** With no look node nothing is absorbed and everything comes back. */
  lemma {:induction false} NoLookRoundTrips(r: Root, p: Parse, ns: seq<ControlNode>)
    requires !r.hasLook && Looks(ns) == []
    ensures ParseNodes(r, p, ns).nodes == p.nodes + Others(ns)
  {
    OneLook(ns);
    NodesSurvive(r, p, ns);
    SurvivorsCount(r, ns);
    LostOwn(r, ns, |ns|);
    ForeignLost(r, ns);
  }

  lemma ForeignLost(r: Root, ns: seq<ControlNode>)
    requires !r.hasLook
    ensures OnlyOwnAbsorbed(r, ns)
  {
  }

  /** Parsing gives back the other nodes exactly when only the shoot spot of the one look node is absorbed. */
  lemma {:induction false} SurvivorsAreOthersIff(r: Root, ns: seq<ControlNode>, own: nat)
    requires own < |ns| && IsLook(ns[own]) && forall j :: 0 <= j < |ns| && j != own ==> !IsLook(ns[j])
    ensures Survivors(r, ns) == Others(ns) <==> OnlyOwnAbsorbed(r, ns) && (ns[own].action.AimPanShoot? ==> IsAbsorbed(r, ns[own]))
  {
    hide IsAbsorbed, Normal, Survivors, Others;
    LostOwn(r, ns, own);
    SurvivorsStay(r, ns);
    if OnlyOwnAbsorbed(r, ns) {
      SurvivorsCount(r, ns);
    } else {
      var i :| 0 <= i < |ns| && ns[i].action.TapSpot? && IsAbsorbed(r, ns[i]);
      OthersHold(ns, i);
      NormalKeepsClick(r, ns[i]);
    }
  }

  /** Two look nodes never come back as two. */
  lemma {:induction false} TwoLooksLost(survivors: seq<ControlNode>, last: seq<ControlNode>, ns: seq<ControlNode>)
    requires |Looks(ns)| >= 2 && |last| <= 1 && forall n :: n in survivors ==> !IsLook(n)
    ensures survivors + last != Others(ns) + Looks(ns)
  {
    hide Others, Looks;
    LooksAreLooks(ns);
    var looks, all := Looks(ns), Others(ns) + Looks(ns);
    assert all[|all| - 2] == looks[|looks| - 2] && looks[|looks| - 2] in looks;
    assert |survivors + last| == |all| ==> (survivors + last)[|all| - 2] in survivors || |survivors| < |all| - 1;
  }

  /** What one printing and parsing makes of the node list. */
  lemma {:induction false} ParsedNodes(mouse: MouseNames, switchKey: string, cursorLockKey: string, ns: seq<ControlNode>)
    ensures var s := ParseRoot(PrintRoot(mouse, switchKey, cursorLockKey, ns)); var normal := NormalScheme(switchKey, cursorLockKey, ns);
      && s.switchKey == normal.switchKey && s.cursorLockKey == normal.cursorLockKey
      && (FirstLook(ns) == |ns| ==> Looks(ns) == [] && s.nodes == Others(ns))
      && (FirstLook(ns) < |ns| ==>
            var r, p := PrintedRoot(mouse, ns), Parse([], NormalLook(ns[FirstLook(ns)]));
            s.nodes == Survivors(r, ns) + [ParseNodes(r, p, ns).look])
  {
    hide PrintRoot, ParseEntries, PrintNodes, ParseNodes, Survivors, Others, Looks, NormalLook, RootOf, LookOf, PrintedRoot, FirstLook;
    var root := PrintRoot(mouse, switchKey, cursorLockKey, ns);
    RootParses(mouse, switchKey, cursorLockKey, ns);
    var r, p := RootOf(root), Parse([], LookOf(root));
    NodesParse(r, p, ns);
    NodesSurvive(r, p, ns);
    assert [] + Survivors(r, ns) == Survivors(r, ns);
    OneLook(ns);
    PrintedHasLook(mouse, ns);
    if FirstLook(ns) == |ns| {
      NoLookRoundTrips(r, p, ns);
      assert [] + Others(ns) == Others(ns) && Others(ns) + [] == Others(ns);
    }
  }

  lemma {:induction false} PrintedHasLook(mouse: MouseNames, ns: seq<ControlNode>)
    ensures PrintedRoot(mouse, ns).hasLook == (FirstLook(ns) < |ns|)
  {
    hide FirstLook, ShootName;
  }

  /** Printing then parsing gives the normal form exactly under the condition above. */
  lemma PrintParseIff(mouse: MouseNames, switchKey: string, cursorLockKey: string, ns: seq<ControlNode>)
    requires NamesOk(mouse)
    ensures ParseRoot(PrintRoot(mouse, switchKey, cursorLockKey, ns)) == NormalScheme(switchKey, cursorLockKey, ns) <==> RoundTrips(mouse, ns)
  {
    hide ParseRoot, PrintRoot, Survivors, Others, Looks, ParseNodes, IsAbsorbed, FirstLook, Normal, TakenFor;
    ParsedNodes(mouse, switchKey, cursorLockKey, ns);
    OneLook(ns);
    var i := FirstLook(ns);
    if i == |ns| {
      assert Others(ns) + [] == Others(ns);
    } else {
      var r, p := PrintedRoot(mouse, ns), Parse([], NormalLook(ns[i]));
      var survivors, look := Survivors(r, ns), ParseNodes(r, p, ns).look;
      SurvivorsStay(r, ns);
      if |Looks(ns)| >= 2 {
        TwoLooksLost(survivors, [look], ns);
      } else {
        SurvivorsAreOthersIff(r, ns, i);
        forall j | 0 <= j < |ns| ensures ns[j].action.TapSpot? ==> IsAbsorbed(r, ns[j]) == TakenFor(mouse, ns[i], ns[j]) {
          AbsorbedMeans(mouse, ns[i], ns[j]);
        }
        AbsorbedMeans(mouse, ns[i], ns[i]);
        if survivors == Others(ns) { LookComesBack(mouse, r, ns, i); }
        SameLength(survivors, Others(ns), look, Normal(ns[i]));
      }
    }
  }

  lemma SameLength(a: seq<ControlNode>, b: seq<ControlNode>, x: ControlNode, y: ControlNode)
    ensures a + [x] == b + [y] <==> a == b && x == y
  {
    if a + [x] == b + [y] {
      assert |a| == |b| && a == (a + [x])[..|a|] && b == (b + [y])[..|b|];
      assert (a + [x])[|a|] == (b + [y])[|b|];
    }
  }

  lemma {:induction false} LookComesBack(mouse: MouseNames, r: Root, ns: seq<ControlNode>, i: nat)
    requires i < |ns| && IsLook(ns[i]) && forall j :: 0 <= j < |ns| && j != i ==> !IsLook(ns[j])
    requires OnlyOwnAbsorbed(r, ns) && (ns[i].action.AimPanShoot? ==> IsAbsorbed(r, ns[i]))
    ensures ParseNodes(r, Parse([], NormalLook(ns[i])), ns).look == Normal(ns[i])
  {
    hide Absorbs;
    forall j | 0 <= j < |ns| && j != i ensures !IsAbsorbed(r, ns[j]) { assert !IsLook(ns[j]); }
    LookIsLast(r, Parse([], NormalLook(ns[i])), ns);
  }

  // ---- a second round trip ----

  lemma {:induction false} SplitAppend(a: seq<ControlNode>, b: seq<ControlNode>)
    ensures Others(a + b) == Others(a) + Others(b) && Looks(a + b) == Looks(a) + Looks(b)
    decreases |b|
  {
    hide Normal;
    if b == [] {
      assert a + b == a;
      assert Others(a) + [] == Others(a) && Looks(a) + [] == Looks(a);
    } else {
      assert (a + b)[..|a + b| - 1] == a + b[..|b| - 1];
      SplitAppend(a, b[..|b| - 1]);
    }
  }

  lemma NormalTwice(n: ControlNode)
    ensures Normal(Normal(n)) == Normal(n) && IsLook(Normal(n)) == IsLook(n)
  {
  }

  lemma SplitOne(n: ControlNode)
    ensures Others([n]) == (if IsLook(n) then [] else [Normal(n)]) && Looks([n]) == (if IsLook(n) then [Normal(n)] else [])
  {
    assert [n][..0] == [];
    assert Others([]) == [] && Looks([]) == [];
  }

  lemma {:induction false} SplitOfSplit(ns: seq<ControlNode>)
    ensures Others(Others(ns)) == Others(ns) && Looks(Others(ns)) == []
    ensures Others(Looks(ns)) == [] && Looks(Looks(ns)) == Looks(ns)
    decreases |ns|
  {
    hide Normal;
    if ns == [] {
    } else {
      var past, n := ns[..|ns| - 1], ns[|ns| - 1];
      SplitOfSplit(past);
      NormalTwice(n);
      SplitOne(Normal(n));
      SplitAppend(Others(past), if IsLook(n) then [] else [Normal(n)]);
      SplitAppend(Looks(past), if IsLook(n) then [Normal(n)] else []);
    }
  }

  lemma {:induction false} OthersFrom(ns: seq<ControlNode>, n: ControlNode) returns (i: nat)
    requires n in Others(ns)
    ensures i < |ns| && !IsLook(ns[i]) && n == Normal(ns[i])
    decreases |ns|
  {
    hide Normal;
    var past := ns[..|ns| - 1];
    if n in Others(past) { i := OthersFrom(past, n); } else { i := |ns| - 1; }
  }

  lemma NormalTaken(mouse: MouseNames, look: ControlNode, tap: ControlNode)
    requires IsLook(look) && tap.action.TapSpot?
    ensures TakenFor(mouse, Normal(look), Normal(tap)) == TakenFor(mouse, look, tap)
  {
    hide Near;
  }

  lemma {:induction false} FirstLookAfter(a: seq<ControlNode>, b: seq<ControlNode>)
    requires (forall n :: n in a ==> !IsLook(n)) && |b| <= 1 && forall n :: n in b ==> IsLook(n)
    ensures FirstLook(a + b) == |a|
  {
    assert forall k :: 0 <= k < |a| ==> (a + b)[k] in a;
    if |b| == 1 { assert (a + b)[|a|] == b[0] && b[0] in b; }
  }

  /** The normal form of a scheme that round-trips round-trips too, and is its own normal form. */
  lemma NormalFormRoundTrips(mouse: MouseNames, switchKey: string, cursorLockKey: string, ns: seq<ControlNode>)
    requires NamesOk(mouse) && RoundTrips(mouse, ns)
    ensures var s := NormalScheme(switchKey, cursorLockKey, ns);
      RoundTrips(mouse, s.nodes) && NormalScheme(s.switchKey, s.cursorLockKey, s.nodes) == s
  {
    hide Normal, Others, Looks, TakenFor, FirstLook, Near;
    var others, looks := Others(ns), Looks(ns);
    var ms := others + looks;
    SplitAppend(others, looks);
    SplitOfSplit(ns);
    assert others + [] == others && [] + looks == looks;
    OneLook(ns);
    LooksAreLooks(ns);
    FirstLookAfter(others, looks);
    if looks != [] {
      var look := ns[FirstLook(ns)];
      assert ms[FirstLook(ms)] == Normal(look);
      NormalKeepsShot(look);
      forall j | 0 <= j < |ms| && ms[j].action.TapSpot? ensures !TakenFor(mouse, Normal(look), ms[j]) {
        NormalTwice(look);
        assert ms[j] in others;
        var i := OthersFrom(ns, ms[j]);
        NormalActions(ns[i]);
        NormalTaken(mouse, look, ns[i]);
      }
    }
  }

  lemma NormalActions(n: ControlNode)
    ensures Normal(n).action == n.action
  {
  }

  lemma NormalKeepsShot(n: ControlNode)
    requires IsLook(n)
    ensures Normal(n).action == n.action && Normal(n).pos == n.pos
    ensures n.action.AimPanShoot? ==> ShootKey(Normal(n)) == ShootKey(n) && Normal(n).fireAnchorPos == n.fireAnchorPos
  {
  }

  /** What came back once comes back the same again. */
  lemma SecondTripChangesNothing(mouse: MouseNames, switchKey: string, cursorLockKey: string, ns: seq<ControlNode>)
    requires NamesOk(mouse) && RoundTrips(mouse, ns)
    ensures var s := ParseRoot(PrintRoot(mouse, switchKey, cursorLockKey, ns));
      ParseRoot(PrintRoot(mouse, s.switchKey, s.cursorLockKey, s.nodes)) == s
  {
    hide ParseRoot, PrintRoot, NormalScheme, RoundTrips;
    PrintParseIff(mouse, switchKey, cursorLockKey, ns);
    NormalFormRoundTrips(mouse, switchKey, cursorLockKey, ns);
    var s := NormalScheme(switchKey, cursorLockKey, ns);
    PrintParseIff(mouse, s.switchKey, s.cursorLockKey, s.nodes);
  }

  // ---- the second trip of any scheme ----

  /**
   The click that made the look node an aim node has a key, and no tap that came back has that key if it is a mouse
   button.
   */
  predicate Settles(mouse: MouseNames, ns: seq<ControlNode>) {
    var r := PrintedRoot(mouse, ns);
    var k := LastAbsorbed(r, ns);
    k < |ns| ==>
      && ClickKey(ns[k]) != ""
      && (mouse(ClickKey(ns[k])) ==>
            forall j :: 0 <= j < |ns| && IsClick(ns[j]) && !IsAbsorbed(r, ns[j]) ==> ClickKey(ns[j]) != ClickKey(ns[k]))
  }

  lemma {:induction false} SurvivorsNormal(r: Root, ns: seq<ControlNode>)
    ensures Others(Survivors(r, ns)) == Survivors(r, ns) && Looks(Survivors(r, ns)) == []
    decreases |ns|
  {
    hide IsAbsorbed;
    if ns == [] {
    } else {
      var past, n := Survivors(r, ns[..|ns| - 1]), Survivor(r, ns[|ns| - 1]);
      SurvivorsNormal(r, ns[..|ns| - 1]);
      SplitAppend(past, n);
      SurvivorNormal(r, ns[|ns| - 1]);
    }
  }

  lemma SurvivorNormal(r: Root, n: ControlNode)
    ensures Others(Survivor(r, n)) == Survivor(r, n) && Looks(Survivor(r, n)) == []
  {
    hide IsAbsorbed;
    NormalTwice(n);
    var s := Survivor(r, n);
    if s != [] {
      SplitOne(s[0]);
      assert s == [s[0]];
    }
  }

  /** The taps that come back are the clicks that are not absorbed. */
  lemma {:induction false} TapFrom(r: Root, ns: seq<ControlNode>, n: ControlNode) returns (j: nat)
    requires n in Survivors(r, ns) && n.action.TapSpot?
    ensures j < |ns| && IsClick(ns[j]) && !IsAbsorbed(r, ns[j]) && ClickKey(ns[j]) == n.key
    decreases |ns|
  {
    hide IsAbsorbed, Normal;
    var past, last := ns[..|ns| - 1], ns[|ns| - 1];
    if n in Survivors(r, past) {
      j := TapFrom(r, past, n);
    } else {
      j := |ns| - 1;
      NormalActions(last);
    }
  }

  lemma {:induction false} TapOf(r: Root, ns: seq<ControlNode>, j: nat)
    requires j < |ns| && IsClick(ns[j]) && !IsAbsorbed(r, ns[j])
    ensures DefaultNode(TapSpot).(key := ClickKey(ns[j]), pos := ClickPos(ns[j])) in Survivors(r, ns)
    decreases |ns|
  {
    hide IsAbsorbed, Normal;
    if j == |ns| - 1 {
    } else {
      TapOf(r, ns[..|ns| - 1], j);
    }
  }

  /** Printed and parsed once, a scheme is its nodes in normal form and the look node, which may lack its key. */
  lemma {:induction false} FirstTrip(mouse: MouseNames, switchKey: string, cursorLockKey: string, ns: seq<ControlNode>)
    requires NamesOk(mouse) && FirstLook(ns) < |ns|
    ensures var s := ParseRoot(PrintRoot(mouse, switchKey, cursorLockKey, ns));
            var r := PrintedRoot(mouse, ns);
            var look := Aimed(r, NormalLook(ns[FirstLook(ns)]), ns);
      && s.switchKey != "" && s.cursorLockKey != "" && s.nodes == Survivors(r, ns) + [look]
      && NormalScheme(s.switchKey, s.cursorLockKey, s.nodes) == s.(nodes := Survivors(r, ns) + [Normal(look)])
      && Looks(s.nodes) == [Normal(look)] && FirstLook(s.nodes) == |Survivors(r, ns)|
  {
    hide ParseRoot, PrintRoot, PrintedRoot, ParseNodes, Survivors, Others, Looks, FirstLook, Normal, LastAbsorbed;
    var r := PrintedRoot(mouse, ns);
    var i := FirstLook(ns);
    ParsedNodes(mouse, switchKey, cursorLockKey, ns);
    LookIsLast(r, Parse([], NormalLook(ns[i])), ns);
    var survivors, look := Survivors(r, ns), Aimed(r, NormalLook(ns[i]), ns);
    SurvivorsNormal(r, ns);
    SurvivorsStay(r, ns);
    SplitAppend(survivors, [look]);
    SplitOne(look);
    assert survivors + [] == survivors && [] + [Normal(look)] == [Normal(look)];
    FirstLookAfter(survivors, [look]);
  }

  /** Only an aim node without a key is not in normal form then. */
  lemma {:induction false} AimedNormal(r: Root, n: ControlNode, ns: seq<ControlNode>)
    ensures var look := Aimed(r, NormalLook(n), ns); var k := LastAbsorbed(r, ns);
      Normal(look) == look <==> (k < |ns| ==> ClickKey(ns[k]) != "")
  {
    hide LastAbsorbed;
  }

  lemma {:induction false} NoLookSettles(mouse: MouseNames, switchKey: string, cursorLockKey: string, ns: seq<ControlNode>)
    requires NamesOk(mouse) && FirstLook(ns) == |ns|
    ensures var s := ParseRoot(PrintRoot(mouse, switchKey, cursorLockKey, ns));
      ParseRoot(PrintRoot(mouse, s.switchKey, s.cursorLockKey, s.nodes)) == s
    ensures Settles(mouse, ns)
  {
    hide ParseRoot, PrintRoot, Looks, TakenFor;
    OneLook(ns);
    SecondTripChangesNothing(mouse, switchKey, cursorLockKey, ns);
  }

  /** What came back of an aim node with a key, or of a plain look node, round-trips unless a tap shares its mouse button. */
  lemma {:induction false} SettledRoundTrips(mouse: MouseNames, ns: seq<ControlNode>, look: ControlNode)
    requires NamesOk(mouse) && FirstLook(ns) < |ns|
    requires look == Aimed(PrintedRoot(mouse, ns), NormalLook(ns[FirstLook(ns)]), ns) && Normal(look) == look
    requires var ms := Survivors(PrintedRoot(mouse, ns), ns) + [look];
             Looks(ms) == [look] && FirstLook(ms) == |ms| - 1
    ensures RoundTrips(mouse, Survivors(PrintedRoot(mouse, ns), ns) + [look]) <==> Settles(mouse, ns)
  {
    hide Survivors, Looks, FirstLook, Normal, LastAbsorbed, Near, NamesOk, Aimed;
    var r, k := PrintedRoot(mouse, ns), LastAbsorbed(PrintedRoot(mouse, ns), ns);
    AimedMeans(mouse, ns, look);
    var survivors := Survivors(r, ns);
    var ms := survivors + [look];
    SurvivorsStay(r, ns);
    forall n | n in survivors && n.action.TapSpot?
      ensures TakenFor(mouse, look, n) <==> look.action.AimPanShoot? && mouse(look.key) && n.key == look.key
    {
      assert !IsAbsorbed(r, n);
    }
    if k < |ns| {
      if RoundTrips(mouse, ms) {
        forall j | 0 <= j < |ns| && IsClick(ns[j]) && !IsAbsorbed(r, ns[j]) ensures mouse(look.key) ==> ClickKey(ns[j]) != look.key {
          TapOf(r, ns, j);
          var tap := DefaultNode(TapSpot).(key := ClickKey(ns[j]), pos := ClickPos(ns[j]));
          var m :| 0 <= m < |survivors| && survivors[m] == tap;
          assert ms[m] == tap;
        }
      }
      if Settles(mouse, ns) {
        forall m | 0 <= m < |ms| && ms[m].action.TapSpot? ensures !TakenFor(mouse, look, ms[m]) {
          assert ms[m] in survivors;
          var j := TapFrom(r, ns, ms[m]);
        }
      }
    } else {
      assert forall m :: 0 <= m < |survivors| ==> ms[m] in survivors;
    }
  }

  /** The shape of what the first trip makes of the look node, and that its own spot would be recognized again. */
  lemma {:induction false} AimedMeans(mouse: MouseNames, ns: seq<ControlNode>, look: ControlNode)
    requires NamesOk(mouse) && FirstLook(ns) < |ns|
    requires look == Aimed(PrintedRoot(mouse, ns), NormalLook(ns[FirstLook(ns)]), ns) && Normal(look) == look
    ensures var r := PrintedRoot(mouse, ns); var k := LastAbsorbed(r, ns);
      && r.hasLook && look.pos == r.anchor && IsLook(look) && ShootKey(look) == (if look.key == "" then LEFT_BUTTON else look.key)
      && (look.action.AimPanShoot? <==> k < |ns|)
      && (k < |ns| ==> look.key == ClickKey(ns[k]) != "" && (mouse(look.key) || Near(look.fireAnchorPos, look.pos)))
  {
    hide FirstLook, LastAbsorbed, Near, Normal;
    AimedNormal(PrintedRoot(mouse, ns), ns[FirstLook(ns)], ns);
  }

  /** An aim node without a key comes back with one. */
  lemma {:induction false} KeylessAim(mouse: MouseNames, switchKey: string, cursorLockKey: string, survivors: seq<ControlNode>, look: ControlNode)
    requires NamesOk(mouse) && look.action.AimPanShoot? && look.key == ""
    requires FirstLook(survivors + [look]) == |survivors|
    ensures ParseRoot(PrintRoot(mouse, switchKey, cursorLockKey, survivors + [look])).nodes != survivors + [look]
  {
    hide ParseRoot, PrintRoot, Survivors, FirstLook, LastAbsorbed, ParseNodes;
    var ms := survivors + [look];
    var r := PrintedRoot(mouse, ms);
    ParsedNodes(mouse, switchKey, cursorLockKey, ms);
    LookIsLast(r, Parse([], NormalLook(look)), ms);
    assert ms[|ms| - 1] == look && IsAbsorbed(r, look);
    assert LastAbsorbed(r, ms) == |ms| - 1;
    var again := ParseRoot(PrintRoot(mouse, switchKey, cursorLockKey, ms)).nodes;
    assert again[|again| - 1].key == LEFT_BUTTON;
  }

  /** What came back once comes back the same again exactly under the condition above. */
  lemma SecondTripIff(mouse: MouseNames, switchKey: string, cursorLockKey: string, ns: seq<ControlNode>)
    requires NamesOk(mouse)
    ensures var s := ParseRoot(PrintRoot(mouse, switchKey, cursorLockKey, ns));
      ParseRoot(PrintRoot(mouse, s.switchKey, s.cursorLockKey, s.nodes)) == s <==> Settles(mouse, ns)
  {
    hide ParseRoot, PrintRoot, PrintedRoot, Survivors, Others, Looks, FirstLook, Normal, LastAbsorbed, RoundTrips, NormalScheme;
    var s := ParseRoot(PrintRoot(mouse, switchKey, cursorLockKey, ns));
    var i, r := FirstLook(ns), PrintedRoot(mouse, ns);
    if i == |ns| {
      NoLookSettles(mouse, switchKey, cursorLockKey, ns);
    } else {
      FirstTrip(mouse, switchKey, cursorLockKey, ns);
      AimedNormal(r, ns[i], ns);
      var look := Aimed(r, NormalLook(ns[i]), ns);
      if Normal(look) == look {
        PrintParseIff(mouse, s.switchKey, s.cursorLockKey, s.nodes);
        SettledRoundTrips(mouse, ns, look);
      } else {
        KeylessAim(mouse, s.switchKey, s.cursorLockKey, Survivors(r, ns), look);
      }
    }
  }

  const RIGHT_BUTTON := "RightButton"

  /** A tap of another button on the anchor takes the aim node over; next time it takes the second tap of that button. */
  lemma SecondTripCanChange(mouse: MouseNames, switchKey: string, cursorLockKey: string)
    requires NamesOk(mouse) && mouse(RIGHT_BUTTON)
    ensures var tap := DefaultNode(TapSpot).(key := RIGHT_BUTTON);
            var s := ParseRoot(PrintRoot(mouse, switchKey, cursorLockKey,
                                         [DefaultNode(AimPanShoot).(key := LEFT_BUTTON), tap, tap.(pos := Point(0.1, 0.5))]));
      ParseRoot(PrintRoot(mouse, s.switchKey, s.cursorLockKey, s.nodes)) != s
  {
    hide ParseRoot, PrintRoot;
    var tap := DefaultNode(TapSpot).(key := RIGHT_BUTTON);
    var ns := [DefaultNode(AimPanShoot).(key := LEFT_BUTTON), tap, tap.(pos := Point(0.1, 0.5))];
    assert RIGHT_BUTTON[0] != LEFT_BUTTON[0];
    var r := PrintedRoot(mouse, ns);
    assert IsAbsorbed(r, ns[1]) && !IsAbsorbed(r, ns[2]);
    assert ClickKey(ns[2]) == ClickKey(ns[1]);
    SecondTripIff(mouse, switchKey, cursorLockKey, ns);
  }
}
