/**
 The slot state machine of `raw_input_daemon.c`, as functions from a state and a command to the next state and the
 input events it writes, and the kernel's type-B multi-touch machine that replays those events and shows its readers what
 has been reported.
 */
module TouchDaemon {
  import opened TouchWire
  import opened TouchPanel

  const MAX_SLOTS := 10

  datatype Event =
    | MtSlot(slot: int)
    | MtTrackingId(id: int)
    | MtPositionX(x: int)
    | MtPositionY(y: int)
    | BtnTouch(value: int)
    | SynReport

  /** `maps` counts the positions mapped so far: it is the index into the rotations the poll thread supplies. */
  datatype State = State(active: seq<bool>, count: int, frameWidth: int, frameHeight: int, maps: nat)

  type Rotations = nat -> Rotation

  function Idle(): (bs: seq<bool>)
    ensures |bs| == MAX_SLOTS && forall i :: 0 <= i < MAX_SLOTS ==> !bs[i]
  {
    seq(MAX_SLOTS, (i: nat) => false)
  }

  function InitialState(): State { State(Idle(), 0, 0, 0, 0) }

  predicate SlotInRange(slot: int) { 0 <= slot < MAX_SLOTS }

  function Place(s: State, rot: Rotations, x: int, y: int): (int, int) {
    MapFrameToPanel(s.frameWidth, s.frameHeight, rot(s.maps), x, y)
  }

  function HandleDown(s: State, rot: Rotations, slot: int, trackId: int, x: int, y: int): (State, seq<Event>)
    requires |s.active| == MAX_SLOTS
  {
    if !SlotInRange(slot) then (s, [])
    else
      var (px, py) := Place(s, rot, x, y);
      var s' := s.(maps := s.maps + 1, active := s.active[slot := true], count := if s.active[slot] then s.count else s.count + 1);
      (s', (if s.count == 0 then [BtnTouch(1)] else [])
           + [MtSlot(slot), MtTrackingId(trackId), MtPositionX(px), MtPositionY(py), SynReport])
  }

  function HandleMove(s: State, rot: Rotations, slot: int, x: int, y: int): (State, seq<Event>) {
    if !SlotInRange(slot) then (s, [])
    else
      var (px, py) := Place(s, rot, x, y);
      (s.(maps := s.maps + 1), [MtSlot(slot), MtPositionX(px), MtPositionY(py), SynReport])
  }

  function HandleUp(s: State, slot: int): (State, seq<Event>)
    requires |s.active| == MAX_SLOTS
  {
    if !SlotInRange(slot) then (s, [])
    else
      var count := if s.active[slot] && s.count > 0 then s.count - 1 else s.count;
      (s.(active := s.active[slot := false], count := count),
       [MtSlot(slot), MtTrackingId(-1)] + (if count == 0 then [BtnTouch(0)] else []) + [SynReport])
  }

  /** One packet: the next state, the events written, and whether the client quits. */
  function Handle(s: State, rot: Rotations, c: Command): (State, seq<Event>)
    requires |s.active| == MAX_SLOTS
  {
    match c
    case Down(slot, id, x, y) => HandleDown(s, rot, slot, id, x, y)
    case Move(slot, x, y) => HandleMove(s, rot, slot, x, y)
    case Up(slot) => HandleUp(s, slot)
    case Frame(w, h) => (s.(frameWidth := w, frameHeight := h), [])
    case Quit => (s, [])
    case Unrecognized => (s, [])
  }

  lemma HandleKeepsShape(s: State, rot: Rotations, c: Command)
    requires |s.active| == MAX_SLOTS
    ensures |Handle(s, rot, c).0.active| == MAX_SLOTS
  {
  }

  function LiftEvents(active: seq<bool>, from: nat): seq<Event>
    decreases |active| - from
  {
    if from >= |active| then []
    else (if active[from] then [MtSlot(from), MtTrackingId(-1)] else []) + LiftEvents(active, from + 1)
  }

  /** Between clients every contact is lifted. */
  function ResetTouchState(s: State): (State, seq<Event>)
    requires |s.active| == MAX_SLOTS
  {
    (s.(active := Idle(), count := 0), LiftEvents(s.active, 0) + (if s.count > 0 then [BtnTouch(0)] else []) + [SynReport])
  }

  // ---- the kernel ----

  /** A contact is present while its tracking id is non-negative. */
  datatype Contact = Contact(id: int, x: int, y: int)

  /** What a reader of the device has been told. */
  datatype Seen = Seen(contacts: seq<Contact>, touching: bool)

  /**
   `ABS_MT_SLOT` selects the contact that later `ABS_MT_*` events write; a button is pressed by 1 and released by 0; only a
   `SYN_REPORT` shows what was written.
   */
  datatype Kernel = Kernel(cur: int, contacts: seq<Contact>, touching: bool, seen: Seen, reports: nat)

  function NoContacts(): (cs: seq<Contact>)
    ensures |cs| == MAX_SLOTS && forall i :: 0 <= i < MAX_SLOTS ==> cs[i] == Contact(-1, 0, 0)
  {
    seq(MAX_SLOTS, (i: nat) => Contact(-1, 0, 0))
  }

  function BootKernel(): Kernel { Reported(0, NoContacts(), false, 0) }

  /** A kernel whose readers know everything. */
  function Reported(cur: int, contacts: seq<Contact>, touching: bool, reports: nat): Kernel {
    Kernel(cur, contacts, touching, Seen(contacts, touching), reports)
  }

  function Apply(k: Kernel, e: Event): Kernel
  {
    match e
    case MtSlot(slot) => k.(cur := slot)
    case MtTrackingId(id) => if 0 <= k.cur < |k.contacts| then k.(contacts := k.contacts[k.cur := k.contacts[k.cur].(id := id)]) else k
    case MtPositionX(x) => if 0 <= k.cur < |k.contacts| then k.(contacts := k.contacts[k.cur := k.contacts[k.cur].(x := x)]) else k
    case MtPositionY(y) => if 0 <= k.cur < |k.contacts| then k.(contacts := k.contacts[k.cur := k.contacts[k.cur].(y := y)]) else k
    case BtnTouch(value) => k.(touching := value == 1 || (value != 0 && k.touching))
    case SynReport => k.(seen := Seen(k.contacts, k.touching), reports := k.reports + 1)
  }

  function Replay(k: Kernel, es: seq<Event>): Kernel
    decreases |es|
  {
    if es == [] then k else Replay(Apply(k, es[0]), es[1..])
  }

  lemma {:induction false} ReplayAppend(k: Kernel, a: seq<Event>, b: seq<Event>)
    ensures Replay(k, a + b) == Replay(Replay(k, a), b)
    decreases |a|
  {
    if a == [] {
      assert a + b == b;
    } else {
      assert (a + b)[0] == a[0] && (a + b)[1..] == a[1..] + b;
      ReplayAppend(Apply(k, a[0]), a[1..], b);
    }
  }

  /** To the readers of the device. */
  predicate InContact(k: Kernel, slot: int)
    requires 0 <= slot < |k.seen.contacts|
  {
    k.seen.contacts[slot].id >= 0
  }

  function CountTrue(bs: seq<bool>): nat {
    if bs == [] then 0 else (if bs[0] then 1 else 0) + CountTrue(bs[1..])
  }

  /** The daemon and the kernel agree. */
  predicate InSync(s: State, k: Kernel) {
    && |s.active| == |k.seen.contacts| == MAX_SLOTS
    && s.count == CountTrue(s.active)
    && k.seen.touching == (s.count > 0)
    && k.seen == Seen(k.contacts, k.touching)
    && forall slot :: 0 <= slot < MAX_SLOTS ==> InContact(k, slot) == s.active[slot]
  }

  lemma {:induction false} CountUpdate(bs: seq<bool>, i: nat, v: bool)
    requires i < |bs|
    ensures CountTrue(bs[i := v]) == CountTrue(bs) + (if v then 1 else 0) - (if bs[i] then 1 else 0)
  {
    if i == 0 {
      assert bs[0 := v][1..] == bs[1..];
    } else {
      CountUpdate(bs[1..], i - 1, v);
      assert bs[i := v][1..] == bs[1..][i - 1 := v];
    }
  }

  lemma {:induction false} CountNone(bs: seq<bool>)
    ensures CountTrue(bs) == 0 <==> forall i :: 0 <= i < |bs| ==> !bs[i]
  {
    if bs == [] {
    } else {
      CountNone(bs[1..]);
      assert forall i :: 1 <= i < |bs| ==> bs[i] == bs[1..][i - 1];
      assert forall i :: 0 <= i < |bs| - 1 ==> bs[1..][i] == bs[i + 1];
    }
  }

  lemma CountIdle()
    ensures CountTrue(Idle()) == 0
  {
    hide Idle;
    CountNone(Idle());
  }

  lemma StartsInSync()
    ensures InSync(InitialState(), BootKernel())
  {
    hide Idle, NoContacts;
    CountIdle();
  }

  // ---- short event runs, replayed ----

  lemma {:induction false} ReplayOne(k: Kernel, a: Event)
    ensures Replay(k, [a]) == Apply(k, a)
  {
    assert Replay(Apply(k, a), []) == Apply(k, a);
  }

  lemma {:induction false} ReplayMany(k: Kernel, a: Event, rest: seq<Event>)
    ensures Replay(k, [a] + rest) == Replay(Apply(k, a), rest)
  {
    assert ([a] + rest)[1..] == rest;
  }

  /** Kernel effect of the events of a DOWN, MOVE and UP on one slot. */
  lemma {:induction false} DownEffect(k: Kernel, slot: int, id: int, x: int, y: int)
    requires 0 <= slot < |k.contacts|
    ensures Replay(k, [MtSlot(slot), MtTrackingId(id), MtPositionX(x), MtPositionY(y), SynReport])
         == Reported(slot, k.contacts[slot := Contact(id, x, y)], k.touching, k.reports + 1)
  {
    var a, b, c, d := MtSlot(slot), MtTrackingId(id), MtPositionX(x), MtPositionY(y);
    var k1 := k.(cur := slot);
    var k2 := k1.(contacts := k.contacts[slot := k.contacts[slot].(id := id)]);
    ReplayMany(k, a, [b, c, d, SynReport]);
    ReplayMany(k1, b, [c, d, SynReport]);
    PositionEffect(k2, slot, x, y);
    assert [a] + [b, c, d, SynReport] == [a, b, c, d, SynReport] && [b] + [c, d, SynReport] == [b, c, d, SynReport];
    assert k2.contacts[slot := Contact(id, x, y)] == k.contacts[slot := Contact(id, x, y)];
  }

  lemma {:induction false} PositionEffect(k: Kernel, slot: int, x: int, y: int)
    requires 0 <= slot < |k.contacts| && k.cur == slot
    ensures Replay(k, [MtPositionX(x), MtPositionY(y), SynReport])
         == Reported(slot, k.contacts[slot := k.contacts[slot].(x := x, y := y)], k.touching, k.reports + 1)
  {
    var c, d := MtPositionX(x), MtPositionY(y);
    var k1 := k.(contacts := k.contacts[slot := k.contacts[slot].(x := x)]);
    var k2 := k1.(contacts := k1.contacts[slot := k1.contacts[slot].(y := y)]);
    ReplayMany(k, c, [d, SynReport]);
    ReplayMany(k1, d, [SynReport]);
    ReplayOne(k2, SynReport);
    assert [c] + [d, SynReport] == [c, d, SynReport] && [d] + [SynReport] == [d, SynReport];
    assert k2.contacts == k.contacts[slot := k.contacts[slot].(x := x, y := y)];
  }

  lemma {:induction false} MoveEffect(k: Kernel, slot: int, x: int, y: int)
    requires 0 <= slot < |k.contacts|
    ensures Replay(k, [MtSlot(slot), MtPositionX(x), MtPositionY(y), SynReport])
         == Reported(slot, k.contacts[slot := k.contacts[slot].(x := x, y := y)], k.touching, k.reports + 1)
  {
    var a, c, d := MtSlot(slot), MtPositionX(x), MtPositionY(y);
    ReplayMany(k, a, [c, d, SynReport]);
    PositionEffect(k.(cur := slot), slot, x, y);
    assert [a] + [c, d, SynReport] == [a, c, d, SynReport];
  }

  lemma {:induction false} LiftEffect(k: Kernel, slot: int)
    requires 0 <= slot < |k.contacts|
    ensures Replay(k, [MtSlot(slot), MtTrackingId(-1)])
         == k.(cur := slot, contacts := k.contacts[slot := k.contacts[slot].(id := -1)])
  {
    var es := [MtSlot(slot), MtTrackingId(-1)];
    assert es[1..] == [MtTrackingId(-1)];
    ReplayOne(Apply(k, es[0]), MtTrackingId(-1));
  }

  // ---- every packet keeps daemon and kernel in step ----

  lemma {:induction false} ReplayBtn(k: Kernel, on: bool, value: int)
    requires value == 0 || value == 1
    ensures Replay(k, if on then [BtnTouch(value)] else []) == if on then k.(touching := value != 0) else k
  {
    if on { ReplayOne(k, BtnTouch(value)); }
  }

  /** State of the kernel after a DOWN, whatever it was before: one report shows all of it. */
  lemma {:induction false} DownKernel(s: State, k: Kernel, rot: Rotations, slot: int, id: int, x: int, y: int)
    requires |s.active| == MAX_SLOTS && SlotInRange(slot) && |k.contacts| == MAX_SLOTS
    ensures var p := Place(s, rot, x, y);
      && Replay(k, HandleDown(s, rot, slot, id, x, y).1)
         == Reported(slot, k.contacts[slot := Contact(id, p.0, p.1)], s.count == 0 || k.touching, k.reports + 1)
  {
    hide Place;
    var (px, py) := Place(s, rot, x, y);
    var press := if s.count == 0 then [BtnTouch(1)] else [];
    ReplayAppend(k, press, [MtSlot(slot), MtTrackingId(id), MtPositionX(px), MtPositionY(py), SynReport]);
    ReplayBtn(k, s.count == 0, 1);
    DownEffect(Replay(k, press), slot, id, px, py);
  }

  lemma {:induction false} MoveKernel(s: State, k: Kernel, rot: Rotations, slot: int, x: int, y: int)
    requires SlotInRange(slot) && |k.contacts| == MAX_SLOTS
    ensures var p := Place(s, rot, x, y);
      && Replay(k, HandleMove(s, rot, slot, x, y).1)
         == Reported(slot, k.contacts[slot := k.contacts[slot].(x := p.0, y := p.1)], k.touching, k.reports + 1)
  {
    hide Place;
    var (px, py) := Place(s, rot, x, y);
    MoveEffect(k, slot, px, py);
  }

  lemma {:induction false} UpKernel(s: State, k: Kernel, slot: int)
    requires |s.active| == MAX_SLOTS && SlotInRange(slot) && |k.contacts| == MAX_SLOTS
    ensures Replay(k, HandleUp(s, slot).1)
         == Reported(slot, k.contacts[slot := k.contacts[slot].(id := -1)], HandleUp(s, slot).0.count != 0 && k.touching,
                     k.reports + 1)
  {
    var count := HandleUp(s, slot).0.count;
    var lift, release := [MtSlot(slot), MtTrackingId(-1)], if count == 0 then [BtnTouch(0)] else [];
    ReplayAppend(k, lift + release, [SynReport]);
    ReplayAppend(k, lift, release);
    LiftEffect(k, slot);
    var k1 := Replay(k, lift);
    ReplayBtn(k1, count == 0, 0);
    ReplayOne(Replay(k1, release), SynReport);
  }

  /** The one packet that could break the agreement: a DOWN that carries a negative tracking id. */
  predicate NegativeDown(c: Command) { c.Down? && SlotInRange(c.slot) && c.trackId < 0 }

  /**
   From agreement, a packet leads to agreement exactly when it is not a DOWN with a negative id.  This covers repeated
   DOWNs, stray UPs and MOVEs, and out-of-range slots.
   */
  lemma {:induction false} HandleKeepsSync(s: State, k: Kernel, rot: Rotations, c: Command)
    requires InSync(s, k)
    ensures var (s', es) := Handle(s, rot, c); InSync(s', Replay(k, es)) <==> !NegativeDown(c)
  {
    hide Place, Replay;
    match c
    case Down(slot, id, x, y) =>
      if SlotInRange(slot) {
        DownKernel(s, k, rot, slot, id, x, y);
        CountUpdate(s.active, slot, true);
        CountNone(s.active);
        var (s', es) := Handle(s, rot, c);
        assert s'.active[slot] && InContact(Replay(k, es), slot) == (id >= 0);
      } else { ReplayNothing(k); }
    case Move(slot, x, y) =>
      if SlotInRange(slot) { MoveKernel(s, k, rot, slot, x, y); } else { ReplayNothing(k); }
    case Up(slot) =>
      if SlotInRange(slot) {
        UpKernel(s, k, slot);
        CountUpdate(s.active, slot, false);
        CountNone(s.active);
      } else { ReplayNothing(k); }
    case Frame(w, h) => ReplayNothing(k);
    case Quit => ReplayNothing(k);
    case Unrecognized => ReplayNothing(k);
  }

  lemma {:induction false} ReplayNothing(k: Kernel)
    ensures Replay(k, []) == k
  {
  }

  /** A touch of a slot the device has. */
  predicate Touch(c: Command) { (c.Down? || c.Move? || c.Up?) && SlotInRange(c.slot) }

  /** Every touch of a slot is shown to the readers at once, in one report; nothing else makes a report. */
  lemma {:induction false} HandleReports(s: State, k: Kernel, rot: Rotations, c: Command)
    requires |s.active| == MAX_SLOTS == |k.contacts|
    ensures var k' := Replay(k, Handle(s, rot, c).1);
      if Touch(c) then k'.reports == k.reports + 1 && k'.seen == Seen(k'.contacts, k'.touching) else k' == k
  {
    hide Place, Replay;
    match c
    case Down(slot, id, x, y) => if SlotInRange(slot) { DownKernel(s, k, rot, slot, id, x, y); } else { ReplayNothing(k); }
    case Move(slot, x, y) => if SlotInRange(slot) { MoveKernel(s, k, rot, slot, x, y); } else { ReplayNothing(k); }
    case Up(slot) => if SlotInRange(slot) { UpKernel(s, k, slot); } else { ReplayNothing(k); }
    case Frame(_, _) => ReplayNothing(k);
    case Quit => ReplayNothing(k);
    case Unrecognized => ReplayNothing(k);
  }

  // ---- whole runs ----

  function Run(s: State, rot: Rotations, cs: seq<Command>): (State, seq<Event>)
    requires |s.active| == MAX_SLOTS
    decreases |cs|
  {
    if cs == [] then (s, [])
    else
      var (s1, es1) := Handle(s, rot, cs[0]);
      HandleKeepsShape(s, rot, cs[0]);
      var (s2, es2) := Run(s1, rot, cs[1..]);
      (s2, es1 + es2)
  }

  /** After every run without negative ids the daemon's table and the kernel's contacts agree. */
  lemma {:induction false} RunKeepsSync(s: State, k: Kernel, rot: Rotations, cs: seq<Command>)
    requires InSync(s, k) && forall i :: 0 <= i < |cs| ==> !NegativeDown(cs[i])
    ensures var (s', es) := Run(s, rot, cs); InSync(s', Replay(k, es))
    decreases |cs|
  {
    hide InSync, Handle;
    if cs == [] {
      ReplayNothing(k);
    } else {
      SyncShape(s, k);
      HandleKeepsShape(s, rot, cs[0]);
      var (s1, es1) := Handle(s, rot, cs[0]);
      HandleKeepsSync(s, k, rot, cs[0]);
      RunKeepsSync(s1, Replay(k, es1), rot, cs[1..]);
      ReplayAppend(k, es1, Run(s1, rot, cs[1..]).1);
    }
  }

  lemma SyncShape(s: State, k: Kernel)
    requires InSync(s, k)
    ensures |s.active| == MAX_SLOTS == |k.seen.contacts| && k.seen == Seen(k.contacts, k.touching)
  {
  }

  // ---- the reset between clients ----

  lemma {:induction false} LiftsAll(k: Kernel, active: seq<bool>, from: nat)
    requires |k.contacts| == |active| && from <= |active|
    ensures var k' := Replay(k, LiftEvents(active, from));
      && |k'.contacts| == |active| && k'.touching == k.touching && k'.seen == k.seen && k'.reports == k.reports
      && forall i :: 0 <= i < |active| ==>
           k'.contacts[i].id == if i >= from && active[i] then -1 else k.contacts[i].id
    decreases |active| - from
  {
    if from == |active| {
    } else {
      var lift := if active[from] then [MtSlot(from), MtTrackingId(-1)] else [];
      ReplayAppend(k, lift, LiftEvents(active, from + 1));
      if active[from] { LiftEffect(k, from); }
      LiftsAll(Replay(k, lift), active, from + 1);
    }
  }

  /** From any state of agreement, the reset lifts every contact and the button, on both sides, in one report; the frame stays. */
  lemma {:induction false} ResetLiftsEverything(s: State, k: Kernel)
    requires InSync(s, k)
    ensures var (s', es) := ResetTouchState(s); var k' := Replay(k, es);
      && InSync(s', k') && s'.active == Idle() && s'.count == 0 && !k'.seen.touching && k'.reports == k.reports + 1
      && (s'.frameWidth, s'.frameHeight, s'.maps) == (s.frameWidth, s.frameHeight, s.maps)
      && forall i :: 0 <= i < 10 ==> !InContact(k', i)
  {
    hide Replay, LiftEvents, Idle;
    var lifts, release := LiftEvents(s.active, 0), if s.count > 0 then [BtnTouch(0)] else [];
    ReplayAppend(k, lifts + release, [SynReport]);
    ReplayAppend(k, lifts, release);
    LiftsAll(k, s.active, 0);
    var k1 := Replay(k, lifts);
    ReplayBtn(k1, s.count > 0, 0);
    ReplayOne(Replay(k1, release), SynReport);
    CountIdle();
  }
}
