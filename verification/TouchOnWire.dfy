/**
 Daemon and kernel as a function of the packets that got through, in wire order: no run of calls, no queue and no network
 is supposed here, so that whatever a log holds, this is where its packets leave every slot.
 */
module TouchOnWire {
  import opened Common
  import opened TouchWire
  import opened TouchPanel
  import opened TouchDaemon
  import opened TouchServer
  import opened TouchSender
  import opened TouchPipeline
  import TouchSession

  // ---- daemon and kernel, packet by packet ----

  datatype World = World(daemon: State, kernel: Kernel)

  function WorldOf(rot: Rotations, log: seq<Sent>): World {
    var r := Run(InitialState(), rot, Delivered(log));
    World(r.0, Replay(BootKernel(), r.1))
  }

  function Advance(rot: Rotations, w: World, c: Command): World
    requires |w.daemon.active| == MAX_SLOTS
  {
    var h := Handle(w.daemon, rot, c);
    World(h.0, Replay(w.kernel, h.1))
  }

  lemma WorldPush(rot: Rotations, log: seq<Sent>, s: Sent)
    ensures |WorldOf(rot, log).daemon.active| == MAX_SLOTS
    ensures WorldOf(rot, log + [s]) == if s.delivered then Advance(rot, WorldOf(rot, log), Narrowed(s.pkt)) else WorldOf(rot, log)
  {
    hide Run, Handle, Replay, Delivered, Narrowed;
    DeliveredPush(log, s);
    RunAppend(InitialState(), rot, Delivered(log), [Narrowed(s.pkt)]);
    var r := Run(InitialState(), rot, Delivered(log));
    RunOne(r.0, rot, Narrowed(s.pkt));
    ReplayAppend(BootKernel(), r.1, Handle(r.0, rot, Narrowed(s.pkt)).1);
    assert Delivered(log) + [] == Delivered(log);
  }

  lemma StartWorld(rot: Rotations)
    ensures WorldOf(rot, []) == World(InitialState(), BootKernel())
  {
  }

  // ---- what the packets that got through say ----

  /** The size the daemon has after the packets that got through: that of the latest delivered FRAME. */
  function DeliveredSize(log: seq<Sent>): (int, int)
    decreases |log|
  {
    if log == [] then (0, 0)
    else
      var s := log[|log| - 1];
      if s.delivered && s.pkt.FramePkt? then (ToInt16(s.pkt.width), ToInt16(s.pkt.height))
      else DeliveredSize(log[..|log| - 1])
  }

  predicate IsPoint(s: Sent) { s.delivered && (s.pkt.DownPkt? || s.pkt.MovePkt?) }

  /** The packet is a point for the slot. */
  predicate Lands(s: Sent, slot: int) { IsPoint(s) && ToUint8(s.pkt.slot) == slot }

  /** How many points were put on the panel. */
  function PointsIn(log: seq<Sent>): nat
    decreases |log|
  {
    if log == [] then 0
    else
      var s := log[|log| - 1];
      PointsIn(log[..|log| - 1]) + if IsPoint(s) && SlotInRange(ToUint8(s.pkt.slot)) then 1 else 0
  }

  /** How many touches of slots of the device got through. */
  function TouchesIn(log: seq<Sent>): nat
    decreases |log|
  {
    if log == [] then 0
    else
      var s := log[|log| - 1];
      TouchesIn(log[..|log| - 1]) + if s.delivered && Touch(Narrowed(s.pkt)) then 1 else 0
  }

  /** Where the slot's latest point is in the log, or the length of the log. */
  function LatestTouch(log: seq<Sent>, slot: int): (i: nat)
    ensures i <= |log| && (i < |log| ==> Lands(log[i], slot))
    ensures forall j :: 0 <= j < |log| && (j > i || i == |log|) ==> !Lands(log[j], slot)
    decreases |log|
  {
    if log == [] then 0
    else if Lands(log[|log| - 1], slot) then |log| - 1
    else
      var i := LatestTouch(log[..|log| - 1], slot);
      if i == |log| - 1 then |log| else i
  }

  /** Where point `i` of the log belongs: mapped with the frame size and the rotation of its time. */
  function PointAt(rot: Rotations, log: seq<Sent>, i: nat): (int, int)
    requires i < |log| && IsPoint(log[i])
  {
    var size, pkt := DeliveredSize(log[..i]), log[i].pkt;
    MapFrameToPanel(size.0, size.1, rot(PointsIn(log[..i])), ToInt16(pkt.x), ToInt16(pkt.y))
  }

  function WirePoint(rot: Rotations, log: seq<Sent>, slot: int): (int, int) {
    var i := LatestTouch(log, slot);
    if i == |log| then (0, 0) else PointAt(rot, log, i)
  }

  /** The packet puts the slot's finger down, or lifts it. */
  predicate Sets(s: Sent, slot: int) { s.delivered && (s.pkt.DownPkt? || s.pkt.UpPkt?) && ToUint8(s.pkt.slot) == slot }

  /** The tracking id the slot's latest DOWN gave it, unless an UP came after it. */
  function Holder(log: seq<Sent>, slot: int): Option<int>
    decreases |log|
  {
    if log == [] then None
    else
      var s := log[|log| - 1];
      if Sets(s, slot) then Holding(s.pkt) else Holder(log[..|log| - 1], slot)
  }

  function Holding(p: Packet): Option<int> { if p.DownPkt? then Some(ToInt16(p.trackId)) else None }

  function IdOf(holder: Option<int>): int { if holder.Some? then holder.value else -1 }

  lemma {:induction false} WirePush(log: seq<Sent>, s: Sent, slot: int)
    ensures DeliveredSize(log + [s])
         == if s.delivered && s.pkt.FramePkt? then (ToInt16(s.pkt.width), ToInt16(s.pkt.height)) else DeliveredSize(log)
    ensures PointsIn(log + [s]) == PointsIn(log) + if IsPoint(s) && SlotInRange(ToUint8(s.pkt.slot)) then 1 else 0
    ensures TouchesIn(log + [s]) == TouchesIn(log) + if s.delivered && Touch(Narrowed(s.pkt)) then 1 else 0
    ensures Holder(log + [s], slot) == if Sets(s, slot) then Holding(s.pkt) else Holder(log, slot)
  {
    assert (log + [s])[..|log|] == log;
  }

  lemma {:induction false} PointPush(rot: Rotations, log: seq<Sent>, s: Sent, slot: int)
    ensures LatestTouch(log + [s], slot)
         == if Lands(s, slot) then |log| else if LatestTouch(log, slot) == |log| then |log| + 1 else LatestTouch(log, slot)
    ensures WirePoint(rot, log + [s], slot)
         == if Lands(s, slot)
            then MapFrameToPanel(DeliveredSize(log).0, DeliveredSize(log).1, rot(PointsIn(log)), ToInt16(s.pkt.x), ToInt16(s.pkt.y))
            else WirePoint(rot, log, slot)
  {
    hide MapFrameToPanel, ToInt16, DeliveredSize, PointsIn, Lands;
    var all := log + [s];
    assert all[..|log|] == log;
    var i := LatestTouch(log, slot);
    if !Lands(s, slot) && i < |log| {
      assert all[..i] == log[..i] && all[i] == log[i];
      assert IsPoint(log[i]) by { PointLands(log[i], slot); }
    }
  }

  lemma PointLands(s: Sent, slot: int)
    requires Lands(s, slot)
    ensures IsPoint(s)
  {
  }

  // ---- every log ----

  predicate SlotIs(rot: Rotations, log: seq<Sent>, w: World, slot: nat)
    requires slot < |w.daemon.active| == |w.kernel.seen.contacts|
  {
    var holder, p := Holder(log, slot), WirePoint(rot, log, slot);
    w.daemon.active[slot] == holder.Some? && w.kernel.seen.contacts[slot] == Contact(IdOf(holder), p.0, p.1)
  }

  predicate Shaped(w: World) {
    && |w.daemon.active| == |w.kernel.seen.contacts| == MAX_SLOTS && w.kernel.seen == Seen(w.kernel.contacts, w.kernel.touching)
    && w.daemon.count == CountTrue(w.daemon.active) && w.kernel.seen.touching == (w.daemon.count > 0)
  }

  /** Daemon and kernel are where the packets that got through say. */
  predicate MatchesLog(rot: Rotations, log: seq<Sent>, w: World) {
    && Shaped(w)
    && (w.daemon.frameWidth, w.daemon.frameHeight) == DeliveredSize(log)
    && w.daemon.maps == PointsIn(log)
    && w.kernel.reports == TouchesIn(log)
    && forall slot :: 0 <= slot < MAX_SLOTS ==> SlotIs(rot, log, w, slot)
  }

  /** One more packet that gets through. */
  lemma MatchesNext(rot: Rotations, log: seq<Sent>, s: Sent, w: World)
    requires MatchesLog(rot, log, w) && s.delivered
    ensures MatchesLog(rot, log + [s], Advance(rot, w, Narrowed(s.pkt)))
  {
    hide Replay, MapFrameToPanel, ToInt16, ToUint8, CountTrue, WirePoint, Holder, DeliveredSize, PointsIn, TouchesIn;
    var d, k := w.daemon, w.kernel;
    CountNone(d.active);
    HandleReports(d, k, rot, Narrowed(s.pkt));
    match s.pkt {
      case DownPkt(slot, id, x, y) =>
        if SlotInRange(ToUint8(slot)) {
          CountUpdate(d.active, ToUint8(slot), true);
          DownKernel(d, k, rot, ToUint8(slot), ToInt16(id), ToInt16(x), ToInt16(y));
        } else { ReplayNothing(k); }
      case MovePkt(slot, x, y) =>
        if SlotInRange(ToUint8(slot)) {
          MoveKernel(d, k, rot, ToUint8(slot), ToInt16(x), ToInt16(y));
        } else { ReplayNothing(k); }
      case UpPkt(slot) =>
        if SlotInRange(ToUint8(slot)) {
          CountUpdate(d.active, ToUint8(slot), false);
          UpKernel(d, k, ToUint8(slot));
        } else { ReplayNothing(k); }
      case FramePkt(_, _) => ReplayNothing(k);
      case QuitPkt => ReplayNothing(k);
    }
    WirePush(log, s, 0);
    var w' := Advance(rot, w, Narrowed(s.pkt));
    forall slot | 0 <= slot < MAX_SLOTS ensures SlotIs(rot, log + [s], w', slot) {
      assert SlotIs(rot, log, w, slot);
      WirePush(log, s, slot);
      PointPush(rot, log, s, slot);
    }
  }

  /** Over every log whatever. */
  lemma {:induction false} EveryLogMatches(rot: Rotations, log: seq<Sent>)
    ensures MatchesLog(rot, log, WorldOf(rot, log))
    decreases |log|
  {
    hide MatchesLog, WorldOf, Advance;
    if log == [] {
      EmptyMatches(rot);
    } else {
      var past, s := log[..|log| - 1], log[|log| - 1];
      assert log == past + [s];
      EveryLogMatches(rot, past);
      WorldPush(rot, past, s);
      if s.delivered { MatchesNext(rot, past, s, WorldOf(rot, past)); } else { LostChangesNothing(rot, past, s, WorldOf(rot, past)); }
    }
  }

  lemma EmptyMatches(rot: Rotations)
    ensures MatchesLog(rot, [], WorldOf(rot, []))
  {
    hide Idle, NoContacts, WorldOf;
    StartWorld(rot);
    CountIdle();
  }

  lemma LostChangesNothing(rot: Rotations, log: seq<Sent>, s: Sent, w: World)
    requires MatchesLog(rot, log, w) && !s.delivered
    ensures MatchesLog(rot, log + [s], w)
  {
    hide CountTrue, WirePoint, Holder, DeliveredSize, PointsIn, TouchesIn;
    WirePush(log, s, 0);
    forall slot | 0 <= slot < MAX_SLOTS ensures SlotIs(rot, log + [s], w, slot) {
      assert SlotIs(rot, log, w, slot);
      WirePush(log, s, slot);
      PointPush(rot, log, s, slot);
    }
  }

  /** From the bytes, cut into reads anyhow, to the contacts. */
  lemma {:induction false} BytesMatch(rot: Rotations, log: seq<Sent>, incoming: seq<ReadEvent>)
    requires (forall i :: 0 <= i < |log| ==> !log[i].pkt.QuitPkt?) && Stream(incoming) == TouchSession.WireBytes(log)
    ensures var (daemon, events, quit) := Serve(InitialState(), rot, Stream(incoming));
      !quit && MatchesLog(rot, log, World(daemon, Replay(BootKernel(), events)))
  {
    hide Run, Serve, Replay, Stream, MatchesLog, Delivered;
    ServeIsRun(InitialState(), rot, log);
    EveryLogMatches(rot, log);
  }
}
