/**
 The end-to-end theorems of the touch path: what the kernel's contacts are after any run of calls.  Who holds a slot is
 said from the calls alone, for every run, queued or not.  The point too is, for calls of which none is queued:
 `hasPendingWrites` always answers no in the present session.
 */
module TouchEndToEnd {
  import opened Common
  import opened TouchWire
  import opened TouchPanel
  import opened TouchDaemon
  import opened TouchServer
  import opened TouchSender
  import TouchQueue
  import TouchOrder
  import TouchFrameSize
  import opened TouchOnWire

  // ---- what a run of calls should do ----

  predicate On(c: Call, slot: int) { ToUint8(c.slot) == slot }

  /** The tracking id slot `slot` should have: that of its latest DOWN, or -1 if an UP came later or no DOWN at all. */
  function HeldId(cs: seq<Call>, slot: int): int
    decreases |cs|
  {
    if cs == [] then -1
    else
      var past, c := cs[..|cs| - 1], cs[|cs| - 1];
      if On(c, slot) && c.action.ActionDown? then ToInt16(c.slot + 1)
      else if On(c, slot) && c.action.ActionUp? then -1
      else HeldId(past, slot)
  }

  predicate Held(cs: seq<Call>, slot: int)
    decreases |cs|
  {
    if cs == [] then false
    else
      var past, c := cs[..|cs| - 1], cs[|cs| - 1];
      if On(c, slot) && !c.action.ActionMove? then c.action.ActionDown? else Held(past, slot)
  }

  /** The slot's latest DOWN or UP is a DOWN. */
  ghost predicate LatestIsDown(cs: seq<Call>, slot: int) {
    exists k :: 0 <= k < |cs| && On(cs[k], slot) && cs[k].action.ActionDown?
      && forall j :: k < j < |cs| && On(cs[j], slot) ==> cs[j].action.ActionMove?
  }

  lemma {:induction false} HeldIsLatest(cs: seq<Call>, slot: int)
    ensures Held(cs, slot) <==> LatestIsDown(cs, slot)
    ensures !Held(cs, slot) ==> HeldId(cs, slot) == -1
    decreases |cs|
  {
    if cs == [] {
    } else {
      var n := |cs| - 1;
      var past, c := cs[..n], cs[n];
      HeldIsLatest(past, slot);
      assert forall k :: 0 <= k < n ==> past[k] == cs[k];
      if On(c, slot) && !c.action.ActionMove? {
        if c.action.ActionDown? { assert On(cs[n], slot); }
      } else if LatestIsDown(past, slot) {
        var k :| 0 <= k < n && On(past[k], slot) && past[k].action.ActionDown?
          && forall j :: k < j < n && On(past[j], slot) ==> past[j].action.ActionMove?;
        assert On(cs[k], slot);
      }
    }
  }

  /** The latest usable frame size passed so far. */
  function Passed(cs: seq<Call>): Size
    decreases |cs|
  {
    if cs == [] then Size(-1, -1)
    else
      var c := cs[|cs| - 1];
      if !c.action.ActionUp? && c.size.width > 0 && c.size.height > 0 then c.size else Passed(cs[..|cs| - 1])
  }

  function OnWire(size: Size): (int, int) {
    if size == Size(-1, -1) then (0, 0) else (ToInt16(size.width), ToInt16(size.height))
  }

  /** The last call's own packet got through. */
  predicate Through(net: Net, cs: seq<Call>) {
    var log := RunCalls(net, cs).log;
    log != [] && log[|log| - 1].delivered
  }

  /** The last call puts a point on the panel. */
  predicate Points(net: Net, cs: seq<Call>)
    requires cs != []
  {
    var c := cs[|cs| - 1];
    !c.action.ActionUp? && SlotInRange(ToUint8(c.slot)) && Through(net, cs)
  }

  /** How many points came before: the index of the next one into the rotations. */
  function PointCount(net: Net, cs: seq<Call>): nat
    decreases |cs|
  {
    if cs == [] then 0 else PointCount(net, cs[..|cs| - 1]) + if Points(net, cs) then 1 else 0
  }

  /** Where the last call's point belongs: mapped with the frame size the calls passed. */
  function PointOf(net: Net, rot: Rotations, cs: seq<Call>): (int, int)
    requires cs != []
  {
    var c, size := cs[|cs| - 1], OnWire(Passed(cs));
    MapFrameToPanel(size.0, size.1, rot(PointCount(net, cs[..|cs| - 1])), ToInt16(c.x), ToInt16(c.y))
  }

  /** The slot's latest point. */
  function LatestPoint(net: Net, rot: Rotations, cs: seq<Call>, slot: int): (int, int)
    decreases |cs|
  {
    if cs == [] then (0, 0)
    else if On(cs[|cs| - 1], slot) && Points(net, cs) then PointOf(net, rot, cs)
    else LatestPoint(net, rot, cs[..|cs| - 1], slot)
  }

  // ---- the log of one call ----

  predicate Reliable(log: seq<Sent>) { forall i :: 0 <= i < |log| ==> log[i].pkt.MovePkt? || log[i].delivered }

  predicate Unqueued(cs: seq<Call>) { forall k :: 0 <= k < |cs| ==> !cs[k].busy }

  function FrameLog(c: Call, last: Size, n: nat, delivered: bool): seq<Sent> {
    if TouchQueue.Framed(c, last) then [Sent(FramePkt(c.size.width, c.size.height), n, delivered)] else []
  }

  /** With nothing waiting, a call sends its frame size if it must, then its own packet. */
  lemma CallLog(net: Net, l: Link, c: Call, n: nat)
    requires l.pending == [] && !c.busy
    ensures var r := SendRealTouch(net, l, c, n);
      && r.pending == [] && r.last == (if TouchQueue.Framed(c, l.last) then c.size else l.last)
      && r.log != []
      && r.log == l.log + FrameLog(c, l.last, n, Attempt(net, l.tries, 0).0)
                  + [Sent(TouchQueue.PacketOf(c), n, r.log[|r.log| - 1].delivered)]
  {
    hide Attempt, SendPacket, SendPacketReliable;
    assert l.(pending := Remove(l.pending, c.slot)) == l;
    if TouchQueue.Framed(c, l.last) {
      EmptyFlush(net, l, FramePkt(c.size.width, c.size.height), n);
      EmptyFlush(net, EnsureFrameSize(net, l, c.size, n), TouchQueue.PacketOf(c), n);
    } else {
      EmptyFlush(net, l, TouchQueue.PacketOf(c), n);
      assert !c.action.ActionUp? ==> EnsureFrameSize(net, l, c.size, n) == l;
      assert l.log + [] == l.log;
    }
  }

  lemma {:induction false} EmptyFlush(net: Net, l: Link, pkt: Packet, n: nat)
    requires l.pending == []
    ensures var r := SendPacket(net, l, pkt, n);
      r.log == l.log + [Sent(pkt, n, net(l.tries) == Accepted)] && r.pending == [] && r.last == l.last
    ensures var r := SendPacketReliable(net, l, pkt, n);
      r.log == l.log + [Sent(pkt, n, Attempt(net, l.tries, 0).0)] && r.pending == [] && r.last == l.last
  {
    hide Attempt;
  }

  // ---- which finger holds a slot, over every run ----

  predicate SetsFinger(p: Packet, slot: int) { (p.DownPkt? || p.UpPkt?) && ToUint8(p.slot) == slot }

  /** Every DOWN and UP gets through; MOVEs and frame sizes may be lost. */
  predicate FingersArrive(log: seq<Sent>) {
    forall i :: 0 <= i < |log| && (log[i].pkt.DownPkt? || log[i].pkt.UpPkt?) ==> log[i].delivered
  }

  /** The holder after the packets tried. */
  function TriedHolder(items: seq<TouchQueue.Item>, slot: int): Option<int>
    decreases |items|
  {
    if items == [] then None
    else
      var p := items[|items| - 1].pkt;
      if SetsFinger(p, slot) then Holding(p) else TriedHolder(items[..|items| - 1], slot)
  }

  lemma {:induction false} HolderPush(items: seq<TouchQueue.Item>, it: TouchQueue.Item, slot: int)
    ensures TriedHolder(items + [it], slot) == if SetsFinger(it.pkt, slot) then Holding(it.pkt) else TriedHolder(items, slot)
  {
    assert (items + [it])[..|items|] == items;
  }

  lemma {:induction false} HolderIsTried(log: seq<Sent>, slot: int)
    requires FingersArrive(log)
    ensures Holder(log, slot) == TriedHolder(TouchQueue.Items(log), slot)
    decreases |log|
  {
    hide Holding;
    if log == [] {
    } else {
      var past, s := log[..|log| - 1], log[|log| - 1];
      assert log == past + [s];
      HolderIsTried(past, slot);
      TouchQueue.ItemsAppend(past, [s]);
      TouchQueue.ItemsOne(s);
      HolderPush(TouchQueue.Items(past), TouchQueue.Item(s.pkt, s.call), slot);
    }
  }

  /** Moves and frame sizes change no finger. */
  lemma {:induction false} HolderStays(items: seq<TouchQueue.Item>, more: seq<TouchQueue.Item>, slot: int)
    requires forall it :: it in more ==> !SetsFinger(it.pkt, slot)
    ensures TriedHolder(items + more, slot) == TriedHolder(items, slot)
    decreases |more|
  {
    if more == [] {
      assert items + more == items;
    } else {
      var front, it := more[..|more| - 1], more[|more| - 1];
      HolderStays(items, front, slot);
      HolderPush(items + front, it, slot);
      assert items + more == items + front + [it];
    }
  }

  lemma {:induction false} DrainSetsNothing(ps: seq<PendingMove>, last: Size, slot: int)
    ensures forall it :: it in TouchQueue.Drain(ps, last) ==> !SetsFinger(it.pkt, slot)
  {
    if ps == [] {
    } else {
      DrainSetsNothing(ps[1..], last, slot);
    }
  }

  /** Whatever waits and whatever is flushed, a call changes its own finger and no other. */
  lemma {:induction false} StepHolds(t: TouchQueue.Trace, c: Call, n: nat, slot: int)
    ensures TriedHolder(TouchQueue.Step(t, c, n).items, slot)
         == if On(c, slot) && !c.action.ActionMove? then Holding(TouchQueue.PacketOf(c)) else TriedHolder(t.items, slot)
  {
    hide TouchQueue.Drain, Holding, ToUint8;
    if TouchQueue.Queued(c) {
    } else {
      var drained := TouchQueue.Drain(TouchQueue.Queue(c, t.pending), t.last);
      var own, frame := TouchQueue.Item(TouchQueue.PacketOf(c), n), TouchQueue.FrameItem(c.size, n);
      DrainSetsNothing(TouchQueue.Queue(c, t.pending), t.last, slot);
      if TouchQueue.Framed(c, t.last) {
        HolderStays(t.items, [frame] + drained, slot);
        HolderPush(t.items + ([frame] + drained), own, slot);
        assert t.items + ([frame] + drained + [own]) == t.items + ([frame] + drained) + [own];
      } else {
        HolderPush(t.items, own, slot);
        HolderStays(t.items + [own], drained, slot);
        assert t.items + ([own] + drained) == t.items + [own] + drained;
      }
    }
  }

  /** Over every run, whatever is queued: the slot is held as the calls say. */
  lemma {:induction false} RunHolds(cs: seq<Call>, slot: int)
    ensures var holder := TriedHolder(TouchQueue.TraceOf(cs).items, slot); holder.Some? == Held(cs, slot) && IdOf(holder) == HeldId(cs, slot)
    decreases |cs|
  {
    hide TouchQueue.Step;
    if cs == [] {
    } else {
      RunHolds(cs[..|cs| - 1], slot);
      StepHolds(TouchQueue.TraceOf(cs[..|cs| - 1]), cs[|cs| - 1], |cs| - 1, slot);
    }
  }

  lemma {:induction false} ItemsAt(log: seq<Sent>, i: nat)
    requires i < |log|
    ensures TouchQueue.Items(log)[i] == TouchQueue.Item(log[i].pkt, log[i].call)
  {
    if i == 0 {
    } else {
      ItemsAt(log[1..], i - 1);
    }
  }

  lemma {:induction false} NoQuit(net: Net, cs: seq<Call>)
    ensures forall i :: 0 <= i < |RunCalls(net, cs).log| ==> !RunCalls(net, cs).log[i].pkt.QuitPkt?
  {
    hide RunCalls, TouchQueue.TraceOf, TouchOrder.QueueIsFresh, TouchOrder.InOrder;
    TouchQueue.RunIsTrace(net, cs);
    TouchOrder.RunKeeps(cs);
    var log := RunCalls(net, cs).log;
    forall i | 0 <= i < |log| ensures !log[i].pkt.QuitPkt? {
      ItemsAt(log, i);
      assert TouchQueue.Items(log)[i] in TouchQueue.Items(log);
    }
  }

  /**
   Take any run of calls over a running session, queued or not, any network that loses no DOWN and no UP, and any way
   `incoming` of cutting the bytes into reads.  After the daemon has read them all, every slot of daemon and kernel is
   touched exactly when its latest DOWN or UP was a DOWN, under the tracking id of that DOWN, at the slot's latest point
   that got through in the order of the wire; and BTN_TOUCH is down exactly when some slot is touched.
   */
  lemma {:induction false} FingersLand(net: Net, rot: Rotations, cs: seq<Call>, incoming: seq<ReadEvent>)
    requires FingersArrive(RunCalls(net, cs).log)
    requires Stream(incoming) == TouchSession.WireBytes(RunCalls(net, cs).log)
    ensures var (daemon, events, quit) := Serve(InitialState(), rot, Stream(incoming));
      var kernel := Replay(BootKernel(), events);
      && !quit && |daemon.active| == |kernel.seen.contacts| == 10
      && (forall slot :: 0 <= slot < 10 ==>
            var p := WirePoint(rot, RunCalls(net, cs).log, slot);
            && daemon.active[slot] == LatestIsDown(cs, slot)
            && kernel.seen.contacts[slot] == Contact(HeldId(cs, slot), p.0, p.1))
      && (kernel.seen.touching <==> exists slot :: 0 <= slot < 10 && LatestIsDown(cs, slot))
  {
    hide RunCalls, Run, Serve, Replay, WirePoint, HeldId, LatestIsDown;
    hide Held, Stream, Holder, FingersArrive, DeliveredSize, PointsIn, TouchQueue.TraceOf;
    var log := RunCalls(net, cs).log;
    NoQuit(net, cs);
    BytesMatch(rot, log, incoming);
    var (daemon, events, _) := Serve(InitialState(), rot, Stream(incoming));
    var w := World(daemon, Replay(BootKernel(), events));
    CountNone(w.daemon.active);
    forall slot | 0 <= slot < MAX_SLOTS
      ensures SlotIs(rot, log, w, slot) && Holder(log, slot).Some? == LatestIsDown(cs, slot) && IdOf(Holder(log, slot)) == HeldId(cs, slot)
    {
      TouchQueue.RunIsTrace(net, cs);
      HolderIsTried(log, slot);
      RunHolds(cs, slot);
      HeldIsLatest(cs, slot);
    }
    assert forall slot :: 0 <= slot < MAX_SLOTS ==> w.daemon.active[slot] == LatestIsDown(cs, slot);
  }

  // ---- the points, said from the calls ----

  /** Sizes and points of the log are those of the calls. */
  predicate PointsAgree(net: Net, rot: Rotations, cs: seq<Call>, log: seq<Sent>) {
    && DeliveredSize(log) == OnWire(Passed(cs))
    && PointsIn(log) == PointCount(net, cs)
    && forall slot :: 0 <= slot < MAX_SLOTS ==> WirePoint(rot, log, slot) == LatestPoint(net, rot, cs, slot)
  }

  lemma PrefixReliable(a: seq<Sent>, b: seq<Sent>)
    requires Reliable(a + b)
    ensures Reliable(a) && Reliable(b)
  {
    assert forall i :: 0 <= i < |a| ==> (a + b)[i] == a[i];
    assert forall i :: 0 <= i < |b| ==> (a + b)[|a| + i] == b[i];
  }

  lemma {:induction false} ReliablePast(net: Net, past: seq<Call>, c: Call)
    requires Unqueued(past + [c]) && Reliable(RunCalls(net, past + [c]).log)
    ensures Unqueued(past) && Reliable(RunCalls(net, past).log)
  {
    hide SendRealTouch, Attempt;
    assert (past + [c])[..|past|] == past && (past + [c])[|past|] == c;
    assert forall k :: 0 <= k < |past| ==> past[k] == (past + [c])[k];
    var l := RunCalls(net, past);
    UnqueuedEmpty(net, past);
    CallLog(net, l, c, |past|);
    var r := SendRealTouch(net, l, c, |past|);
    var frames := FrameLog(c, l.last, |past|, Attempt(net, l.tries, 0).0);
    var own := Sent(TouchQueue.PacketOf(c), |past|, r.log[|r.log| - 1].delivered);
    PrefixReliable(l.log + frames, [own]);
    PrefixReliable(l.log, frames);
  }

  lemma {:induction false} UnqueuedEmpty(net: Net, cs: seq<Call>)
    requires Unqueued(cs)
    ensures RunCalls(net, cs).pending == []
    decreases |cs|
  {
    hide SendRealTouch, Attempt;
    if cs == [] {
    } else {
      UnqueuedEmpty(net, cs[..|cs| - 1]);
      CallLog(net, RunCalls(net, cs[..|cs| - 1]), cs[|cs| - 1], |cs| - 1);
    }
  }

  lemma {:induction false} CallPoints(net: Net, rot: Rotations, past: seq<Call>, c: Call)
    requires var l := RunCalls(net, past); l.pending == [] && l.last == Passed(past) && PointsAgree(net, rot, past, l.log)
    requires !c.busy && Reliable(RunCalls(net, past + [c]).log)
    ensures var l := RunCalls(net, past + [c]);
      l.pending == [] && l.last == Passed(past + [c]) && PointsAgree(net, rot, past + [c], l.log)
  {
    hide SendRealTouch, Attempt, DeliveredSize, PointsIn, WirePoint, LatestTouch, MapFrameToPanel, ToInt16, ToUint8;
    var cs := past + [c];
    assert cs[..|past|] == past;
    var l := RunCalls(net, past);
    var r := SendRealTouch(net, l, c, |past|);
    CallLog(net, l, c, |past|);
    var own := Sent(TouchQueue.PacketOf(c), |past|, r.log[|r.log| - 1].delivered);
    var frames := FrameLog(c, l.last, |past|, Attempt(net, l.tries, 0).0);
    PrefixReliable(l.log + frames, [own]);
    PrefixReliable(l.log, frames);
    assert own.delivered == Through(net, cs);
    assert TouchQueue.Framed(c, l.last) ==> frames[0].delivered;
    assert Passed(cs) == if TouchQueue.Framed(c, l.last) then c.size else Passed(past);
    FramesPush(rot, l.log, frames);
    WirePush(l.log + frames, own, 0);
    forall slot | 0 <= slot < MAX_SLOTS ensures WirePoint(rot, r.log, slot) == LatestPoint(net, rot, cs, slot) {
      PointPush(rot, l.log + frames, own, slot);
    }
  }

  /** At most one FRAME, in front of the packet of a call. */
  lemma {:induction false} FramesPush(rot: Rotations, log: seq<Sent>, frames: seq<Sent>)
    requires |frames| <= 1 && forall i :: 0 <= i < |frames| ==> frames[i].pkt.FramePkt? && frames[i].delivered
    ensures DeliveredSize(log + frames)
         == if frames == [] then DeliveredSize(log) else (ToInt16(frames[0].pkt.width), ToInt16(frames[0].pkt.height))
    ensures PointsIn(log + frames) == PointsIn(log)
    ensures forall slot :: WirePoint(rot, log + frames, slot) == WirePoint(rot, log, slot)
  {
    hide DeliveredSize, PointsIn, WirePoint, LatestTouch, ToInt16;
    if frames == [] {
      assert log + frames == log;
    } else {
      assert frames == [frames[0]];
      WirePush(log, frames[0], 0);
      forall slot ensures WirePoint(rot, log + frames, slot) == WirePoint(rot, log, slot) { PointPush(rot, log, frames[0], slot); }
    }
  }

  lemma {:induction false} RunPoints(net: Net, rot: Rotations, cs: seq<Call>)
    requires Unqueued(cs) && Reliable(RunCalls(net, cs).log)
    ensures var l := RunCalls(net, cs); l.pending == [] && l.last == Passed(cs) && PointsAgree(net, rot, cs, l.log)
    decreases |cs|
  {
    hide SendRealTouch, PointsAgree, Passed;
    if cs == [] {
      NoPoints(net, rot);
    } else {
      var past, c := cs[..|cs| - 1], cs[|cs| - 1];
      assert cs == past + [c];
      ReliablePast(net, past, c);
      RunPoints(net, rot, past);
      CallPoints(net, rot, past, c);
    }
  }

  lemma NoPoints(net: Net, rot: Rotations)
    ensures RunCalls(net, []).last == Passed([]) && PointsAgree(net, rot, [], RunCalls(net, []).log)
  {
  }

  predicate SlotTracks(net: Net, rot: Rotations, cs: seq<Call>, w: World, slot: nat)
    requires slot < |w.daemon.active| == |w.kernel.seen.contacts|
  {
    var p := LatestPoint(net, rot, cs, slot);
    w.daemon.active[slot] == Held(cs, slot) && w.kernel.seen.contacts[slot] == Contact(HeldId(cs, slot), p.0, p.1)
  }

  /** Daemon and kernel are where the calls say. */
  predicate Tracks(net: Net, rot: Rotations, cs: seq<Call>, w: World) {
    && Shaped(w)
    && (w.daemon.frameWidth, w.daemon.frameHeight) == OnWire(Passed(cs))
    && w.daemon.maps == PointCount(net, cs)
    && forall slot :: 0 <= slot < MAX_SLOTS ==> SlotTracks(net, rot, cs, w, slot)
  }

  lemma {:induction false} RunTracks(net: Net, rot: Rotations, cs: seq<Call>)
    requires Unqueued(cs) && Reliable(RunCalls(net, cs).log)
    ensures var l := RunCalls(net, cs); l.pending == [] && l.last == Passed(cs) && Tracks(net, rot, cs, WorldOf(rot, l.log))
  {
    hide RunCalls, Passed, WorldOf, CountTrue, WirePoint, LatestPoint;
    hide Held, HeldId, Holder, TouchQueue.TraceOf, PointCount, OnWire;
    var log := RunCalls(net, cs).log;
    RunPoints(net, rot, cs);
    EveryLogMatches(rot, log);
    TouchQueue.RunIsTrace(net, cs);
    var w := WorldOf(rot, log);
    forall slot | 0 <= slot < MAX_SLOTS ensures SlotTracks(net, rot, cs, w, slot) {
      assert SlotIs(rot, log, w, slot);
      HolderIsTried(log, slot);
      RunHolds(cs, slot);
    }
  }

  // ---- the theorem ----

  /**
   The same for calls of which none is queued, as `hasPendingWrites` answers now, over a network that loses nothing but
   MOVE packets: the point too is said from the calls.  It is the latest one that got through, mapped with the frame size
   the calls passed.
   */
  lemma {:induction false} TouchesArrive(net: Net, rot: Rotations, cs: seq<Call>, incoming: seq<ReadEvent>)
    requires Unqueued(cs) && Reliable(RunCalls(net, cs).log)
    requires Stream(incoming) == TouchSession.WireBytes(RunCalls(net, cs).log)
    ensures var (daemon, events, quit) := Serve(InitialState(), rot, Stream(incoming));
      var kernel := Replay(BootKernel(), events);
      && !quit && |daemon.active| == |kernel.seen.contacts| == 10
      && (forall slot :: 0 <= slot < 10 ==>
            var p := LatestPoint(net, rot, cs, slot);
            && daemon.active[slot] == LatestIsDown(cs, slot)
            && kernel.seen.contacts[slot] == Contact(HeldId(cs, slot), p.0, p.1))
      && (kernel.seen.touching <==> exists slot :: 0 <= slot < 10 && LatestIsDown(cs, slot))
  {
    hide RunCalls, Run, Serve, Replay, LatestPoint, HeldId;
    hide LatestIsDown, Held, Stream, WirePoint, DeliveredSize, PointsIn, PointCount;
    RunPoints(net, rot, cs);
    FingersLand(net, rot, cs, incoming);
  }

  /**
   The other side of the reliability assumption: the size is recorded even when its packet was given up, so over any
   run of one constant size the FRAME goes out once, and if that one is lost the daemon never learns the size.
   */
  lemma {:induction false} FrameIsSentOnce(net: Net, cs: seq<Call>, size: Size)
    requires Unqueued(cs) && cs != [] && !cs[0].action.ActionUp?
    requires size.width > 0 && size.height > 0 && forall k :: 0 <= k < |cs| ==> cs[k].size == size
    ensures var l := RunCalls(net, cs);
      && l.last == size && |l.log| > 1
      && l.log[0] == Sent(FramePkt(size.width, size.height), 0, Attempt(net, 0, 0).0)
      && forall i :: 0 < i < |l.log| ==> !l.log[i].pkt.FramePkt?
    decreases |cs|
  {
    hide SendRealTouch, Attempt;
    var past, c := cs[..|cs| - 1], cs[|cs| - 1];
    if past == [] {
    } else {
      FrameIsSentOnce(net, past, size);
    }
    UnqueuedEmpty(net, past);
    CallLog(net, RunCalls(net, past), c, |cs| - 1);
  }

  // ---- the two caches of the frame size, on any network ----

  /** Position of the latest FRAME tried, or the length of the log if there is none. */
  function LatestFrame(log: seq<Sent>): (i: nat)
    ensures i <= |log| && (i < |log| ==> log[i].pkt.FramePkt?)
    decreases |log|
  {
    if log == [] then 0
    else if log[|log| - 1].pkt.FramePkt? then |log| - 1
    else
      var i := LatestFrame(log[..|log| - 1]);
      if i == |log| - 1 then |log| else i
  }

  lemma {:induction false} DeliveredByLatest(log: seq<Sent>)
    ensures var i := LatestFrame(log);
      DeliveredSize(log) ==
      if i == |log| then (0, 0)
      else if log[i].delivered then (ToInt16(log[i].pkt.width), ToInt16(log[i].pkt.height))
      else DeliveredSize(log[..i])
    decreases |log|
  {
    if log == [] {
    } else {
      var past := log[..|log| - 1];
      DeliveredByLatest(past);
      assert forall k :: 0 <= k <= |past| ==> past[..k] == log[..k];
    }
  }

  /** The session records the size of the latest FRAME it tried. */
  lemma {:induction false} RecordedIsLatest(net: Net, cs: seq<Call>)
    requires Unqueued(cs)
    ensures var l := RunCalls(net, cs); var i := LatestFrame(l.log);
      l.last == if i == |l.log| then StartLink().last else Size(l.log[i].pkt.width, l.log[i].pkt.height)
    decreases |cs|
  {
    hide SendRealTouch, Attempt;
    if cs == [] {
    } else {
      var n := |cs| - 1;
      var past, c := cs[..n], cs[n];
      RecordedIsLatest(net, past);
      UnqueuedEmpty(net, past);
      var l := RunCalls(net, past);
      CallLog(net, l, c, n);
      var r := SendRealTouch(net, l, c, n);
      var own := Sent(TouchQueue.PacketOf(c), n, r.log[|r.log| - 1].delivered);
      var framed := l.log + FrameLog(c, l.last, n, Attempt(net, l.tries, 0).0);
      LatestFramePush(framed, own);
      if TouchQueue.Framed(c, l.last) {
        LatestFramePush(l.log, FrameLog(c, l.last, n, Attempt(net, l.tries, 0).0)[0]);
      } else {
        assert framed == l.log;
      }
    }
  }

  lemma {:induction false} LatestFramePush(log: seq<Sent>, s: Sent)
    ensures LatestFrame(log + [s]) ==
      if s.pkt.FramePkt? then |log| else if LatestFrame(log) == |log| then |log| + 1 else LatestFrame(log)
  {
    assert (log + [s])[..|log|] == log;
  }

  /** The frame size in the daemon after a run. */
  function DaemonSize(net: Net, rot: Rotations, cs: seq<Call>): (int, int) {
    var d := WorldOf(rot, RunCalls(net, cs).log).daemon;
    (d.frameWidth, d.frameHeight)
  }

  /** The daemon scales with the size that the session has on record. */
  predicate SizeHeld(net: Net, rot: Rotations, cs: seq<Call>) { DaemonSize(net, rot, cs) == OnWire(RunCalls(net, cs).last) }

  /** A FRAME only carries positive sizes, so it is never taken for the size of a new session. */
  predicate FramesPositive(items: seq<TouchQueue.Item>) {
    forall it :: it in items && it.pkt.FramePkt? ==> it.pkt.width > 0 && it.pkt.height > 0
  }

  lemma {:induction false} DrainFramesPositive(ps: seq<PendingMove>, last: Size)
    ensures FramesPositive(TouchQueue.Drain(ps, last))
  {
    if ps == [] {
    } else {
      DrainFramesPositive(ps[1..], last);
    }
  }

  lemma {:induction false} RunFramesPositive(cs: seq<Call>)
    ensures FramesPositive(TouchQueue.TraceOf(cs).items)
    decreases |cs|
  {
    hide TouchQueue.Drain;
    if cs == [] {
    } else {
      var past, c := TouchQueue.TraceOf(cs[..|cs| - 1]), cs[|cs| - 1];
      RunFramesPositive(cs[..|cs| - 1]);
      DrainFramesPositive(TouchQueue.Queue(c, past.pending), past.last);
    }
  }

  lemma {:induction false} FrameSizesPositive(net: Net, cs: seq<Call>, i: nat)
    requires i < |RunCalls(net, cs).log| && RunCalls(net, cs).log[i].pkt.FramePkt?
    ensures RunCalls(net, cs).log[i].pkt.width > 0
  {
    hide RunCalls, TouchQueue.TraceOf;
    TouchQueue.RunIsTrace(net, cs);
    RunFramesPositive(cs);
    var log := RunCalls(net, cs).log;
    ItemsAt(log, i);
    assert TouchQueue.Items(log)[i] in TouchQueue.Items(log);
  }

  predicate FrameSizesArrive(log: seq<Sent>) { forall i :: 0 <= i < |log| && log[i].pkt.FramePkt? ==> log[i].delivered }

  lemma {:induction false} DeliveredIsTried(log: seq<Sent>)
    requires FrameSizesArrive(log) && FramesPositive(TouchQueue.Items(log))
    ensures DeliveredSize(log) == OnWire(TouchFrameSize.WireSize(TouchQueue.Items(log), TouchFrameSize.START))
    decreases |log|
  {
    hide ToInt16;
    if log == [] {
    } else {
      var past, s := log[..|log| - 1], log[|log| - 1];
      assert log == past + [s];
      TouchQueue.ItemsAppend(past, [s]);
      TouchQueue.ItemsOne(s);
      var items, it := TouchQueue.Items(past), TouchQueue.Item(s.pkt, s.call);
      assert forall x :: x in items ==> x in items + [it];
      assert it in items + [it] && (items + [it])[..|items|] == items;
      DeliveredIsTried(past);
    }
  }

  /**
   When every FRAME gets through, any run, queued or not: the daemon has the recorded size if and only if the last size
   that the calls had announced looks on the wire like the one they had recorded.
   */
  lemma {:induction false} QueuedSizeHeldIff(net: Net, rot: Rotations, cs: seq<Call>)
    requires FrameSizesArrive(RunCalls(net, cs).log)
    ensures var t := TouchQueue.TraceOf(cs);
      SizeHeld(net, rot, cs) <==> OnWire(TouchFrameSize.WireSize(t.items, TouchFrameSize.START)) == OnWire(t.last)
  {
    hide RunCalls, WorldOf, TouchQueue.TraceOf, FramesPositive;
    hide FrameSizesArrive, OnWire, DeliveredSize, TouchFrameSize.WireSize;
    TouchQueue.RunIsTrace(net, cs);
    RunFramesPositive(cs);
    EveryLogMatches(rot, RunCalls(net, cs).log);
    DeliveredIsTried(RunCalls(net, cs).log);
  }

  /**
   After any run on any network the daemon has the recorded size if and only if no FRAME was needed yet, or the latest
   FRAME got through, or the daemon already had a size that looks the same on the wire.
   */
  lemma {:induction false} SizeHeldIff(net: Net, rot: Rotations, cs: seq<Call>)
    requires Unqueued(cs)
    ensures var log := RunCalls(net, cs).log; var i := LatestFrame(log);
      SizeHeld(net, rot, cs)
      <==> i == |log| || log[i].delivered || DeliveredSize(log[..i]) == (ToInt16(log[i].pkt.width), ToInt16(log[i].pkt.height))
  {
    hide RunCalls, WorldOf, DeliveredSize, LatestFrame, ToInt16;
    var log := RunCalls(net, cs).log;
    RecordedIsLatest(net, cs);
    EveryLogMatches(rot, log);
    DeliveredByLatest(log);
    var i := LatestFrame(log);
    if i < |log| { FrameSizesPositive(net, cs, i); }
  }

  /**
   Over a run of one size: the daemon has it if and only if one of the first 21 attempts, after nothing but full
   buffers, was accepted.
   */
  lemma SizeLearnedIff(net: Net, rot: Rotations, cs: seq<Call>, size: Size)
    requires Unqueued(cs) && cs != [] && !cs[0].action.ActionUp?
    requires 0 < size.width < 0x8000 && 0 < size.height < 0x8000 && forall k :: 0 <= k < |cs| ==> cs[k].size == size
    ensures DaemonSize(net, rot, cs) == (size.width, size.height) <==> exists n: nat :: n <= MAX_RETRIES && GetsThroughAt(net, 0, n)
  {
    hide RunCalls, WorldOf, Attempt, GetsThroughAt;
    var log := RunCalls(net, cs).log;
    FrameIsSentOnce(net, cs, size);
    AttemptDelivers(net, 0, 0);
    EveryLogMatches(rot, log);
    DeliveredByLatest(log);
    OnlyFirstFrame(log);
    I16RoundTrip(size.width);
    I16RoundTrip(size.height);
    assert log[..0] == [];
  }

  lemma {:induction false} OnlyFirstFrame(log: seq<Sent>)
    requires log != [] && log[0].pkt.FramePkt? && forall i :: 0 < i < |log| ==> !log[i].pkt.FramePkt?
    ensures LatestFrame(log) == 0
    decreases |log|
  {
    if |log| == 1 {
    } else {
      OnlyFirstFrame(log[..|log| - 1]);
    }
  }

  /** A network whose buffer is full for the first `n` attempts and then takes everything. */
  function FullFor(n: nat): Net { (tries: nat) => if tries < n then WouldBlock else Accepted }

  /**
   An instance: when the buffer is full for the first 21 attempts and never again, the daemon never learns the size,
   however long the run; one attempt fewer and it does.
   */
  lemma SizeNeverLearned(rot: Rotations, cs: seq<Call>, size: Size)
    requires Unqueued(cs) && cs != [] && !cs[0].action.ActionUp?
    requires 0 < size.width < 0x8000 && 0 < size.height < 0x8000 && forall k :: 0 <= k < |cs| ==> cs[k].size == size
    ensures !SizeHeld(FullFor(21), rot, cs) && SizeHeld(FullFor(20), rot, cs)
  {
    hide RunCalls, WorldOf;
    FrameIsSentOnce(FullFor(21), cs, size);
    FrameIsSentOnce(FullFor(20), cs, size);
    SizeLearnedIff(FullFor(21), rot, cs, size);
    SizeLearnedIff(FullFor(20), rot, cs, size);
    assert GetsThroughAt(FullFor(20), 0, 20);
    forall n: nat | n <= MAX_RETRIES ensures !GetsThroughAt(FullFor(21), 0, n) { assert FullFor(21)(n) == WouldBlock; }
    I16RoundTrip(size.width);
    I16RoundTrip(size.height);
  }
}
