/** What an overtaken position does: the finger comes to rest where it was before it was put down. */
module TouchStale {
  import opened TouchWire
  import opened TouchDaemon
  import opened TouchSender
  import opened TouchQueue
  import opened TouchOrder
  import opened TouchOnWire
  import opened TouchEndToEnd

  /** Where a DOWN's own packet is in the log: behind the drain if it needed a FRAME, ahead of it otherwise. */
  function OwnAt(net: Net, past: seq<Call>, c: Call): nat {
    var l := RunCalls(net, past);
    |l.log| + if Framed(c, l.last) then 1 + |Drain(l.pending, l.last)| else 0
  }

  /** After a DOWN's own packet comes nothing, or the drain. */
  lemma {:induction false} OwnThenDrain(net: Net, past: seq<Call>, c: Call)
    requires c.action.ActionDown?
    ensures var l, items, k := RunCalls(net, past), Items(RunCalls(net, past + [c]).log), OwnAt(net, past, c);
      && Items(l.log) <= items && k < |items| && items[k] == Item(PacketOf(c), |past|)
      && items[k + 1..] == if Framed(c, l.last) then [] else Drain(l.pending, l.last)
  {
    hide RunCalls, Drain, TraceOf;
    assert (past + [c])[..|past|] == past;
    RunIsTrace(net, past);
    RunIsTrace(net, past + [c]);
    TraceNext(past, c);
  }

  lemma {:induction false} TraceNext(past: seq<Call>, c: Call)
    ensures TraceOf(past + [c]) == Step(TraceOf(past), c, |past|)
  {
    hide Step;
    assert (past + [c])[..|past|] == past;
  }

  ghost predicate GotThrough(log: seq<Sent>, it: Item) {
    exists i :: 0 <= i < |log| && log[i].delivered && Item(log[i].pkt, log[i].call) == it
  }

  /** A position is waiting for the slot. */
  predicate WaitsFor(p: PendingMove, ps: seq<PendingMove>, slot: int) { p in ps && p.valid && ToUint8(p.slot) == slot }

  /** The latest DOWN or UP that got through decides who holds the slot. */
  lemma {:induction false} HolderAt(log: seq<Sent>, k: nat, slot: int)
    requires k < |log| && Sets(log[k], slot) && forall j :: k < j < |log| ==> !Sets(log[j], slot)
    ensures Holder(log, slot) == Holding(log[k].pkt)
    decreases |log|
  {
    hide Holding, Sets;
    if k == |log| - 1 {
    } else {
      HolderAt(log[..|log| - 1], k, slot);
    }
  }

  /** What the packets after the DOWN's own are: positions that were waiting. */
  lemma {:induction false} LaterIsWaiting(net: Net, past: seq<Call>, c: Call, j: nat)
    requires c.action.ActionDown? && OwnAt(net, past, c) < j < |RunCalls(net, past + [c]).log|
    ensures var l, s := RunCalls(net, past), RunCalls(net, past + [c]).log[j];
      && !Framed(c, l.last) && !s.pkt.DownPkt? && !s.pkt.UpPkt?
      && (s.pkt.MovePkt? ==> Sends(l.pending, Item(s.pkt, s.call)))
  {
    hide RunCalls, Drain, Sends, TraceOf, QueueIsFresh;
    var l, log, k := RunCalls(net, past), RunCalls(net, past + [c]).log, OwnAt(net, past, c);
    OwnThenDrain(net, past, c);
    ItemsAt(log, j);
    var it := Items(log)[k + 1..][j - k - 1];
    assert it == Item(log[j].pkt, log[j].call) && it in Drain(l.pending, l.last);
    PendingSorted(net, past);
    DrainSends(l.pending, l.last);
    if Touches(it) { assert exists p :: p in l.pending && p.valid && it == MoveItem(p) by { SendsMeans(l.pending, it); } }
  }

  lemma SendsMeans(ps: seq<PendingMove>, it: Item)
    requires Sends(ps, it)
    ensures exists p :: p in ps && p.valid && it == MoveItem(p)
  {
  }

  lemma {:induction false} PendingSorted(net: Net, past: seq<Call>)
    ensures QueueIsFresh(View(RunCalls(net, past)), past) && Sorted(RunCalls(net, past).pending)
  {
    hide RunCalls, TraceOf, Sorted, Newest, InOrder, AllGenuine;
    RunIsTrace(net, past);
    RunKeeps(past);
  }

  /** A position that waited is sent after the DOWN, if the DOWN needed no FRAME. */
  lemma {:induction false} WaitingIsLater(net: Net, past: seq<Call>, c: Call, p: PendingMove, i: nat)
    requires c.action.ActionDown? && p in RunCalls(net, past).pending && p.valid && !Framed(c, RunCalls(net, past).last)
    requires i < |RunCalls(net, past + [c]).log|
    requires var s := RunCalls(net, past + [c]).log[i]; Item(s.pkt, s.call) == MoveItem(p)
    ensures OwnAt(net, past, c) < i
  {
    hide RunCalls, Drain, TraceOf, Sorted, Newest;
    var l, log := RunCalls(net, past), RunCalls(net, past + [c]).log;
    OwnThenDrain(net, past, c);
    ItemsAt(log, i);
    PendingSorted(net, past);
    var before := Items(l.log);
    forall j | 0 <= j < |before| ensures before[j] != MoveItem(p) { assert before[j] in before; }
  }

  /** The slot's latest point is the DOWN's own unless a position that waited gets through behind it. */
  lemma {:induction false} LatestIsOwnIff(net: Net, past: seq<Call>, c: Call)
    requires c.action.ActionDown?
    requires OwnAt(net, past, c) < |RunCalls(net, past + [c]).log| && RunCalls(net, past + [c]).log[OwnAt(net, past, c)].delivered
    ensures var l, log, k, slot := RunCalls(net, past), RunCalls(net, past + [c]).log, OwnAt(net, past, c), ToUint8(c.slot);
      var m := LatestTouch(log, slot);
      && m < |log| && log[k].pkt == PacketOf(c)
      && (m != k <==> !Framed(c, l.last) && exists p :: WaitsFor(p, l.pending, slot) && GotThrough(log, MoveItem(p)))
      && (m != k ==> exists p :: WaitsFor(p, l.pending, slot) && log[m].pkt == MovePkt(p.slot, p.x, p.y))
  {
    hide RunCalls, Drain, ToUint8, OwnAt, Framed, LatestTouch, Sends;
    var l, log, k, slot := RunCalls(net, past), RunCalls(net, past + [c]).log, OwnAt(net, past, c), ToUint8(c.slot);
    OwnThenDrain(net, past, c);
    ItemsAt(log, k);
    var m := LatestTouch(log, slot);
    assert Lands(log[k], slot);
    if m != k {
      LaterIsWaiting(net, past, c, m);
      SendsMeans(l.pending, Item(log[m].pkt, log[m].call));
      var p :| p in l.pending && p.valid && Item(log[m].pkt, log[m].call) == MoveItem(p);
      assert WaitsFor(p, l.pending, slot) && GotThrough(log, MoveItem(p));
    }
    if !Framed(c, l.last) {
      if p :| WaitsFor(p, l.pending, slot) && GotThrough(log, MoveItem(p)) {
        var i :| 0 <= i < |log| && log[i].delivered && Item(log[i].pkt, log[i].call) == MoveItem(p);
        WaitingIsLater(net, past, c, p, i);
        assert Lands(log[i], slot);
      }
    }
  }

  /**
   A DOWN that gets through, after any run, whatever waits and over any network: the finger is put down under its id, and
   rests at the DOWN's own position unless a position that waited for the slot gets through behind it; that one counts
   then.
   */
  lemma {:induction false} DownEndsStaleIff(net: Net, rot: Rotations, past: seq<Call>, c: Call)
    requires c.action.ActionDown? && SlotInRange(ToUint8(c.slot))
    requires OwnAt(net, past, c) < |RunCalls(net, past + [c]).log| && RunCalls(net, past + [c]).log[OwnAt(net, past, c)].delivered
    ensures var l, log, k, slot := RunCalls(net, past), RunCalls(net, past + [c]).log, OwnAt(net, past, c), ToUint8(c.slot);
      var m, contacts := LatestTouch(log, slot), WorldOf(rot, log).kernel.seen.contacts;
      && m < |log| && |contacts| == MAX_SLOTS && log[k].pkt == PacketOf(c)
      && (var q := PointAt(rot, log, m); contacts[slot] == Contact(ToInt16(c.slot + 1), q.0, q.1))
      && (m != k <==> !Framed(c, l.last) && exists p :: WaitsFor(p, l.pending, slot) && GotThrough(log, MoveItem(p)))
      && (m != k ==> exists p :: WaitsFor(p, l.pending, slot) && log[m].pkt == MovePkt(p.slot, p.x, p.y))
  {
    hide RunCalls, WorldOf, PointAt, Holder, Drain, ToUint8, ToInt16;
    hide OwnAt, Framed, LatestTouch, WaitsFor, GotThrough, Sends, CountTrue;
    var log, k, slot := RunCalls(net, past + [c]).log, OwnAt(net, past, c), ToUint8(c.slot);
    LatestIsOwnIff(net, past, c);
    forall j | k < j < |log| ensures !Sets(log[j], slot) { LaterIsWaiting(net, past, c, j); }
    HolderAt(log, k, slot);
    EveryLogMatches(rot, log);
    assert SlotIs(rot, log, WorldOf(rot, log), slot);
  }

  /** When nothing is lost, the finger is put down stale exactly when a position waits for its slot and no FRAME is needed. */
  lemma {:induction false} DownEndsStale(net: Net, rot: Rotations, past: seq<Call>, c: Call)
    requires c.action.ActionDown? && SlotInRange(ToUint8(c.slot))
    requires forall i :: 0 <= i < |RunCalls(net, past + [c]).log| ==> RunCalls(net, past + [c]).log[i].delivered
    ensures var l, log, slot := RunCalls(net, past), RunCalls(net, past + [c]).log, ToUint8(c.slot);
      var m, contacts := LatestTouch(log, slot), WorldOf(rot, log).kernel.seen.contacts;
      && m < |log| && |contacts| == MAX_SLOTS
      && (var q := PointAt(rot, log, m); contacts[slot] == Contact(ToInt16(c.slot + 1), q.0, q.1))
      && (if !Framed(c, l.last) && exists p :: WaitsFor(p, l.pending, slot)
          then exists p :: WaitsFor(p, l.pending, slot) && log[m].pkt == MovePkt(p.slot, p.x, p.y)
          else log[m].pkt == PacketOf(c))
  {
    hide RunCalls, WorldOf, PointAt, Drain, ToUint8, ToInt16, OwnAt, Framed, Sends, LatestTouch;
    var l, log := RunCalls(net, past), RunCalls(net, past + [c]).log;
    OwnThenDrain(net, past, c);
    DownEndsStaleIff(net, rot, past, c);
    if !Framed(c, l.last) {
      PendingSorted(net, past);
      DrainSends(l.pending, l.last);
      forall p | p in l.pending && p.valid ensures GotThrough(log, MoveItem(p)) {
        var items := Items(log);
        assert MoveItem(p) in items[OwnAt(net, past, c) + 1..];
        var i :| 0 <= i < |items| && items[i] == MoveItem(p);
        ItemsAt(log, i);
      }
    }
  }

  /** Such a run: a size made known by a finger, then a move of this one that has to wait. */
  lemma MoveWaits(net: Net, slot: int, x: int, y: int, size: Size)
    requires size.width > 0 && size.height > 0
    ensures var l := RunCalls(net, [Call(5, ActionDown, 0, 0, size, false), Call(slot, ActionMove, x, y, size, true)]);
      l.pending == [PendingMove(slot, true, x, y, size, 1)] && l.last == size
  {
    hide Attempt;
    var cs := [Call(5, ActionDown, 0, 0, size, false), Call(slot, ActionMove, x, y, size, true)];
    assert cs[..1] == [cs[0]] && cs[..1][..0] == [];
    CallLog(net, StartLink(), cs[0], 0);
    assert RunCalls(net, cs[..1]) == SendRealTouch(net, StartLink(), cs[0], 0);
  }
}
