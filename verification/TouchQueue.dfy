/**
 What the re-entrant flush really does.  Because every send ends with a synchronous flush, one flush drains the whole
 queue; the functions below say in which order, and a whole run becomes a function of its calls.
 */
module TouchQueue {
  import opened TouchWire
  import opened TouchSender

  datatype Item = Item(pkt: Packet, call: nat)

  /** The packets handed to the socket, delivered or not. */
  function Items(log: seq<Sent>): (items: seq<Item>)
    ensures |items| == |log|
  {
    if log == [] then [] else [Item(log[0].pkt, log[0].call)] + Items(log[1..])
  }

  lemma {:induction false} ItemsAppend(a: seq<Sent>, b: seq<Sent>)
    ensures Items(a + b) == Items(a) + Items(b)
  {
    if a == [] {
      assert a + b == b;
    } else {
      assert (a + b)[0] == a[0] && (a + b)[1..] == a[1..] + b;
      ItemsAppend(a[1..], b);
    }
  }

  lemma ItemsOne(s: Sent)
    ensures Items([s]) == [Item(s.pkt, s.call)]
  {
  }

  function MoveItem(p: PendingMove): Item { Item(MovePkt(p.slot, p.x, p.y), p.call) }
  function FrameItem(size: Size, call: nat): Item { Item(FramePkt(size.width, size.height), call) }

  /** The packets of a full drain: frame packets on the way down, the moves that needed them on the way back. */
  function Drain(ps: seq<PendingMove>, last: Size): seq<Item> {
    if ps == [] then []
    else if !ps[0].valid then Drain(ps[1..], last)
    else if NeedsFrame(ps[0].size, last) then
      [FrameItem(ps[0].size, ps[0].call)] + Drain(ps[1..], last) + [MoveItem(ps[0])]
    else [MoveItem(ps[0])] + Drain(ps[1..], last)
  }

  /** The frame size on record after a full drain: that of the first entry that needed one. */
  function DrainLast(ps: seq<PendingMove>, last: Size): Size {
    if ps == [] then last
    else if ps[0].valid && NeedsFrame(ps[0].size, last) then ps[0].size
    else DrainLast(ps[1..], last)
  }

  function Cleared(ps: seq<PendingMove>): (cs: seq<PendingMove>)
    ensures |cs| == |ps| && forall i :: 0 <= i < |ps| ==> cs[i] == ps[i].(valid := false)
  {
    if ps == [] then [] else [ps[0].(valid := false)] + Cleared(ps[1..])
  }

  lemma {:induction false} NoneValid(ps: seq<PendingMove>)
    ensures FirstValid(ps) == |ps| <==> forall i :: 0 <= i < |ps| ==> !ps[i].valid
    ensures FirstValid(ps) == |ps| ==> Cleared(ps) == ps
  {
    if ps == [] {
    } else {
      NoneValid(ps[1..]);
      assert forall i :: 1 <= i < |ps| ==> ps[i] == ps[1..][i - 1];
      assert forall i :: 0 <= i < |ps| - 1 ==> ps[1..][i] == ps[i + 1];
    }
  }

  lemma {:induction false} DrainNone(ps: seq<PendingMove>, last: Size)
    requires forall i :: 0 <= i < |ps| ==> !ps[i].valid
    ensures Drain(ps, last) == [] && DrainLast(ps, last) == last
  {
    if ps == [] {
    } else {
      DrainNone(ps[1..], last);
    }
  }

  /** Taking out the first valid entry. */
  lemma {:induction false} DrainFirst(ps: seq<PendingMove>, last: Size)
    requires FirstValid(ps) < |ps|
    ensures var i := FirstValid(ps); var p, rest := ps[i], Consumed(ps, i);
      && Drain(ps, last) == (if NeedsFrame(p.size, last) then [FrameItem(p.size, p.call)] + Drain(rest, last) + [MoveItem(p)]
                             else [MoveItem(p)] + Drain(rest, last))
      && DrainLast(ps, last) == (if NeedsFrame(p.size, last) then p.size else DrainLast(rest, last))
      && Cleared(rest) == Cleared(ps)
  {
    var i := FirstValid(ps);
    if i == 0 {
      assert Consumed(ps, 0)[1..] == ps[1..];
    } else {
      DrainFirst(ps[1..], last);
      assert Consumed(ps, i)[1..] == Consumed(ps[1..], i - 1);
    }
  }

  /** One flush drains the queue, whatever the network does. */
  lemma {:induction false} FlushDrains(net: Net, l: Link)
    ensures var r := Flush(net, l);
      && Items(r.log) == Items(l.log) + Drain(l.pending, l.last)
      && r.last == DrainLast(l.pending, l.last)
      && r.pending == Cleared(l.pending)
    decreases ValidCount(l.pending), 0
  {
    hide Items, Drain, DrainLast, Cleared, FirstValid, TouchMove, Consumed;
    var i := FirstValid(l.pending);
    NoneValid(l.pending);
    if i == |l.pending| {
      DrainNone(l.pending, l.last);
    } else {
      ConsumedCount(l.pending, i);
      DrainFirst(l.pending, l.last);
      MoveDrains(net, l.(pending := Consumed(l.pending, i)), l.pending[i]);
    }
  }

  lemma {:induction false} MoveDrains(net: Net, l: Link, p: PendingMove)
    ensures var r := TouchMove(net, l, p.slot, p.x, p.y, p.size, p.call); var rest := Drain(l.pending, l.last);
      && Items(r.log) == Items(l.log) + (if NeedsFrame(p.size, l.last) then [FrameItem(p.size, p.call)] + rest + [MoveItem(p)]
                                         else [MoveItem(p)] + rest)
      && r.last == (if NeedsFrame(p.size, l.last) then p.size else DrainLast(l.pending, l.last))
      && r.pending == Cleared(l.pending)
    decreases ValidCount(l.pending), 2
  {
    hide Items, Drain, DrainLast, Cleared, FirstValid, SendPacket, SendPacketReliable;
    var pkt := MovePkt(p.slot, p.x, p.y);
    var l2 := EnsureFrameSize(net, l, p.size, p.call);
    if NeedsFrame(p.size, l.last) {
      ReliableDrains(net, l, FramePkt(p.size.width, p.size.height), p.call);
      ClearedIsClear(l.pending);
      PacketAfterDrain(net, l2, pkt, p.call);
    } else {
      PacketDrains(net, l, pkt, p.call);
    }
  }

  lemma {:induction false} ClearedIsClear(ps: seq<PendingMove>)
    ensures FirstValid(Cleared(ps)) == |ps|
  {
    NoneValid(Cleared(ps));
  }

  /** With nothing queued a send is just the packet. */
  lemma {:induction false} PacketAfterDrain(net: Net, l: Link, pkt: Packet, call: nat)
    requires FirstValid(l.pending) == |l.pending|
    ensures var r := SendPacket(net, l, pkt, call);
      && Items(r.log) == Items(l.log) + [Item(pkt, call)] && r.last == l.last && r.pending == l.pending
  {
    ItemsAppend(l.log, [Sent(pkt, call, net(l.tries) == Accepted)]);
  }

  lemma {:induction false} PacketDrains(net: Net, l: Link, pkt: Packet, call: nat)
    ensures var r := SendPacket(net, l, pkt, call);
      && Items(r.log) == Items(l.log) + [Item(pkt, call)] + Drain(l.pending, l.last)
      && r.last == DrainLast(l.pending, l.last) && r.pending == Cleared(l.pending)
    decreases ValidCount(l.pending), 1
  {
    hide Items, Drain, DrainLast, Cleared, Flush;
    var sent := Sent(pkt, call, net(l.tries) == Accepted);
    ItemsOne(sent);
    ItemsAppend(l.log, [sent]);
    FlushDrains(net, l.(tries := l.tries + 1, log := l.log + [sent]));
  }

  lemma {:induction false} ReliableDrains(net: Net, l: Link, pkt: Packet, call: nat)
    ensures var r := SendPacketReliable(net, l, pkt, call);
      && Items(r.log) == Items(l.log) + [Item(pkt, call)] + Drain(l.pending, l.last)
      && r.last == DrainLast(l.pending, l.last) && r.pending == Cleared(l.pending)
    decreases ValidCount(l.pending), 1
  {
    hide Items, Drain, DrainLast, Cleared, Flush, Attempt;
    var (delivered, tries) := Attempt(net, l.tries, 0);
    ItemsOne(Sent(pkt, call, delivered));
    ItemsAppend(l.log, [Sent(pkt, call, delivered)]);
    FlushDrains(net, l.(tries := tries, log := l.log + [Sent(pkt, call, delivered)]));
  }

  // ---- the wire as a function of the calls ----

  /** What the network cannot influence: the queue, the recorded frame size and the packets tried. */
  datatype Trace = Trace(pending: seq<PendingMove>, last: Size, items: seq<Item>)

  function View(l: Link): Trace { Trace(l.pending, l.last, Items(l.log)) }

  /** The packet of a call. */
  function PacketOf(c: Call): Packet {
    match c.action
    case ActionDown => DownPkt(c.slot, c.slot + 1, c.x, c.y)
    case ActionMove => MovePkt(c.slot, c.x, c.y)
    case ActionUp => UpPkt(c.slot)
  }

  function Framed(c: Call, last: Size): bool { !c.action.ActionUp? && NeedsFrame(c.size, last) }

  /** The packets of a call that is not queued, given the queue it finds. */
  function Burst(c: Call, n: nat, pending: seq<PendingMove>, last: Size): seq<Item> {
    if Framed(c, last) then [FrameItem(c.size, n)] + Drain(pending, last) + [Item(PacketOf(c), n)]
    else [Item(PacketOf(c), n)] + Drain(pending, last)
  }

  function Queue(c: Call, pending: seq<PendingMove>): seq<PendingMove> {
    if c.action.ActionDown? then pending else Remove(pending, c.slot)
  }

  predicate Queued(c: Call) { c.action.ActionMove? && c.busy }

  function Step(t: Trace, c: Call, n: nat): Trace {
    if Queued(c) then t.(pending := Put(t.pending, PendingMove(c.slot, true, c.x, c.y, c.size, n)))
    else
      var pending := Queue(c, t.pending);
      Trace(Cleared(pending), if Framed(c, t.last) then c.size else DrainLast(pending, t.last), t.items + Burst(c, n, pending, t.last))
  }

  function TraceOf(cs: seq<Call>): Trace
    decreases |cs|
  {
    if cs == [] then View(StartLink()) else Step(TraceOf(cs[..|cs| - 1]), cs[|cs| - 1], |cs| - 1)
  }

  lemma DownDrains(net: Net, l: Link, c: Call, n: nat)
    requires c.action.ActionDown?
    ensures View(TouchDown(net, l, c.slot, c.slot + 1, c.x, c.y, c.size, n)) == Step(View(l), c, n)
  {
    hide SendPacketReliable, Drain, DrainLast, Cleared, FirstValid, Items;
    var l2 := EnsureFrameSize(net, l, c.size, n);
    if Framed(c, l.last) {
      ReliableDrains(net, l, FramePkt(c.size.width, c.size.height), n);
      ClearedIsClear(l.pending);
      SendAfterDrain(net, l2, PacketOf(c), n);
    } else {
      ReliableDrains(net, l, PacketOf(c), n);
    }
  }

  /** One call, with all its nested flushes, is one step of the trace, whatever the network does. */
  lemma CallIsStep(net: Net, l: Link, c: Call, n: nat)
    ensures View(SendRealTouch(net, l, c, n)) == Step(View(l), c, n)
  {
    hide SendPacketReliable, TouchMove, TouchDown, Drain, DrainLast, Cleared, FirstValid, Items, Remove, Put;
    match c.action
    case ActionDown => DownDrains(net, l, c, n);
    case ActionMove => MoveDrains(net, l.(pending := Remove(l.pending, c.slot)), PendingMove(c.slot, true, c.x, c.y, c.size, n));
    case ActionUp => ReliableDrains(net, l.(pending := Remove(l.pending, c.slot)), UpPkt(c.slot), n);
  }

  lemma {:induction false} SendAfterDrain(net: Net, l: Link, pkt: Packet, call: nat)
    requires FirstValid(l.pending) == |l.pending|
    ensures var r := View(SendPacket(net, l, pkt, call)); r == Trace(l.pending, l.last, Items(l.log) + [Item(pkt, call)])
    ensures var r := View(SendPacketReliable(net, l, pkt, call)); r == Trace(l.pending, l.last, Items(l.log) + [Item(pkt, call)])
  {
    PacketAfterDrain(net, l, pkt, call);
    ReliableDrains(net, l, pkt, call);
    NoneValid(l.pending);
    DrainNone(l.pending, l.last);
  }

  lemma {:induction false} RunIsTrace(net: Net, cs: seq<Call>)
    ensures View(RunCalls(net, cs)) == TraceOf(cs)
    decreases |cs|
  {
    hide SendRealTouch, Step, View;
    if cs == [] {
    } else {
      RunIsTrace(net, cs[..|cs| - 1]);
      CallIsStep(net, RunCalls(net, cs[..|cs| - 1]), cs[|cs| - 1], |cs| - 1);
    }
  }
}
