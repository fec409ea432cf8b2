/**
 The frame size is cached on both sides of the wire: the session remembers the last size it sent, the daemon scales
 with the last FRAME it read.  This file says exactly when a call leaves the two agreeing, supposing every packet gets
 through.
 */
module TouchFrameSize {
  import opened TouchWire
  import opened TouchSender
  import opened TouchQueue

  /** The size the daemon has after reading `items`, starting from `size`. */
  function WireSize(items: seq<Item>, size: Size): Size
    decreases |items|
  {
    if items == [] then size
    else
      var it := items[|items| - 1];
      if it.pkt.FramePkt? then Size(it.pkt.width, it.pkt.height) else WireSize(items[..|items| - 1], size)
  }

  lemma {:induction false} WireSizeAppend(a: seq<Item>, b: seq<Item>, size: Size)
    ensures WireSize(a + b, size) == WireSize(b, WireSize(a, size))
    decreases |b|
  {
    if b == [] {
      assert a + b == a;
    } else {
      assert (a + b)[..|a + b| - 1] == a + b[..|b| - 1];
      WireSizeAppend(a, b[..|b| - 1], size);
    }
  }

  lemma {:induction false} WireSizeOne(it: Item, size: Size)
    ensures WireSize([it], size) == if it.pkt.FramePkt? then Size(it.pkt.width, it.pkt.height) else size
  {
    assert WireSize([it][..0], size) == size;
  }

  /** The sizes a drain will announce, in queue order. */
  function Announced(ps: seq<PendingMove>, last: Size): seq<Size> {
    if ps == [] then []
    else (if ps[0].valid && NeedsFrame(ps[0].size, last) then [ps[0].size] else []) + Announced(ps[1..], last)
  }

  /** A drain leaves the daemon with the last size announced and the session with the first. */
  lemma {:induction false} DrainSizes(ps: seq<PendingMove>, last: Size, wire: Size)
    ensures var sizes := Announced(ps, last);
      && WireSize(Drain(ps, last), wire) == (if sizes == [] then wire else sizes[|sizes| - 1])
      && DrainLast(ps, last) == (if sizes == [] then last else sizes[0])
  {
    if ps == [] {
    } else {
      var p, rest := ps[0], Drain(ps[1..], last);
      DrainSizes(ps[1..], last, wire);
      if p.valid {
        WireSizeOne(MoveItem(p), wire);
        if NeedsFrame(p.size, last) {
          DrainSizes(ps[1..], last, p.size);
          WireSizeOne(FrameItem(p.size, p.call), wire);
          WireSizeAppend([FrameItem(p.size, p.call)], rest, wire);
          WireSizeAppend([FrameItem(p.size, p.call)] + rest, [MoveItem(p)], wire);
          WireSizeOne(MoveItem(p), WireSize(rest, p.size));
        } else {
          WireSizeAppend([MoveItem(p)], rest, wire);
        }
      }
    }
  }

  const START: Size := Size(-1, -1)

  predicate Agree(t: Trace) { WireSize(t.items, START) == t.last }

  /** What a caller can see beforehand: the sizes waiting in the queue do not pull the two caches apart. */
  predicate SizesCompatible(c: Call, t: Trace) {
    var sizes := Announced(Queue(c, t.pending), t.last);
    sizes == [] || sizes[|sizes| - 1] == if Framed(c, t.last) then c.size else sizes[0]
  }

  /** From agreement, a call that sends leads to agreement exactly when the waiting sizes are compatible. */
  lemma StepAgreesIff(t: Trace, c: Call, n: nat)
    requires Agree(t) && !Queued(c)
    ensures Agree(Step(t, c, n)) <==> SizesCompatible(c, t)
  {
    hide WireSize, Drain, DrainLast, Cleared, Announced;
    var ps, own := Queue(c, t.pending), Item(PacketOf(c), n);
    var drained := Drain(ps, t.last);
    WireSizeAppend(t.items, Burst(c, n, ps, t.last), START);
    if Framed(c, t.last) {
      DrainSizes(ps, t.last, c.size);
      WireSizeOne(FrameItem(c.size, n), t.last);
      WireSizeAppend([FrameItem(c.size, n)], drained, t.last);
      WireSizeAppend([FrameItem(c.size, n)] + drained, [own], t.last);
      WireSizeOne(own, WireSize(drained, c.size));
    } else {
      DrainSizes(ps, t.last, t.last);
      WireSizeOne(own, t.last);
      WireSizeAppend([own], drained, t.last);
    }
  }

  /** While nothing is ever queued, the two sides agree over every run. */
  lemma {:induction false} NeverQueuedAgrees(cs: seq<Call>)
    requires forall k :: 0 <= k < |cs| ==> !Queued(cs[k])
    ensures TraceOf(cs).pending == [] && Agree(TraceOf(cs))
    decreases |cs|
  {
    hide Step;
    if cs == [] {
    } else {
      var past, c := cs[..|cs| - 1], cs[|cs| - 1];
      NeverQueuedAgrees(past);
      StepAgreesIff(TraceOf(past), c, |cs| - 1);
      EmptyQueueStays(TraceOf(past), c, |cs| - 1);
    }
  }

  lemma EmptyQueueStays(t: Trace, c: Call, n: nat)
    requires t.pending == [] && !Queued(c)
    ensures Step(t, c, n).pending == [] && SizesCompatible(c, t)
  {
  }

  /** Two queued moves of different sizes are enough: the session ends up with one size, the daemon with the other. */
  lemma QueuedSizesPullApart()
    ensures var a, b := Size(100, 200), Size(300, 400);
      var cs := [Call(0, ActionMove, 1, 2, a, true), Call(1, ActionMove, 3, 4, b, true), Call(2, ActionUp, 0, 0, b, false)];
      && !Agree(TraceOf(cs))
      && TraceOf(cs).items == [Item(UpPkt(2), 2), FrameItem(a, 0), FrameItem(b, 1), Item(MovePkt(1, 3, 4), 1), Item(MovePkt(0, 1, 2), 0)]
  {
    var a, b := Size(100, 200), Size(300, 400);
    var cs := [Call(0, ActionMove, 1, 2, a, true), Call(1, ActionMove, 3, 4, b, true), Call(2, ActionUp, 0, 0, b, false)];
    var p, q := PendingMove(0, true, 1, 2, a, 0), PendingMove(1, true, 3, 4, b, 1);
    assert cs[..2] == [cs[0], cs[1]] && cs[..2][..1] == [cs[0]] && cs[..2][..1][..0] == [];
    assert TraceOf([]) == Trace([], START, []);
    assert TraceOf(cs[..2][..1]) == Trace([p], START, []);
    assert [p][1..] == [] && Put([p], q) == [p, q];
    assert TraceOf(cs[..2]) == Trace([p, q], START, []);
    assert [p, q][1..] == [q] && [q][1..] == [];
    assert Remove([p, q], 2) == [p, q];
    assert Drain([q], START) == [FrameItem(b, 1)] + [] + [MoveItem(q)];
    assert Drain([p, q], START) == [FrameItem(a, 0)] + Drain([q], START) + [MoveItem(p)];
    var t := TraceOf(cs);
    StepAgreesIff(TraceOf(cs[..2]), cs[2], 2);
    assert Announced([q], START) == [b];
    assert Announced([p, q], START) == [a, b];
  }
}
