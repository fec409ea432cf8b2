/**
 The sending side in its own form: the `Controller` with its map of pending moves and the `RawInputDaemonSession` with
 its packet buffers, retry loop and cached frame size, calling each other through `writesFlushed`.  Each method is tied
 to the functions of TouchSender.dfy.
 */
module TouchSession {
  import opened Common
  import opened TouchWire
  import opened TouchSender

  /** The bytes the socket accepted. */
  function WireBytes(log: seq<Sent>): seq<byte>
    decreases |log|
  {
    if log == [] then []
    else WireBytes(log[..|log| - 1]) + (if log[|log| - 1].delivered then Encode(log[|log| - 1].pkt) else [])
  }

  lemma {:induction false} WireBytesPush(log: seq<Sent>, s: Sent)
    ensures WireBytes(log + [s]) == WireBytes(log) + (if s.delivered then Encode(s.pkt) else [])
  {
    assert (log + [s])[..|log|] == log;
  }

  class RawInputDaemonSession {
    const net: Net
    const controller: Controller
    var lastSentFrameSize: Size
    var tries: nat
    var wire: seq<byte>
    ghost var log: seq<Sent>

    constructor (net: Net, controller: Controller)
      ensures this.net == net && this.controller == controller
      ensures lastSentFrameSize == StartLink().last && tries == 0 && log == [] && wire == []
    {
      this.net, this.controller := net, controller;
      lastSentFrameSize, tries, wire, log := Size(-1, -1), 0, [], [];
    }

    ghost predicate Valid()
      reads this, controller
    {
      controller.session == this && wire == WireBytes(log)
    }

    ghost function View(): Link
      reads this, controller
    {
      Link(controller.pending, lastSentFrameSize, tries, log)
    }

    /** One `send` of the whole packet. */
    method Send(pkt: array<byte>) returns (outcome: Outcome)
      modifies this`tries, this`wire
      ensures outcome == net(old(tries)) && tries == old(tries) + 1
      ensures wire == old(wire) + if outcome == Accepted then pkt[..] else []
    {
      outcome := net(tries);
      tries := tries + 1;
      if outcome == Accepted { wire := wire + pkt[..]; }
    }

    ghost method Record(p: Packet, call: nat, delivered: bool)
      requires wire == WireBytes(log) + if delivered then Encode(p) else []
      modifies this`log
      ensures log == old(log) + [Sent(p, call, delivered)] && wire == WireBytes(log)
    {
      WireBytesPush(log, Sent(p, call, delivered));
      log := log + [Sent(p, call, delivered)];
    }

    method SendPacket(pkt: array<byte>, ghost p: Packet, call: nat)
      requires Valid() && pkt[..] == Encode(p)
      modifies this, controller
      ensures Valid() && View() == TouchSender.SendPacket(net, old(View()), p, call)
      decreases ValidCount(controller.pending), 1
    {
      hide Encode, Flush, WireBytes;
      var outcome := Send(pkt);
      Record(p, call, outcome == Accepted);
      controller.FlushPendingTouchMoves();
    }

    method SendPacketReliable(pkt: array<byte>, ghost p: Packet, call: nat)
      requires Valid() && pkt[..] == Encode(p)
      modifies this, controller
      ensures Valid() && View() == TouchSender.SendPacketReliable(net, old(View()), p, call)
      decreases ValidCount(controller.pending), 1
    {
      hide Encode, Flush, WireBytes;
      var attempt := 0;
      while attempt <= MAX_RETRIES
        invariant 0 <= attempt <= MAX_RETRIES
        invariant Valid() && View() == old(View()).(tries := tries)
        invariant Attempt(net, tries, attempt) == Attempt(net, old(tries), 0)
        decreases MAX_RETRIES - attempt
      {
        var outcome := Send(pkt);
        if outcome == Accepted {
          Record(p, call, true);
          controller.FlushPendingTouchMoves();
          return;
        }
        if outcome == Failed || attempt == MAX_RETRIES {
          Record(p, call, false);
          controller.FlushPendingTouchMoves();
          return;
        }
        attempt := attempt + 1;
      }
    }

    method EnsureFrameSize(size: Size, call: nat)
      requires Valid()
      modifies this, controller
      ensures Valid() && View() == TouchSender.EnsureFrameSize(net, old(View()), size, call)
      decreases ValidCount(controller.pending), 2
    {
      hide TouchSender.SendPacketReliable;
      if size == lastSentFrameSize || size.width <= 0 || size.height <= 0 { return; }
      var pkt := new byte[PKT_SIZE](i => 0);
      pkt[0] := CMD_FRAME;
      PutI16(pkt, 2, size.width);
      PutI16(pkt, 4, size.height);
      SendPacketReliable(pkt, FramePkt(size.width, size.height), call);
      lastSentFrameSize := size;
    }

    method TouchDown(slot: int, trackId: int, x: int, y: int, size: Size, call: nat)
      requires Valid()
      modifies this, controller
      ensures Valid() && View() == TouchSender.TouchDown(net, old(View()), slot, trackId, x, y, size, call)
    {
      hide TouchSender.SendPacketReliable, TouchSender.EnsureFrameSize;
      EnsureFrameSize(size, call);
      var pkt := new byte[PKT_SIZE](i => 0);
      pkt[0], pkt[1] := CMD_DOWN, ToUint8(slot);
      PutI16(pkt, 2, trackId);
      PutI16(pkt, 4, x);
      PutI16(pkt, 6, y);
      SendPacketReliable(pkt, DownPkt(slot, trackId, x, y), call);
    }

    method TouchMove(slot: int, x: int, y: int, size: Size, call: nat)
      requires Valid()
      modifies this, controller
      ensures Valid() && View() == TouchSender.TouchMove(net, old(View()), slot, x, y, size, call)
      decreases ValidCount(controller.pending), 3
    {
      hide TouchSender.SendPacket, TouchSender.EnsureFrameSize;
      EnsureFrameSize(size, call);
      var pkt := new byte[PKT_SIZE](i => 0);
      pkt[0], pkt[1] := CMD_MOVE, ToUint8(slot);
      PutI16(pkt, 2, x);
      PutI16(pkt, 4, y);
      SendPacket(pkt, MovePkt(slot, x, y), call);
    }

    method TouchUp(slot: int, call: nat)
      requires Valid()
      modifies this, controller
      ensures Valid() && View() == TouchSender.TouchUp(net, old(View()), slot, call)
    {
      hide TouchSender.SendPacketReliable;
      var pkt := new byte[PKT_SIZE](i => 0);
      pkt[0], pkt[1] := CMD_UP, ToUint8(slot);
      SendPacketReliable(pkt, UpPkt(slot), call);
    }
  }

  class Controller {
    var pending: seq<PendingMove>   // in key order
    var session: RawInputDaemonSession?

    constructor (net: Net)
      ensures session != null && fresh(session) && session.net == net && session.Valid() && session.View() == StartLink()
    {
      pending := [];
      session := null;
      new;
      session := new RawInputDaemonSession(net, this);
    }

    /** Only the first entry still valid is sent; its own `writesFlushed` comes back here for the next one. */
    method FlushPendingTouchMoves()
      requires session != null && session.Valid() && session.controller == this
      modifies this, session
      ensures session == old(session) && session.Valid() && session.View() == Flush(session.net, old(session.View()))
      decreases ValidCount(pending), 0
    {
      hide TouchSender.TouchMove;
      var i := 0;
      while i < |pending|
        invariant 0 <= i <= |pending| && pending == old(pending)
        invariant FirstValid(pending) == i + FirstValid(pending[i..])
        invariant session == old(session) && session.Valid() && session.View() == old(session.View())
      {
        assert pending[i..][0] == pending[i] && pending[i..][1..] == pending[i + 1..];
        if pending[i].valid {
          var p := pending[i];
          ConsumedCount(pending, i);
          pending := pending[i := p.(valid := false)];
          session.TouchMove(p.slot, p.x, p.y, p.size, p.call);
          return;
        }
        i := i + 1;
      }
    }

    /** `busy` is the answer of `hasPendingWrites`. */
    method DispatchOrQueueTouchMove(slot: int, x: int, y: int, size: Size, busy: bool, call: nat)
      requires session != null && session.Valid() && session.controller == this
      modifies this, session
      ensures session == old(session) && session.Valid()
      ensures session.View() == DispatchOrQueue(session.net, old(session.View()), Call(slot, ActionMove, x, y, size, busy), call)
    {
      hide TouchSender.TouchMove, Remove, Put;
      if !busy {
        pending := Remove(pending, slot);
        session.TouchMove(slot, x, y, size, call);
        return;
      }
      pending := Put(pending, PendingMove(slot, true, x, y, size, call));
    }

    method SendRealTouch(c: Call, call: nat)
      requires session != null ==> session.Valid() && session.controller == this
      modifies this, session
      ensures session == old(session)
      ensures session != null ==> session.Valid() && session.View() == TouchSender.SendRealTouch(session.net, old(session.View()), c, call)
      ensures session == null ==> pending == Remove(old(pending), c.slot)
    {
      hide TouchSender.TouchDown, TouchSender.TouchUp, DispatchOrQueue, Remove;
      if session == null {
        pending := Remove(pending, c.slot);
        return;
      }
      match c.action
      case ActionDown => session.TouchDown(c.slot, c.slot + 1, c.x, c.y, c.size, call);
      case ActionMove =>
        assert c == Call(c.slot, ActionMove, c.x, c.y, c.size, c.busy);
        DispatchOrQueueTouchMove(c.slot, c.x, c.y, c.size, c.busy, call);
      case ActionUp =>
        pending := Remove(pending, c.slot);
        session.TouchUp(c.slot, call);
    }

    /** A whole run over one session. */
    method Play(cs: seq<Call>)
      requires session != null && session.Valid() && session.controller == this && session.View() == StartLink()
      modifies this, session
      ensures session == old(session) && session.Valid() && session.View() == RunCalls(session.net, cs)
    {
      hide TouchSender.SendRealTouch;
      var i := 0;
      while i < |cs|
        invariant 0 <= i <= |cs|
        invariant session != null && session == old(session) && session.Valid() && session.View() == RunCalls(session.net, cs[..i])
      {
        SendRealTouch(cs[i], i);
        assert cs[..i + 1][..i] == cs[..i];
        i := i + 1;
      }
      assert cs[..i] == cs;
    }
  }
}
