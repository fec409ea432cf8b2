/**
 `raw_input_daemon.c` in its own form: the daemon object with its handlers, the exact read over a socket that
 delivers bytes in arbitrary pieces, the client loop and the accept loop.  Each method is tied to the functions of
 TouchDaemon.dfy.
 */
module TouchServer {
  import opened Common
  import opened TouchWire
  import opened TouchPanel
  import opened TouchDaemon

  /** One result of `read`: some bytes (none at end of file) or an interrupted call. */
  datatype ReadEvent = Data(bytes: seq<byte>) | Interrupted

  /** The bytes a client sends before it closes. */
  function Stream(incoming: seq<ReadEvent>): seq<byte>
    decreases |incoming|
  {
    if incoming == [] then []
    else match incoming[0]
      case Interrupted => Stream(incoming[1..])
      case Data(bs) => if bs == [] then [] else bs + Stream(incoming[1..])
  }

  function Remaining(incoming: seq<ReadEvent>): nat
    decreases |incoming|
  {
    if incoming == [] then 0
    else 1 + (if incoming[0].Data? then |incoming[0].bytes| else 0) + Remaining(incoming[1..])
  }

  class ClientSocket {
    var incoming: seq<ReadEvent>

    constructor (incoming: seq<ReadEvent>)
      ensures this.incoming == incoming
    {
      this.incoming := incoming;
    }

    /** `read`: at most `max` bytes of the next piece; the rest of the piece stays. */
    method Read(max: nat) returns (interrupted: bool, bs: seq<byte>)
      requires max > 0
      modifies this
      ensures |bs| <= max
      ensures interrupted ==> bs == [] && Stream(incoming) == old(Stream(incoming))
      ensures !interrupted ==> (bs == [] <==> old(Stream(incoming)) == []) && old(Stream(incoming)) == bs + Stream(incoming)
      ensures interrupted || bs != [] ==> Remaining(incoming) < old(Remaining(incoming))
    {
      if incoming == [] {
        return false, [];
      }
      match incoming[0]
      case Interrupted =>
        incoming := incoming[1..];
        return true, [];
      case Data(piece) =>
        if |piece| <= max {
          bs := piece;
          incoming := if piece == [] then [] else incoming[1..];
        } else {
          bs := piece[..max];
          ghost var later := incoming[1..];
          incoming := [Data(piece[max..])] + incoming[1..];
          assert incoming[1..] == later && piece == bs + piece[max..];
          assert (bs + piece[max..]) + Stream(later) == bs + (piece[max..] + Stream(later));
        }
        return false, bs;
    }
  }

  /** `read_exact`: the loop that hides how the stream was cut up. */
  method ReadExact(sock: ClientSocket, buf: array<byte>, len: nat) returns (ok: bool)
    requires buf.Length == len
    modifies sock, buf
    ensures ok <==> |old(Stream(sock.incoming))| >= len
    ensures ok ==> buf[..] == old(Stream(sock.incoming))[..len] && Stream(sock.incoming) == old(Stream(sock.incoming))[len..]
  {
    ghost var all := Stream(sock.incoming);
    var got := 0;
    while got < len
      invariant 0 <= got <= len && got <= |all|
      invariant buf[..got] == all[..got] && Stream(sock.incoming) == all[got..]
      decreases Remaining(sock.incoming)
    {
      var interrupted, bs := sock.Read(len - got);
      if interrupted { continue; }
      if bs == [] { return false; }
      ghost var before := buf[..got];
      forall i | 0 <= i < |bs| { buf[got + i] := bs[i]; }
      assert buf[..got + |bs|] == before + bs;
      assert all[got..] == bs + Stream(sock.incoming);
      assert all[..got + |bs|] == all[..got] + bs by { assert all == all[..got] + all[got..]; }
      got := got + |bs|;
    }
    assert buf[..] == buf[..got];
    return true;
  }

  /** A client's whole stream: packets are handled until QUIT or until less than a packet is left. */
  function Serve(s: State, rot: Rotations, bytes: seq<byte>): (State, seq<Event>, bool)
    requires |s.active| == MAX_SLOTS
    decreases |bytes|
  {
    if |bytes| < PKT_SIZE then (s, [], false)
    else
      var c := Decode(bytes[..PKT_SIZE]);
      if c.Quit? then (s, [], true)
      else
        HandleKeepsShape(s, rot, c);
        var (s1, es1) := Handle(s, rot, c);
        var (s2, es2, quit) := Serve(s1, rot, bytes[PKT_SIZE..]);
        (s2, es1 + es2, quit)
  }

  lemma {:induction false} ServeStep(s: State, rot: Rotations, bytes: seq<byte>)
    requires |s.active| == MAX_SLOTS
    ensures |bytes| < PKT_SIZE ==> Serve(s, rot, bytes) == (s, [], false)
    ensures |bytes| >= PKT_SIZE ==>
      var c := Decode(bytes[..PKT_SIZE]);
      var next := Handle(s, rot, c);
      && |next.0.active| == MAX_SLOTS
      && (c.Quit? ==> Serve(s, rot, bytes) == (s, [], true) && next == (s, []))
      && (!c.Quit? ==> var rest := Serve(next.0, rot, bytes[PKT_SIZE..]);
                       Serve(s, rot, bytes) == (rest.0, next.1 + rest.1, rest.2))
  {
    if |bytes| >= PKT_SIZE { HandleKeepsShape(s, rot, Decode(bytes[..PKT_SIZE])); }
  }

  lemma {:induction false} ServeKeepsShape(s: State, rot: Rotations, bytes: seq<byte>)
    requires |s.active| == MAX_SLOTS
    ensures |Serve(s, rot, bytes).0.active| == MAX_SLOTS
    decreases |bytes|
  {
    if |bytes| < PKT_SIZE || Decode(bytes[..PKT_SIZE]).Quit? {
    } else {
      HandleKeepsShape(s, rot, Decode(bytes[..PKT_SIZE]));
      ServeKeepsShape(Handle(s, rot, Decode(bytes[..PKT_SIZE])).0, rot, bytes[PKT_SIZE..]);
    }
  }

  /** The accept loop: clients one after another, a reset after each, until one quits. */
  function Accept(s: State, rot: Rotations, clients: seq<seq<ReadEvent>>): (State, seq<Event>)
    requires |s.active| == MAX_SLOTS
    decreases |clients|
  {
    if clients == [] then (s, [])
    else
      ServeKeepsShape(s, rot, Stream(clients[0]));
      var (s1, es1, quit) := Serve(s, rot, Stream(clients[0]));
      var (s2, es2) := ResetTouchState(s1);
      if quit then (s2, es1 + es2)
      else
        var (s3, es3) := Accept(s2, rot, clients[1..]);
        (s3, es1 + es2 + es3)
  }

  lemma {:induction false} AcceptStep(s: State, rot: Rotations, clients: seq<seq<ReadEvent>>)
    requires |s.active| == MAX_SLOTS && clients != []
    ensures var a := Serve(s, rot, Stream(clients[0]));
      && |a.0.active| == MAX_SLOTS
      && var b := ResetTouchState(a.0);
      && |b.0.active| == MAX_SLOTS
      && Accept(s, rot, clients).0 == (if a.2 then b.0 else Accept(b.0, rot, clients[1..]).0)
      && Accept(s, rot, clients).1 == a.1 + b.1 + (if a.2 then [] else Accept(b.0, rot, clients[1..]).1)
  {
    hide Serve;
    ServeKeepsShape(s, rot, Stream(clients[0]));
    var a := Serve(s, rot, Stream(clients[0]));
    var b := ResetTouchState(a.0);
    assert a.1 + b.1 + [] == a.1 + b.1;
  }

  lemma {:induction false} AcceptNobody(s: State, rot: Rotations)
    requires |s.active| == MAX_SLOTS
    ensures Accept(s, rot, []) == (s, [])
  {
  }

  lemma Regroup(a: seq<Event>, b: seq<Event>, c: seq<Event>, d: seq<Event>)
    ensures a + b + c + d == a + (b + c + d)
  {
    assert a + b + c + d == a + (b + c + d);
  }

  // ---- over whole clients ----

  /** No packet of the stream is a DOWN with a negative id. */
  predicate NoNegativeDown(bytes: seq<byte>)
    decreases |bytes|
  {
    |bytes| >= PKT_SIZE ==> !NegativeDown(Decode(bytes[..PKT_SIZE])) && NoNegativeDown(bytes[PKT_SIZE..])
  }

  /** Whatever a client sends, as long as no DOWN carries a negative id, daemon and kernel stay in agreement. */
  lemma {:induction false} ServeKeepsSync(s: State, k: Kernel, rot: Rotations, bytes: seq<byte>)
    requires InSync(s, k) && |s.active| == MAX_SLOTS && NoNegativeDown(bytes)
    ensures var (s', es, quit) := Serve(s, rot, bytes); InSync(s', Replay(k, es))
    decreases |bytes|
  {
    hide InSync, Handle, Decode, NegativeDown, Serve;
    ServeStep(s, rot, bytes);
    if |bytes| < PKT_SIZE || Decode(bytes[..PKT_SIZE]).Quit? {
      ReplayNothing(k);
    } else {
      var c := Decode(bytes[..PKT_SIZE]);
      HandleKeepsSync(s, k, rot, c);
      var (s1, es1) := Handle(s, rot, c);
      ServeKeepsSync(s1, Replay(k, es1), rot, bytes[PKT_SIZE..]);
      ReplayAppend(k, es1, Serve(s1, rot, bytes[PKT_SIZE..]).1);
    }
  }

  /** After any clients at all, each ended anyhow, nothing is left touching, in the daemon or in the kernel. */
  lemma {:induction false} AcceptLeavesNothingTouching(s: State, k: Kernel, rot: Rotations, clients: seq<seq<ReadEvent>>)
    requires InSync(s, k) && |s.active| == MAX_SLOTS && clients != []
    requires forall i :: 0 <= i < |clients| ==> NoNegativeDown(Stream(clients[i]))
    ensures var (s', es) := Accept(s, rot, clients); var k' := Replay(k, es);
      && InSync(s', k') && s'.active == Idle() && !k'.seen.touching && |k'.seen.contacts| == MAX_SLOTS
      && forall i :: 0 <= i < MAX_SLOTS ==> !InContact(k', i)
    decreases |clients|
  {
    hide InSync, Serve, Accept, ResetTouchState, NoNegativeDown, Replay, Idle;
    AcceptStep(s, rot, clients);
    var a := Serve(s, rot, Stream(clients[0]));
    var b := ResetTouchState(a.0);
    ServeKeepsSync(s, k, rot, Stream(clients[0]));
    ResetLiftsEverything(a.0, Replay(k, a.1));
    SyncShape(b.0, Replay(Replay(k, a.1), b.1));
    ReplayAppend(k, a.1, b.1);
    var rest := if a.2 then [] else Accept(b.0, rot, clients[1..]).1;
    ReplayAppend(k, a.1 + b.1, rest);
    var k1 := Replay(k, a.1 + b.1);
    if a.2 {
      ReplayNothing(k1);
    } else if |clients| == 1 {
      assert clients[1..] == [];
      AcceptNobody(b.0, rot);
      ReplayNothing(k1);
    } else {
      AcceptLeavesNothingTouching(b.0, k1, rot, clients[1..]);
    }
  }

  class RawInputDaemon {
    const slotActive: array<bool>
    var activeSlotCount: int
    var frameWidth: int
    var frameHeight: int
    var maps: nat
    const rotations: Rotations
    var events: seq<Event>   // what has been written to the touch device

    ghost predicate Valid()
      reads this
    {
      slotActive.Length == MAX_SLOTS
    }

    ghost function View(): (s: State)
      reads this, slotActive
      ensures |s.active| == slotActive.Length
    {
      State(slotActive[..], activeSlotCount, frameWidth, frameHeight, maps)
    }

    constructor (rotations: Rotations)
      ensures Valid() && View() == InitialState() && events == [] && this.rotations == rotations
      ensures fresh(slotActive)
    {
      slotActive := new bool[MAX_SLOTS](i => false);
      activeSlotCount, frameWidth, frameHeight, maps := 0, 0, 0, 0;
      this.rotations := rotations;
      events := [];
      new;
      assert slotActive[..] == Idle();
    }

    method Emit(e: Event)
      modifies this`events
      ensures events == old(events) + [e]
    {
      events := events + [e];
    }

    method MapFrame(x: int, y: int) returns (px: int, py: int)
      modifies this`maps
      ensures maps == old(maps) + 1
      ensures (px, py) == MapFrameToPanel(frameWidth, frameHeight, rotations(old(maps)), x, y)
    {
      var p := MapFrameToPanel(frameWidth, frameHeight, rotations(maps), x, y);
      maps := maps + 1;
      return p.0, p.1;
    }

    method HandleDown(slot: int, trackId: int, x: int, y: int)
      requires Valid()
      modifies this, slotActive
      ensures Valid() && View() == TouchDaemon.HandleDown(old(View()), rotations, slot, trackId, x, y).0
      ensures events == old(events) + TouchDaemon.HandleDown(old(View()), rotations, slot, trackId, x, y).1
    {
      hide MapFrameToPanel;
      if slot < 0 || slot >= MAX_SLOTS { return; }
      var px, py := MapFrame(x, y);
      if activeSlotCount == 0 { Emit(BtnTouch(1)); }
      if !slotActive[slot] {
        slotActive[slot] := true;
        activeSlotCount := activeSlotCount + 1;
      }
      Emit(MtSlot(slot));
      Emit(MtTrackingId(trackId));
      Emit(MtPositionX(px));
      Emit(MtPositionY(py));
      Emit(SynReport);
      assert slotActive[..] == old(slotActive[..])[slot := true];
    }

    method HandleMove(slot: int, x: int, y: int)
      requires Valid()
      modifies this
      ensures Valid() && View() == TouchDaemon.HandleMove(old(View()), rotations, slot, x, y).0
      ensures events == old(events) + TouchDaemon.HandleMove(old(View()), rotations, slot, x, y).1
    {
      hide MapFrameToPanel;
      if slot < 0 || slot >= MAX_SLOTS { return; }
      var px, py := MapFrame(x, y);
      Emit(MtSlot(slot));
      Emit(MtPositionX(px));
      Emit(MtPositionY(py));
      Emit(SynReport);
    }

    method HandleUp(slot: int)
      requires Valid()
      modifies this, slotActive
      ensures Valid() && View() == TouchDaemon.HandleUp(old(View()), slot).0
      ensures events == old(events) + TouchDaemon.HandleUp(old(View()), slot).1
    {
      if slot < 0 || slot >= MAX_SLOTS { return; }
      Emit(MtSlot(slot));
      Emit(MtTrackingId(-1));
      if slotActive[slot] {
        slotActive[slot] := false;
        if activeSlotCount > 0 { activeSlotCount := activeSlotCount - 1; }
      }
      if activeSlotCount == 0 { Emit(BtnTouch(0)); }
      Emit(SynReport);
      assert slotActive[..] == old(slotActive[..])[slot := false];
    }

    /** `handle_packet`: true when the client asks to quit. */
    method HandlePacket(pkt: array<byte>) returns (quit: bool)
      requires Valid() && pkt.Length == PKT_SIZE
      modifies this, slotActive
      ensures Valid() && View() == Handle(old(View()), rotations, Decode(old(pkt[..]))).0
      ensures events == old(events) + Handle(old(View()), rotations, Decode(old(pkt[..]))).1
      ensures quit <==> Decode(old(pkt[..])).Quit?
    {
      var cmd, slot := pkt[0], pkt[1];
      var a, b, c := PktI16(pkt[2], pkt[3]), PktI16(pkt[4], pkt[5]), PktI16(pkt[6], pkt[7]);
      if cmd == CMD_DOWN {
        HandleDown(slot, a, b, c);
      } else if cmd == CMD_MOVE {
        HandleMove(slot, a, b);
      } else if cmd == CMD_UP {
        HandleUp(slot);
      } else if cmd == CMD_FRAME {
        frameWidth, frameHeight := a, b;
      } else if cmd == CMD_QUIT {
        return true;
      }
      return false;
    }

    method ResetTouchState()
      requires Valid()
      modifies this, slotActive
      ensures Valid() && View() == TouchDaemon.ResetTouchState(old(View())).0
      ensures events == old(events) + TouchDaemon.ResetTouchState(old(View())).1
    {
      ghost var was := slotActive[..];
      var i := 0;
      while i < MAX_SLOTS
        invariant 0 <= i <= MAX_SLOTS
        invariant forall j :: 0 <= j < i ==> !slotActive[j]
        invariant slotActive[i..] == was[i..]
        invariant events + LiftEvents(was, i) == old(events) + LiftEvents(was, 0)
        invariant activeSlotCount == old(activeSlotCount) && maps == old(maps)
        invariant frameWidth == old(frameWidth) && frameHeight == old(frameHeight)
      {
        assert slotActive[i] == slotActive[i..][0] == was[i];
        ghost var es := events;
        if slotActive[i] {
          Emit(MtSlot(i));
          Emit(MtTrackingId(-1));
          slotActive[i] := false;
          assert es + LiftEvents(was, i) == events + LiftEvents(was, i + 1);
        }
        assert slotActive[i + 1..] == was[i + 1..];
        i := i + 1;
      }
      assert events == old(events) + LiftEvents(was, 0);
      if activeSlotCount > 0 { Emit(BtnTouch(0)); }
      activeSlotCount := 0;
      Emit(SynReport);
      assert slotActive[..] == Idle();
    }

    /** The client loop: exact reads of packets until QUIT or the end of the stream. */
    method ServeClient(sock: ClientSocket) returns (quit: bool)
      requires Valid()
      modifies this, slotActive, sock
      ensures Valid() && View() == Serve(old(View()), rotations, old(Stream(sock.incoming))).0
      ensures events == old(events) + Serve(old(View()), rotations, old(Stream(sock.incoming))).1
      ensures quit == Serve(old(View()), rotations, old(Stream(sock.incoming))).2
    {
      hide Serve, Handle, Decode, Stream;
      ghost var whole := Serve(View(), rotations, Stream(sock.incoming));
      quit := false;
      var pkt := new byte[PKT_SIZE];
      while !quit
        invariant Valid() && fresh(pkt)
        invariant !quit ==> var rest := Serve(View(), rotations, Stream(sock.incoming));
                            rest.0 == whole.0 && rest.2 == whole.2 && events + rest.1 == old(events) + whole.1
        invariant quit ==> View() == whole.0 && whole.2 && events == old(events) + whole.1
        decreases !quit, |Stream(sock.incoming)|
      {
        ghost var s, bytes, es := View(), Stream(sock.incoming), events;
        ServeStep(s, rotations, bytes);
        var ok := ReadExact(sock, pkt, PKT_SIZE);
        if !ok { break; }
        ghost var c := Decode(pkt[..]);
        quit := HandlePacket(pkt);
        if !quit {
          var rest := Serve(View(), rotations, Stream(sock.incoming));
          assert es + (Handle(s, rotations, c).1 + rest.1) == events + rest.1;
        }
      }
    }

    /** The accept loop over the clients that connect. */
    method RunAcceptLoop(clients: seq<seq<ReadEvent>>)
      requires Valid()
      modifies this, slotActive
      ensures Valid() && View() == Accept(old(View()), rotations, clients).0
      ensures events == old(events) + Accept(old(View()), rotations, clients).1
    {
      hide Serve, Accept, TouchDaemon.ResetTouchState, Stream;
      ghost var whole := Accept(View(), rotations, clients);
      assert clients[0..] == clients;
      var i := 0;
      while i < |clients|
        invariant 0 <= i <= |clients| && Valid()
        invariant var rest := Accept(View(), rotations, clients[i..]);
                  rest.0 == whole.0 && events + rest.1 == old(events) + whole.1
      {
        assert clients[i..][0] == clients[i] && clients[i..][1..] == clients[i + 1..];
        ghost var s, es := View(), events;
        AcceptStep(s, rotations, clients[i..]);
        ghost var a := Serve(s, rotations, Stream(clients[i]));
        ghost var b := TouchDaemon.ResetTouchState(a.0);
        Regroup(es, a.1, b.1, if a.2 then [] else Accept(b.0, rotations, clients[i + 1..]).1);
        var sock := new ClientSocket(clients[i]);
        var quit := ServeClient(sock);
        ResetTouchState();
        if quit { return; }
        i := i + 1;
      }
      AcceptNobody(View(), rotations);
      assert clients[i..] == [];
    }
  }
}
