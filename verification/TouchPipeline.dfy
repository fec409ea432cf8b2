/**
 From the bytes the socket accepted back to commands: the daemon runs exactly the packets that were delivered.
 */
module TouchPipeline {
  import opened Common
  import opened TouchWire
  import opened TouchDaemon
  import opened TouchServer
  import opened TouchSender
  import TouchSession

  // ---- from bytes back to commands ----

  /** What the delivered packets mean to the daemon. */
  function Delivered(log: seq<Sent>): seq<Command>
    decreases |log|
  {
    if log == [] then []
    else
      var s := log[|log| - 1];
      Delivered(log[..|log| - 1]) + (if s.delivered then [Narrowed(s.pkt)] else [])
  }

  lemma {:induction false} DeliveredPush(log: seq<Sent>, s: Sent)
    ensures Delivered(log + [s]) == Delivered(log) + (if s.delivered then [Narrowed(s.pkt)] else [])
  {
    assert (log + [s])[..|log|] == log;
  }

  lemma Associative(a: seq<Event>, b: seq<Event>, c: seq<Event>)
    ensures a + b + c == a + (b + c)
  {
  }

  lemma {:induction false} RunAppend(s: State, rot: Rotations, a: seq<Command>, b: seq<Command>)
    requires |s.active| == MAX_SLOTS
    ensures var r1 := Run(s, rot, a);
      && |r1.0.active| == MAX_SLOTS
      && var r2 := Run(r1.0, rot, b);
      && Run(s, rot, a + b) == (r2.0, r1.1 + r2.1)
    decreases |a|
  {
    hide Handle;
    if a == [] {
      assert a + b == b;
      assert [] + Run(s, rot, b).1 == Run(s, rot, b).1;
    } else {
      assert (a + b)[0] == a[0] && (a + b)[1..] == a[1..] + b;
      HandleKeepsShape(s, rot, a[0]);
      RunAppend(Handle(s, rot, a[0]).0, rot, a[1..], b);
      var h := Handle(s, rot, a[0]);
      var rest := Run(h.0, rot, a[1..]);
      Associative(h.1, rest.1, Run(rest.0, rot, b).1);
    }
  }

  lemma {:induction false} RunOne(s: State, rot: Rotations, c: Command)
    requires |s.active| == MAX_SLOTS
    ensures Run(s, rot, [c]) == Handle(s, rot, c)
  {
    hide Handle;
    HandleKeepsShape(s, rot, c);
    var h := Handle(s, rot, c);
    assert Run(h.0, rot, []) == (h.0, []);
    assert [c][1..] == [];
    assert h.1 + [] == h.1;
  }

  /** A whole number of packets, none of them QUIT. */
  predicate Whole(bytes: seq<byte>)
    decreases |bytes|
  {
    bytes == [] || (|bytes| >= PKT_SIZE && !Decode(bytes[..PKT_SIZE]).Quit? && Whole(bytes[PKT_SIZE..]))
  }

  /** Serving more bytes after a whole number of packets. */
  lemma {:induction false} ServeAppend(s: State, rot: Rotations, a: seq<byte>, b: seq<byte>)
    requires |s.active| == MAX_SLOTS && Whole(a)
    ensures var r1 := Serve(s, rot, a);
      && |r1.0.active| == MAX_SLOTS && !r1.2
      && var r2 := Serve(r1.0, rot, b);
      && Serve(s, rot, a + b) == (r2.0, r1.1 + r2.1, r2.2)
    decreases |a|
  {
    hide Handle, Decode;
    if a == [] {
      assert a + b == b;
      assert [] + Serve(s, rot, b).1 == Serve(s, rot, b).1;
    } else {
      assert (a + b)[..PKT_SIZE] == a[..PKT_SIZE] && (a + b)[PKT_SIZE..] == a[PKT_SIZE..] + b;
      ServeStep(s, rot, a);
      ServeStep(s, rot, a + b);
      var h := Handle(s, rot, Decode(a[..PKT_SIZE]));
      ServeAppend(h.0, rot, a[PKT_SIZE..], b);
      var rest := Serve(h.0, rot, a[PKT_SIZE..]);
      Associative(h.1, rest.1, Serve(rest.0, rot, b).1);
    }
  }

  lemma {:induction false} WholeAppend(a: seq<byte>, b: seq<byte>)
    requires Whole(a) && Whole(b)
    ensures Whole(a + b)
    decreases |a|
  {
    hide Decode;
    if a == [] {
      assert a + b == b;
    } else {
      assert (a + b)[..PKT_SIZE] == a[..PKT_SIZE] && (a + b)[PKT_SIZE..] == a[PKT_SIZE..] + b;
      WholeAppend(a[PKT_SIZE..], b);
    }
  }

  lemma {:induction false} ServeOne(s: State, rot: Rotations, p: Packet)
    requires |s.active| == MAX_SLOTS && !p.QuitPkt?
    ensures Whole(Encode(p))
    ensures Serve(s, rot, Encode(p)) == (Run(s, rot, [Narrowed(p)]).0, Run(s, rot, [Narrowed(p)]).1, false)
  {
    hide Handle, Run, Decode, Encode;
    DecodeEncode(p);
    RunOne(s, rot, Narrowed(p));
    HandleKeepsShape(s, rot, Narrowed(p));
    var bytes := Encode(p);
    assert bytes[..PKT_SIZE] == bytes && bytes[PKT_SIZE..] == [];
    var h := Handle(s, rot, Narrowed(p));
    assert Serve(h.0, rot, []) == (h.0, [], false);
    ServeStep(s, rot, bytes);
    assert h.1 + [] == h.1;
  }

  /** The daemon, fed the bytes the socket accepted, runs exactly the delivered packets. */
  lemma {:induction false} ServeIsRun(s: State, rot: Rotations, log: seq<Sent>)
    requires |s.active| == MAX_SLOTS && forall i :: 0 <= i < |log| ==> !log[i].pkt.QuitPkt?
    ensures var r := Run(s, rot, Delivered(log));
      Serve(s, rot, TouchSession.WireBytes(log)) == (r.0, r.1, false)
    ensures Whole(TouchSession.WireBytes(log))
    decreases |log|
  {
    hide Run, Serve, Whole, Encode, Narrowed;
    if log == [] {
      ServeNothing(s, rot);
    } else {
      var past, last := log[..|log| - 1], log[|log| - 1];
      ServeIsRun(s, rot, past);
      var bytes := TouchSession.WireBytes(past);
      if last.delivered {
        ServeAppend(s, rot, bytes, Encode(last.pkt));
        ServeOne(Serve(s, rot, bytes).0, rot, last.pkt);
        WholeAppend(bytes, Encode(last.pkt));
        RunAppend(s, rot, Delivered(past), [Narrowed(last.pkt)]);
      } else {
        assert bytes + [] == bytes && Delivered(past) + [] == Delivered(past);
      }
    }
  }

  lemma {:induction false} ServeNothing(s: State, rot: Rotations)
    requires |s.active| == MAX_SLOTS
    ensures Serve(s, rot, []) == (s, [], false) && Run(s, rot, []) == (s, []) && Whole([])
  {
  }
}
