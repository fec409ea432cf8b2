/**
 What of a client's bytes counts, and which clients are served: the packets before the first QUIT, and the clients before
 the first that sends one.
 */
module TouchClients {
  import opened Common
  import opened TouchWire
  import opened TouchDaemon
  import opened TouchServer
  import opened TouchPipeline

  /** One of the stream's whole packets of eight bytes is a QUIT. */
  ghost predicate Quits(bytes: seq<byte>) { exists k: nat :: 8 * k + 8 <= |bytes| && bytes[8 * k] == 0xFF }

  lemma QuitsNext(bytes: seq<byte>)
    requires |bytes| >= 8
    ensures Quits(bytes) <==> bytes[0] == 0xFF || Quits(bytes[8..])
  {
    var rest := bytes[8..];
    if k: nat :| 8 * k + 8 <= |bytes| && bytes[8 * k] == 0xFF {
      if k > 0 { assert rest[8 * (k - 1)] == 0xFF; }
    }
    if bytes[0] == 0xFF { assert bytes[8 * 0] == 0xFF; }
    if k: nat :| 8 * k + 8 <= |rest| && rest[8 * k] == 0xFF { assert bytes[8 * (k + 1)] == 0xFF; }
  }

  lemma QuitByte(pkt: seq<byte>)
    requires |pkt| == 8
    ensures Decode(pkt).Quit? <==> pkt[0] == 0xFF
  {
  }

  /** A client ends by quitting exactly when one of its packets is a QUIT. */
  lemma {:induction false} ServeQuitsIff(s: State, rot: Rotations, bytes: seq<byte>)
    requires |s.active| == MAX_SLOTS
    ensures Serve(s, rot, bytes).2 <==> Quits(bytes)
    decreases |bytes|
  {
    hide Handle, Decode, Serve, Quits;
    ServeStep(s, rot, bytes);
    if |bytes| < 8 {
      assert !Quits(bytes) by { TooShort(bytes); }
    } else {
      QuitsNext(bytes);
      QuitByte(bytes[..8]);
      if bytes[0] != 0xFF { ServeQuitsIff(Handle(s, rot, Decode(bytes[..8])).0, rot, bytes[8..]); }
    }
  }

  lemma TooShort(bytes: seq<byte>)
    requires |bytes| < 8
    ensures !Quits(bytes)
  {
  }

  /** Whatever follows a QUIT changes nothing, and neither does a packet cut short at the end. */
  lemma {:induction false} QuitEnds(s: State, rot: Rotations, a: seq<byte>, b: seq<byte>)
    requires |s.active| == MAX_SLOTS && Whole(a) && (|b| < 8 || b[0] == 0xFF)
    ensures var r := Serve(s, rot, a); Serve(s, rot, a + b) == (r.0, r.1, |b| >= 8)
  {
    hide Handle, Decode, Serve, Whole;
    ServeAppend(s, rot, a, b);
    var r := Serve(s, rot, a);
    ServeStep(r.0, rot, b);
    if |b| >= 8 { QuitByte(b[..8]); }
    assert r.1 + [] == r.1;
  }

  /** As long as no client quits they are served one after another, each from the state the last one left after its reset. */
  lemma {:induction false} AcceptAppend(s: State, rot: Rotations, a: seq<seq<ReadEvent>>, b: seq<seq<ReadEvent>>)
    requires |s.active| == MAX_SLOTS && forall i :: 0 <= i < |a| ==> !Quits(Stream(a[i]))
    ensures var r := Accept(s, rot, a);
      && |r.0.active| == MAX_SLOTS
      && Accept(s, rot, a + b) == (Accept(r.0, rot, b).0, r.1 + Accept(r.0, rot, b).1)
    decreases |a|
  {
    hide Serve, Accept, ResetTouchState, Quits;
    if a == [] {
      AcceptNobody(s, rot);
      assert a + b == b;
      assert [] + Accept(s, rot, b).1 == Accept(s, rot, b).1;
    } else {
      assert (a + b)[0] == a[0] && (a + b)[1..] == a[1..] + b;
      AcceptStep(s, rot, a);
      AcceptStep(s, rot, a + b);
      ServeQuitsIff(s, rot, Stream(a[0]));
      var x := Serve(s, rot, Stream(a[0]));
      var y := ResetTouchState(x.0);
      AcceptAppend(y.0, rot, a[1..], b);
      var r := Accept(y.0, rot, a[1..]);
      Associative(x.1 + y.1, r.1, Accept(r.0, rot, b).1);
    }
  }

  /** One client: it is served and the touches are reset; if it quits, nobody is served after it. */
  lemma {:induction false} AcceptFirst(s: State, rot: Rotations, client: seq<ReadEvent>, more: seq<seq<ReadEvent>>)
    requires |s.active| == MAX_SLOTS && (more == [] || Quits(Stream(client)))
    ensures var x := Serve(s, rot, Stream(client));
      && |x.0.active| == MAX_SLOTS
      && Accept(s, rot, [client] + more) == (ResetTouchState(x.0).0, x.1 + ResetTouchState(x.0).1)
  {
    hide Serve, Accept, ResetTouchState, Quits;
    var all := [client] + more;
    assert all[0] == client && all[1..] == more;
    AcceptStep(s, rot, all);
    ServeQuitsIff(s, rot, Stream(client));
    var y := ResetTouchState(Serve(s, rot, Stream(client)).0);
    if more == [] { AcceptNobody(y.0, rot); }
    assert Serve(s, rot, Stream(client)).1 + y.1 + [] == Serve(s, rot, Stream(client)).1 + y.1;
  }
}
