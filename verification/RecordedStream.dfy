/**
 Demuxer and recorder connected, as `Device` connects them: which streams end up in a right recording and what is then
 in the file, said from the items that the server sends.
 */
module RecordedStream {
  import opened Common
  import opened StreamWire
  import opened StreamDemux
  import opened Recording

  /** What the recorder is pushed for a signal. */
  function PacketOf(e: Event): seq<Packet> {
    match e
    case SessionChanged(_, _, _) => []
    case ConfigFrame(data) => [Packet(data, NO_PTS, NO_PTS, 0, false)]
    case Frame(pts, key, data) => [Packet(data, pts, pts, 0, key)]
  }

  function PacketsOf(events: seq<Event>): seq<Packet> {
    if events == [] then [] else PacketOf(events[0]) + PacketsOf(events[1..])
  }

  // ---- what should be in the file, from the items ----

  /** The items that are recorded: all but the sessions. */
  function Kept(items: seq<Item>): seq<Item> {
    if items == [] then [] else (if items[0].Session? then [] else [items[0]]) + Kept(items[1..])
  }

  function FrameCount(kept: seq<Item>): nat {
    if kept == [] then 0 else (if kept[0].Media? then 1 else 0) + FrameCount(kept[1..])
  }

  function FirstTime(kept: seq<Item>): int {
    if kept == [] then NO_PTS else if kept[0].Media? then kept[0].pts else FirstTime(kept[1..])
  }

  function FirstHeader(kept: seq<Item>): Option<seq<byte>> {
    if kept == [] then None else if kept[0].Config? then Some(kept[0].data) else FirstHeader(kept[1..])
  }

  /**
   One frame for each data packet, with the config bytes since the one before in front of its own, timed from the origin;
   it lasts until the next data packet, or 100000 at the end, or 0 when a config packet follows.
   */
  function Frames(keyOf: KeyOf, pending: seq<byte>, kept: seq<Item>, origin: int): seq<Packet>
    decreases |kept|
  {
    if kept == [] then []
    else match kept[0]
      case Session(_, _, _) => Frames(keyOf, pending, kept[1..], origin)
      case Config(data) => Frames(keyOf, pending + data, kept[1..], origin)
      case Media(pts, key, data) =>
        var lasting := if |kept| == 1 then 100000 else if kept[1].Media? then kept[1].pts - pts else 0;
        [Packet(pending + data, pts - origin, pts - origin, lasting, key || keyOf(pending + data))]
        + Frames(keyOf, [], kept[1..], origin)
  }

  /** The bytes of the first config packet as header, and every data packet as a frame. */
  predicate HoldsStream(f: File, keyOf: KeyOf, items: seq<Item>) {
    var kept := Kept(items);
    && f.header.Some? && f.header == FirstHeader(kept)
    && f.frames == Frames(keyOf, [], kept, FirstTime(kept))
  }

  /** How a stream must start and end, and what the muxer must accept, to be recorded right. */
  ghost predicate RightStream(mux: Muxer, items: seq<Item>) {
    var kept := Kept(items);
    && |kept| >= 2 && kept[0].Config?
    && (forall n: nat :: n <= FrameCount(kept) ==> mux(n))
    && if kept[|kept| - 1].Media? then FrameCount(kept) >= 2
       else (FrameCount(kept) >= 1 && FirstTime(kept) == 0) || !mux(FrameCount(kept) + 1)
  }

  // ---- packets and items agree ----

  predicate Same(p: Packet, i: Item) {
    match i
    case Session(_, _, _) => false
    case Config(data) => !IsMedia(p) && p.data == data && p.duration == 0
    case Media(pts, _, _) => p.pts == pts && p.duration == 0
  }

  predicate AllSame(ps: seq<Packet>, kept: seq<Item>) { |ps| == |kept| && forall i :: 0 <= i < |ps| ==> Same(ps[i], kept[i]) }

  lemma {:induction false} SameCounts(ps: seq<Packet>, kept: seq<Item>)
    requires AllSame(ps, kept)
    ensures MediaCount(ps) == FrameCount(kept) && FirstPts(ps) == FirstTime(kept) && FirstConfig(ps) == FirstHeader(kept)
  {
    if ps == [] {
    } else {
      assert Same(ps[0], kept[0]);
      SameCounts(ps[1..], kept[1..]);
    }
  }

  lemma {:induction false} SameRight(mux: Muxer, ps: seq<Packet>, items: seq<Item>)
    requires AllSame(ps, Kept(items))
    ensures RightWith(mux, ps) <==> RightStream(mux, items)
  {
    hide MediaCount, FirstPts, FirstConfig, FrameCount, FirstTime, FirstHeader, Kept;
    SameCounts(ps, Kept(items));
    if ps != [] {
      var last := |ps| - 1;
      assert Same(ps[0], Kept(items)[0]) && Same(ps[last], Kept(items)[last]);
    }
  }

  /** The packets pushed for the items of a stream, and the frames they should become. */
  predicate Carried(keyOf: KeyOf, pending: Option<seq<byte>>, ps: seq<Packet>, kept: seq<Item>, origin: int) {
    AllSame(ps, kept) && AllValid(ps) && Expected(ps, origin) == Frames(keyOf, Held(pending), kept, origin)
  }

  lemma NothingCarried(keyOf: KeyOf, pending: Option<seq<byte>>, origin: int)
    ensures Carried(keyOf, pending, PacketsOf([]), Kept([]), origin)
  {
  }

  lemma {:induction false} PacketsNext(e: Event, events: seq<Event>)
    ensures PacketsOf([e] + events) == PacketOf(e) + PacketsOf(events)
  {
    assert ([e] + events)[1..] == events;
  }

  lemma {:induction false} ConfigCarried(keyOf: KeyOf, pending: Option<seq<byte>>, data: seq<byte>, ps: seq<Packet>, kept: seq<Item>, origin: int)
    requires Carried(keyOf, Some(Held(pending) + data), ps, kept, origin)
    ensures Carried(keyOf, pending, PacketOf(ConfigFrame(data)) + ps, [Config(data)] + kept, origin)
  {
    var all := PacketOf(ConfigFrame(data)) + ps;
    assert all[1..] == ps && ([Config(data)] + kept)[1..] == kept;
    assert [] + Expected(ps, origin) == Expected(ps, origin);
  }

  lemma {:induction false} MediaCarried(keyOf: KeyOf, pending: Option<seq<byte>>, i: Item, ps: seq<Packet>, kept: seq<Item>, origin: int, limit: nat)
    requires i.Media? && ItemOk(i, limit) && Carried(keyOf, None, ps, kept, origin)
    ensures var all := Held(pending) + i.data;
      Carried(keyOf, pending, PacketOf(Frame(i.pts, i.key || keyOf(all), all)) + ps, [i] + kept, origin)
  {
    var all := Held(pending) + i.data;
    var p := Packet(all, i.pts, i.pts, 0, i.key || keyOf(all));
    var (more, items) := ([p] + ps, [i] + kept);
    assert more[1..] == ps && items[1..] == kept;
    if ps != [] { assert Same(ps[0], kept[0]) && more[1] == ps[0] && items[1] == kept[0]; }
    assert Expected(more, origin)[0] == Frames(keyOf, Held(pending), items, origin)[0];
  }

  lemma {:induction false} SignalsCarried(keyOf: KeyOf, pending: Option<seq<byte>>, items: seq<Item>, origin: int, limit: nat)
    requires AllOk(items, limit)
    ensures Carried(keyOf, pending, PacketsOf(Signals(keyOf, pending, items)), Kept(items), origin)
    decreases |items|
  {
    hide PacketsOf, Carried;
    if items == [] {
      NothingCarried(keyOf, pending, origin);
    } else {
      var i, more := items[0], items[1..];
      match i
      case Session(resized, w, h) =>
        SignalsCarried(keyOf, pending, more, origin, limit);
        PacketsNext(SessionChanged(resized, w, h), Signals(keyOf, pending, more));
        assert [] + Kept(more) == Kept(more) && PacketOf(SessionChanged(resized, w, h)) == [];
        assert [] + PacketsOf(Signals(keyOf, pending, more)) == PacketsOf(Signals(keyOf, pending, more));
      case Config(data) =>
        var left := Some(Held(pending) + data);
        SignalsCarried(keyOf, left, more, origin, limit);
        PacketsNext(ConfigFrame(data), Signals(keyOf, left, more));
        ConfigCarried(keyOf, pending, data, PacketsOf(Signals(keyOf, left, more)), Kept(more), origin);
      case Media(pts, key, data) =>
        var all := Held(pending) + data;
        SignalsCarried(keyOf, None, more, origin, limit);
        PacketsNext(Frame(pts, key || keyOf(all), all), Signals(keyOf, None, more));
        MediaCarried(keyOf, pending, i, PacketsOf(Signals(keyOf, None, more)), Kept(more), origin, limit);
    }
  }

  /** What a right file is, for the packets and for the items. */
  lemma {:induction false} FaithfulHolds(f: File, keyOf: KeyOf, ps: seq<Packet>, items: seq<Item>)
    requires Carried(keyOf, None, ps, Kept(items), FirstTime(Kept(items)))
    ensures Faithful(f, ps) <==> HoldsStream(f, keyOf, items)
  {
    hide Expected, Frames, MediaCount, FrameCount, FirstTime, FirstPts, FirstConfig, FirstHeader, Kept;
    SameCounts(ps, Kept(items));
  }

  /**
   From the bytes of the stream to the file, for every muxer: the file holds the stream exactly when the items, sessions
   aside, start and end well and the muxer accepts what it must.
   */
  lemma {:induction false} StreamRecordedIff(limit: nat, keyOf: KeyOf, mux: Muxer, items: seq<Item>, tail: seq<byte>)
    requires limit < TWO_31 && AllOk(items, limit) && Fits(limit, None, items)
    requires Receive(limit, tail).EndOfStream?
    ensures var f := Record(mux, PacketsOf(Demux(limit, keyOf, None, EncodeAll(items, limit) + tail)));
      HoldsStream(f, keyOf, items) <==> RightStream(mux, items)
  {
    hide Receive, Demux, Signals, Record, Faithful, EncodeAll, RightWith, PacketsOf, Kept, FrameCount, FirstTime, FirstHeader, Frames, Expected;
    StreamRoundTrip(limit, keyOf, items, tail);
    var ps, kept := PacketsOf(Signals(keyOf, None, items)), Kept(items);
    SignalsCarried(keyOf, None, items, FirstTime(kept), limit);
    RecordingFaithfulIff(mux, ps);
    SameRight(mux, ps, items);
    FaithfulHolds(Record(mux, ps), keyOf, ps, items);
  }
}
