/**
 `Demuxer` in its own form: the packet that is received, the pending packet that grows across calls, and the loop of
 `run`.  Tied to the functions of StreamDemux.dfy.
 */
module Demuxing {
  import opened Common
  import opened StreamWire
  import opened StreamDemux

  class AVPacket {
    var data: seq<byte>
    var pts: int
    var dts: int
    var key: bool

    constructor ()
      ensures data == [] && pts == NO_PTS && !key
    {
      data, pts, dts, key := [], NO_PTS, NO_PTS, false;
    }

    /** `av_new_packet`: the contents are filled in later. */
    method Reset()
      modifies this
      ensures data == [] && pts == NO_PTS && dts == NO_PTS && !key
    {
      data, pts, dts, key := [], NO_PTS, NO_PTS, false;
    }
  }

  class Demuxer {
    const limit: nat
    const keyOf: KeyOf
    var input: seq<byte>            // the rest of the stream
    var pending: AVPacket?
    var events: seq<Event>          // the signals emitted

    ghost function Pending(): Option<seq<byte>>
      reads this, pending
    {
      if pending == null then None else Some(pending.data)
    }

    constructor (limit: nat, keyOf: KeyOf, input: seq<byte>)
      ensures this.limit == limit && this.keyOf == keyOf && this.input == input && pending == null && events == []
    {
      this.limit, this.keyOf, this.input, pending, events := limit, keyOf, input, null, [];
    }

    /** A blocking read: short only at the end of the stream. */
    method RecvData(size: nat) returns (buf: seq<byte>)
      modifies this`input
      ensures buf + input == old(input) && |buf| == if size <= |old(input)| then size else |old(input)|
    {
      var n := if size <= |input| then size else |input|;
      buf := input[..n];
      input := input[n..];
    }

    method RecvPacket(packet: AVPacket) returns (ok: bool)
      requires packet.data == []
      modifies this`input, this`events, packet
      ensures var r := Receive(limit, old(input));
        && ok == !r.EndOfStream?
        && (ok ==> input == r.rest)
        && (r.NewSession? ==> packet.data == [] && events == old(events) + [SessionChanged(r.clientResized, r.width, r.height)])
        && (r.NewPacket? ==> packet.data == r.data && packet.pts == r.pts == packet.dts && packet.key == r.key)
        && (!r.NewSession? ==> events == old(events))
    {
      hide Read32, Read64;
      ghost var all := input;
      var header := RecvData(HEADER_SIZE);
      if |header| < HEADER_SIZE { return false; }
      assert all[HEADER_SIZE..] == input && header == all[..HEADER_SIZE];
      HeaderReads(all);
      var ptsFlags := Read64(header);
      if ptsFlags / TWO_63 % 2 == 1 {
        var w, h := Read32(header[4..]), Read32(header[8..]);
        if EmptySize(w, h) { return false; }
        events := events + [SessionChanged(header[3] % 2 == 1, w, h)];
        return true;
      }
      var len := Read32(header[8..]);
      if len > limit { return false; }
      packet.Reset();
      ghost var body := input;
      packet.data := RecvData(len);
      if |packet.data| < len {
        packet.Reset();
        return false;
      }
      assert body[..len] == packet.data && body[len..] == input;
      packet.pts := if ptsFlags / TWO_62 % 2 == 1 then NO_PTS else ptsFlags % TWO_61;
      if ptsFlags / TWO_61 % 2 == 1 { packet.key := true; }
      packet.dts := packet.pts;
      return true;
    }

    lemma HeaderReads(all: seq<byte>)
      requires |all| >= HEADER_SIZE
      ensures var header := all[..HEADER_SIZE];
        Read64(header) == Read64(all) && Read32(header[4..]) == Read32(all[4..]) && Read32(header[8..]) == Read32(all[8..])
    {
    }

    method PushPacket(received: AVPacket) returns (ok: bool)
      requires received != pending && (received.pts == NO_PTS || received.pts >= 0)
      modifies this`pending, this`events, received, pending
      ensures pending == null || pending == old(pending) || fresh(pending)
      ensures var p := Push(limit, keyOf, old(Pending()), old(received.pts), old(received.key), old(received.data));
        && ok == p.Some?
        && (ok ==> events == old(events) + [p.value.0] && Pending() == p.value.1)
        && (!ok ==> events == old(events))
    {
      assert [] + received.data == received.data;
      var packet := received;
      var isConfig := packet.pts == NO_PTS;
      if pending != null || isConfig {
        if pending != null {
          if |pending.data| + |packet.data| > limit { return false; }
        } else {
          pending := new AVPacket();
        }
        pending.data := pending.data + packet.data;
        if !isConfig {
          pending.pts, pending.dts, pending.key := packet.pts, packet.dts, packet.key;
          packet := pending;
        }
      }
      if isConfig {
        events := events + [ConfigFrame(packet.data)];
      } else {
        Parse(packet);
        pending := null;
      }
      return true;
    }

    /** The parser may mark a frame as a key frame; it never unmarks one. */
    method Parse(packet: AVPacket)
      requires packet.pts >= 0
      modifies this`events, packet
      ensures packet.data == old(packet.data) && packet.pts == old(packet.pts) && packet.key == (old(packet.key) || keyOf(packet.data))
      ensures events == old(events) + [Frame(packet.pts, packet.key, packet.data)]
    {
      if keyOf(packet.data) { packet.key := true; }
      packet.dts := packet.pts;
      events := events + [Frame(packet.pts, packet.key, packet.data)];
    }

    /** The whole thread. */
    method Run()
      requires pending == null
      modifies this`input, this`pending, this`events
      ensures events == old(events) + Demux(limit, keyOf, None, old(input)) && pending == null
    {
      hide Receive, Push, Demux;
      ghost var whole := events + Demux(limit, keyOf, None, input);
      var packet := new AVPacket();
      while true
        invariant fresh(packet) && packet.data == [] && packet != pending && (pending == null || fresh(pending))
        invariant events + Demux(limit, keyOf, Pending(), input) == whole
        decreases |input|
      {
        DemuxNext(limit, keyOf, Pending(), input);
        ghost var r, es := Receive(limit, input), events;
        var ok := RecvPacket(packet);
        if !ok { break; }
        if packet.data == [] { continue; }
        ghost var p := Push(limit, keyOf, Pending(), r.pts, r.key, r.data);
        ok := PushPacket(packet);
        packet.Reset();
        if !ok { break; }
        assert es + ([p.value.0] + Demux(limit, keyOf, p.value.1, r.rest)) == events + Demux(limit, keyOf, p.value.1, r.rest);
      }
      assert events == whole;
      pending := null;
    }
  }
}
