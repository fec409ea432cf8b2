/**
 `Recorder` in its own form: the queue between the stream thread and the recorder thread, the packet held back, and the
 loop of `run`.  The stream thread pushes and finally stops the recorder at any points an arbitrary schedule dictates.
 */
module Recorders {
  import opened Common
  import opened StreamWire
  import opened Recording

  class Recorder {
    const mux: Muxer
    var queue: seq<Packet>
    var stopped: bool
    var failed: bool
    var previous: Option<Packet>
    var headerWritten: bool
    var extradata: seq<byte>
    var frames: seq<Packet>
    var calls: nat

    ghost function Contents(): File
      reads this
    {
      File(if headerWritten then Some(extradata) else None, frames, calls)
    }

    constructor (mux: Muxer)
      ensures this.mux == mux && queue == [] && !stopped && !failed && previous == None && Contents() == File(None, [], 0)
    {
      this.mux := mux;
      queue, stopped, failed, previous, headerWritten, extradata, frames, calls := [], false, false, None, false, [], [], 0;
    }

    method Push(p: Packet) returns (ok: bool)
      requires !stopped
      modifies this`queue
      ensures ok == !failed && queue == if ok then old(queue) + [p] else old(queue)
    {
      if failed { return false; }
      queue := queue + [p];
      return true;
    }

    method StopRecorder()
      modifies this`stopped
      ensures stopped
    {
      stopped := true;
    }

    method WritePacket(p: Packet) returns (ok: bool)
      modifies this`headerWritten, this`extradata, this`frames, this`calls
      ensures (Contents(), ok) == Write(mux, old(Contents()), p)
    {
      if !headerWritten {
        if p.pts != NO_PTS { return false; }
        ok := mux(calls);
        calls := calls + 1;
        if !ok { return false; }
        extradata, headerWritten := p.data, true;
        return true;
      }
      if p.pts == NO_PTS { return true; }
      ok := mux(calls);
      calls := calls + 1;
      if ok { frames := frames + [p]; }
    }

    /** One turn of the stream thread: it pushes its next packet, or stops the recorder after the last. */
    method StreamTurn(rest: seq<Packet>) returns (left: seq<Packet>)
      requires !failed && (stopped ==> rest == [])
      modifies this`queue, this`stopped
      ensures queue + left == old(queue) + rest && (stopped ==> left == [])
      ensures rest != [] ==> |left| < |rest| && queue != []
      ensures rest == [] ==> stopped
    {
      if rest == [] {
        StopRecorder();
        return [];
      }
      var ok := Push(rest[0]);
      return rest[1..];
    }

    /** The packet held back, now that the next one is known. */
    method WritePrevious(before: Packet, rec: Packet, ptsOrigin: int) returns (origin: int, ok: bool)
      modifies this`headerWritten, this`extradata, this`frames, this`calls
      ensures var t := Iterate(mux, Loop(Some(before), ptsOrigin, old(Contents()), false), rec);
        t == Loop(Some(rec), origin, Contents(), !ok)
    {
      var p := before;
      if rec.pts != NO_PTS && p.pts != NO_PTS {
        p := p.(duration := ToInt64(rec.pts - p.pts));
      }
      origin := ptsOrigin;
      if p.pts != NO_PTS {
        if origin == NO_PTS { origin := p.pts; }
        p := p.(pts := ToInt64(p.pts - origin), dts := ToInt64(p.pts - origin));
      }
      ok := WritePacket(p);
    }

    /** The last packet; a failure is only logged. */
    method WriteLast(held: Packet, ptsOrigin: int)
      modifies this`headerWritten, this`extradata, this`frames, this`calls
      ensures Contents() == Finish(mux, Loop(Some(held), ptsOrigin, old(Contents()), false))
    {
      var last := held;
      last := last.(pts := ToInt64(last.pts - ptsOrigin));
      last := last.(dts := last.pts, duration := LAST_DURATION);
      var ok := WritePacket(last);
    }

    /** The recorder thread, while the stream thread pushes `packets`. */
    method Run(packets: seq<Packet>, schedule: nat -> nat)
      requires queue == [] && !stopped && !failed && previous == None && Contents() == File(None, [], 0)
      modifies this
      ensures Contents() == Record(mux, packets)
      ensures failed == Consume(mux, Begin(), packets).failed
    {
      hide Record, Consume, Finish, Iterate, Write, Rebased, Timed;
      var ptsOrigin := NO_PTS;
      var rest, turns := packets, 0;
      ghost var end := Consume(mux, Begin(), packets);
      assert [] + packets == packets;
      while true
        invariant !failed && (stopped ==> rest == [])
        invariant Consume(mux, Loop(previous, ptsOrigin, Contents(), false), queue + rest) == end
        decreases |queue| + |rest|
      {
        ghost var all := queue + rest;
        var n := schedule(turns);
        turns := turns + 1;
        while n > 0 || (!stopped && queue == [])
          invariant !failed && (stopped ==> rest == []) && queue + rest == all
          invariant Consume(mux, Loop(previous, ptsOrigin, Contents(), false), all) == end
          decreases n, |rest|, !stopped
        {
          rest := StreamTurn(rest);
          if n > 0 { n := n - 1; }
        }
        ghost var s := Loop(previous, ptsOrigin, Contents(), false);
        if stopped && queue == [] {
          assert all == [];
          ConsumeNothing(mux, s);
          FinishNothing(mux, s.(previous := None));
          if previous.Some? {
            WriteLast(previous.value, ptsOrigin);
          }
          RecordIsFinish(mux, packets);
          break;
        }
        var rec := queue[0];
        queue := queue[1..];
        ConsumeNext(mux, s, all);
        assert all[1..] == queue + rest && all[0] == rec;
        var before := previous;
        previous := Some(rec);
        if before.None? {
          IterateFirst(mux, s, rec);
          continue;
        }
        var ok;
        ptsOrigin, ok := WritePrevious(before.value, rec, ptsOrigin);
        if !ok {
          failed, queue := true, [];
          ConsumeFailed(mux, Iterate(mux, s, rec), all[1..]);
          RecordIsFinish(mux, packets);
          break;
        }
      }
    }
  }

  // ---- the loop of the specification, one step at a time ----

  lemma {:induction false} ConsumeNothing(mux: Muxer, s: Loop)
    ensures Consume(mux, s, []) == s
  {
  }

  lemma {:induction false} ConsumeNext(mux: Muxer, s: Loop, ps: seq<Packet>)
    requires ps != [] && !s.failed
    ensures Consume(mux, s, ps) == Consume(mux, Iterate(mux, s, ps[0]), ps[1..])
  {
  }

  lemma {:induction false} ConsumeFailed(mux: Muxer, s: Loop, ps: seq<Packet>)
    requires s.failed
    ensures Consume(mux, s, ps) == s && Finish(mux, s) == s.file
  {
  }

  lemma FinishNothing(mux: Muxer, s: Loop)
    requires s.previous.None?
    ensures Finish(mux, s) == s.file
  {
  }

  lemma {:induction false} RecordIsFinish(mux: Muxer, ps: seq<Packet>)
    ensures Record(mux, ps) == Finish(mux, Consume(mux, Begin(), ps))
  {
  }

  lemma IterateFirst(mux: Muxer, s: Loop, next: Packet)
    requires s.previous.None?
    ensures Iterate(mux, s, next) == s.(previous := Some(next))
  {
  }
}
