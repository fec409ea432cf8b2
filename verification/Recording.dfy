/**
 The recorder's loop as functions: packets are written one behind, so that the duration of each is known, and
 timestamps are counted from the first data packet.  The main result says exactly which recordings come out right.
 */
module Recording {
  import opened Common
  import opened StreamWire

  /** A packet as the recorder sees it; config packets carry `NO_PTS`. */
  datatype Packet = Packet(data: seq<byte>, pts: int, dts: int, duration: int, key: bool)

  predicate IsMedia(p: Packet) { p.pts != NO_PTS }

  /** What the demuxer delivers. */
  predicate ValidPacket(p: Packet) { IsMedia(p) ==> 0 <= p.pts < TWO_61 }

  /** The wrap-around of `qint64`. */
  function ToInt64(v: int): int {
    var u := v % TWO_64;
    if u >= TWO_63 then u - TWO_64 else u
  }

  /** Whether the muxer accepts its n-th call. */
  type Muxer = nat -> bool

  datatype File = File(header: Option<seq<byte>>, frames: seq<Packet>, calls: nat)

  const LAST_DURATION := 100000

  /** `write`: the file and whether it went well. */
  function Write(mux: Muxer, f: File, p: Packet): (File, bool) {
    if f.header.None? then
      if IsMedia(p) then (f, false)
      else if mux(f.calls) then (f.(header := Some(p.data), calls := f.calls + 1), true)
      else (f.(calls := f.calls + 1), false)
    else if !IsMedia(p) then (f, true)
    else if mux(f.calls) then (f.(frames := f.frames + [p], calls := f.calls + 1), true)
    else (f.(calls := f.calls + 1), false)
  }

  /** The variables of `run`. */
  datatype Loop = Loop(previous: Option<Packet>, origin: int, file: File, failed: bool)

  function Begin(): Loop { Loop(None, NO_PTS, File(None, [], 0), false) }

  /** The previous packet, once the next one is known. */
  function Timed(previous: Packet, next: Packet): Packet {
    if IsMedia(next) && IsMedia(previous) then previous.(duration := ToInt64(next.pts - previous.pts)) else previous
  }

  function Rebased(p: Packet, origin: int): Packet { p.(pts := ToInt64(p.pts - origin), dts := ToInt64(p.pts - origin)) }

  function NewOrigin(origin: int, previous: Packet): int { if IsMedia(previous) && origin == NO_PTS then previous.pts else origin }

  function Iterate(mux: Muxer, s: Loop, next: Packet): Loop {
    if s.previous.None? then s.(previous := Some(next))
    else
      var timed := Timed(s.previous.value, next);
      var origin := NewOrigin(s.origin, timed);
      var (file, ok) := Write(mux, s.file, if IsMedia(timed) then Rebased(timed, origin) else timed);
      Loop(Some(next), origin, file, !ok)
  }

  function Consume(mux: Muxer, s: Loop, ps: seq<Packet>): Loop
    decreases |ps|
  {
    if ps == [] || s.failed then s else Consume(mux, Iterate(mux, s, ps[0]), ps[1..])
  }

  /** The end of the recording: the last packet, config or not, is rebased and written. */
  function Finish(mux: Muxer, s: Loop): File {
    if s.failed || s.previous.None? then s.file
    else Write(mux, s.file, Rebased(s.previous.value, s.origin).(duration := LAST_DURATION)).0
  }

  function Record(mux: Muxer, ps: seq<Packet>): File { Finish(mux, Consume(mux, Begin(), ps)) }

  // ---- what should be in the file ----

  function MediaCount(ps: seq<Packet>): nat {
    if ps == [] then 0 else (if IsMedia(ps[0]) then 1 else 0) + MediaCount(ps[1..])
  }

  function FirstPts(ps: seq<Packet>): int {
    if ps == [] then NO_PTS else if IsMedia(ps[0]) then ps[0].pts else FirstPts(ps[1..])
  }

  function FirstConfig(ps: seq<Packet>): Option<seq<byte>> {
    if ps == [] then None else if !IsMedia(ps[0]) then Some(ps[0].data) else FirstConfig(ps[1..])
  }

  /** A data packet counted from the origin, lasting until the next one if that follows directly. */
  function Shot(p: Packet, origin: int, duration: int): Packet { Packet(p.data, p.pts - origin, p.pts - origin, duration, p.key) }

  function Expected(ps: seq<Packet>, origin: int): seq<Packet> {
    if ps == [] then []
    else
      var p := ps[0];
      var duration := if |ps| == 1 then 100000 else if IsMedia(ps[1]) then ps[1].pts - p.pts else p.duration;
      (if IsMedia(p) then [Shot(p, origin, duration)] else []) + Expected(ps[1..], origin)
  }

  /** The first config packet is the header, and every data packet is there, in order, at its time. */
  predicate Faithful(f: File, ps: seq<Packet>) {
    f.header.Some? && f.header == FirstConfig(ps) && f.frames == Expected(ps, FirstPts(ps))
  }

  /** What can be seen of a recording beforehand: how it starts and how it ends. */
  predicate Recordable(ps: seq<Packet>) {
    && ps != [] && !IsMedia(ps[0])
    && if IsMedia(ps[|ps| - 1]) then MediaCount(ps) >= 2 else MediaCount(ps) >= 1 && FirstPts(ps) == 0
  }

  // ---- the loop, one behind ----

  predicate AllValid(ps: seq<Packet>) { forall i :: 0 <= i < |ps| ==> ValidPacket(ps[i]) }

  ghost predicate AcceptsAll(mux: Muxer) { forall n: nat :: mux(n) }

  /** The frames of all packets but the last. */
  function Body(ps: seq<Packet>, origin: int): seq<Packet> {
    if |ps| <= 1 then []
    else (if IsMedia(ps[0]) then [Shot(ps[0], origin, if IsMedia(ps[1]) then ps[1].pts - ps[0].pts else ps[0].duration)] else [])
         + Body(ps[1..], origin)
  }

  lemma {:induction false} ExpectedSplit(ps: seq<Packet>, origin: int)
    requires ps != []
    ensures var last := ps[|ps| - 1];
      Expected(ps, origin) == Body(ps, origin) + if IsMedia(last) then [Shot(last, origin, 100000)] else []
  {
    if |ps| > 1 {
      ExpectedSplit(ps[1..], origin);
    } else {
      assert ps[1..] == [];
    }
  }

  lemma SmallInt64(v: int)
    requires -TWO_63 <= v < TWO_63
    ensures ToInt64(v) == v
  {
  }

  /** One iteration writes the previous packet as it should be. */
  lemma IterateWrites(mux: Muxer, s: Loop, next: Packet)
    requires AcceptsAll(mux) && !s.failed && s.previous.Some? && s.file.header.Some?
    requires ValidPacket(next) && ValidPacket(s.previous.value) && (s.origin == NO_PTS || 0 <= s.origin < TWO_61)
    ensures var t := Iterate(mux, s, next);
      && t.previous == Some(next) && t.origin == NewOrigin(s.origin, s.previous.value) && !t.failed
      && t.file.header == s.file.header && t.file.frames == s.file.frames + Body([s.previous.value, next], t.origin)
  {
    var p := s.previous.value;
    assert [p, next][1..] == [next];
    assert s.file.frames + [] == s.file.frames;
    if IsMedia(p) {
      SmallInt64(p.pts - NewOrigin(s.origin, p));
      if IsMedia(next) { SmallInt64(next.pts - p.pts); }
    }
  }

  /** Origin after the packets before the last have been seen. */
  function OriginAfter(origin: int, ps: seq<Packet>): int
    requires ps != []
  {
    if origin != NO_PTS then origin else FirstPts(ps[..|ps| - 1])
  }

  lemma {:induction false} BodyNext(p: Packet, ps: seq<Packet>, origin: int)
    requires ps != []
    ensures Body([p] + ps, origin) == Body([p, ps[0]], origin) + Body(ps, origin)
  {
    assert ([p] + ps)[1..] == ps && [p, ps[0]][1..] == [ps[0]];
  }

  /** Before the first data packet the origin does not matter. */
  lemma {:induction false} BodyOfConfig(p: Packet, q: Packet, origin: int, other: int)
    requires !IsMedia(p)
    ensures Body([p, q], origin) == Body([p, q], other)
  {
    assert [p, q][1..] == [q];
  }

  lemma OriginNext(origin: int, p: Packet, ps: seq<Packet>)
    requires ps != []
    ensures OriginAfter(origin, [p] + ps) == OriginAfter(NewOrigin(origin, p), ps)
    ensures IsMedia(p) || origin != NO_PTS ==> OriginAfter(origin, [p] + ps) == NewOrigin(origin, p)
  {
    var all := [p] + ps;
    assert all[..|all| - 1] == [p] + ps[..|ps| - 1];
    assert all[..|all| - 1][1..] == ps[..|ps| - 1];
  }

  lemma {:induction false} ConsumeWrites(mux: Muxer, s: Loop, ps: seq<Packet>)
    requires AcceptsAll(mux) && !s.failed && s.previous.Some? && s.file.header.Some? && AllValid(ps)
    requires ValidPacket(s.previous.value) && (s.origin == NO_PTS || 0 <= s.origin < TWO_61)
    ensures var t, all := Consume(mux, s, ps), [s.previous.value] + ps;
      && t.previous == Some(all[|all| - 1]) && !t.failed && t.origin == OriginAfter(s.origin, all)
      && t.file.header == s.file.header && t.file.frames == s.file.frames + Body(all, t.origin)
    decreases |ps|
  {
    hide Iterate, Timed, Rebased, Body, OriginAfter;
    var p := s.previous.value;
    if ps == [] {
      NothingConsumed(s, p);
    } else {
      IterateWrites(mux, s, ps[0]);
      var t := Iterate(mux, s, ps[0]);
      ConsumeWrites(mux, t, ps[1..]);
      assert [ps[0]] + ps[1..] == ps;
      OriginNext(s.origin, p, ps);
      var end := OriginAfter(t.origin, ps);
      BodyNext(p, ps, end);
      if !IsMedia(p) { BodyOfConfig(p, ps[0], t.origin, end); }
      Regrouped(s.file.frames, Body([p, ps[0]], end), Body(ps, end));
    }
  }

  lemma NothingConsumed(s: Loop, p: Packet)
    requires s.origin == NO_PTS || 0 <= s.origin
    ensures [p] + [] == [p] && OriginAfter(s.origin, [p]) == s.origin && s.file.frames + Body([p], s.origin) == s.file.frames
  {
    assert [p][..0] == [];
  }

  lemma Regrouped(a: seq<Packet>, b: seq<Packet>, c: seq<Packet>)
    ensures a + b + c == a + (b + c)
  {
  }

  // ---- the theorem ----

  /** The origin is known in time exactly when a data packet comes before the last packet. */
  lemma {:induction false} FirstPtsBeforeLast(ps: seq<Packet>)
    requires ps != [] && AllValid(ps)
    ensures var before := MediaCount(ps) - if IsMedia(ps[|ps| - 1]) then 1 else 0;
      && before >= 0
      && FirstPts(ps[..|ps| - 1]) == (if before > 0 then FirstPts(ps) else NO_PTS)
      && (before > 0 ==> 0 <= FirstPts(ps) < TWO_61)
      && (before == 0 ==> forall o :: Body(ps, o) == [])
      && (MediaCount(ps) == 0 ==> FirstPts(ps) == NO_PTS)
      && (MediaCount(ps) == 1 && before == 0 ==> FirstPts(ps) == ps[|ps| - 1].pts)
  {
    if |ps| == 1 {
      assert ps[..0] == [] && ps[1..] == [];
    } else {
      FirstPtsBeforeLast(ps[1..]);
      assert ps[..|ps| - 1][1..] == ps[1..][..|ps| - 2];
    }
  }

  /** The last packet: written as it should be exactly when the origin is known, and for a config packet is zero. */
  lemma LastWritten(mux: Muxer, t: Loop, last: Packet, origin: int)
    requires AcceptsAll(mux) && !t.failed && t.previous == Some(last) && t.file.header.Some? && ValidPacket(last)
    requires t.origin == NO_PTS || t.origin == origin
    requires 0 <= origin < TWO_61 || (t.origin == NO_PTS == origin && !IsMedia(last))
    requires t.origin == NO_PTS && IsMedia(last) ==> origin == last.pts
    ensures var f := Finish(mux, t);
      && f.header == t.file.header
      && (f.frames == t.file.frames + (if IsMedia(last) then [Shot(last, origin, 100000)] else [])
          <==> t.origin != NO_PTS && (IsMedia(last) || origin == 0))
      && t.file.frames <= f.frames && |f.frames| <= |t.file.frames| + 1
  {
    var frames := t.file.frames;
    assert frames + [] == frames;
    if IsMedia(last) && t.origin != NO_PTS { SmallInt64(last.pts - origin); }
    var written := Rebased(last, t.origin).(duration := LAST_DURATION);
    if IsMedia(written) {
      assert (frames + [written])[|frames|] == written;
    }
    if IsMedia(last) { assert (frames + [Shot(last, origin, LAST_DURATION)])[|frames|].pts == last.pts - origin; }
  }

  lemma {:induction false} ConsumeTwo(mux: Muxer, ps: seq<Packet>)
    requires AcceptsAll(mux) && |ps| >= 2 && !IsMedia(ps[0])
    ensures Consume(mux, Begin(), ps) == Consume(mux, Loop(Some(ps[1]), NO_PTS, File(Some(ps[0].data), [], 1), false), ps[2..])
  {
    assert ps[1..][0] == ps[1] && ps[1..][1..] == ps[2..];
    var s := Iterate(mux, Begin(), ps[0]);
    assert s == Loop(Some(ps[0]), NO_PTS, File(None, [], 0), false);
    assert Consume(mux, s, ps[1..]) == Consume(mux, Iterate(mux, s, ps[1]), ps[2..]);
  }

  /** A data packet has nothing to be written after: the recording fails before the muxer is asked. */
  lemma MediaFirstFails(mux: Muxer, ps: seq<Packet>)
    requires |ps| >= 2 && IsMedia(ps[0])
    ensures Record(mux, ps) == File(None, [], 0)
  {
    assert ps[1..][0] == ps[1];
    var s := Iterate(mux, Begin(), ps[0]);
    assert Consume(mux, s, ps[1..]) == Consume(mux, Iterate(mux, s, ps[1]), ps[1..][1..]);
  }

  /** A recording that ends after at most one packet, or does not start with a config packet, is never right. */
  lemma ShortOrHeadless(mux: Muxer, ps: seq<Packet>)
    requires AllValid(ps) && (|ps| < 2 || IsMedia(ps[0]))
    ensures !Faithful(Record(mux, ps), ps)
  {
    if |ps| >= 2 {
      MediaFirstFails(mux, ps);
    } else if |ps| == 1 {
      assert ps[1..] == [];
      assert Consume(mux, Begin(), ps) == Loop(Some(ps[0]), NO_PTS, File(None, [], 0), false);
    }
  }

  /**
   What a muxer that accepts everything is given: the right file exactly when the recording starts and ends well;
   otherwise a last data packet is lost or wrong, or a last config packet is one frame too many.
   */
  lemma {:induction false} AcceptedFile(mux: Muxer, ps: seq<Packet>)
    requires AcceptsAll(mux) && AllValid(ps) && |ps| >= 2 && !IsMedia(ps[0])
    ensures var f, expected := Record(mux, ps), Expected(ps, FirstPts(ps));
      && f.header == FirstConfig(ps) == Some(ps[0].data) && |expected| == MediaCount(ps)
      && (f.frames == expected <==> Recordable(ps))
      && if IsMedia(ps[|ps| - 1]) then |f.frames| <= |expected|
         else expected <= f.frames && |f.frames| <= |expected| + 1
  {
    hide Consume, Finish, Body, FirstPts, MediaCount, Expected, Rebased;
    var rest := ps[1..];
    var last := ps[|ps| - 1];
    var s := Loop(Some(ps[1]), NO_PTS, File(Some(ps[0].data), [], 1), false);
    assert rest == [ps[1]] + ps[2..] && rest[|rest| - 1] == last;
    ConsumeTwo(mux, ps);
    ConsumeWrites(mux, s, ps[2..]);
    var t := Consume(mux, s, ps[2..]);
    assert [] + Body(rest, t.origin) == Body(rest, t.origin);
    FirstPtsBeforeLast(rest);
    ExpectedSplit(rest, FirstPts(rest));
    ExpectedCount(rest, FirstPts(rest));
    ConfigFirst(ps);
    LastWritten(mux, t, last, FirstPts(rest));
  }

  lemma {:induction false} ExpectedCount(ps: seq<Packet>, origin: int)
    ensures |Expected(ps, origin)| == MediaCount(ps)
  {
    if ps == [] {
    } else {
      ExpectedCount(ps[1..], origin);
    }
  }

  /** With a muxer that accepts everything, the recording is right exactly when it starts and ends well. */
  lemma AcceptedFaithfulIff(mux: Muxer, ps: seq<Packet>)
    requires AcceptsAll(mux) && AllValid(ps)
    ensures Faithful(Record(mux, ps), ps) <==> Recordable(ps)
  {
    hide Record, Expected, MediaCount, FirstPts;
    if |ps| < 2 || IsMedia(ps[0]) {
      ShortOrHeadless(mux, ps);
      if |ps| < 2 { OnePacket(ps); }
    } else {
      AcceptedFile(mux, ps);
    }
  }

  lemma OnePacket(ps: seq<Packet>)
    requires |ps| < 2
    ensures !Recordable(ps)
  {
    if |ps| == 1 { assert MediaCount(ps[1..]) == 0; }
  }

  /** A config packet in front changes nothing but the header. */
  lemma {:induction false} ConfigFirst(ps: seq<Packet>)
    requires |ps| >= 2 && !IsMedia(ps[0])
    ensures FirstPts(ps) == FirstPts(ps[1..]) && MediaCount(ps) == MediaCount(ps[1..])
    ensures Expected(ps, FirstPts(ps)) == Expected(ps[1..], FirstPts(ps[1..])) && FirstConfig(ps) == Some(ps[0].data)
  {
  }

  // ---- a muxer that refuses ----

  const EAGER: Muxer := (n: nat) => true

  ghost predicate FirstRefusal(mux: Muxer, n: nat) { !mux(n) && forall m: nat :: m < n ==> mux(m) }

  /** Every call so far wrote the header or a frame. */
  predicate Counted(f: File) { f.calls == |f.frames| + (if f.header.Some? then 1 else 0) && (f.frames != [] ==> f.header.Some?) }

  predicate Extends(f: File, g: File) { f.calls <= g.calls && f.frames <= g.frames && (f.header.Some? ==> g.header == f.header) }

  /** What is left of a file when call `n` is refused. */
  function CutAt(f: File, n: nat): File
    requires Counted(f) && n < f.calls
  {
    if n == 0 then File(None, [], 1) else File(f.header, f.frames[..n - 1], n + 1)
  }

  lemma CutExtended(f: File, g: File, n: nat)
    requires Counted(f) && Counted(g) && Extends(f, g) && n < f.calls
    ensures CutAt(f, n) == CutAt(g, n)
  {
    if n > 0 { assert f.frames[..n - 1] == g.frames[..n - 1]; }
  }

  lemma WriteCut(mux: Muxer, f: File, p: Packet, n: nat)
    requires Counted(f) && f.calls <= n && FirstRefusal(mux, n)
    ensures var (g, ok) := Write(EAGER, f, p);
      && Counted(g) && Extends(f, g)
      && Write(mux, f, p) == if g.calls <= n then (g, ok) else (CutAt(g, n), false)
  {
    var g := Write(EAGER, f, p).0;
    if g.calls > n {
      assert !mux(f.calls);
      assert n > 0 ==> g.frames[..n - 1] == f.frames;
    }
  }

  lemma WriteCounts(f: File, p: Packet)
    requires Counted(f)
    ensures var g := Write(EAGER, f, p).0; Counted(g) && Extends(f, g)
  {
  }

  lemma {:induction false} ConsumeCounts(s: Loop, ps: seq<Packet>)
    requires Counted(s.file)
    ensures var y := Consume(EAGER, s, ps); Counted(y.file) && Extends(s.file, y.file)
    decreases |ps|
  {
    hide Timed, Rebased, NewOrigin, Write, IsMedia;
    if ps == [] || s.failed {
    } else {
      if s.previous.Some? {
        var timed := Timed(s.previous.value, ps[0]);
        WriteCounts(s.file, if IsMedia(timed) then Rebased(timed, NewOrigin(s.origin, timed)) else timed);
      }
      ConsumeCounts(Iterate(EAGER, s, ps[0]), ps[1..]);
    }
  }

  /** The loop, up to the first refused call and at it. */
  lemma {:induction false} ConsumeCut(mux: Muxer, s: Loop, ps: seq<Packet>, n: nat)
    requires Counted(s.file) && s.file.calls <= n && FirstRefusal(mux, n)
    ensures var y, m := Consume(EAGER, s, ps), Consume(mux, s, ps);
      && Counted(y.file)
      && if y.file.calls <= n then m == y else m.failed && m.file == CutAt(y.file, n)
    decreases |ps|
  {
    hide Timed, Rebased, NewOrigin, Write, IsMedia, CutAt, Counted, Extends, FirstRefusal;
    if ps == [] || s.failed {
    } else {
      var s1 := Iterate(EAGER, s, ps[0]);
      if s.previous.Some? {
        var timed := Timed(s.previous.value, ps[0]);
        WriteCut(mux, s.file, if IsMedia(timed) then Rebased(timed, NewOrigin(s.origin, timed)) else timed, n);
      }
      ConsumeCounts(s1, ps[1..]);
      if s1.file.calls <= n {
        ConsumeCut(mux, s1, ps[1..], n);
      } else {
        LaterCalls(s1.file, Consume(EAGER, s1, ps[1..]).file);
        CutExtended(s1.file, Consume(EAGER, s1, ps[1..]).file, n);
      }
    }
  }

  lemma LaterCalls(f: File, g: File)
    requires Extends(f, g)
    ensures f.calls <= g.calls
  {
  }

  /** A refused call ends the file there: what a refusing muxer holds is the full file cut at the first refusal. */
  lemma RefusalCuts(mux: Muxer, ps: seq<Packet>, n: nat)
    requires FirstRefusal(mux, n)
    ensures var f := Record(EAGER, ps);
      && Counted(f) && Record(mux, ps) == if f.calls <= n then f else CutAt(f, n)
  {
    hide Consume, Rebased, Write, CutAt, FirstRefusal;
    ConsumeCounts(Begin(), ps);
    ConsumeCut(mux, Begin(), ps, n);
    var y := Consume(EAGER, Begin(), ps);
    if !y.failed && y.previous.Some? {
      var last := Rebased(y.previous.value, y.origin).(duration := LAST_DURATION);
      WriteCounts(y.file, last);
      if y.file.calls <= n {
        WriteCut(mux, y.file, last, n);
      } else {
        CutExtended(y.file, Write(EAGER, y.file, last).0, n);
      }
    }
  }

  lemma {:induction false} LeastRefusal(mux: Muxer, n: nat) returns (k: nat)
    requires !mux(n)
    ensures k <= n && FirstRefusal(mux, k)
  {
    if forall m: nat :: m < n ==> mux(m) {
      k := n;
    } else {
      var m: nat :| m < n && !mux(m);
      k := LeastRefusal(mux, m);
    }
  }

  /**
   When a recording comes out right: it starts with a config packet, the muxer accepts the header and every data packet,
   and it ends with a data packet that is not the only one, or with a config packet that is not written, because the data
   starts at time zero or because the muxer refuses it.
   */
  ghost predicate RightWith(mux: Muxer, ps: seq<Packet>) {
    && |ps| >= 2 && !IsMedia(ps[0])
    && (forall n: nat :: n <= MediaCount(ps) ==> mux(n))
    && if IsMedia(ps[|ps| - 1]) then MediaCount(ps) >= 2
       else (MediaCount(ps) >= 1 && FirstPts(ps) == 0) || !mux(MediaCount(ps) + 1)
  }

  /** For every muxer the recording is right exactly then. */
  lemma RecordingFaithfulIff(mux: Muxer, ps: seq<Packet>)
    requires AllValid(ps)
    ensures Faithful(Record(mux, ps), ps) <==> RightWith(mux, ps)
  {
    hide Record, Expected, MediaCount, FirstPts, FirstConfig, IsMedia;
    if |ps| < 2 || IsMedia(ps[0]) {
      ShortOrHeadless(mux, ps);
    } else if AcceptsAll(mux) {
      AcceptedFile(mux, ps);
    } else {
      var r: nat :| !mux(r);
      var n := LeastRefusal(mux, r);
      AcceptedFile(EAGER, ps);
      RefusalCuts(mux, ps, n);
      var f, expected := Record(EAGER, ps), Expected(ps, FirstPts(ps));
      if f.calls > n > 0 {
        assert |f.frames[..n - 1]| == n - 1;
        assert expected <= f.frames ==> f.frames[..|expected|] == expected;
      }
    }
  }
}
