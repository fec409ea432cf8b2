/**
 The demuxer as a function from the bytes of the stream to the signals it emits, and the theorem that it inverts the
 framing.
 */
module StreamDemux {
  import opened Common
  import opened StreamWire

  /** `limit` is the largest packet the allocator gives; `keyOf` is the parser's opinion on a frame. */
  type KeyOf = seq<byte> -> bool

  datatype Event =
    | SessionChanged(clientResized: bool, width: nat, height: nat)
    | ConfigFrame(data: seq<byte>)
    | Frame(pts: nat, key: bool, data: seq<byte>)

  /** Result of `recvPacket`, with what is left of the stream. */
  datatype Received =
    | EndOfStream
    | NewSession(clientResized: bool, width: nat, height: nat, rest: seq<byte>)
    | NewPacket(pts: int, key: bool, data: seq<byte>, rest: seq<byte>)

  /** `QSize::isEmpty` after the conversion to `int`. */
  predicate EmptySize(w: nat, h: nat) { !(0 < w < TWO_31) || !(0 < h < TWO_31) }

  function Receive(limit: nat, input: seq<byte>): (r: Received)
    ensures !r.EndOfStream? ==> |r.rest| <= |input| - HEADER_SIZE
    ensures r.NewPacket? ==> r.pts == NO_PTS || r.pts >= 0
  {
    if |input| < HEADER_SIZE then EndOfStream
    else
      var flags, len := Read64(input), Read32(input[8..]);
      var body := input[HEADER_SIZE..];
      if flags / TWO_63 % 2 == 1 then
        var w := Read32(input[4..]);
        if EmptySize(w, len) then EndOfStream else NewSession(input[3] % 2 == 1, w, len, body)
      else if len > limit || |body| < len then EndOfStream
      else NewPacket(if flags / TWO_62 % 2 == 1 then NO_PTS else flags % TWO_61, flags / TWO_61 % 2 == 1, body[..len], body[len..])
  }

  function Held(pending: Option<seq<byte>>): seq<byte> { if pending.Some? then pending.value else [] }

  /** `pushPacket`: what is emitted and what stays pending, or nothing if the pending packet cannot grow. */
  function Push(limit: nat, keyOf: KeyOf, pending: Option<seq<byte>>, pts: int, key: bool, data: seq<byte>)
    : Option<(Event, Option<seq<byte>>)>
    requires pts == NO_PTS || pts >= 0
  {
    var all := Held(pending) + data;
    if pending.Some? && |all| > limit then None
    else if pts == NO_PTS then Some((ConfigFrame(data), Some(all)))
    else Some((Frame(pts, key || keyOf(all), all), None))
  }

  /** `run`: all the signals for a stream that ends after `input`. */
  function Demux(limit: nat, keyOf: KeyOf, pending: Option<seq<byte>>, input: seq<byte>): seq<Event>
    decreases |input|
  {
    match Receive(limit, input)
    case EndOfStream => []
    case NewSession(resized, w, h, rest) => [SessionChanged(resized, w, h)] + Demux(limit, keyOf, pending, rest)
    case NewPacket(pts, key, data, rest) =>
      if data == [] then Demux(limit, keyOf, pending, rest)
      else match Push(limit, keyOf, pending, pts, key, data)
        case None => []
        case Some((event, left)) => [event] + Demux(limit, keyOf, left, rest)
  }

  /** One packet or session header, then the rest. */
  lemma {:induction false} DemuxNext(limit: nat, keyOf: KeyOf, pending: Option<seq<byte>>, input: seq<byte>)
    ensures var r, all := Receive(limit, input), Demux(limit, keyOf, pending, input);
      && (r.EndOfStream? ==> all == [])
      && (r.NewSession? ==> all == [SessionChanged(r.clientResized, r.width, r.height)] + Demux(limit, keyOf, pending, r.rest))
      && (r.NewPacket? && r.data == [] ==> all == Demux(limit, keyOf, pending, r.rest))
      && (r.NewPacket? && r.data != [] ==>
            var p := Push(limit, keyOf, pending, r.pts, r.key, r.data);
            all == if p.None? then [] else [p.value.0] + Demux(limit, keyOf, p.value.1, r.rest))
  {
    hide Receive, Push;
  }

  /** Four bytes as a number, the highest first. */
  function Four(b: seq<byte>, at: nat): nat
    requires at + 4 <= |b|
  {
    var b0: int, b1: int, b2: int, b3: int := b[at], b[at + 1], b[at + 2], b[at + 3];
    ((b0 * 256 + b1) * 256 + b2) * 256 + b3
  }

  lemma FourRead(b: seq<byte>, at: nat)
    requires at + 4 <= |b|
    ensures Read32(b[at..]) == Four(b, at)
  {
  }

  /**
   A header byte by byte.  The top bit of the first byte makes it a session, with a flag in the fourth byte and the sides in
   the last eight; otherwise the next two bits are the config and key flags, the other 61 of the first eight bytes the
   timestamp, and the last four bytes the length.
   */
  lemma HeaderBytes(limit: nat, b: seq<byte>)
    ensures |b| < 12 ==> Receive(limit, b).EndOfStream?
    ensures |b| >= 12 ==>
      var r, w, h := Receive(limit, b), Four(b, 4), Four(b, 8);
      if b[0] >= 128 then
        if 0 < w < 0x8000_0000 && 0 < h < 0x8000_0000 then r == NewSession(b[3] % 2 == 1, w, h, b[12..]) else r.EndOfStream?
      else if h > limit || 12 + h > |b| then r.EndOfStream?
      else
        r == NewPacket(if b[0] % 128 >= 64 then NO_PTS else (Four(b, 0) % 0x2000_0000) * 0x1_0000_0000 + Four(b, 4),
                       b[0] % 64 >= 32, b[12..12 + h], b[12 + h..])
  {
    hide Read32;
    if |b| >= 12 {
      FourRead(b, 0);
      FourRead(b, 4);
      FourRead(b, 8);
      assert b[0..] == b;
      FlagBits(b[0], b[1], b[2], b[3], Four(b, 4));
    }
  }

  const TWO_56: int := 0x100_0000_0000_0000

  /** The three flags are the top bits of the first byte; what is below them is the rest of it and the bytes after it. */
  lemma TopBits(b0: int, rest: int)
    requires 0 <= b0 < 256 && 0 <= rest < TWO_56
    ensures var f := b0 * TWO_56 + rest;
      f / TWO_63 == b0 / 128 && f / TWO_62 == b0 / 64 && f / TWO_61 == b0 / 32 && f % TWO_61 == b0 % 32 * TWO_56 + rest
  {
  }

  lemma ByteFlags(b: int)
    requires 0 <= b < 256
    ensures b / 128 % 2 == 1 <==> b >= 128
    ensures b / 64 % 2 == 1 <==> b % 128 >= 64
    ensures b / 32 % 2 == 1 <==> b % 64 >= 32
  {
  }

  lemma FlagBits(b0: int, b1: int, b2: int, b3: int, low: nat)
    requires low < TWO_32 && 0 <= b0 < 256 && 0 <= b1 < 256 && 0 <= b2 < 256 && 0 <= b3 < 256
    ensures var hi := ((b0 * 256 + b1) * 256 + b2) * 256 + b3; var f := hi * TWO_32 + low;
      && (f / TWO_63 % 2 == 1 <==> b0 >= 128)
      && (f / TWO_62 % 2 == 1 <==> b0 % 128 >= 64)
      && (f / TWO_61 % 2 == 1 <==> b0 % 64 >= 32)
      && f % TWO_61 == (hi % 0x2000_0000) * TWO_32 + low
  {
    var three := (b1 * 256 + b2) * 256 + b3;
    TopBits(b0, three * TWO_32 + low);
    ByteFlags(b0);
    LowWord(b0, three);
  }

  lemma LowWord(b0: int, three: int)
    requires 0 <= b0 < 256 && 0 <= three < 0x100_0000
    ensures (b0 * 0x100_0000 + three) % 0x2000_0000 == b0 % 32 * 0x100_0000 + three
  {
  }

  // ---- the meaning of the items ----

  /**
   What the items ask for: each data packet becomes one frame, all config bytes since the last data packet in front of
   its own.
   */
  function Signals(keyOf: KeyOf, pending: Option<seq<byte>>, items: seq<Item>): seq<Event>
    decreases |items|
  {
    if items == [] then []
    else match items[0]
      case Session(resized, w, h) => [SessionChanged(resized, w, h)] + Signals(keyOf, pending, items[1..])
      case Config(data) => [ConfigFrame(data)] + Signals(keyOf, Some(Held(pending) + data), items[1..])
      case Media(pts, key, data) =>
        [Frame(pts, key || keyOf(Held(pending) + data), Held(pending) + data)] + Signals(keyOf, None, items[1..])
  }

  /** Config bytes left without a data packet. */
  function Leftover(pending: Option<seq<byte>>, items: seq<Item>): Option<seq<byte>>
    decreases |items|
  {
    if items == [] then pending
    else match items[0]
      case Session(_, _, _) => Leftover(pending, items[1..])
      case Config(data) => Leftover(Some(Held(pending) + data), items[1..])
      case Media(_, _, _) => Leftover(None, items[1..])
  }

  /** Merged packets stay within what can be allocated. */
  predicate Fits(limit: nat, pending: Option<seq<byte>>, items: seq<Item>)
    decreases |items|
  {
    items == [] ||
    match items[0]
    case Session(_, _, _) => Fits(limit, pending, items[1..])
    case Config(data) => |Held(pending)| + |data| <= limit && Fits(limit, Some(Held(pending) + data), items[1..])
    case Media(_, _, data) => |Held(pending)| + |data| <= limit && Fits(limit, None, items[1..])
  }

  /** Division facts of the three flags. */
  lemma Flags(pts: nat, key: bool)
    requires pts < TWO_61
    ensures var f := pts + if key then TWO_61 else 0;
      f < TWO_62 && f / TWO_63 % 2 == 0 && f / TWO_62 % 2 == 0 && f % TWO_61 == pts && (f / TWO_61 % 2 == 1) == key
  {
  }

  lemma ReceiveMedia(limit: nat, pts: nat, key: bool, data: seq<byte>, rest: seq<byte>)
    requires limit < TWO_31 && pts < TWO_61 && 0 < |data| <= limit
    ensures Receive(limit, Encode(Media(pts, key, data), limit) + rest) == NewPacket(pts, key, data, rest)
  {
    hide Put32, Put64, Read32, Read64;
    Flags(pts, key);
    ReceiveFramed(limit, pts + if key then TWO_61 else 0, data, rest);
  }

  lemma ReceiveConfig(limit: nat, data: seq<byte>, rest: seq<byte>)
    requires limit < TWO_31 && 0 < |data| <= limit
    ensures Receive(limit, Encode(Config(data), limit) + rest) == NewPacket(NO_PTS, false, data, rest)
  {
    hide Put32, Put64, Read32, Read64;
    ReceiveFramed(limit, TWO_62, data, rest);
  }

  /** The fields of a framed packet, as `recvPacket` reads them. */
  lemma ReceiveFramed(limit: nat, flags: nat, data: seq<byte>, rest: seq<byte>)
    requires flags < TWO_63 && 0 < |data| <= limit < TWO_31
    ensures Receive(limit, Put64(flags) + Put32(|data|) + data + rest)
         == NewPacket(if flags / TWO_62 % 2 == 1 then NO_PTS else flags % TWO_61, flags / TWO_61 % 2 == 1, data, rest)
  {
    hide Put32, Put64, Read32, Read64;
    var header := Put64(flags) + Put32(|data|);
    var input := header + data + rest;
    assert input == Put64(flags) + (Put32(|data|) + data + rest);
    Read64Put64(flags, Put32(|data|) + data + rest);
    assert input[8..] == Put32(|data|) + (data + rest);
    Read32Put32(|data|, data + rest);
    assert input[HEADER_SIZE..] == data + rest;
    assert (data + rest)[..|data|] == data && (data + rest)[|data|..] == rest;
  }

  lemma ReceiveSession(limit: nat, resized: bool, w: nat, h: nat, rest: seq<byte>)
    requires limit < TWO_31 && 0 < w < TWO_31 && 0 < h < TWO_31
    ensures Receive(limit, Encode(Session(resized, w, h), limit) + rest) == NewSession(resized, w, h, rest)
  {
    var word := TWO_31 + if resized then 1 else 0;
    var input := Put32(word) + Put32(w) + Put32(h) + rest;
    assert input[3] % 2 == word % 256 % 2;
    SessionFields(word, w, h, rest);
  }

  lemma SessionFields(word: nat, w: nat, h: nat, rest: seq<byte>)
    requires TWO_31 <= word < TWO_32 && w < TWO_32 && h < TWO_32
    ensures var input := Put32(word) + Put32(w) + Put32(h) + rest;
      && Read64(input) / TWO_63 % 2 == 1 && Read32(input[4..]) == w && Read32(input[8..]) == h && input[HEADER_SIZE..] == rest
  {
    hide Put32, Read32;
    var input := Put32(word) + Put32(w) + Put32(h) + rest;
    assert input == Put32(word) + (Put32(w) + Put32(h) + rest);
    assert input[4..] == Put32(w) + (Put32(h) + rest);
    assert input[8..] == Put32(h) + rest;
    Read32Put32(word, Put32(w) + Put32(h) + rest);
    Read32Put32(w, Put32(h) + rest);
    Read32Put32(h, rest);
  }

  /** A session header with a side that is zero or negative as an `int` ends the stream. */
  lemma BadSizeEnds(limit: nat, word: nat, w: nat, h: nat, rest: seq<byte>)
    requires TWO_31 <= word < TWO_32 && w < TWO_32 && h < TWO_32
    ensures Receive(limit, Put32(word) + Put32(w) + Put32(h) + rest).EndOfStream?
       <==> w == 0 || w >= TWO_31 || h == 0 || h >= TWO_31
  {
    hide Put32, Read32, Read64;
    SessionFields(word, w, h, rest);
  }

  /** A packet that cannot be allocated, or whose payload is cut short, ends the stream; any other is received. */
  lemma ShortOrHugeEnds(limit: nat, flags: nat, len: nat, payload: seq<byte>)
    requires flags < TWO_63 && len < TWO_32
    ensures Receive(limit, Put64(flags) + Put32(len) + payload).EndOfStream? <==> len > limit || |payload| < len
  {
    hide Put32, Put64, Read32, Read64;
    var input := Put64(flags) + Put32(len) + payload;
    assert input == Put64(flags) + (Put32(len) + payload);
    Read64Put64(flags, Put32(len) + payload);
    assert input[8..] == Put32(len) + payload;
    Read32Put32(len, payload);
    assert input[HEADER_SIZE..] == payload;
  }

  lemma Prepend(a: seq<Event>, b: seq<Event>, c: seq<Event>)
    ensures a + (b + c) == (a + b) + c
  {
  }

  /** Demuxing inverts the framing, whatever follows in the stream. */
  lemma {:induction false} DemuxInvertsEncode(limit: nat, keyOf: KeyOf, pending: Option<seq<byte>>, items: seq<Item>, rest: seq<byte>)
    requires limit < TWO_31 && AllOk(items, limit) && Fits(limit, pending, items)
    ensures Demux(limit, keyOf, pending, EncodeAll(items, limit) + rest)
         == Signals(keyOf, pending, items) + Demux(limit, keyOf, Leftover(pending, items), rest)
    decreases |items|
  {
    hide Encode, Receive, Demux;
    if items == [] {
      assert EncodeAll(items, limit) + rest == rest;
      assert Signals(keyOf, pending, items) + Demux(limit, keyOf, pending, rest) == Demux(limit, keyOf, pending, rest);
    } else {
      var tail, more := EncodeAll(items[1..], limit) + rest, items[1..];
      var input := EncodeAll(items, limit) + rest;
      assert input == Encode(items[0], limit) + tail;
      DemuxNext(limit, keyOf, pending, input);
      match items[0]
      case Session(resized, w, h) =>
        ReceiveSession(limit, resized, w, h, tail);
        DemuxInvertsEncode(limit, keyOf, pending, more, rest);
        Prepend([SessionChanged(resized, w, h)], Signals(keyOf, pending, more), Demux(limit, keyOf, Leftover(pending, more), rest));
      case Config(data) =>
        ReceiveConfig(limit, data, tail);
        var left := Some(Held(pending) + data);
        DemuxInvertsEncode(limit, keyOf, left, more, rest);
        Prepend([ConfigFrame(data)], Signals(keyOf, left, more), Demux(limit, keyOf, Leftover(left, more), rest));
      case Media(pts, key, data) =>
        ReceiveMedia(limit, pts, key, data, tail);
        DemuxInvertsEncode(limit, keyOf, None, more, rest);
        var all := Held(pending) + data;
        Prepend([Frame(pts, key || keyOf(all), all)], Signals(keyOf, None, more), Demux(limit, keyOf, Leftover(None, more), rest));
    }
  }

  /** A whole stream, with nothing pending at first and perhaps a truncated item at the end. */
  lemma {:induction false} StreamRoundTrip(limit: nat, keyOf: KeyOf, items: seq<Item>, tail: seq<byte>)
    requires limit < TWO_31 && AllOk(items, limit) && Fits(limit, None, items)
    requires Receive(limit, tail).EndOfStream?
    ensures Demux(limit, keyOf, None, EncodeAll(items, limit) + tail) == Signals(keyOf, None, items)
  {
    hide Receive, Demux, Signals;
    DemuxInvertsEncode(limit, keyOf, None, items, tail);
    DemuxNext(limit, keyOf, Leftover(None, items), tail);
    assert Signals(keyOf, None, items) + [] == Signals(keyOf, None, items);
  }

  /** A packet that the pending config bytes have no room for. */
  predicate Overflows(limit: nat, pending: Option<seq<byte>>, i: Item) {
    match i
    case Session(_, _, _) => false
    case Config(data) => pending.Some? && |pending.value| + |data| > limit
    case Media(_, _, data) => pending.Some? && |pending.value| + |data| > limit
  }

  /** Where the merged packet would outgrow the allocator the stream ends: all signals before it are given, none after. */
  lemma {:induction false} OverflowEnds(limit: nat, keyOf: KeyOf, items: seq<Item>, next: Item, rest: seq<byte>)
    requires limit < TWO_31 && AllOk(items, limit) && Fits(limit, None, items) && ItemOk(next, limit)
    requires Overflows(limit, Leftover(None, items), next)
    ensures Demux(limit, keyOf, None, EncodeAll(items, limit) + (Encode(next, limit) + rest)) == Signals(keyOf, None, items)
  {
    hide Receive, Demux, Signals, Encode, EncodeAll, Fits, Leftover;
    var input := Encode(next, limit) + rest;
    DemuxInvertsEncode(limit, keyOf, None, items, input);
    match next {
      case Session(_, _, _) =>
      case Config(data) => ReceiveConfig(limit, data, rest);
      case Media(pts, key, data) => ReceiveMedia(limit, pts, key, data, rest);
    }
    DemuxNext(limit, keyOf, Leftover(None, items), input);
    assert Signals(keyOf, None, items) + [] == Signals(keyOf, None, items);
  }

  // ---- nothing is lost or repeated ----

  function Payload(items: seq<Item>): seq<byte>
    decreases |items|
  {
    if items == [] then []
    else match items[0]
      case Session(_, _, _) => Payload(items[1..])
      case Config(data) => data + Payload(items[1..])
      case Media(_, _, data) => data + Payload(items[1..])
  }

  function FrameBytes(events: seq<Event>): seq<byte>
    decreases |events|
  {
    if events == [] then [] else (if events[0].Frame? then events[0].data else []) + FrameBytes(events[1..])
  }

  lemma {:induction false} FrameBytesNext(e: Event, events: seq<Event>)
    ensures FrameBytes([e] + events) == (if e.Frame? then e.data else []) + FrameBytes(events)
  {
    assert ([e] + events)[1..] == events;
  }

  /** The frames and what is left pending hold just the bytes given. */
  predicate CarriesAll(keyOf: KeyOf, pending: Option<seq<byte>>, items: seq<Item>) {
    Held(pending) + Payload(items) == FrameBytes(Signals(keyOf, pending, items)) + Held(Leftover(pending, items))
  }

  lemma {:induction false} SessionCarries(keyOf: KeyOf, pending: Option<seq<byte>>, items: seq<Item>)
    requires items != [] && items[0].Session? && CarriesAll(keyOf, pending, items[1..])
    ensures CarriesAll(keyOf, pending, items)
  {
    hide FrameBytes;
    var i := items[0];
    FrameBytesNext(SessionChanged(i.clientResized, i.width, i.height), Signals(keyOf, pending, items[1..]));
    Joined([], [], FrameBytes(Signals(keyOf, pending, items[1..])));
  }

  lemma {:induction false} ConfigCarries(keyOf: KeyOf, pending: Option<seq<byte>>, items: seq<Item>)
    requires items != [] && items[0].Config? && CarriesAll(keyOf, Some(Held(pending) + items[0].data), items[1..])
    ensures CarriesAll(keyOf, pending, items)
  {
    hide FrameBytes;
    var data, more := items[0].data, items[1..];
    var later := Signals(keyOf, Some(Held(pending) + data), more);
    FrameBytesNext(ConfigFrame(data), later);
    Joined(Held(pending), data, Payload(more));
    Joined([], [], FrameBytes(later));
  }

  lemma {:induction false} MediaCarries(keyOf: KeyOf, pending: Option<seq<byte>>, items: seq<Item>)
    requires items != [] && items[0].Media? && CarriesAll(keyOf, None, items[1..])
    ensures CarriesAll(keyOf, pending, items)
  {
    hide FrameBytes;
    var i, more := items[0], items[1..];
    var all, later := Held(pending) + i.data, Signals(keyOf, None, more);
    FrameBytesNext(Frame(i.pts, i.key || keyOf(all), all), later);
    Joined(Held(pending), i.data, Payload(more));
    Joined(all, FrameBytes(later), Held(Leftover(None, more)));
    Joined([], [], Payload(more));
  }

  /** The frames carry every payload byte once and in order, but for config bytes that no data packet followed. */
  lemma {:induction false} FramesCarryAll(keyOf: KeyOf, pending: Option<seq<byte>>, items: seq<Item>)
    ensures Held(pending) + Payload(items) == FrameBytes(Signals(keyOf, pending, items)) + Held(Leftover(pending, items))
    decreases |items|
  {
    hide FrameBytes, Signals;
    if items == [] {
      NoSignals(keyOf, pending);
    } else {
      hide Payload, Leftover;
      var more := items[1..];
      match items[0]
      case Session(_, _, _) => FramesCarryAll(keyOf, pending, more); SessionCarries(keyOf, pending, items);
      case Config(data) => FramesCarryAll(keyOf, Some(Held(pending) + data), more); ConfigCarries(keyOf, pending, items);
      case Media(_, _, _) => FramesCarryAll(keyOf, None, more); MediaCarries(keyOf, pending, items);
    }
  }

  lemma {:induction false} NoSignals(keyOf: KeyOf, pending: Option<seq<byte>>)
    ensures FrameBytes(Signals(keyOf, pending, [])) == []
  {
  }

  lemma Joined(a: seq<byte>, b: seq<byte>, c: seq<byte>)
    ensures a + (b + c) == (a + b) + c
    ensures [] + c == c
  {
  }

  /** On any bytes at all, what has been emitted stays emitted when more of the stream arrives. */
  lemma {:induction false} MoreBytesOnlyAdd(limit: nat, keyOf: KeyOf, pending: Option<seq<byte>>, a: seq<byte>, b: seq<byte>)
    ensures Demux(limit, keyOf, pending, a) <= Demux(limit, keyOf, pending, a + b)
    decreases |a|
  {
    hide Receive, Push, Demux;
    DemuxNext(limit, keyOf, pending, a);
    DemuxNext(limit, keyOf, pending, a + b);
    ReceiveMore(limit, a, b);
    match Receive(limit, a)
    case EndOfStream =>
    case NewSession(resized, w, h, rest) => MoreBytesOnlyAdd(limit, keyOf, pending, rest, b);
    case NewPacket(pts, key, data, rest) =>
      if data == [] {
        MoreBytesOnlyAdd(limit, keyOf, pending, rest, b);
      } else {
        match Push(limit, keyOf, pending, pts, key, data)
        case None =>
        case Some((event, left)) => MoreBytesOnlyAdd(limit, keyOf, left, rest, b);
      }
  }

  lemma ReceiveMore(limit: nat, a: seq<byte>, b: seq<byte>)
    ensures var r, more := Receive(limit, a), Receive(limit, a + b);
      && (r.NewSession? ==> more == NewSession(r.clientResized, r.width, r.height, r.rest + b))
      && (r.NewPacket? ==> more == NewPacket(r.pts, r.key, r.data, r.rest + b))
  {
    if |a| >= HEADER_SIZE {
      var ab := a + b;
      assert ab[HEADER_SIZE..] == a[HEADER_SIZE..] + b;
      ReadSame(a, b);
      var body, len := a[HEADER_SIZE..], Read32(a[8..]);
      if len <= |body| {
        assert (body + b)[..len] == body[..len] && (body + b)[len..] == body[len..] + b;
      }
    }
  }

  lemma ReadSame(a: seq<byte>, b: seq<byte>)
    requires |a| >= HEADER_SIZE
    ensures Read64(a + b) == Read64(a) && Read32((a + b)[4..]) == Read32(a[4..]) && Read32((a + b)[8..]) == Read32(a[8..])
  {
  }
}
