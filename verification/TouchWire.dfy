/**
 The 8-byte touch packets: `putI16` and the packet builders on the PC side, `pkt_i16` and the field layout on the
 device side, and their round trip.
 */
module TouchWire {
  import opened Common

  const PKT_SIZE := 8
  const CMD_DOWN: byte := 0x01
  const CMD_MOVE: byte := 0x02
  const CMD_UP: byte := 0x03
  const CMD_FRAME: byte := 0x04
  const CMD_QUIT: byte := 0xFF

  /** What the PC wants to say; the fields are the C++ `int`s before they are narrowed. */
  datatype Packet =
    | DownPkt(slot: int, trackId: int, x: int, y: int)
    | MovePkt(slot: int, x: int, y: int)
    | UpPkt(slot: int)
    | FramePkt(width: int, height: int)
    | QuitPkt

  /** What the daemon understands. */
  datatype Command =
    | Down(slot: int, trackId: int, x: int, y: int)
    | Move(slot: int, x: int, y: int)
    | Up(slot: int)
    | Frame(width: int, height: int)
    | Quit
    | Unrecognized

  function ToInt16(v: int): int { if v % 0x1_0000 >= 0x8000 then v % 0x1_0000 - 0x1_0000 else v % 0x1_0000 }

  predicate IsInt16(v: int) { -0x8000 <= v < 0x8000 }

  function ToUint8(v: int): byte { v % 256 }

  function HighByte(v: int): byte { v % 0x1_0000 / 256 }

  function LowByte(v: int): byte { v % 256 }

  /** `pkt_i16`: two big-endian bytes as a signed number. */
  function PktI16(hi: byte, lo: byte): int { if hi >= 128 then hi * 256 + lo - 0x1_0000 else hi * 256 + lo }

  method PutI16(dst: array<byte>, at: nat, v: int)
    requires at + 1 < dst.Length
    modifies dst
    ensures dst[..] == old(dst[..])[at := HighByte(v)][at + 1 := LowByte(v)]
  {
    LowByteOfWord(v);
    dst[at] := v % 0x1_0000 / 256 % 256;
    dst[at + 1] := v % 0x1_0000 % 256;
  }

  lemma I16RoundTrip(v: int)
    ensures PktI16(HighByte(v), LowByte(v)) == ToInt16(v)
    ensures IsInt16(v) ==> ToInt16(v) == v
  {
    LowByteOfWord(v);
    var u := v % 0x1_0000;
    assert u == 256 * (u / 256) + u % 256;
  }

  lemma LowByteOfWord(v: int)
    ensures v % 0x1_0000 % 256 == v % 256
  {
    var q, u := v / 0x1_0000, v % 0x1_0000;
    WholeAndRest(v, 256 * q + u / 256, u % 256);
  }

  lemma WholeAndRest(v: int, q: int, r: int)
    requires v == 256 * q + r && 0 <= r < 256
    ensures v % 256 == r
  {
  }

  /** The bytes of a packet. */
  function Encode(p: Packet): (bs: seq<byte>)
    ensures |bs| == PKT_SIZE
  {
    match p
    case DownPkt(s, id, x, y) =>
      [CMD_DOWN, ToUint8(s), HighByte(id), LowByte(id), HighByte(x), LowByte(x), HighByte(y), LowByte(y)]
    case MovePkt(s, x, y) => [CMD_MOVE, ToUint8(s), HighByte(x), LowByte(x), HighByte(y), LowByte(y), 0, 0]
    case UpPkt(s) => [CMD_UP, ToUint8(s), 0, 0, 0, 0, 0, 0]
    case FramePkt(w, h) => [CMD_FRAME, 0, HighByte(w), LowByte(w), HighByte(h), LowByte(h), 0, 0]
    case QuitPkt => [CMD_QUIT, 0, 0, 0, 0, 0, 0, 0]
  }

  /** The dispatch of `handle_packet`. */
  function Decode(pkt: seq<byte>): Command
    requires |pkt| == PKT_SIZE
  {
    var cmd, slot := pkt[0], pkt[1];
    var a, b, c := PktI16(pkt[2], pkt[3]), PktI16(pkt[4], pkt[5]), PktI16(pkt[6], pkt[7]);
    if cmd == CMD_DOWN then Down(slot, a, b, c)
    else if cmd == CMD_MOVE then Move(slot, a, b)
    else if cmd == CMD_UP then Up(slot)
    else if cmd == CMD_FRAME then Frame(a, b)
    else if cmd == CMD_QUIT then Quit
    else Unrecognized
  }

  /** A packet as the daemon should see it: narrowed, nothing else changed. */
  function Narrowed(p: Packet): Command {
    match p
    case DownPkt(s, id, x, y) => Down(ToUint8(s), ToInt16(id), ToInt16(x), ToInt16(y))
    case MovePkt(s, x, y) => Move(ToUint8(s), ToInt16(x), ToInt16(y))
    case UpPkt(s) => Up(ToUint8(s))
    case FramePkt(w, h) => Frame(ToInt16(w), ToInt16(h))
    case QuitPkt => Quit
  }

  /** The daemon reads every packet as it was meant, narrowed to the wire's widths. */
  lemma DecodeEncode(p: Packet)
    ensures Decode(Encode(p)) == Narrowed(p)
  {
    match p
    case DownPkt(s, id, x, y) => I16RoundTrip(id); I16RoundTrip(x); I16RoundTrip(y);
    case MovePkt(s, x, y) => I16RoundTrip(x); I16RoundTrip(y);
    case UpPkt(s) =>
    case FramePkt(w, h) => I16RoundTrip(w); I16RoundTrip(h);
    case QuitPkt =>
  }

  /** Bytes `at` and `at + 1` hold the low 16 bits of `v`, the high byte first. */
  predicate Word(bs: seq<byte>, at: nat, v: int)
    requires at + 1 < |bs|
  {
    var high: int, low: int := bs[at], bs[at + 1];
    256 * high + low == v % 65536
  }

  /** Where everything is in the eight bytes. */
  lemma PacketLayout(p: Packet)
    ensures var bs := Encode(p);
      && |bs| == 8
      && match p
         case DownPkt(s, id, x, y) => bs[0] == 1 && bs[1] == s % 256 && Word(bs, 2, id) && Word(bs, 4, x) && Word(bs, 6, y)
         case MovePkt(s, x, y) => bs[0] == 2 && bs[1] == s % 256 && Word(bs, 2, x) && Word(bs, 4, y) && bs[6..] == [0, 0]
         case UpPkt(s) => bs[0] == 3 && bs[1] == s % 256 && bs[2..] == [0, 0, 0, 0, 0, 0]
         case FramePkt(w, h) => bs[0] == 4 && bs[1] == 0 && Word(bs, 2, w) && Word(bs, 4, h) && bs[6..] == [0, 0]
         case QuitPkt => bs[0] == 255 && bs[1..] == [0, 0, 0, 0, 0, 0, 0]
  {
    match p
    case DownPkt(s, id, x, y) => WordBytes(id); WordBytes(x); WordBytes(y);
    case MovePkt(s, x, y) => WordBytes(x); WordBytes(y);
    case UpPkt(s) =>
    case FramePkt(w, h) => WordBytes(w); WordBytes(h);
    case QuitPkt =>
  }

  lemma WordBytes(v: int)
    ensures Word([HighByte(v), LowByte(v)], 0, v)
  {
    LowByteOfWord(v);
    var u := v % 0x1_0000;
    assert u == 256 * (u / 256) + u % 256;
  }

  /** Any other first byte is no command. */
  lemma OtherBytes(pkt: seq<byte>)
    requires |pkt| == PKT_SIZE && pkt[0] !in {1, 2, 3, 4, 255}
    ensures Decode(pkt).Unrecognized?
  {
  }
}
