/**
 The framing of the video stream: a 12-byte header with three flag bits over a 61-bit timestamp, then the payload.
 `Encode` is what the server sends; the readers are `bufferRead32be` and `bufferRead64be`.
 */
module StreamWire {
  import opened Common

  const HEADER_SIZE := 12

  const TWO_8 := 0x100
  const TWO_16 := 0x1_0000
  const TWO_24 := 0x100_0000
  const TWO_31 := 0x8000_0000
  const TWO_32 := 0x1_0000_0000
  const TWO_61 := 0x2000_0000_0000_0000
  const TWO_62 := 0x4000_0000_0000_0000
  const TWO_63 := 0x8000_0000_0000_0000
  const TWO_64 := 0x1_0000_0000_0000_0000

  /** `AV_NOPTS_VALUE`. */
  const NO_PTS: int := -TWO_63

  function Read32(b: seq<byte>): (v: nat)
    requires |b| >= 4
    ensures v < TWO_32
  {
    b[0] * TWO_24 + b[1] * TWO_16 + b[2] * TWO_8 + b[3]
  }

  function Read64(b: seq<byte>): (v: nat)
    requires |b| >= 8
    ensures v < TWO_64
  {
    Read32(b) * TWO_32 + Read32(b[4..])
  }

  function Put32(v: nat): (b: seq<byte>)
    requires v < TWO_32
    ensures |b| == 4
  {
    [v / TWO_24, v / TWO_16 % 256, v / TWO_8 % 256, v % 256]
  }

  function Put64(v: nat): (b: seq<byte>)
    requires v < TWO_64
    ensures |b| == 8
  {
    Put32(v / TWO_32) + Put32(v % TWO_32)
  }

  lemma Read32Put32(v: nat, rest: seq<byte>)
    requires v < TWO_32
    ensures Read32(Put32(v) + rest) == v
  {
    var a, b := v / 256, v / TWO_16;
    assert v == 256 * a + v % 256;
    assert a == 256 * (a / 256) + a % 256 && a / 256 == b;
    assert b == 256 * (b / 256) + b % 256 && b / 256 == v / TWO_24;
  }

  lemma Read64Put64(v: nat, rest: seq<byte>)
    requires v < TWO_64
    ensures Read64(Put64(v) + rest) == v
  {
    hide Read32, Put32;
    var hi, lo := v / TWO_32, v % TWO_32;
    Read32Put32(hi, Put32(lo) + rest);
    Read32Put32(lo, rest);
    assert Put64(v) + rest == Put32(hi) + (Put32(lo) + rest);
    assert (Put64(v) + rest)[4..] == Put32(lo) + rest;
  }

  // ---- what the server sends ----

  datatype Item =
    | Session(clientResized: bool, width: nat, height: nat)
    | Config(data: seq<byte>)
    | Media(pts: nat, key: bool, data: seq<byte>)

  predicate ItemOk(i: Item, limit: nat) {
    match i
    case Session(_, w, h) => 0 < w < TWO_31 && 0 < h < TWO_31
    case Config(data) => 0 < |data| <= limit
    case Media(pts, _, data) => pts < TWO_61 && 0 < |data| <= limit
  }

  function Encode(i: Item, limit: nat): seq<byte>
    requires limit < TWO_31 && ItemOk(i, limit)
  {
    match i
    case Session(resized, w, h) => Put32(TWO_31 + (if resized then 1 else 0)) + Put32(w) + Put32(h)
    case Config(data) => Put64(TWO_62) + Put32(|data|) + data
    case Media(pts, key, data) => Put64(pts + if key then TWO_61 else 0) + Put32(|data|) + data
  }

  predicate AllOk(items: seq<Item>, limit: nat) { forall k :: 0 <= k < |items| ==> ItemOk(items[k], limit) }

  function EncodeAll(items: seq<Item>, limit: nat): seq<byte>
    requires limit < TWO_31 && AllOk(items, limit)
  {
    if items == [] then [] else Encode(items[0], limit) + EncodeAll(items[1..], limit)
  }
}
