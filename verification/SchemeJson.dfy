/**
 JSON as a tree, with member names as an enumeration, and the accessors of `QJsonValue` that the scheme store uses.
 */
module SchemeJson {

  datatype Name =
    | SwitchKey | CursorLockKey | ShootButton | MouseMoveMap | KeyMapNodes
    | Type | Key | Pos | X | Y | SwitchMap | AndroidKey
    | SensitivityX | SensitivityY | SpeedRatio | SpeedRatioX | SpeedRatioY | StartPos | SmallEyes | SuspendKey
    | ClickNodes | Delay
    | LeftKey | RightKey | UpKey | DownKey | LeftOffset | RightOffset | UpOffset | DownOffset | CenterPos
    | EndPos | StartDelay | DragSpeed

  datatype Json =
    | Undefined
    | JBool(flag: bool)
    | JNum(number: real)
    | JStr(text: string)
    | JArr(items: seq<Json>)
    | JObj(members: map<Name, Json>)

  type int32 = x: int | -0x8000_0000 <= x < 0x8000_0000
  type quint32 = x: int | 0 <= x < 0x1_0000_0000

  function ToInt32(v: int): int32 { (v + 0x8000_0000) % 0x1_0000_0000 - 0x8000_0000 }
  function ToUint32(v: int): quint32 { v % 0x1_0000_0000 }

  function MaxOf(a: int, b: int): int { if a < b then b else a }

  /** `toObject().value(name)`: anything but an object has no members. */
  function Get(j: Json, name: Name): Json {
    if j.JObj? && name in j.members then j.members[name] else Undefined
  }

  predicate Contains(j: Json, name: Name) { j.JObj? && name in j.members }

  function AsText(j: Json, otherwise: string): string { if j.JStr? then j.text else otherwise }
  function AsReal(j: Json, otherwise: real): real { if j.JNum? then j.number else otherwise }
  function AsItems(j: Json): seq<Json> { if j.JArr? then j.items else [] }

  /** `toInt()`: zero unless the number is whole and fits. */
  function AsInt(j: Json): int32 {
    if j.JNum? && j.number.Floor as real == j.number && -0x8000_0000 <= j.number.Floor < 0x8000_0000 then j.number.Floor else 0
  }

  function Whole(v: int32): Json { JNum(v as real) }

  lemma WholeRoundTrip(v: int32)
    ensures AsInt(Whole(v)) == v
  {
  }

  lemma DelayRoundTrip(v: quint32)
    ensures ToUint32(AsInt(Whole(ToInt32(v)))) == v
  {
    WholeRoundTrip(ToInt32(v));
  }
}
