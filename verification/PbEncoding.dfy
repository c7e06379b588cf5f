/**
 The bytes pb_encode writes for a message value; None where it returns false.
 */
module PbEncoding {
  import opened Bytes
  import opened Words
  import opened PbWire
  import opened PbMessage

  type Output = Option<seq<byte>>

  function Join(a: Output, b: Output): Output {
    if a.Some? && b.Some? then Some(a.value + b.value) else None
  }

  /** size bytes of x, least significant first. */
  function LittleEndian(x: nat, size: nat): (bytes: seq<byte>)
    ensures |bytes| == size
  {
    if size == 0 then [] else [x % 256] + LittleEndian(x / 256, size - 1)
  }

  /** pb_encode_tag. */
  function EncodeTag(wireType: nat, tag: u32): seq<byte>
    requires wireType < 8
  {
    EncodeVarint(tag as int * 8 + wireType)
  }

  /** pb_encode_tag_for_field's wire type. */
  function WireType(l: LType): (w: nat)
    ensures w < 8
  {
    match l
    case Varint => 0
    case UVarint => 0
    case SVarint => 0
    case Fixed32 => 5
    case Fixed64 => 1
    case _ => 2
  }

  /** pb_encode_string. */
  function EncodeString(bytes: seq<byte>): seq<byte> {
    EncodeVarint(|bytes|) + bytes
  }

  /** A fixed-width field's memory, read as an unsigned number. */
  function Raw(v: Val): nat {
    if v.Num? && v.n >= 0 then v.n else 0
  }

  /** The pb_enc_* functions. */
  function EncVal(l: LType, dataSize: nat, v: Val): Output
    decreases l, 0
  {
    match l
    case Varint => if v.Num? && IntSize(dataSize) && -TWO63 <= v.n < TWO63 then Some(EncodeVarint(ToU64(v.n))) else None
    case UVarint => if v.Num? && IntSize(dataSize) && 0 <= v.n < TWO64 then Some(EncodeVarint(v.n)) else None
    case SVarint =>
      if v.Num? && IntSize(dataSize) && -TWO63 <= v.n < TWO63 then Some(EncodeVarint(Zigzag(v.n))) else None
    case Fixed32 => Some(LittleEndian(Raw(v), 4))
    case Fixed64 => Some(LittleEndian(Raw(v), 8))
    case ByteArray =>
      if v.Blob? && BYTES_OFFSET + |v.bytes| <= dataSize then Some(EncodeString(v.bytes)) else None
    case CString => if v.Blob? then Some(EncodeString(CStr(v.bytes, dataSize))) else None
    case FixedBytes => if v.Blob? && |v.bytes| == dataSize then Some(EncodeString(v.bytes)) else None
    case Submessage(fields) =>
      if v.Msg? && |v.slots| == |fields| then
        (match EncSlots(fields, v.slots, 0) case None => None case Some(body) => Some(EncodeString(body)))
      else None
  }

  /** A field written once: its tag, then its value. */
  function EncTagged(f: Field, v: Val): Output
    decreases f, 0
  {
    Join(Some(EncodeTag(WireType(f.ltype), f.tag)), EncVal(f.ltype, f.dataSize, v))
  }

  /** The items of a packed array. */
  function EncPacked(l: LType, dataSize: nat, items: seq<Val>): Output
    decreases l, 1, |items|
  {
    if items == [] then Some([])
    else Join(EncVal(l, dataSize, items[0]), EncPacked(l, dataSize, items[1..]))
  }

  /** The items of an array that is not packed. */
  function EncUnpacked(f: Field, items: seq<Val>): Output
    decreases f, 1, |items|
  {
    if items == [] then Some([]) else Join(EncTagged(f, items[0]), EncUnpacked(f, items[1..]))
  }

  /** encode_array. */
  function EncArray(f: Field, arraySize: nat, items: seq<Val>): Output
    decreases f, 2
  {
    if items == [] then Some([])
    else if |items| > arraySize then None
    else if Packable(f.ltype) then
      match EncPacked(f.ltype, f.dataSize, items)
      case None => None
      case Some(body) => Some(EncodeTag(2, f.tag) + EncodeString(body))
    else EncUnpacked(f, items)
  }

  /** pb_check_proto3_default_value. */
  predicate IsDefault3(f: Field, s: Slot)
    decreases f
  {
    match s
    case One(v) =>
      if f.htype == Required then false
      else if f.ltype.Submessage? then
        v.Msg? && |v.slots| == |f.ltype.fields|
        && forall i | 0 <= i < |f.ltype.fields| :: IsDefault3(f.ltype.fields[i], v.slots[i])
      else if f.ltype.FixedBytes? then f.dataSize == 0
      else if Packable(f.ltype) then v == Num(0)
      else if f.ltype.CString? then v.Blob? && CStr(v.bytes, f.dataSize) == []
      else v == Blob([])
    case Opt(has, _) => !has
    case Many(items) => items == []
    case Alt(sel) => sel == None
  }

  /** encode_basic_field. */
  function EncSlot(f: Field, s: Slot): Output
    decreases f, 3
  {
    match (f.htype, s)
    case (Required, One(v)) => EncTagged(f, v)
    case (Optional(false), One(v)) => if IsDefault3(f, s) then Some([]) else EncTagged(f, v)
    case (Optional(true), Opt(has, v)) => if has then EncTagged(f, v) else Some([])
    case (Repeated(arraySize), Many(items)) => EncArray(f, arraySize, items)
    case (OneOf(_), Alt(sel)) => if sel.Some? then EncTagged(f, sel.value) else Some([])
    case _ => None
  }

  /** pb_encode's loop, from field i on. */
  function EncSlots(fields: seq<Field>, slots: seq<Slot>, i: nat): Output
    requires |slots| == |fields| && i <= |fields|
    decreases fields, |fields| - i
  {
    if i == |fields| then Some([]) else Join(EncSlot(fields[i], slots[i]), EncSlots(fields, slots, i + 1))
  }

  function Encode(fields: seq<Field>, slots: seq<Slot>): Output
    requires |slots| == |fields|
  {
    EncSlots(fields, slots, 0)
  }
}
