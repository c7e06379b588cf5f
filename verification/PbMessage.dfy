/**
 Message descriptors and values of nanopb (pb.h): a tree of fields, and a tree of slots with one per field.
 */
module PbMessage {
  import opened Bytes
  import opened PbWire

  /** pb_size_t is 32 bits wide (PB_FIELD_32BIT), and pb_bytes_array_t starts with one. */
  const PB_SIZE_MAX: nat := 0xffff_ffff
  const BYTES_OFFSET: nat := 4
  const MAX_REQUIRED_FIELDS: nat := 64

  /** PB_LTYPE. */
  datatype LType =
    | Varint | UVarint | SVarint | Fixed32 | Fixed64
    | ByteArray | CString | Submessage(fields: seq<Field>) | FixedBytes

  /** PB_HTYPE; an optional field without a has_ flag is a proto3 singular field. */
  datatype HType = Required | Optional(hasFlag: bool) | Repeated(arraySize: nat) | OneOf(group: nat)

  /** pb_field_t, without the offsets: default is what ptr points to for scalar fields. */
  datatype Field = Field(tag: u32, ltype: LType, htype: HType, dataSize: nat, default: Option<Val>)

  datatype Val = Num(n: int) | Blob(bytes: seq<byte>) | Msg(slots: seq<Slot>)

  /** The memory of one field; a oneof member is Some exactly when which_ names it. */
  datatype Slot = One(v: Val) | Opt(has: bool, v: Val) | Many(items: seq<Val>) | Alt(sel: Option<Val>)

  predicate Packable(l: LType) { l.Varint? || l.UVarint? || l.SVarint? || l.Fixed32? || l.Fixed64? }

  // Defaults: pb_message_set_to_defaults.

  function Zero(l: LType, dataSize: nat): Val
    requires !l.Submessage?
  {
    if Packable(l) then Num(0)
    else if l.FixedBytes? then Blob(seq(dataSize, _ => 0))
    else Blob([])
  }

  function InitVal(f: Field): Val
    decreases f, 0
  {
    if f.ltype.Submessage? then Msg(InitSlots(f.ltype.fields))
    else if f.default.Some? then f.default.value
    else Zero(f.ltype, f.dataSize)
  }

  function InitSlot(f: Field): Slot
    decreases f, 1
  {
    match f.htype
    case Required => One(InitVal(f))
    case Optional(hasFlag) => if hasFlag then Opt(false, InitVal(f)) else One(InitVal(f))
    case Repeated(_) => Many([])
    case OneOf(_) => Alt(None)
  }

  function InitSlots(fields: seq<Field>): (slots: seq<Slot>)
    ensures |slots| == |fields|
    decreases fields
  {
    seq(|fields|, i requires 0 <= i < |fields| => InitSlot(fields[i]))
  }

  // Descriptors and values that fit together.

  /** The bytes before the first NUL, at most dataSize of them. */
  function CStr(buffer: seq<byte>, dataSize: nat): (s: seq<byte>)
    ensures |s| <= |buffer| && |s| <= dataSize && s == buffer[..|s|]
  {
    if buffer == [] || dataSize == 0 || buffer[0] == 0 then []
    else [buffer[0]] + CStr(buffer[1..], dataSize - 1)
  }

  function HalfRange(dataSize: nat): int {
    if dataSize == 1 then 0x80 else if dataSize == 2 then 0x8000 else if dataSize == 4 then 0x8000_0000
    else 0x8000_0000_0000_0000
  }

  predicate IntSize(dataSize: nat) { dataSize == 1 || dataSize == 2 || dataSize == 4 || dataSize == 8 }

  ghost predicate ValOk(l: LType, dataSize: nat, v: Val)
    decreases l, 0
  {
    match l
    case Varint => v.Num? && IntSize(dataSize) && -HalfRange(dataSize) <= v.n < HalfRange(dataSize)
    case SVarint => v.Num? && IntSize(dataSize) && -HalfRange(dataSize) <= v.n < HalfRange(dataSize)
    case UVarint => v.Num? && IntSize(dataSize) && 0 <= v.n < 2 * HalfRange(dataSize)
    case Fixed32 => v.Num? && 0 <= v.n < 2 * HalfRange(4)
    case Fixed64 => v.Num? && 0 <= v.n < 2 * HalfRange(8)
    case ByteArray => v.Blob? && BYTES_OFFSET + |v.bytes| <= dataSize
    case CString => v.Blob? && |CStr(v.bytes, dataSize)| < dataSize
    case FixedBytes => v.Blob? && |v.bytes| == dataSize
    case Submessage(fields) => v.Msg? && SlotsOk(fields, v.slots)
  }

  ghost predicate SlotOk(f: Field, s: Slot)
    decreases f
  {
    match f.htype
    case Required => s.One? && ValOk(f.ltype, f.dataSize, s.v)
    case Optional(true) => s.Opt? && (s.has ==> ValOk(f.ltype, f.dataSize, s.v))
    case Optional(false) => s.One? && ValOk(f.ltype, f.dataSize, s.v)
    case Repeated(arraySize) =>
      s.Many? && |s.items| <= arraySize && forall v | v in s.items :: ValOk(f.ltype, f.dataSize, v)
    case OneOf(_) => s.Alt? && (s.sel.Some? ==> ValOk(f.ltype, f.dataSize, s.sel.value))
  }

  predicate SameGroup(f: Field, g: Field) { f.htype.OneOf? && g.htype == f.htype }

  predicate Chosen(s: Slot) { s.Alt? && s.sel.Some? }

  /** An in-bounds value: every slot fits its field, and of each oneof at most one member is chosen. */
  ghost predicate SlotsOk(fields: seq<Field>, slots: seq<Slot>)
    decreases fields
  {
    && |slots| == |fields|
    && (forall i | 0 <= i < |fields| :: SlotOk(fields[i], slots[i]))
    && forall i, j | 0 <= i < j < |fields| && SameGroup(fields[i], fields[j]) ::
         !(Chosen(slots[i]) && Chosen(slots[j]))
  }

  /** What the generator guarantees of descriptors: distinct tags in range, and no proto3 defaults. */
  ghost predicate SchemaOk(fields: seq<Field>)
    decreases fields
  {
    && (forall i, j | 0 <= i < j < |fields| :: fields[i].tag != fields[j].tag)
    && forall i | 0 <= i < |fields| :: FieldOk(fields[i])
  }

  ghost predicate FieldOk(f: Field)
    decreases f
  {
    && 0 < f.tag < 0x2000_0000 && f.dataSize <= PB_SIZE_MAX
    && (f.htype == Optional(false) ==> f.default == None)
    && (f.ltype.Submessage? ==> SchemaOk(f.ltype.fields))
  }

  // What decoding an encoding gives: absent fields at their defaults, strings cut at the NUL.

  function NormVal(l: LType, dataSize: nat, v: Val): Val
    decreases l, 0
  {
    if l.CString? && v.Blob? then Blob(CStr(v.bytes, dataSize))
    else if l.Submessage? && v.Msg? && |v.slots| == |l.fields| then Msg(NormSlots(l.fields, v.slots))
    else v
  }

  function NormSlot(f: Field, s: Slot): Slot
    decreases f
  {
    match s
    case One(v) => One(NormVal(f.ltype, f.dataSize, v))
    case Opt(has, v) => if has then Opt(true, NormVal(f.ltype, f.dataSize, v)) else InitSlot(f)
    case Many(items) =>
      Many(seq(|items|, i requires 0 <= i < |items| => NormVal(f.ltype, f.dataSize, items[i])))
    case Alt(None) => Alt(None)
    case Alt(Some(v)) => Alt(Some(NormVal(f.ltype, f.dataSize, v)))
  }

  function NormSlots(fields: seq<Field>, slots: seq<Slot>): (r: seq<Slot>)
    requires |slots| == |fields|
    ensures |r| == |fields|
    decreases fields
  {
    seq(|fields|, i requires 0 <= i < |fields| => NormSlot(fields[i], slots[i]))
  }
}
