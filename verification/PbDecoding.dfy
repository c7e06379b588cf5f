/**
 What pb_decode makes of a byte string; None where it returns false.
 */
module PbDecoding {
  import opened Bytes
  import opened Words
  import opened PbWire
  import opened PbMessage

  type Input = seq<byte>

  function FromLittleEndian(bytes: Input): nat {
    if bytes == [] then 0 else bytes[0] as int + 256 * FromLittleEndian(bytes[1..])
  }

  /** pb_decode_tag on a non-empty stream: a zero ends the message. */
  datatype TagRead = TagFail | TagEnd | Tag(wireType: nat, tag: nat, used: nat)

  function DecodeTag(bs: Input): (r: TagRead)
    ensures r.Tag? ==> 1 <= r.used <= |bs|
  {
    match DecodeVarint32(bs)
    case None => TagFail
    case Some(Read(temp, used)) => if temp == 0 then TagEnd else Tag(temp % 8, temp / 8, used)
  }

  /** A length and that many bytes: pb_make_string_substream, pb_skip_string. */
  function Delimited(bs: Input): (r: Option<Read<Input>>)
    ensures r.Some? ==> |r.value.value| < r.value.used <= |bs|
                        && r.value.value == bs[r.value.used - |r.value.value|..r.value.used]
  {
    match DecodeVarint32(bs)
    case None => None
    case Some(Read(size, used)) =>
      if |bs| - used < size then None else Some(Read(bs[used..used + size], used + size))
  }

  /** pb_skip_field: the number of bytes skipped. */
  function SkipField(wireType: nat, bs: Input): (n: Option<nat>)
    ensures n.Some? ==> 1 <= n.value <= |bs|
  {
    if wireType == 0 then (match RawVarint(bs) case None => None case Some(r) => Some(r.used))
    else if wireType == 1 then if |bs| >= 8 then Some(8) else None
    else if wireType == 2 then (match Delimited(bs) case None => None case Some(r) => Some(r.used))
    else if wireType == 5 then if |bs| >= 4 then Some(4) else None
    else None
  }

  /** (int32_t)v. */
  function ToI32(v: u64): int {
    if v % TWO32 < TWO31 then v % TWO32 else v % TWO32 - TWO32
  }

  /** The cast to the field's size and the comparison that follows it: "integer too large". */
  function Signed(n: int, dataSize: nat, used: nat): Option<Read<Val>> {
    if IntSize(dataSize) && -HalfRange(dataSize) <= n < HalfRange(dataSize) then Some(Read(Num(n), used)) else None
  }

  function Unsigned(n: int, dataSize: nat, used: nat): Option<Read<Val>> {
    if IntSize(dataSize) && 0 <= n < 2 * HalfRange(dataSize) then Some(Read(Num(n), used)) else None
  }

  function DecFixed(size: nat, bs: Input): Option<Read<Val>> {
    if |bs| >= size then Some(Read(Num(FromLittleEndian(bs[..size])), size)) else None
  }

  /** The pb_dec_* functions; slots is the destination when the field is a submessage. */
  function DecVal(l: LType, dataSize: nat, slots: seq<Slot>, bs: Input): (r: Option<Read<Val>>)
    ensures r.Some? ==> 1 <= r.value.used <= |bs|
    decreases |bs|, 0
  {
    match l
    case Varint =>
      (match DecodeVarint(bs)
       case None => None
       case Some(Read(v, used)) => Signed(if dataSize == 8 then ToI64(v) else ToI32(v), dataSize, used))
    case UVarint =>
      (match DecodeVarint(bs) case None => None case Some(Read(v, used)) => Unsigned(v, dataSize, used))
    case SVarint =>
      (match DecodeVarint(bs) case None => None case Some(Read(v, used)) => Signed(Unzigzag(v), dataSize, used))
    case Fixed32 => DecFixed(4, bs)
    case Fixed64 => DecFixed(8, bs)
    case ByteArray =>
      (match Delimited(bs)
       case None => None
       case Some(Read(s, used)) =>
         if |s| <= PB_SIZE_MAX && BYTES_OFFSET + |s| <= dataSize then Some(Read(Blob(s), used)) else None)
    case CString =>
      (match Delimited(bs)
       case None => None
       case Some(Read(s, used)) => if |s| + 1 <= dataSize then Some(Read(Blob(s), used)) else None)
    case FixedBytes =>
      (match Delimited(bs)
       case None => None
       case Some(Read(s, used)) =>
         if s == [] then Some(Read(Blob(seq(dataSize, _ => 0)), used))
         else if |s| == dataSize then Some(Read(Blob(s), used)) else None)
    case Submessage(fields) =>
      (match Delimited(bs)
       case None => None
       case Some(Read(s, used)) =>
         if |slots| != |fields| then None
         else match DecLoop(fields, slots, {}, s)
           case None => None
           case Some(done) => Some(Read(Msg(done), used)))
  }

  /** The items of a packed array, appended to those already there. */
  function DecPacked(l: LType, dataSize: nat, items: seq<Val>, arraySize: nat, bs: Input): Option<seq<Val>>
    requires Packable(l)
    decreases |bs|, 1
  {
    if bs == [] then Some(items)
    else if |items| >= arraySize then None
    else match DecVal(l, dataSize, [], bs)
      case None => None
      case Some(Read(v, used)) => DecPacked(l, dataSize, items + [v], arraySize, bs[used..])
  }

  /** The submessage a value is decoded into: merged with what is there, except in arrays and oneofs. */
  function Target(f: Field, s: Slot): seq<Slot> {
    if !f.ltype.Submessage? then []
    else if s.One? && s.v.Msg? then s.v.slots
    else if s.Opt? && s.v.Msg? then s.v.slots
    else InitSlots(f.ltype.fields)
  }

  /** Where decode_static_field puts a value: has_ flags are set, array items appended. */
  function Place(f: Field, s: Slot, v: Val): Slot
    requires f.htype.Repeated? ==> s.Many?
  {
    match f.htype
    case Required => One(v)
    case Optional(hasFlag) => if hasFlag then Opt(true, v) else One(v)
    case Repeated(_) => Many(s.items + [v])
    case OneOf(_) => Alt(Some(v))
  }

  /** decode_static_field: the new contents of the field's memory. */
  function DecSlot(f: Field, s: Slot, wireType: nat, bs: Input): (r: Option<Read<Slot>>)
    ensures r.Some? ==> 1 <= r.value.used <= |bs|
    decreases |bs|, 2
  {
    if f.htype.Repeated? && wireType == 2 && Packable(f.ltype) then
      match Delimited(bs)
      case None => None
      case Some(Read(sub, used)) =>
        if !s.Many? then None
        else match DecPacked(f.ltype, f.dataSize, s.items, f.htype.arraySize, sub)
          case None => None
          case Some(items) => Some(Read(Many(items), used))
    else if f.htype.Repeated? && !(s.Many? && |s.items| < f.htype.arraySize) then None
    else match DecVal(f.ltype, f.dataSize, Target(f, s), bs)
      case None => None
      case Some(Read(v, used)) =>
        Some(Read(Place(f, s, v), used))
  }

  /** Storing a slot; choosing a oneof member un-chooses the others. */
  function Store(fields: seq<Field>, slots: seq<Slot>, i: nat, s: Slot): (r: seq<Slot>)
    requires |slots| == |fields| && i < |fields|
    ensures |r| == |fields|
  {
    seq(|fields|, j requires 0 <= j < |fields| =>
      if j == i then s
      else if SameGroup(fields[i], fields[j]) then Alt(None) else slots[j])
  }

  /** pb_field_iter_find: the field with the given tag. */
  function FindField(fields: seq<Field>, tag: nat): (r: Option<nat>)
    ensures r.Some? ==> r.value < |fields| && fields[r.value].tag == tag
    ensures r == None ==> forall i | 0 <= i < |fields| :: fields[i].tag != tag
  {
    FindFrom(fields, tag, 0)
  }

  function FindFrom(fields: seq<Field>, tag: nat, i: nat): (r: Option<nat>)
    requires i <= |fields|
    ensures r.Some? ==> i <= r.value < |fields| && fields[r.value].tag == tag
    ensures r == None ==> forall j | i <= j < |fields| :: fields[j].tag != tag
    decreases |fields| - i
  {
    if i == |fields| then None else if fields[i].tag == tag then Some(i) else FindFrom(fields, tag, i + 1)
  }

  /** required_field_index at field i: how many required fields come before it. */
  function RequiredBefore(fields: seq<Field>, i: nat): (n: nat)
    requires i <= |fields|
    ensures n <= i
  {
    if i == 0 then 0 else RequiredBefore(fields, i - 1) + if fields[i - 1].htype == Required then 1 else 0
  }

  /** The required fields that field i stands for in fields_seen: only the first 64 are tracked. */
  function SeenBy(fields: seq<Field>, i: nat): set<nat>
    requires i < |fields|
  {
    if fields[i].htype == Required && RequiredBefore(fields, i) < MAX_REQUIRED_FIELDS
    then {RequiredBefore(fields, i)} else {}
  }

  /** The check after the loop of pb_decode_noinit. */
  predicate AllSeen(fields: seq<Field>, seen: set<nat>) {
    var count := RequiredBefore(fields, |fields|);
    forall k | 0 <= k < (if count > MAX_REQUIRED_FIELDS then MAX_REQUIRED_FIELDS else count) :: k in seen
  }

  /** The loop of pb_decode_noinit. */
  function DecLoop(fields: seq<Field>, slots: seq<Slot>, seen: set<nat>, bs: Input): (r: Option<seq<Slot>>)
    requires |slots| == |fields|
    ensures r.Some? ==> |r.value| == |fields|
    decreases |bs|, 3
  {
    if bs == [] then if AllSeen(fields, seen) then Some(slots) else None
    else match DecodeTag(bs)
      case TagFail => None
      case TagEnd => if AllSeen(fields, seen) then Some(slots) else None
      case Tag(wireType, tag, used) =>
        var rest := bs[used..];
        // An empty descriptor's terminator has tag 0 and then fails as a required integer of size 0.
        if fields == [] && tag == 0 then None
        else match FindField(fields, tag)
          case None =>
            (match SkipField(wireType, rest)
             case None => None
             case Some(n) => DecLoop(fields, slots, seen, rest[n..]))
          case Some(i) =>
            (match DecSlot(fields[i], slots[i], wireType, rest)
             case None => None
             case Some(Read(s, n)) =>
               DecLoop(fields, Store(fields, slots, i, s), seen + SeenBy(fields, i), rest[n..]))
  }

  /** pb_decode. */
  function Decode(fields: seq<Field>, bs: Input): Option<seq<Slot>> {
    DecLoop(fields, InitSlots(fields), {}, bs)
  }
}
