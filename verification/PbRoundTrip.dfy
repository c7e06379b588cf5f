/** Decoding what was encoded gives the value back. */
module PbRoundTrip {
  import opened Bytes
  import opened Words
  import opened PbWire
  import opened PbMessage
  import opened PbEncoding
  import opened PbDecoding

  // Scalars.

  lemma {:induction false} LittleEndianRoundTrip(x: nat, size: nat)
    requires x < Pow2(8 * size)
    ensures FromLittleEndian(LittleEndian(x, size)) == x
  {
    if size > 0 {
      Pow2Plus8(8 * (size - 1));
      LittleEndianRoundTrip(x / 256, size - 1);
      assert LittleEndian(x, size)[1..] == LittleEndian(x / 256, size - 1);
    }
  }

  lemma DelimitedOfString(s: seq<byte>, rest: seq<byte>)
    requires |s| < TWO32
    ensures Delimited(EncodeString(s) + rest) == Some(Read(s, |EncodeString(s)|))
  {
    var e := EncodeVarint(|s|);
    var bs := EncodeString(s) + rest;
    assert bs == e + (s + rest);
    Varint32OfCanonical(|s|, s + rest);
    assert bs[|e|..|e| + |s|] == s;
  }

  lemma TagRoundTrip(wireType: nat, tag: u32, rest: seq<byte>)
    requires wireType < 8 && 0 < tag < 0x2000_0000
    ensures DecodeTag(EncodeTag(wireType, tag) + rest) == Tag(wireType, tag, |EncodeTag(wireType, tag)|)
  {
    Varint32OfCanonical(tag as int * 8 + wireType, rest);
  }

  lemma FixedRoundTrip(n: nat, size: nat, rest: seq<byte>)
    requires n < Pow2(8 * size)
    ensures DecFixed(size, LittleEndian(n, size) + rest) == Some(Read(Num(n), size))
  {
    LittleEndianRoundTrip(n, size);
    assert (LittleEndian(n, size) + rest)[..size] == LittleEndian(n, size);
  }

  lemma {:induction false} ScalarRoundTrip(l: LType, dataSize: nat, v: Val, rest: seq<byte>)
    requires ValOk(l, dataSize, v) && !l.Submessage? && dataSize <= PB_SIZE_MAX
    ensures EncVal(l, dataSize, v).Some?
    ensures var e := EncVal(l, dataSize, v).value;
            |e| < TWO32 ==> DecVal(l, dataSize, [], e + rest) == Some(Read(NormVal(l, dataSize, v), |e|))
  {
    var e := EncVal(l, dataSize, v).value;
    match l {
      case Varint => VarintRoundTrip(ToU64(v.n), rest); SignedCast(v.n, dataSize);
      case UVarint => VarintRoundTrip(v.n, rest);
      case SVarint => VarintRoundTrip(Zigzag(v.n), rest); ZigzagRoundTrip(v.n);
      case Fixed32 => Pow2Of32(); FixedRoundTrip(v.n, 4, rest);
      case Fixed64 => Pow2Of64(); FixedRoundTrip(v.n, 8, rest);
      case ByteArray => if |e| < TWO32 { DelimitedOfString(v.bytes, rest); }
      case CString => if |e| < TWO32 { DelimitedOfString(CStr(v.bytes, dataSize), rest); }
      case FixedBytes =>
        if |e| < TWO32 {
          DelimitedOfString(v.bytes, rest);
          assert v.bytes == [] ==> seq(dataSize, _ => 0) == v.bytes;
        }
    }
  }

  /** Sign extension to 64 bits and the cast back keep the value, in every field size. */
  lemma SignedCast(n: int, dataSize: nat)
    requires IntSize(dataSize) && -HalfRange(dataSize) <= n < HalfRange(dataSize)
    ensures (if dataSize == 8 then ToI64(ToU64(n)) else ToI32(ToU64(n))) == n
  {
    if dataSize != 8 && n < 0 { DivModIs(n + TWO64, TWO32, TWO32 - 1, n + TWO32); }
  }

  // One field of the loop in pb_decode_noinit.

  lemma FindsIt(fields: seq<Field>, i: nat)
    requires SchemaOk(fields) && i < |fields|
    ensures FindField(fields, fields[i].tag) == Some(i)
  {
    var j := FindField(fields, fields[i].tag).value;
    assert fields[j].tag == fields[i].tag;
  }

  /** Reading a tag and then what DecSlot takes is one turn of the loop. */
  lemma TaggedStep(fields: seq<Field>, slots: seq<Slot>, seen: set<nat>, i: nat, wireType: nat,
                   payload: seq<byte>, rest: seq<byte>, s: Slot)
    requires |slots| == |fields| && SchemaOk(fields) && i < |fields| && wireType < 8
    requires DecSlot(fields[i], slots[i], wireType, payload + rest) == Some(Read(s, |payload|))
    ensures DecLoop(fields, slots, seen, EncodeTag(wireType, fields[i].tag) + payload + rest)
         == DecLoop(fields, Store(fields, slots, i, s), seen + SeenBy(fields, i), rest)
  {
    assert FieldOk(fields[i]);
    var tag := EncodeTag(wireType, fields[i].tag);
    var bs := tag + payload + rest;
    assert bs == tag + (payload + rest);
    TagRoundTrip(wireType, fields[i].tag, payload + rest);
    FindsIt(fields, i);
    assert bs[|tag|..] == payload + rest;
    assert (payload + rest)[|payload|..] == rest;
  }

  // Fields the descriptor does not know.

  /** g is a run of well-formed records none of whose tags the descriptor knows. */
  ghost predicate Unknown(fields: seq<Field>, g: seq<byte>)
    decreases |g|
  {
    g == [] ||
    match DecodeTag(g)
    case Tag(wireType, tag, used) =>
      FindField(fields, tag) == None && !(fields == [] && tag == 0) &&
      (match SkipField(wireType, g[used..]) case None => false case Some(n) => Unknown(fields, g[used..][n..]))
    case _ => false
  }

  lemma {:induction false} More32Extends(bs: seq<byte>, i: nat, result: u32, bitpos: nat, rest: seq<byte>)
    requires i <= |bs| && More32(bs, i, result, bitpos).Some?
    ensures More32(bs + rest, i, result, bitpos) == More32(bs, i, result, bitpos)
    decreases |bs| - i
  {
    assert (bs + rest)[i] == bs[i];
    if bs[i] >= 128 {
      var next := if bitpos >= 32 then result else Add32(result, bs[i], bitpos);
      More32Extends(bs, i + 1, next, bitpos + 7, rest);
    }
  }

  lemma Varint32Extends(bs: seq<byte>, rest: seq<byte>)
    requires DecodeVarint32(bs).Some?
    ensures DecodeVarint32(bs + rest) == DecodeVarint32(bs)
  {
    assert (bs + rest)[0] == bs[0];
    if bs[0] >= 128 { More32Extends(bs, 1, Payload(bs[0]), 7, rest); }
  }

  lemma {:induction false} RawVarintExtends(bs: seq<byte>, rest: seq<byte>)
    requires RawVarint(bs).Some?
    ensures RawVarint(bs + rest) == RawVarint(bs)
    decreases |bs|
  {
    if bs[0] >= 128 {
      RawVarintExtends(bs[1..], rest);
      assert (bs + rest)[1..] == bs[1..] + rest;
    }
  }

  lemma SkipExtends(wireType: nat, bs: seq<byte>, rest: seq<byte>)
    requires SkipField(wireType, bs).Some?
    ensures SkipField(wireType, bs + rest) == SkipField(wireType, bs)
  {
    if wireType == 0 { RawVarintExtends(bs, rest); }
    if wireType == 2 { Varint32Extends(bs, rest); }
  }

  /** Reading over one record the descriptor does not know. */
  lemma UnknownStep(fields: seq<Field>, slots: seq<Slot>, seen: set<nat>, bs: seq<byte>)
    requires |slots| == |fields| && bs != [] && DecodeTag(bs).Tag?
    requires FindField(fields, DecodeTag(bs).tag) == None && !(fields == [] && DecodeTag(bs).tag == 0)
    requires SkipField(DecodeTag(bs).wireType, bs[DecodeTag(bs).used..]).Some?
    ensures var Tag(wireType, _, used) := DecodeTag(bs);
            var n := SkipField(wireType, bs[used..]).value;
            DecLoop(fields, slots, seen, bs) == DecLoop(fields, slots, seen, bs[used..][n..])
  {
  }

  /** The first record of g is also that of g followed by anything. */
  lemma FirstRecord(g: seq<byte>, rest: seq<byte>)
    requires g != [] && DecodeTag(g).Tag? && SkipField(DecodeTag(g).wireType, g[DecodeTag(g).used..]).Some?
    ensures var Tag(wireType, _, used) := DecodeTag(g);
            var n := SkipField(wireType, g[used..]).value;
            DecodeTag(g + rest) == DecodeTag(g)
            && SkipField(wireType, (g + rest)[used..]) == Some(n)
            && (g + rest)[used..][n..] == g[used..][n..] + rest
  {
    var Tag(wireType, _, used) := DecodeTag(g);
    Varint32Extends(g, rest);
    assert (g + rest)[used..] == g[used..] + rest;
    SkipExtends(wireType, g[used..], rest);
  }

  /** Unknown records are read over without effect. */
  lemma {:induction false} UnknownSkipped(fields: seq<Field>, slots: seq<Slot>, seen: set<nat>, g: seq<byte>,
                                          rest: seq<byte>)
    requires |slots| == |fields| && Unknown(fields, g)
    ensures DecLoop(fields, slots, seen, g + rest) == DecLoop(fields, slots, seen, rest)
    decreases |g|
  {
    if g == [] {
      assert g + rest == rest;
    } else {
      FirstRecord(g, rest);
      UnknownStep(fields, slots, seen, g + rest);
      var Tag(wireType, tag, used) := DecodeTag(g);
      var n := SkipField(wireType, g[used..]).value;
      UnknownSkipped(fields, slots, seen, g[used..][n..], rest);
    }
  }

  // What decoding has built up when the first i fields are done.

  function Halfway(fields: seq<Field>, vals: seq<Slot>, i: nat): (slots: seq<Slot>)
    requires |vals| == |fields| && i <= |fields|
    ensures |slots| == |fields|
  {
    seq(|fields|, j requires 0 <= j < |fields| => if j < i then NormSlot(fields[j], vals[j]) else InitSlot(fields[j]))
  }

  function SeenUpTo(fields: seq<Field>, i: nat): set<nat>
    requires i <= |fields|
  {
    if i == 0 then {} else SeenUpTo(fields, i - 1) + SeenBy(fields, i - 1)
  }

  /** Storing the decoded field i moves on by one, oneofs included. */
  lemma StoreMovesOn(fields: seq<Field>, vals: seq<Slot>, i: nat)
    requires SlotsOk(fields, vals) && i < |fields|
    requires SlotOk(fields[i], vals[i]) && (fields[i].htype.OneOf? ==> Chosen(vals[i]))
    ensures Store(fields, Halfway(fields, vals, i), i, NormSlot(fields[i], vals[i])) == Halfway(fields, vals, i + 1)
  {
    forall j | 0 <= j < |fields| && j != i && SameGroup(fields[i], fields[j])
      ensures Halfway(fields, vals, i + 1)[j] == Alt(None)
    {
      assert SlotOk(fields[j], vals[j]);
      if j < i { assert SameGroup(fields[j], fields[i]); }
    }
  }

  lemma NothingMovesOn(fields: seq<Field>, vals: seq<Slot>, i: nat)
    requires |vals| == |fields| && i < |fields| && NormSlot(fields[i], vals[i]) == InitSlot(fields[i])
    ensures Halfway(fields, vals, i + 1) == Halfway(fields, vals, i)
  {
  }

  // Fields at their proto3 default are not written, and decode to what they were initialised with.

  lemma {:induction false} DefaultIsInit(f: Field, s: Slot)
    requires FieldOk(f) && SlotOk(f, s) && IsDefault3(f, s)
    ensures NormSlot(f, s) == InitSlot(f)
    decreases f
  {
    if s.One? && f.ltype.Submessage? {
      var fields := f.ltype.fields;
      assert ValOk(f.ltype, f.dataSize, s.v) && SlotsOk(fields, s.v.slots) && SchemaOk(fields);
      forall i | 0 <= i < |fields| ensures NormSlot(fields[i], s.v.slots[i]) == InitSlot(fields[i]) {
        DefaultIsInit(fields[i], s.v.slots[i]);
      }
      assert NormSlots(fields, s.v.slots) == InitSlots(fields);
    }
  }

  // In-bounds values always encode.

  lemma {:induction false} ValEncodes(l: LType, dataSize: nat, v: Val)
    requires ValOk(l, dataSize, v)
    ensures EncVal(l, dataSize, v).Some?
    decreases l, 0, 0
  {
    match l {
      case Submessage(fields) => SlotsEncode(fields, v.slots, 0);
      case _ =>
    }
  }

  lemma {:induction false} ItemsEncode(f: Field, items: seq<Val>)
    requires forall v | v in items :: ValOk(f.ltype, f.dataSize, v)
    ensures EncUnpacked(f, items).Some? && EncPacked(f.ltype, f.dataSize, items).Some?
    decreases f, 1, |items|
  {
    if items != [] {
      ValEncodes(f.ltype, f.dataSize, items[0]);
      ItemsEncode(f, items[1..]);
    }
  }

  lemma {:induction false} SlotEncodes(f: Field, s: Slot)
    requires SlotOk(f, s)
    ensures EncSlot(f, s).Some?
    decreases f, 2, 0
  {
    match s {
      case One(v) => ValEncodes(f.ltype, f.dataSize, v);
      case Opt(has, v) => if has { ValEncodes(f.ltype, f.dataSize, v); }
      case Many(items) => ItemsEncode(f, items);
      case Alt(sel) => if sel.Some? { ValEncodes(f.ltype, f.dataSize, sel.value); }
    }
  }

  lemma {:induction false} SlotsEncode(fields: seq<Field>, slots: seq<Slot>, i: nat)
    requires SlotsOk(fields, slots) && i <= |fields|
    ensures EncSlots(fields, slots, i).Some?
    decreases fields, 3, |fields| - i
  {
    if i < |fields| {
      SlotEncodes(fields[i], slots[i]);
      SlotsEncode(fields, slots, i + 1);
    }
  }

  // Arrays.

  /** Reading one item of a packed array. */
  lemma PackedStep(l: LType, dataSize: nat, done: seq<Val>, v: Val, arraySize: nat, rest: seq<byte>)
    requires Packable(l) && dataSize <= PB_SIZE_MAX && |done| < arraySize && ValOk(l, dataSize, v)
    requires EncVal(l, dataSize, v).Some? && |EncVal(l, dataSize, v).value| < TWO32
    ensures DecPacked(l, dataSize, done, arraySize, EncVal(l, dataSize, v).value + rest)
         == DecPacked(l, dataSize, done + [v], arraySize, rest)
  {
    var e := EncVal(l, dataSize, v).value;
    ScalarRoundTrip(l, dataSize, v, rest);
    assert (e + rest)[|e|..] == rest;
  }

  lemma {:induction false} PackedRoundTrip(l: LType, dataSize: nat, done: seq<Val>, items: seq<Val>, arraySize: nat)
    requires Packable(l) && dataSize <= PB_SIZE_MAX && |done| + |items| <= arraySize
    requires forall v | v in items :: ValOk(l, dataSize, v)
    requires EncPacked(l, dataSize, items).Some? && |EncPacked(l, dataSize, items).value| < TWO32
    ensures DecPacked(l, dataSize, done, arraySize, EncPacked(l, dataSize, items).value) == Some(done + items)
    decreases |items|
  {
    if items == [] {
      assert done + items == done;
    } else {
      var rest := EncPacked(l, dataSize, items[1..]).value;
      PackedStep(l, dataSize, done, items[0], arraySize, rest);
      PackedRoundTrip(l, dataSize, done + [items[0]], items[1..], arraySize);
      assert done + [items[0]] + items[1..] == done + items;
    }
  }

  /** The memory of a field after the encoding of v has been decoded into it. */
  function Placed(f: Field, s: Slot, v: Val): Slot
    requires f.htype.Repeated? ==> s.Many?
  {
    Place(f, s, NormVal(f.ltype, f.dataSize, v))
  }

  /** The memory of an array after the encoding of more items has been decoded into it. */
  function Appended(f: Field, s: Slot, items: seq<Val>): Slot
    requires s.Many?
  {
    Many(s.items + NormSlot(f, Many(items)).items)
  }

  /** One tagged value: the loop stores it where the field's memory says. */
  lemma {:induction false} TaggedRoundTrip(fields: seq<Field>, slots: seq<Slot>, seen: set<nat>, i: nat, v: Val,
                                           rest: seq<byte>)
    requires |slots| == |fields| && SchemaOk(fields) && i < |fields|
    requires ValOk(fields[i].ltype, fields[i].dataSize, v)
    requires EncTagged(fields[i], v).Some? && |EncTagged(fields[i], v).value| < TWO32
    requires fields[i].htype.Repeated? ==>
      !Packable(fields[i].ltype) && slots[i].Many? && |slots[i].items| < fields[i].htype.arraySize
    requires fields[i].ltype.Submessage? ==> Target(fields[i], slots[i]) == InitSlots(fields[i].ltype.fields)
    ensures DecLoop(fields, slots, seen, EncTagged(fields[i], v).value + rest)
         == DecLoop(fields, Store(fields, slots, i, Placed(fields[i], slots[i], v)), seen + SeenBy(fields, i), rest)
    decreases fields, 0, 0
  {
    var f := fields[i];
    assert FieldOk(f);
    var payload := EncVal(f.ltype, f.dataSize, v).value;
    ValRoundTrip(f, v, Target(f, slots[i]), rest);
    var s := Placed(f, slots[i], v);
    assert DecSlot(f, slots[i], WireType(f.ltype), payload + rest) == Some(Read(s, |payload|));
    TaggedStep(fields, slots, seen, i, WireType(f.ltype), payload, rest, s);
  }

  lemma {:induction false} ValRoundTrip(f: Field, v: Val, target: seq<Slot>, rest: seq<byte>)
    requires FieldOk(f) && ValOk(f.ltype, f.dataSize, v)
    requires target == if f.ltype.Submessage? then InitSlots(f.ltype.fields) else []
    requires EncVal(f.ltype, f.dataSize, v).Some? && |EncVal(f.ltype, f.dataSize, v).value| < TWO32
    ensures var e := EncVal(f.ltype, f.dataSize, v).value;
            DecVal(f.ltype, f.dataSize, target, e + rest) == Some(Read(NormVal(f.ltype, f.dataSize, v), |e|))
    decreases f, 4, 0
  {
    if f.ltype.Submessage? {
      var fields := f.ltype.fields;
      var body := EncSlots(fields, v.slots, 0).value;
      DelimitedOfString(body, rest);
      PlainRoundTrip(fields, v.slots);
    } else {
      ScalarRoundTrip(f.ltype, f.dataSize, v, rest);
    }
  }

  lemma {:induction false} UnpackedRoundTrip(fields: seq<Field>, slots: seq<Slot>, seen: set<nat>, i: nat,
                                             items: seq<Val>, rest: seq<byte>)
    requires |slots| == |fields| && SchemaOk(fields) && i < |fields|
    requires fields[i].htype.Repeated? && !Packable(fields[i].ltype)
    requires slots[i].Many? && |slots[i].items| + |items| <= fields[i].htype.arraySize
    requires forall v | v in items :: ValOk(fields[i].ltype, fields[i].dataSize, v)
    requires EncUnpacked(fields[i], items).Some? && |EncUnpacked(fields[i], items).value| < TWO32
    ensures DecLoop(fields, slots, seen, EncUnpacked(fields[i], items).value + rest)
         == DecLoop(fields, slots[i := Appended(fields[i], slots[i], items)], seen, rest)
    decreases fields, 1, |items|
  {
    var f := fields[i];
    if items == [] {
      assert slots[i].items + NormSlot(f, Many(items)).items == slots[i].items;
      assert slots[i := slots[i]] == slots;
      assert [] + rest == rest;
    } else {
      var more := EncUnpacked(f, items[1..]).value;
      var next := slots[i := Placed(f, slots[i], items[0])];
      UnpackedStep(fields, slots, seen, i, items[0], more, rest);
      UnpackedRoundTrip(fields, next, seen, i, items[1..], rest);
      NormItems(f, slots[i].items, items);
      assert next[i := Appended(f, next[i], items[1..])] == slots[i := Appended(f, slots[i], items)];
    }
  }

  /** Reading one item of an array that is not packed. */
  lemma {:induction false} UnpackedStep(fields: seq<Field>, slots: seq<Slot>, seen: set<nat>, i: nat,
                                        v: Val, more: seq<byte>, rest: seq<byte>)
    requires |slots| == |fields| && SchemaOk(fields) && i < |fields|
    requires fields[i].htype.Repeated? && !Packable(fields[i].ltype)
    requires slots[i].Many? && |slots[i].items| < fields[i].htype.arraySize
    requires ValOk(fields[i].ltype, fields[i].dataSize, v)
    requires EncTagged(fields[i], v).Some? && |EncTagged(fields[i], v).value| < TWO32
    ensures DecLoop(fields, slots, seen, EncTagged(fields[i], v).value + more + rest)
         == DecLoop(fields, slots[i := Placed(fields[i], slots[i], v)], seen, more + rest)
    decreases fields, 0, 1
  {
    var e, s := EncTagged(fields[i], v).value, Placed(fields[i], slots[i], v);
    TaggedRoundTrip(fields, slots, seen, i, v, more + rest);
    assert e + more + rest == e + (more + rest);
    assert Store(fields, slots, i, s) == slots[i := s];
    assert seen + SeenBy(fields, i) == seen;
  }

  lemma NormItems(f: Field, done: seq<Val>, items: seq<Val>)
    requires items != []
    ensures done + [NormVal(f.ltype, f.dataSize, items[0])] + NormSlot(f, Many(items[1..])).items
         == done + NormSlot(f, Many(items)).items
  {
  }

  /** A packed array is one tagged string. */
  lemma PackedFieldRoundTrip(fields: seq<Field>, slots: seq<Slot>, seen: set<nat>, i: nat, items: seq<Val>,
                             rest: seq<byte>)
    requires |slots| == |fields| && SchemaOk(fields) && i < |fields|
    requires fields[i].htype.Repeated? && Packable(fields[i].ltype) && items != []
    requires slots[i] == Many([]) && |items| <= fields[i].htype.arraySize
    requires forall v | v in items :: ValOk(fields[i].ltype, fields[i].dataSize, v)
    requires EncSlot(fields[i], Many(items)).Some? && |EncSlot(fields[i], Many(items)).value| < TWO32
    ensures DecLoop(fields, slots, seen, EncSlot(fields[i], Many(items)).value + rest)
         == DecLoop(fields, slots[i := Many(items)], seen, rest)
  {
    var f := fields[i];
    assert FieldOk(f);
    var body := EncPacked(f.ltype, f.dataSize, items).value;
    PackedRoundTrip(f.ltype, f.dataSize, [], items, f.htype.arraySize);
    assert [] + items == items;
    DelimitedOfString(body, rest);
    TaggedStep(fields, slots, seen, i, 2, EncodeString(body), rest, Many(items));
    assert Store(fields, slots, i, Many(items)) == slots[i := Many(items)];
    assert seen + SeenBy(fields, i) == seen;
  }

  // Whole messages.

  /** The encoding of fields i and up, with the runs of unknown records gaps before, between and after. */
  function Woven(fields: seq<Field>, vals: seq<Slot>, gaps: seq<seq<byte>>, i: nat): Output
    requires |vals| == |fields| && |gaps| == |fields| + 1 && i <= |fields|
    decreases |fields| - i
  {
    Join(Some(gaps[i]),
         if i == |fields| then Some([]) else Join(EncSlot(fields[i], vals[i]), Woven(fields, vals, gaps, i + 1)))
  }

  /** Decoding the encoding of field i turns the first i fields decoded into the first i + 1. */
  lemma {:induction false} SlotRoundTrip(fields: seq<Field>, vals: seq<Slot>, i: nat, rest: seq<byte>)
    requires SchemaOk(fields) && SlotsOk(fields, vals) && i < |fields|
    requires EncSlot(fields[i], vals[i]).Some? && |EncSlot(fields[i], vals[i]).value| < TWO32
    ensures DecLoop(fields, Halfway(fields, vals, i), SeenUpTo(fields, i), EncSlot(fields[i], vals[i]).value + rest)
         == DecLoop(fields, Halfway(fields, vals, i + 1), SeenUpTo(fields, i + 1), rest)
    decreases fields, 2, 0
  {
    var f, s, slots, seen := fields[i], vals[i], Halfway(fields, vals, i), SeenUpTo(fields, i);
    var e := EncSlot(f, s).value;
    assert FieldOk(f) && SlotOk(f, s) && slots[i] == InitSlot(f);
    if NormSlot(f, s) == InitSlot(f) { NothingMovesOn(fields, vals, i); }
    if f.htype != Required { assert seen + SeenBy(fields, i) == seen; }
    if s.Many? {
      if s.items == [] {
        assert NormSlot(f, s).items == [];
        assert e + rest == rest;
      } else if Packable(f.ltype) {
        PackedFieldRoundTrip(fields, slots, seen, i, s.items, rest);
        assert NormSlot(f, s).items == s.items;
        assert slots[i := s] == Halfway(fields, vals, i + 1);
      } else {
        UnpackedRoundTrip(fields, slots, seen, i, s.items, rest);
        assert [] + NormSlot(f, s).items == NormSlot(f, s).items;
        assert slots[i := NormSlot(f, s)] == Halfway(fields, vals, i + 1);
      }
    } else if s == Alt(None) || (s.Opt? && !s.has) {
      assert e + rest == rest;
    } else if s.One? && f.htype != Required && IsDefault3(f, s) {
      DefaultIsInit(f, s);
      assert e + rest == rest;
    } else {
      var v := if s.Alt? then s.sel.value else s.v;
      TaggedRoundTrip(fields, slots, seen, i, v, rest);
      StoreMovesOn(fields, vals, i);
    }
  }

  lemma {:induction false} AllRequiredSeen(fields: seq<Field>, i: nat, k: nat)
    requires i <= |fields| && k < RequiredBefore(fields, i) && k < MAX_REQUIRED_FIELDS
    ensures k in SeenUpTo(fields, i)
  {
    if k < RequiredBefore(fields, i - 1) { AllRequiredSeen(fields, i - 1, k); }
  }

  lemma {:induction false} WovenRoundTrip(fields: seq<Field>, vals: seq<Slot>, gaps: seq<seq<byte>>, i: nat)
    requires SchemaOk(fields) && SlotsOk(fields, vals) && i <= |fields|
    requires |gaps| == |fields| + 1 && forall g | g in gaps :: Unknown(fields, g)
    requires Woven(fields, vals, gaps, i).Some? && |Woven(fields, vals, gaps, i).value| < TWO32
    ensures DecLoop(fields, Halfway(fields, vals, i), SeenUpTo(fields, i), Woven(fields, vals, gaps, i).value)
         == Some(NormSlots(fields, vals))
    decreases fields, 3, |fields| - i
  {
    var slots, seen := Halfway(fields, vals, i), SeenUpTo(fields, i);
    if i == |fields| {
      UnknownSkipped(fields, slots, seen, gaps[i], []);
      forall k | 0 <= k < RequiredBefore(fields, i) && k < MAX_REQUIRED_FIELDS ensures k in seen {
        AllRequiredSeen(fields, i, k);
      }
      assert slots == NormSlots(fields, vals);
    } else {
      var e, rest := EncSlot(fields[i], vals[i]).value, Woven(fields, vals, gaps, i + 1).value;
      UnknownSkipped(fields, slots, seen, gaps[i], e + rest);
      SlotRoundTrip(fields, vals, i, rest);
      WovenRoundTrip(fields, vals, gaps, i + 1);
    }
  }

  /** Without gaps, the weave is the encoding. */
  lemma {:induction false} PlainWeave(fields: seq<Field>, vals: seq<Slot>, gaps: seq<seq<byte>>, i: nat)
    requires |vals| == |fields| && |gaps| == |fields| + 1 && i <= |fields|
    requires forall k | 0 <= k < |gaps| :: gaps[k] == []
    ensures Woven(fields, vals, gaps, i) == EncSlots(fields, vals, i)
    decreases |fields| - i
  {
    if i < |fields| { PlainWeave(fields, vals, gaps, i + 1); }
    var e := EncSlots(fields, vals, i);
    if e.Some? { assert [] + e.value == e.value; }
  }

  lemma {:induction false} PlainRoundTrip(fields: seq<Field>, vals: seq<Slot>)
    requires SchemaOk(fields) && SlotsOk(fields, vals)
    requires Encode(fields, vals).Some? && |Encode(fields, vals).value| < TWO32
    ensures Decode(fields, Encode(fields, vals).value) == Some(NormSlots(fields, vals))
    decreases fields, 4, 0
  {
    var gaps: seq<seq<byte>> := seq(|fields| + 1, _ => []);
    PlainWeave(fields, vals, gaps, 0);
    WovenRoundTrip(fields, vals, gaps, 0);
    assert Halfway(fields, vals, 0) == InitSlots(fields);
  }

  /**
   Every in-bounds value encodes; decoding its encoding, with any well-formed unknown fields before, between
   and after the top-level fields, gives the value back.
   */
  lemma DecodeInvertsEncode(fields: seq<Field>, vals: seq<Slot>, gaps: seq<seq<byte>>)
    requires SchemaOk(fields) && SlotsOk(fields, vals)
    requires |gaps| == |fields| + 1 && forall g | g in gaps :: Unknown(fields, g)
    ensures Encode(fields, vals).Some? && Woven(fields, vals, gaps, 0).Some?
    ensures var bytes := Woven(fields, vals, gaps, 0).value;
            |bytes| < TWO32 ==> Decode(fields, bytes) == Some(NormSlots(fields, vals))
  {
    SlotsEncode(fields, vals, 0);
    WeaveEncodes(fields, vals, gaps, 0);
    assert Halfway(fields, vals, 0) == InitSlots(fields);
    if |Woven(fields, vals, gaps, 0).value| < TWO32 { WovenRoundTrip(fields, vals, gaps, 0); }
  }

  lemma {:induction false} WeaveEncodes(fields: seq<Field>, vals: seq<Slot>, gaps: seq<seq<byte>>, i: nat)
    requires SlotsOk(fields, vals) && |gaps| == |fields| + 1 && i <= |fields|
    ensures Woven(fields, vals, gaps, i).Some?
    decreases |fields| - i
  {
    if i < |fields| {
      SlotEncodes(fields[i], vals[i]);
      WeaveEncodes(fields, vals, gaps, i + 1);
    }
  }
}
