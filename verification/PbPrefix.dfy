/** Decoding on longer inputs: no record is read differently for what follows it, and only a zero tag hides bytes. */
module PbPrefix {
  import opened Bytes
  import opened PbWire
  import opened PbMessage
  import opened PbDecoding

  // One varint, one delimited string, one field: bytes behind it change nothing.

  lemma {:induction false} RawVarintAppend(bs: Input, q: Input)
    requires RawVarint(bs).Some?
    ensures RawVarint(bs + q) == RawVarint(bs)
    decreases |bs|
  {
    if bs[0] >= 128 {
      RawVarintAppend(bs[1..], q);
      assert (bs + q)[1..] == bs[1..] + q;
    }
  }

  lemma {:induction false} More32Append(bs: Input, q: Input, i: nat, result: u32, bitpos: nat)
    requires i <= |bs| && More32(bs, i, result, bitpos).Some?
    ensures More32(bs + q, i, result, bitpos) == More32(bs, i, result, bitpos)
    decreases |bs| - i
  {
    var b := bs[i];
    assert (bs + q)[i] == b;
    if b >= 128 { More32Append(bs, q, i + 1, if bitpos >= 32 then result else Add32(result, b, bitpos), bitpos + 7); }
  }

  lemma Varint32Append(bs: Input, q: Input)
    requires DecodeVarint32(bs).Some?
    ensures DecodeVarint32(bs + q) == DecodeVarint32(bs)
  {
    if bs[0] >= 128 { More32Append(bs, q, 1, Payload(bs[0]), 7); }
  }

  lemma DelimitedAppend(bs: Input, q: Input)
    requires Delimited(bs).Some?
    ensures Delimited(bs + q) == Delimited(bs)
  {
    Varint32Append(bs, q);
    var Read(size, used) := DecodeVarint32(bs).value;
    assert (bs + q)[used..used + size] == bs[used..used + size];
  }

  lemma SkipAppend(wireType: nat, bs: Input, q: Input)
    requires SkipField(wireType, bs).Some?
    ensures SkipField(wireType, bs + q) == SkipField(wireType, bs)
  {
    if wireType == 0 { RawVarintAppend(bs, q); } else if wireType == 2 { DelimitedAppend(bs, q); }
  }

  lemma FixedAppend(size: nat, bs: Input, q: Input)
    requires DecFixed(size, bs).Some?
    ensures DecFixed(size, bs + q) == DecFixed(size, bs)
  {
    assert (bs + q)[..size] == bs[..size];
  }

  lemma ValAppend(l: LType, dataSize: nat, slots: seq<Slot>, bs: Input, q: Input)
    requires DecVal(l, dataSize, slots, bs).Some?
    ensures DecVal(l, dataSize, slots, bs + q) == DecVal(l, dataSize, slots, bs)
  {
    if l.Fixed32? {
      FixedAppend(4, bs, q);
    } else if l.Fixed64? {
      FixedAppend(8, bs, q);
    } else if l.Varint? || l.UVarint? || l.SVarint? {
      RawVarintAppend(bs, q);
    } else {
      DelimitedAppend(bs, q);
    }
  }

  /** One record of a field, packed or not, submessages of any depth included. */
  lemma SlotAppend(f: Field, s: Slot, wireType: nat, bs: Input, q: Input)
    requires DecSlot(f, s, wireType, bs).Some?
    ensures DecSlot(f, s, wireType, bs + q) == DecSlot(f, s, wireType, bs)
  {
    hide DecVal, DecPacked, Delimited;
    if f.htype.Repeated? && wireType == 2 && Packable(f.ltype) {
      DelimitedAppend(bs, q);
    } else {
      ValAppend(f.ltype, f.dataSize, Target(f, s), bs, q);
    }
  }

  lemma TagAppend(bs: Input, q: Input)
    requires !DecodeTag(bs).TagFail?
    ensures DecodeTag(bs + q) == DecodeTag(bs)
  {
    Varint32Append(bs, q);
  }

  // The message.

  /** The bytes of one record behind its tag, and the slots and required fields once it has been read. */
  datatype Step = Fails | Next(slots: seq<Slot>, seen: set<nat>, used: nat)

  function Record(fields: seq<Field>, slots: seq<Slot>, seen: set<nat>, wireType: nat, tag: nat, rest: Input): (s: Step)
    requires |slots| == |fields|
    ensures s.Next? ==> |s.slots| == |fields| && s.used <= |rest|
  {
    if fields == [] && tag == 0 then Fails
    else match FindField(fields, tag)
      case None => (match SkipField(wireType, rest) case None => Fails case Some(n) => Next(slots, seen, n))
      case Some(i) =>
        (match DecSlot(fields[i], slots[i], wireType, rest)
         case None => Fails
         case Some(Read(s, n)) => Next(Store(fields, slots, i, s), seen + SeenBy(fields, i), n))
  }

  lemma LoopIs(fields: seq<Field>, slots: seq<Slot>, seen: set<nat>, bs: Input)
    requires |slots| == |fields| && bs != [] && DecodeTag(bs).Tag?
    ensures var Tag(wireType, tag, used) := DecodeTag(bs);
            var rest := bs[used..];
            DecLoop(fields, slots, seen, bs)
            == match Record(fields, slots, seen, wireType, tag, rest)
               case Fails => None
               case Next(next, more, n) => DecLoop(fields, next, more, rest[n..])
  {
  }

  lemma RecordAppend(fields: seq<Field>, slots: seq<Slot>, seen: set<nat>, wireType: nat, tag: nat, rest: Input,
                     q: Input)
    requires |slots| == |fields| && Record(fields, slots, seen, wireType, tag, rest).Next?
    ensures Record(fields, slots, seen, wireType, tag, rest + q) == Record(fields, slots, seen, wireType, tag, rest)
  {
    hide DecSlot, SkipField;
    match FindField(fields, tag) {
      case None => SkipAppend(wireType, rest, q);
      case Some(i) => SlotAppend(fields[i], slots[i], wireType, rest, q);
    }
  }

  /** Where one record ends and the next should begin, there is a tag of value zero. */
  predicate ZeroTag(fields: seq<Field>, slots: seq<Slot>, bs: Input)
    requires |slots| == |fields|
    decreases |bs|
  {
    bs != [] &&
    match DecodeTag(bs)
    case TagFail => false
    case TagEnd => true
    case Tag(wireType, tag, used) =>
      match Record(fields, slots, {}, wireType, tag, bs[used..])
      case Fails => false
      case Next(next, _, n) => ZeroTag(fields, next, bs[used..][n..])
  }

  /** A varint of one byte that says that more follow, and none does. */
  const BROKEN: Input := [128]

  lemma BrokenFails(fields: seq<Field>, slots: seq<Slot>, seen: set<nat>)
    requires |slots| == |fields|
    ensures DecLoop(fields, slots, seen, BROKEN) == None
  {
    assert DecodeTag(BROKEN) == TagFail;
  }

  lemma RecordSlots(fields: seq<Field>, slots: seq<Slot>, seen: set<nat>, more: set<nat>, wireType: nat, tag: nat,
                    rest: Input)
    requires |slots| == |fields|
    ensures var one, two := Record(fields, slots, seen, wireType, tag, rest),
                            Record(fields, slots, more, wireType, tag, rest);
            one.Next? == two.Next? && (one.Next? ==> one.slots == two.slots && one.used == two.used)
  {
    hide DecSlot, SkipField;
  }

  /** What follows an accepted input is ignored if it has a zero tag, and otherwise read as part of it. */
  lemma {:induction false} LoopAppend(fields: seq<Field>, slots: seq<Slot>, seen: set<nat>, p: Input, q: Input)
    requires |slots| == |fields| && DecLoop(fields, slots, seen, p).Some?
    ensures ZeroTag(fields, slots, p) ==> DecLoop(fields, slots, seen, p + q) == DecLoop(fields, slots, seen, p)
    ensures !ZeroTag(fields, slots, p) && q == BROKEN ==> DecLoop(fields, slots, seen, p + q) == None
    decreases |p|
  {
    hide DecSlot, SkipField, FindField, AllSeen, SeenBy, Store, DecodeVarint32;
    if p == [] {
      assert p + q == q;
      BrokenFails(fields, slots, seen);
    } else {
      TagAppend(p, q);
      if DecodeTag(p).Tag? {
        var Tag(wireType, tag, used) := DecodeTag(p);
        var rest := p[used..];
        assert (p + q)[used..] == rest + q;
        LoopIs(fields, slots, seen, p);
        LoopIs(fields, slots, seen, p + q);
        RecordSlots(fields, slots, {}, seen, wireType, tag, rest);
        RecordAppend(fields, slots, seen, wireType, tag, rest, q);
        var Next(next, more, n) := Record(fields, slots, seen, wireType, tag, rest);
        assert (rest + q)[n..] == rest[n..] + q;
        LoopAppend(fields, next, more, rest[n..], q);
      }
    }
  }

  /**
   An input that is accepted is accepted with the same value whatever follows it, exactly when a zero tag stands at
   the end of one of its records.
   */
  lemma HidesExactlyBehindZero(fields: seq<Field>, p: Input)
    requires Decode(fields, p).Some?
    ensures (forall q: Input :: Decode(fields, p + q) == Decode(fields, p))
       <==> ZeroTag(fields, InitSlots(fields), p)
  {
    hide DecLoop, ZeroTag;
    if ZeroTag(fields, InitSlots(fields), p) {
      forall q: Input ensures Decode(fields, p + q) == Decode(fields, p) {
        LoopAppend(fields, InitSlots(fields), {}, p, q);
      }
    } else {
      LoopAppend(fields, InitSlots(fields), {}, p, BROKEN);
      assert Decode(fields, p + BROKEN) == None;
    }
  }
}
