/**
 The decoder as it runs (pb_decode.c): input streams, substreams and the decoding loop. What is read is specified
 in PbDecoding.
 */
module PbDecoderClass {
  import opened Bytes
  import opened Words
  import opened PbWire
  import opened PbMessage
  import opened PbDecoding
  import opened PbIterator
  import PbRequired

  /** From before to after r was read; nothing is said of a failed stream but that reading failed. */
  ghost predicate Got<T>(before: Input, after: Input, ok: bool, v: T, r: Option<Read<T>>) {
    && (ok <==> r.Some?)
    && (ok ==> v == r.value.value && r.value.used <= |before| && after == before[r.value.used..])
  }

  // The digits read so far and those to come.

  /** low holds the digits before byte i, which fill n bits; the digits from byte i on are still to be read. */
  ghost predicate Split(bs: Input, i: nat, n: nat, low: nat) {
    && i <= |bs| && low < Shift(1, n)
    && RawVarint(bs) == match RawVarint(bs[i..])
                        case None => None
                        case Some(Read(t, k)) => Some(Read(low + Shift(t, n), i + k))
  }

  lemma SplitStart(bs: Input)
    ensures Split(bs, 0, 0, 0)
  {
    assert bs[0..] == bs;
  }

  function AddDigit(low: nat, b: byte, n: nat): nat {
    low + Shift(Payload(b), n)
  }

  lemma DigitFits(low: nat, b: byte, n: nat)
    requires low < Shift(1, n)
    ensures AddDigit(low, b, n) < Shift(1, n + 7)
  {
    ShiftAdd(Payload(b), 1, n);
    ShiftGrows(Payload(b) + 1, 128, n, n);
    Shift7(1, n);
  }

  lemma SplitStep(bs: Input, i: nat, n: nat, low: nat)
    requires Split(bs, i, n, low) && i < |bs| && bs[i] >= 128
    ensures Split(bs, i + 1, n + 7, AddDigit(low, bs[i], n))
  {
    assert bs[i..][1..] == bs[i + 1..];
    DigitFits(low, bs[i], n);
    match RawVarint(bs[i + 1..]) {
      case None =>
      case Some(Read(t, k)) =>
        VarintCons(bs[i..]);
        ShiftDigits(Payload(bs[i]), t, n);
    }
  }

  /** The last digit. */
  lemma SplitEnd(bs: Input, i: nat, n: nat, low: nat)
    requires Split(bs, i, n, low) && i < |bs| && bs[i] < 128
    ensures RawVarint(bs) == Some(Read(AddDigit(low, bs[i], n), i + 1))
  {
    assert RawVarint(bs[i..]) == Some(Read(bs[i] as nat, 1));
    assert Payload(bs[i]) == bs[i];
  }

  /** Without another byte there is no varint. */
  lemma SplitOut(bs: Input, i: nat, n: nat, low: nat)
    requires Split(bs, i, n, low)
    ensures i == |bs| ==> RawVarint(bs) == None
    ensures RawVarint(bs).Some? ==> RawVarint(bs).value.used > i
  {
  }

  lemma ModAdds64(a: nat, b: nat)
    ensures (a % TWO64 + b) % TWO64 == (a + b) % TWO64
  {
  }

  /** pb_istream_t over a memory buffer: state is the position in data. */
  class IStream {
    const data: Input
    var state: nat
    var bytesLeft: nat

    ghost predicate Valid()
      reads this
    {
      state + bytesLeft <= |data|
    }

    /** What is still to be read. */
    ghost function Rest(): (r: Input)
      requires Valid()
      reads this
      ensures |r| == bytesLeft
    {
      data[state..state + bytesLeft]
    }

    /** Where the stream ends in data: only an error moves it, and never forward. */
    ghost function End(): nat
      reads this
    {
      state + bytesLeft
    }

    /** pb_istream_from_buffer, and the copy that makes a substream. */
    constructor (data: Input, state: nat, size: nat)
      requires state + size <= |data|
      ensures Valid() && this.data == data && this.state == state && bytesLeft == size
    {
      this.data, this.state, bytesLeft := data, state, size;
    }

    /** pb_readbyte. */
    method ReadByte() returns (ok: bool, b: byte)
      requires Valid()
      modifies this
      ensures Valid() && End() == old(End()) && ok == (old(Rest()) != [])
      ensures if ok then state == old(state) + 1 && b == old(Rest())[0] && Rest() == old(Rest())[1..]
              else state == old(state)
    {
      if bytesLeft == 0 {
        return false, 0;
      }
      b := data[state];
      state, bytesLeft := state + 1, bytesLeft - 1;
      return true, b;
    }

    /** pb_read. */
    method ReadBytes(count: nat) returns (ok: bool, bytes: Input)
      requires Valid()
      modifies this
      ensures Valid() && End() == old(End())
      ensures Got(old(Rest()), Rest(), ok, bytes,
                  if count <= |old(Rest())| then Some(Read(old(Rest())[..count], count)) else None)
    {
      if bytesLeft < count {
        return false, [];
      }
      ghost var bs := Rest();
      bytes := data[state..state + count];
      state, bytesLeft := state + count, bytesLeft - count;
      assert bytes == bs[..count] && Rest() == bs[count..];
      return true, bytes;
    }

    /** pb_decode_varint32_eof. */
    method ReadVarint32() returns (ok: bool, dest: u32, eof: bool)
      requires Valid()
      modifies this
      ensures Valid() && End() == old(End())
      ensures Got(old(Rest()), Rest(), ok, dest, DecodeVarint32(old(Rest())))
      ensures eof == (old(Rest()) == [])
    {
      ghost var bs := Rest();
      var b;
      ok, b := ReadByte();
      if !ok {
        return false, 0, true;
      }
      if b < 128 {
        return true, b, false;
      }
      var result: u32, bitpos, more := Payload(b), 7, true;
      ghost var i := 1;
      while more
        invariant Valid() && End() == old(End()) && 1 <= i <= |bs| && Rest() == bs[i..]
        invariant more ==> More32(bs, i, result, bitpos) == DecodeVarint32(bs)
        invariant !more ==> b < 128 && DecodeVarint32(bs) ==
                            if bitpos == 35 && b / 16 != 0 then None else Some(Read(result, i))
        decreases more, |bs| - i
      {
        ok, b := ReadByte();
        if !ok {
          return false, 0, false;
        }
        if bitpos >= 32 {
          var signExtension := if bitpos < 63 then 0xff else 0x01;
          if Payload(b) != 0 && (result < TWO31 || b != signExtension) {
            return false, 0, false;
          }
        } else {
          result := Add32(result, b, bitpos);
        }
        bitpos := bitpos + 7;
        i := i + 1;
        more := b >= 128;
      }
      if bitpos == 35 && b / 16 != 0 {
        return false, 0, false;
      }
      return true, result, false;
    }

    /** One more digit of the varint at the front of bs. */
    method ReadDigit(ghost bs: Input, ghost i: nat, ghost n: nat, ghost low: nat) returns (ok: bool, b: byte)
      requires Valid() && Split(bs, i, n, low) && Rest() == bs[i..]
      modifies this
      ensures Valid() && End() == old(End()) && (!ok ==> RawVarint(bs) == None)
      ensures ok ==> i < |bs| && b == bs[i] && Rest() == bs[i + 1..]
                     && if b >= 128 then Split(bs, i + 1, n + 7, AddDigit(low, b, n))
                        else RawVarint(bs) == Some(Read(AddDigit(low, b, n), i + 1))
    {
      SplitOut(bs, i, n, low);
      ok, b := ReadByte();
      if ok {
        if b >= 128 { SplitStep(bs, i, n, low); } else { SplitEnd(bs, i, n, low); }
      }
    }

    /** pb_decode_varint. */
    method ReadVarint() returns (ok: bool, dest: u64)
      requires Valid()
      modifies this
      ensures Valid() && End() == old(End())
      ensures Got(old(Rest()), Rest(), ok, dest, DecodeVarint(old(Rest())))
    {
      hide Shift, Payload, Split;
      ghost var bs, i, low: nat := Rest(), 0, 0;
      var bitpos, result: u64, more := 0, 0, true;
      SplitStart(bs);
      while more
        invariant Valid() && End() == old(End()) && i <= |bs| && Rest() == bs[i..]
        invariant bitpos == 7 * i && i <= 10 && result == low % TWO64
        invariant if more then Split(bs, i, bitpos, low) else RawVarint(bs) == Some(Read(low, i))
        decreases more, |bs| - i
      {
        if bitpos >= 64 {
          SplitOut(bs, i, bitpos, low);
          return false, 0;
        }
        var b;
        ok, b := ReadDigit(bs, i, bitpos, low);
        if !ok {
          return false, 0;
        }
        ModAdds64(low, Shift(Payload(b), bitpos));
        result := (result + Shift(Payload(b), bitpos)) % TWO64;
        low, i := AddDigit(low, b, bitpos), i + 1;
        bitpos, more := bitpos + 7, b >= 128;
      }
      return true, result;
    }

    /** pb_skip_varint. */
    method SkipVarint() returns (ok: bool)
      requires Valid()
      modifies this
      ensures Valid() && End() == old(End()) && (ok <==> RawVarint(old(Rest())).Some?)
      ensures ok ==> Rest() == old(Rest())[RawVarint(old(Rest())).value.used..]
    {
      ghost var bs, i, n, low: nat := Rest(), 0, 0, 0;
      var more := true;
      SplitStart(bs);
      while more
        invariant Valid() && End() == old(End()) && i <= |bs| && Rest() == bs[i..] && n >= 0
        invariant if more then Split(bs, i, n, low) else RawVarint(bs) == Some(Read(low, i))
        decreases more, |bs| - i
      {
        var b;
        ok, b := ReadDigit(bs, i, n, low);
        if !ok {
          return false;
        }
        more := b >= 128;
        low, i, n := AddDigit(low, b, n), i + 1, n + 7;
      }
      return true;
    }

    /** A length and that many bytes, as pb_dec_bytes and pb_dec_string read them; at most limit are allowed. */
    method ReadString(limit: int) returns (ok: bool, bytes: Input)
      requires Valid()
      modifies this
      ensures Valid() && End() == old(End())
      ensures Got(old(Rest()), Rest(), ok, bytes, match Delimited(old(Rest()))
                                                  case None => None
                                                  case Some(r) => if |r.value| <= limit then Some(r) else None)
    {
      ghost var bs := Rest();
      var size, eof;
      ok, size, eof := ReadVarint32();
      if !ok || size > limit {
        return false, [];
      }
      ghost var used := DecodeVarint32(bs).value.used;
      assert size <= |bs| - used ==> bs[used..][..size] == bs[used..used + size];
      assert size <= |bs| - used ==> bs[used..][size..] == bs[used + size..];
      ok, bytes := ReadBytes(size);
    }

    /** pb_skip_field. */
    method Skip(wireType: nat) returns (ok: bool)
      requires Valid()
      modifies this
      ensures Valid() && End() == old(End()) && (ok <==> SkipField(wireType, old(Rest())).Some?)
      ensures ok ==> Rest() == old(Rest())[SkipField(wireType, old(Rest())).value..]
    {
      var bytes: Input;
      if wireType == 0 {
        ok := SkipVarint();
      } else if wireType == 1 {
        ok, bytes := ReadBytes(8);
      } else if wireType == 2 {
        var length, eof;
        ok, length, eof := ReadVarint32();
        if ok { ok, bytes := ReadBytes(length); }
      } else if wireType == 5 {
        ok, bytes := ReadBytes(4);
      } else {
        ok := false;
      }
    }

    /** pb_decode_tag. */
    method ReadTag() returns (ok: bool, wireType: nat, tag: u32, eof: bool)
      requires Valid() && Rest() != []
      modifies this
      ensures Valid() && End() == old(End()) && (ok || eof ==> bytesLeft <= old(bytesLeft))
      ensures match DecodeTag(old(Rest()))
              case TagFail => !ok && !eof
              case TagEnd => !ok && eof
              case Tag(w, t, used) => ok && !eof && wireType == w && tag == t && Rest() == old(Rest())[used..]
    {
      var temp;
      wireType, tag := 0, 0;
      ok, temp, eof := ReadVarint32();
      if !ok {
        return;
      }
      if temp == 0 {
        return false, 0, 0, true;
      }
      return true, temp % 8, temp / 8, false;
    }

    /** pb_make_string_substream: the body is cut off from this stream, which stays in front of it. */
    method MakeSubstream() returns (ok: bool, sub: IStream?)
      requires Valid()
      modifies this
      ensures Valid() && (ok <==> Delimited(old(Rest())).Some?) && End() <= old(End())
      ensures ok ==> sub != null && fresh(sub) && sub.Valid() && sub.data == data && sub.state == state
      ensures ok ==> sub.Rest() == Delimited(old(Rest())).value.value && End() + sub.bytesLeft == old(End())
      ensures ok ==> bytesLeft + Delimited(old(Rest())).value.used == old(bytesLeft)
    {
      var size, eof;
      sub := null;
      ok, size, eof := ReadVarint32();
      if !ok || bytesLeft < size {
        return false, null;
      }
      sub := new IStream(data, state, size);
      bytesLeft := bytesLeft - size;
      return true, sub;
    }

    /** pb_close_string_substream: what is left of the body is read over, and this stream goes on behind it. */
    method CloseSubstream(sub: IStream)
      requires Valid() && sub.Valid() && sub != this && sub.data == data && sub.End() + bytesLeft <= |data|
      modifies this, sub
      ensures Valid() && state == old(sub.End()) && bytesLeft == old(bytesLeft)
    {
      if sub.bytesLeft != 0 {
        var _, _ := sub.ReadBytes(sub.bytesLeft);
      }
      state := sub.state;
    }

    // Values, following the descriptor.

    /** pb_dec_varint, pb_dec_uvarint and pb_dec_svarint. */
    method ReadInt(l: LType, dataSize: nat) returns (ok: bool, v: Val)
      requires Valid() && (l.Varint? || l.UVarint? || l.SVarint?)
      modifies this
      ensures Valid() && End() == old(End())
      ensures Got(old(Rest()), Rest(), ok, v, DecVal(l, dataSize, [], old(Rest())))
    {
      var value;
      ok, value := ReadVarint();
      var n: int := value;
      if l.Varint? {
        n := if dataSize == 8 then ToI64(value) else ToI32(value);
      } else if l.SVarint? {
        n := Unzigzag(value);
      }
      v := Num(n);
      ok := ok && IntSize(dataSize)
            && if l.UVarint? then 0 <= n < 2 * HalfRange(dataSize) else -HalfRange(dataSize) <= n < HalfRange(dataSize);
    }

    /** pb_dec_fixed32 and pb_dec_fixed64. */
    method ReadFixed(size: nat) returns (ok: bool, v: Val)
      requires Valid()
      modifies this
      ensures Valid() && End() == old(End())
      ensures Got(old(Rest()), Rest(), ok, v, DecFixed(size, old(Rest())))
    {
      var bytes;
      ok, bytes := ReadBytes(size);
      v := Num(FromLittleEndian(bytes));
    }

    /** The pb_dec_* functions; slots is the destination of a submessage. */
    method ReadVal(l: LType, dataSize: nat, slots: seq<Slot>) returns (ok: bool, v: Val)
      requires Valid() && (l.Submessage? ==> SchemaOk(l.fields))
      modifies this
      ensures Valid() && End() <= old(End()) && (ok ==> End() == old(End()))
      ensures Got(old(Rest()), Rest(), ok, v, DecVal(l, dataSize, slots, old(Rest())))
      decreases bytesLeft, 1
    {
      var bytes: Input;
      match l {
        case Fixed32 => ok, v := ReadFixed(4);
        case Fixed64 => ok, v := ReadFixed(8);
        case ByteArray =>
          var room: int := dataSize - BYTES_OFFSET;
          ok, bytes := ReadString(if PB_SIZE_MAX < room then PB_SIZE_MAX else room);
          v := Blob(bytes);
        case CString =>
          ok, bytes := ReadString(dataSize - 1);
          v := Blob(bytes);
        case FixedBytes =>
          ok, bytes := ReadString(dataSize);
          v := Blob(if bytes == [] then seq(dataSize, _ => 0) else bytes);
          ok := ok && (bytes == [] || |bytes| == dataSize);
        case Submessage(fields) => ok, v := ReadSubmessage(fields, slots);
        case _ => ok, v := ReadInt(l, dataSize);
      }
    }

    /** pb_dec_submessage: the parent goes on right behind the body, whatever of it was read. */
    method ReadSubmessage(fields: seq<Field>, slots: seq<Slot>) returns (ok: bool, v: Val)
      requires Valid() && SchemaOk(fields)
      modifies this
      ensures Valid() && End() <= old(End()) && (ok ==> End() == old(End()))
      ensures Got(old(Rest()), Rest(), ok, v, DecVal(Submessage(fields), 0, slots, old(Rest())))
      decreases bytesLeft, 0
    {
      v := Num(0);
      var sub;
      ok, sub := MakeSubstream();
      if !ok || |slots| != |fields| {
        return false, v;
      }
      ghost var used := Delimited(old(Rest())).value.used;
      var done;
      ok, done := sub.ReadMessage(fields, slots);
      CloseSubstream(sub);
      v := Msg(done);
      assert ok ==> Rest() == old(Rest())[used..];
    }

    /** The items of a packed array. */
    method ReadPacked(l: LType, dataSize: nat, items: seq<Val>, arraySize: nat) returns (ok: bool, all: seq<Val>)
      requires Valid() && Packable(l)
      modifies this
      ensures Valid() && End() == old(End())
      ensures var r := DecPacked(l, dataSize, items, arraySize, old(Rest()));
              (ok <==> r.Some?) && (ok ==> all == r.value && Rest() == [])
      decreases bytesLeft, 2
    {
      all, ok := items, true;
      while bytesLeft > 0 && |all| < arraySize
        invariant Valid() && End() == old(End()) && bytesLeft <= old(bytesLeft)
        invariant DecPacked(l, dataSize, all, arraySize, Rest())
               == DecPacked(l, dataSize, items, arraySize, old(Rest()))
        decreases bytesLeft
      {
        var v;
        ok, v := ReadPackable(l, dataSize);
        if !ok {
          return;
        }
        all := all + [v];
      }
      ok := bytesLeft == 0;
    }

    method ReadPackable(l: LType, dataSize: nat) returns (ok: bool, v: Val)
      requires Valid() && Packable(l)
      modifies this
      ensures Valid() && End() == old(End())
      ensures Got(old(Rest()), Rest(), ok, v, DecVal(l, dataSize, [], old(Rest())))
    {
      if l.Fixed32? || l.Fixed64? {
        ok, v := ReadFixed(if l.Fixed32? then 4 else 8);
      } else {
        ok, v := ReadInt(l, dataSize);
      }
    }

    /** decode_static_field. */
    method ReadField(f: Field, slot: Slot, wireType: nat) returns (ok: bool, s: Slot)
      requires Valid() && FieldOk(f)
      modifies this
      ensures Valid() && End() <= old(End()) && (ok ==> End() == old(End()))
      ensures Got(old(Rest()), Rest(), ok, s, DecSlot(f, slot, wireType, old(Rest())))
      decreases bytesLeft, 3
    {
      hide DecVal, DecPacked;
      s := slot;
      if f.htype.Repeated? && wireType == 2 && Packable(f.ltype) {
        var sub;
        ok, sub := MakeSubstream();
        if !ok || !slot.Many? {
          return false, s;
        }
        ghost var used := Delimited(old(Rest())).value.used;
        var items;
        ok, items := sub.ReadPacked(f.ltype, f.dataSize, slot.items, f.htype.arraySize);
        if sub.bytesLeft != 0 {
          return false, s;
        }
        CloseSubstream(sub);
        assert Rest() == old(Rest())[used..];
        return ok, Many(items);
      }
      if f.htype.Repeated? && !(slot.Many? && |slot.items| < f.htype.arraySize) {
        return false, s;
      }
      var v;
      ok, v := ReadVal(f.ltype, f.dataSize, Target(f, slot));
      s := Place(f, slot, v);
    }

    /** The body of pb_decode_noinit's loop behind the tag: an unknown field is skipped, a known one stored. */
    method ReadRecord(iter: FieldIter, fieldsSeen: SeenFields, ghost seen: set<nat>, slots: seq<Slot>,
                      wireType: nat, tag: u32)
        returns (ok: bool, next: seq<Slot>, ghost nextSeen: set<nat>)
      requires Valid() && iter.Valid() && SchemaOk(iter.fields) && |slots| == |iter.fields|
      requires fieldsSeen.Holds(seen) && InRange(iter.fields, seen)
      modifies this, iter, fieldsSeen.words
      ensures Valid() && End() <= old(End()) && |next| == |iter.fields|
      ensures var r := AfterTag(iter.fields, slots, seen, wireType, tag, old(Rest()));
              if ok then r == DecLoop(iter.fields, next, nextSeen, Rest()) else r == None
      ensures ok ==> End() == old(End()) && bytesLeft <= old(bytesLeft)
      ensures ok ==> iter.Valid() && fieldsSeen.Holds(nextSeen) && InRange(iter.fields, nextSeen)
      decreases bytesLeft, 4
    {
      next, nextSeen := slots, seen;
      var found := iter.Find(tag);
      if !found {
        ok := Skip(wireType);
        return;
      }
      if iter.fields == [] {
        var v;
        ok, v := ReadInt(Varint, 0);
        return;
      }
      var i := iter.pos;
      FoundIsTheField(iter.fields, i, tag);
      InRangeGrows(iter.fields, seen, i);
      nextSeen := seen + SeenBy(iter.fields, i);
      if iter.fields[i].htype == Required && iter.requiredFieldIndex < MAX_REQUIRED_FIELDS {
        fieldsSeen.Mark(iter.requiredFieldIndex, seen);
      } else {
        assert nextSeen == seen;
      }
      var s;
      ok, s := ReadField(iter.fields[i], slots[i], wireType);
      next := Store(iter.fields, slots, i, s);
    }

    /** pb_decode_noinit: the loop over the fields, and the check for missing required ones. */
    method ReadMessage(fields: seq<Field>, dest: seq<Slot>) returns (ok: bool, slots: seq<Slot>)
      requires Valid() && SchemaOk(fields) && |dest| == |fields|
      modifies this
      ensures Valid() && End() <= old(End()) && (ok ==> End() == old(End())) && |slots| == |fields|
      ensures var r := DecLoop(fields, dest, {}, old(Rest()));
              (ok <==> r.Some?) && (ok ==> slots == r.value)
      decreases bytesLeft, 5
    {
      ghost var r, seen: set<nat> := DecLoop(fields, dest, {}, Rest()), {};
      slots := dest;
      var fieldsSeen := new SeenFields();
      var iter := new FieldIter(fields);
      var eof := false;
      while bytesLeft > 0 && !eof
        invariant Valid() && End() == old(End()) && bytesLeft <= old(bytesLeft) && |slots| == |fields|
        invariant iter.Valid() && fieldsSeen.Holds(seen) && InRange(fields, seen)
        invariant !eof ==> DecLoop(fields, slots, seen, Rest()) == r
        invariant eof ==> r == if AllSeen(fields, seen) then Some(slots) else None
        decreases !eof, bytesLeft
      {
        ghost var bs := Rest();
        var wireType, tag;
        ok, wireType, tag, eof := ReadTag();
        if ok {
          LoopAfterTag(fields, slots, seen, bs);
          ok, slots, seen := ReadRecord(iter, fieldsSeen, seen, slots, wireType, tag);
          if !ok {
            return;
          }
        } else if !eof {
          return;
        } else {
          LoopAtEnd(fields, slots, seen, bs);
        }
      }
      if !eof { LoopAtEnd(fields, slots, seen, Rest()); }
      var count := iter.CountRequired();
      ok := fieldsSeen.Check(count, seen);
    }
  }

  /** What the decoding loop does with a record, once its tag has been read. */
  ghost function AfterTag(fields: seq<Field>, slots: seq<Slot>, seen: set<nat>, wireType: nat, tag: nat, rest: Input)
    : Option<seq<Slot>>
    requires |slots| == |fields|
  {
    if fields == [] && tag == 0 then None
    else match FindField(fields, tag)
      case None =>
        (match SkipField(wireType, rest) case None => None case Some(n) => DecLoop(fields, slots, seen, rest[n..]))
      case Some(i) =>
        (match DecSlot(fields[i], slots[i], wireType, rest)
         case None => None
         case Some(Read(s, n)) => DecLoop(fields, Store(fields, slots, i, s), seen + SeenBy(fields, i), rest[n..]))
  }

  lemma LoopAtEnd(fields: seq<Field>, slots: seq<Slot>, seen: set<nat>, bs: Input)
    requires |slots| == |fields| && (bs == [] || DecodeTag(bs) == TagEnd)
    ensures DecLoop(fields, slots, seen, bs) == if AllSeen(fields, seen) then Some(slots) else None
  {
  }

  lemma LoopAfterTag(fields: seq<Field>, slots: seq<Slot>, seen: set<nat>, bs: Input)
    requires |slots| == |fields| && bs != [] && DecodeTag(bs).Tag?
    ensures var Tag(wireType, tag, used) := DecodeTag(bs);
            DecLoop(fields, slots, seen, bs) == AfterTag(fields, slots, seen, wireType, tag, bs[used..])
  {
  }

  ghost predicate InRange(fields: seq<Field>, seen: set<nat>) {
    forall k | k in seen :: k < RequiredBefore(fields, |fields|)
  }

  lemma InRangeGrows(fields: seq<Field>, seen: set<nat>, i: nat)
    requires InRange(fields, seen) && i < |fields|
    ensures InRange(fields, seen + SeenBy(fields, i))
  {
    if fields[i].htype == Required { PbRequired.CountGrows(fields, i, |fields|); }
  }

  /** pb_decode of a whole buffer. */
  method DecodeFrom(data: Input, fields: seq<Field>) returns (ok: bool, slots: seq<Slot>)
    requires SchemaOk(fields)
    ensures ok <==> Decode(fields, data).Some?
    ensures ok ==> slots == Decode(fields, data).value
  {
    var stream := new IStream(data, 0, |data|);
    assert stream.Rest() == data;
    ok, slots := stream.ReadMessage(fields, InitSlots(fields));
  }
}
