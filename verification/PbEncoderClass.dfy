/**
 The encoder as it runs (pb_encode.c): output streams, the sizing pass and the writing pass. What is written is
 specified in PbEncoding.
 */
module PbEncoderClass {
  import opened Bytes
  import opened PbWire
  import opened PbMessage
  import opened PbEncoding

  /** An output stream at one moment. */
  datatype Snap = Snap(sizing: bool, contents: seq<byte>, state: nat, maxSize: nat, written: nat)

  ghost predicate ValidSnap(s: Snap) {
    !s.sizing ==> s.written <= s.maxSize && s.state + (s.maxSize - s.written) <= |s.contents|
  }

  /** The end of the memory the stream may write to. */
  ghost function Limit(s: Snap): nat
    requires ValidSnap(s) && !s.sizing
  {
    s.state + (s.maxSize - s.written)
  }

  /**
   From s to t exactly e was written. This fails when e is None or does not fit; then too, nothing before the
   stream's position or beyond its limit has changed.
   */
  ghost predicate Did(s: Snap, t: Snap, ok: bool, e: Output)
    requires ValidSnap(s)
  {
    && ValidSnap(t) && t.sizing == s.sizing && t.maxSize == s.maxSize && |t.contents| == |s.contents|
    && (ok <==> e.Some? && (s.sizing || s.written + |e.value| <= s.maxSize))
    && (ok ==> t.written == s.written + |e.value|)
    && (!s.sizing ==>
          && 0 <= t.written - s.written == t.state - s.state
          && t.contents[..s.state] == s.contents[..s.state]
          && t.contents[Limit(s)..] == s.contents[Limit(s)..]
          && (ok ==> t.contents == s.contents[..s.state] + e.value + s.contents[t.state..]))
  }

  lemma DidNothing(s: Snap)
    requires ValidSnap(s)
    ensures Did(s, s, true, Some([]))
  {
    if !s.sizing { assert s.contents == s.contents[..s.state] + [] + s.contents[s.state..]; }
  }

  /** What is written in two steps. */
  lemma DidJoin(s: Snap, m: Snap, t: Snap, a: Output, ok: bool, b: Output)
    requires ValidSnap(s) && Did(s, m, true, a) && Did(m, t, ok, b)
    ensures Did(s, t, ok, Join(a, b))
  {
    if !s.sizing {
      assert Limit(m) == Limit(s);
      assert t.contents[..s.state] == t.contents[..m.state][..s.state];
      assert m.contents[..s.state] == m.contents[..m.state][..s.state];
      if ok {
        assert m.contents[..m.state] == s.contents[..s.state] + a.value;
        assert m.contents[t.state..] == s.contents[t.state..];
        assert s.contents[..s.state] + a.value + b.value == s.contents[..s.state] + (a.value + b.value);
      }
    }
  }

  lemma DidFail(s: Snap, t: Snap, a: Output, b: Output)
    requires ValidSnap(s) && Did(s, t, false, a)
    ensures Did(s, t, false, Join(a, b))
  {
  }

  lemma DidWrite(s: Snap, t: Snap, bytes: seq<byte>)
    requires ValidSnap(s) && t.sizing == s.sizing && t.maxSize == s.maxSize && t.written == s.written + |bytes|
    requires s.sizing ==> |t.contents| == |s.contents|
    requires !s.sizing ==> t.written <= t.maxSize && t.state == s.state + |bytes|
    requires !s.sizing ==> t.contents == s.contents[..s.state] + bytes + s.contents[s.state + |bytes|..]
    ensures Did(s, t, true, Some(bytes))
  {
  }

  /** What a substream wrote to its parent's memory, the parent wrote. */
  lemma DidInSubstream(s: Snap, sub: Snap, t: Snap, bytes: seq<byte>)
    requires ValidSnap(s) && !s.sizing && s.written + |bytes| <= s.maxSize
    requires Did(Snap(false, s.contents, s.state, |bytes|, 0), sub, true, Some(bytes))
    requires t == Snap(false, sub.contents, sub.state, s.maxSize, s.written + sub.written)
    ensures Did(s, t, true, Some(bytes))
  {
    DidWrite(s, t, bytes);
  }

  /** One more step of a loop that writes e and still has rest to write. */
  lemma DidNext(s: Snap, m: Snap, t: Snap, done: Output, ok: bool, e: Output, rest: Output)
    requires ValidSnap(s) && Did(s, m, true, done) && Did(m, t, ok, e)
    ensures Join(Join(done, e), rest) == Join(done, Join(e, rest))
    ensures ok ==> Did(s, t, true, Join(done, e))
    ensures !ok ==> Did(s, t, false, Join(done, Join(e, rest)))
  {
    DidJoin(s, m, t, done, ok, e);
    if done.Some? && e.Some? && rest.Some? {
      assert done.value + (e.value + rest.value) == done.value + e.value + rest.value;
    }
    if !ok { DidFail(s, t, Join(done, e), rest); }
  }

  lemma JoinEmpty(e: Output)
    ensures Join(Some([]), e) == e && Join(e, Some([])) == e
  {
    if e.Some? { assert [] + e.value == e.value && e.value + [] == e.value; }
  }

  /** buf_write. */
  method BufWrite(dest: array<byte>, at: nat, bytes: seq<byte>)
    requires at + |bytes| <= dest.Length
    modifies dest
    ensures dest[..] == old(dest[..at]) + bytes + old(dest[at + |bytes|..])
  {
    var i := 0;
    while i < |bytes|
      invariant i <= |bytes|
      invariant dest[..at] == old(dest[..at]) && dest[at..at + i] == bytes[..i]
      invariant dest[at + i..] == old(dest[at + i..])
    {
      dest[at + i] := bytes[i];
      i := i + 1;
    }
  }

  /** pb_ostream_t: a null dest is the null callback of a sizing stream, state the position in dest. */
  class OStream {
    const dest: array?<byte>
    const maxSize: nat
    var state: nat
    var written: nat

    ghost function Now(): Snap
      reads this, Memory()
    {
      Snap(dest == null, if dest == null then [] else dest[..], state, maxSize, written)
    }

    ghost predicate Valid()
      reads this, Memory()
    {
      ValidSnap(Now())
    }

    function Memory(): set<object> {
      if dest == null then {} else {dest}
    }

    /** pb_ostream_from_buffer, and the substream of pb_encode_submessage. */
    constructor Into(dest: array<byte>, state: nat, maxSize: nat)
      requires state + maxSize <= dest.Length
      ensures Valid() && this.dest == dest && Now() == Snap(false, dest[..], state, maxSize, 0)
    {
      this.dest, this.state, this.maxSize, written := dest, state, maxSize, 0;
    }

    /** PB_OSTREAM_SIZING. */
    constructor Sizing()
      ensures Valid() && dest == null && Now() == Snap(true, [], 0, 0, 0)
    {
      dest, state, maxSize, written := null, 0, 0, 0;
    }

    /** pb_write, with buf_write's loop. */
    method Write(bytes: seq<byte>) returns (ok: bool)
      requires Valid()
      modifies this, Memory()
      ensures Did(old(Now()), Now(), ok, Some(bytes))
    {
      ghost var s := Now();
      if dest != null {
        if written + |bytes| > maxSize {
          return false;
        }
        BufWrite(dest, state, bytes);
        state := state + |bytes|;
      }
      written := written + |bytes|;
      DidWrite(s, Now(), bytes);
      return true;
    }

    /** pb_write(stream, NULL, size), which only happens when sizing. */
    method Count(size: nat, ghost bytes: seq<byte>)
      requires Valid() && dest == null && size == |bytes|
      modifies this
      ensures Did(old(Now()), Now(), true, Some(bytes))
    {
      written := written + size;
    }

    method WriteVarint(value: nat) returns (ok: bool)
      requires Valid()
      modifies this, Memory()
      ensures Did(old(Now()), Now(), ok, Some(EncodeVarint(value)))
    {
      var buffer := EncodeVarintBuffer(value);
      ok := Write(buffer);
    }

    method WriteTag(wireType: nat, tag: u32) returns (ok: bool)
      requires Valid() && wireType < 8
      modifies this, Memory()
      ensures Did(old(Now()), Now(), ok, Some(EncodeTag(wireType, tag)))
    {
      ok := WriteVarint(tag as int * 8 + wireType);
    }

    /** pb_encode_string. */
    method WriteString(bytes: seq<byte>) returns (ok: bool)
      requires Valid()
      modifies this, Memory()
      ensures Did(old(Now()), Now(), ok, Some(EncodeString(bytes)))
    {
      ghost var s := Now();
      ok := WriteVarint(|bytes|);
      if !ok {
        DidFail(s, Now(), Some(EncodeVarint(|bytes|)), Some(bytes));
        return;
      }
      ghost var m := Now();
      ok := Write(bytes);
      DidJoin(s, m, Now(), Some(EncodeVarint(|bytes|)), ok, Some(bytes));
    }

    /** pb_encode_fixed32 and pb_encode_fixed64. */
    method WriteFixed(value: nat, size: nat) returns (ok: bool)
      requires Valid()
      modifies this, Memory()
      ensures Did(old(Now()), Now(), ok, Some(LittleEndian(value, size)))
    {
      var bytes := LittleEndianBytes(value, size);
      ok := Write(bytes);
    }

    // Values, following the descriptor.

    /** The pb_enc_* functions. */
    method WriteVal(l: LType, dataSize: nat, v: Val) returns (ok: bool)
      requires Valid()
      modifies this, Memory()
      ensures Did(old(Now()), Now(), ok, EncVal(l, dataSize, v))
      decreases l, 0
    {
      ok := false;
      match l {
        case Varint =>
          if v.Num? && IntSize(dataSize) && -TWO63 <= v.n < TWO63 { ok := WriteVarint(ToU64(v.n)); }
        case UVarint =>
          if v.Num? && IntSize(dataSize) && 0 <= v.n < Words.TWO64 { ok := WriteVarint(v.n); }
        case SVarint =>
          if v.Num? && IntSize(dataSize) && -TWO63 <= v.n < TWO63 { ok := WriteVarint(Zigzag(v.n)); }
        case Fixed32 => ok := WriteFixed(Raw(v), 4);
        case Fixed64 => ok := WriteFixed(Raw(v), 8);
        case ByteArray =>
          if v.Blob? && BYTES_OFFSET + |v.bytes| <= dataSize { ok := WriteString(v.bytes); }
        case CString =>
          if v.Blob? {
            var size := StringLength(v.bytes, dataSize);
            ok := WriteString(v.bytes[..size]);
          }
        case FixedBytes =>
          if v.Blob? && |v.bytes| == dataSize { ok := WriteString(v.bytes); }
        case Submessage(fields) =>
          if v.Msg? && |v.slots| == |fields| { ok := WriteSubmessage(fields, v.slots); }
      }
    }

    /** The strnlen loop of pb_enc_string. */
    method StringLength(buffer: seq<byte>, maxSize: nat) returns (size: nat)
      ensures size <= |buffer| && buffer[..size] == CStr(buffer, maxSize)
    {
      size := 0;
      while size < maxSize && size < |buffer| && buffer[size] != 0
        invariant size <= |buffer| && size <= maxSize
        invariant buffer[..size] + CStr(buffer[size..], maxSize - size) == CStr(buffer, maxSize)
      {
        assert buffer[size..][1..] == buffer[size + 1..];
        assert buffer[..size] + [buffer[size]] == buffer[..size + 1];
        size := size + 1;
      }
      assert buffer[..size] + [] == buffer[..size];
    }

    /** pb_encode_submessage: a sizing pass, the length, and then a writing pass held to that length. */
    method WriteSubmessage(fields: seq<Field>, slots: seq<Slot>) returns (ok: bool)
      requires Valid() && |slots| == |fields|
      modifies this, Memory()
      ensures Did(old(Now()), Now(), ok, match EncSlots(fields, slots, 0)
                                         case None => None case Some(body) => Some(EncodeString(body)))
      decreases fields, |fields| + 3
    {
      ghost var s, body := Now(), EncSlots(fields, slots, 0);
      var sizing := new OStream.Sizing();
      ok := sizing.WriteMessage(fields, slots);
      if !ok {
        return;
      }
      var size := sizing.written;
      ok := WriteVarint(size);
      if !ok {
        DidFail(s, Now(), Some(EncodeVarint(size)), body);
        return;
      }
      ghost var m := Now();
      if dest == null {
        Count(size, body.value);
      } else {
        ok := WriteBody(fields, slots, size);
      }
      DidJoin(s, m, Now(), Some(EncodeVarint(size)), ok, body);
    }

    /** The writing pass: a substream that ends after size bytes. */
    method WriteBody(fields: seq<Field>, slots: seq<Slot>, size: nat) returns (ok: bool)
      requires Valid() && dest != null && |slots| == |fields|
      requires EncSlots(fields, slots, 0).Some? && size == |EncSlots(fields, slots, 0).value|
      modifies this, Memory()
      ensures Did(old(Now()), Now(), ok, EncSlots(fields, slots, 0))
      decreases fields, |fields| + 2
    {
      if written + size > maxSize {
        return false;
      }
      ghost var s := Now();
      var sub := new OStream.Into(dest, state, size);
      ok := sub.WriteMessage(fields, slots);
      // The check for "submsg size changed" never fires.
      assert ok && sub.written == size;
      ghost var after := sub.Now();
      written := written + sub.written;
      state := sub.state;
      DidInSubstream(s, after, Now(), EncSlots(fields, slots, 0).value);
    }

    /** pb_encode. */
    method WriteMessage(fields: seq<Field>, slots: seq<Slot>) returns (ok: bool)
      requires Valid() && |slots| == |fields|
      modifies this, Memory()
      ensures Did(old(Now()), Now(), ok, EncSlots(fields, slots, 0))
      decreases fields, |fields| + 1
    {
      ghost var s, done: Output := Now(), Some([]);
      DidNothing(s);
      JoinEmpty(EncSlots(fields, slots, 0));
      var i := 0;
      while i < |fields|
        invariant i <= |fields| && Did(s, Now(), true, done)
        invariant Join(done, EncSlots(fields, slots, i)) == EncSlots(fields, slots, 0)
      {
        ghost var m, e, rest := Now(), EncSlot(fields[i], slots[i]), EncSlots(fields, slots, i + 1);
        ok := WriteField(fields[i], slots[i]);
        DidNext(s, m, Now(), done, ok, e, rest);
        if !ok {
          return;
        }
        done := Join(done, e);
        i := i + 1;
      }
      JoinEmpty(done);
      return true;
    }

    /** A tag and a value. */
    method WriteTagged(f: Field, v: Val) returns (ok: bool)
      requires Valid()
      modifies this, Memory()
      ensures Did(old(Now()), Now(), ok, EncTagged(f, v))
      decreases f, 0
    {
      ghost var s, tag := Now(), Some(EncodeTag(WireType(f.ltype), f.tag));
      ok := WriteTag(WireType(f.ltype), f.tag);
      if !ok {
        DidFail(s, Now(), tag, EncVal(f.ltype, f.dataSize, v));
        return;
      }
      ghost var m := Now();
      ok := WriteVal(f.ltype, f.dataSize, v);
      DidJoin(s, m, Now(), tag, ok, EncVal(f.ltype, f.dataSize, v));
    }

    /** encode_basic_field. */
    method WriteField(f: Field, slot: Slot) returns (ok: bool)
      requires Valid()
      modifies this, Memory()
      ensures Did(old(Now()), Now(), ok, EncSlot(f, slot))
      decreases f, 3
    {
      DidNothing(Now());
      ok := true;
      match (f.htype, slot) {
        case (Required, One(v)) => ok := WriteTagged(f, v);
        case (Optional(false), One(v)) => if !IsDefault3(f, slot) { ok := WriteTagged(f, v); }
        case (Optional(true), Opt(has, v)) => if has { ok := WriteTagged(f, v); }
        case (Repeated(arraySize), Many(items)) => ok := WriteArray(f, arraySize, items);
        case (OneOf(_), Alt(sel)) => if sel.Some? { ok := WriteTagged(f, sel.value); }
        case _ => ok := false;
      }
    }

    /** The loop over the items of a packed array, to size it or to write it. */
    method WritePacked(l: LType, dataSize: nat, items: seq<Val>) returns (ok: bool)
      requires Valid()
      modifies this, Memory()
      ensures Did(old(Now()), Now(), ok, EncPacked(l, dataSize, items))
      decreases l, 1
    {
      assert EncPacked(l, dataSize, []) == Some([]);
      hide EncVal, EncPacked, Join;
      ghost var s, done: Output := Now(), Some([]);
      DidNothing(s);
      JoinEmpty(EncPacked(l, dataSize, items));
      assert items[0..] == items;
      var i := 0;
      while i < |items|
        invariant i <= |items| && Did(s, Now(), true, done)
        invariant Join(done, EncPacked(l, dataSize, items[i..])) == EncPacked(l, dataSize, items)
      {
        ghost var m, e, rest := Now(), EncVal(l, dataSize, items[i]), EncPacked(l, dataSize, items[i + 1..]);
        PackedNext(l, dataSize, items, i);
        ok := WriteVal(l, dataSize, items[i]);
        DidNext(s, m, Now(), done, ok, e, rest);
        if !ok {
          return;
        }
        done := Join(done, e);
        i := i + 1;
      }
      assert items[i..] == [];
      JoinEmpty(done);
      return true;
    }

    method WriteUnpacked(f: Field, items: seq<Val>) returns (ok: bool)
      requires Valid()
      modifies this, Memory()
      ensures Did(old(Now()), Now(), ok, EncUnpacked(f, items))
      decreases f, 1
    {
      ghost var s, done: Output := Now(), Some([]);
      DidNothing(s);
      JoinEmpty(EncUnpacked(f, items));
      assert items[0..] == items;
      var i := 0;
      while i < |items|
        invariant i <= |items| && Did(s, Now(), true, done)
        invariant Join(done, EncUnpacked(f, items[i..])) == EncUnpacked(f, items)
      {
        ghost var m, e, rest := Now(), EncTagged(f, items[i]), EncUnpacked(f, items[i + 1..]);
        UnpackedNext(f, items, i);
        ok := WriteTagged(f, items[i]);
        DidNext(s, m, Now(), done, ok, e, rest);
        if !ok {
          return;
        }
        done := Join(done, e);
        i := i + 1;
      }
      assert items[i..] == [];
      JoinEmpty(done);
      return true;
    }

    /** encode_array. */
    method WriteArray(f: Field, arraySize: nat, items: seq<Val>) returns (ok: bool)
      requires Valid()
      modifies this, Memory()
      ensures Did(old(Now()), Now(), ok, EncArray(f, arraySize, items))
      decreases f, 2
    {
      DidNothing(Now());
      if items == [] {
        return true;
      }
      if |items| > arraySize {
        return false;
      }
      if !Packable(f.ltype) {
        ok := WriteUnpacked(f, items);
        return;
      }
      ghost var s, tag, body := Now(), EncodeTag(2, f.tag), EncPacked(f.ltype, f.dataSize, items);
      ghost var packed := if body.Some? then Some(EncodeString(body.value)) else None;
      ok := WriteTag(2, f.tag);
      if !ok {
        DidFail(s, Now(), Some(tag), packed);
        return;
      }
      ghost var m := Now();
      ok := WritePackedString(f, items);
      DidJoin(s, m, Now(), Some(tag), ok, packed);
    }

    /** The length of a packed array and its items: sized first, except when the items have a fixed size. */
    method WritePackedString(f: Field, items: seq<Val>) returns (ok: bool)
      requires Valid() && Packable(f.ltype)
      modifies this, Memory()
      ensures Did(old(Now()), Now(), ok, match EncPacked(f.ltype, f.dataSize, items)
                                         case None => None case Some(body) => Some(EncodeString(body)))
      decreases f, 1
    {
      ghost var s, body := Now(), EncPacked(f.ltype, f.dataSize, items);
      var size;
      if f.ltype.Fixed32? || f.ltype.Fixed64? {
        size := (if f.ltype.Fixed32? then 4 else 8) * |items|;
        FixedItems(f.ltype, f.dataSize, items);
      } else {
        var sizing := new OStream.Sizing();
        ok := sizing.WritePacked(f.ltype, f.dataSize, items);
        if !ok {
          return;
        }
        size := sizing.written;
      }
      ok := WriteVarint(size);
      if !ok {
        DidFail(s, Now(), Some(EncodeVarint(size)), body);
        return;
      }
      ghost var m := Now();
      if dest == null {
        Count(size, body.value);
      } else {
        ok := WritePacked(f.ltype, f.dataSize, items);
      }
      DidJoin(s, m, Now(), Some(EncodeVarint(size)), ok, body);
    }
  }

  /** The byte array of pb_encode_fixed32 and pb_encode_fixed64. */
  method LittleEndianBytes(value: nat, size: nat) returns (bytes: seq<byte>)
    ensures bytes == LittleEndian(value, size)
  {
    var v: nat := value;
    bytes := [];
    while |bytes| < size
      invariant |bytes| <= size && bytes + LittleEndian(v, size - |bytes|) == LittleEndian(value, size)
    {
      LittleEndianStep(bytes, v, size - |bytes|);
      bytes, v := bytes + [v % 256], v / 256;
    }
    assert bytes + [] == bytes;
  }

  lemma LittleEndianStep(bytes: seq<byte>, v: nat, size: nat)
    requires size > 0
    ensures bytes + LittleEndian(v, size) == bytes + [v % 256] + LittleEndian(v / 256, size - 1)
  {
  }

  lemma UnpackedNext(f: Field, items: seq<Val>, i: nat)
    requires i < |items|
    ensures EncUnpacked(f, items[i..]) == Join(EncTagged(f, items[i]), EncUnpacked(f, items[i + 1..]))
  {
    assert items[i..][1..] == items[i + 1..];
  }

  lemma PackedNext(l: LType, dataSize: nat, items: seq<Val>, i: nat)
    requires i < |items|
    ensures EncPacked(l, dataSize, items[i..])
         == Join(EncVal(l, dataSize, items[i]), EncPacked(l, dataSize, items[i + 1..]))
  {
    assert items[i..][1..] == items[i + 1..];
  }

  lemma {:induction false} FixedItems(l: LType, dataSize: nat, items: seq<Val>)
    requires l.Fixed32? || l.Fixed64?
    ensures EncPacked(l, dataSize, items).Some?
    ensures |EncPacked(l, dataSize, items).value| == (if l.Fixed32? then 4 else 8) * |items|
  {
    if items != [] { FixedItems(l, dataSize, items[1..]); }
  }

  /** pb_get_encoded_size. */
  method GetEncodedSize(fields: seq<Field>, slots: seq<Slot>) returns (ok: bool, size: nat)
    requires |slots| == |fields|
    ensures ok <==> Encode(fields, slots).Some?
    ensures ok ==> size == |Encode(fields, slots).value|
  {
    var stream := new OStream.Sizing();
    ok := stream.WriteMessage(fields, slots);
    size := stream.written;
  }

  /** Encoding into a buffer succeeds exactly when the size computed beforehand fits it. */
  method EncodeInto(buffer: array<byte>, maxSize: nat, fields: seq<Field>, slots: seq<Slot>) returns (ok: bool)
    requires |slots| == |fields| && maxSize <= buffer.Length
    modifies buffer
    ensures ok <==> Encode(fields, slots).Some? && |Encode(fields, slots).value| <= maxSize
    ensures ok ==> buffer[..|Encode(fields, slots).value|] == Encode(fields, slots).value
    ensures buffer[maxSize..] == old(buffer[maxSize..])
  {
    var stream := new OStream.Into(buffer, 0, maxSize);
    ok := stream.WriteMessage(fields, slots);
  }
}
