/** Reassembly of one DTLS handshake message (d1_both.cc): its body, and a bitmask of the bytes received. */
module Reassembly {
  import opened Bytes
  import opened DtlsWire

  // Single bits of a mask byte.

  /** (uint8_t)(1u << k). */
  function One(k: nat): bv8
    requires k <= 8
  {
    if k == 0 then 1 else if k == 1 then 2 else if k == 2 then 4 else if k == 3 then 8
    else if k == 4 then 16 else if k == 5 then 32 else if k == 6 then 64 else if k == 7 then 128 else 0
  }

  predicate ByteBit(b: bv8, k: nat)
    requires k < 8
  {
    b & One(k) != 0
  }

  /** bit_range; reducing every intermediate value to eight bits does not change the result. */
  function BitRange(start: nat, end: nat): bv8
    requires start <= 8 && end <= 8
  {
    !(One(start) - 1) & (One(end) - 1)
  }

  lemma BitOfRange(start: nat, end: nat, k: nat)
    requires start < 8 && end <= 8 && k < 8
    ensures ByteBit(BitRange(start, end), k) <==> start <= k < end
  {
  }

  lemma BitOfMarked(b: bv8, start: nat, end: nat, k: nat)
    requires start < 8 && end <= 8 && k < 8
    ensures ByteBit(b | BitRange(start, end), k) <==> ByteBit(b, k) || start <= k < end
  {
    BitOfRange(start, end, k);
    var r := BitRange(start, end);
    assert (b | r) & One(k) == (b & One(k)) | (r & One(k));
  }

  lemma BitOfOnes(k: nat)
    requires k < 8
    ensures ByteBit(0xff, k)
  {
  }

  lemma SameBits(a: bv8, b: bv8)
    requires forall k: nat | k < 8 :: ByteBit(a, k) == ByteBit(b, k)
    ensures a == b
  {
    assert ByteBit(a, 0) == ByteBit(b, 0) && ByteBit(a, 1) == ByteBit(b, 1);
    assert ByteBit(a, 2) == ByteBit(b, 2) && ByteBit(a, 3) == ByteBit(b, 3);
    assert ByteBit(a, 4) == ByteBit(b, 4) && ByteBit(a, 5) == ByteBit(b, 5);
    assert ByteBit(a, 6) == ByteBit(b, 6) && ByteBit(a, 7) == ByteBit(b, 7);
  }

  /** A byte with bits only below n, all of them set, is bit_range(0, n). */
  lemma FullBelow(b: bv8, n: nat)
    requires n <= 8
    requires forall k: nat | n <= k < 8 :: !ByteBit(b, k)
    ensures b == BitRange(0, n) <==> forall k: nat | k < n :: ByteBit(b, k)
  {
    forall k: nat | k < 8 ensures ByteBit(BitRange(0, n), k) <==> k < n { BitOfRange(0, n, k); }
    if forall k: nat | k < n :: ByteBit(b, k) { SameBits(b, BitRange(0, n)); }
  }

  // The whole mask.

  predicate MaskBit(mask: seq<bv8>, p: nat)
    requires p < 8 * |mask|
  {
    ByteBit(mask[p / 8], p % 8)
  }

  /** The positions from start up to and excluding end. */
  function Range(start: nat, end: nat): (r: set<nat>)
    ensures forall p: nat :: p in r <==> start <= p < end
  {
    if start >= end then {} else Range(start, end - 1) + {end - 1}
  }

  /** The positions below n. */
  function Below(n: nat): set<nat> {
    Range(0, n)
  }

  /** The positions a mask marks. */
  function Marked(mask: seq<bv8>): (got: set<nat>)
    ensures forall p: nat :: p in got <==> p < 8 * |mask| && MaskBit(mask, p)
  {
    set p: nat | p < 8 * |mask| && MaskBit(mask, p)
  }

  /** The mask of a message of msgLen bytes: large enough, with nothing marked beyond the message. */
  ghost predicate MaskOf(mask: seq<bv8>, msgLen: nat) {
    |mask| == (msgLen + 7) / 8 && Marked(mask) <= Below(msgLen)
  }

  /** dtls1_hm_fragment_mark's completeness test. */
  predicate Full(mask: seq<bv8>, msgLen: nat)
    requires |mask| == (msgLen + 7) / 8
  {
    (forall i | 0 <= i < msgLen / 8 :: mask[i] == 0xff)
    && (msgLen % 8 != 0 ==> mask[msgLen / 8] == BitRange(0, msgLen % 8))
  }

  lemma FullByte(mask: seq<bv8>, i: nat, n: nat)
    requires i < |mask| && n <= 8
    requires forall p: nat | 8 * i + n <= p < 8 * i + 8 :: p !in Marked(mask)
    ensures mask[i] == BitRange(0, n) <==> forall p: nat | 8 * i <= p < 8 * i + n :: p in Marked(mask)
  {
    forall k: nat | k < 8
      ensures ByteBit(mask[i], k) <==> 8 * i + k in Marked(mask)
    {
      assert (8 * i + k) / 8 == i && (8 * i + k) % 8 == k;
    }
    FullBelow(mask[i], n);
    if forall p: nat | 8 * i <= p < 8 * i + n :: p in Marked(mask) {
      forall k: nat | k < n ensures ByteBit(mask[i], k) { assert 8 * i + k in Marked(mask); }
    }
    if forall k: nat | k < n :: ByteBit(mask[i], k) {
      forall p: nat | 8 * i <= p < 8 * i + n ensures p in Marked(mask) { assert ByteBit(mask[i], p - 8 * i); }
    }
  }

  /** The test holds exactly when every byte of the message has been received. */
  lemma FullIsAll(mask: seq<bv8>, msgLen: nat)
    requires MaskOf(mask, msgLen)
    ensures Full(mask, msgLen) <==> Marked(mask) == Below(msgLen)
  {
    var whole, rest := msgLen / 8, msgLen % 8;
    assert BitRange(0, 8) == 0xff;
    forall i: nat | i < whole
      ensures mask[i] == 0xff <==> forall p: nat | 8 * i <= p < 8 * i + 8 :: p in Marked(mask)
    {
      FullByte(mask, i, 8);
    }
    if rest != 0 { FullByte(mask, whole, rest); }
    if Full(mask, msgLen) {
      forall p: nat | p < msgLen ensures p in Marked(mask) {
        if p / 8 < whole { assert mask[p / 8] == 0xff; }
      }
    }
  }

  /** bytes with body written over it from position off. */
  function Overlay(bytes: map<nat, byte>, off: nat, body: seq<byte>): (m: map<nat, byte>)
    ensures m.Keys == bytes.Keys + Range(off, off + |body|)
  {
    var written := Range(off, off + |body|);
    bytes + map p | p in written :: body[p - off]
  }

  /** The body bytes at the given positions, behind the header. */
  function BytesAt(data: seq<byte>, got: set<nat>): map<nat, byte>
    requires forall p | p in got :: HM_HEADER_LENGTH + p < |data|
  {
    map p | p in got :: data[HM_HEADER_LENGTH + p]
  }

  /** data with body copied to position at. */
  function Written(data: seq<byte>, at: nat, body: seq<byte>): (after: seq<byte>)
    requires at + |body| <= |data|
    ensures |after| == |data|
  {
    data[..at] + body + data[at + |body|..]
  }

  lemma OverlaidBytes(data: seq<byte>, got: set<nat>, off: nat, body: seq<byte>)
    requires HM_HEADER_LENGTH + off + |body| <= |data|
    requires forall p | p in got :: HM_HEADER_LENGTH + p < |data|
    ensures BytesAt(Written(data, HM_HEADER_LENGTH + off, body), got + Range(off, off + |body|))
         == Overlay(BytesAt(data, got), off, body)
  {
  }

  /** One buffered message; the class hm_fragment. */
  class HmFragment {
    const typ: byte
    const seqNum: u16
    const msgLen: u24
    /** The serialized message: header, then body. */
    const data: array<byte>
    /** The mask of the bytes received; null once they all are. */
    var reassembly: array?<bv8>
    /** The objects that make up this message. */
    ghost const parts: set<object>

    ghost predicate MaskOk()
      reads this, reassembly
    {
      reassembly == null || (MaskOf(reassembly[..], msgLen) && Marked(reassembly[..]) != Below(msgLen))
    }

    ghost predicate Owns()
      reads this
    {
      this in parts && data in parts && (reassembly != null ==> reassembly in parts)
    }

    ghost predicate Valid()
      reads this, reassembly
    {
      Owns() && data.Length == HM_HEADER_LENGTH + msgLen && MaskOk()
    }

    /** The buffer starts with the header of the unfragmented message. */
    ghost predicate HeaderOk()
      reads this, data
    {
      data.Length >= HM_HEADER_LENGTH
      && data[..HM_HEADER_LENGTH] == HeaderBytes(Header(typ, msgLen, seqNum, 0, msgLen))
    }

    /** dtls1_hm_fragment_new. */
    constructor (h: Header)
      ensures Valid() && HeaderOk() && fresh(parts)
      ensures typ == h.typ && seqNum == h.seqNum && msgLen == h.msgLen && Got() == {}
    {
      typ, seqNum, msgLen := h.typ, h.seqNum, h.msgLen;
      var header := HeaderBytes(Header(h.typ, h.msgLen, h.seqNum, 0, h.msgLen));
      var buffer := new byte[HM_HEADER_LENGTH + h.msgLen];
      for i := 0 to HM_HEADER_LENGTH
        invariant buffer[..i] == header[..i]
      {
        buffer[i] := header[i];
      }
      data := buffer;
      if h.msgLen > 0 {
        var mask := new bv8[(h.msgLen + 7) / 8](_ => 0);
        assert forall p: nat | p < 8 * mask.Length :: !MaskBit(mask[..], p);
        assert 0 in Below(h.msgLen);
        reassembly := mask;
        parts := {this, buffer, mask};
      } else {
        reassembly := null;
        parts := {this, buffer};
      }
    }

    /** The positions of the body received so far. */
    ghost function Got(): (got: set<nat>)
      requires MaskOk()
      reads this, reassembly
      ensures got <= Below(msgLen) && (reassembly == null <==> got == Below(msgLen))
    {
      if reassembly == null then Below(msgLen) else Marked(reassembly[..])
    }

    /** The contents of those positions. */
    ghost function Bytes(): (bytes: map<nat, byte>)
      requires Valid()
      reads this, reassembly, data
      ensures bytes.Keys == Got()
    {
      BytesAt(data[..], Got())
    }

    /** Copies the body of a fragment into place and marks it received. */
    method Receive(off: nat, body: seq<byte>)
      requires Valid() && reassembly != null && off + |body| <= msgLen
      modifies this`reassembly, reassembly, data
      ensures Valid() && Bytes() == Overlay(old(Bytes()), off, body)
      ensures data[..HM_HEADER_LENGTH] == old(data[..HM_HEADER_LENGTH])
      ensures reassembly != null ==> reassembly == old(reassembly)
    {
      Write(off, body);
      Mark(off, off + |body|);
    }

    /** The copy alone: the bytes are in place but not yet marked. */
    method Write(off: nat, body: seq<byte>)
      requires Valid() && off + |body| <= msgLen
      modifies data
      ensures BytesAt(data[..], Got() + Range(off, off + |body|)) == Overlay(old(Bytes()), off, body)
      ensures data[..HM_HEADER_LENGTH] == old(data[..HM_HEADER_LENGTH])
    {
      OverlaidBytes(data[..], Got(), off, body);
      CopyInto(data, HM_HEADER_LENGTH + off, body);
    }

    /** dtls1_hm_fragment_mark. */
    method Mark(start: nat, end: nat)
      requires MaskOk() && reassembly != null && start <= end <= msgLen
      modifies this`reassembly, reassembly
      ensures MaskOk() && Got() == old(Got()) + Range(start, end)
      ensures reassembly == null <==> Got() == Below(msgLen)
      ensures reassembly != null ==> reassembly == old(reassembly)
    {
      if start == end {
        return;
      }
      ghost var before := reassembly[..];
      WriteRange(reassembly, start, end);
      MarksRange(before, reassembly[..], start, end);
      FullIsAll(reassembly[..], msgLen);
      var complete := IsFull(reassembly, msgLen);
      if complete {
        reassembly := null;
      }
    }
  }

  /** Copies body to data[at..]. */
  method CopyInto(data: array<byte>, at: nat, body: seq<byte>)
    requires at + |body| <= data.Length
    modifies data
    ensures data[..] == Written(old(data[..]), at, body)
  {
    ghost var before := data[..];
    for i := 0 to |body|
      invariant data[..] == before[..at] + body[..i] + before[at + i..]
    {
      data[at + i] := body[i];
    }
  }

  /** Sets the mask bits of [start, end). */
  method WriteRange(mask: array<bv8>, start: nat, end: nat)
    requires start < end <= 8 * mask.Length
    modifies mask
    ensures RangeWritten(old(mask[..]), mask[..], start, end)
  {
    ghost var before := mask[..];
    if start / 8 == end / 8 {
      mask[start / 8] := mask[start / 8] | BitRange(start % 8, end % 8);
    } else {
      mask[start / 8] := mask[start / 8] | BitRange(start % 8, 8);
      for i := start / 8 + 1 to end / 8
        invariant forall j | 0 <= j < mask.Length ::
                    mask[j] == if j < i then WithRange(before[j], j, start, end) else before[j]
      {
        mask[i] := 0xff;
      }
      if end % 8 != 0 {
        mask[end / 8] := mask[end / 8] | BitRange(0, end % 8);
      }
    }
  }

  /** The completeness test at the end of dtls1_hm_fragment_mark. */
  method IsFull(mask: array<bv8>, msgLen: nat) returns (full: bool)
    requires mask.Length == (msgLen + 7) / 8
    ensures full == Full(mask[..], msgLen)
  {
    for i := 0 to msgLen / 8
      invariant forall j | 0 <= j < i :: mask[j] == 0xff
    {
      if mask[i] != 0xff {
        return false;
      }
    }
    full := msgLen % 8 == 0 || mask[msgLen / 8] == BitRange(0, msgLen % 8);
  }

  /** What the three writes of dtls1_hm_fragment_mark leave behind. */
  ghost predicate RangeWritten(before: seq<bv8>, after: seq<bv8>, start: nat, end: nat)
    requires start < end <= 8 * |before|
  {
    |after| == |before| && forall j | 0 <= j < |before| :: after[j] == WithRange(before[j], j, start, end)
  }

  /** Byte j of the mask, once the positions of [start, end) are marked. */
  function WithRange(b: bv8, j: nat, start: nat, end: nat): bv8
    requires start < end
  {
    if j < start / 8 || j > end / 8 then b
    else if start / 8 == end / 8 then b | BitRange(start % 8, end % 8)
    else if j == start / 8 then b | BitRange(start % 8, 8)
    else if j < end / 8 then 0xff
    else if end % 8 != 0 then b | BitRange(0, end % 8) else b
  }

  /** The bits of byte j that the range covers are k with from <= k < to. */
  function From(j: nat, start: nat): nat { if j < start / 8 then 8 else if j == start / 8 then start % 8 else 0 }

  function To(j: nat, end: nat): nat { if j < end / 8 then 8 else if j == end / 8 then end % 8 else 0 }

  lemma InByte(start: nat, end: nat, p: nat)
    ensures start <= p < end <==> From(p / 8, start) <= p % 8 < To(p / 8, end)
  {
  }

  lemma BitOfWithRange(b: bv8, j: nat, start: nat, end: nat, k: nat)
    requires start < end && k < 8
    ensures ByteBit(WithRange(b, j, start, end), k) <==> ByteBit(b, k) || From(j, start) <= k < To(j, end)
  {
    if j == start / 8 {
      BitOfMarked(b, start % 8, To(j, end), k);
    } else if start / 8 < j == end / 8 {
      BitOfMarked(b, 0, end % 8, k);
    } else if start / 8 < j < end / 8 {
      BitOfOnes(k);
    }
  }

  lemma MarksRange(before: seq<bv8>, after: seq<bv8>, start: nat, end: nat)
    requires start < end <= 8 * |before|
    requires RangeWritten(before, after, start, end)
    ensures Marked(after) == Marked(before) + Range(start, end)
  {
    forall p: nat | p < 8 * |before|
      ensures p in Marked(after) <==> p in Marked(before) || start <= p < end
    {
      InByte(start, end, p);
      BitOfWithRange(before[p / 8], p / 8, start, end, p % 8);
    }
  }
}
