/**
 DTLS handshake fragments on the wire (section 4.2.2 of RFC 6347).
 */
module DtlsWire {
  import opened Bytes

  const HM_HEADER_LENGTH: nat := 12

  datatype Header = Header(typ: byte, msgLen: u24, seqNum: u16, fragOff: u24, fragLen: u24)

  datatype Fragment = Fragment(hdr: Header, body: seq<byte>)

  /** What dtls1_parse_fragment leaves: the fragment read and the bytes after it. */
  datatype Parsed = Parsed(fragment: Fragment, rest: seq<byte>)

  function HeaderBytes(h: Header): (b: seq<byte>)
    ensures |b| == HM_HEADER_LENGTH
  {
    [ h.typ,
      ByteOf(h.msgLen, 2), ByteOf(h.msgLen, 1), ByteOf(h.msgLen, 0),
      ByteOf(h.seqNum, 1), ByteOf(h.seqNum, 0),
      ByteOf(h.fragOff, 2), ByteOf(h.fragOff, 1), ByteOf(h.fragOff, 0),
      ByteOf(h.fragLen, 2), ByteOf(h.fragLen, 1), ByteOf(h.fragLen, 0)]
  }

  function Serialize(f: Fragment): seq<byte> {
    HeaderBytes(f.hdr) + f.body
  }

  function ReadHeader(cbs: seq<byte>): Header
    requires |cbs| >= HM_HEADER_LENGTH
  {
    Header(cbs[0], U24(cbs[1], cbs[2], cbs[3]), U16(cbs[4], cbs[5]),
           U24(cbs[6], cbs[7], cbs[8]), U24(cbs[9], cbs[10], cbs[11]))
  }

  /** dtls1_parse_fragment. */
  function Parse(cbs: seq<byte>): Option<Parsed> {
    if |cbs| < HM_HEADER_LENGTH then None
    else
      var h := ReadHeader(cbs);
      if |cbs| - HM_HEADER_LENGTH < h.fragLen then None
      else
        var end := HM_HEADER_LENGTH + h.fragLen;
        Some(Parsed(Fragment(h, cbs[HM_HEADER_LENGTH..end]), cbs[end..]))
  }

  lemma ReadBack(h: Header, rest: seq<byte>)
    ensures ReadHeader(HeaderBytes(h) + rest) == h
  {
    U24OfBytes(h.msgLen);
    U16OfBytes(h.seqNum);
    U24OfBytes(h.fragOff);
    U24OfBytes(h.fragLen);
  }

  lemma WriteBack(cbs: seq<byte>)
    requires |cbs| >= HM_HEADER_LENGTH
    ensures HeaderBytes(ReadHeader(cbs)) == cbs[..HM_HEADER_LENGTH]
  {
    BytesOfU24(cbs[1], cbs[2], cbs[3]);
    BytesOfU16(cbs[4], cbs[5]);
    BytesOfU24(cbs[6], cbs[7], cbs[8]);
    BytesOfU24(cbs[9], cbs[10], cbs[11]);
  }

  /** Reading back what was written, whatever follows it. */
  lemma ParseSerialize(f: Fragment, rest: seq<byte>)
    requires |f.body| == f.hdr.fragLen
    ensures Parse(Serialize(f) + rest) == Some(Parsed(f, rest))
  {
    ReadBack(f.hdr, f.body + rest);
    assert Serialize(f) + rest == HeaderBytes(f.hdr) + (f.body + rest);
  }

  /** A fragment read is the only one that could have been written there. */
  lemma SerializeParse(cbs: seq<byte>)
    requires Parse(cbs).Some?
    ensures var p := Parse(cbs).value;
            |p.fragment.body| == p.fragment.hdr.fragLen && cbs == Serialize(p.fragment) + p.rest
  {
    WriteBack(cbs);
  }

  /** The unfragmented form of a message: what is hashed, and what is queued for sending. */
  function Whole(typ: byte, seqNum: u16, body: seq<byte>): Fragment
    requires |body| < 0x100_0000
  {
    Fragment(Header(typ, |body|, seqNum, 0, |body|), body)
  }
}
