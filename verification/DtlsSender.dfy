/**
 The sending side of DTLS handshake messages (d1_both.cc), on values; the class is in DtlsSenderClass.
 */
module DtlsSender {
  import opened Bytes
  import opened DtlsWire

  const MAX_FLIGHT: nat := 7

  /** A queued message, or ChangeCipherSpec, with the epoch it is sent under. */
  datatype Item =
    | Ccs(epoch: u16)
    | Message(epoch: u16, typ: byte, seqNum: u16, body: Body)

  type Body = b: seq<byte> | |b| < 0x100_0000

  /** What matters of an AEAD: sealing n bytes gives a record of sealed(n) bytes, header included. */
  datatype Aead = Aead(overhead: nat, prefix: nat, sealed: nat -> nat)

  ghost predicate Bounded(a: Aead) {
    a.prefix <= a.overhead && forall n: nat :: a.sealed(n) <= n + a.overhead
  }

  datatype Keys = Keys(current: Aead, previous: Aead)

  ghost predicate KeysOk(k: Keys) { Bounded(k.current) && Bounded(k.previous) }

  /** The flight, w_epoch, and the cursor outgoing_written, outgoing_offset. */
  datatype Sender = Sender(flight: seq<Item>, complete: bool, written: nat, offset: nat,
                           writeSeq: u16, wEpoch: u16)

  const START := Sender([], false, 0, 0, 0, 0)

  /** add_outgoing starts a new flight once the last one was flushed. */
  function OpenFlight(s: Sender): Sender {
    if s.complete then s.(flight := [], written := 0, offset := 0, complete := false) else s
  }

  /** dtls1_init_message, dtls1_finish_message and dtls1_add_message; None is the error return. */
  function AddMessage(s: Sender, typ: byte, body: seq<byte>): Option<Sender> {
    var t := OpenFlight(s);
    if |body| >= 0x100_0000 || |t.flight| >= MAX_FLIGHT then None
    else Some(t.(flight := t.flight + [Message(s.wEpoch, typ, s.writeSeq, body)],
                 writeSeq := (s.writeSeq as int + 1) % 0x1_0000))
  }

  /** dtls1_add_change_cipher_spec. */
  function AddCcs(s: Sender): Option<Sender> {
    var t := OpenFlight(s);
    if |t.flight| >= MAX_FLIGHT then None else Some(t.(flight := t.flight + [Ccs(s.wEpoch)]))
  }

  /** dtls1_set_write_state; the epoch is 16 bits. */
  function NextEpoch(s: Sender): Sender {
    s.(wEpoch := (s.wEpoch as int + 1) % 0x1_0000)
  }

  // One record, one packet.

  /** A record put into a packet: its plaintext, and the size it takes up sealed. */
  datatype Record =
    | CcsRecord(epoch: u16, size: nat)
    | HandshakeRecord(epoch: u16, fragment: Fragment, size: nat)

  datatype Sealed =
    | SealError
    | NoProgress
    | Partial(record: Record, offset: nat)
    | Success(record: Record)

  /** The AEAD an epoch is sealed with: those of the current and the previous epoch are kept. */
  function AeadFor(wEpoch: u16, k: Keys, epoch: u16): Option<Aead> {
    if wEpoch >= 1 && epoch == wEpoch as int - 1 then Some(k.previous)
    else if epoch != wEpoch then None
    else Some(k.current)
  }

  /** The piece of a message that starts at offset and has n body bytes. */
  function Piece(m: Item, offset: nat, n: nat): Fragment
    requires m.Message? && offset + n <= |m.body|
  {
    Fragment(Header(m.typ, |m.body|, m.seqNum, offset, n), m.body[offset..offset + n])
  }

  /** seal_next_message on message m, already sent up to offset. Sealing fails when the record does not fit. */
  function SealNextMessage(m: Item, offset: nat, aead: Option<Aead>, maxOut: nat): (sealed: Sealed)
    ensures sealed.Success? ==> sealed.record.size <= maxOut
  {
    match aead
    case None => SealError
    case Some(a) =>
      if m.Ccs? then
        if maxOut < 1 + a.overhead then NoProgress
        else if a.sealed(1) > maxOut then SealError
        else Success(CcsRecord(m.epoch, a.sealed(1)))
      else if offset > |m.body| then SealError
      else if maxOut < HM_HEADER_LENGTH + 1 + a.overhead || maxOut < a.prefix then NoProgress
      else
        var left := |m.body| - offset;
        var room := maxOut - HM_HEADER_LENGTH - a.overhead;
        var todo := if left > room then room else left;
        var r := HandshakeRecord(m.epoch, Piece(m, offset, todo), a.sealed(HM_HEADER_LENGTH + todo));
        if r.size > maxOut then SealError
        else if todo == left then Success(r) else Partial(r, offset + todo)
  }

  /** sender is the cursor left behind, moved over what was sealed even when the packet is given up. */
  datatype Packet =
    | PacketError(sender: Sender)
    | Packet(records: seq<Record>, sender: Sender)

  /** The loop of seal_next_packet: as many records as fit in maxOut bytes. */
  function SealRecords(s: Sender, k: Keys, maxOut: nat): Packet
    decreases |s.flight| - s.written
  {
    if s.written >= |s.flight| then Packet([], s)
    else
      var m := s.flight[s.written];
      match SealNextMessage(m, s.offset, AeadFor(s.wEpoch, k, m.epoch), maxOut)
      case SealError => PacketError(s)
      case NoProgress => Packet([], s)
      case Partial(r, offset) => Packet([r], s.(offset := offset))
      case Success(r) =>
        var next := s.(written := s.written + 1, offset := if m.Ccs? then s.offset else 0);
        match SealRecords(next, k, maxOut - r.size)
        case PacketError(last) => PacketError(last)
        case Packet(records, last) => Packet([r] + records, last)
  }

  /** seal_next_packet: an MTU too small for any progress is an error. */
  function SealNextPacket(s: Sender, k: Keys, mtu: nat): Packet {
    match SealRecords(s, k, mtu)
    case PacketError(last) => PacketError(last)
    case Packet(records, last) => if records == [] then PacketError(last) else Packet(records, last)
  }

  /** How a call of send_flight ended, with the packets the transport took and the cursor left. */
  datatype Sent = Sent(packets: seq<seq<Record>>, sender: Sender, ok: bool)

  /**
   send_flight: answers are the results of the successive BIO_write calls, then of BIO_flush; a missing
   answer is a failed call. A packet the transport refuses leaves the cursor before that packet.
   */
  function SendFlight(s: Sender, k: Keys, mtu: nat, answers: seq<int>): Sent
    decreases |answers|
  {
    if s.written >= |s.flight| then Sent([], s, answers != [] && answers[0] > 0)
    else match SealNextPacket(s, k, mtu)
      case PacketError(last) => Sent([], last, false)
      case Packet(records, next) =>
        if answers == [] || answers[0] <= 0 then Sent([], s, false)
        else
          var rest := SendFlight(next, k, mtu, answers[1..]);
          Sent([records] + rest.packets, rest.sender, rest.ok)
  }

  /** dtls1_flush_flight closes the flight, dtls1_retransmit_outgoing_messages rewinds it. */
  function Close(s: Sender): Sender { s.(complete := true) }

  function Rewind(s: Sender): Sender { s.(written := 0, offset := 0) }
}
