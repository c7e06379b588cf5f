/** The receiving side of DTLS handshake messages (d1_both.cc), on values; the class is in DtlsReceiverClass. */
module DtlsReceiver {
  import opened Bytes
  import opened DtlsWire
  import opened Reassembly

  /** SSL_MAX_HANDSHAKE_FLIGHT. */
  const MAX_FLIGHT: nat := 7

  /** A buffered message: bytes maps the body positions received to their contents. */
  datatype Slot = Slot(typ: byte, seqNum: u16, msgLen: u24, bytes: map<nat, byte>) {
    predicate Complete() { bytes.Keys == Below(msgLen) }

    function Body(): seq<byte>
      requires Complete()
    {
      seq(msgLen, i requires 0 <= i < msgLen => bytes[i])
    }

    function Raw(): seq<byte>
      requires Complete()
    {
      Serialize(Whole(typ, seqNum, Body()))
    }
  }

  datatype Alert = DecodeError | IllegalParameter | UnexpectedMessage | InternalError

  datatype Status = Ok | Discard | Error(alert: Alert)

  datatype Receiver = Receiver(readSeq: u16, epoch: nat, ring: seq<Option<Slot>>, hasCcs: bool)

  const EMPTY_RING := [None, None, None, None, None, None, None]

  const START := Receiver(0, 0, EMPTY_RING, false)

  /** The invariant behind the assertion in dtls1_get_incoming_message. */
  ghost predicate Valid(rx: Receiver) {
    && |rx.ring| == MAX_FLIGHT
    && forall i | 0 <= i < MAX_FLIGHT && rx.ring[i].Some? ::
         var s := rx.ring[i].value;
         s.seqNum % MAX_FLIGHT == i && rx.readSeq <= s.seqNum < rx.readSeq as int + MAX_FLIGHT
         && s.bytes.Keys <= Below(s.msgLen)
  }

  function NewSlot(h: Header): Slot {
    Slot(h.typ, h.seqNum, h.msgLen, map[])
  }

  /** dtls1_get_incoming_message: the slot for h, and whether h can be taken. */
  function Incoming(rx: Receiver, h: Header): (Option<Slot>, Status)
    requires |rx.ring| == MAX_FLIGHT
  {
    if h.seqNum < rx.readSeq || h.seqNum - rx.readSeq >= MAX_FLIGHT then (None, Error(InternalError))
    else match rx.ring[h.seqNum % MAX_FLIGHT]
      case None => (Some(NewSlot(h)), Ok)
      case Some(s) =>
        if s.typ != h.typ || s.msgLen != h.msgLen then (None, Error(IllegalParameter)) else (Some(s), Ok)
  }

  /** One pass of the loop in dtls1_open_handshake. */
  function AcceptFragment(rx: Receiver, f: Fragment, maxLen: nat): (Receiver, Status)
    requires |rx.ring| == MAX_FLIGHT
  {
    var h := f.hdr;
    if h.fragOff > h.msgLen || h.fragOff as int + h.fragLen > h.msgLen || h.msgLen > maxLen then
      (rx, Error(IllegalParameter))
    else if rx.epoch == 1 && h.seqNum != rx.readSeq then (rx, Error(UnexpectedMessage))
    else if h.seqNum < rx.readSeq || h.seqNum > rx.readSeq as int + MAX_FLIGHT then (rx, Ok)
    else match Incoming(rx, h)
      case (None, status) => (rx, status)
      case (Some(s), _) =>
        var t := if s.Complete() then s else s.(bytes := Overlay(s.bytes, h.fragOff, f.body));
        (rx.(ring := rx.ring[h.seqNum % MAX_FLIGHT := Some(t)]), Ok)
  }

  /** The loop itself, over the fragments of one handshake record. */
  function ReceiveFragments(rx: Receiver, cbs: seq<byte>, maxLen: nat): (r: (Receiver, Status))
    requires |rx.ring| == MAX_FLIGHT
    ensures |r.0.ring| == MAX_FLIGHT
    decreases |cbs|
  {
    if cbs == [] then (rx, Ok)
    else match Parse(cbs)
      case None => (rx, Error(DecodeError))
      case Some(p) =>
        var (next, status) := AcceptFragment(rx, p.fragment, maxLen);
        if status != Ok then (next, status) else ReceiveFragments(next, p.rest, maxLen)
  }

  datatype RecordType = ApplicationData | ChangeCipherSpec | Handshake | OtherRecord

  /** dtls1_open_handshake on an opened record; nullCipher says that reading is not yet encrypted. */
  function OpenHandshake(rx: Receiver, typ: RecordType, record: seq<byte>, nullCipher: bool, maxLen: nat):
    (Receiver, Status)
    requires |rx.ring| == MAX_FLIGHT
  {
    match typ
    case ApplicationData => (rx, if nullCipher then Error(UnexpectedMessage) else Discard)
    case ChangeCipherSpec =>
      if !nullCipher then (rx, Error(UnexpectedMessage))
      else if record != [1] then (rx, Error(IllegalParameter))
      else (rx.(hasCcs := true), Ok)
    case Handshake => ReceiveFragments(rx, record, maxLen)
    case OtherRecord => (rx, Error(UnexpectedMessage))
  }

  /** dtls1_get_message: the message to be handled next, once it is complete. */
  function GetMessage(rx: Receiver): Option<Slot>
    requires |rx.ring| == MAX_FLIGHT
  {
    match rx.ring[rx.readSeq % MAX_FLIGHT]
    case None => None
    case Some(s) => if s.Complete() then Some(s) else None
  }

  /** dtls1_next_message; the sequence number wraps at 16 bits. */
  function NextMessage(rx: Receiver): Receiver
    requires |rx.ring| == MAX_FLIGHT
  {
    rx.(ring := rx.ring[rx.readSeq % MAX_FLIGHT := None], readSeq := (rx.readSeq as int + 1) % 0x1_0000)
  }

  /** dtls_has_unprocessed_handshake_data; hasMessage says the current message is being handled. */
  predicate HasUnprocessed(rx: Receiver, hasMessage: bool)
    requires |rx.ring| == MAX_FLIGHT
  {
    rx.hasCcs || exists i | 0 <= i < MAX_FLIGHT :: rx.ring[i].Some? && !(hasMessage && i == rx.readSeq % MAX_FLIGHT)
  }

  /** dtls1_open_change_cipher_spec takes the flag, dtls1_set_read_state changes the epoch. */
  function ChangeReadKeys(rx: Receiver, hasMessage: bool): Option<Receiver>
    requires |rx.ring| == MAX_FLIGHT
  {
    if !rx.hasCcs then None
    else
      var taken := rx.(hasCcs := false);
      if HasUnprocessed(taken, hasMessage) then Some(taken)
      else Some(taken.(epoch := (rx.epoch + 1) % 0x1_0000))
  }

  // The ring invariant.

  lemma SameSlotSameNumber(rx: Receiver, h: Header)
    requires Valid(rx) && rx.readSeq <= h.seqNum < rx.readSeq as int + MAX_FLIGHT
    requires rx.ring[h.seqNum % MAX_FLIGHT].Some?
    ensures rx.ring[h.seqNum % MAX_FLIGHT].value.seqNum == h.seqNum
  {
  }

  lemma RefillKeepsValid(rx: Receiver, i: nat, s: Slot)
    requires Valid(rx) && i < MAX_FLIGHT && rx.ring[i].Some?
    requires s == rx.ring[i].value.(bytes := s.bytes) && s.bytes.Keys <= Below(s.msgLen)
    ensures Valid(rx.(ring := rx.ring[i := Some(s)]))
  {
  }

  lemma AcceptKeepsValid(rx: Receiver, f: Fragment, maxLen: nat)
    requires Valid(rx) && |f.body| == f.hdr.fragLen
    ensures Valid(AcceptFragment(rx, f, maxLen).0)
  {
    if AcceptFragment(rx, f, maxLen).0 != rx && rx.ring[f.hdr.seqNum % MAX_FLIGHT].Some? {
      SameSlotSameNumber(rx, f.hdr);
    }
  }

  lemma {:induction false} ReceiveKeepsValid(rx: Receiver, cbs: seq<byte>, maxLen: nat)
    requires Valid(rx)
    ensures Valid(ReceiveFragments(rx, cbs, maxLen).0)
    decreases |cbs|
  {
    if cbs != [] && Parse(cbs).Some? {
      var p := Parse(cbs).value;
      SerializeParse(cbs);
      AcceptKeepsValid(rx, p.fragment, maxLen);
      var (next, status) := AcceptFragment(rx, p.fragment, maxLen);
      if status == Ok { ReceiveKeepsValid(next, p.rest, maxLen); }
    }
  }

  /** Moving on keeps the invariant, through the wrap too: the last number has no successors buffered. */
  lemma NextKeepsValid(rx: Receiver)
    requires Valid(rx)
    ensures Valid(NextMessage(rx))
    ensures rx.readSeq == 0xffff ==> NextMessage(rx).ring == EMPTY_RING
  {
    var next := NextMessage(rx);
    forall i | 0 <= i < MAX_FLIGHT && next.ring[i].Some?
      ensures rx.readSeq < rx.ring[i].value.seqNum
    {
      assert next.ring[i] == rx.ring[i];
    }
    if rx.readSeq == 0xffff { assert forall i | 0 <= i < MAX_FLIGHT :: next.ring[i] == None; }
  }
}
