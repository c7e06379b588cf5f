/**
 The receiving side as the source has it (d1_both.cc): a ring of buffered fragments, changed in place. A fragment
 finds its slot, or gets a new one, and its bytes are copied and marked there; a complete message is handed over
 from the slot of the next number. DtlsReceiver specifies all of this on values.
 */
module DtlsReceiverClass {
  import opened Bytes
  import opened DtlsWire
  import opened Reassembly
  import Spec = DtlsReceiver

  const MAX_FLIGHT: nat := Spec.MAX_FLIGHT

  class Incoming {
    var readSeq: u16
    var epoch: nat
    var hasCcs: bool
    var hasMessage: bool
    const maxLen: nat
    /** incoming_messages. */
    const slots: array<HmFragment?>
    /** What the fields stand for. */
    ghost var rx: Spec.Receiver
    ghost var repr: set<object>

    /** Slot i holds what rx says, in objects of repr. */
    ghost predicate Holds(i: nat)
      reads this, slots, repr
    {
      i < slots.Length && i < |rx.ring| &&
      if slots[i] == null then rx.ring[i] == None
      else
        var s := slots[i];
        s in repr && s.parts <= repr - {this, slots} && s.Owns() && s.Valid() && s.HeaderOk()
        && rx.ring[i] == Some(SlotOf(s))
    }

    /** Slots share nothing. */
    ghost predicate Apart()
      reads slots
    {
      forall i, j | 0 <= i < j < slots.Length && slots[i] != null && slots[j] != null ::
        slots[i].parts !! slots[j].parts
    }

    ghost predicate Ok()
      reads this, slots, repr
    {
      && this in repr && slots in repr && slots.Length == MAX_FLIGHT
      && Spec.Valid(rx) && rx == Spec.Receiver(readSeq, epoch, rx.ring, hasCcs)
      && (forall i: nat | i < MAX_FLIGHT :: Holds(i))
      && Apart()
    }

    constructor (maxLen: nat)
      ensures Ok() && fresh(repr) && rx == Spec.START && this.maxLen == maxLen && !hasMessage
    {
      this.maxLen := maxLen;
      readSeq, epoch, hasCcs, hasMessage := 0, 0, false, false;
      var ring := new HmFragment?[MAX_FLIGHT](_ => null);
      slots := ring;
      rx := Spec.START;
      repr := {this, ring};
    }

    /** A slot whose objects did not change still holds what rx says. */
    twostate lemma Kept(i: nat)
      requires old(Holds(i)) && old(repr) <= repr
      requires slots[i] == old(slots[i]) && i < |rx.ring| && rx.ring[i] == old(rx).ring[i]
      requires slots[i] != null ==>
                 unchanged(slots[i].parts)
      ensures Holds(i)
    {
    }

    /** dtls1_get_incoming_message. */
    method GetIncoming(h: Header) returns (frag: HmFragment?, status: Spec.Status)
      requires Ok()
      modifies repr
      ensures Ok() && fresh(repr - old(repr)) && unchanged(this`readSeq, this`epoch, this`hasCcs, this`hasMessage)
      ensures var (slot, expected) := Spec.Incoming(old(rx), h);
              && status == expected
              && (frag == null <==> slot == None)
              && (frag == null ==> rx == old(rx))
              && (frag != null ==>
                    var i := h.seqNum % MAX_FLIGHT;
                    frag == slots[i] && frag.msgLen == h.msgLen && rx == old(rx).(ring := old(rx).ring[i := slot]))
    {
      if h.seqNum < readSeq || h.seqNum - readSeq >= MAX_FLIGHT {
        return null, Spec.Error(Spec.InternalError);
      }
      var idx := h.seqNum % MAX_FLIGHT;
      assert Holds(idx);
      frag := slots[idx];
      if frag != null {
        Spec.SameSlotSameNumber(rx, h);
        assert frag.seqNum == h.seqNum;
        if frag.typ != h.typ || frag.msgLen != h.msgLen {
          return null, Spec.Error(Spec.IllegalParameter);
        }
        assert rx.ring == rx.ring[idx := rx.ring[idx]];
        return frag, Spec.Ok;
      }
      frag := Install(h);
      status := Spec.Ok;
    }

    /** Starts the buffer of a message of which nothing has arrived. */
    method Install(h: Header) returns (frag: HmFragment)
      requires Ok() && readSeq <= h.seqNum < readSeq as int + MAX_FLIGHT
      requires slots[h.seqNum % MAX_FLIGHT] == null
      modifies this`rx, this`repr, slots
      ensures Ok() && fresh(repr - old(repr))
      ensures frag == slots[h.seqNum % MAX_FLIGHT] && frag.msgLen == h.msgLen
      ensures rx == old(rx).(ring := old(rx).ring[h.seqNum % MAX_FLIGHT := Some(Spec.NewSlot(h))])
    {
      var idx := h.seqNum % MAX_FLIGHT;
      frag := new HmFragment(h);
      assert SlotOf(frag) == Spec.NewSlot(h);
      slots[idx] := frag;
      repr := repr + frag.parts;
      rx := rx.(ring := rx.ring[idx := Some(Spec.NewSlot(h))]);
      forall i: nat | i < MAX_FLIGHT && i != idx ensures Holds(i) { Kept(i); }
    }
  
    /** Copies a fragment into slot i, which is not complete. */
    method Fill(i: nat, frag: HmFragment, off: nat, body: seq<byte>)
      requires Ok() && i < MAX_FLIGHT && slots[i] == frag && frag.reassembly != null
      requires off + |body| <= frag.msgLen
      requires Holds(i)
      modifies this`rx, frag`reassembly, frag.reassembly, frag.data
      ensures Ok() && rx == old(rx).(ring := rx.ring)
      ensures var s := old(SlotOf(frag));
              rx.ring == old(rx).ring[i := Some(s.(bytes := Overlay(s.bytes, off, body)))]
    {
      hide Overlay, Spec.Valid;
      assert Holds(i);
      ghost var was := SlotOf(frag);
      ghost var slot := was.(bytes := Overlay(was.bytes, off, body));
      assert rx.ring[i] == Some(was);
      frag.Receive(off, body);
      assert SlotOf(frag) == slot;
      Spec.RefillKeepsValid(rx, i, slot);
      rx := rx.(ring := rx.ring[i := Some(slot)]);
      assert Holds(i);
      assert Apart();
      forall j: nat | j < MAX_FLIGHT && j != i ensures Holds(j) {
        assert old(Holds(j));
        Kept(j);
      }
      hide Holds, Apart;
    }

    /** One pass of the loop in dtls1_open_handshake. */
    method AcceptFragment(f: Fragment) returns (status: Spec.Status)
      requires Ok() && |f.body| == f.hdr.fragLen
      modifies repr
      ensures Ok() && fresh(repr - old(repr)) && hasMessage == old(hasMessage)
      ensures (rx, status) == Spec.AcceptFragment(old(rx), f, maxLen)
    {
      var h := f.hdr;
      if h.fragOff > h.msgLen || h.fragOff as int + h.fragLen > h.msgLen || h.msgLen > maxLen {
        return Spec.Error(Spec.IllegalParameter);
      }
      if epoch == 1 && h.seqNum != readSeq {
        return Spec.Error(Spec.UnexpectedMessage);
      }
      if h.seqNum < readSeq || h.seqNum > readSeq as int + MAX_FLIGHT {
        return Spec.Ok;
      }
      var frag, st := GetIncoming(h);
      if frag == null {
        return st;
      }
      assert Holds(h.seqNum % MAX_FLIGHT);
      if frag.reassembly == null {
        return Spec.Ok;
      }
      ghost var was := SlotOf(frag);
      ghost var slot := Some(was.(bytes := Overlay(was.bytes, h.fragOff, f.body)));
      assert !was.Complete();
      Fill(h.seqNum % MAX_FLIGHT, frag, h.fragOff, f.body);
      assert rx.ring == old(rx).ring[h.seqNum % MAX_FLIGHT := slot];
      status := Spec.Ok;
    }

    /** dtls1_open_handshake on an opened record. */
    method OpenHandshake(typ: Spec.RecordType, record: seq<byte>, nullCipher: bool) returns (status: Spec.Status)
      requires Ok()
      modifies repr
      ensures Ok() && fresh(repr - old(repr)) && hasMessage == old(hasMessage)
      ensures (rx, status) == Spec.OpenHandshake(old(rx), typ, record, nullCipher, maxLen)
    {
      match typ
      case ApplicationData =>
        return if nullCipher then Spec.Error(Spec.UnexpectedMessage) else Spec.Discard;
      case ChangeCipherSpec =>
        if !nullCipher {
          return Spec.Error(Spec.UnexpectedMessage);
        }
        if record != [1] {
          return Spec.Error(Spec.IllegalParameter);
        }
        hasCcs := true;
        rx := rx.(hasCcs := true);
        forall i: nat | i < MAX_FLIGHT ensures Holds(i) { assert old(Holds(i)); }
        return Spec.Ok;
      case OtherRecord =>
        return Spec.Error(Spec.UnexpectedMessage);
      case Handshake =>
        var cbs := record;
        while cbs != []
          invariant Ok() && fresh(repr - old(repr)) && hasMessage == old(hasMessage)
          invariant Spec.ReceiveFragments(rx, cbs, maxLen) == Spec.ReceiveFragments(old(rx), record, maxLen)
          decreases |cbs|
        {
          var parsed := Parse(cbs);
          if parsed == None {
            return Spec.Error(Spec.DecodeError);
          }
          SerializeParse(cbs);
          status := AcceptFragment(parsed.value.fragment);
          if status != Spec.Ok {
            return;
          }
          cbs := parsed.value.rest;
        }
        status := Spec.Ok;
    }

    /** dtls1_get_message: the type, body and serialized form of the message to be handled next. */
    method GetMessage() returns (found: bool, typ: byte, raw: seq<byte>)
      requires Ok()
      modifies this`hasMessage
      ensures Ok() && rx == old(rx)
      ensures found <==> Spec.GetMessage(rx).Some?
      ensures found ==> hasMessage && typ == Spec.GetMessage(rx).value.typ && raw == Spec.GetMessage(rx).value.Raw()
      ensures !found ==> hasMessage == old(hasMessage)
    {
      var idx := readSeq % MAX_FLIGHT;
      assert Holds(idx);
      var frag := slots[idx];
      if frag == null || frag.reassembly != null {
        return false, 0, [];
      }
      typ, raw := frag.typ, frag.data[..];
      assert raw == Spec.GetMessage(rx).value.Raw() by {
        var slot := rx.ring[idx].value;
        assert raw[HM_HEADER_LENGTH..] == slot.Body();
        assert slot.seqNum == frag.seqNum;
      }
      hasMessage := true;
      found := true;
      assert old(Ok());
      forall i: nat | i < MAX_FLIGHT ensures Holds(i) { assert old(Holds(i)); }
    }

    /** dtls1_next_message, on the message just handled. */
    method NextMessage()
      requires Ok() && hasMessage && Spec.GetMessage(rx).Some?
      modifies this`readSeq, this`hasMessage, this`rx, slots
      ensures Ok() && rx == Spec.NextMessage(old(rx)) && !hasMessage
    {
      var idx := readSeq % MAX_FLIGHT;
      Spec.NextKeepsValid(rx);
      slots[idx] := null;
      rx := Spec.NextMessage(rx);
      readSeq := (readSeq as int + 1) % 0x1_0000;
      hasMessage := false;
      forall i: nat | i < MAX_FLIGHT && i != idx ensures Holds(i) {
        assert old(Holds(i));
        Kept(i);
      }
    }
  }

  ghost function SlotOf(s: HmFragment): Spec.Slot
    requires s.Valid()
    reads s, s.reassembly, s.data
  {
    Spec.Slot(s.typ, s.seqNum, s.msgLen, s.Bytes())
  }
}
