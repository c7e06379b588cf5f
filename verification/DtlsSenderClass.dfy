/**
 The sending side as the source has it (d1_both.cc, d1_lib.cc): serialized messages and a cursor moved in place.
 Packets are filled with records from the cursor on; a write that fails puts the cursor back, a timeout rewinds it.
 DtlsSender and DtlsFlight specify all of this on values.
 */
module DtlsSenderClass {
  import opened Bytes
  import opened DtlsWire
  import Spec = DtlsSender

  const MAX_FLIGHT: nat := Spec.MAX_FLIGHT
  const MIN_MTU: nat := 228
  const DEFAULT_MTU: nat := 1472
  const MTU_TIMEOUTS: nat := 2
  const MAX_TIMEOUTS: nat := 12
  const MAX_QUERIED_MTU: int := 0x4000_0000

  /** DTLS_OUTGOING_MESSAGE. */
  datatype OutgoingMessage = OutgoingMessage(data: seq<byte>, epoch: u16, isCcs: bool)

  /** o is the queued form of item m. */
  ghost predicate Queued(o: OutgoingMessage, m: Spec.Item) {
    o.epoch == m.epoch && o.isCcs == m.Ccs? &&
    (m.Message? ==> o.data == Serialize(Whole(m.typ, m.seqNum, m.body)))
  }

  /** dtls1_init_message and the message body: the total length is still zero. */
  function InitMessage(typ: byte, seqNum: u16, body: seq<byte>): seq<byte>
    requires |body| < 0x100_0000
  {
    Serialize(Fragment(Header(typ, 0, seqNum, 0, |body|), body))
  }

  /** dtls1_finish_message copies the fragment length over the total length. */
  function FinishMessage(msg: seq<byte>): seq<byte>
    requires |msg| >= HM_HEADER_LENGTH
  {
    msg[..1] + msg[HM_HEADER_LENGTH - 3..HM_HEADER_LENGTH] + msg[4..]
  }

  /** A finished message is the unfragmented form of its body. */
  lemma FinishedIsWhole(typ: byte, seqNum: u16, body: seq<byte>)
    requires |body| < 0x100_0000
    ensures FinishMessage(InitMessage(typ, seqNum, body)) == Serialize(Whole(typ, seqNum, body))
  {
  }

  class Outgoing {
    /** outgoing_messages. */
    var messages: seq<OutgoingMessage>
    var complete: bool
    var written: nat
    var offset: nat
    var writeSeq: u16
    var wEpoch: u16
    var mtu: nat
    var numTimeouts: nat
    /** What the fields stand for. */
    ghost var s: Spec.Sender

    ghost predicate Ok()
      reads this
    {
      && s == Spec.Sender(s.flight, complete, written, offset, writeSeq, wEpoch)
      && |messages| == |s.flight|
      && forall i {:trigger Queued(messages[i], s.flight[i])} | 0 <= i < |messages| ::
           Queued(messages[i], s.flight[i])
    }

    constructor ()
      ensures Ok() && s == Spec.START
    {
      messages, complete, written, offset := [], false, 0, 0;
      writeSeq, wEpoch, mtu, numTimeouts := 0, 0, 0, 0;
      s := Spec.START;
    }

    /** add_outgoing. */
    method AddOutgoing(isCcs: bool, data: seq<byte>, ghost m: Spec.Item) returns (ok: bool)
      requires Ok() && Queued(OutgoingMessage(data, wEpoch, isCcs), m)
      requires m.Message? ==> m.seqNum == writeSeq
      modifies this
      ensures Ok() && wEpoch == old(wEpoch) && mtu == old(mtu)
      ensures ok <==> |Spec.OpenFlight(old(s)).flight| < MAX_FLIGHT && |data| <= 0xffff_ffff
      ensures if !ok then s == Spec.OpenFlight(old(s)) else
                var t := Spec.OpenFlight(old(s));
                s == t.(flight := t.flight + [m],
                        writeSeq := if isCcs then t.writeSeq else (t.writeSeq as int + 1) % 0x1_0000)
    {
      if complete {
        numTimeouts := 0;
        messages, written, offset, complete := [], 0, 0, false;
      }
      s := Spec.OpenFlight(s);
      if |messages| >= MAX_FLIGHT || |data| > 0xffff_ffff {
        return false;
      }
      if !isCcs {
        writeSeq := (writeSeq as int + 1) % 0x1_0000;
      }
      messages := messages + [OutgoingMessage(data, wEpoch, isCcs)];
      s := s.(flight := s.flight + [m], writeSeq := writeSeq);
      ok := true;
    }

    /** dtls1_init_message, dtls1_finish_message and dtls1_add_message. */
    method AddMessage(typ: byte, body: seq<byte>) returns (ok: bool)
      requires Ok()
      modifies this
      ensures Ok() && wEpoch == old(wEpoch) && mtu == old(mtu)
      ensures ok <==> Spec.AddMessage(old(s), typ, body).Some?
      ensures s == if ok then Spec.AddMessage(old(s), typ, body).value else old(s)
    {
      if |body| >= 0x100_0000 {
        return false;
      }
      var msg := InitMessage(typ, writeSeq, body);
      FinishedIsWhole(typ, writeSeq, body);
      ok := AddOutgoing(false, FinishMessage(msg), Spec.Message(wEpoch, typ, writeSeq, body));
    }

    method AddChangeCipherSpec() returns (ok: bool)
      requires Ok()
      modifies this
      ensures Ok() && wEpoch == old(wEpoch) && mtu == old(mtu)
      ensures ok <==> Spec.AddCcs(old(s)).Some?
      ensures s == if ok then Spec.AddCcs(old(s)).value else old(s)
    {
      ok := AddOutgoing(true, [], Spec.Ccs(wEpoch));
    }

    /** dtls1_set_write_state. */
    method SetWriteState()
      requires Ok()
      modifies this`wEpoch, this`s
      ensures Ok() && s == Spec.NextEpoch(old(s))
    {
      wEpoch := (wEpoch as int + 1) % 0x1_0000;
      s := Spec.NextEpoch(s);
    }

    /** The part of seal_next_message that reads the queued message back; it never fails. */
    static method ReadMessage(data: seq<byte>, ghost m: Spec.Item) returns (ok: bool, hdr: Header, body: seq<byte>)
      requires m.Message? && data == Serialize(Whole(m.typ, m.seqNum, m.body))
      ensures ok && body == m.body && hdr == Header(m.typ, |m.body|, m.seqNum, 0, |m.body|)
    {
      ParseSerialize(Whole(m.typ, m.seqNum, m.body), []);
      assert data + [] == data;
      var parsed := Parse(data);
      ok, hdr, body := parsed.Some?, Header(0, 0, 0, 0, 0), [];
      if ok {
        hdr, body := parsed.value.fragment.hdr, parsed.value.fragment.body;
        ok := hdr.fragOff == 0 && hdr.fragLen == |body| && hdr.msgLen == |body| && parsed.value.rest == [];
      }
    }

    /** seal_next_message: the outcome, with the cursor's offset moved as the source moves it. */
    method SealNextMessage(keys: Spec.Keys, maxOut: nat) returns (sealed: Spec.Sealed)
      requires Ok() && written < |messages|
      modifies this`offset, this`s
      ensures Ok() && s == old(s).(offset := offset)
      ensures sealed == Spec.SealNextMessage(s.flight[written], old(offset),
                                             Spec.AeadFor(wEpoch, keys, s.flight[written].epoch), maxOut)
      ensures offset == match sealed
                        case Partial(_, next) => next
                        case Success(_) => if s.flight[written].Ccs? then old(offset) else 0
                        case _ => old(offset)
    {
      var msg := messages[written];
      ghost var m := s.flight[written];
      assert Queued(msg, m);
      var aead: Spec.Aead;
      if wEpoch >= 1 && msg.epoch == wEpoch as int - 1 {
        aead := keys.previous;
      } else if msg.epoch != wEpoch {
        return Spec.SealError;
      } else {
        aead := keys.current;
      }
      if msg.isCcs {
        if maxOut < 1 + aead.overhead {
          return Spec.NoProgress;
        }
        if aead.sealed(1) > maxOut {
          return Spec.SealError;
        }
        return Spec.Success(Spec.CcsRecord(msg.epoch, aead.sealed(1)));
      }
      var ok, hdr, body := ReadMessage(msg.data, m);
      if !ok || offset > |body| {
        return Spec.SealError;
      }
      if maxOut < HM_HEADER_LENGTH + 1 + aead.overhead || maxOut < aead.prefix {
        return Spec.NoProgress;
      }
      var todo := |body| - offset;
      if todo > maxOut - HM_HEADER_LENGTH - aead.overhead {
        todo := maxOut - HM_HEADER_LENGTH - aead.overhead;
      }
      var fragment := Fragment(Header(hdr.typ, hdr.msgLen, hdr.seqNum, offset, todo), body[offset..offset + todo]);
      assert fragment == Spec.Piece(m, offset, todo);
      var record := Spec.HandshakeRecord(msg.epoch, fragment, aead.sealed(HM_HEADER_LENGTH + todo));
      if record.size > maxOut {
        return Spec.SealError;
      }
      if todo == |body| - offset {
        offset := 0;
        s := s.(offset := 0);
        return Spec.Success(record);
      }
      offset := offset + todo;
      s := s.(offset := offset);
      sealed := Spec.Partial(record, offset);
    }

    /** One pass of the loop in seal_next_packet: a record, if one fits, and the cursor behind it. */
    method SealOne(keys: Spec.Keys, left: nat) returns (sealed: Spec.Sealed)
      requires Ok() && written < |messages|
      modifies this`written, this`offset, this`s
      ensures Ok() && s == old(s).(written := written, offset := offset)
      ensures sealed.Success? ==> sealed.record.size <= left && written == old(written) + 1
      ensures Spec.SealRecords(old(s), keys, left) ==
              match sealed
              case SealError => Spec.PacketError(s)
              case NoProgress => Spec.Packet([], s)
              case Partial(r, _) => Spec.Packet([r], s)
              case Success(r) => Cons(r, Spec.SealRecords(s, keys, left - r.size))
    {
      sealed := SealNextMessage(keys, left);
      SealRecordsUnfold(old(s), keys, left, sealed);
      if sealed.Success? {
        written := written + 1;
        s := s.(written := written);
      }
    }

    /** seal_next_packet: the records put into the packet, or an error. */
    method SealNextPacket(keys: Spec.Keys, maxOut: nat) returns (ok: bool, records: seq<Spec.Record>)
      requires Ok()
      modifies this`written, this`offset, this`s
      ensures Ok() && s == old(s).(written := written, offset := offset)
      ensures var p := Spec.SealNextPacket(old(s), keys, maxOut);
              p == if ok then Spec.Packet(records, s) else Spec.PacketError(s)
    {
      hide Spec.SealNextMessage;
      var left := maxOut;
      records := [];
      while written < |messages|
        invariant Ok() && s == old(s).(written := written, offset := offset)
        invariant Continues(Spec.SealRecords(old(s), keys, maxOut), records, Spec.SealRecords(s, keys, left))
        decreases |messages| - written
      {
        var sealed := SealOne(keys, left);
        match sealed
        case SealError => return false, [];
        case NoProgress => break;
        case Partial(r, _) => return true, records + [r];
        case Success(r) =>
          left := left - r.size;
          ContinuesStep(Spec.SealRecords(old(s), keys, maxOut), records, r, Spec.SealRecords(s, keys, left));
          records := records + [r];
      }
      ok := records != [];
    }

    /** send_flight after dtls1_update_mtu: answers are what BIO_write and BIO_flush return, in order. */
    method SendFlight(keys: Spec.Keys, answers: seq<int>) returns (ok: bool, packets: seq<seq<Spec.Record>>)
      requires Ok()
      modifies this`written, this`offset, this`s
      ensures Ok()
      ensures Spec.Sent(packets, s, ok) == Spec.SendFlight(old(s), keys, mtu, answers)
    {
      packets := [];
      var j := 0;
      while written < |messages|
        invariant Ok() && 0 <= j <= |answers|
        invariant Resumes(Spec.SendFlight(old(s), keys, mtu, answers), packets,
                          Spec.SendFlight(s, keys, mtu, answers[j..]))
        decreases |answers| - j
      {
        var oldWritten, oldOffset := written, offset;
        ghost var before := s;
        var sealed, records := SealNextPacket(keys, mtu);
        SendFlightUnfold(before, keys, mtu, answers, j);
        if !sealed {
          return false, packets;
        }
        if j == |answers| || answers[j] <= 0 {
          written, offset := oldWritten, oldOffset;
          s := before;
          return false, packets;
        }
        ResumesStep(Spec.SendFlight(old(s), keys, mtu, answers), packets, records,
                    Spec.SendFlight(s, keys, mtu, answers[j + 1..]));
        packets := packets + [records];
        j := j + 1;
      }
      ok := j < |answers| && answers[j] > 0;
    }

    /** dtls1_update_mtu: queried is the transport's answer, asked for only below the minimum. */
    method UpdateMtu(mayQuery: bool, queried: int)
      requires Ok()
      modifies this`mtu
      ensures Ok() && (mayQuery ==> mtu >= MIN_MTU)
      ensures old(mtu) >= MIN_MTU ==> mtu == old(mtu)
    {
      if mtu < MIN_MTU && mayQuery {
        mtu := if 0 <= queried <= MAX_QUERIED_MTU && queried >= MIN_MTU then queried else DEFAULT_MTU;
      }
    }

    /** dtls1_flush_flight. */
    method FlushFlight(keys: Spec.Keys, mayQuery: bool, queried: int, answers: seq<int>)
      returns (ok: bool, packets: seq<seq<Spec.Record>>)
      requires Ok()
      modifies this`complete, this`mtu, this`written, this`offset, this`s
      ensures Ok() && Spec.Sent(packets, s, ok) == Spec.SendFlight(Spec.Close(old(s)), keys, mtu, answers)
    {
      complete := true;
      s := Spec.Close(s);
      UpdateMtu(mayQuery, queried);
      ok, packets := SendFlight(keys, answers);
    }

    /**
     DTLSv1_handle_timeout once the timer has expired: the MTU falls back after two timeouts, the thirteenth
     gives up, and otherwise the flight is sent again from its start.
     */
    method HandleTimeout(keys: Spec.Keys, mayQuery: bool, fallback: int, queried: int, answers: seq<int>)
      returns (gaveUp: bool, ok: bool, packets: seq<seq<Spec.Record>>)
      requires Ok()
      modifies this`numTimeouts, this`mtu, this`written, this`offset, this`s
      ensures Ok() && numTimeouts == old(numTimeouts) + 1 && (gaveUp <==> numTimeouts > MAX_TIMEOUTS)
      ensures gaveUp ==> s == old(s) && packets == [] && !ok
      ensures !gaveUp ==> Spec.Sent(packets, s, ok) == Spec.SendFlight(Spec.Rewind(old(s)), keys, mtu, answers)
    {
      numTimeouts := numTimeouts + 1;
      if numTimeouts > MTU_TIMEOUTS && mayQuery && 0 <= fallback <= MAX_QUERIED_MTU && fallback >= MIN_MTU {
        mtu := fallback;
      }
      if numTimeouts > MAX_TIMEOUTS {
        return true, false, [];
      }
      written, offset := 0, 0;
      s := Spec.Rewind(s);
      UpdateMtu(mayQuery, queried);
      gaveUp := false;
      ok, packets := SendFlight(keys, answers);
    }
  }

  /** whole is the packet that starts with records and goes on as rest. */
  ghost predicate Continues(whole: Spec.Packet, records: seq<Spec.Record>, rest: Spec.Packet) {
    whole == if rest.PacketError? then rest else Spec.Packet(records + rest.records, rest.sender)
  }

  /** whole is the sending that starts with packets and goes on as rest. */
  ghost predicate Resumes(whole: Spec.Sent, packets: seq<seq<Spec.Record>>, rest: Spec.Sent) {
    whole == Spec.Sent(packets + rest.packets, rest.sender, rest.ok)
  }

  lemma ResumesStep(whole: Spec.Sent, packets: seq<seq<Spec.Record>>, records: seq<Spec.Record>, rest: Spec.Sent)
    requires Resumes(whole, packets, Spec.Sent([records] + rest.packets, rest.sender, rest.ok))
    ensures Resumes(whole, packets + [records], rest)
  {
    assert packets + ([records] + rest.packets) == packets + [records] + rest.packets;
  }

  lemma SendFlightUnfold(s: Spec.Sender, k: Spec.Keys, mtu: nat, answers: seq<int>, j: nat)
    requires s.written < |s.flight| && j <= |answers|
    ensures Spec.SendFlight(s, k, mtu, answers[j..]) ==
            match Spec.SealNextPacket(s, k, mtu)
            case PacketError(last) => Spec.Sent([], last, false)
            case Packet(records, next) =>
              if j == |answers| || answers[j] <= 0 then Spec.Sent([], s, false)
              else
                var rest := Spec.SendFlight(next, k, mtu, answers[j + 1..]);
                Spec.Sent([records] + rest.packets, rest.sender, rest.ok)
  {
    if j < |answers| { assert answers[j..][1..] == answers[j + 1..]; }
  }

  function Cons(r: Spec.Record, rest: Spec.Packet): Spec.Packet {
    if rest.PacketError? then rest else Spec.Packet([r] + rest.records, rest.sender)
  }

  lemma ContinuesStep(whole: Spec.Packet, records: seq<Spec.Record>, r: Spec.Record, rest: Spec.Packet)
    requires Continues(whole, records, Cons(r, rest))
    ensures Continues(whole, records + [r], rest)
  {
    if rest.Packet? { assert records + ([r] + rest.records) == records + [r] + rest.records; }
  }

  lemma SealRecordsUnfold(s: Spec.Sender, k: Spec.Keys, maxOut: nat, sealed: Spec.Sealed)
    requires s.written < |s.flight|
    requires var m := s.flight[s.written];
             sealed == Spec.SealNextMessage(m, s.offset, Spec.AeadFor(s.wEpoch, k, m.epoch), maxOut)
    ensures Spec.SealRecords(s, k, maxOut) ==
            match sealed
            case SealError => Spec.PacketError(s)
            case NoProgress => Spec.Packet([], s)
            case Partial(r, offset) => Spec.Packet([r], s.(offset := offset))
            case Success(r) =>
              var next := s.(written := s.written + 1, offset := if s.flight[s.written].Ccs? then s.offset else 0);
              Cons(r, Spec.SealRecords(next, k, maxOut - r.size))
  {
  }
}
