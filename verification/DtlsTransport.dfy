/** Sender, receiver, and a network that hands over any record it ever took, in any order, ever again or never. */
module DtlsTransport {
  import opened Bytes
  import opened DtlsWire
  import opened Reassembly
  import Rx = DtlsReceiver
  import Tx = DtlsSender
  import opened DtlsFlight

  /** A handshake message, as queued by one side or handed over by the other. */
  datatype Msg = Msg(typ: byte, body: Tx.Body)

  /**
   queued lists the messages the sender ever queued, air the records the transport ever took,
   delivered the serialized messages handed to the receiving handshake. failed: the receiver returned
   an error, which ends its handshake.
   */
  datatype Link = Link(tx: Tx.Sender, queued: seq<Msg>, air: set<Tx.Record>,
                       rx: Rx.Receiver, delivered: seq<seq<byte>>, failed: bool)

  const START := Link(Tx.START, [], {}, Rx.START, [], false)

  datatype Event =
    | Queue(typ: byte, body: seq<byte>)
    | QueueCcs
    | NewWriteKeys
    | Flush(keys: Tx.Keys, attempt: Try)
    | Timeout(keys: Tx.Keys, attempt: Try)
    | Arrive(record: Tx.Record, nullCipher: bool, maxLen: nat)
    | Take
    | NewReadKeys

  function RecordsOf(packets: seq<seq<Tx.Record>>): set<Tx.Record> {
    set p, r | p in packets && r in p :: r
  }

  function Send(l: Link, s: Tx.Sender, keys: Tx.Keys, attempt: Try): Link {
    var sent := Tx.SendFlight(s, keys, attempt.mtu, attempt.answers);
    l.(tx := sent.sender, air := l.air + RecordsOf(sent.packets))
  }

  /** A record of the wrong epoch, or one the record layer rejects, never reaches the handshake. */
  function Receive(l: Link, r: Tx.Record, nullCipher: bool, maxLen: nat): Link
    requires |l.rx.ring| == Rx.MAX_FLIGHT
  {
    if r !in l.air || l.failed || r.epoch != l.rx.epoch then l
    else
      var (rx, status) :=
        match r
        case CcsRecord(_, _) => Rx.OpenHandshake(l.rx, Rx.ChangeCipherSpec, [1], nullCipher, maxLen)
        case HandshakeRecord(_, f, _) => Rx.OpenHandshake(l.rx, Rx.Handshake, Serialize(f), nullCipher, maxLen);
      l.(rx := rx, failed := status.Error?)
  }

  function Apply(l: Link, e: Event): Link
    requires |l.rx.ring| == Rx.MAX_FLIGHT
  {
    match e
    case Queue(typ, body) =>
      (match Tx.AddMessage(l.tx, typ, body)
       case None => l
       case Some(tx) => l.(tx := tx, queued := l.queued + [Msg(typ, body)]))
    case QueueCcs =>
      (match Tx.AddCcs(l.tx) case None => l case Some(tx) => l.(tx := tx))
    case NewWriteKeys => l.(tx := Tx.NextEpoch(l.tx))
    case Flush(keys, attempt) => Send(l, Tx.Close(l.tx), keys, attempt)
    case Timeout(keys, attempt) => Send(l, Tx.Rewind(l.tx), keys, attempt)
    case Arrive(r, nullCipher, maxLen) => Receive(l, r, nullCipher, maxLen)
    case Take =>
      (match Rx.GetMessage(l.rx)
       case None => l
       case Some(slot) =>
         if l.failed then l else l.(rx := Rx.NextMessage(l.rx), delivered := l.delivered + [slot.Raw()]))
    case NewReadKeys =>
      (match Rx.ChangeReadKeys(l.rx, false) case None => l case Some(rx) => l.(rx := rx))
  }

  lemma ApplyKeepsRing(l: Link, e: Event)
    requires |l.rx.ring| == Rx.MAX_FLIGHT
    ensures |Apply(l, e).rx.ring| == Rx.MAX_FLIGHT
  {
  }

  /** The events one after the other. */
  ghost function From(l: Link, es: seq<Event>): (end: Link)
    requires |l.rx.ring| == Rx.MAX_FLIGHT
    ensures |end.rx.ring| == Rx.MAX_FLIGHT
  {
    if es == [] then l else
      var before := From(l, es[..|es| - 1]);
      ApplyKeepsRing(before, es[|es| - 1]);
      Apply(before, es[|es| - 1])
  }

  ghost function Run(es: seq<Event>): (l: Link)
    ensures |l.rx.ring| == Rx.MAX_FLIGHT
  {
    From(START, es)
  }

  // What the sender puts on the air.

  /** f is a piece of queued message number f.hdr.seqNum. */
  ghost predicate Honest(queued: seq<Msg>, f: Fragment) {
    f.hdr.seqNum < |queued| &&
    var m, off := queued[f.hdr.seqNum], f.hdr.fragOff as int;
    && off + |f.body| <= |m.body|
    && f == Fragment(Header(m.typ, |m.body|, f.hdr.seqNum, off, |f.body|), m.body[off..off + |f.body|])
  }

  ghost predicate HonestItem(queued: seq<Msg>, m: Tx.Item) {
    m.Message? ==> m.seqNum < |queued| && queued[m.seqNum] == Msg(m.typ, m.body)
  }

  ghost predicate HonestRecord(queued: seq<Msg>, r: Tx.Record) {
    r.HandshakeRecord? ==> Honest(queued, r.fragment)
  }

  lemma SealedHonest(queued: seq<Msg>, m: Tx.Item, offset: nat, aead: Option<Tx.Aead>, maxOut: nat)
    requires HonestItem(queued, m)
    ensures var sealed := Tx.SealNextMessage(m, offset, aead, maxOut);
            sealed.Partial? || sealed.Success? ==> HonestRecord(queued, sealed.record)
  {
  }

  lemma {:induction false} SealedRecordsHonest(queued: seq<Msg>, s: Tx.Sender, k: Tx.Keys, maxOut: nat)
    requires forall i | 0 <= i < |s.flight| :: HonestItem(queued, s.flight[i])
    ensures var p := Tx.SealRecords(s, k, maxOut);
            && p.sender == s.(written := p.sender.written, offset := p.sender.offset)
            && (p.Packet? ==> forall r | r in p.records :: HonestRecord(queued, r))
    decreases |s.flight| - s.written
  {
    if s.written < |s.flight| {
      var m := s.flight[s.written];
      var sealed := Tx.SealNextMessage(m, s.offset, Tx.AeadFor(s.wEpoch, k, m.epoch), maxOut);
      SealedHonest(queued, m, s.offset, Tx.AeadFor(s.wEpoch, k, m.epoch), maxOut);
      hide Tx.SealNextMessage, Tx.AeadFor, HonestRecord, HonestItem;
      if sealed.Success? {
        var next := s.(written := s.written + 1, offset := if m.Ccs? then s.offset else 0);
        SealedRecordsHonest(queued, next, k, maxOut - sealed.record.size);
      }
    }
  }

  lemma {:induction false} SendFlightHonest(queued: seq<Msg>, s: Tx.Sender, k: Tx.Keys, mtu: nat, answers: seq<int>)
    requires forall i | 0 <= i < |s.flight| :: HonestItem(queued, s.flight[i])
    ensures var sent := Tx.SendFlight(s, k, mtu, answers);
            && sent.sender == s.(written := sent.sender.written, offset := sent.sender.offset)
            && forall r | r in RecordsOf(sent.packets) :: HonestRecord(queued, r)
    decreases |answers|
  {
    if s.written < |s.flight| {
      SealedRecordsHonest(queued, s, k, mtu);
      var p := Tx.SealNextPacket(s, k, mtu);
      if p.Packet? && answers != [] && answers[0] > 0 {
        SendFlightHonest(queued, p.sender, k, mtu, answers[1..]);
        var rest := Tx.SendFlight(p.sender, k, mtu, answers[1..]);
        forall q | q in [p.records] + rest.packets ensures q == p.records || q in rest.packets {}
      }
    }
  }

  // What the receiver may hold.

  ghost predicate HonestSlot(queued: seq<Msg>, s: Rx.Slot) {
    s.seqNum < |queued| &&
    var m := queued[s.seqNum];
    && s.typ == m.typ && s.msgLen == |m.body| && s.bytes.Keys <= Below(s.msgLen)
    && forall p | p in s.bytes :: s.bytes[p] == m.body[p]
  }

  /** The serialized form both sides hash. */
  function RawOf(queued: seq<Msg>, n: nat): seq<byte>
    requires n < |queued| <= 0x1_0000
  {
    Serialize(Whole(queued[n].typ, n, queued[n].body))
  }

  ghost predicate RxOk(queued: seq<Msg>, rx: Rx.Receiver, delivered: seq<seq<byte>>) {
    && Rx.Valid(rx) && |queued| <= 0xffff && |delivered| == rx.readSeq <= |queued|
    && (forall i | 0 <= i < Rx.MAX_FLIGHT && rx.ring[i].Some? :: HonestSlot(queued, rx.ring[i].value))
    && forall i | 0 <= i < |delivered| :: delivered[i] == RawOf(queued, i)
  }

  lemma PartialInside(m: Tx.Item, offset: nat, aead: Option<Tx.Aead>, maxOut: nat)
    ensures var sealed := Tx.SealNextMessage(m, offset, aead, maxOut);
            sealed.Partial? ==> m.Message? && sealed.offset < |m.body|
  {
  }

  /** With any keys, the cursor stays inside the flight. */
  lemma {:induction false} SealedRecordsStay(s: Tx.Sender, k: Tx.Keys, maxOut: nat)
    requires CursorOk(s.flight, CursorOf(s))
    ensures var t := Tx.SealRecords(s, k, maxOut).sender;
            t == s.(written := t.written, offset := t.offset) && CursorOk(s.flight, CursorOf(t))
    decreases |s.flight| - s.written
  {
    if s.written < |s.flight| {
      var m := s.flight[s.written];
      var sealed := Tx.SealNextMessage(m, s.offset, Tx.AeadFor(s.wEpoch, k, m.epoch), maxOut);
      PartialInside(m, s.offset, Tx.AeadFor(s.wEpoch, k, m.epoch), maxOut);
      hide Tx.SealNextMessage, Tx.AeadFor;
      if sealed.Success? {
        var next := s.(written := s.written + 1, offset := if m.Ccs? then s.offset else 0);
        SealedRecordsStay(next, k, maxOut - sealed.record.size);
      }
    }
  }

  lemma {:induction false} SendFlightStays(s: Tx.Sender, k: Tx.Keys, mtu: nat, answers: seq<int>)
    requires CursorOk(s.flight, CursorOf(s))
    ensures var t := Tx.SendFlight(s, k, mtu, answers).sender;
            t == s.(written := t.written, offset := t.offset) && CursorOk(s.flight, CursorOf(t))
    decreases |answers|
  {
    if s.written < |s.flight| {
      SealedRecordsStay(s, k, mtu);
      var p := Tx.SealNextPacket(s, k, mtu);
      if p.Packet? && answers != [] && answers[0] > 0 { SendFlightStays(p.sender, k, mtu, answers[1..]); }
    }
  }

  /** The flight is never longer than the ring, and the cursor never outside it. */
  predicate TxOk(s: Tx.Sender) {
    |s.flight| <= Tx.MAX_FLIGHT && CursorOk(s.flight, CursorOf(s))
  }

  ghost predicate LinkOk(l: Link) {
    && RxOk(l.queued, l.rx, l.delivered)
    && l.tx.writeSeq == |l.queued| && TxOk(l.tx)
    && (forall i | 0 <= i < |l.tx.flight| :: HonestItem(l.queued, l.tx.flight[i]))
    && forall r | r in l.air :: HonestRecord(l.queued, r)
  }

  lemma AcceptHonest(queued: seq<Msg>, rx: Rx.Receiver, delivered: seq<seq<byte>>, f: Fragment, maxLen: nat)
    requires RxOk(queued, rx, delivered) && Honest(queued, f)
    ensures RxOk(queued, Rx.AcceptFragment(rx, f, maxLen).0, delivered)
  {
    Rx.AcceptKeepsValid(rx, f, maxLen);
    var next := Rx.AcceptFragment(rx, f, maxLen).0;
    if next != rx {
      var i := f.hdr.seqNum % Rx.MAX_FLIGHT;
      if rx.ring[i].Some? { Rx.SameSlotSameNumber(rx, f.hdr); }
      assert HonestSlot(queued, next.ring[i].value);
    }
  }

  /** An honest fragment is never turned down as inconsistent with what is buffered. */
  lemma HonestNeverMismatches(queued: seq<Msg>, rx: Rx.Receiver, delivered: seq<seq<byte>>, f: Fragment)
    requires RxOk(queued, rx, delivered) && Honest(queued, f)
    ensures Rx.Incoming(rx, f.hdr).1 != Rx.Error(Rx.IllegalParameter)
  {
    var i := f.hdr.seqNum % Rx.MAX_FLIGHT;
    if rx.readSeq <= f.hdr.seqNum < rx.readSeq as int + Rx.MAX_FLIGHT && rx.ring[i].Some? {
      Rx.SameSlotSameNumber(rx, f.hdr);
      assert HonestSlot(queued, rx.ring[i].value);
    }
  }

  lemma ReceiveOne(rx: Rx.Receiver, f: Fragment, maxLen: nat)
    requires |rx.ring| == Rx.MAX_FLIGHT && |f.body| == f.hdr.fragLen
    ensures Rx.ReceiveFragments(rx, Serialize(f), maxLen) == Rx.AcceptFragment(rx, f, maxLen)
  {
    assert Serialize(f) + [] == Serialize(f);
    ParseSerialize(f, []);
    var (next, status) := Rx.AcceptFragment(rx, f, maxLen);
    assert Rx.ReceiveFragments(next, [], maxLen) == (next, Rx.Ok);
  }

  lemma TakeHonest(queued: seq<Msg>, rx: Rx.Receiver, delivered: seq<seq<byte>>)
    requires RxOk(queued, rx, delivered) && Rx.GetMessage(rx).Some?
    ensures RxOk(queued, Rx.NextMessage(rx), delivered + [Rx.GetMessage(rx).value.Raw()])
  {
    Rx.NextKeepsValid(rx);
    var slot := Rx.GetMessage(rx).value;
    assert HonestSlot(queued, slot);
    assert slot.seqNum == rx.readSeq;
    assert slot.Body() == queued[rx.readSeq].body;
    var next := Rx.NextMessage(rx);
    forall i | 0 <= i < Rx.MAX_FLIGHT && next.ring[i].Some? ensures HonestSlot(queued, next.ring[i].value) {
      assert next.ring[i] == rx.ring[i];
    }
  }

  lemma Extends(queued: seq<Msg>, m: Msg, rx: Rx.Receiver, delivered: seq<seq<byte>>)
    requires RxOk(queued, rx, delivered) && |queued| < 0xffff
    ensures RxOk(queued + [m], rx, delivered)
  {
    forall i | 0 <= i < Rx.MAX_FLIGHT && rx.ring[i].Some? ensures HonestSlot(queued + [m], rx.ring[i].value) {
      assert HonestSlot(queued, rx.ring[i].value);
    }
  }

  lemma QueueKeeps(l: Link, typ: byte, body: seq<byte>)
    requires LinkOk(l) && |Apply(l, Queue(typ, body)).queued| <= 0xffff
    ensures LinkOk(Apply(l, Queue(typ, body)))
  {
    var next := Apply(l, Queue(typ, body));
    if next != l {
      Extends(l.queued, Msg(typ, body), l.rx, l.delivered);
      forall i | 0 <= i < |next.tx.flight| ensures HonestItem(next.queued, next.tx.flight[i]) {
        if i < |next.tx.flight| - 1 { assert next.tx.flight[i] == l.tx.flight[i]; }
      }
      forall r | r in l.air ensures HonestRecord(next.queued, r) { assert HonestRecord(l.queued, r); }
    }
  }

  lemma SendKeeps(l: Link, s: Tx.Sender, keys: Tx.Keys, attempt: Try)
    requires LinkOk(l) && s.flight == l.tx.flight && s.writeSeq == l.tx.writeSeq && TxOk(s)
    ensures LinkOk(Send(l, s, keys, attempt))
  {
    SendFlightHonest(l.queued, s, keys, attempt.mtu, attempt.answers);
    SendFlightStays(s, keys, attempt.mtu, attempt.answers);
  }

  lemma ReceiveKeeps(l: Link, r: Tx.Record, nullCipher: bool, maxLen: nat)
    requires LinkOk(l)
    ensures LinkOk(Receive(l, r, nullCipher, maxLen))
  {
    if r in l.air && r.HandshakeRecord? {
      assert HonestRecord(l.queued, r);
      ReceiveOne(l.rx, r.fragment, maxLen);
      AcceptHonest(l.queued, l.rx, l.delivered, r.fragment, maxLen);
    }
  }

  lemma ApplyKeeps(l: Link, e: Event)
    requires LinkOk(l) && |Apply(l, e).queued| <= 0xffff
    ensures LinkOk(Apply(l, e))
  {
    match e
    case Queue(typ, body) => QueueKeeps(l, typ, body);
    case Flush(keys, attempt) => SendKeeps(l, Tx.Close(l.tx), keys, attempt);
    case Timeout(keys, attempt) => SendKeeps(l, Tx.Rewind(l.tx), keys, attempt);
    case Arrive(r, nullCipher, maxLen) => ReceiveKeeps(l, r, nullCipher, maxLen);
    case Take =>
      if Rx.GetMessage(l.rx).Some? { TakeHonest(l.queued, l.rx, l.delivered); }
    case _ =>
  }

  lemma {:induction false} RunKeeps(es: seq<Event>)
    requires |Run(es).queued| <= 0xffff
    ensures LinkOk(Run(es))
  {
    if es != [] {
      var l := Run(es[..|es| - 1]);
      QueuedGrows(l, es[|es| - 1]);
      RunKeeps(es[..|es| - 1]);
      ApplyKeeps(l, es[|es| - 1]);
    }
  }

  lemma QueuedGrows(l: Link, e: Event)
    requires |l.rx.ring| == Rx.MAX_FLIGHT
    ensures l.queued <= Apply(l, e).queued
  {
  }

  /**
   Whatever the network loses, repeats and reorders, and however often and at whatever MTU flights are
   sent again: while fewer than 2^16 messages are queued, the messages handed over are the first ones
   queued, in order, without gaps, byte for byte with their headers.
   */
  lemma DeliversInOrder(es: seq<Event>)
    requires |Run(es).queued| <= 0xffff
    ensures var l := Run(es);
            && |l.delivered| <= |l.queued|
            && forall i | 0 <= i < |l.delivered| :: l.delivered[i] == RawOf(l.queued, i)
  {
    RunKeeps(es);
  }

  // Both sides hash the same bytes.

  function Joined(parts: seq<seq<byte>>): seq<byte> {
    if parts == [] then [] else Joined(parts[..|parts| - 1]) + parts[|parts| - 1]
  }

  /** What add_outgoing has put into the sender's transcript when n messages are queued. */
  function SentTranscript(queued: seq<Msg>, n: nat): seq<byte>
    requires n <= |queued| <= 0x1_0000
  {
    if n == 0 then [] else SentTranscript(queued, n - 1) + RawOf(queued, n - 1)
  }

  lemma {:induction false} SameTranscript(queued: seq<Msg>, delivered: seq<seq<byte>>)
    requires |delivered| <= |queued| <= 0xffff
    requires forall i | 0 <= i < |delivered| :: delivered[i] == RawOf(queued, i)
    ensures Joined(delivered) == SentTranscript(queued, |delivered|)
  {
    if delivered != [] { SameTranscript(queued, delivered[..|delivered| - 1]); }
  }

  lemma TranscriptsAgree(es: seq<Event>)
    requires |Run(es).queued| <= 0xffff
    ensures var l := Run(es);
            && |l.delivered| <= |l.queued|
            && Joined(l.delivered) == SentTranscript(l.queued, |l.delivered|)
  {
    DeliversInOrder(es);
    SameTranscript(Run(es).queued, Run(es).delivered);
  }

  // What arrives.

  /** Exactly the fragments that do not end the handshake (HonestFailsExactly). */
  ghost predicate Harmless(rx: Rx.Receiver, f: Fragment, maxLen: nat) {
    && f.hdr.msgLen <= maxLen && (rx.epoch == 1 ==> f.hdr.seqNum == rx.readSeq)
    && f.hdr.seqNum != rx.readSeq as int + Rx.MAX_FLIGHT
  }

  /** The receiver has a place for message n. */
  predicate Expects(rx: Rx.Receiver, n: u16) { rx.readSeq <= n < rx.readSeq as int + Rx.MAX_FLIGHT }

  ghost predicate Holds(rx: Rx.Receiver, n: u16, p: nat) {
    |rx.ring| == Rx.MAX_FLIGHT && rx.ring[n % Rx.MAX_FLIGHT].Some? &&
    var s := rx.ring[n % Rx.MAX_FLIGHT].value;
    s.seqNum == n && (p < s.msgLen ==> p in s.bytes)
  }

  /**
   Exactly which pieces of queued messages end the handshake: those longer than allowed, those out of turn in
   the encrypted epoch, and those of the seventh message ahead, which the filter for the future lets through.
   */
  lemma HonestFailsExactly(queued: seq<Msg>, rx: Rx.Receiver, delivered: seq<seq<byte>>, f: Fragment, maxLen: nat)
    requires RxOk(queued, rx, delivered) && Honest(queued, f)
    ensures Rx.AcceptFragment(rx, f, maxLen).1.Error? <==>
              || f.hdr.msgLen > maxLen
              || (rx.epoch == 1 && f.hdr.seqNum != rx.readSeq)
              || f.hdr.seqNum == rx.readSeq as int + Rx.MAX_FLIGHT
  {
    HonestNeverMismatches(queued, rx, delivered, f);
  }

  /** The first message after seven that were lost is such a piece. */
  lemma SeventhAheadFails()
    ensures Rx.AcceptFragment(Rx.START, Whole(20, 7, []), 16384) == (Rx.START, Rx.Error(Rx.InternalError))
  {
  }

  /** The others are taken in, or ignored if the receiver has no place for their message. */
  lemma HarmlessAccepted(queued: seq<Msg>, rx: Rx.Receiver, delivered: seq<seq<byte>>, f: Fragment, maxLen: nat)
    requires RxOk(queued, rx, delivered) && Honest(queued, f) && Harmless(rx, f, maxLen)
    ensures Rx.AcceptFragment(rx, f, maxLen).1 == Rx.Ok
    ensures !Expects(rx, f.hdr.seqNum) ==> Rx.AcceptFragment(rx, f, maxLen).0 == rx
  {
    HonestNeverMismatches(queued, rx, delivered, f);
  }

  /** f brings position p of message n, or is the one piece of an empty message. */
  ghost predicate Carries(f: Fragment, n: u16, p: nat) {
    f.hdr.seqNum == n && f.hdr.fragOff <= p && (p < f.hdr.fragOff + |f.body| || f.hdr.msgLen <= p)
  }

  /** Taking in f keeps what was held and adds what f carries. */
  lemma AcceptHolds(queued: seq<Msg>, rx: Rx.Receiver, delivered: seq<seq<byte>>, f: Fragment, maxLen: nat,
                    n: u16, p: nat)
    requires RxOk(queued, rx, delivered) && Honest(queued, f) && Harmless(rx, f, maxLen)
    requires Holds(rx, n, p) || (Carries(f, n, p) && Expects(rx, n))
    ensures Holds(Rx.AcceptFragment(rx, f, maxLen).0, n, p)
  {
    HarmlessAccepted(queued, rx, delivered, f, maxLen);
    if Expects(rx, f.hdr.seqNum) {
      HonestNeverMismatches(queued, rx, delivered, f);
      if rx.ring[f.hdr.seqNum % Rx.MAX_FLIGHT].Some? { Rx.SameSlotSameNumber(rx, f.hdr); }
    }
  }

  /** The record layer hands the record of an arrival to the handshake. */
  predicate Reaches(l: Link, e: Event) {
    e.Arrive? && e.record in l.air && e.record.epoch == l.rx.epoch
  }

  /** An arrival that does not end the handshake. */
  ghost predicate Good(l: Link, e: Event) {
    e.Arrive? &&
    (Reaches(l, e) ==>
       if e.record.CcsRecord? then e.nullCipher else Harmless(l.rx, e.record.fragment, e.maxLen))
  }

  /** What arrivals leave as it is, and with it what is Good, Reaches and Expects. */
  ghost predicate OnlyReceived(l: Link, t: Link) {
    && t == l.(rx := t.rx, failed := t.failed)
    && t.rx.readSeq == l.rx.readSeq && t.rx.epoch == l.rx.epoch
  }

  lemma ArrivalIs(l: Link, e: Event)
    requires LinkOk(l) && !l.failed && e.Arrive?
    ensures var t := Apply(l, e);
            LinkOk(t) && OnlyReceived(l, t) && (t.failed <==> !Good(l, e))
  {
    ApplyKeeps(l, e);
    if Reaches(l, e) && e.record.HandshakeRecord? {
      var f := e.record.fragment;
      assert HonestRecord(l.queued, e.record);
      ReceiveOne(l.rx, f, e.maxLen);
      HonestFailsExactly(l.queued, l.rx, l.delivered, f, e.maxLen);
    }
  }

  lemma ArrivalHolds(l: Link, e: Event, n: u16, p: nat)
    requires LinkOk(l) && !l.failed && Good(l, e)
    requires Holds(l.rx, n, p)
             || (Reaches(l, e) && e.record.HandshakeRecord? && Carries(e.record.fragment, n, p) && Expects(l.rx, n))
    ensures Holds(Apply(l, e).rx, n, p)
  {
    if Reaches(l, e) && e.record.HandshakeRecord? {
      assert HonestRecord(l.queued, e.record);
      ReceiveOne(l.rx, e.record.fragment, e.maxLen);
      AcceptHolds(l.queued, l.rx, l.delivered, e.record.fragment, e.maxLen, n, p);
    }
  }

  ghost predicate AllArrive(es: seq<Event>) {
    forall e | e in es :: e.Arrive?
  }

  lemma AfterFailure(l: Link, e: Event)
    requires |l.rx.ring| == Rx.MAX_FLIGHT && l.failed && e.Arrive?
    ensures Apply(l, e) == l
  {
  }

  /** Arrivals end the handshake exactly when one of them is not good. */
  lemma {:induction false} ArrivalsFailExactly(l: Link, es: seq<Event>)
    requires LinkOk(l) && !l.failed && AllArrive(es)
    ensures LinkOk(From(l, es)) && OnlyReceived(l, From(l, es))
    ensures From(l, es).failed <==> exists e | e in es :: !Good(l, e)
  {
    if es != [] {
      var before, e := es[..|es| - 1], es[|es| - 1];
      ArrivalsFailExactly(l, before);
      var t := From(l, before);
      if t.failed {
        AfterFailure(t, e);
        var d :| d in before && !Good(l, d);
        assert d in es;
      } else {
        ArrivalIs(t, e);
        assert Good(t, e) == Good(l, e);
        if Good(l, e) {
          forall d | d in es ensures Good(l, d) { assert d == e || d in before; }
        }
      }
    }
  }

  /** Some arrival brings position p of message n. */
  ghost predicate Brings(l: Link, e: Event, n: u16, p: nat) {
    Reaches(l, e) && e.record.HandshakeRecord? && Carries(e.record.fragment, n, p)
  }

  lemma {:induction false} ArrivalsHold(l: Link, es: seq<Event>, e: Event, n: u16, p: nat)
    requires LinkOk(l) && !l.failed && AllArrive(es) && forall d | d in es :: Good(l, d)
    requires e in es && Brings(l, e, n, p) && Expects(l.rx, n)
    ensures Holds(From(l, es).rx, n, p)
  {
    var before, last := es[..|es| - 1], es[|es| - 1];
    ArrivalsFailExactly(l, before);
    if last != e {
      assert e in before;
      ArrivalsHold(l, before, e, n, p);
    }
    ArrivalHolds(From(l, before), last, n, p);
  }

  /** A transmission that tiles a flight has a record for every position of every message, in the message's epoch. */
  lemma FlightCarries(flight: seq<Tx.Item>, records: seq<Tx.Record>, i: nat, p: nat)
    requires Tiles(flight, Cursor(0, 0), records, Cursor(|flight|, 0))
    requires i < |flight| && flight[i].Message? && (p < |flight[i].body| || p == 0)
    ensures exists r :: r in records && r.HandshakeRecord? && r.epoch == flight[i].epoch
                        && Carries(r.fragment, flight[i].seqNum, p)
  {
    var j := SomeRecordCarries(flight, Cursor(0, 0), records, Cursor(|flight|, 0), i, p);
    assert records[j] in records && Carries(records[j].fragment, flight[i].seqNum, p);
  }

  /** Message m has arrived: complete, and with its body. */
  ghost predicate Arrived(rx: Rx.Receiver, m: Tx.Item)
    requires m.Message?
  {
    |rx.ring| == Rx.MAX_FLIGHT &&
    var slot := rx.ring[m.seqNum % Rx.MAX_FLIGHT];
    && slot.Some? && slot.value.Complete() && slot.value.seqNum == m.seqNum
    && slot.value.typ == m.typ && slot.value.Body() == m.body
  }

  /** A message of the receiver's epoch that it has a place for. */
  predicate Lacks(rx: Rx.Receiver, m: Tx.Item) {
    m.Message? && m.epoch == rx.epoch && Expects(rx, m.seqNum)
  }

  lemma HeldWhole(l: Link, m: Tx.Item)
    requires LinkOk(l) && m.Message? && HonestItem(l.queued, m)
    requires forall p: nat | p < |m.body| || p == 0 :: Holds(l.rx, m.seqNum, p)
    ensures Arrived(l.rx, m)
  {
    assert Holds(l.rx, m.seqNum, 0);
    var slot := l.rx.ring[m.seqNum % Rx.MAX_FLIGHT].value;
    assert HonestSlot(l.queued, slot);
    forall p | p in Below(slot.msgLen) ensures p in slot.bytes { assert Holds(l.rx, m.seqNum, p); }
  }

  /** Each handshake record of the receiver's epoch arrives at some time. */
  ghost predicate Covered(l: Link, records: seq<Tx.Record>, es: seq<Event>) {
    forall r | r in records && r.HandshakeRecord? && r.epoch == l.rx.epoch ::
      exists e | e in es :: e.Arrive? && e.record == r
  }

  /**
   When the records of the receiver's epoch of one transmission of a flight have arrived at least once, in any order
   and among any others that do not end the handshake, stale pieces included, each message of the flight and the
   epoch that the receiver still lacked is complete with its body.
   */
  lemma WholeFlightArrives(l: Link, flight: seq<Tx.Item>, records: seq<Tx.Record>, es: seq<Event>, i: nat)
    requires LinkOk(l) && !l.failed && AllArrive(es) && forall e | e in es :: Good(l, e)
    requires Tiles(flight, Cursor(0, 0), records, Cursor(|flight|, 0)) && forall r | r in records :: r in l.air
    requires Covered(l, records, es)
    requires i < |flight| && Lacks(l.rx, flight[i]) && HonestItem(l.queued, flight[i])
    ensures !From(l, es).failed && Arrived(From(l, es).rx, flight[i])
  {
    var m, end := flight[i], From(l, es);
    hide LinkOk, Good, Tiles;
    ArrivalsFailExactly(l, es);
    forall p: nat | p < |m.body| || p == 0 ensures Holds(end.rx, m.seqNum, p) {
      FlightCarries(flight, records, i, p);
      var r :| r in records && r.HandshakeRecord? && r.epoch == m.epoch && Carries(r.fragment, m.seqNum, p);
      var e :| e in es && e.Arrive? && e.record == r;
      ArrivalsHold(l, es, e, m.seqNum, p);
    }
    HeldWhole(end, m);
  }

  // The sender in a run.

  /** How often the write keys changed. A connection changes them once: DTLS does not renegotiate. */
  function KeyChanges(es: seq<Event>): nat {
    if es == [] then 0 else KeyChanges(es[..|es| - 1]) + if es[|es| - 1].NewWriteKeys? then 1 else 0
  }

  ghost predicate EpochsUpTo(s: Tx.Sender, changes: nat) {
    s.wEpoch == changes && forall i | 0 <= i < |s.flight| :: s.flight[i].epoch <= changes
  }

  lemma ApplyEpochs(l: Link, e: Event, changes: nat)
    requires LinkOk(l) && EpochsUpTo(l.tx, changes) && (e.NewWriteKeys? ==> changes == 0)
    ensures EpochsUpTo(Apply(l, e).tx, if e.NewWriteKeys? then changes + 1 else changes)
  {
    match e {
      case Flush(keys, attempt) => SendFlightStays(Tx.Close(l.tx), keys, attempt.mtu, attempt.answers);
      case Timeout(keys, attempt) => SendFlightStays(Tx.Rewind(l.tx), keys, attempt.mtu, attempt.answers);
      case _ =>
    }
  }

  lemma {:induction false} RunEpochs(es: seq<Event>)
    requires KeyChanges(es) <= 1 && |Run(es).queued| <= 0xffff
    ensures EpochsUpTo(Run(es).tx, KeyChanges(es))
  {
    if es != [] {
      var before, e := es[..|es| - 1], es[|es| - 1];
      QueuedGrows(Run(before), e);
      RunKeeps(before);
      RunEpochs(before);
      ApplyEpochs(Run(before), e, KeyChanges(before));
      hide LinkOk, EpochsUpTo, Apply;
    }
  }

  /** In every run that changes the write keys once, the theorems about flights on the wire apply to the sender. */
  lemma SenderOkInRuns(es: seq<Event>)
    requires KeyChanges(es) <= 1 && |Run(es).queued| <= 0xffff
    ensures SenderOk(Run(es).tx) && SenderOk(Tx.Rewind(Run(es).tx)) && SenderOk(Tx.Close(Run(es).tx))
  {
    RunEpochs(es);
    RunKeeps(es);
  }

  /** So each flush and each retransmission of a run is packets within the MTU that tile what the cursor moved over. */
  lemma RunsTile(es: seq<Event>, keys: Tx.Keys, attempt: Try)
    requires KeyChanges(es) <= 1 && |Run(es).queued| <= 0xffff && Tx.KeysOk(keys)
    ensures var s := Tx.Close(Run(es).tx);
            SentOk(s, attempt.mtu, Tx.SendFlight(s, keys, attempt.mtu, attempt.answers))
    ensures var s := Tx.Rewind(Run(es).tx);
            SentOk(s, attempt.mtu, Tx.SendFlight(s, keys, attempt.mtu, attempt.answers))
  {
    SenderOkInRuns(es);
    SendFlightTiles(Tx.Close(Run(es).tx), keys, attempt.mtu, attempt.answers);
    SendFlightTiles(Tx.Rewind(Run(es).tx), keys, attempt.mtu, attempt.answers);
  }

  lemma {:induction false} ConcatIsRecords(packets: seq<seq<Tx.Record>>, r: Tx.Record)
    requires r in Concat(packets)
    ensures r in RecordsOf(packets)
  {
    if r in packets[0] {
      assert packets[0] in packets;
    } else {
      ConcatIsRecords(packets[1..], r);
      var p :| p in packets[1..] && r in p;
      assert p in packets;
    }
  }

  lemma {:induction false} FromAppend(l: Link, one: seq<Event>, two: seq<Event>)
    requires |l.rx.ring| == Rx.MAX_FLIGHT
    ensures From(l, one + two) == From(From(l, one), two)
    decreases |two|
  {
    if two == [] {
      assert one + two == one;
    } else {
      assert (one + two)[..|one + two| - 1] == one + two[..|two| - 1];
      FromAppend(l, one, two[..|two| - 1]);
    }
  }

  /** What a retransmission in state l puts on the air. */
  function Resent(l: Link, keys: Tx.Keys, attempt: Try): seq<Tx.Record> {
    Concat(Tx.SendFlight(Tx.Rewind(l.tx), keys, attempt.mtu, attempt.answers).packets)
  }

  lemma ResentTiles(es: seq<Event>, keys: Tx.Keys, attempt: Try)
    requires KeyChanges(es) <= 1 && |Run(es).queued| <= 0xffff && Tx.KeysOk(keys)
    requires GoesThrough(Tx.Rewind(Run(es).tx), keys, attempt)
    ensures var l := Run(es);
            var t := Apply(l, Timeout(keys, attempt));
            && Tiles(l.tx.flight, Cursor(0, 0), Resent(l, keys, attempt), Cursor(|l.tx.flight|, 0))
            && t == l.(tx := t.tx, air := t.air) && t.tx.flight == l.tx.flight && LinkOk(t)
            && forall r | r in Resent(l, keys, attempt) :: r in t.air
  {
    var s := Tx.Rewind(Run(es).tx);
    RunKeeps(es);
    SenderOkInRuns(es);
    GoesOutWhole(s, keys, attempt);
    SendFlightStays(s, keys, attempt.mtu, attempt.answers);
    forall r | r in Resent(Run(es), keys, attempt) ensures r in Apply(Run(es), Timeout(keys, attempt)).air {
      ConcatIsRecords(Tx.SendFlight(s, keys, attempt.mtu, attempt.answers).packets, r);
    }
    ApplyKeeps(Run(es), Timeout(keys, attempt));
  }

  /**
   From every state a run can reach with the handshake alive, however much of the flight has been taken already: once
   a retransmission has gone through and its records of the receiver's epoch have arrived, in any order and among any
   others that do not end the handshake, every message of that epoch the receiver still lacked is complete.
   */
  lemma OneRetransmissionIsEnough(es: seq<Event>, keys: Tx.Keys, attempt: Try, arrivals: seq<Event>)
    requires KeyChanges(es) <= 1 && |Run(es).queued| <= 0xffff && !Run(es).failed && Tx.KeysOk(keys)
    requires GoesThrough(Tx.Rewind(Run(es).tx), keys, attempt)
    requires var sent := Run(es + [Timeout(keys, attempt)]);
             && AllArrive(arrivals) && (forall e | e in arrivals :: Good(sent, e))
             && Covered(sent, Resent(Run(es), keys, attempt), arrivals)
    ensures var l, end := Run(es), Run(es + [Timeout(keys, attempt)] + arrivals);
            && !end.failed
            && forall m | m in l.tx.flight && Lacks(l.rx, m) :: Arrived(end.rx, m)
  {
    var l := Run(es);
    var resend := Timeout(keys, attempt);
    var sent := Run(es + [resend]);
    assert (es + [resend])[..|es|] == es;
    assert sent == Apply(l, resend);
    FromAppend(START, es + [resend], arrivals);
    ResentTiles(es, keys, attempt);
    ArrivalsFailExactly(sent, arrivals);
    forall m | m in l.tx.flight && Lacks(l.rx, m) ensures Arrived(From(sent, arrivals).rx, m) {
      var i :| 0 <= i < |l.tx.flight| && l.tx.flight[i] == m;
      WholeFlightArrives(sent, l.tx.flight, Resent(l, keys, attempt), arrivals, i);
    }
  }
}
