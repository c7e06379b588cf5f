/** Flights on the wire: the records sent between two cursor positions tile exactly the bytes between them. */
module DtlsFlight {
  import opened Bytes
  import opened DtlsWire
  import opened DtlsSender

  datatype Cursor = Cursor(written: nat, offset: nat)

  function CursorOf(s: Sender): Cursor { Cursor(s.written, s.offset) }

  predicate CursorOk(flight: seq<Item>, c: Cursor) {
    c.written <= |flight| &&
    (c.offset > 0 ==>
      c.written < |flight| && flight[c.written].Message? && c.offset < |flight[c.written].body|)
  }

  predicate EpochKept(s: Sender, epoch: u16) {
    epoch == s.wEpoch || (s.wEpoch >= 1 && epoch == s.wEpoch as int - 1)
  }

  /** The cursor is inside the flight, whose messages are of the current or the previous epoch. */
  ghost predicate SenderOk(s: Sender) {
    && |s.flight| <= MAX_FLIGHT
    && CursorOk(s.flight, CursorOf(s))
    && forall i | 0 <= i < |s.flight| :: EpochKept(s, s.flight[i].epoch)
  }

  /** Record r is one contiguous piece of one message, starting at c. */
  ghost predicate Covers(flight: seq<Item>, c: Cursor, r: Record) {
    c.written < |flight| &&
    var m := flight[c.written];
    r.epoch == m.epoch &&
    if m.Ccs? then r.CcsRecord? && c.offset == 0
    else
      r.HandshakeRecord? &&
      var n := |r.fragment.body|;
      c.offset + n <= |m.body| && r.fragment == Piece(m, c.offset, n) && (c.offset + n < |m.body| ==> n > 0)
  }

  /** Where the piece after r starts; None when r is not a piece at c. */
  ghost function Step(flight: seq<Item>, c: Cursor, r: Record): Option<Cursor> {
    if !Covers(flight, c, r) then None
    else if r.HandshakeRecord? && c.offset + |r.fragment.body| < |flight[c.written].body| then
      Some(Cursor(c.written, c.offset + |r.fragment.body|))
    else Some(Cursor(c.written + 1, 0))
  }

  ghost function Stepper(flight: seq<Item>): (Cursor, Record) -> Option<Cursor> {
    (c, r) => Step(flight, c, r)
  }

  ghost function Follow(step: (Cursor, Record) -> Option<Cursor>, c: Cursor, records: seq<Record>): Option<Cursor>
    decreases |records|
  {
    if records == [] then Some(c)
    else match step(c, records[0])
      case None => None
      case Some(d) => Follow(step, d, records[1..])
  }

  lemma FollowCons(step: (Cursor, Record) -> Option<Cursor>, c: Cursor, r: Record, rest: seq<Record>)
    ensures Follow(step, c, [r] + rest) ==
            match step(c, r) case None => None case Some(d) => Follow(step, d, rest)
  {
    assert ([r] + rest)[1..] == rest;
  }

  lemma {:induction false} FollowAppend(step: (Cursor, Record) -> Option<Cursor>, c: Cursor, xs: seq<Record>,
                                        ys: seq<Record>)
    requires Follow(step, c, xs).Some?
    ensures Follow(step, c, xs + ys) == Follow(step, Follow(step, c, xs).value, ys)
    decreases |xs|
  {
    if xs == [] {
      assert xs + ys == ys;
    } else {
      FollowAppend(step, step(c, xs[0]).value, xs[1..], ys);
      assert xs + ys == [xs[0]] + (xs[1..] + ys);
      FollowCons(step, c, xs[0], xs[1..] + ys);
    }
  }

  /** The records carry, one after the other, everything between c and d. */
  ghost predicate Tiles(flight: seq<Item>, c: Cursor, records: seq<Record>, d: Cursor) {
    Follow(Stepper(flight), c, records) == Some(d)
  }

  function TotalSize(records: seq<Record>): nat {
    if records == [] then 0 else records[0].size + TotalSize(records[1..])
  }

  // One packet.

  /** The smallest packet that takes anything of the message at the cursor. */
  function Room(s: Sender, k: Keys): nat
    requires s.written < |s.flight| && EpochKept(s, s.flight[s.written].epoch)
  {
    var m := s.flight[s.written];
    AeadFor(s.wEpoch, k, m.epoch).value.overhead + if m.Ccs? then 1 else HM_HEADER_LENGTH + 1
  }

  /** One record covers what the cursor moves over, and makes progress exactly when there is room. */
  lemma SealedRecordCovers(flight: seq<Item>, c: Cursor, a: Aead, maxOut: nat)
    requires CursorOk(flight, c) && c.written < |flight| && Bounded(a)
    ensures match SealNextMessage(flight[c.written], c.offset, Some(a), maxOut)
            case SealError => false
            case NoProgress =>
              maxOut < a.overhead + if flight[c.written].Ccs? then 1 else HM_HEADER_LENGTH + 1
            case Partial(r, offset) =>
              && maxOut >= a.overhead + HM_HEADER_LENGTH + 1 && flight[c.written].Message?
              && r.size <= maxOut && c.offset < offset < |flight[c.written].body|
              && Step(flight, c, r) == Some(Cursor(c.written, offset))
            case Success(r) =>
              && maxOut >= a.overhead + (if flight[c.written].Ccs? then 1 else HM_HEADER_LENGTH + 1)
              && r.size <= maxOut
              && Step(flight, c, r) == Some(Cursor(c.written + 1, 0))
  {
  }

  /** The outcome p of filling a packet of at most maxOut bytes from s. */
  ghost predicate PacketOk(s: Sender, maxOut: nat, p: Packet) {
    && p.Packet? && CursorOk(s.flight, CursorOf(p.sender))
    && p.sender == s.(written := p.sender.written, offset := p.sender.offset)
    && Tiles(s.flight, CursorOf(s), p.records, CursorOf(p.sender))
    && TotalSize(p.records) <= maxOut
  }

  lemma PacketCons(s: Sender, maxOut: nat, r: Record, next: Sender, rest: Packet)
    requires Step(s.flight, CursorOf(s), r) == Some(CursorOf(next)) && r.size <= maxOut
    requires next == s.(written := next.written, offset := next.offset)
    requires PacketOk(next, maxOut - r.size, rest)
    ensures PacketOk(s, maxOut, Packet([r] + rest.records, rest.sender))
  {
    FollowCons(Stepper(s.flight), CursorOf(s), r, rest.records);
    assert ([r] + rest.records)[1..] == rest.records;
  }

  lemma PartialPacket(s: Sender, maxOut: nat, r: Record, offset: nat)
    requires r.size <= maxOut && CursorOk(s.flight, Cursor(s.written, offset))
    requires Step(s.flight, CursorOf(s), r) == Some(Cursor(s.written, offset))
    ensures PacketOk(s, maxOut, Packet([r], s.(offset := offset)))
  {
    var next := s.(offset := offset);
    PacketCons(s, maxOut, r, next, Packet([], next));
    assert [r] + [] == [r];
  }

  /** The message at the cursor, sealed into maxOut bytes. */
  function SealCurrent(s: Sender, k: Keys, maxOut: nat): Sealed
    requires s.written < |s.flight|
  {
    var m := s.flight[s.written];
    SealNextMessage(m, s.offset, AeadFor(s.wEpoch, k, m.epoch), maxOut)
  }

  lemma SealCurrentCovers(s: Sender, k: Keys, maxOut: nat)
    requires SenderOk(s) && KeysOk(k) && s.written < |s.flight|
    ensures EpochKept(s, s.flight[s.written].epoch)
    ensures match SealCurrent(s, k, maxOut)
            case SealError => false
            case NoProgress => maxOut < Room(s, k)
            case Partial(r, offset) =>
              && Room(s, k) <= maxOut && r.size <= maxOut && CursorOk(s.flight, Cursor(s.written, offset))
              && Step(s.flight, CursorOf(s), r) == Some(Cursor(s.written, offset))
            case Success(r) =>
              && Room(s, k) <= maxOut && r.size <= maxOut && (s.flight[s.written].Ccs? ==> s.offset == 0)
              && Step(s.flight, CursorOf(s), r) == Some(Cursor(s.written + 1, 0))
  {
    var m := s.flight[s.written];
    assert EpochKept(s, m.epoch);
    SealedRecordCovers(s.flight, CursorOf(s), AeadFor(s.wEpoch, k, m.epoch).value, maxOut);
  }

  lemma SealRecordsUnfold(s: Sender, k: Keys, maxOut: nat)
    requires SenderOk(s) && KeysOk(k) && s.written < |s.flight|
    ensures SealRecords(s, k, maxOut) ==
            match SealCurrent(s, k, maxOut)
            case SealError => PacketError(s)
            case NoProgress => Packet([], s)
            case Partial(r, offset) => Packet([r], s.(offset := offset))
            case Success(r) =>
              match SealRecords(s.(written := s.written + 1, offset := 0), k, maxOut - r.size)
              case PacketError(last) => PacketError(last)
              case Packet(records, last) => Packet([r] + records, last)
  {
    SealCurrentCovers(s, k, maxOut);
  }

  lemma NextOk(s: Sender)
    requires SenderOk(s) && s.written < |s.flight|
    ensures SenderOk(s.(written := s.written + 1, offset := 0))
  {
    var next := s.(written := s.written + 1, offset := 0);
    assert forall i | 0 <= i < |s.flight| ::
        EpochKept(next, s.flight[i].epoch) == EpochKept(s, s.flight[i].epoch);
  }

  lemma EmptyPacket(s: Sender, maxOut: nat)
    requires SenderOk(s)
    ensures PacketOk(s, maxOut, Packet([], s))
  {
  }

  lemma {:induction false} SealedRecordsTile(s: Sender, k: Keys, maxOut: nat)
    requires SenderOk(s) && KeysOk(k)
    ensures PacketOk(s, maxOut, SealRecords(s, k, maxOut))
    decreases |s.flight| - s.written
  {
    EmptyPacket(s, maxOut);
    if s.written < |s.flight| {
      SealRecordsUnfold(s, k, maxOut);
      SealCurrentCovers(s, k, maxOut);
      hide Step, SealCurrent, CursorOk, KeysOk;
      match SealCurrent(s, k, maxOut) {
        case NoProgress =>
        case Partial(r, offset) => PartialPacket(s, maxOut, r, offset);
        case Success(r) =>
          var next := s.(written := s.written + 1, offset := 0);
          NextOk(s);
          SealedRecordsTile(next, k, maxOut - r.size);
          PacketCons(s, maxOut, r, next, SealRecords(next, k, maxOut - r.size));
      }
    }
  }

  /** seal_next_packet fails, on a flight not yet sent, exactly when the MTU has no room for one byte. */
  lemma PacketFailsExactly(s: Sender, k: Keys, mtu: nat)
    requires SenderOk(s) && KeysOk(k) && s.written < |s.flight|
    ensures EpochKept(s, s.flight[s.written].epoch)
    ensures SealNextPacket(s, k, mtu).PacketError? <==> mtu < Room(s, k)
  {
    SealRecordsUnfold(s, k, mtu);
    SealCurrentCovers(s, k, mtu);
    SealedRecordsTile(s, k, mtu);
  }

  // Progress: messages left, then bytes left of the current one.

  ghost predicate Before(c: Cursor, d: Cursor) {
    c.written < d.written || (c.written == d.written && c.offset < d.offset)
  }

  lemma {:induction false} TilesForward(flight: seq<Item>, c: Cursor, records: seq<Record>, d: Cursor)
    requires Tiles(flight, c, records, d) && records != []
    ensures Before(c, d)
    decreases |records|
  {
    var e := Step(flight, c, records[0]).value;
    if records[1..] == [] {
      assert Follow(Stepper(flight), e, []) == Some(e);
    } else {
      TilesForward(flight, e, records[1..], d);
    }
  }

  /** A packet that is not an error moves the cursor strictly forward and fits the MTU. */
  lemma PacketProgress(s: Sender, k: Keys, mtu: nat)
    requires SenderOk(s) && KeysOk(k)
    ensures var p := SealNextPacket(s, k, mtu);
            if p.Packet? then PacketOk(s, mtu, p) && Before(CursorOf(s), CursorOf(p.sender))
            else p.sender == s
  {
    SealedRecordsTile(s, k, mtu);
    var p := SealNextPacket(s, k, mtu);
    if p.Packet? { TilesForward(s.flight, CursorOf(s), p.records, CursorOf(p.sender)); }
  }

  // A whole flight, over any number of calls.

  function Concat(packets: seq<seq<Record>>): seq<Record> {
    if packets == [] then [] else packets[0] + Concat(packets[1..])
  }

  ghost predicate SentOk(s: Sender, mtu: nat, sent: Sent) {
    && sent.sender == s.(written := sent.sender.written, offset := sent.sender.offset)
    && CursorOk(s.flight, CursorOf(sent.sender))
    && Tiles(s.flight, CursorOf(s), Concat(sent.packets), CursorOf(sent.sender))
    && (forall i | 0 <= i < |sent.packets| :: TotalSize(sent.packets[i]) <= mtu)
    && (sent.ok ==> sent.sender.written == |s.flight|)
  }

  /** send_flight: packets within the MTU that tile what the cursor moved over, failed or not. */
  lemma {:induction false} SendFlightTiles(s: Sender, k: Keys, mtu: nat, answers: seq<int>)
    requires SenderOk(s) && KeysOk(k)
    ensures SentOk(s, mtu, SendFlight(s, k, mtu, answers))
    decreases |answers|
  {
    if s.written < |s.flight| {
      PacketProgress(s, k, mtu);
      var p := SealNextPacket(s, k, mtu);
      if p.Packet? && answers != [] && answers[0] > 0 {
        SendFlightTiles(p.sender, k, mtu, answers[1..]);
        var rest := SendFlight(p.sender, k, mtu, answers[1..]);
        FollowAppend(Stepper(s.flight), CursorOf(s), p.records, Concat(rest.packets));
        assert ([p.records] + rest.packets)[1..] == rest.packets;
      }
    }
  }

  /** A call of send_flight: the MTU at the time and what the transport answered. */
  datatype Try = Try(mtu: nat, answers: seq<int>)

  // When a flight goes out whole.

  /** Bytes and messages from the cursor on: no more packets than this are needed. */
  function Weight(flight: seq<Item>): nat {
    if flight == [] then 0
    else 1 + (if flight[0].Message? then |flight[0].body| else 0) + Weight(flight[1..])
  }

  ghost function Left(flight: seq<Item>, c: Cursor): (left: nat)
    requires CursorOk(flight, c)
    ensures c.written < |flight| ==> left > 0
  {
    assert c.offset > 0 ==> flight[c.written..][0] == flight[c.written];
    Weight(flight[c.written..]) - c.offset
  }

  lemma {:induction false} WeightDrops(flight: seq<Item>, i: nat, j: nat)
    requires i < j <= |flight|
    ensures Weight(flight[i..]) > Weight(flight[j..]) + if flight[i].Message? then |flight[i].body| else 0
    decreases j - i
  {
    assert flight[i..][1..] == flight[i + 1..];
    if i + 1 < j { WeightDrops(flight, i + 1, j); }
  }

  lemma LessIsLeft(flight: seq<Item>, c: Cursor, d: Cursor)
    requires CursorOk(flight, c) && CursorOk(flight, d) && Before(c, d)
    ensures Left(flight, d) < Left(flight, c)
  {
    if c.written < d.written { WeightDrops(flight, c.written, d.written); }
  }

  /** The least MTU with which anything of message i can be sent. */
  function RoomAt(s: Sender, k: Keys, i: nat): nat
    requires i < |s.flight| && EpochKept(s, s.flight[i].epoch)
  {
    Room(s.(written := i, offset := 0), k)
  }

  /** The MTU has room for something of each message from lo up to hi. */
  ghost predicate RoomFor(s: Sender, k: Keys, mtu: nat, lo: nat, hi: nat) {
    forall i | lo <= i < hi && i < |s.flight| :: EpochKept(s, s.flight[i].epoch) && RoomAt(s, k, i) <= mtu
  }

  /** A packet takes in whole messages only when it has room for each of them. */
  lemma {:induction false} SealedHadRoom(s: Sender, k: Keys, maxOut: nat)
    requires SenderOk(s) && KeysOk(k)
    ensures RoomFor(s, k, maxOut, s.written, SealRecords(s, k, maxOut).sender.written)
    decreases |s.flight| - s.written
  {
    if s.written < |s.flight| {
      SealRecordsUnfold(s, k, maxOut);
      SealCurrentCovers(s, k, maxOut);
      var sealed := SealCurrent(s, k, maxOut);
      if sealed.Success? {
        var next := s.(written := s.written + 1, offset := 0);
        NextOk(s);
        SealedHadRoom(next, k, maxOut - sealed.record.size);
        forall i | s.written <= i < SealRecords(s, k, maxOut).sender.written && i < |s.flight|
          ensures EpochKept(s, s.flight[i].epoch) && RoomAt(s, k, i) <= maxOut
        {
          if i > s.written { assert RoomAt(next, k, i) == RoomAt(s, k, i); }
        }
      }
    }
  }

  lemma RoomSplits(s: Sender, t: Sender, k: Keys, mtu: nat)
    requires t == s.(written := t.written, offset := t.offset) && s.written <= t.written <= |s.flight|
    requires RoomFor(s, k, mtu, s.written, t.written)
    ensures RoomFor(s, k, mtu, s.written, |s.flight|) <==> RoomFor(t, k, mtu, t.written, |t.flight|)
  {
    forall i | t.written <= i < |s.flight|
      ensures EpochKept(s, s.flight[i].epoch) == EpochKept(t, t.flight[i].epoch)
      ensures EpochKept(s, s.flight[i].epoch) ==> RoomAt(s, k, i) == RoomAt(t, k, i)
    {
    }
  }

  /**
   With as many packets taken as there are bytes and messages left, send_flight sends the rest of the flight and
   succeeds exactly when the MTU has room for one byte of each message left.
   */
  lemma {:induction false} CompletesExactly(s: Sender, k: Keys, mtu: nat, answers: seq<int>)
    requires SenderOk(s) && KeysOk(k)
    requires |answers| > Left(s.flight, CursorOf(s)) && forall i | 0 <= i < |answers| :: answers[i] > 0
    ensures SendFlight(s, k, mtu, answers).ok <==> RoomFor(s, k, mtu, s.written, |s.flight|)
    decreases |answers|
  {
    if s.written < |s.flight| {
      PacketFailsExactly(s, k, mtu);
      PacketProgress(s, k, mtu);
      var p := SealNextPacket(s, k, mtu);
      assert RoomAt(s, k, s.written) == Room(s, k);
      if p.Packet? {
        LessIsLeft(s.flight, CursorOf(s), CursorOf(p.sender));
        CompletesExactly(p.sender, k, mtu, answers[1..]);
        SealedHadRoom(s, k, mtu);
        RoomSplits(s, p.sender, k, mtu);
      }
    }
  }

  /** The MTU has room for each message left, and the transport takes every packet. */
  ghost predicate GoesThrough(s: Sender, k: Keys, attempt: Try)
    requires CursorOk(s.flight, CursorOf(s))
  {
    && RoomFor(s, k, attempt.mtu, s.written, |s.flight|)
    && |attempt.answers| > Left(s.flight, CursorOf(s))
    && forall i | 0 <= i < |attempt.answers| :: attempt.answers[i] > 0
  }

  /** Such a call sends all that is left of the flight, each byte once. */
  lemma GoesOutWhole(s: Sender, k: Keys, attempt: Try)
    requires SenderOk(s) && KeysOk(k) && GoesThrough(s, k, attempt)
    ensures var sent := SendFlight(s, k, attempt.mtu, attempt.answers);
            sent.ok && Tiles(s.flight, CursorOf(s), Concat(sent.packets), Cursor(|s.flight|, 0))
  {
    hide SendFlight, SenderOk, RoomFor, Left, Tiles, Concat, KeysOk;
    var sent := SendFlight(s, k, attempt.mtu, attempt.answers);
    assert sent.ok by { CompletesExactly(s, k, attempt.mtu, attempt.answers); }
    SendFlightTiles(s, k, attempt.mtu, attempt.answers);
    assert CursorOf(sent.sender) == Cursor(|s.flight|, 0);
  }

  function SendAll(s: Sender, k: Keys, tries: seq<Try>): Sent
    decreases |tries|
  {
    if tries == [] then Sent([], s, false)
    else
      var first := SendFlight(s, k, tries[0].mtu, tries[0].answers);
      if first.ok then first
      else
        var rest := SendAll(first.sender, k, tries[1..]);
        Sent(first.packets + rest.packets, rest.sender, rest.ok)
  }

  lemma {:induction false} ConcatAppend(xs: seq<seq<Record>>, ys: seq<seq<Record>>)
    ensures Concat(xs + ys) == Concat(xs) + Concat(ys)
  {
    if xs == [] {
      assert xs + ys == ys;
    } else {
      ConcatAppend(xs[1..], ys);
      assert (xs + ys)[0] == xs[0] && (xs + ys)[1..] == xs[1..] + ys;
      Associative(xs[0], Concat(xs[1..]), Concat(ys));
    }
  }

  lemma Associative(a: seq<Record>, b: seq<Record>, c: seq<Record>)
    ensures a + (b + c) == a + b + c
  {
  }

  /**
   Retrying after refused packets, at whatever MTUs, neither repeats nor skips a byte: the packets taken
   over all calls tile the flight up to the cursor, and all of it once a call succeeds.
   */
  lemma {:induction false} RetriesTile(s: Sender, k: Keys, tries: seq<Try>)
    requires SenderOk(s) && KeysOk(k)
    ensures var sent := SendAll(s, k, tries);
            && sent.sender == s.(written := sent.sender.written, offset := sent.sender.offset)
            && CursorOk(s.flight, CursorOf(sent.sender))
            && Tiles(s.flight, CursorOf(s), Concat(sent.packets), CursorOf(sent.sender))
            && (sent.ok ==> CursorOf(sent.sender) == Cursor(|s.flight|, 0))
    decreases |tries|
  {
    if tries != [] {
      var first := SendFlight(s, k, tries[0].mtu, tries[0].answers);
      SendFlightTiles(s, k, tries[0].mtu, tries[0].answers);
      if !first.ok {
        RetriesTile(first.sender, k, tries[1..]);
        var rest := SendAll(first.sender, k, tries[1..]);
        FollowAppend(Stepper(s.flight), CursorOf(s), Concat(first.packets), Concat(rest.packets));
        ConcatAppend(first.packets, rest.packets);
      }
    }
  }

  // What tiling means for one message.

  /** The body bytes sent for message number n, in the order they were sent. */
  function SentBytes(records: seq<Record>, n: u16): seq<byte> {
    if records == [] then []
    else
      (if records[0].HandshakeRecord? && records[0].fragment.hdr.seqNum == n then records[0].fragment.body else [])
      + SentBytes(records[1..], n)
  }

  /** How much of message i lies before c. */
  function Reached(flight: seq<Item>, c: Cursor, i: nat): nat
    requires CursorOk(flight, c) && i < |flight| && flight[i].Message?
  {
    if c.written < i then 0 else if c.written == i then c.offset else |flight[i].body|
  }

  ghost predicate DistinctNumbers(flight: seq<Item>) {
    forall i, j | 0 <= i < j < |flight| && flight[i].Message? && flight[j].Message? ::
      flight[i].seqNum != flight[j].seqNum
  }

  lemma StepReaches(flight: seq<Item>, c: Cursor, r: Record, i: nat)
    requires CursorOk(flight, c) && Step(flight, c, r).Some? && DistinctNumbers(flight)
    requires i < |flight| && flight[i].Message?
    ensures var d := Step(flight, c, r).value;
            && CursorOk(flight, d) && Reached(flight, c, i) <= Reached(flight, d, i)
            && SentBytes([r], flight[i].seqNum) == flight[i].body[Reached(flight, c, i)..Reached(flight, d, i)]
  {
    assert [r][1..] == [];
  }

  lemma SentBytesCons(records: seq<Record>, n: u16)
    requires records != []
    ensures SentBytes(records, n) == SentBytes([records[0]], n) + SentBytes(records[1..], n)
  {
    assert [records[0]][1..] == [];
    assert SentBytes([], n) == [];
  }

  lemma SliceJoin(s: seq<byte>, a: nat, b: nat, c: nat)
    requires a <= b <= c <= |s|
    ensures s[a..b] + s[b..c] == s[a..c]
  {
  }

  lemma {:induction false} SentIsReached(flight: seq<Item>, c: Cursor, records: seq<Record>, d: Cursor, i: nat)
    requires CursorOk(flight, c) && Tiles(flight, c, records, d) && DistinctNumbers(flight)
    requires i < |flight| && flight[i].Message?
    ensures CursorOk(flight, d) && Reached(flight, c, i) <= Reached(flight, d, i)
    ensures SentBytes(records, flight[i].seqNum) == flight[i].body[Reached(flight, c, i)..Reached(flight, d, i)]
    decreases |records|
  {
    if records != [] {
      var e := Step(flight, c, records[0]).value;
      StepReaches(flight, c, records[0], i);
      SentIsReached(flight, e, records[1..], d, i);
      SentBytesCons(records, flight[i].seqNum);
      SliceJoin(flight[i].body, Reached(flight, c, i), Reached(flight, e, i), Reached(flight, d, i));
    } else {
      assert Follow(Stepper(flight), c, []) == Some(c);
    }
  }

  /** A whole flight carries every body exactly once, in order. */
  lemma FlightSentOnce(flight: seq<Item>, records: seq<Record>, i: nat)
    requires Tiles(flight, Cursor(0, 0), records, Cursor(|flight|, 0)) && DistinctNumbers(flight)
    requires i < |flight| && flight[i].Message?
    ensures SentBytes(records, flight[i].seqNum) == flight[i].body
  {
    SentIsReached(flight, Cursor(0, 0), records, Cursor(|flight|, 0), i);
  }

  /** Every position of message i between c and d is in the piece carried by some record. */
  lemma {:induction false} SomeRecordCarries(flight: seq<Item>, c: Cursor, records: seq<Record>, d: Cursor,
                                             i: nat, p: nat) returns (j: nat)
    requires CursorOk(flight, c) && Tiles(flight, c, records, d)
    requires i < |flight| && flight[i].Message? && (p < |flight[i].body| || p == 0)
    requires !Before(Cursor(i, p), c) && Before(Cursor(i, p), d)
    ensures j < |records| && records[j].HandshakeRecord? && records[j].epoch == flight[i].epoch
    ensures var f := records[j].fragment;
            && f.hdr.fragOff <= p && p <= f.hdr.fragOff + |f.body| <= |flight[i].body|
            && f == Piece(flight[i], f.hdr.fragOff, |f.body|)
            && (|flight[i].body| > 0 ==> p < f.hdr.fragOff + |f.body|)
    decreases |records|
  {
    var e := Step(flight, c, records[0]).value;
    if Before(Cursor(i, p), e) {
      j := 0;
    } else {
      j := SomeRecordCarries(flight, e, records[1..], d, i, p);
      j := j + 1;
    }
  }
}
