/** Handshake messages on the TLS record stream (s3_both.cc), cut by the sender and joined by the receiver. */
module HsFraming {
  import opened Bytes
  import opened TlsRecords

  const HEADER: nat := 4

  // Messages in a byte stream.

  /** parse_message: the length of the complete message at the front, or how many bytes it takes. */
  datatype Parsed = Complete(len: nat) | Needs(bytes: nat)

  function Parse(buf: seq<byte>): (p: Parsed)
    ensures p.Complete? ==> HEADER <= p.len <= |buf|
    ensures p.Needs? ==> HEADER <= p.bytes && |buf| < p.bytes
  {
    if |buf| < HEADER then Needs(HEADER)
    else
      var len := HEADER + U24(buf[1], buf[2], buf[3]) as nat;
      if |buf| < len then Needs(len) else Complete(len)
  }

  /** The complete messages at the front of a stream, in order, and what follows them. */
  function Messages(s: seq<byte>): seq<seq<byte>>
    decreases |s|
  {
    match Parse(s) case Needs(_) => [] case Complete(n) => [s[..n]] + Messages(s[n..])
  }

  function Leftover(s: seq<byte>): (rest: seq<byte>)
    ensures Parse(rest).Needs?
    decreases |s|
  {
    match Parse(s) case Needs(_) => s case Complete(n) => Leftover(s[n..])
  }

  function Flatten(parts: seq<seq<byte>>): seq<byte> {
    if parts == [] then [] else parts[0] + Flatten(parts[1..])
  }

  /** A message as ssl3_init_message builds it: its header carries the length of its body. */
  predicate WellFormed(msg: seq<byte>) { Parse(msg) == Complete(|msg|) }

  lemma {:induction false} NothingLost(s: seq<byte>)
    ensures Flatten(Messages(s)) + Leftover(s) == s
    decreases |s|
  {
    match Parse(s) {
      case Needs(_) => assert [] + s == s;
      case Complete(n) =>
        NothingLost(s[n..]);
        assert s == s[..n] + (Flatten(Messages(s[n..])) + Leftover(s[n..]));
    }
  }

  lemma ParseExtends(s: seq<byte>, more: seq<byte>)
    requires Parse(s).Complete?
    ensures Parse(s + more) == Parse(s)
  {
    assert forall i | 0 <= i < HEADER :: (s + more)[i] == s[i];
  }

  /** More bytes add messages behind those already there. */
  lemma {:induction false} MessagesExtend(s: seq<byte>, more: seq<byte>)
    ensures Messages(s + more) == Messages(s) + Messages(Leftover(s) + more)
    ensures Leftover(s + more) == Leftover(Leftover(s) + more)
    decreases |s|
  {
    match Parse(s) {
      case Needs(_) =>
      case Complete(n) =>
        ParseExtends(s, more);
        assert (s + more)[..n] == s[..n] && (s + more)[n..] == s[n..] + more;
        MessagesExtend(s[n..], more);
    }
  }

  /** Messages one after the other read back as themselves. */
  lemma {:induction false} MessagesOfFlat(msgs: seq<seq<byte>>)
    requires forall i | 0 <= i < |msgs| :: WellFormed(msgs[i])
    ensures Messages(Flatten(msgs)) == msgs && Leftover(Flatten(msgs)) == []
  {
    if msgs != [] {
      var rest := Flatten(msgs[1..]);
      ParseExtends(msgs[0], rest);
      assert (msgs[0] + rest)[..|msgs[0]|] == msgs[0] && (msgs[0] + rest)[|msgs[0]|..] == rest;
      MessagesOfFlat(msgs[1..]);
    }
  }

  // The sender's cuts.

  function Bodies(records: seq<Record>): seq<seq<byte>> {
    if records == [] then [] else [records[0].body] + Bodies(records[1..])
  }

  /** The records of a flight: each message cut at a fragment size of its own. */
  function CutAll(msgs: seq<seq<byte>>, sizes: seq<nat>): seq<Record>
    requires |sizes| == |msgs| && forall i | 0 <= i < |sizes| :: sizes[i] > 0
  {
    if msgs == [] then [] else Chunks(msgs[0], sizes[0]) + CutAll(msgs[1..], sizes[1..])
  }

  lemma {:induction false} FlattenConcat(a: seq<seq<byte>>, b: seq<seq<byte>>)
    ensures Flatten(a + b) == Flatten(a) + Flatten(b)
  {
    if a == [] {
      assert a + b == b;
    } else {
      assert (a + b)[1..] == a[1..] + b;
      FlattenConcat(a[1..], b);
    }
  }

  lemma {:induction false} BodiesConcat(a: seq<Record>, b: seq<Record>)
    ensures Bodies(a + b) == Bodies(a) + Bodies(b)
  {
    if a == [] {
      assert a + b == b;
    } else {
      assert (a + b)[1..] == a[1..] + b;
      BodiesConcat(a[1..], b);
    }
  }

  lemma {:induction false} ChunksFlat(msg: seq<byte>, max: nat)
    requires max > 0
    ensures Flatten(Bodies(Chunks(msg, max))) == msg
    decreases |msg|
  {
    if |msg| > max {
      var rest := Chunks(msg[max..], max);
      ChunksFlat(msg[max..], max);
      assert ([Record(HANDSHAKE, msg[..max])] + rest)[1..] == rest;
      assert msg[..max] + msg[max..] == msg;
    }
  }

  lemma {:induction false} CutAllFlat(msgs: seq<seq<byte>>, sizes: seq<nat>)
    requires |sizes| == |msgs| && forall i | 0 <= i < |sizes| :: sizes[i] > 0
    ensures Flatten(Bodies(CutAll(msgs, sizes))) == Flatten(msgs)
  {
    if msgs != [] {
      var first, rest := Chunks(msgs[0], sizes[0]), CutAll(msgs[1..], sizes[1..]);
      ChunksFlat(msgs[0], sizes[0]);
      CutAllFlat(msgs[1..], sizes[1..]);
      BodiesConcat(first, rest);
      FlattenConcat(Bodies(first), Bodies(rest));
    }
  }

  // The receiver.

  datatype OpenResult = Success | Error

  /** What was released and what is buffered is what was received, and all released are whole messages of it. */
  ghost predicate Holds(received: seq<byte>, released: seq<seq<byte>>, buffered: seq<byte>) {
    && received == Flatten(released) + buffered
    && Messages(received) == released + Messages(buffered)
    && Leftover(received) == Leftover(buffered)
  }

  lemma ConcatAssociates<T>(a: seq<T>, b: seq<T>, c: seq<T>)
    ensures a + b + c == a + (b + c)
  {
  }

  lemma HoldsWithMore(received: seq<byte>, released: seq<seq<byte>>, buffered: seq<byte>, body: seq<byte>)
    requires Holds(received, released, buffered)
    ensures Holds(received + body, released, buffered + body)
  {
    MessagesExtend(received, body);
    MessagesExtend(buffered, body);
    ConcatAssociates(released, Messages(buffered), Messages(Leftover(buffered) + body));
    ConcatAssociates(Flatten(released), buffered, body);
  }

  lemma HoldsAfterNext(received: seq<byte>, released: seq<seq<byte>>, buffered: seq<byte>)
    requires Holds(received, released, buffered) && Parse(buffered).Complete?
    ensures var n := Parse(buffered).len;
            |released| < |Messages(received)| && Messages(received)[|released|] == buffered[..n]
            && Holds(received, released + [buffered[..n]], buffered[n..])
  {
    var n := Parse(buffered).len;
    var msg, rest := buffered[..n], buffered[n..];
    FlattenConcat(released, [msg]);
    assert Flatten([msg]) == msg + [] == msg;
    assert buffered == msg + rest;
    ConcatAssociates(Flatten(released), msg, rest);
    ConcatAssociates(released, [msg], Messages(rest));
  }

  // The whole of a read: each record is opened, and then every complete message taken.

  /** The bytes left over after some records, unless one of them was not accepted. */
  function ReadRecords(buf: seq<byte>, bodies: seq<seq<byte>>, maxMessageLen: nat): Option<seq<byte>>
    requires Parse(buf).Needs?
    decreases |bodies|
  {
    if bodies == [] then Some(buf)
    else if Parse(buf).bytes > HEADER + maxMessageLen then None
    else ReadRecords(Leftover(buf + bodies[0]), bodies[1..], maxMessageLen)
  }

  lemma BodiesStep(records: seq<Record>)
    requires records != []
    ensures Bodies(records) == [records[0].body] + Bodies(records[1..])
    ensures Bodies(records)[0] == records[0].body && Bodies(records)[1..] == Bodies(records[1..])
    ensures Flatten(Bodies(records)) == records[0].body + Flatten(Bodies(records[1..]))
  {
  }

  lemma TakenAll(received: seq<byte>, released: seq<seq<byte>>, buffered: seq<byte>)
    requires Holds(received, released, buffered) && Parse(buffered).Needs?
    ensures released == Messages(received) && buffered == Leftover(received)
  {
  }

  class HandshakeReader {
    var hsBuf: Option<seq<byte>>
    var hasMessage: bool

    // All record bodies accepted, and the messages released.
    ghost var received: seq<byte>
    ghost var released: seq<seq<byte>>

    function Buffered(): seq<byte>
      reads this
    {
      if hsBuf.Some? then hsBuf.value else []
    }

    ghost predicate Valid()
      reads this
    {
      && Holds(received, released, Buffered())
      && (hasMessage ==> Parse(Buffered()).Complete?)
    }

    constructor ()
      ensures Valid() && received == [] && released == []
    {
      hsBuf, hasMessage, received, released := None, false, [], [];
    }

    /** ssl3_get_message. */
    method GetMessage() returns (msg: Option<seq<byte>>)
      requires Valid()
      modifies this`hasMessage
      ensures Valid()
      ensures var p := Parse(Buffered());
              if p.Complete? then msg == Some(Buffered()[..p.len]) && hasMessage
              else msg == None && hasMessage == old(hasMessage)
    {
      match Parse(Buffered()) {
        case Needs(_) => msg := None;
        case Complete(n) =>
          msg := Some(Buffered()[..n]);
          hasMessage := true;
      }
    }

    /** tls_can_accept_handshake_data. */
    method CanAccept(maxMessageLen: nat) returns (ok: bool)
      requires Valid()
      ensures ok <==> Parse(Buffered()).Needs? && Parse(Buffered()).bytes <= HEADER + maxMessageLen
    {
      match Parse(Buffered()) {
        case Complete(_) => ok := false;
        case Needs(n) => ok := n <= HEADER + maxMessageLen;
      }
    }

    /** tls_has_unprocessed_handshake_data: something is buffered beyond the message now being handled. */
    method HasUnprocessed() returns (yes: bool)
      requires Valid()
      ensures yes <==> if hasMessage then Buffered() != Messages(received)[|released|] else Buffered() != []
    {
      var msgLen := 0;
      if hasMessage {
        var p := Parse(Buffered());
        if p.Complete? { msgLen := p.len; }
        assert Messages(Buffered())[0] == Buffered()[..p.len];
      }
      yes := hsBuf.Some? && |hsBuf.value| > msgLen;
    }

    /** ssl3_open_handshake, once the record layer has opened a record. */
    method OpenHandshake(record: Record, maxMessageLen: nat) returns (r: OpenResult)
      requires Valid()
      modifies this
      ensures Valid() && released == old(released) && hasMessage == old(hasMessage)
      ensures r == Success <==> Parse(old(Buffered())).Needs? && record.kind == HANDSHAKE
                                && Parse(old(Buffered())).bytes <= HEADER + maxMessageLen
      ensures received == if r == Success then old(received) + record.body else old(received)
      ensures Buffered() == if r == Success then old(Buffered()) + record.body else old(Buffered())
    {
      if hsBuf == None {
        hsBuf := Some([]);
      }
      var ok := CanAccept(maxMessageLen);
      if !ok || record.kind != HANDSHAKE {
        return Error;
      }
      HoldsWithMore(received, released, Buffered(), record.body);
      hsBuf := Some(hsBuf.value + record.body);
      received := received + record.body;
      return Success;
    }

    /** ssl3_next_message; the source asserts that there is one. */
    method NextMessage(inInit: bool)
      requires Valid() && Parse(Buffered()).Complete?
      modifies this
      ensures Valid() && received == old(received) && !hasMessage
      ensures Buffered() == old(Buffered())[Parse(old(Buffered())).len..]
      ensures released == old(released) + [Messages(received)[|old(released)|]]
    {
      var msg := GetMessage();
      HoldsAfterNext(received, released, Buffered());
      hsBuf := Some(hsBuf.value[|msg.value|..]);
      hasMessage := false;
      released := released + [msg.value];
      if !inInit && |hsBuf.value| == 0 {
        hsBuf := None;
      }
    }

    /** Every message that is complete is looked at and released. */
    method TakeMessages(inInit: bool)
      requires Valid()
      modifies this
      ensures Valid() && received == old(received) && Buffered() == Leftover(old(Buffered()))
    {
      var msg := GetMessage();
      while msg.Some?
        invariant Valid() && received == old(received) && Leftover(Buffered()) == Leftover(old(Buffered()))
        invariant msg.Some? == Parse(Buffered()).Complete?
        decreases |Buffered()|
      {
        NextMessage(inInit);
        msg := GetMessage();
      }
    }

    /** A record is opened when no message is left, and then all messages are taken. */
    method ReadOne(record: Record, maxMessageLen: nat, inInit: bool) returns (ok: bool)
      requires Valid() && Parse(Buffered()).Needs?
      modifies this
      ensures Valid()
      ensures ok <==> record.kind == HANDSHAKE && Parse(old(Buffered())).bytes <= HEADER + maxMessageLen
      ensures ok ==> Buffered() == Leftover(old(Buffered()) + record.body) && Parse(Buffered()).Needs?
      ensures ok ==> received == old(received) + record.body
    {
      var result := OpenHandshake(record, maxMessageLen);
      ok := result == Success;
      if ok {
        TakeMessages(inInit);
      }
    }

    /** Records are read one after the other, until one is refused. */
    method ReadAll(records: seq<Record>, maxMessageLen: nat, inInit: bool) returns (ok: bool)
      requires Valid() && Parse(Buffered()).Needs?
      modifies this
      ensures Valid()
      ensures ok <==> (forall r | r in records :: r.kind == HANDSHAKE)
                      && ReadRecords(old(Buffered()), Bodies(records), maxMessageLen).Some?
      ensures ok ==> ReadRecords(old(Buffered()), Bodies(records), maxMessageLen) == Some(Buffered())
      ensures ok ==> received == old(received) + Flatten(Bodies(records)) && released == Messages(received)
    {
      assert ReadRecords(Buffered(), [], maxMessageLen) == Some(Buffered());
      hide Holds, Parse, Leftover, Messages;
      var i := 0;
      assert records[0..] == records;
      while i < |records|
        invariant i <= |records| && Valid() && Parse(Buffered()).Needs?
        invariant forall k | 0 <= k < i :: records[k].kind == HANDSHAKE
        invariant ReadRecords(old(Buffered()), Bodies(records), maxMessageLen)
               == ReadRecords(Buffered(), Bodies(records[i..]), maxMessageLen)
        invariant received + Flatten(Bodies(records[i..])) == old(received) + Flatten(Bodies(records))
      {
        ghost var rest, before := records[i..], received;
        BodiesStep(rest);
        assert rest[1..] == records[i + 1..];
        ok := ReadOne(records[i], maxMessageLen, inInit);
        if !ok {
          return;
        }
        ConcatAssociates(before, records[i].body, Flatten(Bodies(records[i + 1..])));
        i := i + 1;
      }
      assert records[i..] == [] && Bodies([]) == [];
      assert received + [] == received;
      TakenAll(received, released, Buffered());
      ok := true;
    }
  }

  /**
   A reader that has taken all it can has released the messages of the stream it received: where records
   cut that stream makes no difference.
   */
  lemma CutsDoNotMatter(a: HandshakeReader, b: HandshakeReader)
    requires a.Valid() && b.Valid() && a.received == b.received
    requires Parse(a.Buffered()).Needs? && Parse(b.Buffered()).Needs?
    ensures a.released == b.released == Messages(a.received) && a.Buffered() == b.Buffered() == Leftover(a.received)
  {
  }

  /** What a sender cut at any sizes, a reader that has taken all it can has put together again. */
  lemma CutsAreUndone(r: HandshakeReader, msgs: seq<seq<byte>>, sizes: seq<nat>)
    requires |sizes| == |msgs| && forall i | 0 <= i < |sizes| :: sizes[i] > 0
    requires forall i | 0 <= i < |msgs| :: WellFormed(msgs[i])
    requires r.Valid() && r.received == Flatten(Bodies(CutAll(msgs, sizes))) && Parse(r.Buffered()).Needs?
    ensures r.released == msgs && r.Buffered() == []
  {
    CutAllFlat(msgs, sizes);
    MessagesOfFlat(msgs);
  }

  // When a read fails.

  /** A stream ends in a message announced as longer than allowed. */
  predicate TooLong(s: seq<byte>, maxMessageLen: nat) {
    Parse(Leftover(s)).bytes > HEADER + maxMessageLen
  }

  lemma FirstBody(s: seq<byte>, bodies: seq<seq<byte>>, k: nat)
    requires k < |bodies|
    ensures s + bodies[0] + Flatten(bodies[1..][..k]) == s + Flatten(bodies[..k + 1])
  {
    assert bodies[..k + 1][1..] == bodies[1..][..k];
  }

  /** The stream up to record k ends in a message announced as too long. */
  predicate FailsAt(s: seq<byte>, bodies: seq<seq<byte>>, k: nat, maxMessageLen: nat)
    requires k <= |bodies|
  {
    TooLong(s + Flatten(bodies[..k]), maxMessageLen)
  }

  ghost predicate Fails(s: seq<byte>, bodies: seq<seq<byte>>, maxMessageLen: nat) {
    exists k | 0 <= k < |bodies| :: FailsAt(s, bodies, k, maxMessageLen)
  }

  lemma FailsNowOrLater(s: seq<byte>, bodies: seq<seq<byte>>, maxMessageLen: nat)
    requires bodies != []
    ensures Fails(s, bodies, maxMessageLen)
       <==> TooLong(s, maxMessageLen) || Fails(s + bodies[0], bodies[1..], maxMessageLen)
  {
    assert s + Flatten(bodies[..0]) == s;
    assert FailsAt(s, bodies, 0, maxMessageLen) == TooLong(s, maxMessageLen);
    forall k | 0 <= k < |bodies| - 1
      ensures FailsAt(s + bodies[0], bodies[1..], k, maxMessageLen) == FailsAt(s, bodies, k + 1, maxMessageLen)
    {
      FirstBody(s, bodies, k);
    }
    if Fails(s, bodies, maxMessageLen) {
      var k :| 0 <= k < |bodies| && FailsAt(s, bodies, k, maxMessageLen);
      assert k > 0 ==> FailsAt(s + bodies[0], bodies[1..], k - 1, maxMessageLen);
    }
  }

  /** Reading goes wrong exactly when that happens before some record is opened. */
  lemma {:induction false} ReadFailsExactly(s: seq<byte>, bodies: seq<seq<byte>>, maxMessageLen: nat)
    ensures var r := ReadRecords(Leftover(s), bodies, maxMessageLen);
            (r == None <==> Fails(s, bodies, maxMessageLen)) && (r.Some? ==> r.value == Leftover(s + Flatten(bodies)))
    decreases |bodies|
  {
    if bodies == [] {
      assert s + [] == s;
    } else {
      FailsNowOrLater(s, bodies, maxMessageLen);
      MessagesExtend(s, bodies[0]);
      ReadFailsExactly(s + bodies[0], bodies[1..], maxMessageLen);
      ConcatAssociates(s, bodies[0], Flatten(bodies[1..]));
    }
  }
}
