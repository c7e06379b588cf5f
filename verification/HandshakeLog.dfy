/** What a handshake does, as a trace, and the order RFC 5246 demands of it (sections 7.3, 7.4.7 and 7.4.9). */
module HandshakeLog {
  import opened Bytes
  import opened HandshakeDriver

  datatype Outgoing = Message(msg: Msg) | Ccs

  datatype Event =
    | Hashed(msg: Msg)        // ssl_hash_message
    | Released(msg: Msg)      // next_message
    | Skipped(msg: Msg)       // next_message of a HelloVerifyRequest, which is not hashed
    | Reset                   // transcript.Init after it
    | Queued(out: Outgoing)   // add_message, which also hashes, or add_change_cipher_spec
    | GotCcs                  // a ChangeCipherSpec record was opened
    | ChangedRead             // tls1_change_cipher_state for reading
    | ChangedWrite            // and for writing
    | Verified                // ssl_verify_peer_cert returned ssl_verify_ok
    | Matched(msg: Msg)       // the peer's Finished carries the expected MAC

  /**
   The transcript, what was queued since it was last reset, the records used, the messages hashed and released,
   how far the read side is on its way from ChangeCipherSpec (1) over the new cipher (2) to Finished (3), and
   whether the peer was verified.
   */
  datatype Log = Log(transcript: seq<Msg>, sent: seq<Outgoing>, used: seq<Record>, hashed: seq<Msg>,
                     released: seq<Msg>, key: nat, verified: bool, trace: seq<Event>)

  const EMPTY := Log([], [], [], [], [], 0, false, [])

  function Apply(l: Log, e: Event): Log {
    var t := l.(trace := l.trace + [e]);
    match e
    case Hashed(m) => t.(transcript := l.transcript + [m], hashed := l.hashed + [m])
    case Released(m) => t.(released := l.released + [m], used := l.used + [Handshake(m)])
    case Skipped(m) => t.(used := l.used + [Handshake(m)])
    case Reset => t.(transcript := [], sent := [])
    case Queued(Message(m)) => t.(transcript := l.transcript + [m], sent := l.sent + [Message(m)])
    case Queued(Ccs) => t.(sent := l.sent + [Ccs])
    case GotCcs => t.(key := l.key + 1, used := l.used + [ChangeCipherSpec])
    case ChangedRead => t.(key := l.key + 1)
    case Matched(_) => t.(key := l.key + 1)
    case Verified => t.(verified := true)
    case ChangedWrite => t
  }

  /** The order of one side's flights, its view of the peer's MAC, and what must come before what. */
  datatype Rules = Rules(order: Outgoing -> nat, peerMac: seq<Msg> -> seq<byte>,
                         verifyFirst: bool,     // a peer certificate is verified before ClientKeyExchange is queued
                         matchFirst: bool)      // the peer's Finished matches before ours is queued

  /**
   Messages are hashed once each, and before they are released; outgoing messages are queued once each, in
   order; a ChangeCipherSpec, then the new read cipher, then a Finished that matches the MAC of the transcript
   before it, once each.
   */
  ghost predicate Allowed(rules: Rules, l: Log, e: Event) {
    match e
    case Hashed(m) => l.hashed == l.released
    case Released(m) => l.hashed == l.released + [m]
    case Skipped(m) => m.typ == HelloVerifyRequest && l.hashed == l.released
    case Reset => l.key == 0 && forall o | o in l.sent :: rules.order(o) == 0
    case Queued(o) =>
      && (forall p | p in l.sent :: rules.order(p) < rules.order(o))
      && (rules.verifyFirst && o.Message? && o.msg.typ == ClientKeyExchange ==> l.verified)
      && (rules.matchFirst && o.Message? && o.msg.typ == Finished ==> l.key == 3)
    case GotCcs => l.key == 0
    case ChangedRead => l.key == 1
    case ChangedWrite => l.sent != [] && l.sent[|l.sent| - 1] == Ccs
    case Verified => true
    case Matched(m) =>
      && l.key == 2 && m.typ == Finished && l.transcript != [] && l.transcript[|l.transcript| - 1] == m
      && m.body == rules.peerMac(l.transcript[..|l.transcript| - 1])
  }

  function Replay(trace: seq<Event>): Log
    decreases |trace|
  {
    if trace == [] then EMPTY else Apply(Replay(trace[..|trace| - 1]), trace[|trace| - 1])
  }

  ghost predicate AllAllowed(rules: Rules, trace: seq<Event>) {
    forall i | 0 <= i < |trace| :: Allowed(rules, Replay(trace[..i]), trace[i])
  }

  ghost predicate LogOk(rules: Rules, l: Log) {
    l == Replay(l.trace) && AllAllowed(rules, l.trace)
  }

  lemma Add(rules: Rules, l: Log, e: Event)
    requires LogOk(rules, l) && Allowed(rules, l, e)
    ensures LogOk(rules, Apply(l, e))
  {
    var trace := l.trace + [e];
    assert trace[..|l.trace|] == l.trace;
    forall i | 0 <= i < |trace| ensures Allowed(rules, Replay(trace[..i]), trace[i]) {
      if i < |l.trace| { assert trace[..i] == l.trace[..i]; }
    }
  }

  function ApplyAll(l: Log, events: seq<Event>): Log
    decreases |events|
  {
    if events == [] then l else ApplyAll(Apply(l, events[0]), events[1..])
  }

  // What one do_* function does to all this.

  datatype Act =
    | Nothing
    | HashOnly(msg: Msg)                   // and then an error
    | Take(msg: Msg)                       // a message hashed and released
    | TakeFinished(msg: Msg)               // the peer's Finished hashed, matched and released
    | TakeCookie(msg: Msg, hello: Msg)     // a HelloVerifyRequest released, and a new ClientHello
    | CookieOnly(msg: Msg, reset: bool)    // the same up to an error before or after the transcript is reset
    | Emit(msg: Msg)                       // a message queued
    | EmitAll(msgs: seq<Msg>)              // several
    | CcsOnly(before: seq<Msg>)            // ChangeCipherSpec queued, and then an error
    | CloseFlight(before: seq<Msg>, msgs: seq<Msg>)  // ChangeCipherSpec, the new write cipher, messages under it
    | PeerVerified
    | ChangeRead

  predicate Releases(a: Act) { a.Take? || a.TakeFinished? || a.TakeCookie? || a.CookieOnly? }

  function Sends(msgs: seq<Msg>): seq<Event> {
    seq(|msgs|, i requires 0 <= i < |msgs| => Queued(Message(msgs[i])))
  }

  function EventsOf(a: Act): seq<Event> {
    match a
    case Nothing => []
    case HashOnly(m) => [Hashed(m)]
    case Take(m) => [Hashed(m), Released(m)]
    case TakeFinished(m) => [Hashed(m), Matched(m), Released(m)]
    case TakeCookie(m, hello) => [Skipped(m), Reset, Queued(Message(hello))]
    case CookieOnly(m, reset) => if reset then [Skipped(m), Reset] else [Skipped(m)]
    case Emit(m) => [Queued(Message(m))]
    case EmitAll(msgs) => Sends(msgs)
    case CcsOnly(before) => Sends(before) + [Queued(Ccs)]
    case CloseFlight(before, msgs) => Sends(before) + ([Queued(Ccs), ChangedWrite] + Sends(msgs))
    case PeerVerified => [Verified]
    case ChangeRead => [ChangedRead]
  }

  function Perform(l: Log, a: Act): Log { ApplyAll(l, EventsOf(a)) }

  /** What must be true of the log in one place of a machine: its key, where its flights have got to, verification. */
  datatype Place = Place(key: nat, bound: nat, verified: bool)

  /** Everything sent since the last reset comes before position n of this side's order. */
  ghost predicate Below(rules: Rules, l: Log, n: nat) {
    forall o | o in l.sent :: rules.order(o) < n
  }

  ghost predicate At(rules: Rules, l: Log, place: Place) {
    && LogOk(rules, l) && l.hashed == l.released && l.key == place.key && Below(rules, l, place.bound)
    && (place.verified ==> l.verified)
  }

  /** What queueing a message asks for besides its place in the order. */
  predicate MaySend(rules: Rules, from: Place, m: Msg) {
    && (rules.verifyFirst && m.typ == ClientKeyExchange ==> from.verified)
    && (rules.matchFirst && m.typ == Finished ==> from.key == 3)
  }

  /** Messages in their order, from place n up to place end. */
  ghost predicate InOrder(rules: Rules, from: Place, msgs: seq<Msg>, n: nat, end: nat) {
    && n <= end
    && (forall i | 0 <= i < |msgs| :: MaySend(rules, from, msgs[i]) && n <= rules.order(Message(msgs[i])) < end)
    && forall i, j | 0 <= i < j < |msgs| :: rules.order(Message(msgs[i])) < rules.order(Message(msgs[j]))
  }

  lemma InOrderOne(rules: Rules, from: Place, m: Msg, n: nat, end: nat)
    requires MaySend(rules, from, m) && n <= rules.order(Message(m)) < end
    ensures InOrder(rules, from, [m], n, end)
  {
  }

  lemma InOrderTwo(rules: Rules, from: Place, a: Msg, b: Msg, n: nat, end: nat)
    requires MaySend(rules, from, a) && MaySend(rules, from, b)
    requires n <= rules.order(Message(a)) < rules.order(Message(b)) < end
    ensures InOrder(rules, from, [a, b], n, end)
  {
  }

  lemma InOrderThree(rules: Rules, from: Place, a: Msg, b: Msg, c: Msg, n: nat, end: nat)
    requires MaySend(rules, from, a) && MaySend(rules, from, b) && MaySend(rules, from, c)
    requires n <= rules.order(Message(a)) < rules.order(Message(b)) < rules.order(Message(c)) < end
    ensures InOrder(rules, from, [a, b, c], n, end)
  {
  }

  /** An act that takes a machine from one place to another. */
  ghost predicate Legal(rules: Rules, transcript: seq<Msg>, from: Place, a: Act, to: Place) {
    && to.key == from.key + (if a.TakeFinished? || a == ChangeRead then 1 else 0)
    && (to.verified ==> from.verified || a == PeerVerified)
    && match a
       case Nothing => from.bound <= to.bound
       case Take(_) => from.bound <= to.bound
       case TakeFinished(m) =>
         from.bound <= to.bound && from.key == 2 && m.typ == Finished && m.body == rules.peerMac(transcript)
       case TakeCookie(m, hello) =>
         && m.typ == HelloVerifyRequest && from.key == 0 && from.bound <= 1 <= to.bound
         && rules.order(Message(hello)) == 0 && MaySend(rules, from, hello)
       case Emit(m) => MaySend(rules, from, m) && from.bound <= rules.order(Message(m)) < to.bound
       case EmitAll(msgs) => InOrder(rules, from, msgs, from.bound, to.bound)
       case CloseFlight(before, msgs) =>
         && InOrder(rules, from, before, from.bound, rules.order(Ccs))
         && InOrder(rules, from, msgs, rules.order(Ccs) + 1, to.bound)
       case PeerVerified => from.bound <= to.bound
       case ChangeRead => from.bound <= to.bound && from.key == 1
       case _ => false
  }

  /** After everything either side sends. */
  const END := 10

  /** An act that ends in an error: what was done before it was allowed. */
  ghost predicate LegalError(rules: Rules, transcript: seq<Msg>, from: Place, a: Act) {
    match a
    case Nothing => true
    case HashOnly(_) => true
    case CookieOnly(m, _) => m.typ == HelloVerifyRequest && from.key == 0 && from.bound <= 1
    case CcsOnly(before) => InOrder(rules, from, before, from.bound, rules.order(Ccs))
    case Emit(_) => Legal(rules, transcript, from, a, from.(bound := END))
    case EmitAll(_) => Legal(rules, transcript, from, a, from.(bound := END))
    case TakeFinished(_) => Legal(rules, transcript, from, a, from.(key := 3, bound := END))
    case _ => false
  }

  lemma OneOk(rules: Rules, l: Log, e: Event)
    requires LogOk(rules, l) && Allowed(rules, l, e)
    ensures ApplyAll(l, [e]) == Apply(l, e) && LogOk(rules, Apply(l, e))
  {
    Add(rules, l, e);
  }

  lemma OneIs(l: Log, e: Event)
    ensures ApplyAll(l, [e]) == Apply(l, e)
  {
  }

  lemma TwoIs(l: Log, e: Event, f: Event)
    ensures ApplyAll(l, [e, f]) == Apply(Apply(l, e), f)
  {
    assert [e, f][1..] == [f] && [f][1..] == [];
    assert ApplyAll(Apply(l, e), [f]) == Apply(Apply(l, e), f);
  }

  lemma ThreeIs(l: Log, e: Event, f: Event, g: Event)
    ensures ApplyAll(l, [e, f, g]) == Apply(Apply(Apply(l, e), f), g)
  {
    assert [e, f, g][1..] == [f, g];
    TwoIs(Apply(l, e), f, g);
  }

  lemma TakeOk(rules: Rules, l: Log, m: Msg)
    requires LogOk(rules, l) && l.hashed == l.released
    ensures LogOk(rules, Perform(l, Take(m))) && LogOk(rules, Perform(l, HashOnly(m)))
    ensures Perform(l, Take(m))
         == l.(transcript := l.transcript + [m], hashed := l.hashed + [m], released := l.released + [m],
               used := l.used + [Handshake(m)], trace := l.trace + [Hashed(m)] + [Released(m)])
    ensures Perform(l, HashOnly(m)).used == l.used
  {
    OneOk(rules, l, Hashed(m));
    Add(rules, Apply(l, Hashed(m)), Released(m));
    TwoIs(l, Hashed(m), Released(m));
  }

  lemma TakeFinishedOk(rules: Rules, l: Log, m: Msg)
    requires LogOk(rules, l) && l.hashed == l.released && l.key == 2
    requires m.typ == Finished && m.body == rules.peerMac(l.transcript)
    ensures var t := Perform(l, TakeFinished(m));
            LogOk(rules, t) && t.key == 3 && t.hashed == t.released && t.sent == l.sent
            && t.used == l.used + [Handshake(m)] && t.verified == l.verified
  {
    var h := Apply(l, Hashed(m));
    Add(rules, l, Hashed(m));
    assert h.transcript[..|h.transcript| - 1] == l.transcript;
    Add(rules, h, Matched(m));
    Add(rules, Apply(h, Matched(m)), Released(m));
    ThreeIs(l, Hashed(m), Matched(m), Released(m));
  }

  lemma SendOk(rules: Rules, l: Log, from: Place, m: Msg)
    requires At(rules, l, from) && MaySend(rules, from, m) && from.bound <= rules.order(Message(m))
    ensures At(rules, Apply(l, Queued(Message(m))), from.(bound := rules.order(Message(m)) + 1))
    ensures Apply(l, Queued(Message(m))).used == l.used
  {
    Add(rules, l, Queued(Message(m)));
  }

  lemma ResetOk(rules: Rules, l: Log, from: Place, m: Msg)
    requires At(rules, l, from) && from.key == 0 && from.bound <= 1 && m.typ == HelloVerifyRequest
    ensures var t := Apply(Apply(l, Skipped(m)), Reset);
            At(rules, t, from.(bound := 0)) && t.used == l.used + [Handshake(m)]
  {
    Add(rules, l, Skipped(m));
    Add(rules, Apply(l, Skipped(m)), Reset);
  }

  lemma TakeCookieOk(rules: Rules, l: Log, from: Place, m: Msg, hello: Msg)
    requires At(rules, l, from) && from.key == 0 && from.bound <= 1 && m.typ == HelloVerifyRequest
    requires rules.order(Message(hello)) == 0 && MaySend(rules, from, hello)
    ensures var t := Perform(l, TakeCookie(m, hello));
            At(rules, t, from.(bound := 1)) && t.used == l.used + [Handshake(m)]
  {
    ThreeIs(l, Skipped(m), Reset, Queued(Message(hello)));
    var t := Apply(Apply(l, Skipped(m)), Reset);
    assert Perform(l, TakeCookie(m, hello)) == Apply(t, Queued(Message(hello)));
    ResetOk(rules, l, from, m);
    SendOk(rules, t, from.(bound := 0), hello);
  }

  /** Messages queued one after the other, each in its place. */
  lemma {:induction false} SendsOk(rules: Rules, l: Log, from: Place, msgs: seq<Msg>, end: nat)
    requires At(rules, l, from) && InOrder(rules, from, msgs, from.bound, end)
    ensures var t := ApplyAll(l, Sends(msgs));
            At(rules, t, from.(bound := end)) && t.used == l.used
    decreases |msgs|
  {
    if msgs != [] {
      var o := Message(msgs[0]);
      SendOk(rules, l, from, msgs[0]);
      assert Sends(msgs)[0] == Queued(o) && Sends(msgs)[1..] == Sends(msgs[1..]);
      var next := from.(bound := rules.order(o) + 1);
      RestInOrder(rules, from, msgs, from.bound, end, next);
      SendsOk(rules, Apply(l, Queued(o)), next, msgs[1..], end);
    }
  }

  lemma RestInOrder(rules: Rules, from: Place, msgs: seq<Msg>, n: nat, end: nat, next: Place)
    requires InOrder(rules, from, msgs, n, end) && msgs != []
    requires next == from.(bound := rules.order(Message(msgs[0])) + 1)
    ensures InOrder(rules, next, msgs[1..], next.bound, end)
  {
    forall i | 0 <= i < |msgs| - 1
      ensures MaySend(rules, next, msgs[1..][i]) && next.bound <= rules.order(Message(msgs[1..][i])) < end
    {
      assert MaySend(rules, from, msgs[i + 1]);
    }
  }

  lemma {:induction false} ApplyConcat(l: Log, a: seq<Event>, b: seq<Event>)
    ensures ApplyAll(l, a + b) == ApplyAll(ApplyAll(l, a), b)
    decreases |a|
  {
    if a == [] {
      assert a + b == b;
    } else {
      assert (a + b)[1..] == a[1..] + b;
      ApplyConcat(Apply(l, a[0]), a[1..], b);
    }
  }

  lemma SwitchOk(rules: Rules, l: Log, from: Place)
    requires At(rules, l, from) && from.bound <= rules.order(Ccs)
    ensures LogOk(rules, ApplyAll(l, [Queued(Ccs)])) && ApplyAll(l, [Queued(Ccs)]).used == l.used
    ensures var t := ApplyAll(l, [Queued(Ccs), ChangedWrite]);
            At(rules, t, from.(bound := rules.order(Ccs) + 1)) && t.used == l.used
  {
    OneOk(rules, l, Queued(Ccs));
    Add(rules, Apply(l, Queued(Ccs)), ChangedWrite);
    TwoIs(l, Queued(Ccs), ChangedWrite);
  }

  lemma CloseFlightOk(rules: Rules, l: Log, from: Place, before: seq<Msg>, msgs: seq<Msg>, end: nat)
    requires At(rules, l, from) && InOrder(rules, from, before, from.bound, rules.order(Ccs))
    requires InOrder(rules, from, msgs, rules.order(Ccs) + 1, end)
    ensures var t := Perform(l, CloseFlight(before, msgs));
            At(rules, t, from.(bound := end)) && t.used == l.used
  {
    var n := rules.order(Ccs);
    SendsOk(rules, l, from, before, n);
    var l1 := ApplyAll(l, Sends(before));
    SwitchOk(rules, l1, from.(bound := n));
    SameOrder(rules, from, from.(bound := n + 1), msgs, n + 1, end);
    SendsOk(rules, ApplyAll(l1, [Queued(Ccs), ChangedWrite]), from.(bound := n + 1), msgs, end);
    CloseFlightIs(l, before, msgs);
  }

  lemma CloseFlightIs(l: Log, before: seq<Msg>, msgs: seq<Msg>)
    ensures Perform(l, CloseFlight(before, msgs))
         == ApplyAll(ApplyAll(ApplyAll(l, Sends(before)), [Queued(Ccs), ChangedWrite]), Sends(msgs))
  {
    ApplyConcat(l, Sends(before), [Queued(Ccs), ChangedWrite] + Sends(msgs));
    ApplyConcat(ApplyAll(l, Sends(before)), [Queued(Ccs), ChangedWrite], Sends(msgs));
  }

  /** What may be sent does not depend on the bound. */
  lemma SameOrder(rules: Rules, from: Place, place: Place, msgs: seq<Msg>, n: nat, end: nat)
    requires InOrder(rules, from, msgs, n, end) && place == from.(bound := place.bound)
    ensures InOrder(rules, place, msgs, n, end)
  {
    forall i | 0 <= i < |msgs| ensures MaySend(rules, place, msgs[i]) { assert MaySend(rules, from, msgs[i]); }
  }

  /** Where an act leaves the log, and the record it uses up. */
  ghost predicate Done(rules: Rules, l: Log, a: Act, to: Place) {
    && At(rules, Perform(l, a), to)
    && Perform(l, a).used == l.used + if Releases(a) then [Handshake(a.msg)] else []
  }

  lemma OwnActs(rules: Rules, l: Log, from: Place, a: Act, to: Place)
    requires At(rules, l, from) && Legal(rules, l.transcript, from, a, to)
    requires a.Nothing? || a.Emit? || a.EmitAll? || a.CloseFlight? || a.PeerVerified? || a.ChangeRead?
    ensures Done(rules, l, a, to)
  {
    hide InOrder, LogOk, Allowed;
    match a {
      case Emit(m) => SendOk(rules, l, from, m); OneIs(l, Queued(Message(m)));
      case EmitAll(msgs) => SendsOk(rules, l, from, msgs, to.bound);
      case CloseFlight(before, msgs) => CloseFlightOk(rules, l, from, before, msgs, to.bound);
      case PeerVerified => OneOk(rules, l, Verified);
      case ChangeRead => OneOk(rules, l, ChangedRead);
      case _ =>
    }
  }

  lemma PeerActs(rules: Rules, l: Log, from: Place, a: Act, to: Place)
    requires At(rules, l, from) && Legal(rules, l.transcript, from, a, to) && Releases(a)
    ensures Done(rules, l, a, to)
  {
    match a {
      case Take(m) => TakeOk(rules, l, m);
      case TakeFinished(m) => TakeFinishedOk(rules, l, m);
      case TakeCookie(m, hello) => TakeCookieOk(rules, l, from, m, hello);
    }
  }

  /** Legal acts keep to the rules, get to where they say, and use up the record whose message they release. */
  lemma LegalActs(rules: Rules, l: Log, from: Place, a: Act, to: Place)
    requires At(rules, l, from) && Legal(rules, l.transcript, from, a, to)
    ensures Done(rules, l, a, to)
  {
    if Releases(a) { PeerActs(rules, l, from, a, to); } else { OwnActs(rules, l, from, a, to); }
  }

  lemma CcsOk(rules: Rules, l: Log, place: Place)
    requires At(rules, l, place) && place.key == 0
    ensures At(rules, Apply(l, GotCcs), place.(key := 1)) && Apply(l, GotCcs).used == l.used + [ChangeCipherSpec]
  {
    Add(rules, l, GotCcs);
  }

  lemma CookieOnlyOk(rules: Rules, l: Log, from: Place, m: Msg, reset: bool)
    requires At(rules, l, from) && from.key == 0 && from.bound <= 1 && m.typ == HelloVerifyRequest
    ensures var t := Perform(l, CookieOnly(m, reset));
            LogOk(rules, t) && t.used == l.used + [Handshake(m)]
  {
    TwoIs(l, Skipped(m), Reset);
    OneOk(rules, l, Skipped(m));
    ResetOk(rules, l, from, m);
  }

  lemma CcsOnlyOk(rules: Rules, l: Log, from: Place, before: seq<Msg>)
    requires At(rules, l, from) && InOrder(rules, from, before, from.bound, rules.order(Ccs))
    ensures var t := Perform(l, CcsOnly(before));
            LogOk(rules, t) && t.used == l.used
  {
    SendsOk(rules, l, from, before, rules.order(Ccs));
    ApplyConcat(l, Sends(before), [Queued(Ccs)]);
    SwitchOk(rules, ApplyAll(l, Sends(before)), from.(bound := rules.order(Ccs)));
  }

  lemma LegalErrors(rules: Rules, l: Log, from: Place, a: Act)
    requires At(rules, l, from) && LegalError(rules, l.transcript, from, a)
    ensures LogOk(rules, Perform(l, a))
    ensures Perform(l, a).used == l.used + if Releases(a) then [Handshake(a.msg)] else []
  {
    match a {
      case Nothing =>
      case HashOnly(m) => TakeOk(rules, l, m);
      case CookieOnly(m, reset) => CookieOnlyOk(rules, l, from, m, reset);
      case CcsOnly(before) => CcsOnlyOk(rules, l, from, before);
      case Emit(_) => LegalActs(rules, l, from, a, from.(bound := END));
      case EmitAll(_) => LegalActs(rules, l, from, a, from.(bound := END));
      case TakeFinished(_) => LegalActs(rules, l, from, a, from.(key := 3, bound := END));
    }
  }

  // What allowed traces mean.

  /** The events of the read side's change of cipher, in order. */
  function KeyEvents(trace: seq<Event>): seq<Event>
    decreases |trace|
  {
    if trace == [] then []
    else
      var last := trace[|trace| - 1];
      KeyEvents(trace[..|trace| - 1]) + if IsKey(last) then [last] else []
  }

  lemma AllowedBefore(rules: Rules, trace: seq<Event>)
    requires AllAllowed(rules, trace) && trace != []
    ensures AllAllowed(rules, trace[..|trace| - 1])
    ensures Allowed(rules, Replay(trace[..|trace| - 1]), trace[|trace| - 1])
  {
    var init := trace[..|trace| - 1];
    forall i | 0 <= i < |init| ensures Allowed(rules, Replay(init[..i]), init[i]) {
      assert init[..i] == trace[..i];
    }
  }

  lemma PrefixAllowed(rules: Rules, trace: seq<Event>, n: nat)
    requires AllAllowed(rules, trace) && n <= |trace|
    ensures AllAllowed(rules, trace[..n])
  {
    forall i | 0 <= i < n ensures Allowed(rules, Replay(trace[..n][..i]), trace[..n][i]) {
      assert trace[..n][..i] == trace[..i];
    }
  }

  /** The key counts a ChangeCipherSpec, then the new read cipher, then a matching Finished: once each. */
  predicate IsKey(e: Event) { e == GotCcs || e == ChangedRead || e.Matched? }

  lemma KeyStep(rules: Rules, l: Log, e: Event)
    requires Allowed(rules, l, e)
    ensures Apply(l, e).key == l.key + if IsKey(e) then 1 else 0
    ensures IsKey(e) ==> l.key == if e == GotCcs then 0 else if e == ChangedRead then 1 else 2
  {
  }

  lemma {:induction false} KeyMeans(rules: Rules, trace: seq<Event>)
    requires AllAllowed(rules, trace)
    ensures var k := KeyEvents(trace);
            |k| == Replay(trace).key <= 3 && (|k| > 0 ==> k[0] == GotCcs) && (|k| > 1 ==> k[1] == ChangedRead)
            && (|k| > 2 ==> k[2].Matched?)
    decreases |trace|
  {
    if trace != [] {
      AllowedBefore(rules, trace);
      KeyMeans(rules, trace[..|trace| - 1]);
      KeyStep(rules, Replay(trace[..|trace| - 1]), trace[|trace| - 1]);
    }
  }

  lemma {:induction false} VerifiedMeans(trace: seq<Event>)
    ensures Replay(trace).verified <==> Verified in trace
    decreases |trace|
  {
    if trace != [] {
      VerifiedMeans(trace[..|trace| - 1]);
      assert trace == trace[..|trace| - 1] + [trace[|trace| - 1]];
    }
  }

  function HashedIn(trace: seq<Event>): seq<Msg>
    decreases |trace|
  {
    if trace == [] then []
    else
      var last := trace[|trace| - 1];
      HashedIn(trace[..|trace| - 1]) + if last.Hashed? then [last.msg] else []
  }

  /** The record an event uses up. */
  function UsedBy(e: Event): seq<Record> {
    match e
    case Released(m) => [Handshake(m)]
    case Skipped(m) => [Handshake(m)]
    case GotCcs => [ChangeCipherSpec]
    case _ => []
  }

  function UsedIn(trace: seq<Event>): seq<Record>
    decreases |trace|
  {
    if trace == [] then [] else UsedIn(trace[..|trace| - 1]) + UsedBy(trace[|trace| - 1])
  }

  lemma UsedStep(l: Log, e: Event)
    ensures Apply(l, e).used == l.used + UsedBy(e)
    ensures Apply(l, e).hashed == l.hashed + if e.Hashed? then [e.msg] else []
  {
  }

  lemma {:induction false} LogMeans(trace: seq<Event>)
    ensures Replay(trace).hashed == HashedIn(trace) && Replay(trace).used == UsedIn(trace)
    decreases |trace|
  {
    if trace != [] {
      LogMeans(trace[..|trace| - 1]);
      UsedStep(Replay(trace[..|trace| - 1]), trace[|trace| - 1]);
    }
  }
}
