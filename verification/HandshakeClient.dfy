/** The client's handshake below TLS 1.3 (handshake_client.cc), on values: full and resumed, with all its pause
    points. The class is in HandshakeClientClass. */
module HandshakeClient {
  import opened Bytes
  import opened HandshakeDriver
  import opened HandshakeLog

  datatype State =
    | StartConnect | EnterEarlyData | ReadHelloVerifyRequest | ReadServerHelloState | ReadServerCertificate
    | ReadCertificateStatus | VerifyServerCertificate | ReadServerKeyExchange | ReadCertificateRequest
    | ReadServerHelloDone | SendClientCertificate | SendClientKeyExchange | SendClientCertificateVerify
    | SendClientFinished | FinishFlight | ReadSessionTicket | ProcessChangeCipherSpec | ReadServerFinished
    | FinishClientHandshake | Done

  /**
   What does not depend on the machine: configuration, negotiation, and the outcome of every callback, parse and
   cryptographic operation (works for local operations in a state, accepts for a message read on a transcript;
   resets, masterSecret and writeKey for what comes after a message is released or queued).
   */
  datatype World = World(dtls: bool, offersSession: bool, resumes: bool, certAuth: bool, needsKeyExchange: bool,
                         statusExpected: bool, ticketExpected: bool, certCallback: bool, hasCertificate: bool,
                         channelId: bool, nextProto: bool, falseStart: bool,
                         works: State -> bool, accepts: (Msg, seq<Msg>) -> bool, verifies: bool,
                         resets: bool, masterSecret: bool, writeKey: bool,
                         body: (MsgType, seq<Msg>) -> seq<byte>, mac: (bool, seq<Msg>) -> seq<byte>)

  /** hs->state, whether ssl->session is set, hs->cert_request, hs->ticket_expected, and the log. */
  datatype Client = Client(state: State, session: bool, certRequest: bool, ticketExpected: bool, log: Log)

  function Start(w: World): Client { Client(StartConnect, w.offersSession, false, false, EMPTY) }

  /** What a do_* function does: the fields it leaves, its act, its return. */
  datatype Move = Move(state: State, session: bool, certRequest: bool, ticketExpected: bool, act: Act, wait: Wait)

  function Go(c: Client, state: State, act: Act, wait: Wait): Move {
    Move(state, c.session, c.certRequest, c.ticketExpected, act, wait)
  }

  // The order of the client's flights, and what must have happened by each state.

  function ClientOrder(o: Outgoing): nat {
    if o == Ccs then 4
    else match o.msg.typ
      case ClientHello => 0 case Certificate => 1 case ClientKeyExchange => 2 case CertificateVerify => 3
      case NextProto => 5 case ChannelId => 6 case Finished => 7 case _ => 8
  }

  /** A peer that a certificate cipher authenticates is verified before the client queues its key exchange. */
  function ClientRules(w: World): Rules {
    Rules(ClientOrder, (t: seq<Msg>) => w.mac(true, t), w.certAuth, false)
  }

  function PlaceOf(w: World, state: State, session: bool, phase: Phase): Place {
    match state
    case StartConnect => Place(0, 0, false)
    case ReadServerKeyExchange => Place(0, 1, w.certAuth)
    case ReadCertificateRequest => Place(0, 1, w.certAuth)
    case ReadServerHelloDone => Place(0, 1, w.certAuth)
    case SendClientCertificate => Place(0, 1, w.certAuth)
    case SendClientKeyExchange => Place(0, 2, w.certAuth)
    case SendClientCertificateVerify => Place(0, 3, false)
    case SendClientFinished => Place(if session then 3 else 0, 4, false)
    case FinishFlight => Place(if session then 3 else 0, 8, false)
    case ReadSessionTicket => Place(0, if session then 1 else 8, false)
    case ProcessChangeCipherSpec => Place(if phase == WantsCcs then 0 else 1, if session then 1 else 8, false)
    case ReadServerFinished => Place(2, if session then 1 else 8, false)
    case FinishClientHandshake => Place(3, 8, false)
    case Done => Place(3, 8, false)
    case _ => Place(0, 1, false)
  }

  /** How many states may still come; from ServerHello on a client has a session only if it resumes. */
  function Rank(state: State, session: bool): nat {
    match state
    case StartConnect => 20 case EnterEarlyData => 19 case ReadHelloVerifyRequest => 18
    case ReadServerHelloState => 17 case ReadServerCertificate => 16 case ReadCertificateStatus => 15
    case VerifyServerCertificate => 14 case ReadServerKeyExchange => 13 case ReadCertificateRequest => 12
    case ReadServerHelloDone => 11 case SendClientCertificate => 10 case SendClientKeyExchange => 9
    case SendClientCertificateVerify => 8
    case SendClientFinished => if session then 3 else 7
    case FinishFlight => if session then 2 else 6
    case ReadSessionTicket => 5 + if session then 1 else 0
    case ProcessChangeCipherSpec => 4 + if session then 1 else 0
    case ReadServerFinished => 3 + if session then 1 else 0
    case FinishClientHandshake => 1
    case Done => 0
  }

  /** The states that only a full handshake comes through. */
  predicate Sane(state: State, session: bool) {
    match state
    case ReadServerCertificate => !session
    case ReadCertificateStatus => !session
    case VerifyServerCertificate => !session
    case ReadServerKeyExchange => !session
    case ReadCertificateRequest => !session
    case ReadServerHelloDone => !session
    case SendClientCertificate => !session
    case SendClientKeyExchange => !session
    case SendClientCertificateVerify => !session
    case _ => true
  }

  /** Nothing has changed, and the function is to be called again. */
  predicate IsPause(c: Client, move: Move) {
    move == Go(c, c.state, Nothing, move.wait) && (Reads(move.wait) || ForCaller(move.wait))
  }

  /**
   What every do_* function owes: a turn that does not fail or pause has fewer states before it, and only a turn
   that goes on reaches the end; its act is allowed by the protocol where it happens and leads to where the next
   state expects to be.
   */
  ghost predicate Sound(w: World, c: Client, move: Move) {
    && (move.wait == Error || IsPause(c, move) || Rank(move.state, move.session) < Rank(c.state, c.session))
    && (move.state == Done ==> move.wait == Ok)
    && (move.wait == ReadChangeCipherSpec ==> move.state == ProcessChangeCipherSpec)
    && var from := PlaceOf(w, c.state, c.session, Going);
       if move.wait == Error then LegalError(ClientRules(w), c.log.transcript, from, move.act)
       else Sane(c.state, c.session) ==>
         && Sane(move.state, move.session)
         && Legal(ClientRules(w), c.log.transcript, from, move.act,
                  PlaceOf(w, move.state, move.session, PhaseOf(move.wait)))
  }

  /** A turn that has nothing to do with messages from the peer. */
  ghost predicate Local(w: World, c: Client, move: Move) {
    Sound(w, c, move) && !Releases(move.act) && !Reads(move.wait)
  }

  /** A turn that may need a message: it asks for none that is there, and releases only the one that is. */
  ghost predicate Reading(w: World, c: Client, msg: Option<Msg>, move: Move) {
    Sound(w, c, move) && (msg.Some? ==> !Reads(move.wait)) && (Releases(move.act) ==> msg == Some(move.act.msg))
  }

  // Returns of the do_* functions.

  /** To be called again. */
  function Pause(w: World, c: Client, wait: Wait): (move: Move)
    requires c.state != Done && (Reads(wait) || ForCaller(wait))
    ensures Sound(w, c, move) && !Releases(move.act)
  {
    Go(c, c.state, Nothing, wait)
  }

  function Fail(w: World, c: Client): (move: Move)
    requires c.state != Done
    ensures Local(w, c, move)
  {
    Go(c, c.state, Nothing, Error)
  }

  /** The next state asks for no more than this one. */
  ghost predicate Leads(w: World, c: Client, next: State) {
    && Rank(next, c.session) < Rank(c.state, c.session) && c.state != Done
    && var from, to := PlaceOf(w, c.state, c.session, Going), PlaceOf(w, next, c.session, Going);
       Sane(c.state, c.session) ==>
         && Sane(next, c.session)
         && to.key == from.key && to.bound >= from.bound && (to.verified ==> from.verified)
  }

  function Skip(w: World, c: Client, next: State): (move: Move)
    requires Leads(w, c, next)
    ensures Local(w, c, move)
  {
    Go(c, next, Nothing, Ok)
  }

  /** A message that was hashed and then refused. */
  function Refuse(w: World, c: Client, m: Msg): (move: Move)
    requires c.state != Done
    ensures Local(w, c, move)
  {
    Go(c, c.state, HashOnly(m), Error)
  }

  /** A message queued on the way to the next state. */
  function EmitOne(w: World, c: Client, m: Msg, next: State): (move: Move)
    requires c.state != Done && next != Done && m.typ != Finished && m.typ != ClientKeyExchange
    requires Rank(next, c.session) < Rank(c.state, c.session)
    requires var from, to := PlaceOf(w, c.state, c.session, Going), PlaceOf(w, next, c.session, Going);
             Sane(c.state, c.session) ==>
               && Sane(next, c.session) && to.key == from.key && (to.verified ==> from.verified)
               && from.bound <= ClientOrder(Message(m)) < to.bound
    ensures Local(w, c, move)
  {
    Go(c, next, Emit(m), Ok)
  }

  /** A message of this type that is hashed, parsed and released. */
  function Receive(w: World, c: Client, msg: Option<Msg>, typ: MsgType, next: State): (move: Move)
    requires Leads(w, c, next)
    ensures Reading(w, c, msg, move)
  {
    match msg
    case None => Pause(w, c, ReadMessage)
    case Some(m) =>
      if m.typ != typ then Fail(w, c)
      else if !w.accepts(m, c.log.transcript) then Refuse(w, c, m)
      else Go(c, next, Take(m), Ok)
  }

  // The do_* functions.

  /** A message made on this transcript. */
  function Make(w: World, typ: MsgType, transcript: seq<Msg>): Msg { Msg(typ, w.body(typ, transcript)) }

  function DoStartConnect(w: World, c: Client): (move: Move)
    requires c.state == StartConnect
    ensures Local(w, c, move)
  {
    if !w.works(StartConnect) then Fail(w, c)
    else Go(c, EnterEarlyData, Emit(Make(w, ClientHello, c.log.transcript)), Flush)
  }

  function DoEnterEarlyData(w: World, c: Client): (move: Move)
    requires c.state == EnterEarlyData
    ensures Local(w, c, move)
  {
    Go(c, if w.dtls then ReadHelloVerifyRequest else ReadServerHelloState, Nothing, Ok)
  }

  function NoSecondHello(w: World, c: Client, m: Msg): (move: Move)
    requires c.state == ReadHelloVerifyRequest && m.typ == HelloVerifyRequest
    ensures Reading(w, c, Some(m), move)
  {
    Go(c, c.state, CookieOnly(m, w.resets), Error)
  }

  function SecondHello(w: World, c: Client, m: Msg): (move: Move)
    requires c.state == ReadHelloVerifyRequest && m.typ == HelloVerifyRequest
    ensures Reading(w, c, Some(m), move)
  {
    Go(c, ReadServerHelloState, TakeCookie(m, Make(w, ClientHello, [])), Flush)
  }

  function DoReadHelloVerifyRequest(w: World, c: Client, msg: Option<Msg>): (move: Move)
    requires c.state == ReadHelloVerifyRequest
    ensures Reading(w, c, msg, move)
  {
    hide Sound;
    match msg
    case None => Pause(w, c, ReadMessage)
    case Some(m) =>
      if m.typ != HelloVerifyRequest then Skip(w, c, ReadServerHelloState)
      else if !w.accepts(m, c.log.transcript) then Fail(w, c)
      else if !w.resets || !w.works(ReadHelloVerifyRequest) then NoSecondHello(w, c, m)
      else SecondHello(w, c, m)
  }

  function DoReadServerHello(w: World, c: Client, msg: Option<Msg>): (move: Move)
    requires c.state == ReadServerHelloState
    ensures Reading(w, c, msg, move)
  {
    match msg
    case None => Pause(w, c, ReadServerHello)
    case Some(m) =>
      if m.typ != ServerHello || !w.accepts(m, c.log.transcript) then Fail(w, c)
      else
        var session := c.session && w.resumes;
        if !w.works(ReadServerHelloState) then
          Move(c.state, session, c.certRequest, c.ticketExpected, HashOnly(m), Error)
        else
          Move(if session then ReadSessionTicket else ReadServerCertificate, session, c.certRequest,
               w.ticketExpected, Take(m), Ok)
  }

  function DoReadServerCertificate(w: World, c: Client, msg: Option<Msg>): (move: Move)
    requires c.state == ReadServerCertificate
    ensures Reading(w, c, msg, move)
  {
    if !w.certAuth then Skip(w, c, ReadCertificateStatus)
    else Receive(w, c, msg, Certificate, ReadCertificateStatus)
  }

  function DoReadCertificateStatus(w: World, c: Client, msg: Option<Msg>): (move: Move)
    requires c.state == ReadCertificateStatus
    ensures Reading(w, c, msg, move)
  {
    if !w.statusExpected || (msg.Some? && msg.value.typ != CertificateStatus)
    then Skip(w, c, VerifyServerCertificate)
    else Receive(w, c, msg, CertificateStatus, VerifyServerCertificate)
  }

  function DoVerifyServerCertificate(w: World, c: Client, now: Now): (move: Move)
    requires c.state == VerifyServerCertificate
    ensures Local(w, c, move)
  {
    if !w.certAuth then Skip(w, c, ReadServerKeyExchange)
    else if !now.verified then Pause(w, c, CertificateVerifyPending)
    else if !w.verifies then Fail(w, c)
    else Go(c, ReadServerKeyExchange, PeerVerified, Ok)
  }

  function DoReadServerKeyExchange(w: World, c: Client, msg: Option<Msg>): (move: Move)
    requires c.state == ReadServerKeyExchange
    ensures Reading(w, c, msg, move)
  {
    if msg.Some? && msg.value.typ != ServerKeyExchange then
      if w.needsKeyExchange then Fail(w, c) else Skip(w, c, ReadCertificateRequest)
    else Receive(w, c, msg, ServerKeyExchange, ReadCertificateRequest)
  }

  function DoReadCertificateRequest(w: World, c: Client, msg: Option<Msg>): (move: Move)
    requires c.state == ReadCertificateRequest
    ensures Reading(w, c, msg, move)
  {
    if !w.certAuth || (msg.Some? && msg.value.typ == ServerHelloDone) then Skip(w, c, ReadServerHelloDone)
    else
      var read := Receive(w, c, msg, CertificateRequest, ReadServerHelloDone);
      if read.act.Take? then read.(certRequest := true) else read
  }

  function DoReadServerHelloDone(w: World, c: Client, msg: Option<Msg>): (move: Move)
    requires c.state == ReadServerHelloDone
    ensures Reading(w, c, msg, move)
  {
    Receive(w, c, msg, ServerHelloDone, SendClientCertificate)
  }

  function DoSendClientCertificate(w: World, c: Client, now: Now): (move: Move)
    requires c.state == SendClientCertificate
    ensures Local(w, c, move)
  {
    hide Sound;
    if !c.certRequest then Skip(w, c, SendClientKeyExchange)
    else if w.certCallback && !now.certificate then Pause(w, c, X509Lookup)
    else if !w.works(SendClientCertificate) then Fail(w, c)
    else EmitOne(w, c, Make(w, Certificate, c.log.transcript), SendClientKeyExchange)
  }

  function SentKeyExchange(w: World, c: Client): (move: Move)
    requires c.state == SendClientKeyExchange
    ensures Local(w, c, move)
  {
    var msg := Make(w, ClientKeyExchange, c.log.transcript);
    if !w.masterSecret then Go(c, c.state, Emit(msg), Error) else Go(c, SendClientCertificateVerify, Emit(msg), Ok)
  }

  function DoSendClientKeyExchange(w: World, c: Client): (move: Move)
    requires c.state == SendClientKeyExchange
    ensures Local(w, c, move)
  {
    hide Sound;
    if !w.works(SendClientKeyExchange) then Fail(w, c) else SentKeyExchange(w, c)
  }

  function DoSendClientCertificateVerify(w: World, c: Client, now: Now): (move: Move)
    requires c.state == SendClientCertificateVerify
    ensures Local(w, c, move)
  {
    hide Sound;
    if !c.certRequest || !w.hasCertificate then Skip(w, c, SendClientFinished)
    else if !now.privateKey then Pause(w, c, PrivateKeyOperation)
    else if !w.works(SendClientCertificateVerify) then Fail(w, c)
    else EmitOne(w, c, Make(w, CertificateVerify, c.log.transcript), SendClientFinished)
  }

  function MakeFinished(w: World, transcript: seq<Msg>): Msg { Msg(Finished, w.mac(false, transcript)) }

  /** NextProto and ChannelId, each on the transcript with what comes before it, and Finished over all of it. */
  function LastFlight(w: World, t: seq<Msg>): seq<Msg> {
    var proto, id := Make(w, NextProto, t), Make(w, ChannelId, t);
    if w.nextProto then
      if w.channelId then
        var id := Make(w, ChannelId, t + [proto]);
        [proto, id, MakeFinished(w, t + [proto, id])]
      else [proto, MakeFinished(w, t + [proto])]
    else if w.channelId then [id, MakeFinished(w, t + [id])]
    else [MakeFinished(w, t)]
  }

  lemma InOrderNone(rules: Rules, from: Place)
    ensures InOrder(rules, from, [], from.bound, from.bound)
  {
  }

  lemma LastFlightInOrder(w: World, transcript: seq<Msg>, from: Place)
    ensures InOrder(ClientRules(w), from, [], from.bound, from.bound)
    ensures InOrder(ClientRules(w), from, LastFlight(w, transcript), 5, 8)
  {
    hide InOrder;
    var rules, t := ClientRules(w), transcript;
    var proto, id := Make(w, NextProto, t), Make(w, ChannelId, t);
    var next := Make(w, ChannelId, t + [proto]);
    InOrderNone(rules, from);
    InOrderTwo(rules, from, proto, MakeFinished(w, t + [proto]), 5, 8);
    InOrderTwo(rules, from, id, MakeFinished(w, t + [id]), 5, 8);
    InOrderOne(rules, from, MakeFinished(w, t), 5, 8);
    InOrderThree(rules, from, proto, next, MakeFinished(w, t + [proto, next]), 5, 8);
  }

  lemma LastFlightIsLegal(w: World, t: seq<Msg>, session: bool)
    ensures Legal(ClientRules(w), t, PlaceOf(w, SendClientFinished, session, Going),
                  CloseFlight([], LastFlight(w, t)), PlaceOf(w, FinishFlight, session, Going))
  {
    LastFlightInOrder(w, t, PlaceOf(w, SendClientFinished, session, Going));
  }

  function NoWriteKey(w: World, c: Client): (move: Move)
    requires c.state == SendClientFinished
    ensures Local(w, c, move)
  {
    Go(c, c.state, CcsOnly([]), Error)
  }

  function SentFinished(w: World, c: Client): (move: Move)
    requires c.state == SendClientFinished
    ensures Local(w, c, move)
  {
    LastFlightIsLegal(w, c.log.transcript, c.session);
    hide InOrder, Legal;
    Go(c, FinishFlight, CloseFlight([], LastFlight(w, c.log.transcript)), Flush)
  }

  function DoSendClientFinished(w: World, c: Client, now: Now): (move: Move)
    requires c.state == SendClientFinished
    ensures Local(w, c, move)
  {
    hide Sound;
    if w.channelId && !now.channelId then Pause(w, c, ChannelIdLookup)
    else if !w.works(SendClientFinished) then Fail(w, c)
    else if !w.writeKey then NoWriteKey(w, c)
    else SentFinished(w, c)
  }

  function FalseStart(w: World, c: Client): (move: Move)
    requires c.state == FinishFlight && !c.session
    ensures Local(w, c, move)
  {
    Go(c, ReadSessionTicket, Nothing, if w.falseStart then EarlyReturn else Ok)
  }

  function DoFinishFlight(w: World, c: Client): (move: Move)
    requires c.state == FinishFlight
    ensures Local(w, c, move)
  {
    hide Sound;
    if c.session then Skip(w, c, FinishClientHandshake)
    else if !w.works(FinishFlight) then Fail(w, c)
    else FalseStart(w, c)
  }

  function TakeTicket(w: World, c: Client, m: Msg): (move: Move)
    requires c.state == ReadSessionTicket
    ensures Reading(w, c, Some(m), move)
  {
    Move(ProcessChangeCipherSpec, c.session, c.certRequest, |m.body| != 6, Take(m), ReadChangeCipherSpec)
  }

  function NoTicket(w: World, c: Client): (move: Move)
    requires c.state == ReadSessionTicket
    ensures Local(w, c, move)
  {
    Go(c, ProcessChangeCipherSpec, Nothing, ReadChangeCipherSpec)
  }

  /** An empty ticket clears hs->ticket_expected; a lifetime hint and a length are six bytes. */
  function DoReadSessionTicket(w: World, c: Client, msg: Option<Msg>): (move: Move)
    requires c.state == ReadSessionTicket
    ensures Reading(w, c, msg, move)
  {
    hide Sound;
    if !c.ticketExpected then NoTicket(w, c)
    else match msg
      case None => Pause(w, c, ReadMessage)
      case Some(m) =>
        if m.typ != NewSessionTicket then Fail(w, c)
        else if !w.accepts(m, c.log.transcript) then Refuse(w, c, m)
        else TakeTicket(w, c, m)
  }

  function DoProcessChangeCipherSpec(w: World, c: Client): (move: Move)
    requires c.state == ProcessChangeCipherSpec
    ensures Local(w, c, move)
  {
    if !w.works(ProcessChangeCipherSpec) then Fail(w, c) else Go(c, ReadServerFinished, ChangeRead, Ok)
  }

  /** ssl_get_finished: the MAC is of the transcript before the message, which is hashed, compared and released. */
  function DoReadServerFinished(w: World, c: Client, msg: Option<Msg>): (move: Move)
    requires c.state == ReadServerFinished
    ensures Reading(w, c, msg, move)
  {
    match msg
    case None => Pause(w, c, ReadMessage)
    case Some(m) =>
      if m.typ != Finished then Fail(w, c)
      else if m.body != w.mac(true, c.log.transcript) then Refuse(w, c, m)
      else Go(c, if c.session then SendClientFinished else FinishClientHandshake, TakeFinished(m), Ok)
  }

  function DoFinishClientHandshake(w: World, c: Client): (move: Move)
    requires c.state == FinishClientHandshake
    ensures Local(w, c, move)
  {
    if w.works(FinishClientHandshake) then Skip(w, c, Done) else Fail(w, c)
  }

  /** The switch in ssl_client_handshake. */
  function Decide(w: World, c: Client, now: Now, msg: Option<Msg>): (move: Move)
    ensures c.state != Done ==> Reading(w, c, msg, move)
  {
    match c.state
    case StartConnect => DoStartConnect(w, c)
    case EnterEarlyData => DoEnterEarlyData(w, c)
    case ReadHelloVerifyRequest => DoReadHelloVerifyRequest(w, c, msg)
    case ReadServerHelloState => DoReadServerHello(w, c, msg)
    case ReadServerCertificate => DoReadServerCertificate(w, c, msg)
    case ReadCertificateStatus => DoReadCertificateStatus(w, c, msg)
    case VerifyServerCertificate => DoVerifyServerCertificate(w, c, now)
    case ReadServerKeyExchange => DoReadServerKeyExchange(w, c, msg)
    case ReadCertificateRequest => DoReadCertificateRequest(w, c, msg)
    case ReadServerHelloDone => DoReadServerHelloDone(w, c, msg)
    case SendClientCertificate => DoSendClientCertificate(w, c, now)
    case SendClientKeyExchange => DoSendClientKeyExchange(w, c)
    case SendClientCertificateVerify => DoSendClientCertificateVerify(w, c, now)
    case SendClientFinished => DoSendClientFinished(w, c, now)
    case FinishFlight => DoFinishFlight(w, c)
    case ReadSessionTicket => DoReadSessionTicket(w, c, msg)
    case ProcessChangeCipherSpec => DoProcessChangeCipherSpec(w, c)
    case ReadServerFinished => DoReadServerFinished(w, c, msg)
    case FinishClientHandshake => DoFinishClientHandshake(w, c)
    case Done => Go(c, Done, Nothing, Ok)
  }

  /** One turn of ssl_client_handshake's loop. */
  function ClientStep(w: World, c: Client, now: Now, msg: Option<Msg>): Step<Client> {
    var move := Decide(w, c, now, msg);
    Step(Client(move.state, move.session, move.certRequest, move.ticketExpected, Perform(c.log, move.act)),
         move.wait, Releases(move.act))
  }

  function MachineOf(w: World): Machine<Client> {
    Machine((c: Client, now: Now, msg: Option<Msg>) => ClientStep(w, c, now, msg), (c: Client) => c.state == Done,
            (c: Client) => c.(log := Apply(c.log, GotCcs)))
  }

  // Pauses.

  lemma AnyState(s: State)
    ensures s == StartConnect || s == EnterEarlyData || s == ReadHelloVerifyRequest || s == ReadServerHelloState
         || s == ReadServerCertificate || s == ReadCertificateStatus || s == VerifyServerCertificate
         || s == ReadServerKeyExchange || s == ReadCertificateRequest || s == ReadServerHelloDone
         || s == SendClientCertificate || s == SendClientKeyExchange || s == SendClientCertificateVerify
         || s == SendClientFinished || s == FinishFlight || s == ReadSessionTicket || s == ProcessChangeCipherSpec
         || s == ReadServerFinished || s == FinishClientHandshake || s == Done
  {
  }

  /** Every turn either comes back for an answer with nothing changed, or does what it does when all is there. */
  lemma PausesOrGoes(w: World, c: Client, now: Now, msg: Option<Msg>, next: Option<Msg>)
    requires msg == None || msg == next
    ensures IsPause(c, Decide(w, c, now, msg)) || Decide(w, c, now, msg) == Decide(w, c, READY, next)
  {
    AnyState(c.state);
  }

  /** The states that cannot go on without a message. */
  predicate Asks(w: World, c: Client) {
    match c.state
    case ReadServerCertificate => w.certAuth
    case ReadCertificateStatus => w.statusExpected
    case ReadCertificateRequest => w.certAuth
    case ReadSessionTicket => c.ticketExpected
    case ReadHelloVerifyRequest => true
    case ReadServerHelloState => true
    case ReadServerKeyExchange => true
    case ReadServerHelloDone => true
    case ReadServerFinished => true
    case _ => false
  }

  lemma AsksForMessage(w: World, c: Client, now: Now)
    ensures Reads(Decide(w, c, now, None).wait) == Asks(w, c)
    ensures Asks(w, c) ==>
              Decide(w, c, now, None)
              == Go(c, c.state, Nothing, if c.state == ReadServerHelloState then ReadServerHello else ReadMessage)
  {
    hide Sound, PlaceOf, Rank, Sane, LastFlight, Make, Legal, LegalError;
    AnyState(c.state);
  }

  /** The states a message at hand is left in: those that look at it, and those on the way to them. */
  predicate Looks(w: World, c: Client) {
    Asks(w, c) || c.state == ReadServerCertificate || c.state == ReadCertificateStatus
    || c.state == VerifyServerCertificate || c.state == ReadCertificateRequest
  }

  predicate Late(c: Client) {
    c.state == SendClientCertificate || c.state == SendClientKeyExchange
    || c.state == SendClientCertificateVerify || c.state == SendClientFinished || c.state == FinishFlight
    || c.state == ReadSessionTicket || c.state == ProcessChangeCipherSpec || c.state == ReadServerFinished
    || c.state == FinishClientHandshake || c.state == Done
  }

  lemma EarlyReady(w: World, c: Client, msg: Option<Msg>)
    requires !Late(c)
    ensures IsPause(c, Decide(w, c, READY, msg)) ==> Reads(Decide(w, c, READY, msg).wait)
  {
    hide Sound, PlaceOf, Rank, Sane, LastFlight, Make, Legal, LegalError;
    AnyState(c.state);
  }

  lemma LateReady(w: World, c: Client, msg: Option<Msg>)
    requires Late(c)
    ensures IsPause(c, Decide(w, c, READY, msg)) ==> Reads(Decide(w, c, READY, msg).wait)
  {
    hide Sound, PlaceOf, Rank, Sane, LastFlight, Make, Legal, LegalError;
    AnyState(c.state);
  }

  /** With every answer ready only a missing message makes a turn pause. */
  lemma ReadyWaitsForMessages(w: World, c: Client, msg: Option<Msg>)
    ensures IsPause(c, Decide(w, c, READY, msg)) ==> Reads(Decide(w, c, READY, msg).wait)
  {
    hide Decide;
    if Late(c) { LateReady(w, c, msg); } else { EarlyReady(w, c, msg); }
  }

  /** A message that the turn leaves at hand is left for a state that looks at it. */
  predicate LeftRight(w: World, c: Client, move: Move) {
    move.wait != Error && !Releases(move.act)
    ==> Looks(w, Client(move.state, move.session, move.certRequest, move.ticketExpected, c.log))
        && move.wait != ReadChangeCipherSpec
  }

  lemma EarlyLeft(w: World, c: Client, msg: Msg)
    requires Looks(w, c) && !Late(c)
    ensures LeftRight(w, c, Decide(w, c, READY, Some(msg)))
  {
    hide Sound, PlaceOf, Rank, Sane, LastFlight, Make, Legal, LegalError;
    AnyState(c.state);
  }

  lemma LateLeft(w: World, c: Client, msg: Msg)
    requires Looks(w, c) && Late(c)
    ensures LeftRight(w, c, Decide(w, c, READY, Some(msg)))
  {
    hide Sound, PlaceOf, Rank, Sane, LastFlight, Make, Legal, LegalError;
    AnyState(c.state);
  }

  lemma LeftForLater(w: World, c: Client, msg: Msg)
    requires Looks(w, c)
    ensures LeftRight(w, c, Decide(w, c, READY, Some(msg)))
  {
    hide Decide, LeftRight;
    if Late(c) { LateLeft(w, c, msg); } else { EarlyLeft(w, c, msg); }
  }
}
