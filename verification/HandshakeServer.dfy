/** The server's handshake below TLS 1.3 (handshake_server.cc), on values: full and resumed, with all its pause
    points. The class is in HandshakeServerClass. */
module HandshakeServer {
  import opened Bytes
  import opened HandshakeDriver
  import opened HandshakeLog

  datatype State =
    | StartAccept | ReadClientHello | SelectCertificate | SelectParameters | SendServerHello | SendServerCertificate
    | SendServerKeyExchange | SendServerHelloDone | ReadClientCertificate | VerifyClientCertificate
    | ReadClientKeyExchange | ReadClientCertificateVerify | ReadChangeCipherSpecState | ProcessChangeCipherSpec
    | ReadNextProto | ReadChannelId | ReadClientFinished | SendServerFinished | FinishServerHandshake | Done

  /**
   What does not depend on the machine: configuration, negotiation, and the outcome of every callback, parse and
   cryptographic operation (works for local operations in a state, accepts for a message read on a transcript;
   keyShare, helloDone, masterSecret, writeKey and keepsHashes for what comes after messages are queued, hashed or
   released). sendsTicket: tickets are supported and the ClientHello has one.
   */
  datatype World = World(resumes: bool, certAuth: bool, rsa: bool, sendsKeyExchange: bool, statusExpected: bool,
                         asksCertificate: bool, ticketExpected: bool, nextProto: bool, channelId: bool,
                         selectCallback: bool, certCallback: bool, sendsTicket: bool, sessionCallback: bool,
                         ticketCallback: bool,
                         works: State -> bool, accepts: (Msg, seq<Msg>) -> bool, presents: Msg -> bool, verifies: bool,
                         keyShare: bool, helloDone: bool, masterSecret: bool, writeKey: bool, keepsHashes: bool,
                         body: (MsgType, seq<Msg>) -> seq<byte>, mac: (bool, seq<Msg>) -> seq<byte>)

  /**
   hs->state, whether ssl->session is set, hs->cert_request, whether the client presented a certificate, whether
   hs->server_params is to be sent, and the log.
   */
  datatype Server = Server(state: State, session: bool, certRequest: bool, peerCert: bool, params: bool, log: Log)

  const START := Server(StartAccept, false, false, false, false, EMPTY)

  /** What a do_* function does: the fields it leaves, its act, its return. */
  datatype Move = Move(state: State, session: bool, certRequest: bool, peerCert: bool, params: bool, act: Act,
                       wait: Wait)

  function Go(c: Server, state: State, act: Act, wait: Wait): Move {
    Move(state, c.session, c.certRequest, c.peerCert, c.params, act, wait)
  }

  // The order of the server's flights, and what must have happened by each state.

  function ServerOrder(o: Outgoing): nat {
    if o == Ccs then 7
    else match o.msg.typ
      case ServerHello => 0 case Certificate => 1 case CertificateStatus => 2 case ServerKeyExchange => 3
      case CertificateRequest => 4 case ServerHelloDone => 5 case NewSessionTicket => 6 case Finished => 8
      case _ => 9
  }

  /** In a full handshake the server queues its Finished only after the client's has matched. */
  function ServerRules(w: World): Rules {
    Rules(ServerOrder, (t: seq<Msg>) => w.mac(false, t), false, !w.resumes)
  }

  function PlaceOf(state: State, session: bool, phase: Phase): Place {
    match state
    case StartAccept => Place(0, 0, false)
    case ReadClientHello => Place(0, 0, false)
    case SelectCertificate => Place(0, 0, false)
    case SelectParameters => Place(0, 0, false)
    case SendServerHello => Place(0, 0, false)
    case SendServerCertificate => Place(0, 1, false)
    case SendServerKeyExchange => Place(0, 3, false)
    case SendServerHelloDone => Place(0, 4, false)
    case SendServerFinished => Place(if session then 0 else 3, 6, false)
    case ReadChangeCipherSpecState => Place(0, if session then 9 else 6, false)
    case ProcessChangeCipherSpec => Place(if phase == WantsCcs then 0 else 1, if session then 9 else 6, false)
    case ReadNextProto => Place(2, if session then 9 else 6, false)
    case ReadChannelId => Place(2, if session then 9 else 6, false)
    case ReadClientFinished => Place(2, if session then 9 else 6, false)
    case FinishServerHandshake => Place(3, 9, false)
    case Done => Place(3, 9, false)
    case _ => Place(0, 6, false)
  }

  /** How many states may still come; a resumed handshake sends its Finished first. */
  function Rank(state: State, session: bool): nat {
    match state
    case StartAccept => 20 case ReadClientHello => 19 case SelectCertificate => 18 case SelectParameters => 17
    case SendServerHello => 16 case SendServerCertificate => 15 case SendServerKeyExchange => 14
    case SendServerHelloDone => 13 case ReadClientCertificate => 12 case VerifyClientCertificate => 11
    case ReadClientKeyExchange => 10 case ReadClientCertificateVerify => 9
    case SendServerFinished => if session then 8 else 2
    case ReadChangeCipherSpecState => 7 case ProcessChangeCipherSpec => 6 case ReadNextProto => 5
    case ReadChannelId => 4 case ReadClientFinished => 3
    case FinishServerHandshake => 1
    case Done => 0
  }

  /** A session is only there if one is resumed, and some states only come in a full handshake. */
  predicate Sane(w: World, state: State, session: bool) {
    && (session ==> w.resumes)
    && match state
       case SendServerCertificate => !session
       case SendServerKeyExchange => !session
       case SendServerHelloDone => !session
       case ReadClientCertificate => !session
       case VerifyClientCertificate => !session
       case ReadClientKeyExchange => !session
       case ReadClientCertificateVerify => !session
       case _ => true
  }

  /** Nothing has changed, and the function is to be called again. */
  predicate IsPause(c: Server, move: Move) {
    move == Go(c, c.state, Nothing, move.wait) && (Reads(move.wait) || ForCaller(move.wait))
  }

  /**
   What every do_* function owes: a turn that does not fail or pause has fewer states before it, and only a turn
   that goes on reaches the end; its act is allowed by the protocol where it happens and leads to where the next
   state expects to be.
   */
  ghost predicate Sound(w: World, c: Server, move: Move) {
    && (move.wait == Error || IsPause(c, move) || Rank(move.state, move.session) < Rank(c.state, c.session))
    && (move.state == Done ==> move.wait == Ok)
    && (move.wait == ReadChangeCipherSpec ==> move.state == ProcessChangeCipherSpec)
    && var from := PlaceOf(c.state, c.session, Going);
       if move.wait == Error then LegalError(ServerRules(w), c.log.transcript, from, move.act)
       else Sane(w, c.state, c.session) ==>
         && Sane(w, move.state, move.session)
         && Legal(ServerRules(w), c.log.transcript, from, move.act,
                  PlaceOf(move.state, move.session, PhaseOf(move.wait)))
  }

  /** A turn that has nothing to do with messages from the peer. */
  ghost predicate Local(w: World, c: Server, move: Move) {
    Sound(w, c, move) && !Releases(move.act) && !Reads(move.wait)
  }

  /** A turn that may need a message: it asks for none that is there, and releases only the one that is. */
  ghost predicate Reading(w: World, c: Server, msg: Option<Msg>, move: Move) {
    Sound(w, c, move) && (msg.Some? ==> !Reads(move.wait)) && (Releases(move.act) ==> msg == Some(move.act.msg))
  }

  // Returns of the do_* functions.

  /** To be called again. */
  function Pause(w: World, c: Server, wait: Wait): (move: Move)
    requires c.state != Done && (Reads(wait) || ForCaller(wait))
    ensures Sound(w, c, move) && !Releases(move.act)
  {
    Go(c, c.state, Nothing, wait)
  }

  function Fail(w: World, c: Server): (move: Move)
    requires c.state != Done
    ensures Local(w, c, move)
  {
    Go(c, c.state, Nothing, Error)
  }

  /** The next state asks for no more than this one. */
  ghost predicate Leads(w: World, c: Server, next: State) {
    && Rank(next, c.session) < Rank(c.state, c.session) && c.state != Done
    && PlaceOf(next, c.session, Going).key == PlaceOf(c.state, c.session, Going).key
    && PlaceOf(next, c.session, Going).bound >= PlaceOf(c.state, c.session, Going).bound
    && (Sane(w, c.state, c.session) ==> Sane(w, next, c.session))
  }

  function Skip(w: World, c: Server, next: State): (move: Move)
    requires Leads(w, c, next)
    ensures Local(w, c, move)
  {
    Go(c, next, Nothing, Ok)
  }

  /** A message that was hashed and then refused. */
  function Refuse(w: World, c: Server, m: Msg): (move: Move)
    requires c.state != Done
    ensures Local(w, c, move)
  {
    Go(c, c.state, HashOnly(m), Error)
  }

  /** A message of this type that is hashed, parsed and released. */
  function Receive(w: World, c: Server, msg: Option<Msg>, typ: MsgType, next: State): (move: Move)
    requires Leads(w, c, next)
    ensures Reading(w, c, msg, move)
  {
    match msg
    case None => Pause(w, c, ReadMessage)
    case Some(m) =>
      if m.typ != typ then Fail(w, c)
      else if !w.accepts(m, c.log.transcript) then Refuse(w, c, m)
      else Go(c, next, Take(m), Ok)
  }

  /** A message that is checked before it is hashed, used and released. */
  function Check(w: World, c: Server, msg: Option<Msg>, typ: MsgType, used: bool, next: State): (move: Move)
    requires Leads(w, c, next)
    ensures Reading(w, c, msg, move)
  {
    match msg
    case None => Pause(w, c, ReadMessage)
    case Some(m) =>
      if m.typ != typ || !w.accepts(m, c.log.transcript) then Fail(w, c)
      else if !used then Refuse(w, c, m)
      else Go(c, next, Take(m), Ok)
  }

  /** A message queued on the way to the next state. */
  function EmitOne(w: World, c: Server, m: Msg, next: State): (move: Move)
    requires Rank(next, c.session) < Rank(c.state, c.session) && next != Done
    requires m.typ != Finished && m.typ != ClientKeyExchange && PlaceOf(next, c.session, Going).key == 0
    requires PlaceOf(c.state, c.session, Going).key == 0
    requires PlaceOf(c.state, c.session, Going).bound <= ServerOrder(Message(m)) < PlaceOf(next, c.session, Going).bound
    requires Sane(w, c.state, c.session) ==> Sane(w, next, c.session)
    ensures Local(w, c, move)
  {
    Go(c, next, Emit(m), Ok)
  }

  // The do_* functions.

  /** A message made on this transcript. */
  function Make(w: World, typ: MsgType, transcript: seq<Msg>): Msg { Msg(typ, w.body(typ, transcript)) }

  function DoStartAccept(w: World, c: Server): (move: Move)
    requires c.state == StartAccept
    ensures Local(w, c, move)
  {
    Skip(w, c, ReadClientHello)
  }

  /** The ClientHello is looked at in three states, and released in the last. */
  function DoReadClientHello(w: World, c: Server, now: Now, msg: Option<Msg>): (move: Move)
    requires c.state == ReadClientHello
    ensures Reading(w, c, msg, move)
  {
    hide Sound;
    match msg
    case None => Pause(w, c, ReadMessage)
    case Some(m) =>
      if m.typ != ClientHello then Fail(w, c)
      else if w.selectCallback && !now.selected then Pause(w, c, CertificateSelectionPending)
      else if !w.accepts(m, c.log.transcript) then Fail(w, c)
      else Skip(w, c, SelectCertificate)
  }

  function DoSelectCertificate(w: World, c: Server, now: Now, msg: Option<Msg>): (move: Move)
    requires c.state == SelectCertificate
    ensures Reading(w, c, msg, move)
  {
    if msg == None then Pause(w, c, ReadMessage)
    else if w.certCallback && !now.certificate then Pause(w, c, X509Lookup)
    else if !w.works(SelectCertificate) then Fail(w, c)
    else Skip(w, c, SelectParameters)
  }

  /** ssl_get_prev_session: a ClientHello with a ticket is not looked up in the session cache. */
  function PrevSession(w: World, now: Now): Wait {
    if w.sendsTicket then if w.ticketCallback && !now.ticket then PendingTicket else Ok
    else if w.sessionCallback && !now.session then PendingSession else Ok
  }

  function Selected(w: World, c: Server, m: Msg): (move: Move)
    requires c.state == SelectParameters
    ensures Reading(w, c, Some(m), move)
  {
    Move(SendServerHello, w.resumes, !w.resumes && w.asksCertificate && w.certAuth, c.peerCert, c.params, Take(m), Ok)
  }

  function DoSelectParameters(w: World, c: Server, now: Now, msg: Option<Msg>): (move: Move)
    requires c.state == SelectParameters
    ensures Reading(w, c, msg, move)
  {
    hide Sound;
    match msg
    case None => Pause(w, c, ReadMessage)
    case Some(m) =>
      if PrevSession(w, now) != Ok then Pause(w, c, PrevSession(w, now))
      else if !w.works(SelectParameters) then Fail(w, c)
      else Selected(w, c, m)
  }

  function DoSendServerHello(w: World, c: Server): (move: Move)
    requires c.state == SendServerHello
    ensures Local(w, c, move)
  {
    if !w.works(SendServerHello) then Fail(w, c)
    else EmitOne(w, c, Make(w, ServerHello, c.log.transcript),
                 if c.session then SendServerFinished else SendServerCertificate)
  }

  function CertificateFlight(w: World, t: seq<Msg>): seq<Msg> {
    var m := Make(w, Certificate, t);
    if !w.certAuth then [] else if w.statusExpected then [m, Make(w, CertificateStatus, t + [m])] else [m]
  }

  lemma CertificateFlightInOrder(w: World, t: seq<Msg>, from: Place)
    ensures InOrder(ServerRules(w), from, CertificateFlight(w, t), 1, 3)
  {
  }

  function DoSendServerCertificate(w: World, c: Server): (move: Move)
    requires c.state == SendServerCertificate
    ensures Local(w, c, move)
  {
    if !w.works(SendServerCertificate) then Fail(w, c)
    else
      CertificateFlightInOrder(w, c.log.transcript, PlaceOf(c.state, c.session, Going));
      var act := EmitAll(CertificateFlight(w, c.log.transcript));
      if w.sendsKeyExchange && !w.keyShare then Go(c, c.state, act, Error)
      else Go(c, SendServerKeyExchange, act, Ok).(params := w.sendsKeyExchange)
  }

  function SentKeyExchange(w: World, c: Server): (move: Move)
    requires c.state == SendServerKeyExchange
    ensures Local(w, c, move)
  {
    EmitOne(w, c, Make(w, ServerKeyExchange, c.log.transcript), SendServerHelloDone).(params := false)
  }

  function DoSendServerKeyExchange(w: World, c: Server, now: Now): (move: Move)
    requires c.state == SendServerKeyExchange
    ensures Local(w, c, move)
  {
    hide Sound;
    if !c.params then Skip(w, c, SendServerHelloDone)
    else if w.certAuth && !now.privateKey then Pause(w, c, PrivateKeyOperation)
    else if !w.works(SendServerKeyExchange) then Fail(w, c)
    else SentKeyExchange(w, c)
  }

  function HelloDoneFlight(w: World, certRequest: bool, t: seq<Msg>): seq<Msg> {
    var m := Make(w, CertificateRequest, t);
    if certRequest then [m, Make(w, ServerHelloDone, t + [m])] else [Make(w, ServerHelloDone, t)]
  }

  lemma HelloDoneFlightInOrder(w: World, certRequest: bool, t: seq<Msg>, from: Place)
    ensures InOrder(ServerRules(w), from, HelloDoneFlight(w, certRequest, t), 4, 6)
  {
  }

  function SentHelloDone(w: World, c: Server): (move: Move)
    requires c.state == SendServerHelloDone
    ensures Local(w, c, move)
  {
    HelloDoneFlightInOrder(w, c.certRequest, c.log.transcript, PlaceOf(c.state, c.session, Going));
    hide InOrder;
    Go(c, ReadClientCertificate, EmitAll(HelloDoneFlight(w, c.certRequest, c.log.transcript)), Flush)
  }

  function NoHelloDone(w: World, c: Server): (move: Move)
    requires c.state == SendServerHelloDone
    ensures Local(w, c, move)
  {
    Go(c, c.state, Emit(Make(w, CertificateRequest, c.log.transcript)), Error)
  }

  function DoSendServerHelloDone(w: World, c: Server): (move: Move)
    requires c.state == SendServerHelloDone
    ensures Local(w, c, move)
  {
    hide Sound;
    if !w.works(SendServerHelloDone) then Fail(w, c)
    else if c.certRequest && !w.helloDone then NoHelloDone(w, c)
    else SentHelloDone(w, c)
  }

  function DoReadClientCertificate(w: World, c: Server, msg: Option<Msg>): (move: Move)
    requires c.state == ReadClientCertificate
    ensures Reading(w, c, msg, move)
  {
    if !c.certRequest then Skip(w, c, VerifyClientCertificate)
    else
      var read := Receive(w, c, msg, Certificate, VerifyClientCertificate);
      if read.act.Take? then read.(peerCert := w.presents(msg.value)) else read
  }

  function PeerIsVerified(w: World, c: Server): (move: Move)
    requires c.state == VerifyClientCertificate
    ensures Local(w, c, move)
  {
    Go(c, ReadClientKeyExchange, PeerVerified, Ok)
  }

  function DoVerifyClientCertificate(w: World, c: Server, now: Now): (move: Move)
    requires c.state == VerifyClientCertificate
    ensures Local(w, c, move)
  {
    hide Sound;
    if !c.peerCert then Skip(w, c, ReadClientKeyExchange)
    else if !now.verified then Pause(w, c, CertificateVerifyPending)
    else if !w.verifies then Fail(w, c)
    else PeerIsVerified(w, c)
  }

  /** The message is parsed and, for RSA, decrypted before it is hashed. */
  function DoReadClientKeyExchange(w: World, c: Server, now: Now, msg: Option<Msg>): (move: Move)
    requires c.state == ReadClientKeyExchange
    ensures Reading(w, c, msg, move)
  {
    hide Sound;
    if msg.Some? && msg.value.typ == ClientKeyExchange && w.rsa && !now.privateKey then
      Pause(w, c, PrivateKeyOperation)
    else Check(w, c, msg, ClientKeyExchange, w.masterSecret, ReadClientCertificateVerify)
  }

  function DoReadClientCertificateVerify(w: World, c: Server, msg: Option<Msg>): (move: Move)
    requires c.state == ReadClientCertificateVerify
    ensures Reading(w, c, msg, move)
  {
    if !c.peerCert then Skip(w, c, ReadChangeCipherSpecState)
    else Check(w, c, msg, CertificateVerify, true, ReadChangeCipherSpecState)
  }

  function DoReadChangeCipherSpec(w: World, c: Server): (move: Move)
    requires c.state == ReadChangeCipherSpecState
    ensures Local(w, c, move)
  {
    Go(c, ProcessChangeCipherSpec, Nothing, ReadChangeCipherSpec)
  }

  function DoProcessChangeCipherSpec(w: World, c: Server): (move: Move)
    requires c.state == ProcessChangeCipherSpec
    ensures Local(w, c, move)
  {
    if !w.works(ProcessChangeCipherSpec) then Fail(w, c) else Go(c, ReadNextProto, ChangeRead, Ok)
  }

  function DoReadNextProto(w: World, c: Server, msg: Option<Msg>): (move: Move)
    requires c.state == ReadNextProto
    ensures Reading(w, c, msg, move)
  {
    if !w.nextProto then Skip(w, c, ReadChannelId) else Receive(w, c, msg, NextProto, ReadChannelId)
  }

  function DoReadChannelId(w: World, c: Server, msg: Option<Msg>): (move: Move)
    requires c.state == ReadChannelId
    ensures Reading(w, c, msg, move)
  {
    if !w.channelId then Skip(w, c, ReadClientFinished) else Check(w, c, msg, ChannelId, true, ReadClientFinished)
  }

  /** In a full handshake with a channel ID its hashes are kept, once the Finished is released. */
  function AfterFinished(w: World, c: Server, m: Msg): (move: Move)
    requires c.state == ReadClientFinished && !c.session
    requires m.typ == Finished && m.body == w.mac(false, c.log.transcript)
    ensures Sound(w, c, move) && move.act == TakeFinished(m) && !Reads(move.wait)
  {
    Go(c, SendServerFinished, TakeFinished(m), if !w.channelId || w.keepsHashes then Ok else Error)
  }

  /** ssl_get_finished: the MAC is of the transcript before the message, which is hashed, compared and released. */
  function DoReadClientFinished(w: World, c: Server, msg: Option<Msg>): (move: Move)
    requires c.state == ReadClientFinished
    ensures Reading(w, c, msg, move)
  {
    match msg
    case None => Pause(w, c, ReadMessage)
    case Some(m) =>
      if m.typ != Finished then Fail(w, c)
      else if m.body != w.mac(false, c.log.transcript) then Refuse(w, c, m)
      else if c.session then Go(c, FinishServerHandshake, TakeFinished(m), Ok)
      else AfterFinished(w, c, m)
  }

  function Ticket(w: World, t: seq<Msg>): seq<Msg> {
    if w.ticketExpected then [Make(w, NewSessionTicket, t)] else []
  }

  lemma TicketInOrder(w: World, t: seq<Msg>, from: Place)
    ensures InOrder(ServerRules(w), from, Ticket(w, t), 6, 7)
  {
  }

  function FinishedFlight(w: World, t: seq<Msg>): seq<Msg> {
    [Msg(Finished, w.mac(true, t + Ticket(w, t)))]
  }

  lemma FinishedInOrder(w: World, t: seq<Msg>, from: Place)
    requires !w.resumes ==> from.key == 3
    ensures InOrder(ServerRules(w), from, FinishedFlight(w, t), 8, 9)
  {
  }

  lemma FinishedFlightIsLegal(w: World, t: seq<Msg>, session: bool)
    ensures Sane(w, SendServerFinished, session) ==>
              Legal(ServerRules(w), t, PlaceOf(SendServerFinished, session, Going),
                    CloseFlight(Ticket(w, t), FinishedFlight(w, t)),
                    PlaceOf(if session then ReadChangeCipherSpecState else FinishServerHandshake, session, Going))
  {
    if Sane(w, SendServerFinished, session) {
      hide InOrder, Ticket, FinishedFlight;
      TicketInOrder(w, t, PlaceOf(SendServerFinished, session, Going));
      FinishedInOrder(w, t, PlaceOf(SendServerFinished, session, Going));
    }
  }

  function NoWriteKey(w: World, c: Server): (move: Move)
    requires c.state == SendServerFinished
    ensures Local(w, c, move)
  {
    TicketInOrder(w, c.log.transcript, PlaceOf(c.state, c.session, Going));
    Go(c, c.state, CcsOnly(Ticket(w, c.log.transcript)), Error)
  }

  function SentFinished(w: World, c: Server): (move: Move)
    requires c.state == SendServerFinished
    ensures Local(w, c, move)
  {
    FinishedFlightIsLegal(w, c.log.transcript, c.session);
    hide InOrder, Legal;
    Go(c, if c.session then ReadChangeCipherSpecState else FinishServerHandshake,
       CloseFlight(Ticket(w, c.log.transcript), FinishedFlight(w, c.log.transcript)), Flush)
  }

  function DoSendServerFinished(w: World, c: Server): (move: Move)
    requires c.state == SendServerFinished
    ensures Local(w, c, move)
  {
    hide Sound;
    if !w.works(SendServerFinished) then Fail(w, c)
    else if !w.writeKey then NoWriteKey(w, c)
    else SentFinished(w, c)
  }

  function DoFinishServerHandshake(w: World, c: Server): (move: Move)
    requires c.state == FinishServerHandshake
    ensures Local(w, c, move)
  {
    Skip(w, c, Done)
  }

  /** The switch in ssl_server_handshake. */
  function Decide(w: World, c: Server, now: Now, msg: Option<Msg>): (move: Move)
    ensures c.state != Done ==> Reading(w, c, msg, move)
  {
    match c.state
    case StartAccept => DoStartAccept(w, c)
    case ReadClientHello => DoReadClientHello(w, c, now, msg)
    case SelectCertificate => DoSelectCertificate(w, c, now, msg)
    case SelectParameters => DoSelectParameters(w, c, now, msg)
    case SendServerHello => DoSendServerHello(w, c)
    case SendServerCertificate => DoSendServerCertificate(w, c)
    case SendServerKeyExchange => DoSendServerKeyExchange(w, c, now)
    case SendServerHelloDone => DoSendServerHelloDone(w, c)
    case ReadClientCertificate => DoReadClientCertificate(w, c, msg)
    case VerifyClientCertificate => DoVerifyClientCertificate(w, c, now)
    case ReadClientKeyExchange => DoReadClientKeyExchange(w, c, now, msg)
    case ReadClientCertificateVerify => DoReadClientCertificateVerify(w, c, msg)
    case ReadChangeCipherSpecState => DoReadChangeCipherSpec(w, c)
    case ProcessChangeCipherSpec => DoProcessChangeCipherSpec(w, c)
    case ReadNextProto => DoReadNextProto(w, c, msg)
    case ReadChannelId => DoReadChannelId(w, c, msg)
    case ReadClientFinished => DoReadClientFinished(w, c, msg)
    case SendServerFinished => DoSendServerFinished(w, c)
    case FinishServerHandshake => DoFinishServerHandshake(w, c)
    case Done => Go(c, Done, Nothing, Ok)
  }

  /** One turn of ssl_server_handshake's loop. */
  function ServerStep(w: World, c: Server, now: Now, msg: Option<Msg>): Step<Server> {
    var move := Decide(w, c, now, msg);
    Step(Server(move.state, move.session, move.certRequest, move.peerCert, move.params, Perform(c.log, move.act)),
         move.wait, Releases(move.act))
  }

  function MachineOf(w: World): Machine<Server> {
    Machine((c: Server, now: Now, msg: Option<Msg>) => ServerStep(w, c, now, msg), (c: Server) => c.state == Done,
            (c: Server) => c.(log := Apply(c.log, GotCcs)))
  }

  // Pauses.

  lemma AnyState(s: State)
    ensures s == StartAccept || s == ReadClientHello || s == SelectCertificate || s == SelectParameters
         || s == SendServerHello || s == SendServerCertificate || s == SendServerKeyExchange
         || s == SendServerHelloDone || s == ReadClientCertificate || s == VerifyClientCertificate
         || s == ReadClientKeyExchange || s == ReadClientCertificateVerify || s == ReadChangeCipherSpecState
         || s == ProcessChangeCipherSpec || s == ReadNextProto || s == ReadChannelId || s == ReadClientFinished
         || s == SendServerFinished || s == FinishServerHandshake || s == Done
  {
  }

  /** Every turn either comes back for an answer with nothing changed, or does what it does when all is there. */
  lemma PausesOrGoes(w: World, c: Server, now: Now, msg: Option<Msg>, next: Option<Msg>)
    requires msg == None || msg == next
    ensures IsPause(c, Decide(w, c, now, msg)) || Decide(w, c, now, msg) == Decide(w, c, READY, next)
  {
    AnyState(c.state);
  }

  /** The states that cannot go on without a message. */
  predicate Asks(w: World, c: Server) {
    match c.state
    case ReadClientHello => true
    case SelectCertificate => true
    case SelectParameters => true
    case ReadClientCertificate => c.certRequest
    case ReadClientKeyExchange => true
    case ReadClientCertificateVerify => c.peerCert
    case ReadNextProto => w.nextProto
    case ReadChannelId => w.channelId
    case ReadClientFinished => true
    case _ => false
  }

  lemma AsksForMessage(w: World, c: Server, now: Now)
    ensures Reads(Decide(w, c, now, None).wait) == Asks(w, c)
    ensures Asks(w, c) ==> Decide(w, c, now, None) == Go(c, c.state, Nothing, ReadMessage)
  {
    hide Sound, PlaceOf, Rank, Sane, Make, Legal, LegalError;
    hide CertificateFlight, HelloDoneFlight, FinishedFlight, Ticket;
    AnyState(c.state);
  }

  predicate Late(c: Server) {
    c.state == ReadChangeCipherSpecState || c.state == ProcessChangeCipherSpec || c.state == ReadNextProto
    || c.state == ReadChannelId || c.state == ReadClientFinished || c.state == SendServerFinished
    || c.state == FinishServerHandshake || c.state == Done
  }

  lemma EarlyReady(w: World, c: Server, msg: Option<Msg>)
    requires !Late(c)
    ensures IsPause(c, Decide(w, c, READY, msg)) ==> Reads(Decide(w, c, READY, msg).wait)
  {
    hide Sound, PlaceOf, Rank, Sane, Make, Legal, LegalError;
    hide CertificateFlight, HelloDoneFlight, FinishedFlight, Ticket;
    AnyState(c.state);
  }

  lemma LateReady(w: World, c: Server, msg: Option<Msg>)
    requires Late(c)
    ensures IsPause(c, Decide(w, c, READY, msg)) ==> Reads(Decide(w, c, READY, msg).wait)
  {
    hide Sound, PlaceOf, Rank, Sane, Make, Legal, LegalError;
    hide CertificateFlight, HelloDoneFlight, FinishedFlight, Ticket;
    AnyState(c.state);
  }

  /** With every answer ready only a missing message makes a turn pause. */
  lemma ReadyWaitsForMessages(w: World, c: Server, msg: Option<Msg>)
    ensures IsPause(c, Decide(w, c, READY, msg)) ==> Reads(Decide(w, c, READY, msg).wait)
  {
    hide Decide;
    if Late(c) { LateReady(w, c, msg); } else { EarlyReady(w, c, msg); }
  }

  /** A message that the turn leaves at hand is left for a state that looks at it. */
  predicate LeftRight(w: World, c: Server, move: Move) {
    move.wait != Error && !Releases(move.act)
    ==> Asks(w, Server(move.state, move.session, move.certRequest, move.peerCert, move.params, c.log))
        && move.wait != ReadChangeCipherSpec
  }

  lemma EarlyLeft(w: World, c: Server, msg: Msg)
    requires Asks(w, c) && !Late(c)
    ensures LeftRight(w, c, Decide(w, c, READY, Some(msg)))
  {
    hide Sound, PlaceOf, Rank, Sane, Make, Legal, LegalError;
    hide CertificateFlight, HelloDoneFlight, FinishedFlight, Ticket;
    AnyState(c.state);
  }

  lemma LateLeft(w: World, c: Server, msg: Msg)
    requires Asks(w, c) && Late(c)
    ensures LeftRight(w, c, Decide(w, c, READY, Some(msg)))
  {
    hide Sound, PlaceOf, Rank, Sane, Make, Legal, LegalError;
    hide CertificateFlight, HelloDoneFlight, FinishedFlight, Ticket;
    AnyState(c.state);
  }

  lemma LeftForLater(w: World, c: Server, msg: Msg)
    requires Asks(w, c)
    ensures LeftRight(w, c, Decide(w, c, READY, Some(msg)))
  {
    hide Decide, LeftRight;
    if Late(c) { LateLeft(w, c, msg); } else { EarlyLeft(w, c, msg); }
  }
}
