/**
 The server's handshake as the source has it (handshake_server.cc): each do_* function looks at the message and
 the answers at hand, changes fields, transcript and flight in place, one after the other, and returns what the
 handshake waits for. HandshakeServer specifies all of this on values.
 */
module HandshakeServerClass {
  import opened Bytes
  import opened HandshakeDriver
  import opened HandshakeLog
  import opened HandshakeConnection
  import Spec = HandshakeServer

  class ServerHandshake {
    const w: Spec.World
    const conn: Connection
    var state: Spec.State
    var session: bool
    var certRequest: bool
    var peerCert: bool
    var params: bool

    function Value(): Spec.Server
      reads this, conn
    {
      Spec.Server(state, session, certRequest, peerCert, params, conn.log)
    }

    /** The fields, the log and the current message are what the move makes of them. */
    ghost predicate Did(was: Spec.Server, msg: Option<Msg>, move: Spec.Move, ret: Wait)
      reads this, conn
    {
      && Value() == Spec.Server(move.state, move.session, move.certRequest, move.peerCert, move.params,
                                Perform(was.log, move.act))
      && conn.current == (if Releases(move.act) then None else msg) && ret == move.wait
    }

    constructor (w: Spec.World)
      ensures this.w == w && fresh(conn) && Value() == Spec.START && conn.current == None
    {
      this.w, state, session, certRequest := w, Spec.StartAccept, false, false;
      peerCert, params := false, false;
      conn := new Connection();
    }

    method DoStartAccept() returns (ret: Wait)
      requires state == Spec.StartAccept
      modifies this
      ensures Did(old(Value()), old(conn.current), Spec.DoStartAccept(w, old(Value())), ret)
    {
      hide Spec.Sound, Perform, Apply;
      PlainActs(conn.log);
      state := Spec.ReadClientHello;
      ret := Ok;
    }

    method DoReadClientHello(now: Now) returns (ret: Wait)
      requires state == Spec.ReadClientHello
      modifies this
      ensures Did(old(Value()), old(conn.current),
                  Spec.DoReadClientHello(w, old(Value()), now, old(conn.current)), ret)
    {
      hide Spec.Sound, Perform, Apply;
      PlainActs(conn.log);
      var found, msg := conn.GetMessage();
      if !found {
        return ReadMessage;
      }
      if msg.typ != ClientHello {
        return Error;
      }
      if w.selectCallback && !now.selected {
        return CertificateSelectionPending;
      }
      if !w.accepts(msg, conn.log.transcript) {
        return Error;
      }
      state := Spec.SelectCertificate;
      ret := Ok;
    }

    method DoSelectCertificate(now: Now) returns (ret: Wait)
      requires state == Spec.SelectCertificate
      modifies this
      ensures Did(old(Value()), old(conn.current),
                  Spec.DoSelectCertificate(w, old(Value()), now, old(conn.current)), ret)
    {
      hide Spec.Sound, Perform, Apply;
      PlainActs(conn.log);
      var found, _ := conn.GetMessage();
      if !found {
        return ReadMessage;
      }
      if w.certCallback && !now.certificate {
        return X509Lookup;
      }
      if !w.works(Spec.SelectCertificate) {
        return Error;
      }
      state := Spec.SelectParameters;
      ret := Ok;
    }

    method DoSelectParameters(now: Now) returns (ret: Wait)
      requires state == Spec.SelectParameters
      modifies this, conn
      ensures Did(old(Value()), old(conn.current),
                  Spec.DoSelectParameters(w, old(Value()), now, old(conn.current)), ret)
    {
      hide Spec.Sound, Spec.PrevSession, Perform, Apply;
      var found, msg := conn.GetMessage();
      SmallActs(conn.log, msg);
      if !found {
        return ReadMessage;
      }
      ret := GetPrevSession(now);
      if ret != Ok {
        return;
      }
      if !w.works(Spec.SelectParameters) {
        return Error;
      }
      session := w.resumes;
      certRequest := !session && w.asksCertificate && w.certAuth;
      conn.HashMessage(msg);
      conn.NextMessage();
      state := Spec.SendServerHello;
    }

    /** ssl_get_prev_session: the ticket may have to be waited for, or the session cache if there is none. */
    method GetPrevSession(now: Now) returns (ret: Wait)
      ensures ret == Ok || ret == PendingSession || ret == PendingTicket
      ensures ret == PendingTicket <==> w.sendsTicket && w.ticketCallback && !now.ticket
      ensures ret == PendingSession <==> !w.sendsTicket && w.sessionCallback && !now.session
      ensures ret == Spec.PrevSession(w, now)
    {
      if w.sendsTicket {
        if w.ticketCallback && !now.ticket {
          return PendingTicket;
        }
      } else {
        if w.sessionCallback && !now.session {
          return PendingSession;
        }
      }
      ret := Ok;
    }

    method DoSendServerHello() returns (ret: Wait)
      requires state == Spec.SendServerHello
      modifies this, conn
      ensures Did(old(Value()), old(conn.current), Spec.DoSendServerHello(w, old(Value())), ret)
    {
      hide Spec.Sound, Perform, Apply;
      PlainActs(conn.log);
      if !w.works(Spec.SendServerHello) {
        return Error;
      }
      Emit(ServerHello);
      state := if session then Spec.SendServerFinished else Spec.SendServerCertificate;
      ret := Ok;
    }

    /** A message made on the transcript and queued. */
    method Emit(typ: MsgType)
      modifies conn`log
      ensures var m := Spec.Make(w, typ, old(conn.log).transcript);
              && conn.log == Apply(old(conn.log), Queued(Message(m)))
              && conn.log == Perform(old(conn.log), Act.Emit(m))
    {
      OneIs(conn.log, Queued(Message(Spec.Make(w, typ, conn.log.transcript))));
      conn.AddMessage(Spec.Make(w, typ, conn.log.transcript));
    }

    method DoSendServerCertificate() returns (ret: Wait)
      requires state == Spec.SendServerCertificate
      modifies this, conn
      ensures Did(old(Value()), old(conn.current), Spec.DoSendServerCertificate(w, old(Value())), ret)
    {
      hide Spec.Sound, Perform, Apply;
      PlainActs(conn.log);
      if !w.works(Spec.SendServerCertificate) {
        return Error;
      }
      CertificateFlight();
      if w.sendsKeyExchange && !w.keyShare {
        return Error;
      }
      params := w.sendsKeyExchange;
      state := Spec.SendServerKeyExchange;
      ret := Ok;
    }

    /** Certificate, and CertificateStatus if the client asked for it, under a certificate cipher. */
    method CertificateFlight()
      modifies conn`log
      ensures conn.log == Perform(old(conn.log), EmitAll(Spec.CertificateFlight(w, old(conn.log).transcript)))
    {
      if w.certAuth {
        ghost var l := conn.log;
        Emit(Certificate);
        ghost var m := Spec.Make(w, Certificate, l.transcript);
        SendsOne(l, m);
        SendsTwo(l, m, Spec.Make(w, CertificateStatus, l.transcript + [m]));
        if w.statusExpected {
          Emit(CertificateStatus);
        }
      }
    }

    method DoSendServerKeyExchange(now: Now) returns (ret: Wait)
      requires state == Spec.SendServerKeyExchange
      modifies this, conn
      ensures Did(old(Value()), old(conn.current), Spec.DoSendServerKeyExchange(w, old(Value()), now), ret)
    {
      hide Spec.Sound, Perform, Apply;
      PlainActs(conn.log);
      if !params {
        state := Spec.SendServerHelloDone;
        return Ok;
      }
      if w.certAuth && !now.privateKey {
        return PrivateKeyOperation;
      }
      if !w.works(Spec.SendServerKeyExchange) {
        return Error;
      }
      Emit(ServerKeyExchange);
      params := false;
      state := Spec.SendServerHelloDone;
      ret := Ok;
    }

    method DoSendServerHelloDone() returns (ret: Wait)
      requires state == Spec.SendServerHelloDone
      modifies this, conn
      ensures Did(old(Value()), old(conn.current), Spec.DoSendServerHelloDone(w, old(Value())), ret)
    {
      hide Spec.Sound, Perform, Apply;
      PlainActs(conn.log);
      if !w.works(Spec.SendServerHelloDone) {
        return Error;
      }
      ret := HelloDoneFlight();
      if ret == Error {
        return;
      }
      state := Spec.ReadClientCertificate;
    }

    /** CertificateRequest if a certificate is asked for, and ServerHelloDone. */
    method HelloDoneFlight() returns (ret: Wait)
      modifies conn`log
      ensures var t := old(conn.log).transcript;
              conn.log == Perform(old(conn.log),
                                  if certRequest && !w.helloDone then Act.Emit(Spec.Make(w, CertificateRequest, t))
                                  else EmitAll(Spec.HelloDoneFlight(w, certRequest, t)))
      ensures ret == if certRequest && !w.helloDone then Error else Flush
    {
      ghost var l := conn.log;
      if certRequest {
        Emit(CertificateRequest);
        ghost var m := Spec.Make(w, CertificateRequest, l.transcript);
        if !w.helloDone {
          return Error;
        }
        SendsTwo(l, m, Spec.Make(w, ServerHelloDone, l.transcript + [m]));
      }
      SendsOne(l, Spec.Make(w, ServerHelloDone, l.transcript));
      Emit(ServerHelloDone);
      ret := Flush;
    }

    /** A message of this type is hashed, parsed and released. */
    method Receive(typ: MsgType, next: Spec.State) returns (ret: Wait)
      requires Spec.Leads(w, Value(), next)
      modifies this`state, conn
      ensures Did(old(Value()), old(conn.current), Spec.Receive(w, old(Value()), old(conn.current), typ, next), ret)
    {
      hide Spec.Sound, Perform, Apply;
      var found, msg := conn.GetMessage();
      SmallActs(conn.log, msg);
      if !found {
        return ReadMessage;
      }
      if msg.typ != typ {
        return Error;
      }
      var accepted := w.accepts(msg, conn.log.transcript);
      conn.HashMessage(msg);
      if !accepted {
        return Error;
      }
      conn.NextMessage();
      state := next;
      ret := Ok;
    }

    /** A message of this type is checked before it is hashed, used and released. */
    method Check(typ: MsgType, used: bool, next: Spec.State) returns (ret: Wait)
      requires Spec.Leads(w, Value(), next)
      modifies this`state, conn
      ensures Did(old(Value()), old(conn.current), Spec.Check(w, old(Value()), old(conn.current), typ, used, next), ret)
    {
      hide Spec.Sound, Perform, Apply;
      var found, msg := conn.GetMessage();
      SmallActs(conn.log, msg);
      if !found {
        return ReadMessage;
      }
      if msg.typ != typ || !w.accepts(msg, conn.log.transcript) {
        return Error;
      }
      conn.HashMessage(msg);
      if !used {
        return Error;
      }
      conn.NextMessage();
      state := next;
      ret := Ok;
    }

    method DoReadClientCertificate() returns (ret: Wait)
      requires state == Spec.ReadClientCertificate
      modifies this, conn
      ensures Did(old(Value()), old(conn.current),
                  Spec.DoReadClientCertificate(w, old(Value()), old(conn.current)), ret)
    {
      hide Spec.Sound, Perform, Apply;
      PlainActs(conn.log);
      if !certRequest {
        state := Spec.VerifyClientCertificate;
        return Ok;
      }
      var found, msg := conn.GetMessage();
      ret := Receive(Certificate, Spec.VerifyClientCertificate);
      if ret == Ok {
        peerCert := w.presents(msg);
      }
    }

    method DoVerifyClientCertificate(now: Now) returns (ret: Wait)
      requires state == Spec.VerifyClientCertificate
      modifies this, conn
      ensures Did(old(Value()), old(conn.current), Spec.DoVerifyClientCertificate(w, old(Value()), now), ret)
    {
      hide Spec.Sound, Perform, Apply;
      PlainActs(conn.log);
      if peerCert {
        if !now.verified {
          return CertificateVerifyPending;
        }
        if !w.verifies {
          return Error;
        }
        conn.Note(Verified);
      }
      state := Spec.ReadClientKeyExchange;
      ret := Ok;
    }

    method DoReadClientKeyExchange(now: Now) returns (ret: Wait)
      requires state == Spec.ReadClientKeyExchange
      modifies this, conn
      ensures Did(old(Value()), old(conn.current),
                  Spec.DoReadClientKeyExchange(w, old(Value()), now, old(conn.current)), ret)
    {
      hide Spec.Sound, Perform, Apply;
      PlainActs(conn.log);
      var found, msg := conn.GetMessage();
      if found && msg.typ == ClientKeyExchange && w.rsa && !now.privateKey {
        return PrivateKeyOperation;
      }
      ret := Check(ClientKeyExchange, w.masterSecret, Spec.ReadClientCertificateVerify);
    }

    method DoReadClientCertificateVerify() returns (ret: Wait)
      requires state == Spec.ReadClientCertificateVerify
      modifies this, conn
      ensures Did(old(Value()), old(conn.current),
                  Spec.DoReadClientCertificateVerify(w, old(Value()), old(conn.current)), ret)
    {
      hide Spec.Sound, Perform, Apply;
      PlainActs(conn.log);
      if !peerCert {
        state := Spec.ReadChangeCipherSpecState;
        return Ok;
      }
      ret := Check(CertificateVerify, true, Spec.ReadChangeCipherSpecState);
    }

    method DoReadChangeCipherSpec() returns (ret: Wait)
      requires state == Spec.ReadChangeCipherSpecState
      modifies this
      ensures Did(old(Value()), old(conn.current), Spec.DoReadChangeCipherSpec(w, old(Value())), ret)
    {
      hide Spec.Sound, Perform, Apply;
      PlainActs(conn.log);
      state := Spec.ProcessChangeCipherSpec;
      ret := ReadChangeCipherSpec;
    }

    method DoProcessChangeCipherSpec() returns (ret: Wait)
      requires state == Spec.ProcessChangeCipherSpec
      modifies this, conn
      ensures Did(old(Value()), old(conn.current), Spec.DoProcessChangeCipherSpec(w, old(Value())), ret)
    {
      hide Spec.Sound, Perform, Apply;
      PlainActs(conn.log);
      if !w.works(Spec.ProcessChangeCipherSpec) {
        return Error;
      }
      conn.Note(ChangedRead);
      state := Spec.ReadNextProto;
      ret := Ok;
    }

    method DoReadNextProto() returns (ret: Wait)
      requires state == Spec.ReadNextProto
      modifies this, conn
      ensures Did(old(Value()), old(conn.current), Spec.DoReadNextProto(w, old(Value()), old(conn.current)), ret)
    {
      hide Spec.Sound, Perform, Apply;
      PlainActs(conn.log);
      if !w.nextProto {
        state := Spec.ReadChannelId;
        return Ok;
      }
      ret := Receive(NextProto, Spec.ReadChannelId);
    }

    method DoReadChannelId() returns (ret: Wait)
      requires state == Spec.ReadChannelId
      modifies this, conn
      ensures Did(old(Value()), old(conn.current), Spec.DoReadChannelId(w, old(Value()), old(conn.current)), ret)
    {
      hide Spec.Sound, Perform, Apply;
      PlainActs(conn.log);
      if !w.channelId {
        state := Spec.ReadClientFinished;
        return Ok;
      }
      ret := Check(ChannelId, true, Spec.ReadClientFinished);
    }

    method DoReadClientFinished() returns (ret: Wait)
      requires state == Spec.ReadClientFinished
      modifies this, conn
      ensures Did(old(Value()), old(conn.current), Spec.DoReadClientFinished(w, old(Value()), old(conn.current)), ret)
    {
      hide Spec.Sound, Perform, Apply;
      PlainActs(conn.log);
      ret := conn.GetFinished((t: seq<Msg>) => w.mac(false, t));
      if ret == Ok {
        state := if session then Spec.FinishServerHandshake else Spec.SendServerFinished;
        if !session && w.channelId && !w.keepsHashes {
          ret := Error;
        }
      }
    }

    method DoSendServerFinished() returns (ret: Wait)
      requires state == Spec.SendServerFinished
      modifies this, conn
      ensures Did(old(Value()), old(conn.current), Spec.DoSendServerFinished(w, old(Value())), ret)
    {
      hide Spec.Sound, Perform, Apply;
      PlainActs(conn.log);
      if !w.works(Spec.SendServerFinished) {
        return Error;
      }
      ret := TicketAndFinished();
      if ret == Error {
        return;
      }
      state := if session then Spec.ReadChangeCipherSpecState else Spec.FinishServerHandshake;
    }

    /** NewSessionTicket if one is due, ChangeCipherSpec, and Finished over all of it. */
    method TicketAndFinished() returns (ret: Wait)
      modifies conn`log
      ensures var t := old(conn.log).transcript;
              conn.log == Perform(old(conn.log),
                                  if w.writeKey then CloseFlight(Spec.Ticket(w, t), Spec.FinishedFlight(w, t))
                                  else CcsOnly(Spec.Ticket(w, t)))
      ensures ret == if w.writeKey then Flush else Error
    {
      ghost var l := conn.log;
      SendsOne(l, Spec.Make(w, NewSessionTicket, l.transcript));
      if w.ticketExpected {
        Emit(NewSessionTicket);
      }
      CcsAlone(l, Spec.Ticket(w, l.transcript));
      conn.Note(Queued(Ccs));
      if !w.writeKey {
        return Error;
      }
      conn.Note(ChangedWrite);
      assert conn.log.transcript == l.transcript + Spec.Ticket(w, l.transcript);
      FinishedFlightCloses(w, l, conn.log);
      conn.SendFinished((t: seq<Msg>) => w.mac(true, t));
      ret := Flush;
    }

    method DoFinishServerHandshake() returns (ret: Wait)
      requires state == Spec.FinishServerHandshake
      modifies this
      ensures Did(old(Value()), old(conn.current), Spec.DoFinishServerHandshake(w, old(Value())), ret)
    {
      hide Spec.Sound, Perform, Apply;
      PlainActs(conn.log);
      state := Spec.Done;
      ret := Ok;
    }

    /** The body of the loop in ssl_server_handshake. */
    method Turn(now: Now) returns (ret: Wait)
      requires state != Spec.Done
      modifies this, conn
      ensures var step := Spec.MachineOf(w).step(old(Value()), now, old(conn.current));
              && Value() == step.s && ret == step.wait
              && conn.current == if step.released then None else old(conn.current)
    {
      hide Spec.Sound, Perform, Apply;
      match state {
        case StartAccept => ret := DoStartAccept();
        case ReadClientHello => ret := DoReadClientHello(now);
        case SelectCertificate => ret := DoSelectCertificate(now);
        case SelectParameters => ret := DoSelectParameters(now);
        case SendServerHello => ret := DoSendServerHello();
        case SendServerCertificate => ret := DoSendServerCertificate();
        case SendServerKeyExchange => ret := DoSendServerKeyExchange(now);
        case SendServerHelloDone => ret := DoSendServerHelloDone();
        case ReadClientCertificate => ret := DoReadClientCertificate();
        case VerifyClientCertificate => ret := DoVerifyClientCertificate(now);
        case ReadClientKeyExchange => ret := DoReadClientKeyExchange(now);
        case ReadClientCertificateVerify => ret := DoReadClientCertificateVerify();
        case ReadChangeCipherSpecState => ret := DoReadChangeCipherSpec();
        case ProcessChangeCipherSpec => ret := DoProcessChangeCipherSpec();
        case ReadNextProto => ret := DoReadNextProto();
        case ReadChannelId => ret := DoReadChannelId();
        case ReadClientFinished => ret := DoReadClientFinished();
        case SendServerFinished => ret := DoSendServerFinished();
        case FinishServerHandshake => ret := DoFinishServerHandshake();
      }
    }
  }

  /** The server's ticket and Finished, sent piece by piece, close its flight. */
  lemma FinishedFlightCloses(w: Spec.World, l: Log, switched: Log)
    requires var ticketed := ApplyAll(l, Sends(Spec.Ticket(w, l.transcript)));
             switched == Apply(Apply(ticketed, Queued(Ccs)), ChangedWrite)
    requires switched.transcript == l.transcript + Spec.Ticket(w, l.transcript)
    ensures Perform(l, CloseFlight(Spec.Ticket(w, l.transcript), Spec.FinishedFlight(w, l.transcript)))
         == Apply(switched, Queued(Message(Msg(Finished, w.mac(true, switched.transcript)))))
  {
    var ticket, finished := Spec.Ticket(w, l.transcript), Spec.FinishedFlight(w, l.transcript);
    CloseFlightIs(l, ticket, finished);
    TwoIs(ApplyAll(l, Sends(ticket)), Queued(Ccs), ChangedWrite);
    SendsOne(switched, finished[0]);
  }
}
