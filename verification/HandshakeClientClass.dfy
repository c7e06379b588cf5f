/**
 The client's handshake as the source has it (handshake_client.cc): each do_* function looks at the message and
 the answers at hand, changes fields, transcript and flight in place, one after the other, and returns what the
 handshake waits for. HandshakeClient specifies all of this on values.
 */
module HandshakeClientClass {
  import opened Bytes
  import opened HandshakeDriver
  import opened HandshakeLog
  import opened HandshakeConnection
  import Spec = HandshakeClient

  class ClientHandshake {
    const w: Spec.World
    const conn: Connection
    var state: Spec.State
    var session: bool
    var certRequest: bool
    var ticketExpected: bool

    function Value(): Spec.Client
      reads this, conn
    {
      Spec.Client(state, session, certRequest, ticketExpected, conn.log)
    }

    /** The fields, the log and the current message are what the move makes of them. */
    ghost predicate Did(was: Spec.Client, msg: Option<Msg>, move: Spec.Move, ret: Wait)
      reads this, conn
    {
      && Value() == Spec.Client(move.state, move.session, move.certRequest, move.ticketExpected,
                                Perform(was.log, move.act))
      && conn.current == (if Releases(move.act) then None else msg) && ret == move.wait
    }

    constructor (w: Spec.World)
      ensures this.w == w && fresh(conn) && Value() == Spec.Start(w) && conn.current == None
    {
      this.w, state, session, certRequest, ticketExpected := w, Spec.StartConnect, w.offersSession, false, false;
      conn := new Connection();
    }

    method DoStartConnect() returns (ret: Wait)
      requires state == Spec.StartConnect
      modifies this, conn
      ensures Did(old(Value()), old(conn.current), Spec.DoStartConnect(w, old(Value())), ret)
    {
      hide Spec.Sound, Perform, Apply;
      PlainActs(conn.log);
      if !w.works(Spec.StartConnect) {
        return Error;
      }
      var hello := Spec.Make(w, ClientHello, conn.log.transcript);
      SmallActs(conn.log, hello);
      conn.AddMessage(hello);
      state := Spec.EnterEarlyData;
      ret := Flush;
    }

    method DoEnterEarlyData() returns (ret: Wait)
      requires state == Spec.EnterEarlyData
      modifies this
      ensures Did(old(Value()), old(conn.current), Spec.DoEnterEarlyData(w, old(Value())), ret)
    {
      hide Spec.Sound, Perform, Apply;
      PlainActs(conn.log);
      if w.dtls {
        state := Spec.ReadHelloVerifyRequest;
        return Ok;
      }
      state := Spec.ReadServerHelloState;
      ret := Ok;
    }

    method DoReadHelloVerifyRequest() returns (ret: Wait)
      requires state == Spec.ReadHelloVerifyRequest
      modifies this, conn
      ensures Did(old(Value()), old(conn.current),
                  Spec.DoReadHelloVerifyRequest(w, old(Value()), old(conn.current)), ret)
    {
      hide Spec.Sound, Perform;
      PlainActs(conn.log);
      var found, msg := conn.GetMessage();
      if !found {
        return ReadMessage;
      }
      if msg.typ != HelloVerifyRequest {
        state := Spec.ReadServerHelloState;
        return Ok;
      }
      if !w.accepts(msg, conn.log.transcript) {
        return Error;
      }
      CookieActs(conn.log, msg, Spec.Make(w, ClientHello, []));
      conn.SkipMessage();
      if !w.resets {
        return Error;
      }
      conn.Note(Reset);
      if !w.works(Spec.ReadHelloVerifyRequest) {
        return Error;
      }
      conn.AddMessage(Spec.Make(w, ClientHello, conn.log.transcript));
      state := Spec.ReadServerHelloState;
      ret := Flush;
    }

    method DoReadServerHello() returns (ret: Wait)
      requires state == Spec.ReadServerHelloState
      modifies this, conn
      ensures Did(old(Value()), old(conn.current), Spec.DoReadServerHello(w, old(Value()), old(conn.current)), ret)
    {
      hide Spec.Sound, Perform, Apply;
      var found, msg := conn.GetMessage();
      SmallActs(conn.log, msg);
      if !found {
        return ReadServerHello;
      }
      if msg.typ != ServerHello || !w.accepts(msg, conn.log.transcript) {
        return Error;
      }
      if !w.resumes {
        session := false;
      }
      conn.HashMessage(msg);
      if !w.works(Spec.ReadServerHelloState) {
        return Error;
      }
      ticketExpected := w.ticketExpected;
      conn.NextMessage();
      if session {
        state := Spec.ReadSessionTicket;
        return Ok;
      }
      state := Spec.ReadServerCertificate;
      ret := Ok;
    }

    /** A message of this type is hashed, parsed and released. */
    method Receive(typ: MsgType, next: Spec.State) returns (ret: Wait)
      requires Spec.Leads(w, Value(), next)
      modifies this`state, conn
      ensures Did(old(Value()), old(conn.current), Spec.Receive(w, old(Value()), old(conn.current), typ, next), ret)
    {
      hide Spec.Sound, Perform, Apply;
      var found, msg := conn.GetMessage();
      SmallActs(conn.log, msg);
      if !found {
        return ReadMessage;
      }
      if msg.typ != typ {
        return Error;
      }
      var accepted := w.accepts(msg, conn.log.transcript);
      conn.HashMessage(msg);
      if !accepted {
        return Error;
      }
      conn.NextMessage();
      state := next;
      ret := Ok;
    }

    method DoReadServerCertificate() returns (ret: Wait)
      requires state == Spec.ReadServerCertificate
      modifies this, conn
      ensures Did(old(Value()), old(conn.current),
                  Spec.DoReadServerCertificate(w, old(Value()), old(conn.current)), ret)
    {
      hide Spec.Sound, Perform, Apply;
      PlainActs(conn.log);
      if !w.certAuth {
        state := Spec.ReadCertificateStatus;
        return Ok;
      }
      ret := Receive(Certificate, Spec.ReadCertificateStatus);
    }

    method DoReadCertificateStatus() returns (ret: Wait)
      requires state == Spec.ReadCertificateStatus
      modifies this, conn
      ensures Did(old(Value()), old(conn.current),
                  Spec.DoReadCertificateStatus(w, old(Value()), old(conn.current)), ret)
    {
      hide Spec.Sound, Perform, Apply;
      PlainActs(conn.log);
      if !w.statusExpected {
        state := Spec.VerifyServerCertificate;
        return Ok;
      }
      var found, msg := conn.GetMessage();
      if found && msg.typ != CertificateStatus {
        state := Spec.VerifyServerCertificate;
        return Ok;
      }
      ret := Receive(CertificateStatus, Spec.VerifyServerCertificate);
    }

    method DoVerifyServerCertificate(now: Now) returns (ret: Wait)
      requires state == Spec.VerifyServerCertificate
      modifies this, conn
      ensures Did(old(Value()), old(conn.current), Spec.DoVerifyServerCertificate(w, old(Value()), now), ret)
    {
      hide Spec.Sound, Perform, Apply;
      PlainActs(conn.log);
      if !w.certAuth {
        state := Spec.ReadServerKeyExchange;
        return Ok;
      }
      if !now.verified {
        return CertificateVerifyPending;
      }
      if !w.verifies {
        return Error;
      }
      conn.Note(Verified);
      state := Spec.ReadServerKeyExchange;
      ret := Ok;
    }

    method DoReadServerKeyExchange() returns (ret: Wait)
      requires state == Spec.ReadServerKeyExchange
      modifies this, conn
      ensures Did(old(Value()), old(conn.current),
                  Spec.DoReadServerKeyExchange(w, old(Value()), old(conn.current)), ret)
    {
      hide Spec.Sound, Perform, Apply;
      PlainActs(conn.log);
      var found, msg := conn.GetMessage();
      if found && msg.typ != ServerKeyExchange {
        if w.needsKeyExchange {
          return Error;
        }
        state := Spec.ReadCertificateRequest;
        return Ok;
      }
      ret := Receive(ServerKeyExchange, Spec.ReadCertificateRequest);
    }

    method DoReadCertificateRequest() returns (ret: Wait)
      requires state == Spec.ReadCertificateRequest
      modifies this, conn
      ensures Did(old(Value()), old(conn.current),
                  Spec.DoReadCertificateRequest(w, old(Value()), old(conn.current)), ret)
    {
      hide Spec.Sound, Perform, Apply;
      PlainActs(conn.log);
      if !w.certAuth {
        state := Spec.ReadServerHelloDone;
        return Ok;
      }
      var found, msg := conn.GetMessage();
      if found && msg.typ == ServerHelloDone {
        state := Spec.ReadServerHelloDone;
        return Ok;
      }
      ret := Receive(CertificateRequest, Spec.ReadServerHelloDone);
      if ret == Ok {
        certRequest := true;
      }
    }

    method DoReadServerHelloDone() returns (ret: Wait)
      requires state == Spec.ReadServerHelloDone
      modifies this, conn
      ensures Did(old(Value()), old(conn.current),
                  Spec.DoReadServerHelloDone(w, old(Value()), old(conn.current)), ret)
    {
      hide Spec.Sound, Perform, Apply;
      ret := Receive(ServerHelloDone, Spec.SendClientCertificate);
    }

    method DoSendClientCertificate(now: Now) returns (ret: Wait)
      requires state == Spec.SendClientCertificate
      modifies this, conn
      ensures Did(old(Value()), old(conn.current), Spec.DoSendClientCertificate(w, old(Value()), now), ret)
    {
      hide Spec.Sound, Perform, Apply;
      PlainActs(conn.log);
      if !certRequest {
        state := Spec.SendClientKeyExchange;
        return Ok;
      }
      if w.certCallback && !now.certificate {
        return X509Lookup;
      }
      if !w.works(Spec.SendClientCertificate) {
        return Error;
      }
      var msg := Spec.Make(w, Certificate, conn.log.transcript);
      SmallActs(conn.log, msg);
      conn.AddMessage(msg);
      state := Spec.SendClientKeyExchange;
      ret := Ok;
    }

    method DoSendClientKeyExchange() returns (ret: Wait)
      requires state == Spec.SendClientKeyExchange
      modifies this, conn
      ensures Did(old(Value()), old(conn.current), Spec.DoSendClientKeyExchange(w, old(Value())), ret)
    {
      hide Spec.Sound, Perform, Apply;
      PlainActs(conn.log);
      if !w.works(Spec.SendClientKeyExchange) {
        return Error;
      }
      var msg := Spec.Make(w, ClientKeyExchange, conn.log.transcript);
      SmallActs(conn.log, msg);
      conn.AddMessage(msg);
      if !w.masterSecret {
        return Error;
      }
      state := Spec.SendClientCertificateVerify;
      ret := Ok;
    }

    method DoSendClientCertificateVerify(now: Now) returns (ret: Wait)
      requires state == Spec.SendClientCertificateVerify
      modifies this, conn
      ensures Did(old(Value()), old(conn.current), Spec.DoSendClientCertificateVerify(w, old(Value()), now), ret)
    {
      hide Spec.Sound, Perform, Apply;
      PlainActs(conn.log);
      if !certRequest || !w.hasCertificate {
        state := Spec.SendClientFinished;
        return Ok;
      }
      if !now.privateKey {
        return PrivateKeyOperation;
      }
      if !w.works(Spec.SendClientCertificateVerify) {
        return Error;
      }
      var msg := Spec.Make(w, CertificateVerify, conn.log.transcript);
      SmallActs(conn.log, msg);
      conn.AddMessage(msg);
      state := Spec.SendClientFinished;
      ret := Ok;
    }

    method DoSendClientFinished(now: Now) returns (ret: Wait)
      requires state == Spec.SendClientFinished
      modifies this, conn
      ensures Did(old(Value()), old(conn.current), Spec.DoSendClientFinished(w, old(Value()), now), ret)
    {
      hide Spec.Sound, Perform, Apply;
      PlainActs(conn.log);
      if w.channelId && !now.channelId {
        return ChannelIdLookup;
      }
      if !w.works(Spec.SendClientFinished) {
        return Error;
      }
      ghost var l := conn.log;
      CcsAlone(l, []);
      conn.Note(Queued(Ccs));
      if !w.writeKey {
        return Error;
      }
      conn.Note(ChangedWrite);
      LastFlight();
      LastFlightCloses(w, l, Apply(Apply(l, Queued(Ccs)), ChangedWrite));
      state := Spec.FinishFlight;
      ret := Flush;
    }

    /** NextProto and ChannelId if they were negotiated, and Finished over all of it. */
    method LastFlight()
      modifies conn`log
      ensures conn.log == ApplyAll(old(conn.log), Sends(Spec.LastFlight(w, old(conn.log).transcript)))
    {
      ghost var l := conn.log;
      ghost var sent: seq<Msg> := [];
      if w.nextProto {
        var proto := Spec.Make(w, NextProto, conn.log.transcript);
        conn.AddMessage(proto);
        SendsOneMore(l, sent, proto);
        sent := sent + [proto];
      }
      if w.channelId {
        var id := Spec.Make(w, ChannelId, conn.log.transcript);
        conn.AddMessage(id);
        SendsOneMore(l, sent, id);
        sent := sent + [id];
      }
      assert sent == if w.nextProto && w.channelId then [sent[0], sent[1]]
                     else if w.nextProto || w.channelId then [sent[0]] else [];
      assert conn.log.transcript == l.transcript + sent;
      SendsOneMore(l, sent, Spec.MakeFinished(w, conn.log.transcript));
      conn.SendFinished((t: seq<Msg>) => w.mac(false, t));
      assert Spec.LastFlight(w, l.transcript) == sent + [Spec.MakeFinished(w, l.transcript + sent)];
    }

    method DoFinishFlight() returns (ret: Wait)
      requires state == Spec.FinishFlight
      modifies this
      ensures Did(old(Value()), old(conn.current), Spec.DoFinishFlight(w, old(Value())), ret)
    {
      hide Spec.Sound, Perform, Apply;
      PlainActs(conn.log);
      if session {
        state := Spec.FinishClientHandshake;
        return Ok;
      }
      if !w.works(Spec.FinishFlight) {
        return Error;
      }
      state := Spec.ReadSessionTicket;
      ret := if w.falseStart then EarlyReturn else Ok;
    }

    method DoReadSessionTicket() returns (ret: Wait)
      requires state == Spec.ReadSessionTicket
      modifies this, conn
      ensures Did(old(Value()), old(conn.current), Spec.DoReadSessionTicket(w, old(Value()), old(conn.current)), ret)
    {
      hide Spec.Sound, Perform, Apply;
      PlainActs(conn.log);
      if !ticketExpected {
        state := Spec.ProcessChangeCipherSpec;
        return ReadChangeCipherSpec;
      }
      var found, msg := conn.GetMessage();
      SmallActs(conn.log, msg);
      if !found {
        return ReadMessage;
      }
      if msg.typ != NewSessionTicket {
        return Error;
      }
      var accepted := w.accepts(msg, conn.log.transcript);
      conn.HashMessage(msg);
      if !accepted {
        return Error;
      }
      if |msg.body| == 6 {
        ticketExpected := false;
      }
      conn.NextMessage();
      state := Spec.ProcessChangeCipherSpec;
      ret := ReadChangeCipherSpec;
    }

    method DoProcessChangeCipherSpec() returns (ret: Wait)
      requires state == Spec.ProcessChangeCipherSpec
      modifies this, conn
      ensures Did(old(Value()), old(conn.current), Spec.DoProcessChangeCipherSpec(w, old(Value())), ret)
    {
      hide Spec.Sound, Perform, Apply;
      PlainActs(conn.log);
      if !w.works(Spec.ProcessChangeCipherSpec) {
        return Error;
      }
      conn.Note(ChangedRead);
      state := Spec.ReadServerFinished;
      ret := Ok;
    }

    method DoReadServerFinished() returns (ret: Wait)
      requires state == Spec.ReadServerFinished
      modifies this, conn
      ensures Did(old(Value()), old(conn.current), Spec.DoReadServerFinished(w, old(Value()), old(conn.current)), ret)
    {
      hide Spec.Sound, Perform, Apply;
      PlainActs(conn.log);
      ret := conn.GetFinished((t: seq<Msg>) => w.mac(true, t));
      if ret != Ok {
        return;
      }
      if session {
        state := Spec.SendClientFinished;
        return;
      }
      state := Spec.FinishClientHandshake;
    }

    method DoFinishClientHandshake() returns (ret: Wait)
      requires state == Spec.FinishClientHandshake
      modifies this
      ensures Did(old(Value()), old(conn.current), Spec.DoFinishClientHandshake(w, old(Value())), ret)
    {
      hide Spec.Sound, Perform, Apply;
      PlainActs(conn.log);
      if !w.works(Spec.FinishClientHandshake) {
        return Error;
      }
      state := Spec.Done;
      ret := Ok;
    }

    /** The body of the loop in ssl_client_handshake. */
    method Turn(now: Now) returns (ret: Wait)
      requires state != Spec.Done
      modifies this, conn
      ensures var step := Spec.MachineOf(w).step(old(Value()), now, old(conn.current));
              && Value() == step.s && ret == step.wait
              && conn.current == if step.released then None else old(conn.current)
    {
      hide Spec.Sound, Perform, Apply;
      match state {
        case StartConnect => ret := DoStartConnect();
        case EnterEarlyData => ret := DoEnterEarlyData();
        case ReadHelloVerifyRequest => ret := DoReadHelloVerifyRequest();
        case ReadServerHelloState => ret := DoReadServerHello();
        case ReadServerCertificate => ret := DoReadServerCertificate();
        case ReadCertificateStatus => ret := DoReadCertificateStatus();
        case VerifyServerCertificate => ret := DoVerifyServerCertificate(now);
        case ReadServerKeyExchange => ret := DoReadServerKeyExchange();
        case ReadCertificateRequest => ret := DoReadCertificateRequest();
        case ReadServerHelloDone => ret := DoReadServerHelloDone();
        case SendClientCertificate => ret := DoSendClientCertificate(now);
        case SendClientKeyExchange => ret := DoSendClientKeyExchange();
        case SendClientCertificateVerify => ret := DoSendClientCertificateVerify(now);
        case SendClientFinished => ret := DoSendClientFinished(now);
        case FinishFlight => ret := DoFinishFlight();
        case ReadSessionTicket => ret := DoReadSessionTicket();
        case ProcessChangeCipherSpec => ret := DoProcessChangeCipherSpec();
        case ReadServerFinished => ret := DoReadServerFinished();
        case FinishClientHandshake => ret := DoFinishClientHandshake();
      }
    }
  }

  /** The client's last flight, sent piece by piece, closes its flight. */
  lemma LastFlightCloses(w: Spec.World, l: Log, switched: Log)
    requires switched == Apply(Apply(l, Queued(Ccs)), ChangedWrite)
    ensures Perform(l, CloseFlight([], Spec.LastFlight(w, l.transcript)))
         == ApplyAll(switched, Sends(Spec.LastFlight(w, switched.transcript)))
  {
    CloseFlightIs(l, [], Spec.LastFlight(w, l.transcript));
    TwoIs(l, Queued(Ccs), ChangedWrite);
    assert Sends([]) == [];
  }
}
