/** Non-blocking writes of TLS records (s3_pkt.cc, s3_both.cc), on values; the class is in TlsWriteClass. */
module TlsWrite {
  import opened Bytes
  import opened SslBuffer
  import opened TlsRecords

  const MAX_PLAIN_LENGTH: nat := 16384

  /** partialWrites and movingBuffers are SSL_MODE_ENABLE_PARTIAL_WRITE and SSL_MODE_ACCEPT_MOVING_WRITE_BUFFER. */
  datatype Config = Config(cipher: Cipher, maxSendFragment: nat, partialWrites: bool, movingBuffers: bool,
                           alertAddr: nat)

  ghost predicate ConfigOk(cfg: Config) {
    && Bounded(cfg.cipher) && 0 < cfg.maxSendFragment <= MAX_PLAIN_LENGTH
    && Roomy(MAX_PLAIN_LENGTH + cfg.cipher.overhead)
  }

  /** The wpend_ fields: a record was sealed from tot bytes at addr, and is not yet all written. */
  datatype Pending = Pending(tot: nat, addr: nat, typ: nat)

  datatype Alert = Alert(level: byte, desc: byte)

  /**
   sent is what the transport took, answers are its answers to the calls to come, held is the contents of the
   write buffer. records lists what was ever sealed; those from flightStart on went into the pending flight.
   alert is send_alert while alert_dispatch is set.
   */
  datatype Writer = Writer(sent: seq<byte>, answers: seq<int>, shutdown: bool, held: seq<byte>,
                           flight: Option<seq<byte>>, flightOffset: nat, records: seq<Record>, flightStart: nat,
                           wnum: nat, pending: Option<Pending>, alert: Option<Alert>)

  function Start(answers: seq<int>): Writer { Writer([], answers, false, [], None, 0, [], 0, 0, None, None) }

  // The transport.

  /** BIO_write: takes some of the bytes, or fails. */
  function Take(w: Writer, bytes: seq<byte>): (r: (Writer, int))
    ensures r.1 <= |bytes|
    ensures r.0 == w.(answers := r.0.answers, sent := if r.1 > 0 then w.sent + bytes[..r.1] else w.sent)
  {
    if w.answers == [] then (w, -1)
    else
      var ret := if w.answers[0] <= |bytes| then w.answers[0] else |bytes|;
      (w.(answers := w.answers[1..], sent := if ret > 0 then w.sent + bytes[..ret] else w.sent), ret)
  }

  /** BIO_flush. */
  function Flush(w: Writer): (Writer, int) {
    if w.answers == [] then (w, -1) else (w.(answers := w.answers[1..]), w.answers[0])
  }

  /** tls_write_buffer_flush. */
  function FlushHeld(w: Writer): (Writer, int)
    decreases |w.held|
  {
    if w.held == [] then (w, 1)
    else
      var (t, ret) := Take(w, w.held);
      if ret <= 0 then (t, ret) else FlushHeld(t.(held := w.held[ret..]))
  }

  // Records.

  /** ssl3_write_pending. */
  function WritePending(cfg: Config, w: Writer, typ: nat, addr: nat, len: nat): (r: (Writer, int))
    requires w.pending.Some?
    ensures r.1 <= len
  {
    var p := w.pending.value;
    if p.tot > len || (!cfg.movingBuffers && p.addr != addr) || p.typ != typ then (w, -1)
    else
      var (t, ret) := FlushHeld(w);
      if ret <= 0 then (t, ret) else (t.(pending := None), p.tot)
  }

  function FlightBytes(w: Writer): seq<byte> { if w.flight.Some? then w.flight.value else [] }

  /** What is left of the flight. */
  function FlightRest(w: Writer): seq<byte> {
    var f := FlightBytes(w);
    if w.flightOffset <= |f| then f[w.flightOffset..] else []
  }

  /** The rest of the flight goes into the write buffer. */
  function MoveFlight(w: Writer): Writer {
    w.(held := w.held + FlightRest(w), flight := None, flightOffset := 0, flightStart := |w.records|)
  }

  /** A record is sealed behind what the buffer holds. */
  function Seal(cfg: Config, w: Writer, r: Record): Option<Writer> {
    match cfg.cipher.seal(|w.records|, r)
    case None => None
    case Some(c) => Some(w.(held := w.held + c, records := w.records + [r], flightStart := |w.records| + 1))
  }

  /** The part of do_ssl3_write that fills the write buffer. */
  function Stage(cfg: Config, w: Writer, typ: nat, addr: nat, input: seq<byte>): (Writer, bool) {
    if |input| + cfg.cipher.overhead + |FlightRest(w)| >= TWO16 then (w, false)
    else
      match Seal(cfg, MoveFlight(w), Record(typ, input))
      case None => (MoveFlight(w), false)
      case Some(t) => (t.(pending := Some(Pending(|input|, addr, typ))), true)
  }

  /** do_ssl3_write. */
  function DoWrite(cfg: Config, w: Writer, typ: nat, addr: nat, input: seq<byte>): (r: (Writer, int))
    ensures r.1 <= |input|
  {
    if w.pending.Some? then WritePending(cfg, w, typ, addr, |input|)
    else if |input| > MAX_PLAIN_LENGTH || w.held != [] then (w, -1)
    else if input == [] then (w, 0)
    else
      var (t, ok) := Stage(cfg, w, typ, addr, input);
      if ok then WritePending(cfg, t, typ, addr, |input|) else (t, -1)
  }

  function Least(a: nat, b: nat): nat { if a <= b then a else b }

  /** What fits one record. */
  function Chunk(cfg: Config, input: seq<byte>, tot: nat): seq<byte>
    requires tot <= |input|
  {
    input[tot..tot + Least(|input| - tot, cfg.maxSendFragment)]
  }

  /** The loop of ssl3_write_app_data from position tot on. */
  function WriteFrom(cfg: Config, w: Writer, addr: nat, input: seq<byte>, tot: nat): (Writer, int)
    requires tot <= |input|
    decreases |input| - tot
  {
    var (t, ret) := DoWrite(cfg, w, APPLICATION_DATA, addr + tot, Chunk(cfg, input, tot));
    if ret <= 0 then (t.(wnum := tot), ret)
    else if ret == |input| - tot || cfg.partialWrites then (t, tot + ret)
    else WriteFrom(cfg, t, addr, input, tot + ret)
  }

  lemma WriteFromIs(cfg: Config, w: Writer, addr: nat, input: seq<byte>, tot: nat)
    requires tot <= |input|
    ensures var (t, ret) := DoWrite(cfg, w, APPLICATION_DATA, addr + tot, Chunk(cfg, input, tot));
            WriteFrom(cfg, w, addr, input, tot) ==
              if ret <= 0 then (t.(wnum := tot), ret)
              else if ret == |input| - tot || cfg.partialWrites then (t, tot + ret)
              else WriteFrom(cfg, t, addr, input, tot + ret)
  {
  }

  /** A length below what a write that did not complete has written already. */
  predicate BadLength(w: Writer, len: int) { len < 0 || len < w.wnum }

  /** ssl3_write_app_data. */
  function Write(cfg: Config, w: Writer, addr: nat, input: seq<byte>, len: int): (Writer, int)
    requires len < 0 || len == |input|
  {
    if w.shutdown then (w, -1)
    else if BadLength(w, len) then (w.(wnum := 0), -1)
    else WriteFrom(cfg, w.(wnum := 0), addr, input, w.wnum)
  }

  // Alerts.

  const FATAL: byte := 2

  /** ssl3_dispatch_alert. */
  function DispatchAlert(cfg: Config, w: Writer): (Writer, int)
    requires w.alert.Some?
  {
    var Alert(level, desc) := w.alert.value;
    var (t, ret) := DoWrite(cfg, w, ALERT, cfg.alertAddr, [level, desc]);
    if ret <= 0 then (t, ret)
    else
      var u := t.(alert := None);
      (if level == FATAL then Flush(u).0 else u, 1)
  }

  /**
   ssl_send_alert: the alert closes the write side, and goes out now if nothing else is on its way. If it does not
   get out it is dispatched later.
   */
  function SendAlert(cfg: Config, w: Writer, level: byte, desc: byte): (Writer, int) {
    if w.shutdown then (w, -1)
    else
      var t := w.(shutdown := true, alert := Some(Alert(level, desc)));
      if t.held != [] then (t, -1) else DispatchAlert(cfg, t)
  }

  // Handshake records.

  /** add_record_to_flight. */
  function AddRecord(cfg: Config, w: Writer, r: Record): (Writer, bool) {
    match cfg.cipher.seal(|w.records|, r)
    case None => (w.(flight := Some(FlightBytes(w))), false)
    case Some(c) => (w.(flight := Some(FlightBytes(w) + c), records := w.records + [r]), true)
  }

  /** The records of a message join the flight, as many as can be sealed. */
  function AddRecords(cfg: Config, w: Writer, rs: seq<Record>): (Writer, bool)
    decreases |rs|
  {
    if rs == [] then (w, true)
    else
      var (t, ok) := AddRecord(cfg, w, rs[0]);
      if ok then AddRecords(cfg, t, rs[1..]) else (t, false)
  }

  /** ssl3_add_message: the message is cut into records of at most maxSendFragment bytes. */
  function AddMessage(cfg: Config, w: Writer, msg: seq<byte>): (Writer, bool)
    requires cfg.maxSendFragment > 0
  {
    AddRecords(cfg, w, Chunks(msg, cfg.maxSendFragment))
  }

  /** ssl3_add_change_cipher_spec. */
  function AddCcs(cfg: Config, w: Writer): (Writer, bool) { AddRecord(cfg, w, Record(CHANGE_CIPHER_SPEC, [1])) }

  /** ssl3_add_alert: a warning goes with the flight. */
  function AddAlert(cfg: Config, w: Writer, level: byte, desc: byte): (Writer, bool) {
    AddRecord(cfg, w, Record(ALERT, [level, desc]))
  }

  /** The loop over the pending flight. */
  function SendFlight(w: Writer): (Writer, int)
    decreases |FlightRest(w)|
  {
    if w.flightOffset >= |FlightBytes(w)| then (w, 1)
    else
      var (t, ret) := Take(w, FlightRest(w));
      if ret <= 0 then (t, ret) else SendFlight(t.(flightOffset := w.flightOffset + ret))
  }

  lemma SendFlightIs(w: Writer)
    ensures SendFlight(w)
         == if w.flightOffset >= |FlightBytes(w)| then (w, 1)
            else
              var (t, ret) := Take(w, FlightRest(w));
              if ret <= 0 then (t, ret) else SendFlight(t.(flightOffset := w.flightOffset + ret))
  {
  }

  /** The flight is on the transport. */
  function ReleaseFlight(w: Writer): Writer {
    w.(flight := None, flightOffset := 0, flightStart := |w.records|)
  }

  /** The last part of ssl3_flush_flight, with the write buffer empty. */
  function FinishFlight(w: Writer): (Writer, int) {
    var (t, ret) := SendFlight(w);
    if ret <= 0 then (t, ret)
    else
      var (u, flushed) := Flush(t);
      if flushed <= 0 then (u, -1) else (ReleaseFlight(u), 1)
  }

  /** ssl3_flush_flight. */
  function FlushFlight(w: Writer): (Writer, int) {
    if w.flight == None then (w, 1)
    else if w.shutdown || |w.flight.value| > 0x7fff_ffff then (w, -1)
    else
      var (t, ret) := if w.held == [] then (w, 1) else FlushHeld(w);
      if ret <= 0 then (t, ret) else FinishFlight(t)
  }

  // What the writer keeps.

  /** The transport, the buffer and the flight hold the sealed records in the order they were sealed. */
  ghost predicate Ok(cfg: Config, w: Writer) {
    && ConfigOk(cfg) && Sealable(cfg.cipher, w.records) && w.flightStart <= |w.records|
    && (w.flight == None ==> w.flightStart == |w.records|)
    && FlightBytes(w) == Sealed(cfg.cipher, w.records, w.flightStart, |w.records|)
    && w.flightOffset <= |FlightBytes(w)| && (w.flightOffset > 0 ==> w.held == [])
    && w.sent + w.held == Sealed(cfg.cipher, w.records, 0, w.flightStart) + FlightBytes(w)[..w.flightOffset]
    && (forall i | w.flightStart <= i < |w.records| :: w.records[i].kind != APPLICATION_DATA)
    && (w.pending.Some? ==> w.pending.value.tot > 0)
  }

  /** How much of the write under way is in the pending record, and how much has been sealed. */
  function InPending(w: Writer): nat {
    if w.pending.Some? && w.pending.value.typ == APPLICATION_DATA then w.pending.value.tot else 0
  }

  function Sealing(w: Writer): nat { w.wnum + InPending(w) }

  lemma {:induction false} FlushHeldKeeps(w: Writer)
    ensures var (t, ret) := FlushHeld(w);
            && t == w.(sent := t.sent, held := t.held, answers := t.answers)
            && t.sent + t.held == w.sent + w.held && w.sent <= t.sent
            && (ret > 0 || w.held == [] ==> t.held == [])
    decreases |w.held|
  {
    if w.held != [] {
      var (t, ret) := Take(w, w.held);
      if ret > 0 {
        assert t.sent + w.held[ret..] == w.sent + w.held;
        FlushHeldKeeps(t.(held := w.held[ret..]));
      }
    }
  }

  /** Whatever the bytes of sent and held are divided into, the writer is sound. */
  lemma OkAfterFlush(cfg: Config, w: Writer, t: Writer)
    requires Ok(cfg, w) && t == w.(sent := t.sent, held := t.held, answers := t.answers)
    requires t.sent + t.held == w.sent + w.held && (w.held == [] ==> t.held == [])
    ensures Ok(cfg, t)
  {
  }

  /** Nor does it matter what was counted, answered or shut down. */
  lemma OkElsewhere(cfg: Config, w: Writer, t: Writer)
    requires Ok(cfg, w) && t == w.(wnum := t.wnum, answers := t.answers, shutdown := t.shutdown, alert := t.alert)
    ensures Ok(cfg, t)
  {
  }

  lemma WritePendingKeeps(cfg: Config, w: Writer, typ: nat, addr: nat, len: nat)
    requires Ok(cfg, w) && w.pending.Some?
    ensures var (t, ret) := WritePending(cfg, w, typ, addr, len);
            && Ok(cfg, t) && t == w.(sent := t.sent, held := t.held, answers := t.answers, pending := t.pending)
            && w.sent <= t.sent
            && (if ret > 0 then t.pending == None && t.held == [] && ret == w.pending.value.tot <= len
                                && w.pending.value.typ == typ
                else t.pending == w.pending)
  {
    FlushHeldKeeps(w);
    OkAfterFlush(cfg, w, FlushHeld(w).0);
  }

  lemma MoveFlightKeeps(cfg: Config, w: Writer)
    requires Ok(cfg, w)
    ensures Ok(cfg, MoveFlight(w))
  {
    hide ConfigOk;
    var f, n := FlightBytes(w), |w.records|;
    assert w.sent + (w.held + f[w.flightOffset..]) == Sealed(cfg.cipher, w.records, 0, n) by {
      SealedSplit(cfg.cipher, w.records, 0, w.flightStart, n);
      var a := Sealed(cfg.cipher, w.records, 0, w.flightStart);
      assert a + f == a + f[..w.flightOffset] + f[w.flightOffset..];
      assert w.sent + (w.held + f[w.flightOffset..]) == w.sent + w.held + f[w.flightOffset..];
    }
    assert Sealed(cfg.cipher, w.records, n, n) == [];
    assert Sealed(cfg.cipher, w.records, 0, n) + [][..0] == Sealed(cfg.cipher, w.records, 0, n);
  }

  lemma SealKeeps(cfg: Config, w: Writer, r: Record)
    requires Ok(cfg, w) && w.flight == None && Seal(cfg, w, r).Some?
    ensures Ok(cfg, Seal(cfg, w, r).value)
  {
    var c := cfg.cipher.seal(|w.records|, r).value;
    SealedSnoc(cfg.cipher, w.records, r, 0);
    assert w.sent + (w.held + c) == w.sent + w.held + c;
  }

  /** What one call of do_ssl3_write does: it goes on with the pending record, or seals one more, or neither. */
  ghost predicate WroteOne(w: Writer, typ: nat, addr: nat, input: seq<byte>, t: Writer, ret: int) {
    && t.wnum == w.wnum && t.shutdown == w.shutdown && w.sent <= t.sent && ret <= |input|
    && (ret > 0 ==> t.pending == None && t.held == [])
    && if w.pending.Some? then
         && t.records == w.records
         && (if ret > 0 then ret == w.pending.value.tot && w.pending.value.typ == typ else t.pending == w.pending)
       else if ret > 0 || t.pending.Some? then
         && t.records == w.records + [Record(typ, input)] && |input| > 0
         && (if ret > 0 then ret == |input| else t.pending == Some(Pending(|input|, addr, typ)))
       else t.records == w.records
  }

  lemma StageKeeps(cfg: Config, w: Writer, typ: nat, addr: nat, input: seq<byte>)
    requires Ok(cfg, w) && input != []
    ensures var (t, ok) := Stage(cfg, w, typ, addr, input);
            && Ok(cfg, t) && t.wnum == w.wnum && t.shutdown == w.shutdown && t.sent == w.sent
            && (if ok then
                  t.records == w.records + [Record(typ, input)] && t.pending == Some(Pending(|input|, addr, typ))
                else t.records == w.records && t.pending == w.pending)
  {
    MoveFlightKeeps(cfg, w);
    if Stage(cfg, w, typ, addr, input).1 { SealKeeps(cfg, MoveFlight(w), Record(typ, input)); }
  }

  lemma DoWriteKeeps(cfg: Config, w: Writer, typ: nat, addr: nat, input: seq<byte>)
    requires Ok(cfg, w)
    ensures var (t, ret) := DoWrite(cfg, w, typ, addr, input);
            Ok(cfg, t) && WroteOne(w, typ, addr, input, t, ret)
  {
    hide Ok, Stage, WritePending;
    if w.pending.Some? {
      WritePendingKeeps(cfg, w, typ, addr, |input|);
    } else if |input| <= MAX_PLAIN_LENGTH && w.held == [] && input != [] {
      StageKeeps(cfg, w, typ, addr, input);
      var (t, ok) := Stage(cfg, w, typ, addr, input);
      if ok { WritePendingKeeps(cfg, t, typ, addr, |input|); }
    }
  }

  lemma AddRecordKeeps(cfg: Config, w: Writer, r: Record)
    requires Ok(cfg, w) && w.flightOffset == 0 && r.kind != APPLICATION_DATA
    ensures var (t, ok) := AddRecord(cfg, w, r);
            && Ok(cfg, t) && t == w.(flight := t.flight, records := t.records)
            && t.records == if ok then w.records + [r] else w.records
  {
    hide ConfigOk;
    var c := cfg.cipher.seal(|w.records|, r);
    if c.Some? {
      SealedSnoc(cfg.cipher, w.records, r, w.flightStart);
      SealedOfMore(cfg.cipher, w.records, [r], 0, w.flightStart);
    }
  }

  /** The flight grows by records without application data. */
  ghost predicate Grown(cfg: Config, w: Writer, t: Writer) {
    && Ok(cfg, t) && t == w.(flight := t.flight, records := t.records)
    && AppData(t.records) == AppData(w.records) && w.records <= t.records
  }

  lemma GrowsByOne(cfg: Config, w: Writer, r: Record)
    requires Ok(cfg, w) && w.flightOffset == 0 && r.kind != APPLICATION_DATA
    ensures Grown(cfg, w, AddRecord(cfg, w, r).0)
    ensures AddRecord(cfg, w, r).1 ==> AddRecord(cfg, w, r).0.records == w.records + [r]
  {
    hide Ok;
    AddRecordKeeps(cfg, w, r);
    AppDataConcat(w.records, [r]);
    NoAppData([r]);
  }

  lemma {:induction false} AddRecordsKeeps(cfg: Config, w: Writer, rs: seq<Record>)
    requires Ok(cfg, w) && w.flightOffset == 0 && forall r | r in rs :: r.kind != APPLICATION_DATA
    ensures var (t, ok) := AddRecords(cfg, w, rs);
            Grown(cfg, w, t) && (ok ==> t.records == w.records + rs)
    decreases |rs|
  {
    hide Ok, AddRecord, AppData;
    if rs != [] {
      GrowsByOne(cfg, w, rs[0]);
      AddRecordsKeeps(cfg, AddRecord(cfg, w, rs[0]).0, rs[1..]);
      assert w.records + rs == w.records + [rs[0]] + rs[1..];
    }
  }

  lemma FlightMoves(cfg: Config, w: Writer, n: nat)
    requires Ok(cfg, w) && w.held == [] && n <= |FlightRest(w)|
    ensures Ok(cfg, w.(sent := w.sent + FlightRest(w)[..n], flightOffset := w.flightOffset + n))
  {
    hide ConfigOk, Sealed;
    var f, at := FlightBytes(w), w.flightOffset;
    assert f[..at + n] == f[..at] + f[at..][..n];
    assert w.sent + f[at..][..n] + [] == w.sent + [] + f[at..][..n];
  }

  lemma {:induction false} SendFlightKeeps(cfg: Config, w: Writer)
    requires Ok(cfg, w) && w.held == []
    ensures var (t, ret) := SendFlight(w);
            && Ok(cfg, t) && t == w.(sent := t.sent, answers := t.answers, flightOffset := t.flightOffset)
            && w.sent <= t.sent && (ret > 0 ==> t.flightOffset >= |FlightBytes(t)|)
    decreases |FlightRest(w)|
  {
    hide Ok, Take;
    if w.flightOffset < |FlightBytes(w)| {
      OkElsewhere(cfg, w, Take(w, FlightRest(w)).0.(sent := w.sent));
      var (t, ret) := Take(w, FlightRest(w));
      if ret > 0 {
        FlightMoves(cfg, w.(answers := t.answers), ret);
        SendFlightKeeps(cfg, t.(flightOffset := w.flightOffset + ret));
      }
    }
  }

  lemma ReleaseKeeps(cfg: Config, w: Writer)
    requires Ok(cfg, w) && w.held == [] && w.flightOffset >= |FlightBytes(w)|
    ensures Ok(cfg, ReleaseFlight(w)) && w.sent == Sealed(cfg.cipher, w.records, 0, |w.records|)
  {
    hide ConfigOk;
    var f := FlightBytes(w);
    SealedSplit(cfg.cipher, w.records, 0, w.flightStart, |w.records|);
    assert f[..|f|] == f && w.sent + [] == w.sent;
  }

  ghost predicate OnlyTransport(cfg: Config, w: Writer, t: Writer) {
    && Ok(cfg, t) && t.records == w.records && t.wnum == w.wnum && t.pending == w.pending && t.shutdown == w.shutdown
    && t.alert == w.alert && w.sent <= t.sent
  }

  lemma FinishFlightKeeps(cfg: Config, w: Writer)
    requires Ok(cfg, w) && w.held == []
    ensures var (t, ret) := FinishFlight(w);
            && OnlyTransport(cfg, w, t)
            && (ret > 0 ==> t.flight == None && t.held == [] && t.sent == Sealed(cfg.cipher, w.records, 0, |w.records|))
  {
    hide Ok, SendFlight;
    SendFlightKeeps(cfg, w);
    var t := SendFlight(w).0;
    OkElsewhere(cfg, t, Flush(t).0);
    if t.flightOffset >= |FlightBytes(t)| { ReleaseKeeps(cfg, Flush(t).0); }
  }

  /** A flight that was flushed is on the transport, and everything sealed before it. */
  lemma FlushFlightKeeps(cfg: Config, w: Writer)
    requires Ok(cfg, w)
    ensures var (t, ret) := FlushFlight(w);
            && OnlyTransport(cfg, w, t)
            && (ret > 0 && w.flight.Some? ==>
                  t.flight == None && t.held == [] && t.sent == Sealed(cfg.cipher, w.records, 0, |w.records|))
  {
    hide Ok, FlushHeld, FinishFlight;
    FlushHeldKeeps(w);
    var t := if w.held == [] then w else FlushHeld(w).0;
    OkAfterFlush(cfg, w, t);
    if t.held == [] { FinishFlightKeeps(cfg, t); }
  }

  // How much of a write has been sealed.

  /** What has been sealed of the write under way, begun before and continued with this input up to length n. */
  function Continued(begun: seq<byte>, input: seq<byte>, n: nat): seq<byte> {
    if |begun| <= n <= |input| then begun + input[|begun|..n] else begun
  }

  /** The application data sealed is what was acknowledged, and what was begun since. */
  ghost predicate Accounts(w: Writer, accepted: seq<byte>, begun: seq<byte>) {
    AppData(w.records) == accepted + begun && |begun| == Sealing(w)
  }

  lemma AppDataSnoc(records: seq<Record>, r: Record)
    ensures AppData(records + [r]) == AppData(records) + if r.kind == APPLICATION_DATA then r.body else []
  {
    AppDataConcat(records, [r]);
    assert AppData([r]) == (if r.kind == APPLICATION_DATA then r.body else []) + [];
  }

  /** One do_ssl3_write, from position tot of the input. */
  lemma OneAccounts(w: Writer, addr: nat, input: seq<byte>, tot: nat, nw: nat, t: Writer, ret: int,
                    accepted: seq<byte>, begun: seq<byte>)
    requires tot + nw <= |input| && w.wnum == 0
    requires WroteOne(w, APPLICATION_DATA, addr, input[tot..tot + nw], t, ret)
    requires Accounts(w.(wnum := tot), accepted, begun)
    ensures if ret > 0 then |begun| <= tot + ret <= |input| && InPending(t) == 0
                            && Accounts(t.(wnum := tot + ret), accepted, Continued(begun, input, tot + ret))
            else |begun| <= tot + InPending(t)
                 && Accounts(t.(wnum := tot), accepted, Continued(begun, input, tot + InPending(t)))
  {
    if t.records != w.records {
      var body := input[tot..tot + nw];
      AppDataSnoc(w.records, Record(APPLICATION_DATA, body));
      assert accepted + (begun + body) == accepted + begun + body;
    } else if |begun| <= |input| {
      assert begun + input[|begun|..|begun|] == begun;
    }
  }

  lemma ContinuedTwice(begun: seq<byte>, input: seq<byte>, m: nat, n: nat)
    requires |begun| <= m <= |input| && m <= n
    ensures Continued(Continued(begun, input, m), input, n) == Continued(begun, input, if n <= |input| then n else m)
  {
    if n <= |input| { assert begun + input[|begun|..m] + input[m..n] == begun + input[|begun|..n]; }
  }

  /** Nothing sealed or sent is taken back. */
  ghost predicate Onward(w: Writer, t: Writer) {
    w.records <= t.records && w.sent <= t.sent && t.shutdown == w.shutdown
  }

  /** What a call has sealed when it returns: with ret > 0 all up to there, and otherwise what Sealing says. */
  ghost predicate SealedBy(cfg: Config, t: Writer, ret: int, accepted: seq<byte>, begun: seq<byte>, input: seq<byte>) {
    && Ok(cfg, t) && |begun| <= (if ret > 0 then ret else Sealing(t))
    && (if ret > 0 then
          ret <= |input| && Sealing(t) == 0 && t.held == []
          && AppData(t.records) == accepted + Continued(begun, input, ret)
        else Accounts(t, accepted, Continued(begun, input, Sealing(t))))
  }

  /** One turn of the loop: where it stops, and where it goes on. */
  lemma TurnSeals(cfg: Config, w: Writer, addr: nat, input: seq<byte>, tot: nat, accepted: seq<byte>, begun: seq<byte>)
    requires Ok(cfg, w) && w.wnum == 0 && tot <= |input| && Accounts(w.(wnum := tot), accepted, begun)
    ensures var (t, ret) := DoWrite(cfg, w, APPLICATION_DATA, addr + tot, Chunk(cfg, input, tot));
            && Ok(cfg, t) && ret <= |input| - tot && t.wnum == 0 && Onward(w, t)
            && (if ret <= 0 then SealedBy(cfg, t.(wnum := tot), ret, accepted, begun, input)
                else SealedBy(cfg, t, tot + ret, accepted, begun, input) && |begun| <= tot + ret
                     && Accounts(t.(wnum := tot + ret), accepted, Continued(begun, input, tot + ret)))
  {
    hide Ok, DoWrite, Continued, AppData;
    var (t, ret) := DoWrite(cfg, w, APPLICATION_DATA, addr + tot, Chunk(cfg, input, tot));
    DoWriteKeeps(cfg, w, APPLICATION_DATA, addr + tot, Chunk(cfg, input, tot));
    OkElsewhere(cfg, t, t.(wnum := tot));
    OneAccounts(w, addr + tot, input, tot, Least(|input| - tot, cfg.maxSendFragment), t, ret, accepted, begun);
  }

  /** What later turns seal continues what the earlier ones did. */
  lemma SealsOn(cfg: Config, u: Writer, one: int, accepted: seq<byte>, begun: seq<byte>, input: seq<byte>, m: nat)
    requires |begun| <= m <= |input| && SealedBy(cfg, u, one, accepted, Continued(begun, input, m), input)
    ensures SealedBy(cfg, u, one, accepted, begun, input)
  {
    hide Ok;
    var n: nat := if one > 0 then one else Sealing(u);
    ContinuedTwice(begun, input, m, n);
  }

  lemma {:induction false} WriteFromSeals(cfg: Config, w: Writer, addr: nat, input: seq<byte>, tot: nat,
                                          accepted: seq<byte>, begun: seq<byte>)
    requires Ok(cfg, w) && w.wnum == 0 && tot <= |input| && Accounts(w.(wnum := tot), accepted, begun)
    ensures var (t, ret) := WriteFrom(cfg, w, addr, input, tot);
            SealedBy(cfg, t, ret, accepted, begun, input) && Onward(w, t)
    decreases |input| - tot
  {
    hide DoWrite, Accounts, Continued, SealedBy;
    var (t, ret) := DoWrite(cfg, w, APPLICATION_DATA, addr + tot, Chunk(cfg, input, tot));
    TurnSeals(cfg, w, addr, input, tot, accepted, begun);
    if 0 < ret < |input| - tot && !cfg.partialWrites {
      WriteFromSeals(cfg, t, addr, input, tot + ret, accepted, Continued(begun, input, tot + ret));
      var (u, one) := WriteFrom(cfg, t, addr, input, tot + ret);
      SealsOn(cfg, u, one, accepted, begun, input, tot + ret);
    }
  }

  /** A whole call of ssl3_write_app_data that keeps count. */
  lemma WriteSeals(cfg: Config, w: Writer, addr: nat, input: seq<byte>, len: int, accepted: seq<byte>, begun: seq<byte>)
    requires Ok(cfg, w) && Accounts(w, accepted, begun) && (len < 0 || len == |input|)
    requires w.shutdown || !BadLength(w, len) || w.wnum == 0
    ensures var (t, ret) := Write(cfg, w, addr, input, len);
            SealedBy(cfg, t, ret, accepted, begun, input) && Onward(w, t) && (ret > 0 ==> ret <= len)
  {
    hide Ok;
    if |begun| <= |input| { assert begun + input[|begun|..|begun|] == begun; }
    if !w.shutdown && !BadLength(w, len) {
      OkElsewhere(cfg, w, w.(wnum := 0));
      WriteFromSeals(cfg, w.(wnum := 0), addr, input, w.wnum, accepted, begun);
    }
  }

  // What the peer reads.

  lemma AppDataPrefix(a: seq<Record>, b: seq<Record>)
    requires a <= b
    ensures AppData(a) <= AppData(b)
  {
    AppDataConcat(a, b[|a|..]);
    assert a + b[|a|..] == b;
  }

  /** The application data a receiver opens from what the transport took. */
  ghost function PeerRead(cfg: Config, w: Writer): seq<byte> { AppData(OpenAll(cfg.cipher, 0, w.sent)) }

  /** The first m records hold these bytes, and are on the transport. */
  ghost predicate Arrived(cfg: Config, w: Writer, bytes: seq<byte>, m: nat) {
    && m <= |w.records| && AppData(w.records[..m]) == bytes
    && Sealable(cfg.cipher, w.records) && |Sealed(cfg.cipher, w.records, 0, m)| <= |w.sent|
  }

  /** The peer reads what arrived, and nothing that was not sealed. */
  lemma ReadsWhatArrived(cfg: Config, w: Writer, bytes: seq<byte>, m: nat)
    requires Ok(cfg, w) && Lawful(cfg.cipher) && Arrived(cfg, w, bytes, m)
    ensures bytes <= PeerRead(cfg, w) <= AppData(w.records)
  {
    hide ConfigOk;
    var c, n, f := cfg.cipher, |w.records|, FlightBytes(w);
    var all := Sealed(c, w.records, 0, n);
    SealedSplit(c, w.records, 0, w.flightStart, n);
    SealedSplit(c, w.records, 0, m, n);
    assert w.sent <= all by {
      assert all == Sealed(c, w.records, 0, w.flightStart) + f[..w.flightOffset] + f[w.flightOffset..];
      assert all == w.sent + (w.held + f[w.flightOffset..]);
    }
    assert Sealed(c, w.records, 0, m) <= w.sent;
    OpenPrefix(c, w.records, 0, m, w.sent);
    AppDataPrefix(w.records[..m], OpenAll(c, 0, w.sent));
    AppDataPrefix(OpenAll(c, 0, w.sent), w.records);
  }

  /** With the write buffer empty all application data that was sealed has arrived. */
  lemma AllArrived(cfg: Config, w: Writer)
    requires Ok(cfg, w) && w.held == []
    ensures Arrived(cfg, w, AppData(w.records), w.flightStart)
  {
    hide ConfigOk;
    var before, after := w.records[..w.flightStart], w.records[w.flightStart..];
    forall r | r in after ensures r.kind != APPLICATION_DATA {
      var i :| 0 <= i < |after| && after[i] == r;
      assert r == w.records[w.flightStart + i];
    }
    NoAppData(after);
    AppDataConcat(before, after);
    assert before + after == w.records && w.sent + [] == w.sent;
  }

  lemma StillArrived(cfg: Config, w: Writer, t: Writer, bytes: seq<byte>, m: nat)
    requires Arrived(cfg, w, bytes, m) && Sealable(cfg.cipher, t.records)
    requires w.records <= t.records && |w.sent| <= |t.sent|
    ensures Arrived(cfg, t, bytes, m)
  {
    var more := t.records[|w.records|..];
    assert t.records == w.records + more && t.records[..m] == w.records[..m];
    SealedOfMore(cfg.cipher, w.records, more, 0, m);
  }

  // Runs.

  /** What the application and the handshake ask for. */
  datatype Call =
    | WriteCall(addr: nat, input: seq<byte>, len: int)
    | MessageCall(msg: seq<byte>)
    | CcsCall
    | WarningCall(level: byte, desc: byte)    // with the flight
    | FlushCall
    | AlertCall(level: byte, desc: byte)      // closes the write side
    | DispatchCall                            // of an alert that had to wait

  /**
   The application's view: the bytes of all writes that returned a positive number, up to it, what has been sealed of
   the write under way, and how many records there were when the last of those writes returned.
   */
  datatype Session = Session(w: Writer, accepted: seq<byte>, begun: seq<byte>, flushed: nat)

  function Begin(answers: seq<int>): Session { Session(Start(answers), [], [], 0) }

  /** A retry offers the same bytes as far as they have been sealed. */
  predicate Agrees(begun: seq<byte>, input: seq<byte>) { begun <= input || input <= begun }

  /** A length that does not make the writer forget, and a flight that has not begun to go out. */
  predicate Possible(s: Session, call: Call) {
    match call
    case WriteCall(_, input, len) =>
      (len < 0 || len == |input|) && (s.w.shutdown || !BadLength(s.w, len) || s.w.wnum == 0)
    case MessageCall(_) => s.w.flightOffset == 0
    case CcsCall => s.w.flightOffset == 0
    case WarningCall(_, _) => s.w.flightOffset == 0
    case FlushCall => true
    case AlertCall(_, _) => true
    case DispatchCall => s.w.alert.Some?
  }

  predicate Allowed(s: Session, call: Call) {
    Possible(s, call) && (call.WriteCall? ==> Agrees(s.begun, call.input))
  }

  function Do(cfg: Config, s: Session, call: Call): Session
    requires Possible(s, call) && cfg.maxSendFragment > 0
  {
    match call
    case WriteCall(addr, input, len) =>
      var (t, ret) := Write(cfg, s.w, addr, input, len);
      if 0 < ret <= |input| then Session(t, s.accepted + input[..ret], [], t.flightStart)
      else s.(w := t, begun := Continued(s.begun, input, Sealing(t)))
    case MessageCall(msg) => s.(w := AddMessage(cfg, s.w, msg).0)
    case CcsCall => s.(w := AddCcs(cfg, s.w).0)
    case WarningCall(level, desc) => s.(w := AddAlert(cfg, s.w, level, desc).0)
    case FlushCall => s.(w := FlushFlight(s.w).0)
    case AlertCall(level, desc) => s.(w := SendAlert(cfg, s.w, level, desc).0)
    case DispatchCall => s.(w := DispatchAlert(cfg, s.w).0)
  }

  ghost predicate SessionOk(cfg: Config, s: Session) {
    Ok(cfg, s.w) && Accounts(s.w, s.accepted, s.begun) && Arrived(cfg, s.w, s.accepted, s.flushed)
  }

  lemma WriteCallKeeps(cfg: Config, s: Session, call: Call)
    requires SessionOk(cfg, s) && Allowed(s, call) && call.WriteCall? && cfg.maxSendFragment > 0
    ensures SessionOk(cfg, Do(cfg, s, call))
  {
    hide Write;
    var WriteCall(addr, input, len) := call;
    var (t, ret) := Write(cfg, s.w, addr, input, len);
    WriteSeals(cfg, s.w, addr, input, len, s.accepted, s.begun);
    if ret > 0 {
      AllArrived(cfg, t);
      assert s.begun <= input && Continued(s.begun, input, ret) == input[..ret];
    } else {
      StillArrived(cfg, s.w, t, s.accepted, s.flushed);
    }
  }

  /** What adds no application data and takes nothing back keeps the account. */
  lemma OtherKeeps(cfg: Config, s: Session, t: Writer)
    requires SessionOk(cfg, s) && Ok(cfg, t) && AppData(t.records) == AppData(s.w.records)
    requires Sealing(t) == Sealing(s.w) && s.w.records <= t.records && s.w.sent <= t.sent
    ensures SessionOk(cfg, s.(w := t))
  {
    StillArrived(cfg, s.w, t, s.accepted, s.flushed);
  }

  lemma DispatchKeeps(cfg: Config, s: Session)
    requires SessionOk(cfg, s) && s.w.alert.Some?
    ensures SessionOk(cfg, s.(w := DispatchAlert(cfg, s.w).0))
  {
    hide Ok, DoWrite, Arrived;
    var Alert(level, desc) := s.w.alert.value;
    DoWriteKeeps(cfg, s.w, ALERT, cfg.alertAddr, [level, desc]);
    var t := DoWrite(cfg, s.w, ALERT, cfg.alertAddr, [level, desc]).0;
    AppDataSnoc(s.w.records, Record(ALERT, [level, desc]));
    OtherKeeps(cfg, s, t);
    var u := t.(alert := None);
    OkElsewhere(cfg, t, u);
    OtherKeeps(cfg, s, u);
    OkElsewhere(cfg, t, Flush(u).0);
    OtherKeeps(cfg, s, Flush(u).0);
  }

  lemma AlertKeeps(cfg: Config, s: Session, level: byte, desc: byte)
    requires SessionOk(cfg, s)
    ensures SessionOk(cfg, s.(w := SendAlert(cfg, s.w, level, desc).0))
  {
    hide Ok, DispatchAlert, Arrived;
    var w := s.w.(shutdown := true, alert := Some(Alert(level, desc)));
    OkElsewhere(cfg, s.w, w);
    OtherKeeps(cfg, s, w);
    DispatchKeeps(cfg, s.(w := w));
  }

  lemma QueuedKeeps(cfg: Config, s: Session, r: Record)
    requires SessionOk(cfg, s) && s.w.flightOffset == 0 && r.kind != APPLICATION_DATA
    ensures SessionOk(cfg, s.(w := AddRecord(cfg, s.w, r).0))
  {
    hide Ok, AddRecord, Arrived;
    GrowsByOne(cfg, s.w, r);
    OtherKeeps(cfg, s, AddRecord(cfg, s.w, r).0);
  }

  lemma DoKeeps(cfg: Config, s: Session, call: Call)
    requires SessionOk(cfg, s) && Allowed(s, call) && cfg.maxSendFragment > 0
    ensures SessionOk(cfg, Do(cfg, s, call))
  {
    hide Ok;
    match call {
      case WriteCall(_, _, _) => WriteCallKeeps(cfg, s, call);
      case MessageCall(msg) =>
        AddRecordsKeeps(cfg, s.w, Chunks(msg, cfg.maxSendFragment));
        OtherKeeps(cfg, s, AddMessage(cfg, s.w, msg).0);
      case CcsCall => QueuedKeeps(cfg, s, Record(CHANGE_CIPHER_SPEC, [1]));
      case WarningCall(level, desc) => QueuedKeeps(cfg, s, Record(ALERT, [level, desc]));
      case DispatchCall => DispatchKeeps(cfg, s);
      case FlushCall =>
        FlushFlightKeeps(cfg, s.w);
        OtherKeeps(cfg, s, FlushFlight(s.w).0);
      case AlertCall(level, desc) => AlertKeeps(cfg, s, level, desc);
    }
  }

  /** Each call is allowed where the calls before it have led. */
  ghost predicate AllAllowed(cfg: Config, s: Session, calls: seq<Call>)
    decreases |calls|
  {
    cfg.maxSendFragment > 0 &&
    (calls != [] ==> Allowed(s, calls[0]) && AllAllowed(cfg, Do(cfg, s, calls[0]), calls[1..]))
  }

  ghost function Run(cfg: Config, s: Session, calls: seq<Call>): Session
    requires AllAllowed(cfg, s, calls)
    decreases |calls|
  {
    if calls == [] then s else Run(cfg, Do(cfg, s, calls[0]), calls[1..])
  }

  lemma {:induction false} RunKeeps(cfg: Config, s: Session, calls: seq<Call>)
    requires SessionOk(cfg, s) && AllAllowed(cfg, s, calls)
    ensures SessionOk(cfg, Run(cfg, s, calls))
    decreases |calls|
  {
    if calls != [] {
      DoKeeps(cfg, s, calls[0]);
      RunKeeps(cfg, Do(cfg, s, calls[0]), calls[1..]);
    }
  }

  lemma BeginOk(cfg: Config, answers: seq<int>)
    requires ConfigOk(cfg)
    ensures SessionOk(cfg, Begin(answers))
  {
  }

  /**
   Over every list of writes and retries, messages, ChangeCipherSpecs, alerts and flushes, and for every pattern of
   short and failed transport writes: the peer has every byte that was acknowledged, once and in order, then at most
   the sealed start of the write under way, and all of that once the write buffer is empty.
   */
  lemma EveryRunDelivers(cfg: Config, answers: seq<int>, calls: seq<Call>)
    requires ConfigOk(cfg) && Lawful(cfg.cipher) && AllAllowed(cfg, Begin(answers), calls)
    ensures var s := Run(cfg, Begin(answers), calls);
            && s.accepted <= PeerRead(cfg, s.w) <= s.accepted + s.begun
            && (s.w.held == [] ==> PeerRead(cfg, s.w) == s.accepted + s.begun)
  {
    hide Ok, PeerRead;
    BeginOk(cfg, answers);
    RunKeeps(cfg, Begin(answers), calls);
    var s := Run(cfg, Begin(answers), calls);
    ReadsWhatArrived(cfg, s.w, s.accepted, s.flushed);
    if s.w.held == [] {
      AllArrived(cfg, s.w);
      ReadsWhatArrived(cfg, s.w, AppData(s.w.records), s.w.flightStart);
    }
  }

  // An application that writes a stream: every write begins where the acknowledged bytes end.

  predicate OnStream(data: seq<byte>, s: Session, call: Call) {
    call.WriteCall? ==> |s.accepted| <= |data| && call.input <= data[|s.accepted|..]
  }

  ghost predicate AllOnStream(cfg: Config, data: seq<byte>, s: Session, calls: seq<Call>)
    decreases |calls|
  {
    cfg.maxSendFragment > 0 &&
    (calls != [] ==> && Possible(s, calls[0]) && OnStream(data, s, calls[0])
                     && AllOnStream(cfg, data, Do(cfg, s, calls[0]), calls[1..]))
  }

  lemma StreamStep(cfg: Config, data: seq<byte>, s: Session, call: Call)
    requires SessionOk(cfg, s) && s.accepted + s.begun <= data && cfg.maxSendFragment > 0
    requires Possible(s, call) && OnStream(data, s, call)
    ensures Allowed(s, call) && Do(cfg, s, call).accepted + Do(cfg, s, call).begun <= data
  {
    hide Ok, Write;
    if call.WriteCall? {
      var rest, input := data[|s.accepted|..], call.input;
      assert s.begun <= rest && data == s.accepted + rest;
      var (t, ret) := Write(cfg, s.w, call.addr, input, call.len);
      if 0 < ret <= |input| {
        assert input[..ret] <= rest;
      } else {
        assert Continued(s.begun, input, Sealing(t)) <= rest;
      }
    }
  }

  lemma {:induction false} StreamRuns(cfg: Config, data: seq<byte>, s: Session, calls: seq<Call>)
    requires SessionOk(cfg, s) && s.accepted + s.begun <= data && AllOnStream(cfg, data, s, calls)
    ensures AllAllowed(cfg, s, calls)
    ensures Run(cfg, s, calls).accepted + Run(cfg, s, calls).begun <= data
    decreases |calls|
  {
    hide Ok, Do;
    if calls != [] {
      StreamStep(cfg, data, s, calls[0]);
      DoKeeps(cfg, s, calls[0]);
      StreamRuns(cfg, data, Do(cfg, s, calls[0]), calls[1..]);
    }
  }

  /** What the peer reads of a stream is a prefix of it, no shorter than what was acknowledged. */
  lemma StreamDelivers(cfg: Config, data: seq<byte>, answers: seq<int>, calls: seq<Call>)
    requires ConfigOk(cfg) && Lawful(cfg.cipher) && AllOnStream(cfg, data, Begin(answers), calls)
    ensures AllAllowed(cfg, Begin(answers), calls)
    ensures var s := Run(cfg, Begin(answers), calls);
            && s.accepted <= PeerRead(cfg, s.w) <= data && |s.accepted| + Sealing(s.w) <= |data|
            && (s.w.held == [] ==> PeerRead(cfg, s.w) == data[..|s.accepted| + Sealing(s.w)])
  {
    hide Ok, PeerRead;
    BeginOk(cfg, answers);
    StreamRuns(cfg, data, Begin(answers), calls);
    EveryRunDelivers(cfg, answers, calls);
    RunKeeps(cfg, Begin(answers), calls);
    var s := Run(cfg, Begin(answers), calls);
    assert s.accepted + s.begun == data[..|s.accepted| + |s.begun|];
  }

  // A length shorter than what was written is refused after that count has been cleared.

  /** The writer takes what it forgot for acknowledged. */
  lemma BadLengthForgets(cfg: Config, w: Writer, addr: nat, input: seq<byte>, len: int,
                         accepted: seq<byte>, begun: seq<byte>)
    requires Ok(cfg, w) && Accounts(w, accepted, begun) && !w.shutdown && BadLength(w, len)
    requires len < 0 || len == |input|
    ensures var t := Write(cfg, w, addr, input, len).0;
            && Ok(cfg, t) && !t.shutdown && t.wnum == 0 && t.records == w.records
            && Accounts(t, accepted + begun[..w.wnum], begun[w.wnum..])
            && (Accounts(t, accepted, begun) <==> w.wnum == 0)
  {
    OkElsewhere(cfg, w, w.(wnum := 0));
    assert accepted + begun == accepted + begun[..w.wnum] + begun[w.wnum..];
  }

  /**
   After a bad length a retry that succeeds has delivered exactly the bytes it acknowledges if and only if nothing was
   written before: the peer reads as many bytes too many as the count that was cleared.
   */
  lemma RetryAfterBadLength(cfg: Config, w: Writer, len: int, short: seq<byte>, addr: nat, input: seq<byte>,
                            accepted: seq<byte>, begun: seq<byte>)
    requires Ok(cfg, w) && Lawful(cfg.cipher) && Accounts(w, accepted, begun) && !w.shutdown && BadLength(w, len)
    requires len < 0 || len == |short|
    requires Write(cfg, Write(cfg, w, addr, short, len).0, addr, input, |input|).1 > 0
    ensures var (u, ret) := Write(cfg, Write(cfg, w, addr, short, len).0, addr, input, |input|);
            && |PeerRead(cfg, u)| == |accepted| + w.wnum + ret
            && (|PeerRead(cfg, u)| == |accepted| + ret <==> w.wnum == 0)
  {
    hide Ok, Write;
    BadLengthForgets(cfg, w, addr, short, len, accepted, begun);
    var t := Write(cfg, w, addr, short, len).0;
    var (u, ret) := Write(cfg, t, addr, input, |input|);
    var before, rest := accepted + begun[..w.wnum], begun[w.wnum..];
    WriteSeals(cfg, t, addr, input, |input|, before, rest);
    AllArrived(cfg, u);
    ReadsWhatArrived(cfg, u, AppData(u.records), u.flightStart);
    assert |Continued(rest, input, ret)| == ret;
  }

  // Such a run, at every fragment size: two records, of which the second does not go out; a bad length; the same again.

  function PlainSeal(r: Record): Option<seq<byte>> {
    if r.kind < 256 && |r.body| < TWO16 then Some([r.kind, |r.body| / 256, |r.body| % 256] + r.body) else None
  }

  function PlainOpen(bytes: seq<byte>): Option<Opened> {
    if |bytes| < 3 then None
    else
      var n := 3 + 256 * bytes[1] as int + bytes[2] as int;
      if |bytes| < n then None else Some(Opened(Record(bytes[0] as int, bytes[3..n]), n))
  }

  /** Records without encryption, of at most m bytes; a retry may come from another buffer. */
  function Plain(m: nat): Config {
    Config(Cipher((n: nat, r: Record) => PlainSeal(r), (n: nat, bytes: seq<byte>) => PlainOpen(bytes), 3),
           m, false, true, 0)
  }

  lemma PlainIsLawful(m: nat)
    requires 0 < m <= MAX_PLAIN_LENGTH
    ensures ConfigOk(Plain(m)) && Lawful(Plain(m).cipher)
  {
    forall n: nat, r: Record ensures SealLaw(Plain(m).cipher, n, r) {
      if PlainSeal(r).Some? {
        var s := PlainSeal(r).value;
        forall rest: seq<byte> ensures PlainOpen(s + rest) == Some(Opened(r, |s|)) {
          assert (s + rest)[3..3 + |r.body|] == r.body;
        }
        forall k | 0 <= k < |s| ensures PlainOpen(s[..k]) == None {}
      }
    }
  }

  /** A record that the transport takes whole, or not at all. */
  lemma PlainFlush(w: Writer)
    requires w.held != [] && w.answers != [] && (w.answers[0] <= 0 || w.answers[0] >= |w.held|)
    ensures var t := w.(answers := w.answers[1..]);
            FlushHeld(w) == if w.answers[0] <= 0 then (t, w.answers[0])
                            else (t.(sent := w.sent + w.held, held := []), 1)
  {
    if w.answers[0] >= |w.held| {
      assert w.held[..|w.held|] == w.held && w.held[|w.held|..] == [];
    }
  }

  /** The record that carries these bytes. */
  function PlainRecord(body: seq<byte>): seq<byte>
    requires |body| < TWO16
  {
    [23, |body| / 256, |body| % 256] + body
  }

  lemma PlainWrite(m: nat, w: Writer, addr: nat, body: seq<byte>)
    requires 0 < |body| == m <= MAX_PLAIN_LENGTH && w.held == [] && w.flight == None && w.pending == None
    requires w.answers != [] && (w.answers[0] <= 0 || w.answers[0] >= m + 3)
    ensures var t := w.(records := w.records + [Record(APPLICATION_DATA, body)], flightStart := |w.records| + 1,
                        flightOffset := 0, answers := w.answers[1..]);
            DoWrite(Plain(m), w, APPLICATION_DATA, addr, body)
            == if w.answers[0] <= 0
               then (t.(held := PlainRecord(body), pending := Some(Pending(m, addr, APPLICATION_DATA))), w.answers[0])
               else (t.(sent := w.sent + PlainRecord(body)), m)
  {
    var r := Record(APPLICATION_DATA, body);
    assert MoveFlight(w).held == [];
    assert PlainSeal(r) == Some(PlainRecord(body)) && [] + PlainRecord(body) == PlainRecord(body);
    PlainFlush(Stage(Plain(m), w, APPLICATION_DATA, addr, body).0);
  }

  /** Two records are written one after the other. */
  lemma PlainTwo(m: nat, w: Writer, addr: nat, a: seq<byte>, b: seq<byte>, t: Writer, u: Writer, ret: int)
    requires 0 < |a| == |b| == m && !w.shutdown && w.wnum == 0
    requires DoWrite(Plain(m), w, APPLICATION_DATA, addr, a) == (t, m)
    requires DoWrite(Plain(m), t, APPLICATION_DATA, addr + m, b) == (u, ret) && (ret < 0 || ret == m)
    ensures Write(Plain(m), w, addr, a + b, 2 * m) == if ret < 0 then (u.(wnum := m), ret) else (u, 2 * m)
  {
    hide DoWrite;
    assert Chunk(Plain(m), a + b, 0) == a && Chunk(Plain(m), a + b, m) == b;
    assert w.(wnum := 0) == w;
    assert WriteFrom(Plain(m), t, addr, a + b, m) == if ret < 0 then (u.(wnum := m), ret) else (u, 2 * m);
  }

  lemma PlainReads(m: nat, a: seq<byte>, b: seq<byte>, s0: Writer, s1: Writer, s2: Writer, s3: Writer, s4: Writer)
    requires 0 < m <= MAX_PLAIN_LENGTH && s0 == Start(s0.answers) && s4.held == []
    requires s1 == DoWrite(Plain(m), s0, APPLICATION_DATA, 0, a).0
    requires s2 == DoWrite(Plain(m), s1, APPLICATION_DATA, m, b).0
    requires s3 == DoWrite(Plain(m), s2, APPLICATION_DATA, 0, a).0
    requires s4 == DoWrite(Plain(m), s3, APPLICATION_DATA, m, b).0
    ensures PeerRead(Plain(m), s4) == AppData(s4.records)
  {
    var cfg := Plain(m);
    PlainIsLawful(m);
    hide DoWrite, WroteOne, PeerRead, Plain;
    BeginOk(cfg, s0.answers);
    DoWriteKeeps(cfg, s0, APPLICATION_DATA, 0, a);
    DoWriteKeeps(cfg, s1, APPLICATION_DATA, m, b);
    DoWriteKeeps(cfg, s2, APPLICATION_DATA, 0, a);
    DoWriteKeeps(cfg, s3, APPLICATION_DATA, m, b);
    AllArrived(cfg, s4);
    ReadsWhatArrived(cfg, s4, AppData(s4.records), s4.flightStart);
  }

  /** The pending record stands for any bytes of its length, of a buffer that may move. */
  lemma PlainResume(m: nat, w: Writer, addr: nat, body: seq<byte>)
    requires w.pending.Some? && w.pending.value.tot == |body| == m && w.pending.value.typ == APPLICATION_DATA
    requires w.held != [] && w.answers != [] && w.answers[0] >= |w.held|
    ensures DoWrite(Plain(m), w, APPLICATION_DATA, addr, body)
         == (w.(answers := w.answers[1..], sent := w.sent + w.held, held := [], pending := None), m)
  {
    PlainFlush(w);
  }

  lemma DataOfThree(a: seq<byte>, b: seq<byte>)
    ensures var x, y := Record(APPLICATION_DATA, a), Record(APPLICATION_DATA, b);
            AppData([x, y] + [y]) == a + b + b
  {
    var x, y := Record(APPLICATION_DATA, a), Record(APPLICATION_DATA, b);
    AppDataSnoc([x, y], y);
    AppDataSnoc([x], y);
    AppDataSnoc([], x);
    assert [x] + [y] == [x, y] && [] + [x] == [x];
  }

  /** The peer reads the second half twice. */
  lemma GoesOutTwice(a: seq<byte>, b: seq<byte>)
    requires 0 < |a| == |b| <= MAX_PLAIN_LENGTH
    ensures var m, n := |a|, |a| + 3;
            var (w1, one) := Write(Plain(m), Start([n, -1, n, n]), 0, a + b, 2 * m);
            var (w2, two) := Write(Plain(m), w1, 0, [], -1);
            var (w3, three) := Write(Plain(m), w2, 0, a + b, 2 * m);
            one == -1 && two == -1 && three == 2 * m && PeerRead(Plain(m), w3) == a + b + b
  {
    hide DoWrite, WriteFrom, PeerRead, Plain;
    var m, n := |a|, |a| + 3;
    var x, y := Record(APPLICATION_DATA, a), Record(APPLICATION_DATA, b);
    var s0 := Start([n, -1, n, n]);
    PlainWrite(m, s0, 0, a);
    var s1 := s0.(records := [x], flightStart := 1, sent := PlainRecord(a), answers := [-1, n, n]);
    assert s0.answers[1..] == s1.answers && s0.sent + PlainRecord(a) == s1.sent && s0.records + [x] == s1.records;
    PlainWrite(m, s1, m, b);
    var s2 := s1.(records := [x, y], flightStart := 2, answers := [n, n], held := PlainRecord(b),
                  pending := Some(Pending(m, m, APPLICATION_DATA)));
    assert s1.answers[1..] == s2.answers && s1.records + [y] == s2.records;
    PlainTwo(m, s0, 0, a, b, s1, s2, -1);
    PlainResume(m, s2, 0, a);
    var s3 := s2.(answers := [n], sent := s2.sent + s2.held, held := [], pending := None);
    assert s2.answers[1..] == s3.answers;
    PlainWrite(m, s3, m, b);
    var s4 := DoWrite(Plain(m), s3, APPLICATION_DATA, m, b).0;
    PlainTwo(m, s2, 0, a, b, s3, s4, m);
    PlainReads(m, a, b, s0, s1, s2, s3, s4);
    assert s4.records == [x, y] + [y];
    DataOfThree(a, b);
  }
}
