/**
 Non-blocking writes as the source has them (s3_pkt.cc, s3_both.cc, ssl_buffer.cc): a write buffer, a pending flight
 and a pending record, changed in place. Application data and alerts go through the write buffer, handshake messages
 through the flight, which goes first. TlsWrite specifies all of this on values.
 */
module TlsWriteClass {
  import opened Bytes
  import opened SslBuffer
  import opened TlsRecords
  import Spec = TlsWrite

  class TlsWriter {
    const cfg: Spec.Config
    const buffer: SSLBuffer

    // The transport: what it took, and its answers to the calls to come.
    var sent: seq<byte>
    var answers: seq<int>

    var shutdown: bool
    var sealedCount: nat
    var flight: Option<seq<byte>>
    var flightOffset: nat
    var wnum: nat
    var wpendPending: bool
    var wpendTot: nat
    var wpendBuf: nat
    var wpendType: nat
    var wpendRet: nat
    var alertDispatch: bool
    var alert: Spec.Alert

    ghost var records: seq<Record>
    ghost var flightStart: nat

    ghost function Value(): Spec.Writer
      requires buffer.Valid()
      reads this, buffer, buffer.buf
    {
      Spec.Writer(sent, answers, shutdown, buffer.Contents(), flight, flightOffset, records, flightStart, wnum,
                  if wpendPending then Some(Spec.Pending(wpendTot, wpendBuf, wpendType)) else None,
                  if alertDispatch then Some(alert) else None)
    }

    ghost predicate Good()
      reads this, buffer
    {
      && Spec.ConfigOk(cfg) && buffer.Valid() && buffer.Safe() && sealedCount == |records|
      && (if flight.Some? then flightOffset <= |flight.value| else flightOffset == 0)
      && (wpendPending ==> wpendRet == wpendTot)
    }

    function FlightLen(): nat
      requires flight.Some? ==> flightOffset <= |flight.value|
      reads this
    {
      if flight.Some? then |flight.value| - flightOffset else 0
    }

    /** The flight and a record leave room for the alignment, or are refused. */
    predicate FlightFits()
      requires flight.Some? ==> flightOffset <= |flight.value|
      reads this
    {
      || Roomy(FlightLen() + cfg.maxSendFragment + cfg.cipher.overhead)
      || FlightLen() + cfg.cipher.overhead + 1 >= TWO16
    }

    constructor (cfg: Spec.Config, answers: seq<int>)
      requires Spec.ConfigOk(cfg)
      ensures Good() && FlightFits() && fresh(buffer.Repr()) && Value() == Spec.Start(answers) && this.cfg == cfg
    {
      this.cfg, this.answers := cfg, answers;
      buffer := new SSLBuffer();
      sent, shutdown, sealedCount, flight, flightOffset, wnum := [], false, 0, None, 0, 0;
      wpendPending, wpendTot, wpendBuf, wpendType, wpendRet := false, 0, 0, 0, 0;
      alertDispatch, alert := false, Spec.Alert(0, 0);
      records, flightStart := [], 0;
    }

    // The transport.

    /** BIO_write: takes some of the bytes, or fails. */
    method BioWrite(bytes: seq<byte>) returns (ret: int)
      requires buffer.Valid()
      modifies this`sent, this`answers
      ensures (Value(), ret) == Spec.Take(old(Value()), bytes)
    {
      ret := -1;
      if answers != [] {
        ret := if answers[0] <= |bytes| then answers[0] else |bytes|;
        answers := answers[1..];
      }
      if ret > 0 {
        sent := sent + bytes[..ret];
      }
    }

    /** BIO_flush. */
    method BioFlush() returns (ret: int)
      requires buffer.Valid()
      modifies this`answers
      ensures (Value(), ret) == Spec.Flush(old(Value()))
    {
      ret := -1;
      if answers != [] {
        ret := answers[0];
        answers := answers[1..];
      }
    }

    method FlushSome() returns (ret: int)
      requires Good() && buffer.size != 0
      modifies this`sent, this`answers, buffer
      ensures Good() && buffer.buf == old(buffer.buf) && ret <= |old(Value()).held|
      ensures var (t, one) := Spec.Take(old(Value()), old(Value()).held);
              ret == one && Value() == if one > 0 then t.(held := t.held[one..]) else t
    {
      ret := BioWrite(buffer.buf[buffer.offset..buffer.offset as int + buffer.size]);
      if ret > 0 {
        buffer.Consume(ret);
      }
    }

    /** tls_write_buffer_flush. */
    method FlushBuffer() returns (ret: int)
      requires Good()
      modifies this`sent, this`answers, buffer
      ensures Good() && fresh(buffer.Repr() - old(buffer.Repr())) && (Value(), ret) == Spec.FlushHeld(old(Value()))
    {
      while buffer.size != 0
        invariant Good() && fresh(buffer.Repr() - old(buffer.Repr()))
        invariant Spec.FlushHeld(Value()) == Spec.FlushHeld(old(Value()))
        decreases buffer.size
      {
        ret := FlushSome();
        if ret <= 0 {
          return;
        }
      }
      buffer.Clear();
      ret := 1;
    }

    // The write buffer.

    /** ssl3_write_pending: the record in the buffer is flushed, and stands for the bytes it was sealed from. */
    method WritePending(typ: nat, addr: nat, len: nat) returns (ret: int)
      requires Good() && wpendPending
      modifies this`sent, this`answers, this`wpendPending, buffer
      ensures Good() && fresh(buffer.Repr() - old(buffer.Repr()))
      ensures (Value(), ret) == Spec.WritePending(cfg, old(Value()), typ, addr, len)
    {
      hide Spec.FlushHeld, Spec.ConfigOk;
      if wpendTot > len || (!cfg.movingBuffers && wpendBuf != addr) || wpendType != typ {
        return -1;
      }
      ret := FlushBuffer();
      if ret <= 0 {
        return;
      }
      wpendPending := false;
      ret := wpendRet;
    }

    /** The unflushed handshake data becomes a prefix of the record to come. */
    method MoveFlight()
      requires Good() && FlightLen() <= buffer.cap as int - buffer.size as int
      modifies this`flight, this`flightOffset, this`flightStart, buffer.Repr()
      ensures Good() && flight == None && fresh(buffer.Repr() - old(buffer.Repr()))
      ensures buffer.cap == old(buffer.cap) && Value() == Spec.MoveFlight(old(Value()))
    {
      hide Spec.ConfigOk;
      if flight.Some? {
        buffer.Append(flight.value[flightOffset..]);
      }
      flight, flightOffset, flightStart := None, 0, |records|;
    }

    /** tls_seal_record into the write buffer. */
    method SealRecord(r: Record) returns (ok: bool)
      requires Good() && |r.body| + cfg.cipher.overhead + buffer.size as int <= buffer.cap as int
      modifies this`records, this`flightStart, this`sealedCount, buffer.Repr()
      ensures Good() && fresh(buffer.Repr() - old(buffer.Repr()))
      ensures Spec.Seal(cfg, old(Value()), r) == if ok then Some(Value()) else None
      ensures !ok ==> Value() == old(Value())
    {
      hide Spec.ConfigOk;
      var c := cfg.cipher.seal(sealedCount, r);
      if c == None {
        return false;
      }
      SealFits(cfg, sealedCount, r);
      buffer.Append(c.value);
      records, sealedCount, flightStart := records + [r], sealedCount + 1, sealedCount + 1;
      ok := true;
    }

    /** The arguments are memorized so that ssl3_write_pending can detect bad retries. */
    method NotePending(typ: nat, addr: nat, len: nat)
      requires Good()
      modifies this`wpendPending, this`wpendTot, this`wpendBuf, this`wpendType, this`wpendRet
      ensures Good() && Value() == old(Value()).(pending := Some(Spec.Pending(len, addr, typ)))
    {
      hide Spec.ConfigOk;
      wpendTot, wpendBuf, wpendType, wpendRet, wpendPending := len, addr, typ, len, true;
    }

    /** The record goes into the buffer, and its bytes are now pending. */
    method SealPending(typ: nat, addr: nat, input: seq<byte>) returns (ok: bool)
      requires Good() && |input| + cfg.cipher.overhead + buffer.size as int <= buffer.cap as int
      modifies this`records, this`flightStart, this`sealedCount, this`wpendPending, this`wpendTot, this`wpendBuf,
        this`wpendType, this`wpendRet, buffer.Repr()
      ensures Good() && fresh(buffer.Repr() - old(buffer.Repr()))
      ensures var t := Spec.Seal(cfg, old(Value()), Record(typ, input));
              if ok then t.Some? && Value() == t.value.(pending := Some(Spec.Pending(|input|, addr, typ)))
              else t == None && Value() == old(Value())
    {
      hide Spec.Seal, Spec.ConfigOk;
      ok := SealRecord(Record(typ, input));
      if ok {
        NotePending(typ, addr, |input|);
      }
    }

    /** Room for the flight and a record of n bytes; the flight goes first. */
    method Reserve(n: nat, address: nat) returns (ok: bool)
      requires Good() && FlightFits() && 0 < n <= cfg.maxSendFragment && buffer.size == 0
      modifies this`flight, this`flightOffset, this`flightStart, buffer.Repr()
      ensures Good() && FlightFits() && fresh(buffer.Repr() - old(buffer.Repr()))
      ensures ok <==> n + cfg.cipher.overhead + |Spec.FlightRest(old(Value()))| < TWO16
      ensures ok ==> n + cfg.cipher.overhead + buffer.size as int <= buffer.cap as int
      ensures Value() == if ok then Spec.MoveFlight(old(Value())) else old(Value())
    {
      ok := buffer.EnsureCap(FlightLen(), n + cfg.cipher.overhead + FlightLen(), address);
      if ok {
        MoveFlight();
      }
    }

    /** The part of do_ssl3_write that fills the write buffer. */
    method Stage(typ: nat, addr: nat, input: seq<byte>, address: nat) returns (ok: bool)
      requires Good() && FlightFits() && 0 < |input| <= cfg.maxSendFragment && !wpendPending && buffer.size == 0
      modifies this`flight, this`flightOffset, this`flightStart, this`records, this`sealedCount, this`wpendPending,
        this`wpendTot, this`wpendBuf, this`wpendType, this`wpendRet, buffer.Repr()
      ensures Good() && FlightFits() && fresh(buffer.Repr() - old(buffer.Repr()))
      ensures (Value(), ok) == Spec.Stage(cfg, old(Value()), typ, addr, input)
    {
      hide Spec.MoveFlight, Spec.Seal, Spec.FlightRest, Spec.ConfigOk, Roomy;
      ok := Reserve(|input|, address);
      if !ok {
        return;
      }
      ok := SealPending(typ, addr, input);
    }

    /** do_ssl3_write; the transport's buffers are where address says. */
    method DoWrite(typ: nat, addr: nat, input: seq<byte>, address: nat) returns (ret: int)
      requires Good() && FlightFits() && |input| <= cfg.maxSendFragment
      modifies this`sent, this`answers, this`flight, this`flightOffset, this`flightStart, this`records,
        this`sealedCount, this`wpendPending, this`wpendTot, this`wpendBuf, this`wpendType, this`wpendRet, buffer.Repr()
      ensures Good() && FlightFits() && fresh(buffer.Repr() - old(buffer.Repr()))
      ensures (Value(), ret) == Spec.DoWrite(cfg, old(Value()), typ, addr, input)
    {
      if !wpendPending {
        if |input| > Spec.MAX_PLAIN_LENGTH || buffer.size > 0 {
          return -1;
        }
        if input == [] {
          return 0;
        }
        var ok := Stage(typ, addr, input, address);
        if !ok {
          return -1;
        }
      }
      ret := WritePending(typ, addr, |input|);
    }

    // Application data.

    /** What fits one record, from position tot of the input. */
    method WriteOne(addr: nat, input: seq<byte>, tot: nat, address: nat) returns (ret: int)
      requires Good() && FlightFits() && tot <= |input|
      modifies this, buffer.Repr()
      ensures Good() && FlightFits() && fresh(buffer.Repr() - old(buffer.Repr())) && ret <= |input| - tot
      ensures (Value(), ret)
           == Spec.DoWrite(cfg, old(Value()), APPLICATION_DATA, addr + tot, Spec.Chunk(cfg, input, tot))
    {
      hide Spec.DoWrite, Spec.ConfigOk, Roomy;
      ConfigFits(cfg);
      var n := |input| - tot;
      var nw := if n > cfg.maxSendFragment then cfg.maxSendFragment else n;
      ret := DoWrite(APPLICATION_DATA, addr + tot, input[tot..tot + nw], address);
    }

    /** The loop of ssl3_write_app_data. */
    method WriteLoop(addr: nat, input: seq<byte>, start: nat, address: nat) returns (ret: int)
      requires Good() && FlightFits() && start <= |input|
      modifies this, buffer.Repr()
      ensures Good() && FlightFits() && fresh(buffer.Repr() - old(buffer.Repr()))
      ensures (Value(), ret) == Spec.WriteFrom(cfg, old(Value()), addr, input, start)
    {
      hide Spec.DoWrite, Spec.WriteFrom, Spec.Chunk, Spec.ConfigOk, Roomy;
      var tot := start;
      while true
        invariant Good() && FlightFits() && tot <= |input|
        invariant fresh(buffer.Repr() - old(buffer.Repr()))
        invariant Spec.WriteFrom(cfg, Value(), addr, input, tot)
               == Spec.WriteFrom(cfg, old(Value()), addr, input, start)
        decreases |input| - tot
      {
        Spec.WriteFromIs(cfg, Value(), addr, input, tot);
        ret := WriteOne(addr, input, tot, address);
        if ret <= 0 {
          wnum := tot;
          return;
        }
        if ret == |input| - tot || cfg.partialWrites {
          return tot + ret;
        }
        tot := tot + ret;
      }
    }

    /** ssl3_write_app_data. */
    method Write(addr: nat, input: seq<byte>, len: int, address: nat) returns (ret: int)
      requires Good() && FlightFits() && (len < 0 || len == |input|)
      modifies this, buffer.Repr()
      ensures Good() && FlightFits() && fresh(buffer.Repr() - old(buffer.Repr()))
      ensures (Value(), ret) == Spec.Write(cfg, old(Value()), addr, input, len)
    {
      if shutdown {
        return -1;
      }
      var tot := wnum;
      wnum := 0;
      if len < 0 || len < tot {
        return -1;
      }
      ret := WriteLoop(addr, input, tot, address);
    }

    // Alerts.

    /** The alert is out; a fatal one flushes the transport. */
    method EndDispatch()
      requires Good() && alertDispatch
      modifies this`alertDispatch, this`answers
      ensures Good()
      ensures var u := old(Value()).(alert := None);
              Value() == if alert.level == Spec.FATAL then Spec.Flush(u).0 else u
    {
      alertDispatch := false;
      if alert.level == Spec.FATAL {
        var _ := BioFlush();
      }
    }

    /** ssl3_dispatch_alert. */
    method DispatchAlert(address: nat) returns (ret: int)
      requires Good() && FlightFits() && cfg.maxSendFragment >= 2 && alertDispatch
      modifies this, buffer.Repr()
      ensures Good() && FlightFits() && fresh(buffer.Repr() - old(buffer.Repr()))
      ensures (Value(), ret) == Spec.DispatchAlert(cfg, old(Value()))
    {
      hide Spec.DoWrite, Spec.ConfigOk, Roomy;
      ret := DoWrite(ALERT, cfg.alertAddr, [alert.level, alert.desc], address);
      if ret <= 0 {
        return;
      }
      EndDispatch();
      ret := 1;
    }

    /** ssl_send_alert. */
    method SendAlert(level: byte, desc: byte, address: nat) returns (ret: int)
      requires Good() && FlightFits() && cfg.maxSendFragment >= 2
      modifies this, buffer.Repr()
      ensures Good() && FlightFits() && fresh(buffer.Repr() - old(buffer.Repr()))
      ensures (Value(), ret) == Spec.SendAlert(cfg, old(Value()), level, desc)
    {
      hide Spec.DispatchAlert, Spec.ConfigOk, Roomy;
      if shutdown {
        return -1;
      }
      shutdown := true;
      alertDispatch, alert := true, Spec.Alert(level, desc);
      if buffer.size == 0 {
        ret := DispatchAlert(address);
        return;
      }
      ret := -1;
    }

    // Handshake records.

    /** add_record_to_flight. */
    method AddRecordToFlight(typ: nat, input: seq<byte>) returns (ok: bool)
      requires Good() && flightOffset == 0
      modifies this`flight, this`sealedCount, this`records
      ensures Good() && (Value(), ok) == Spec.AddRecord(cfg, old(Value()), Record(typ, input))
    {
      var f := if flight == None then [] else flight.value;
      var c := cfg.cipher.seal(sealedCount, Record(typ, input));
      flight := Some(f);
      if c == None {
        return false;
      }
      flight, sealedCount, records := Some(f + c.value), sealedCount + 1, records + [Record(typ, input)];
      ok := true;
    }

    /** ssl3_add_message. */
    method AddMessage(msg: seq<byte>) returns (ok: bool)
      requires Good() && flightOffset == 0
      modifies this`flight, this`sealedCount, this`records
      ensures Good() && (Value(), ok) == Spec.AddMessage(cfg, old(Value()), msg)
    {
      var rest, more := msg, true;
      while more
        invariant Good() && flightOffset == 0
        invariant Spec.AddMessage(cfg, old(Value()), msg)
               == Spec.AddRecords(cfg, Value(), if more then Chunks(rest, cfg.maxSendFragment) else [])
        decreases more, |rest|
      {
        var size := if |rest| < cfg.maxSendFragment then |rest| else cfg.maxSendFragment;
        FirstChunk(rest, cfg.maxSendFragment);
        ok := AddRecordToFlight(HANDSHAKE, rest[..size]);
        if !ok {
          return;
        }
        rest := rest[size..];
        more := rest != [];
      }
      ok := true;
    }

    /** ssl3_add_change_cipher_spec. */
    method AddChangeCipherSpec() returns (ok: bool)
      requires Good() && flightOffset == 0
      modifies this`flight, this`sealedCount, this`records
      ensures Good() && (Value(), ok) == Spec.AddCcs(cfg, old(Value()))
    {
      ok := AddRecordToFlight(CHANGE_CIPHER_SPEC, [1]);
    }

    /** ssl3_add_alert. */
    method AddAlert(level: byte, desc: byte) returns (ok: bool)
      requires Good() && flightOffset == 0
      modifies this`flight, this`sealedCount, this`records
      ensures Good() && (Value(), ok) == Spec.AddAlert(cfg, old(Value()), level, desc)
    {
      ok := AddRecordToFlight(ALERT, [level, desc]);
    }

    method SendSome() returns (ret: int)
      requires Good() && flight.Some?
      modifies this`sent, this`answers, this`flightOffset
      ensures Good() && ret <= |Spec.FlightRest(old(Value()))| && flightOffset >= old(flightOffset)
      ensures var (t, one) := Spec.Take(old(Value()), Spec.FlightRest(old(Value())));
              ret == one && Value() == if one > 0 then t.(flightOffset := old(flightOffset) + one) else t
    {
      ret := BioWrite(flight.value[flightOffset..]);
      if ret > 0 {
        flightOffset := flightOffset + ret;
      }
    }

    /** The loop over the pending flight. */
    method SendFlight() returns (ret: int)
      requires Good() && flight.Some?
      modifies this`sent, this`answers, this`flightOffset
      ensures Good() && (Value(), ret) == Spec.SendFlight(old(Value()))
    {
      hide Spec.ConfigOk, Spec.Take, Spec.SendFlight;
      while flightOffset < |flight.value|
        invariant Good() && Spec.SendFlight(Value()) == Spec.SendFlight(old(Value()))
        decreases |flight.value| - flightOffset
      {
        Spec.SendFlightIs(Value());
        ret := SendSome();
        if ret <= 0 {
          return;
        }
      }
      Spec.SendFlightIs(Value());
      ret := 1;
    }

    method ReleaseFlight()
      requires Good()
      modifies this`flight, this`flightOffset, this`flightStart
      ensures Good() && Value() == Spec.ReleaseFlight(old(Value()))
    {
      flight, flightOffset, flightStart := None, 0, |records|;
    }

    /** The last part of ssl3_flush_flight. */
    method FinishFlight() returns (ret: int)
      requires Good() && flight.Some?
      modifies this`sent, this`answers, this`flight, this`flightOffset, this`flightStart
      ensures Good() && (Value(), ret) == Spec.FinishFlight(old(Value()))
    {
      hide Spec.SendFlight, Spec.ConfigOk, Spec.Flush, Spec.ReleaseFlight;
      ret := SendFlight();
      if ret <= 0 {
        return;
      }
      ret := BioFlush();
      if ret <= 0 {
        return -1;
      }
      ReleaseFlight();
      ret := 1;
    }

    /** ssl3_flush_flight. */
    method FlushFlight() returns (ret: int)
      requires Good()
      modifies this`sent, this`answers, this`flight, this`flightOffset, this`flightStart, buffer
      ensures Good() && fresh(buffer.Repr() - old(buffer.Repr()))
      ensures (Value(), ret) == Spec.FlushFlight(old(Value()))
    {
      hide Spec.FlushHeld, Spec.FinishFlight;
      if flight == None {
        return 1;
      }
      if shutdown || |flight.value| > 0x7fff_ffff {
        return -1;
      }
      if buffer.size != 0 {
        ret := FlushBuffer();
        if ret <= 0 {
          return;
        }
      }
      ret := FinishFlight();
    }
  }

  lemma ConfigFits(cfg: Spec.Config)
    requires Spec.ConfigOk(cfg)
    ensures 0 < cfg.maxSendFragment <= Spec.MAX_PLAIN_LENGTH
  {
  }

  lemma SealFits(cfg: Spec.Config, n: nat, r: Record)
    requires Spec.ConfigOk(cfg) && cfg.cipher.seal(n, r).Some?
    ensures |cfg.cipher.seal(n, r).value| <= |r.body| + cfg.cipher.overhead
  {
  }

  /** One turn of the chunking loop. */
  lemma FirstChunk(rest: seq<byte>, max: nat)
    requires max > 0
    ensures Chunks(rest, max)
         == if |rest| <= max then [Record(HANDSHAKE, rest[..|rest|])]
            else [Record(HANDSHAKE, rest[..max])] + Chunks(rest[max..], max)
  {
    if |rest| <= max { assert rest[..|rest|] == rest; }
  }
}
