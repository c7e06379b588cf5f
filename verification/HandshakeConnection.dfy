/**
 What the do_* functions of both sides work on: the message at hand, the transcript, the flight and the keys. The
 log of HandshakeLog stands for the last three; every operation adds its event to it, and the operations that do
 several things add several.
 */
module HandshakeConnection {
  import opened Bytes
  import opened HandshakeDriver
  import opened HandshakeLog

  class Connection {
    var current: Option<Msg>   // the first message in hs_buf, if it is complete
    var log: Log

    constructor ()
      ensures current == None && log == EMPTY
    {
      current, log := None, EMPTY;
    }

    /** ssl->method->get_message */
    method GetMessage() returns (found: bool, msg: Msg)
      ensures found == current.Some? && (found ==> msg == current.value)
    {
      found := current.Some?;
      msg := if found then current.value else Msg(HelloRequest, []);
    }

    /** ssl_hash_message */
    method HashMessage(msg: Msg)
      modifies this`log
      ensures log == Apply(old(log), Hashed(msg))
    {
      log := Apply(log, Hashed(msg));
    }

    /** ssl->method->next_message */
    method NextMessage()
      requires current.Some?
      modifies this
      ensures current == None && log == Apply(old(log), Released(old(current).value))
    {
      log := Apply(log, Released(current.value));
      current := None;
    }

    /** The same for a HelloVerifyRequest, which was not hashed. */
    method SkipMessage()
      requires current.Some?
      modifies this
      ensures current == None && log == Apply(old(log), Skipped(old(current).value))
    {
      log := Apply(log, Skipped(current.value));
      current := None;
    }

    /** ssl_add_message_cbb */
    method AddMessage(msg: Msg)
      modifies this`log
      ensures log == Apply(old(log), Queued(Message(msg)))
    {
      log := Apply(log, Queued(Message(msg)));
    }

    /** Any of transcript.Init, add_change_cipher_spec, tls1_change_cipher_state and ssl_verify_peer_cert. */
    method Note(e: Event)
      requires e == Reset || e == Queued(Ccs) || e == ChangedRead || e == ChangedWrite || e == Verified
      modifies this`log
      ensures log == Apply(old(log), e)
    {
      log := Apply(log, e);
    }

    /** ssl_get_finished */
    method GetFinished(mac: seq<Msg> -> seq<byte>) returns (ret: Wait)
      modifies this
      ensures match old(current)
              case None => ret == ReadMessage && log == old(log) && current == None
              case Some(m) =>
                var a := if m.typ != Finished then Nothing
                         else if m.body != mac(old(log).transcript) then HashOnly(m)
                         else TakeFinished(m);
                && log == Perform(old(log), a)
                && (if a.TakeFinished? then ret == Ok && current == None else ret == Error && current == old(current))
    {
      hide Perform;
      var found, msg := GetMessage();
      SmallActs(log, msg);
      if !found {
        return ReadMessage;
      }
      if msg.typ != Finished {
        return Error;
      }
      var finished := mac(log.transcript);   // before the new message goes into it
      HashMessage(msg);
      if msg.body != finished {
        return Error;
      }
      log := Apply(log, Matched(msg));
      NextMessage();
      ret := Ok;
    }

    /** ssl_send_finished */
    method SendFinished(mac: seq<Msg> -> seq<byte>)
      modifies this`log
      ensures log == Apply(old(log), Queued(Message(Msg(Finished, mac(old(log).transcript)))))
    {
      AddMessage(Msg(Finished, mac(log.transcript)));
    }
  }

  /** The acts without a message. */
  lemma PlainActs(l: Log)
    ensures Perform(l, Nothing) == l
    ensures Perform(l, PeerVerified) == Apply(l, Verified)
    ensures Perform(l, ChangeRead) == Apply(l, ChangedRead)
  {
    OneIs(l, Verified);
    OneIs(l, ChangedRead);
  }

  /** The acts of at most three events, one event after the other. */
  lemma SmallActs(l: Log, m: Msg)
    ensures Perform(l, Nothing) == l
    ensures Perform(l, Emit(m)) == Apply(l, Queued(Message(m)))
    ensures Perform(l, HashOnly(m)) == Apply(l, Hashed(m))
    ensures Perform(l, Take(m)) == Apply(Apply(l, Hashed(m)), Released(m))
    ensures Perform(l, TakeFinished(m)) == Apply(Apply(Apply(l, Hashed(m)), Matched(m)), Released(m))
  {
    OneIs(l, Hashed(m));
    OneIs(l, Queued(Message(m)));
    TwoIs(l, Hashed(m), Released(m));
    ThreeIs(l, Hashed(m), Matched(m), Released(m));
  }

  /** A HelloVerifyRequest, up to an error or to the end. */
  lemma CookieActs(l: Log, m: Msg, hello: Msg)
    ensures Perform(l, CookieOnly(m, false)) == Apply(l, Skipped(m))
    ensures Perform(l, CookieOnly(m, true)) == Apply(Apply(l, Skipped(m)), Reset)
    ensures Perform(l, TakeCookie(m, hello)) == Apply(Apply(Apply(l, Skipped(m)), Reset), Queued(Message(hello)))
  {
    OneIs(l, Skipped(m));
    TwoIs(l, Skipped(m), Reset);
    ThreeIs(l, Skipped(m), Reset, Queued(Message(hello)));
  }

  lemma CcsAlone(l: Log, before: seq<Msg>)
    ensures Perform(l, CcsOnly(before)) == Apply(ApplyAll(l, Sends(before)), Queued(Ccs))
    ensures before == [] ==> Perform(l, CcsOnly(before)) == Apply(l, Queued(Ccs))
  {
    OneMoreEvent(l, Sends(before), Queued(Ccs));
  }

  lemma OneMoreEvent(l: Log, events: seq<Event>, e: Event)
    ensures ApplyAll(l, events + [e]) == Apply(ApplyAll(l, events), e)
  {
    ApplyConcat(l, events, [e]);
    OneIs(ApplyAll(l, events), e);
  }

  /** Messages sent one after the other. */
  lemma SendsOne(l: Log, m: Msg)
    ensures ApplyAll(l, Sends([])) == l && ApplyAll(l, Sends([m])) == Apply(l, Queued(Message(m)))
  {
    assert Sends([m]) == [Queued(Message(m))];
    OneIs(l, Queued(Message(m)));
  }

  lemma SendsTwo(l: Log, m: Msg, n: Msg)
    ensures ApplyAll(l, Sends([m, n])) == Apply(Apply(l, Queued(Message(m))), Queued(Message(n)))
  {
    assert Sends([m, n]) == [Queued(Message(m)), Queued(Message(n))];
    TwoIs(l, Queued(Message(m)), Queued(Message(n)));
  }

  lemma SendsOneMore(l: Log, sent: seq<Msg>, m: Msg)
    ensures ApplyAll(l, Sends(sent + [m])) == Apply(ApplyAll(l, Sends(sent)), Queued(Message(m)))
  {
    assert Sends(sent + [m]) == Sends(sent) + [Queued(Message(m))];
    OneMoreEvent(l, Sends(sent), Queued(Message(m)));
  }
}
