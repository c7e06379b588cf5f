/** The client's machine behaves and obeys, so all its runs keep to the protocol. */
module HandshakeClientRuns {
  import opened Bytes
  import opened HandshakeDriver
  import opened HandshakeLog
  import opened HandshakeRuns
  import opened HandshakeClient

  lemma PerformNothing(l: Log)
    ensures Perform(l, Nothing) == l
  {
  }

  lemma StepPauses(w: World, c: Client, now: Now, msg: Option<Msg>, next: Option<Msg>)
    requires msg == None || msg == next
    ensures Pauses(c, ClientStep(w, c, now, msg)) || ClientStep(w, c, now, msg) == ClientStep(w, c, READY, next)
  {
    hide Decide;
    PerformNothing(c.log);
    PausesOrGoes(w, c, now, msg, next);
  }

  lemma StepWaits(w: World, c: Client, now: Now)
    ensures !ClientStep(w, c, now, None).released
    ensures Reads(ClientStep(w, c, now, None).wait) ==> Waiting(MachineOf(w), c)
  {
    AsksForMessage(w, c, now);
    AsksForMessage(w, c, READY);
    assert c.state != Done ==> Reading(w, c, None, Decide(w, c, now, None));
  }

  lemma StepTakes(w: World, c: Client, now: Now, msg: Option<Msg>)
    ensures msg.Some? ==> !Reads(ClientStep(w, c, now, msg).wait)
    ensures c.state != Done && ClientStep(w, c, now, msg).s.state == Done ==> ClientStep(w, c, now, msg).wait == Ok
  {
    assert c.state != Done ==> Reading(w, c, msg, Decide(w, c, now, msg));
  }

  lemma ClientBehaves(w: World)
    ensures WellBehaved(MachineOf(w))
  {
    var m := MachineOf(w);
    forall c: Client, now: Now, msg: Option<Msg>, next: Option<Msg> | msg == None || msg == next
      ensures Pauses(c, m.step(c, now, msg)) || m.step(c, now, msg) == m.step(c, READY, next)
    {
      StepPauses(w, c, now, msg, next);
    }
    forall c: Client, now: Now
      ensures !m.step(c, now, None).released && (Reads(m.step(c, now, None).wait) ==> Waiting(m, c))
    {
      StepWaits(w, c, now);
    }
    forall c: Client, now: Now, msg: Msg ensures !Reads(m.step(c, now, Some(msg)).wait) {
      StepTakes(w, c, now, Some(msg));
    }
    forall c: Client, now: Now, msg: Option<Msg> | m.done(m.step(c, now, msg).s) && !m.done(c)
      ensures m.step(c, now, msg).wait == Ok
    {
      StepTakes(w, c, now, msg);
    }
  }

  function ClientSide(w: World): Side<Client> {
    Side(MachineOf(w), ClientRules(w), (c: Client) => c.log,
         (c: Client, phase: Phase) => PlaceOf(w, c.state, c.session, phase),
         (c: Client) => Sane(c.state, c.session), (c: Client) => c.state == ProcessChangeCipherSpec)
  }

  lemma ClientActs(w: World, c: Client, msg: Option<Msg>)
    requires Sane(c.state, c.session) && c.state != Done
    ensures Acts(ClientSide(w), c, msg, Decide(w, c, READY, msg).act)
  {
    assert Reading(w, c, msg, Decide(w, c, READY, msg));
  }

  lemma ClientObeys(w: World)
    ensures Obeys(ClientSide(w))
  {
    var d := ClientSide(w);
    forall c: Client, msg: Option<Msg> ensures d.sane(c) && !d.machine.done(c) ==> TurnObeys(d, c, msg) {
      if d.sane(c) && !d.machine.done(c) { ClientActs(w, c, msg); }
    }
  }

  lemma ClientRunsOrderly(w: World, incoming: seq<Record>, schedule: seq<Now>)
    ensures Orderly(ClientSide(w), incoming, Ticks(MachineOf(w), incoming, Begin(Start(w)), schedule))
  {
    ClientBehaves(w);
    ClientObeys(w);
    EveryRun(ClientSide(w), Start(w), incoming, schedule);
  }

  lemma ClientClosesWhenDone(w: World, incoming: seq<Record>, end: Run<Client>)
    requires Orderly(ClientSide(w), incoming, end) && end.s.state == Done && end.wait == Ok
    ensures Closed(end.s.log.trace)
  {
    assert ClientSide(w).place(end.s, Going) == Place(3, 8, false);
  }

  /** All runs keep to the client's rules; a run that is done has closed as the protocol demands. */
  lemma EveryClientRun(w: World, incoming: seq<Record>, schedule: seq<Now>)
    ensures Orderly(ClientSide(w), incoming, Ticks(MachineOf(w), incoming, Begin(Start(w)), schedule))
    ensures var end := Ticks(MachineOf(w), incoming, Begin(Start(w)), schedule);
            end.s.state == Done ==> Closed(end.s.log.trace)
  {
    hide Orderly, WellBehaved, Ticks, Closed;
    ClientRunsOrderly(w, incoming, schedule);
    var end := Ticks(MachineOf(w), incoming, Begin(Start(w)), schedule);
    if end.s.state == Done {
      ClientBehaves(w);
      DoneNeverFails(MachineOf(w), incoming, Begin(Start(w)), schedule);
      ClientClosesWhenDone(w, incoming, end);
    }
  }

  /** A client with a certificate cipher queues ClientKeyExchange only after verification of the peer succeeded. */
  lemma VerifiedBeforeKeyExchange(w: World, incoming: seq<Record>, schedule: seq<Now>, i: nat)
    requires w.certAuth
    requires var trace := Ticks(MachineOf(w), incoming, Begin(Start(w)), schedule).s.log.trace;
             i < |trace| && trace[i].Queued? && trace[i].out.Message? && trace[i].out.msg.typ == ClientKeyExchange
    ensures Verified in Ticks(MachineOf(w), incoming, Begin(Start(w)), schedule).s.log.trace[..i]
  {
    EveryClientRun(w, incoming, schedule);
    VerifiedMeans(Ticks(MachineOf(w), incoming, Begin(Start(w)), schedule).s.log.trace[..i]);
  }

  /** However answers are scheduled, two client runs that have come to their end are in the same state. */
  lemma ClientPausesInvisible(w: World, incoming: seq<Record>, one: seq<Now>, two: seq<Now>)
    requires Advance(MachineOf(w), incoming, CoreOf(Ticks(MachineOf(w), incoming, Begin(Start(w)), one))) == None
    requires Advance(MachineOf(w), incoming, CoreOf(Ticks(MachineOf(w), incoming, Begin(Start(w)), two))) == None
    ensures CoreOf(Ticks(MachineOf(w), incoming, Begin(Start(w)), one))
         == CoreOf(Ticks(MachineOf(w), incoming, Begin(Start(w)), two))
  {
    hide WellBehaved, Ticks, Advance;
    ClientBehaves(w);
    PausesInvisible(MachineOf(w), incoming, Begin(Start(w)), one, two);
  }

  function RankOf(): Client -> nat { (c: Client) => Rank(c.state, c.session) }

  function LooksOf(w: World): Client -> bool { (c: Client) => Looks(w, c) }

  /** A turn fails, pauses or leaves fewer states to come: at most twenty, though resumption goes back in them. */
  lemma TurnSinks(w: World, c: Client, now: Now, msg: Option<Msg>)
    requires c.state != Done
    ensures var st := ClientStep(w, c, now, msg);
            || st.wait == Error
            || (st.s == c && (Reads(st.wait) || ForCaller(st.wait)))
            || Rank(st.s.state, st.s.session) < Rank(c.state, c.session) <= 20
  {
    hide Decide;
    PerformNothing(c.log);
    assert Reading(w, c, msg, Decide(w, c, now, msg));
  }

  lemma ClientSinks(w: World, now: Now)
    ensures Sinks(MachineOf(w), now, RankOf())
  {
    var m, rank := MachineOf(w), RankOf();
    forall c: Client, msg: Option<Msg> | !m.done(c) ensures Sinking(m, now, rank, c, msg) {
      TurnSinks(w, c, now, msg);
    }
  }

  lemma TurnGoesOn(w: World, c: Client, msg: Option<Msg>)
    requires c.state != Done
    ensures var st := ClientStep(w, c, READY, msg);
            || st.wait == Error
            || (Reads(st.wait) && msg == None && st.s == c && Looks(w, c))
            || (!Reads(st.wait) && Rank(st.s.state, st.s.session) < Rank(c.state, c.session)
                && (Looks(w, c) && msg.Some? && !st.released ==> Looks(w, st.s) && st.wait != ReadChangeCipherSpec))
  {
    hide Decide;
    TurnSinks(w, c, READY, msg);
    ReadyWaitsForMessages(w, c, msg);
    if msg == None { AsksForMessage(w, c, READY); }
    if msg.Some? && Looks(w, c) { LeftForLater(w, c, msg.value); }
    assert Reading(w, c, msg, Decide(w, c, READY, msg));
  }

  lemma ClientIsSober(w: World)
    ensures Sober(MachineOf(w), RankOf(), LooksOf(w))
  {
    var m, rank, looks := MachineOf(w), RankOf(), LooksOf(w);
    forall c: Client, msg: Option<Msg> | !m.done(c) ensures GoesOn(m, rank, looks, c, msg) {
      TurnGoesOn(w, c, msg);
    }
  }

  /** Every answer is there each time. */
  function Promptly(w: World, incoming: seq<Record>): Run<Client> {
    Ticks(MachineOf(w), incoming, Begin(Start(w)), Always(READY, 83))
  }

  /** Eighty-three turns with every answer ready bring the handshake to its end, whatever the peer sends. */
  lemma ClientReadyEnds(w: World, incoming: seq<Record>)
    ensures Advance(MachineOf(w), incoming, CoreOf(Promptly(w, incoming))) == None
  {
    ClientBehaves(w);
    ClientIsSober(w);
    ReadyEnds(MachineOf(w), incoming, RankOf(), LooksOf(w), Begin(Start(w)), Always(READY, 83));
  }

  /** So every run that comes to its end comes to the end of the run that never has to wait. */
  lemma ClientEndsPromptly(w: World, incoming: seq<Record>, schedule: seq<Now>)
    requires Advance(MachineOf(w), incoming, CoreOf(Ticks(MachineOf(w), incoming, Begin(Start(w)), schedule))) == None
    ensures CoreOf(Ticks(MachineOf(w), incoming, Begin(Start(w)), schedule)) == CoreOf(Promptly(w, incoming))
  {
    ClientReadyEnds(w, incoming);
    ClientPausesInvisible(w, incoming, schedule, Always(READY, 83));
  }

  /** One call of SSL_do_handshake after the other, each with the answers there are at the time. */
  method RunClient(w: World, incoming: seq<Record>, calls: seq<Now>) returns (d: Driver<Client>, ret: Wait)
    ensures fresh(d) && d.machine == MachineOf(w) && d.incoming == incoming
    ensures Orderly(ClientSide(w), incoming, d.Value())
    ensures ret == Ok && calls != [] ==> d.s.state == Done && Closed(d.s.log.trace)
  {
    d := new Driver(MachineOf(w), incoming, Start(w));
    ret := EarlyReturn;
    ghost var schedule: seq<Now> := [];
    var i := 0;
    while i < |calls| && ret != Ok && ret != Error
      invariant fresh(d) && d.machine == MachineOf(w) && d.incoming == incoming && d.arrived <= |incoming|
      invariant d.Value() == Ticks(MachineOf(w), incoming, Begin(Start(w)), schedule)
      invariant ret == Ok ==> d.s.state == Done
    {
      ClientSinks(w, calls[i]);
      ghost var turns: nat;
      ret, turns := d.RunHandshake(calls[i], RankOf());
      TicksConcat(MachineOf(w), incoming, Begin(Start(w)), schedule, Always(calls[i], turns));
      schedule := schedule + Always(calls[i], turns);
      i := i + 1;
    }
    EveryClientRun(w, incoming, schedule);
  }
}
