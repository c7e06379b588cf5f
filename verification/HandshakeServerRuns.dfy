/** The server's machine behaves and obeys, so all its runs keep to the protocol. */
module HandshakeServerRuns {
  import opened Bytes
  import opened HandshakeDriver
  import opened HandshakeLog
  import opened HandshakeRuns
  import opened HandshakeServer

  lemma PerformNothing(l: Log)
    ensures Perform(l, Nothing) == l
  {
  }

  lemma StepPauses(w: World, c: Server, now: Now, msg: Option<Msg>, next: Option<Msg>)
    requires msg == None || msg == next
    ensures Pauses(c, ServerStep(w, c, now, msg)) || ServerStep(w, c, now, msg) == ServerStep(w, c, READY, next)
  {
    hide Decide;
    PerformNothing(c.log);
    PausesOrGoes(w, c, now, msg, next);
  }

  lemma StepWaits(w: World, c: Server, now: Now)
    ensures !ServerStep(w, c, now, None).released
    ensures Reads(ServerStep(w, c, now, None).wait) ==> Waiting(MachineOf(w), c)
  {
    AsksForMessage(w, c, now);
    AsksForMessage(w, c, READY);
    assert c.state != Done ==> Reading(w, c, None, Decide(w, c, now, None));
  }

  lemma StepTakes(w: World, c: Server, now: Now, msg: Option<Msg>)
    ensures msg.Some? ==> !Reads(ServerStep(w, c, now, msg).wait)
    ensures c.state != Done && ServerStep(w, c, now, msg).s.state == Done ==> ServerStep(w, c, now, msg).wait == Ok
  {
    assert c.state != Done ==> Reading(w, c, msg, Decide(w, c, now, msg));
  }

  lemma ServerBehaves(w: World)
    ensures WellBehaved(MachineOf(w))
  {
    var m := MachineOf(w);
    forall c: Server, now: Now, msg: Option<Msg>, next: Option<Msg> | msg == None || msg == next
      ensures Pauses(c, m.step(c, now, msg)) || m.step(c, now, msg) == m.step(c, READY, next)
    {
      StepPauses(w, c, now, msg, next);
    }
    forall c: Server, now: Now
      ensures !m.step(c, now, None).released && (Reads(m.step(c, now, None).wait) ==> Waiting(m, c))
    {
      StepWaits(w, c, now);
    }
    forall c: Server, now: Now, msg: Msg ensures !Reads(m.step(c, now, Some(msg)).wait) {
      StepTakes(w, c, now, Some(msg));
    }
    forall c: Server, now: Now, msg: Option<Msg> | m.done(m.step(c, now, msg).s) && !m.done(c)
      ensures m.step(c, now, msg).wait == Ok
    {
      StepTakes(w, c, now, msg);
    }
  }

  function ServerSide(w: World): Side<Server> {
    Side(MachineOf(w), ServerRules(w), (c: Server) => c.log,
         (c: Server, phase: Phase) => PlaceOf(c.state, c.session, phase),
         (c: Server) => Sane(w, c.state, c.session), (c: Server) => c.state == ProcessChangeCipherSpec)
  }

  lemma ServerActs(w: World, c: Server, msg: Option<Msg>)
    requires Sane(w, c.state, c.session) && c.state != Done
    ensures Acts(ServerSide(w), c, msg, Decide(w, c, READY, msg).act)
  {
    assert Reading(w, c, msg, Decide(w, c, READY, msg));
  }

  lemma ServerObeys(w: World)
    ensures Obeys(ServerSide(w))
  {
    var d := ServerSide(w);
    forall c: Server, msg: Option<Msg> ensures d.sane(c) && !d.machine.done(c) ==> TurnObeys(d, c, msg) {
      if d.sane(c) && !d.machine.done(c) { ServerActs(w, c, msg); }
    }
  }

  lemma ServerRunsOrderly(w: World, incoming: seq<Record>, schedule: seq<Now>)
    ensures Orderly(ServerSide(w), incoming, Ticks(MachineOf(w), incoming, Begin(START), schedule))
  {
    ServerBehaves(w);
    ServerObeys(w);
    EveryRun(ServerSide(w), START, incoming, schedule);
  }

  lemma ServerClosesWhenDone(w: World, incoming: seq<Record>, end: Run<Server>)
    requires Orderly(ServerSide(w), incoming, end) && end.s.state == Done && end.wait == Ok
    ensures Closed(end.s.log.trace)
  {
    assert ServerSide(w).place(end.s, Going) == Place(3, 9, false);
  }

  /** All runs keep to the server's rules; a run that is done has closed as the protocol demands. */
  lemma EveryServerRun(w: World, incoming: seq<Record>, schedule: seq<Now>)
    ensures Orderly(ServerSide(w), incoming, Ticks(MachineOf(w), incoming, Begin(START), schedule))
    ensures var end := Ticks(MachineOf(w), incoming, Begin(START), schedule);
            end.s.state == Done ==> Closed(end.s.log.trace)
  {
    hide Orderly, WellBehaved, Ticks, Closed;
    ServerRunsOrderly(w, incoming, schedule);
    var end := Ticks(MachineOf(w), incoming, Begin(START), schedule);
    if end.s.state == Done {
      ServerBehaves(w);
      DoneNeverFails(MachineOf(w), incoming, Begin(START), schedule);
      ServerClosesWhenDone(w, incoming, end);
    }
  }

  /** In a full handshake the server queues its Finished only after the client's Finished matched. */
  lemma MatchedBeforeFinished(w: World, incoming: seq<Record>, schedule: seq<Now>, i: nat)
    requires !w.resumes
    requires var trace := Ticks(MachineOf(w), incoming, Begin(START), schedule).s.log.trace;
             i < |trace| && trace[i].Queued? && trace[i].out.Message? && trace[i].out.msg.typ == Finished
    ensures Closed(Ticks(MachineOf(w), incoming, Begin(START), schedule).s.log.trace[..i])
  {
    EveryServerRun(w, incoming, schedule);
    var trace := Ticks(MachineOf(w), incoming, Begin(START), schedule).s.log.trace;
    PrefixAllowed(ServerRules(w), trace, i);
    KeyMeans(ServerRules(w), trace[..i]);
  }

  /** However answers are scheduled, two server runs that have come to their end are in the same state. */
  lemma ServerPausesInvisible(w: World, incoming: seq<Record>, one: seq<Now>, two: seq<Now>)
    requires Advance(MachineOf(w), incoming, CoreOf(Ticks(MachineOf(w), incoming, Begin(START), one))) == None
    requires Advance(MachineOf(w), incoming, CoreOf(Ticks(MachineOf(w), incoming, Begin(START), two))) == None
    ensures CoreOf(Ticks(MachineOf(w), incoming, Begin(START), one))
         == CoreOf(Ticks(MachineOf(w), incoming, Begin(START), two))
  {
    hide WellBehaved, Ticks, Advance;
    ServerBehaves(w);
    PausesInvisible(MachineOf(w), incoming, Begin(START), one, two);
  }

  function RankOf(): Server -> nat { (c: Server) => Rank(c.state, c.session) }

  function LooksOf(w: World): Server -> bool { (c: Server) => Asks(w, c) }

  /** A turn fails, pauses or leaves fewer states to come: at most twenty, though resumption goes back in them. */
  lemma TurnSinks(w: World, c: Server, now: Now, msg: Option<Msg>)
    requires c.state != Done
    ensures var st := ServerStep(w, c, now, msg);
            || st.wait == Error
            || (st.s == c && (Reads(st.wait) || ForCaller(st.wait)))
            || Rank(st.s.state, st.s.session) < Rank(c.state, c.session) <= 20
  {
    hide Decide;
    PerformNothing(c.log);
    assert Reading(w, c, msg, Decide(w, c, now, msg));
  }

  lemma ServerSinks(w: World, now: Now)
    ensures Sinks(MachineOf(w), now, RankOf())
  {
    var m, rank := MachineOf(w), RankOf();
    forall c: Server, msg: Option<Msg> | !m.done(c) ensures Sinking(m, now, rank, c, msg) {
      TurnSinks(w, c, now, msg);
    }
  }

  lemma TurnGoesOn(w: World, c: Server, msg: Option<Msg>)
    requires c.state != Done
    ensures var st := ServerStep(w, c, READY, msg);
            || st.wait == Error
            || (Reads(st.wait) && msg == None && st.s == c && Asks(w, c))
            || (!Reads(st.wait) && Rank(st.s.state, st.s.session) < Rank(c.state, c.session)
                && (Asks(w, c) && msg.Some? && !st.released ==> Asks(w, st.s) && st.wait != ReadChangeCipherSpec))
  {
    hide Decide;
    TurnSinks(w, c, READY, msg);
    ReadyWaitsForMessages(w, c, msg);
    if msg == None { AsksForMessage(w, c, READY); }
    if msg.Some? && Asks(w, c) { LeftForLater(w, c, msg.value); }
    assert Reading(w, c, msg, Decide(w, c, READY, msg));
  }

  lemma ServerIsSober(w: World)
    ensures Sober(MachineOf(w), RankOf(), LooksOf(w))
  {
    var m, rank, looks := MachineOf(w), RankOf(), LooksOf(w);
    forall c: Server, msg: Option<Msg> | !m.done(c) ensures GoesOn(m, rank, looks, c, msg) {
      TurnGoesOn(w, c, msg);
    }
  }

  /** Every answer is there each time. */
  function Promptly(w: World, incoming: seq<Record>): Run<Server> {
    Ticks(MachineOf(w), incoming, Begin(START), Always(READY, 83))
  }

  /** Eighty-three turns with every answer ready bring the handshake to its end, whatever the peer sends. */
  lemma ServerReadyEnds(w: World, incoming: seq<Record>)
    ensures Advance(MachineOf(w), incoming, CoreOf(Promptly(w, incoming))) == None
  {
    ServerBehaves(w);
    ServerIsSober(w);
    ReadyEnds(MachineOf(w), incoming, RankOf(), LooksOf(w), Begin(START), Always(READY, 83));
  }

  /** So every run that comes to its end comes to the end of the run that never has to wait. */
  lemma ServerEndsPromptly(w: World, incoming: seq<Record>, schedule: seq<Now>)
    requires Advance(MachineOf(w), incoming, CoreOf(Ticks(MachineOf(w), incoming, Begin(START), schedule))) == None
    ensures CoreOf(Ticks(MachineOf(w), incoming, Begin(START), schedule)) == CoreOf(Promptly(w, incoming))
  {
    ServerReadyEnds(w, incoming);
    ServerPausesInvisible(w, incoming, schedule, Always(READY, 83));
  }

  /** One call of SSL_do_handshake after the other, each with the answers there are at the time. */
  method RunServer(w: World, incoming: seq<Record>, calls: seq<Now>) returns (d: Driver<Server>, ret: Wait)
    ensures fresh(d) && d.machine == MachineOf(w) && d.incoming == incoming
    ensures Orderly(ServerSide(w), incoming, d.Value())
    ensures ret == Ok && calls != [] ==> d.s.state == Done && Closed(d.s.log.trace)
  {
    d := new Driver(MachineOf(w), incoming, START);
    ret := EarlyReturn;
    ghost var schedule: seq<Now> := [];
    var i := 0;
    while i < |calls| && ret != Ok && ret != Error
      invariant fresh(d) && d.machine == MachineOf(w) && d.incoming == incoming && d.arrived <= |incoming|
      invariant d.Value() == Ticks(MachineOf(w), incoming, Begin(START), schedule)
      invariant ret == Ok ==> d.s.state == Done
    {
      ServerSinks(w, calls[i]);
      ghost var turns: nat;
      ret, turns := d.RunHandshake(calls[i], RankOf());
      TicksConcat(MachineOf(w), incoming, Begin(START), schedule, Always(calls[i], turns));
      schedule := schedule + Always(calls[i], turns);
      i := i + 1;
    }
    EveryServerRun(w, incoming, schedule);
  }
}
