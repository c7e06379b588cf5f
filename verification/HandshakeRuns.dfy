/** What every run of a side that obeys the protocol keeps, whatever the peer sends and whenever answers come. */
module HandshakeRuns {
  import opened Bytes
  import opened HandshakeDriver
  import opened HandshakeLog

  /**
   A machine, its rules, and for each of its states the log, the place the protocol should have come to, whether
   it can occur, and whether it comes after waiting for a ChangeCipherSpec.
   */
  datatype Side<!S> = Side(machine: Machine<S>, rules: Rules, log: S -> Log, place: (S, Phase) -> Place,
                           sane: S -> bool, atCcs: S -> bool)

  /** One turn performs this act, legally. */
  ghost predicate Acts<S>(d: Side<S>, s: S, msg: Option<Msg>, a: Act) {
    var st := d.machine.step(s, READY, msg);
    && d.log(st.s) == Perform(d.log(s), a)
    && st.released == Releases(a) && (Releases(a) ==> msg == Some(a.msg))
    && (st.wait == ReadChangeCipherSpec ==> d.atCcs(st.s))
    && if st.wait == Error then LegalError(d.rules, d.log(s).transcript, d.place(s, Going), a)
       else d.sane(st.s)
            && Legal(d.rules, d.log(s).transcript, d.place(s, Going), a, d.place(st.s, PhaseOf(st.wait)))
  }

  /** The ChangeCipherSpec the side waited for moves it on by one key event. */
  ghost predicate NotesCcs<S>(d: Side<S>, s: S) {
    var t := d.machine.noteCcs(s);
    && d.log(t) == Apply(d.log(s), GotCcs) && d.sane(t)
    && d.place(s, WantsCcs).key == 0 && d.place(t, Going) == d.place(s, WantsCcs).(key := 1)
  }

  ghost predicate TurnObeys<S>(d: Side<S>, s: S, msg: Option<Msg>) {
    exists a: Act :: Acts(d, s, msg, a)
  }

  ghost predicate Obeys<S(!new)>(d: Side<S>) {
    && (forall s: S, msg: Option<Msg> :: d.sane(s) && !d.machine.done(s) ==> TurnObeys(d, s, msg))
    && forall s: S | d.sane(s) && d.atCcs(s) :: NotesCcs(d, s)
  }

  /** The log keeps to the rules, has used exactly the records so far, and is where its state says. */
  ghost predicate Inv<S>(d: Side<S>, incoming: seq<Record>, c: Core<S>) {
    var l := d.log(c.s);
    && c.pos <= |incoming| && l.used == incoming[..c.pos] && LogOk(d.rules, l)
    && (c.phase != Failed ==> d.sane(c.s) && At(d.rules, l, d.place(c.s, c.phase)))
    && (c.phase == WantsCcs ==> d.atCcs(c.s))
  }

  /** The records used so far, and one more. */
  lemma OneMoreUsed(incoming: seq<Record>, pos: nat, r: Record)
    requires pos < |incoming| && incoming[pos] == r
    ensures incoming[..pos + 1] == incoming[..pos] + [r]
  {
  }

  /** The log after one turn. */
  lemma ActKeeps<S(!new)>(d: Side<S>, s: S, msg: Option<Msg>, a: Act)
    requires Acts(d, s, msg, a) && At(d.rules, d.log(s), d.place(s, Going))
    ensures var st := d.machine.step(s, READY, msg);
            && LogOk(d.rules, d.log(st.s))
            && d.log(st.s).used == d.log(s).used + (if Releases(a) then [Handshake(a.msg)] else [])
            && (st.wait != Error ==> At(d.rules, d.log(st.s), d.place(st.s, PhaseOf(st.wait))))
  {
    var st := d.machine.step(s, READY, msg);
    if st.wait == Error {
      LegalErrors(d.rules, d.log(s), d.place(s, Going), a);
    } else {
      LegalActs(d.rules, d.log(s), d.place(s, Going), a, d.place(st.s, PhaseOf(st.wait)));
    }
  }

  lemma TurnKeeps<S(!new)>(d: Side<S>, incoming: seq<Record>, c: Core<S>)
    requires Obeys(d) && Inv(d, incoming, c) && c.phase == Going && !d.machine.done(c.s)
    ensures Inv(d, incoming, After(d.machine.step(c.s, READY, Coming(incoming, c.pos)), c.pos))
  {
    var msg := Coming(incoming, c.pos);
    assert TurnObeys(d, c.s, msg);
    var a :| Acts(d, c.s, msg, a);
    ActKeeps(d, c.s, msg, a);
    if Releases(a) { OneMoreUsed(incoming, c.pos, Handshake(a.msg)); }
  }

  lemma CcsKeeps<S(!new)>(d: Side<S>, incoming: seq<Record>, c: Core<S>)
    requires Inv(d, incoming, c) && c.phase == WantsCcs && NotesCcs(d, c.s)
    requires c.pos < |incoming| && incoming[c.pos] == ChangeCipherSpec
    ensures Inv(d, incoming, Core(d.machine.noteCcs(c.s), Going, c.pos + 1))
  {
    CcsOk(d.rules, d.log(c.s), d.place(c.s, WantsCcs));
    OneMoreUsed(incoming, c.pos, ChangeCipherSpec);
  }

  lemma InvIsInductive<S(!new)>(d: Side<S>, incoming: seq<Record>)
    requires Obeys(d)
    ensures Inductive(d.machine, incoming, (c: Core<S>) => Inv(d, incoming, c))
  {
    forall c: Core<S> | Inv(d, incoming, c) && Advance(d.machine, incoming, c).Some?
      ensures Inv(d, incoming, Advance(d.machine, incoming, c).value)
    {
      if c.phase == WantsCcs {
        assert NotesCcs(d, c.s);
        if !incoming[c.pos].Handshake? { CcsKeeps(d, incoming, c); }
      } else {
        TurnKeeps(d, incoming, c);
      }
    }
  }

  /** A handshake that has not begun. */
  function Begin<S>(s: S): Run<S> { Run(s, Ok, 0, 0) }

  ghost predicate Begins<S>(d: Side<S>, s: S) {
    d.log(s) == EMPTY && d.sane(s) && d.place(s, Going) == Place(0, 0, false) && !d.machine.done(s)
  }

  /** ChangeCipherSpec, then the new read cipher, then one Finished that matched. */
  ghost predicate Closed(trace: seq<Event>) {
    var k := KeyEvents(trace);
    |k| == 3 && k[0] == GotCcs && k[1] == ChangedRead && k[2].Matched?
  }

  /** What a run may be relied on for, at any moment. */
  ghost predicate Orderly<S>(d: Side<S>, incoming: seq<Record>, end: Run<S>) {
    var l := d.log(end.s);
    && AllAllowed(d.rules, l.trace) && l == Replay(l.trace)
    && end.pos <= |incoming| && UsedIn(l.trace) == incoming[..end.pos]
    && (end.wait != Error ==> l.hashed == l.released)
    && (end.wait != Error && d.place(end.s, PhaseOf(end.wait)).key == 3 ==> Closed(l.trace))
  }

  lemma InvIsOrderly<S>(d: Side<S>, incoming: seq<Record>, end: Run<S>)
    requires Inv(d, incoming, CoreOf(end))
    ensures Orderly(d, incoming, end)
  {
    LogMeans(d.log(end.s).trace);
    KeyMeans(d.rules, d.log(end.s).trace);
  }

  /**
   In every run, whatever arrives and whenever: all events are allowed by the rules, in particular each message
   was hashed once before it was released, and outgoing messages were queued once each in their order; each
   record used was released or consumed once; and nothing but a matching Finished, with what must precede it,
   leads to a place where the key is 3.
   */
  lemma EveryRun<S(!new)>(d: Side<S>, s: S, incoming: seq<Record>, schedule: seq<Now>)
    requires WellBehaved(d.machine) && Obeys(d) && Begins(d, s)
    ensures Orderly(d, incoming, Ticks(d.machine, incoming, Begin(s), schedule))
  {
    var inv := (c: Core<S>) => Inv(d, incoming, c);
    InvIsInductive(d, incoming);
    assert AllAllowed(d.rules, EMPTY.trace);
    assert inv(CoreOf(Begin(s)));
    AlwaysHolds(d.machine, incoming, Begin(s), schedule, inv);
    InvIsOrderly(d, incoming, Ticks(d.machine, incoming, Begin(s), schedule));
  }

  /** Nothing goes wrong any more once the handshake is done. */
  lemma {:induction false} DoneNeverFails<S(!new)>(m: Machine<S>, incoming: seq<Record>, r: Run<S>, schedule: seq<Now>)
    requires WellBehaved(m) && RunOk(m, incoming, r) && (m.done(r.s) ==> r.wait == Ok)
    ensures var end := Ticks(m, incoming, r, schedule);
            m.done(end.s) ==> end.wait == Ok
    decreases |schedule|
  {
    if schedule != [] {
      TickAdvances(m, incoming, r, schedule[0]);
      DoneNeverFails(m, incoming, Tick(m, incoming, r, schedule[0]), schedule[1..]);
    }
  }
}
