/** The driver of the handshake state machines (handshake.cc): it resolves what a machine waits for and runs it on. */
module HandshakeDriver {
  import opened Bytes

  datatype MsgType =
    | HelloRequest | ClientHello | ServerHello | HelloVerifyRequest | NewSessionTicket | Certificate
    | CertificateStatus | ServerKeyExchange | CertificateRequest | ServerHelloDone | CertificateVerify
    | ClientKeyExchange | NextProto | ChannelId | Finished

  datatype Msg = Msg(typ: MsgType, body: seq<byte>)

  /** What the peer sends, in order. */
  datatype Record = Handshake(msg: Msg) | ChangeCipherSpec

  /** enum ssl_hs_wait_t, below TLS 1.3. */
  datatype Wait =
    | Ok | Error | Flush | ReadServerHello | ReadMessage | ReadChangeCipherSpec
    | CertificateSelectionPending | X509Lookup | ChannelIdLookup | PrivateKeyOperation | PendingSession
    | PendingTicket | CertificateVerifyPending | EarlyReturn

  /** The answers to be had at one moment: what arrived, what the transport took, which callbacks have finished. */
  datatype Now = Now(arrives: nat, flushes: bool, selected: bool, certificate: bool, session: bool, ticket: bool,
                     privateKey: bool, channelId: bool, verified: bool)

  const READY := Now(1, true, true, true, true, true, true, true, true)

  /** What one do_* function does: the new state, what it returns, and whether it released the current message. */
  datatype Step<S> = Step(s: S, wait: Wait, released: bool)

  /** The state machine of one side: what it does, when it is done, and its note of a ChangeCipherSpec. */
  datatype Machine<!S> = Machine(step: (S, Now, Option<Msg>) -> Step<S>, done: S -> bool, noteCcs: S -> S)

  predicate Reads(w: Wait) { w == ReadMessage || w == ReadServerHello }

  /** A return that leaves everything as it was, to be called again. */
  predicate Pauses<S(==)>(s: S, st: Step<S>) {
    st.s == s && !st.released && st.wait != Ok && st.wait != Error && st.wait != ReadChangeCipherSpec
  }

  /**
   A machine whose functions come back for every answer they wait for, with nothing changed, and whose effects
   otherwise do not depend on when the answers were there.
   */
  ghost predicate WellBehaved<S(!new)>(m: Machine<S>) {
    && (forall s: S, now: Now, msg: Option<Msg>, next: Option<Msg> | msg == None || msg == next ::
          Pauses(s, m.step(s, now, msg)) || m.step(s, now, msg) == m.step(s, READY, next))
    && (forall s: S, now: Now ::
          && !m.step(s, now, None).released
          && (Reads(m.step(s, now, None).wait) ==> Waiting(m, s)))
    && (forall s: S, now: Now, msg: Msg :: !Reads(m.step(s, now, Some(msg)).wait))
    && (forall s: S, now: Now, msg: Option<Msg> | m.done(m.step(s, now, msg).s) && !m.done(s) ::
          m.step(s, now, msg).wait == Ok)
    && forall s: S :: m.done(m.noteCcs(s)) == m.done(s)
  }

  /** The state asks for a message. */
  ghost predicate Waiting<S>(m: Machine<S>, s: S) {
    Pauses(s, m.step(s, READY, None)) && Reads(m.step(s, READY, None).wait)
  }

  /** The handshake between two steps: pos records have been used, arrived of them have come in. */
  datatype Run<S> = Run(s: S, wait: Wait, pos: nat, arrived: nat)

  function Peek<S>(incoming: seq<Record>, r: Run<S>): Option<Msg> {
    if r.pos < r.arrived && r.pos < |incoming| && incoming[r.pos].Handshake? then Some(incoming[r.pos].msg) else None
  }

  /** The next message, whether or not it has arrived. */
  function Coming(incoming: seq<Record>, pos: nat): Option<Msg> {
    if pos < |incoming| && incoming[pos].Handshake? then Some(incoming[pos].msg) else None
  }

  /** A record may bring several messages. */
  function Deliver(incoming: seq<Record>, arrived: nat, n: nat): (end: nat)
    requires arrived <= |incoming|
    ensures arrived <= end <= |incoming|
    ensures forall i | arrived <= i < end :: incoming[i].Handshake?
    ensures n > 0 && arrived < |incoming| && incoming[arrived].Handshake? ==> end > arrived
    decreases n
  {
    if n == 0 || arrived == |incoming| || !incoming[arrived].Handshake? then arrived
    else Deliver(incoming, arrived + 1, n - 1)
  }

  /** One turn of the machine's loop. */
  function StepOnce<S>(m: Machine<S>, incoming: seq<Record>, r: Run<S>, now: Now): Run<S> {
    var st := m.step(r.s, now, Peek(incoming, r));
    Run(st.s, st.wait, if st.released then r.pos + 1 else r.pos, r.arrived)
  }

  ghost predicate RunOk<S>(m: Machine<S>, incoming: seq<Record>, r: Run<S>) {
    && r.pos <= r.arrived <= |incoming|
    && (forall i | r.pos <= i < r.arrived :: incoming[i].Handshake?)
    && (Reads(r.wait) ==> r.pos == r.arrived && Waiting(m, r.s))
    && (m.done(r.s) ==> r.wait == Ok || r.wait == Error)
  }

  /** One turn of ssl_run_handshake's loop: what the handshake waits for is resolved, or the machine runs on. */
  function Tick<S>(m: Machine<S>, incoming: seq<Record>, r: Run<S>, now: Now): Run<S>
    requires r.arrived <= |incoming|
  {
    match r.wait
    case Error => r
    case Ok => if m.done(r.s) then r else StepOnce(m, incoming, r, now)
    case Flush => if now.flushes then r.(wait := Ok) else r
    case ReadChangeCipherSpec =>
      if now.arrives == 0 || r.arrived == |incoming| then r
      else if r.arrived != r.pos || incoming[r.arrived].Handshake? then r.(wait := Error)
      else Run(m.noteCcs(r.s), Ok, r.pos + 1, r.arrived + 1)
    case ReadMessage => Read(incoming, r, now)
    case ReadServerHello => Read(incoming, r, now)
    case _ => r.(wait := Ok)   // returned to the caller, who calls again
  }

  function Read<S>(incoming: seq<Record>, r: Run<S>, now: Now): Run<S>
    requires r.arrived <= |incoming|
  {
    if now.arrives == 0 || r.arrived == |incoming| then r
    else if !incoming[r.arrived].Handshake? then r.(wait := Error)
    else r.(wait := Ok, arrived := Deliver(incoming, r.arrived, now.arrives))
  }

  /** Any schedule of answers. */
  function Ticks<S>(m: Machine<S>, incoming: seq<Record>, r: Run<S>, schedule: seq<Now>): Run<S>
    requires r.arrived <= |incoming|
    decreases |schedule|
  {
    if schedule == [] then r
    else
      var next := Tick(m, incoming, r, schedule[0]);
      if next.arrived <= |incoming| then Ticks(m, incoming, next, schedule[1..]) else r
  }

  // The run in which every answer is there at once.

  datatype Phase = Going | WantsCcs | Failed

  function PhaseOf(w: Wait): Phase {
    if w == Error then Failed else if w == ReadChangeCipherSpec then WantsCcs else Going
  }

  /** What a run has come to, without what it waits for. */
  datatype Core<S> = Core(s: S, phase: Phase, pos: nat)

  function CoreOf<S>(r: Run<S>): Core<S> {
    Core(r.s, PhaseOf(r.wait), r.pos)
  }

  function After<S>(st: Step<S>, pos: nat): Core<S> {
    Core(st.s, PhaseOf(st.wait), if st.released then pos + 1 else pos)
  }

  function Advance<S>(m: Machine<S>, incoming: seq<Record>, c: Core<S>): Option<Core<S>> {
    match c.phase
    case Failed => None
    case WantsCcs =>
      if c.pos >= |incoming| then None
      else if incoming[c.pos].Handshake? then Some(c.(phase := Failed))
      else Some(Core(m.noteCcs(c.s), Going, c.pos + 1))
    case Going =>
      if m.done(c.s) then None
      else
        var st := m.step(c.s, READY, Coming(incoming, c.pos));
        if !Reads(st.wait) then Some(After(st, c.pos))
        else if c.pos >= |incoming| then None
        else Some(c.(phase := Failed))
  }

  /** The straight run after n steps, or as far as it goes. */
  function Straight<S>(m: Machine<S>, incoming: seq<Record>, c: Core<S>, n: nat): Core<S>
    decreases n
  {
    if n == 0 then c
    else match Advance(m, incoming, c) case None => c case Some(next) => Straight(m, incoming, next, n - 1)
  }

  /** A step of the machine is a pause, or the step of the straight run. */
  lemma GoAdvances<S(!new)>(m: Machine<S>, incoming: seq<Record>, r: Run<S>, now: Now)
    requires WellBehaved(m) && RunOk(m, incoming, r) && r.wait == Ok && !m.done(r.s)
    ensures var t := StepOnce(m, incoming, r, now);
            RunOk(m, incoming, t)
            && (CoreOf(t) == CoreOf(r) || Advance(m, incoming, CoreOf(r)) == Some(CoreOf(t)))
  {
    var msg, next := Peek(incoming, r), Coming(incoming, r.pos);
    assert msg == None || msg == next;
    var st := m.step(r.s, now, msg);
    if !Pauses(r.s, st) { assert st == m.step(r.s, READY, next); }
    if Reads(st.wait) { assert msg == None && Waiting(m, r.s); }
  }

  /** Each turn of the driver leaves the handshake where it is or takes it one step along the straight run. */
  lemma TickAdvances<S(!new)>(m: Machine<S>, incoming: seq<Record>, r: Run<S>, now: Now)
    requires WellBehaved(m) && RunOk(m, incoming, r)
    ensures var t := Tick(m, incoming, r, now);
            RunOk(m, incoming, t)
            && (CoreOf(t) == CoreOf(r) || Advance(m, incoming, CoreOf(r)) == Some(CoreOf(t)))
  {
    match r.wait {
      case Ok => if !m.done(r.s) { GoAdvances(m, incoming, r, now); }
      case ReadMessage => assert Waiting(m, r.s);
      case ReadServerHello => assert Waiting(m, r.s);
      case _ =>
    }
  }

  lemma {:induction false} StraightOneMore<S(!new)>(m: Machine<S>, incoming: seq<Record>, c: Core<S>, n: nat)
    ensures Straight(m, incoming, c, n + 1)
         == match Advance(m, incoming, Straight(m, incoming, c, n))
            case None => Straight(m, incoming, c, n) case Some(next) => next
    decreases n
  {
    if n > 0 && Advance(m, incoming, c).Some? { StraightOneMore(m, incoming, Advance(m, incoming, c).value, n - 1); }
  }

  /** Every schedule stays on the straight run. */
  lemma {:induction false} TicksFollow<S(!new)>(m: Machine<S>, incoming: seq<Record>, r: Run<S>, schedule: seq<Now>,
                                          c: Core<S>, n: nat)
    requires WellBehaved(m) && RunOk(m, incoming, r) && CoreOf(r) == Straight(m, incoming, c, n)
    ensures RunOk(m, incoming, Ticks(m, incoming, r, schedule))
    ensures exists k: nat :: CoreOf(Ticks(m, incoming, r, schedule)) == Straight(m, incoming, c, k)
    decreases |schedule|
  {
    if schedule != [] {
      TickAdvances(m, incoming, r, schedule[0]);
      StraightOneMore(m, incoming, c, n);
      var next := Tick(m, incoming, r, schedule[0]);
      TicksFollow(m, incoming, next, schedule[1..], c, if CoreOf(next) == CoreOf(r) then n else n + 1);
    }
  }

  lemma {:induction false} StraightEnds<S(!new)>(m: Machine<S>, incoming: seq<Record>, c: Core<S>, i: nat, j: nat)
    requires Advance(m, incoming, Straight(m, incoming, c, i)) == None && i <= j
    ensures Straight(m, incoming, c, j) == Straight(m, incoming, c, i)
    decreases j
  {
    if i < j {
      StraightEnds(m, incoming, c, i, j - 1);
      StraightOneMore(m, incoming, c, j - 1);
    }
  }

  /**
   Pauses are invisible: however the answers are scheduled, two handshakes that have come to their end have the
   same state, with the same transcript and flights in it, and have used the same records.
   */
  lemma PausesInvisible<S(!new)>(m: Machine<S>, incoming: seq<Record>, r: Run<S>, one: seq<Now>, two: seq<Now>)
    requires WellBehaved(m) && RunOk(m, incoming, r)
    requires Advance(m, incoming, CoreOf(Ticks(m, incoming, r, one))) == None
    requires Advance(m, incoming, CoreOf(Ticks(m, incoming, r, two))) == None
    ensures CoreOf(Ticks(m, incoming, r, one)) == CoreOf(Ticks(m, incoming, r, two))
  {
    TicksFollow(m, incoming, r, one, CoreOf(r), 0);
    TicksFollow(m, incoming, r, two, CoreOf(r), 0);
    var i: nat :| CoreOf(Ticks(m, incoming, r, one)) == Straight(m, incoming, CoreOf(r), i);
    var j: nat :| CoreOf(Ticks(m, incoming, r, two)) == Straight(m, incoming, CoreOf(r), j);
    if i <= j { StraightEnds(m, incoming, CoreOf(r), i, j); } else { StraightEnds(m, incoming, CoreOf(r), j, i); }
  }

  // With every answer ready.

  /** With all answers there, a turn fails, waits for a message, or goes on to a lower rank. */
  ghost predicate GoesOn<S>(m: Machine<S>, rank: S -> nat, looks: S -> bool, s: S, msg: Option<Msg>) {
    var st := m.step(s, READY, msg);
    || st.wait == Error
    || (Reads(st.wait) && msg == None && st.s == s && looks(s))
    || (!Reads(st.wait) && rank(st.s) < rank(s)
        && (looks(s) && msg.Some? && !st.released ==> looks(st.s) && st.wait != ReadChangeCipherSpec))
  }

  /** A message is only left at hand in states that look at it. */
  ghost predicate Sober<S(!new)>(m: Machine<S>, rank: S -> nat, looks: S -> bool) {
    && (forall s: S, msg: Option<Msg> | !m.done(s) :: GoesOn(m, rank, looks, s, msg))
    && forall s: S :: rank(m.noteCcs(s)) == rank(s)
  }

  ghost predicate Prompt<S>(m: Machine<S>, incoming: seq<Record>, looks: S -> bool, r: Run<S>) {
    && RunOk(m, incoming, r) && r.arrived <= r.pos + 1 && (Reads(r.wait) ==> looks(r.s))
    && (r.wait != Error && r.pos < r.arrived ==> looks(r.s) && r.wait != ReadChangeCipherSpec)
  }

  /** The turns still to come at most. */
  ghost function Work<S>(rank: S -> nat, r: Run<S>): nat {
    if r.wait == Error then 0
    else 4 * rank(r.s)
         + if r.wait == Ok then if r.pos < r.arrived then 1 else 3 else if Reads(r.wait) then 2 else 4
  }

  lemma ReadyStep<S(!new)>(m: Machine<S>, incoming: seq<Record>, rank: S -> nat, looks: S -> bool, r: Run<S>)
    requires WellBehaved(m) && Sober(m, rank, looks) && Prompt(m, incoming, looks, r) && r.wait == Ok && !m.done(r.s)
    ensures var t := StepOnce(m, incoming, r, READY);
            Prompt(m, incoming, looks, t) && Work(rank, t) < Work(rank, r)
  {
    GoAdvances(m, incoming, r, READY);
    assert GoesOn(m, rank, looks, r.s, Peek(incoming, r));
  }

  lemma ReadyTick<S(!new)>(m: Machine<S>, incoming: seq<Record>, rank: S -> nat, looks: S -> bool, r: Run<S>)
    requires WellBehaved(m) && Sober(m, rank, looks) && Prompt(m, incoming, looks, r)
    ensures var t := Tick(m, incoming, r, READY);
            && Prompt(m, incoming, looks, t)
            && (Work(rank, t) < Work(rank, r) || (t == r && Advance(m, incoming, CoreOf(r)) == None))
  {
    TickAdvances(m, incoming, r, READY);
    match r.wait {
      case Ok => if !m.done(r.s) { ReadyStep(m, incoming, rank, looks, r); }
      case ReadMessage => assert Waiting(m, r.s);
      case ReadServerHello => assert Waiting(m, r.s);
      case _ =>
    }
  }

  predicate AllReady(schedule: seq<Now>) {
    forall i | 0 <= i < |schedule| :: schedule[i] == READY
  }

  lemma {:induction false} StaysPut<S>(m: Machine<S>, incoming: seq<Record>, r: Run<S>, schedule: seq<Now>)
    requires r.arrived <= |incoming| && Tick(m, incoming, r, READY) == r && AllReady(schedule)
    ensures Ticks(m, incoming, r, schedule) == r
    decreases |schedule|
  {
    if schedule != [] { StaysPut(m, incoming, r, schedule[1..]); }
  }

  /** With every answer ready the handshake comes to its end. */
  lemma {:induction false} ReadyEnds<S(!new)>(m: Machine<S>, incoming: seq<Record>, rank: S -> nat, looks: S -> bool,
                                        r: Run<S>, schedule: seq<Now>)
    requires WellBehaved(m) && Sober(m, rank, looks) && Prompt(m, incoming, looks, r)
    requires AllReady(schedule) && |schedule| >= Work(rank, r)
    ensures Advance(m, incoming, CoreOf(Ticks(m, incoming, r, schedule))) == None
    decreases |schedule|
  {
    ReadyTick(m, incoming, rank, looks, r);
    var next := Tick(m, incoming, r, READY);
    if next == r {
      StaysPut(m, incoming, r, schedule);
    } else {
      ReadyEnds(m, incoming, rank, looks, next, schedule[1..]);
    }
  }

  // What holds at every step of the straight run holds in every run.

  /** A property that steps and ChangeCipherSpecs keep. */
  ghost predicate Inductive<S(!new)>(m: Machine<S>, incoming: seq<Record>, inv: Core<S> -> bool) {
    forall c: Core<S> | inv(c) && Advance(m, incoming, c).Some? :: inv(Advance(m, incoming, c).value)
  }

  lemma {:induction false} AlwaysHolds<S(!new)>(m: Machine<S>, incoming: seq<Record>, r: Run<S>, schedule: seq<Now>,
                                          inv: Core<S> -> bool)
    requires WellBehaved(m) && RunOk(m, incoming, r) && Inductive(m, incoming, inv) && inv(CoreOf(r))
    ensures inv(CoreOf(Ticks(m, incoming, r, schedule)))
    decreases |schedule|
  {
    if schedule != [] {
      TickAdvances(m, incoming, r, schedule[0]);
      AlwaysHolds(m, incoming, Tick(m, incoming, r, schedule[0]), schedule[1..], inv);
    }
  }

  // The driver as it runs.

  predicate ForCaller(w: Wait) { w != Ok && w != Error && w != Flush && !Reads(w) && w != ReadChangeCipherSpec }

  /** A turn fails, pauses for input or for the caller, or goes on to a lower rank. */
  ghost predicate Sinking<S>(m: Machine<S>, now: Now, rank: S -> nat, s: S, msg: Option<Msg>) {
    var st := m.step(s, now, msg);
    || st.wait == Error
    || (st.s == s && (Reads(st.wait) || ForCaller(st.wait)))
    || rank(st.s) < rank(s)
  }

  ghost predicate Sinks<S(!new)>(m: Machine<S>, now: Now, rank: S -> nat) {
    && (forall s: S, msg: Option<Msg> | !m.done(s) :: Sinking(m, now, rank, s, msg))
    && forall s: S :: rank(m.noteCcs(s)) == rank(s)
  }

  class Driver<S(==,!new)> {
    const machine: Machine<S>
    const incoming: seq<Record>
    var s: S
    var wait: Wait
    var pos: nat
    var arrived: nat

    function Value(): Run<S>
      reads this
    {
      Run(s, wait, pos, arrived)
    }

    constructor (machine: Machine<S>, incoming: seq<Record>, s: S)
      ensures this.machine == machine && this.incoming == incoming && Value() == Run(s, Ok, 0, 0)
    {
      this.machine, this.incoming, this.s := machine, incoming, s;
      wait, pos, arrived := Ok, 0, 0;
    }

    /** One turn of the loop in ssl_client_handshake or ssl_server_handshake. */
    method Step(now: Now)
      requires arrived <= |incoming| && wait == Ok && !machine.done(s)
      modifies this
      ensures Value() == Tick(machine, incoming, old(Value()), now)
    {
      var st := machine.step(s, now, Peek(incoming, Value()));
      s, wait := st.s, st.wait;
      if st.released {
        pos := pos + 1;
      }
    }

    /** The switch in ssl_run_handshake. */
    method Resolve(now: Now)
      requires arrived <= |incoming| && wait != Ok
      modifies this
      ensures Value() == Tick(machine, incoming, old(Value()), now) && arrived <= |incoming|
    {
      if wait == Flush {
        if now.flushes {
          wait := Ok;
        }
      } else if wait == ReadChangeCipherSpec {
        if now.arrives > 0 && arrived < |incoming| {
          if arrived != pos || incoming[arrived].Handshake? {
            wait := Error;
          } else {
            s, wait, pos, arrived := machine.noteCcs(s), Ok, pos + 1, arrived + 1;
          }
        }
      } else if Reads(wait) {
        OpenHandshake(now);
      } else if wait != Error {
        wait := Ok;
      }
    }

    /** Handshake records are opened as they arrive. */
    method OpenHandshake(now: Now)
      requires arrived <= |incoming|
      modifies this
      ensures Value() == Read(incoming, old(Value()), now) && arrived <= |incoming|
    {
      if now.arrives == 0 || arrived == |incoming| {
        return;
      }
      if !incoming[arrived].Handshake? {
        wait := Error;
        return;
      }
      ghost var start := arrived;
      var n := now.arrives;
      while n > 0 && arrived < |incoming| && incoming[arrived].Handshake?
        invariant arrived <= |incoming| && Deliver(incoming, arrived, n) == Deliver(incoming, start, now.arrives)
        invariant s == old(s) && wait == old(wait) && pos == old(pos)
        decreases n
      {
        arrived, n := arrived + 1, n - 1;
      }
      wait := Ok;
    }

    /** The machine's loop, while it returns ssl_hs_ok: it ends because the rank of the state falls. */
    method RunMachine(now: Now, ghost rank: S -> nat) returns (ghost turns: nat)
      requires arrived <= |incoming| && wait == Ok && Sinks(machine, now, rank)
      modifies this
      ensures wait != Ok || machine.done(s)
      ensures turns <= old(rank(s)) + 1
      ensures arrived <= |incoming| && arrived == old(arrived)
      ensures wait == Ok || wait == Error || rank(s) < old(rank(s))
              || (rank(s) == old(rank(s)) && (Reads(wait) || ForCaller(wait)))
      ensures Value() == Ticks(machine, incoming, old(Value()), Always(now, turns))
    {
      turns := 0;
      while wait == Ok && !machine.done(s)
        invariant arrived <= |incoming| && arrived == old(arrived) && (wait == Ok ==> turns + rank(s) <= old(rank(s)))
        invariant turns <= old(rank(s)) + 1
        invariant wait == Ok || wait == Error || rank(s) < old(rank(s))
                  || (rank(s) == old(rank(s)) && (Reads(wait) || ForCaller(wait)))
        invariant Value() == Ticks(machine, incoming, old(Value()), Always(now, turns))
        decreases wait == Ok, rank(s)
      {
        assert Sinking(machine, now, rank, s, Peek(incoming, Value()));
        Step(now);
        TicksSnoc(machine, incoming, old(Value()), now, turns);
        turns := turns + 1;
      }
    }

    /** The switch of ssl_run_handshake with its returns; Ok means that the machine runs on. */
    method Unblock(now: Now, ghost rank: S -> nat) returns (ret: Wait)
      requires arrived <= |incoming| && wait != Ok && Sinks(machine, now, rank)
      modifies this
      ensures Value() == Tick(machine, incoming, old(Value()), now) && arrived <= |incoming|
      ensures ret == Ok || ForCaller(ret) ==> wait == Ok && rank(s) == old(rank(s))
      ensures ret == Ok ==> old(wait) == Flush || arrived > old(arrived)
      ensures ret != Ok && !ForCaller(ret) ==> wait == ret && Tick(machine, incoming, Value(), now) == Value()
    {
      ret := wait;
      Resolve(now);
      if wait != Ok || !ForCaller(ret) {
        ret := wait;
      }
    }

    /**
     ssl_run_handshake: what is waited for is resolved and the machine run on, until the handshake is done (Ok), has
     failed, waits for the transport, or goes back to the caller for an answer.
     */
    method RunHandshake(now: Now, ghost rank: S -> nat) returns (ret: Wait, ghost turns: nat)
      requires arrived <= |incoming| && Sinks(machine, now, rank)
      modifies this
      ensures arrived <= |incoming| && Value() == Ticks(machine, incoming, old(Value()), Always(now, turns))
      ensures ret == Ok ==> wait == Ok && machine.done(s)
      ensures ForCaller(ret) ==> wait == Ok
      ensures ret != Ok && !ForCaller(ret) ==> wait == ret && Tick(machine, incoming, Value(), now) == Value()
    {
      hide Sinks, Ticks, Always;
      turns := 0;
      assert Value() == Ticks(machine, incoming, old(Value()), Always(now, 0)) by {
        TicksNone(machine, incoming, old(Value()), now);
      }
      while true
        invariant arrived <= |incoming| && Value() == Ticks(machine, incoming, old(Value()), Always(now, turns))
        decreases rank(s), |incoming| - arrived, if Reads(wait) then 0 else if ForCaller(wait) then 1 else 2
      {
        if wait != Ok {
          ret := Unblock(now, rank);
          TicksSnoc(machine, incoming, old(Value()), now, turns);
          turns := turns + 1;
          if ret != Ok {
            return;
          }
        }
        ghost var more := RunMachine(now, rank);
        TicksJoin(machine, incoming, old(Value()), now, turns, more);
        turns := turns + more;
        ret := wait;
        if ret == Error || ret == Ok {
          return;
        }
      }
    }
  }

  // The same answers again and again.

  function Always(now: Now, n: nat): (schedule: seq<Now>)
    ensures |schedule| == n && forall i | 0 <= i < n :: schedule[i] == now
  {
    seq(n, _ => now)
  }

  lemma {:induction false} TicksConcat<S>(m: Machine<S>, incoming: seq<Record>, r: Run<S>, one: seq<Now>,
                                          two: seq<Now>)
    requires r.arrived <= |incoming| && Ticks(m, incoming, r, one).arrived <= |incoming|
    ensures Ticks(m, incoming, r, one + two) == Ticks(m, incoming, Ticks(m, incoming, r, one), two)
    decreases |one|
  {
    if one == [] {
      assert one + two == two;
    } else {
      assert (one + two)[1..] == one[1..] + two;
      TicksConcat(m, incoming, Tick(m, incoming, r, one[0]), one[1..], two);
    }
  }

  lemma TicksNone<S>(m: Machine<S>, incoming: seq<Record>, r: Run<S>, now: Now)
    requires r.arrived <= |incoming|
    ensures Ticks(m, incoming, r, Always(now, 0)) == r
  {
  }

  lemma TicksJoin<S>(m: Machine<S>, incoming: seq<Record>, r: Run<S>, now: Now, k: nat, n: nat)
    requires r.arrived <= |incoming| && Ticks(m, incoming, r, Always(now, k)).arrived <= |incoming|
    ensures Ticks(m, incoming, r, Always(now, k + n))
         == Ticks(m, incoming, Ticks(m, incoming, r, Always(now, k)), Always(now, n))
  {
    assert Always(now, k + n) == Always(now, k) + Always(now, n);
    TicksConcat(m, incoming, r, Always(now, k), Always(now, n));
  }

  lemma TicksSnoc<S>(m: Machine<S>, incoming: seq<Record>, r: Run<S>, now: Now, k: nat)
    requires r.arrived <= |incoming| && Ticks(m, incoming, r, Always(now, k)).arrived <= |incoming|
    requires Tick(m, incoming, Ticks(m, incoming, r, Always(now, k)), now).arrived <= |incoming|
    ensures Ticks(m, incoming, r, Always(now, k + 1))
         == Tick(m, incoming, Ticks(m, incoming, r, Always(now, k)), now)
  {
    TicksJoin(m, incoming, r, now, k, 1);
    var next := Tick(m, incoming, Ticks(m, incoming, r, Always(now, k)), now);
    assert Always(now, 1)[1..] == [];
    assert Ticks(m, incoming, next, []) == next;
  }
}
