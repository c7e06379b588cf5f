/** Reference counts: the compare-exchange loops of refcount_c11.c against the locked version, interleaved. */
module Refcount {
  import opened Bytes

  const REFCOUNT_MAX: nat := 0xffff_ffff
  type count32 = x: int | 0 <= x <= REFCOUNT_MAX

  datatype Op = Inc | Dec

  /** What an operation comes to: dec_and_test_zero's answer (false for inc), or abort(). */
  datatype Result = Answer(zero: bool) | Crash

  // The locked version.

  function LockedCount(count: count32, op: Op): count32 {
    match op
    case Inc => if count < REFCOUNT_MAX then count + 1 else count
    case Dec => if count == 0 then 0 else if count < REFCOUNT_MAX then count - 1 else count
  }

  function LockedResult(count: count32, op: Op): Result {
    if op == Dec && count == 0 then Crash else Answer(op == Dec && LockedCount(count, op) == 0)
  }

  /** refcount_lock.c, between taking the lock and giving it back; abort() is the end of the process. */
  class Locked {
    var count: count32

    constructor (count: count32)
      ensures this.count == count
    {
      this.count := count;
    }

    method Inc()
      modifies this
      ensures count == LockedCount(old(count), Op.Inc)
    {
      if count < REFCOUNT_MAX {
        count := count + 1;
      }
    }

    method DecAndTestZero() returns (r: Result)
      modifies this
      ensures count == LockedCount(old(count), Dec) && r == LockedResult(old(count), Dec)
    {
      if count == 0 {
        return Crash;
      }
      if count < REFCOUNT_MAX {
        count := count - 1;
      }
      return Answer(count == 0);
    }
  }

  /** One operation that took effect. */
  datatype Effect = Effect(thread: nat, op: Op, result: Result)

  /** The count after the locked version ran these operations one after the other; None if a result differs. */
  function Replay(count: count32, history: seq<Effect>): (r: Option<count32>)
    decreases |history|
  {
    if history == [] then Some(count)
    else
      var last := history[|history| - 1];
      match Replay(count, history[..|history| - 1])
      case None => None
      case Some(c) => if last.result == LockedResult(c, last.op) then Some(LockedCount(c, last.op)) else None
  }

  // The compare-exchange loops.

  /** Where a thread is in an operation. */
  datatype Phase =
    | Idle
    | Called(op: Op)                        // before atomic_load
    | Trying(op: Op, expected: count32)     // before atomic_compare_exchange_weak
    | Decided(op: Op, result: Result)       // about to return, or to abort

  /** refs are the references the thread holds. */
  datatype Thread = Thread(refs: nat, phase: Phase, answers: seq<Result>)

  datatype State = State(count: count32, threads: seq<Thread>, history: seq<Effect>)

  /**
   One atomic step: a call, a load, a compare-exchange (which may fail though the count is as expected), a
   return, or a reference handed over.
   */
  datatype Step =
    | Call(t: nat, op: Op)
    | Load(t: nat)
    | Exchange(t: nat, spurious: bool)
    | Return(t: nat)
    | Pass(t: nat, to: nat)

  /** The loop test on a value just read: MAX and, for dec, 0 decide the operation. */
  function Loop(op: Op, seen: count32): Phase {
    if seen == REFCOUNT_MAX then Decided(op, Answer(false))
    else if op == Dec && seen == 0 then Decided(op, Crash)
    else Trying(op, seen)
  }

  ghost predicate Enabled(s: State, step: Step) {
    && step.t < |s.threads|
    && var me := s.threads[step.t];
       match step
       case Call(_, _) => me.phase.Idle?
       case Load(_) => me.phase.Called?
       case Exchange(_, _) => me.phase.Trying?
       case Return(_) => me.phase.Decided? && me.phase.result.Answer?
       case Pass(t, to) => me.phase.Idle? && me.refs > 0 && to < |s.threads| && to != t
  }

  /** A caller holds a reference: inc keeps it and gains one when it returns, dec gives it up. */
  ghost predicate Owned(s: State, step: Step) {
    step.Call? && step.t < |s.threads| ==> s.threads[step.t].refs > 0
  }

  function NewValue(op: Op, expected: count32): int {
    if op == Inc then expected + 1 else expected - 1
  }

  function Moved(s: State, t: nat, phase: Phase): State
    requires t < |s.threads|
  {
    var history := if phase.Decided? then s.history + [Effect(t, phase.op, phase.result)] else s.history;
    s.(threads := s.threads[t := s.threads[t].(phase := phase)], history := history)
  }

  ghost function Next(s: State, step: Step): State
    requires Enabled(s, step)
    requires forall i | 0 <= i < |s.threads| :: Sensible(s.threads[i])
  {
    var me := s.threads[step.t];
    match step
    case Call(t, op) =>
      var refs := if op == Dec && me.refs > 0 then me.refs - 1 else me.refs;
      s.(threads := s.threads[t := Thread(refs, Called(op), me.answers)])
    case Load(t) => Moved(s, t, Loop(me.phase.op, s.count))
    case Exchange(t, spurious) =>
      if s.count != me.phase.expected || spurious then Moved(s, t, Loop(me.phase.op, s.count))
      else
        assert Sensible(me);
        var value := NewValue(me.phase.op, me.phase.expected);
        Moved(s.(count := value), t, Decided(me.phase.op, Answer(me.phase.op == Dec && value == 0)))
    case Return(t) =>
      var refs := if me.phase.op == Inc then me.refs + 1 else me.refs;
      s.(threads := s.threads[t := Thread(refs, Idle, me.answers + [me.phase.result])])
    case Pass(t, to) =>
      s.(threads := s.threads[t := me.(refs := me.refs - 1)][to := s.threads[to].(refs := s.threads[to].refs + 1)])
  }

  /** A thread only tries with values that the loop test lets through. */
  ghost predicate Sensible(me: Thread) {
    me.phase.Trying? ==> me.phase.expected < REFCOUNT_MAX && (me.phase.op == Dec ==> me.phase.expected > 0)
  }

  /** The results recorded for one thread, in order. */
  function ResultsOf(history: seq<Effect>, t: nat): seq<Result>
    decreases |history|
  {
    if history == [] then []
    else
      var last := history[|history| - 1];
      ResultsOf(history[..|history| - 1], t) + if last.thread == t then [last.result] else []
  }

  /** What a thread was told, or is about to be told, is what the history records for it. */
  ghost predicate Told(history: seq<Effect>, t: nat, me: Thread) {
    ResultsOf(history, t) == me.answers + if me.phase.Decided? then [me.phase.result] else []
  }

  /** The count and every answer so far are those of the locked version run in the order of the history. */
  ghost predicate Refines(start: count32, s: State) {
    && Replay(start, s.history) == Some(s.count)
    && forall t | 0 <= t < |s.threads| :: Sensible(s.threads[t]) && Told(s.history, t, s.threads[t])
  }

  lemma HistorySnoc(start: count32, history: seq<Effect>, e: Effect, t: nat)
    ensures var r := Replay(start, history);
            Replay(start, history + [e])
            == if r.Some? && e.result == LockedResult(r.value, e.op) then Some(LockedCount(r.value, e.op)) else None
    ensures ResultsOf(history + [e], t) == ResultsOf(history, t) + if e.thread == t then [e.result] else []
  {
    assert (history + [e])[..|history|] == history;
  }

  /** An operation that takes effect as the locked one would keeps the refinement. */
  lemma DecidedRefines(start: count32, s: State, t: nat, phase: Phase, next: State)
    requires Refines(start, s) && t < |s.threads| && phase.Decided? && !s.threads[t].phase.Decided?
    requires phase.result == LockedResult(s.count, phase.op)
    requires next == Moved(s.(count := LockedCount(s.count, phase.op)), t, phase)
    ensures Refines(start, next)
  {
    var e := Effect(t, phase.op, phase.result);
    forall u | 0 <= u < |s.threads| ensures Sensible(next.threads[u]) && Told(next.history, u, next.threads[u]) {
      HistorySnoc(start, s.history, e, u);
      assert Told(s.history, u, s.threads[u]);
    }
    HistorySnoc(start, s.history, e, t);
  }

  lemma LoopRefines(start: count32, s: State, t: nat, op: Op)
    requires Refines(start, s) && t < |s.threads| && !s.threads[t].phase.Decided?
    ensures Refines(start, Moved(s, t, Loop(op, s.count)))
  {
    var phase := Loop(op, s.count);
    if phase.Decided? {
      DecidedRefines(start, s, t, phase, Moved(s, t, phase));
    } else {
      forall u | 0 <= u < |s.threads| ensures Told(s.history, u, Moved(s, t, phase).threads[u]) {
        assert Told(s.history, u, s.threads[u]);
      }
    }
  }

  /** Every step of every thread keeps the refinement; each operation takes effect in a step of its own thread. */
  lemma StepRefines(start: count32, s: State, step: Step)
    requires Refines(start, s) && Enabled(s, step)
    ensures Refines(start, Next(s, step))
  {
    var t, me := step.t, s.threads[step.t];
    assert Sensible(me) && Told(s.history, t, me);
    match step {
      case Load(_) => LoopRefines(start, s, t, me.phase.op);
      case Exchange(_, spurious) =>
        if s.count != me.phase.expected || spurious {
          LoopRefines(start, s, t, me.phase.op);
        } else {
          var op, value := me.phase.op, NewValue(me.phase.op, me.phase.expected);
          DecidedRefines(start, s, t, Decided(op, Answer(op == Dec && value == 0)), Next(s, step));
        }
      case _ =>
        forall u | 0 <= u < |s.threads| ensures Told(s.history, u, Next(s, step).threads[u]) {
          assert Told(s.history, u, s.threads[u]);
        }
    }
  }

  /** The steps lead from s to end; owned says that every caller holds a reference. */
  ghost predicate Runs(s: State, steps: seq<Step>, end: State, owned: bool)
    decreases |steps|
  {
    if steps == [] then end == s
    else
      && (forall i | 0 <= i < |s.threads| :: Sensible(s.threads[i]))
      && Enabled(s, steps[0]) && (owned ==> Owned(s, steps[0])) && Runs(Next(s, steps[0]), steps[1..], end, owned)
  }

  ghost predicate Initial(s: State) {
    s.history == [] && forall t | 0 <= t < |s.threads| :: s.threads[t].phase == Idle && s.threads[t].answers == []
  }

  lemma {:induction false} RunRefines(start: count32, s: State, steps: seq<Step>, end: State)
    requires Refines(start, s) && Runs(s, steps, end, false)
    ensures Refines(start, end)
    decreases |steps|
  {
    if steps != [] {
      StepRefines(start, s, steps[0]);
      RunRefines(start, Next(s, steps[0]), steps[1..], end);
    }
  }

  /** Every interleaving of the compare-exchange steps does what the locked version does in some order. */
  lemma InterleavingsRefineTheLock(s: State, steps: seq<Step>, end: State)
    requires Initial(s) && Runs(s, steps, end, false)
    ensures Refines(s.count, end)
  {
    forall t | 0 <= t < |s.threads| ensures Sensible(s.threads[t]) && Told(s.history, t, s.threads[t]) {
      assert s.threads[t].phase == Idle;
    }
    RunRefines(s.count, s, steps, end);
  }

  // References.

  /** The references a thread accounts for: those it holds, one it is giving up, one it has gained. */
  function Weight(me: Thread): nat {
    me.refs + match me.phase
              case Idle => 0
              case Called(op) => if op == Dec then 1 else 0
              case Trying(op, _) => if op == Dec then 1 else 0
              case Decided(op, _) => if op == Inc then 1 else 0
  }

  function Total(threads: seq<Thread>): nat {
    if threads == [] then 0 else Weight(threads[0]) + Total(threads[1..])
  }

  lemma {:induction false} TotalUpdate(threads: seq<Thread>, t: nat, me: Thread)
    requires t < |threads|
    ensures Total(threads[t := me]) == Total(threads) - Weight(threads[t]) + Weight(me)
  {
    if t > 0 {
      TotalUpdate(threads[1..], t - 1, me);
      assert threads[t := me][1..] == threads[1..][t - 1 := me];
    } else {
      assert threads[t := me][1..] == threads[1..];
    }
  }

  lemma {:induction false} TotalCovers(threads: seq<Thread>, t: nat)
    requires t < |threads|
    ensures Weight(threads[t]) <= Total(threads)
  {
    if t > 0 { TotalCovers(threads[1..], t - 1); }
  }

  /** How many operations said that the count reached zero. */
  function Zeros(history: seq<Effect>): nat
    decreases |history|
  {
    if history == [] then 0
    else Zeros(history[..|history| - 1]) + if history[|history| - 1].result == Answer(true) then 1 else 0
  }

  /**
   Until the count saturates it is the number of references; at zero one operation, the last, has said so.
   Once saturated it stays, and none has and none will.
   */
  ghost predicate Counted(s: State) {
    && (s.count == REFCOUNT_MAX || s.count == Total(s.threads))
    && Zeros(s.history) == (if s.count == 0 then 1 else 0)
    && (s.count == 0 ==> s.history[|s.history| - 1].result == Answer(true))
    && forall t | 0 <= t < |s.threads| :: Orderly(s.threads[t])
  }

  predicate Crashing(me: Thread) { me.phase.Decided? && me.phase.result == Crash }

  /** While a thread is in inc it still holds the reference it called it with. */
  ghost predicate Orderly(me: Thread) {
    && Sensible(me) && !Crashing(me)
    && ((me.phase.Called? || me.phase.Trying?) && me.phase.op == Inc ==> me.refs > 0)
  }

  lemma ZerosSnoc(history: seq<Effect>, e: Effect)
    ensures Zeros(history + [e]) == Zeros(history) + if e.result == Answer(true) then 1 else 0
  {
    assert (history + [e])[..|history|] == history;
  }

  /** One thread moves on without an effect, and with the same weight. */
  lemma QuietStepCounts(s: State, t: nat, me: Thread, next: State)
    requires Counted(s) && t < |s.threads| && next == s.(threads := s.threads[t := me])
    requires Weight(me) == Weight(s.threads[t]) && Orderly(me)
    ensures Counted(next)
  {
    TotalUpdate(s.threads, t, me);
  }

  /** One operation takes effect; the count is not zero before, since a reference is accounted for. */
  lemma EffectCounts(s: State, t: nat, phase: Phase, next: State)
    requires Counted(s) && t < |s.threads| && phase.Decided? && s.count > 0
    requires s.threads[t].phase.Called? || s.threads[t].phase.Trying?
    requires s.threads[t].phase.op == phase.op && phase.result == LockedResult(s.count, phase.op)
    requires next == Moved(s.(count := LockedCount(s.count, phase.op)), t, phase)
    ensures Counted(next) && (s.count == REFCOUNT_MAX ==> next.count == REFCOUNT_MAX)
  {
    TotalUpdate(s.threads, t, next.threads[t]);
    ZerosSnoc(s.history, Effect(t, phase.op, phase.result));
  }

  lemma LoopCounts(s: State, t: nat, op: Op)
    requires Counted(s) && t < |s.threads|
    requires (s.threads[t].phase.Called? || s.threads[t].phase.Trying?) && s.threads[t].phase.op == op
    ensures Counted(Moved(s, t, Loop(op, s.count)))
  {
    var phase := Loop(op, s.count);
    TotalCovers(s.threads, t);
    assert Orderly(s.threads[t]);
    if phase.Decided? {
      EffectCounts(s, t, phase, Moved(s, t, phase));
    } else {
      QuietStepCounts(s, t, s.threads[t].(phase := phase), Moved(s, t, phase));
    }
  }

  lemma PassCounts(s: State, t: nat, to: nat)
    requires Counted(s) && Enabled(s, Pass(t, to))
    ensures Counted(Next(s, Pass(t, to)))
  {
    var me, you := s.threads[t], s.threads[to];
    var mid := s.threads[t := me.(refs := me.refs - 1)];
    TotalUpdate(s.threads, t, mid[t]);
    TotalUpdate(mid, to, you.(refs := you.refs + 1));
    assert Orderly(me) && Orderly(you);
  }

  lemma StepCounts(s: State, step: Step)
    requires Counted(s) && Enabled(s, step) && Owned(s, step)
    ensures Counted(Next(s, step))
    ensures s.count == REFCOUNT_MAX ==> Next(s, step).count == REFCOUNT_MAX
  {
    var t, me, next := step.t, s.threads[step.t], Next(s, step);
    assert Orderly(me);
    match step {
      case Pass(_, to) => PassCounts(s, t, to);
      case Load(_) => LoopCounts(s, t, me.phase.op);
      case Exchange(_, spurious) =>
        if s.count != me.phase.expected || spurious {
          LoopCounts(s, t, me.phase.op);
        } else {
          TotalCovers(s.threads, t);
          EffectCounts(s, t, next.threads[t].phase, next);
        }
      case _ => QuietStepCounts(s, t, next.threads[t], next);
    }
  }

  lemma {:induction false} RunCounts(s: State, steps: seq<Step>, end: State)
    requires Counted(s) && Runs(s, steps, end, true)
    ensures Counted(end)
    decreases |steps|
  {
    if steps != [] {
      StepCounts(s, steps[0]);
      RunCounts(Next(s, steps[0]), steps[1..], end);
    }
  }

  /**
   When every dec gives up a held reference, nothing ever aborts, and at most one operation is told zero:
   exactly one once all references are gone, unless the count had saturated, and then none.
   */
  lemma LastReferenceTold(s: State, steps: seq<Step>, end: State)
    requires Initial(s) && Runs(s, steps, end, true) && 0 < s.count == Total(s.threads)
    ensures forall t | 0 <= t < |end.threads| :: !Crashing(end.threads[t])
    ensures Zeros(end.history) == if end.count != REFCOUNT_MAX && Total(end.threads) == 0 then 1 else 0
    ensures Zeros(end.history) == 1 ==> end.history[|end.history| - 1].result == Answer(true)
  {
    forall t | 0 <= t < |s.threads| ensures Orderly(s.threads[t]) {
      assert s.threads[t].phase == Idle;
    }
    RunCounts(s, steps, end);
  }
}
