/** The DTLS anti-replay window (dtls_record.cc): the highest number and a bit for each of the 64 up to it. */
module ReplayWindow {
  import opened Bytes
  import opened Words

  const WINDOW_SIZE: nat := 64
  /** A sequence number is the 8 bytes of the record header: the epoch in the top 16 bits, a counter below. */
  const EPOCH_UNIT: nat := 0x1_0000_0000_0000
  const MAX_EPOCH: nat := 0xffff
  const MAX_PLAIN_LENGTH: nat := 16384

  datatype Window = Window(bits: u64, maxSeqNum: u64)

  const EMPTY_WINDOW := Window(0, 0)

  predicate ShouldDiscard(w: Window, s: u64) {
    s <= w.maxSeqNum && (w.maxSeqNum - s >= WINDOW_SIZE || Bit(w.bits, w.maxSeqNum - s))
  }

  function Slide(w: Window, s: u64): Window {
    if s <= w.maxSeqNum then w
    else if s - w.maxSeqNum >= WINDOW_SIZE then Window(0, s)
    else Window(Shl(w.bits, s - w.maxSeqNum), s)
  }

  function Record(w: Window, s: u64): Window {
    var v := Slide(w, s);
    if v.maxSeqNum - s < WINDOW_SIZE then
      SetBitFits(v.bits, v.maxSeqNum - s);
      Window(SetBit(v.bits, v.maxSeqNum - s), v.maxSeqNum)
    else v
  }

  /** The window stands for the set of numbers recorded so far. */
  ghost predicate Refines(w: Window, recorded: set<u64>) {
    && (forall s | s in recorded :: s <= w.maxSeqNum)
    && (if recorded == {} then w.maxSeqNum == 0 else w.maxSeqNum in recorded)
    && forall i: nat | i < WINDOW_SIZE ::
         Bit(w.bits, i) <==> i <= w.maxSeqNum && w.maxSeqNum - i in recorded
  }

  lemma EmptyRefines()
    ensures Refines(EMPTY_WINDOW, {})
  {
    forall i: nat | i < WINDOW_SIZE ensures !Bit(0, i) { BitOfZero(i); }
  }

  /** A number is discarded exactly when it was recorded or lies 64 or more below a recorded one. */
  lemma DiscardsSeenOrStale(w: Window, recorded: set<u64>, s: u64)
    requires Refines(w, recorded)
    ensures ShouldDiscard(w, s) <==> s in recorded || exists t :: t in recorded && t >= s + WINDOW_SIZE
  {
    if s <= w.maxSeqNum && w.maxSeqNum - s < WINDOW_SIZE {
      assert w.maxSeqNum - (w.maxSeqNum - s) == s;
    }
  }

  lemma SlideBits(w: Window, recorded: set<u64>, s: u64, i: nat)
    requires Refines(w, recorded) && i < WINDOW_SIZE
    ensures var v := Slide(w, s);
            Bit(v.bits, i) <==> i <= v.maxSeqNum && v.maxSeqNum - i in recorded
  {
    if s > w.maxSeqNum {
      var shift := s - w.maxSeqNum;
      if shift >= WINDOW_SIZE {
        BitOfZero(i);
      } else {
        BitOfShl(w.bits, shift, i);
        if shift <= i { assert w.maxSeqNum - (i - shift) == s - i; }
      }
    }
  }

  /** Recording adds exactly the given number, in or out of the window. */
  lemma RecordAdds(w: Window, recorded: set<u64>, s: u64)
    requires Refines(w, recorded)
    ensures Refines(Record(w, s), recorded + {s})
  {
    var v := Slide(w, s);
    forall i: nat | i < WINDOW_SIZE
      ensures Bit(Record(w, s).bits, i) <==>
              i <= v.maxSeqNum && v.maxSeqNum - i in recorded + {s}
    {
      SlideBits(w, recorded, s, i);
      if v.maxSeqNum - s < WINDOW_SIZE { BitOfSetBit(v.bits, v.maxSeqNum - s, i); }
    }
  }

  // The read half of a connection: which records are let through.

  datatype ReadState = ReadState(epoch: nat, window: Window)

  datatype Outcome = Discarded | Failed | Accepted

  function EpochOf(s: u64): nat { s / EPOCH_UNIT }

  /** A record with number s arrives; opens says whether its AEAD accepts it. */
  function OpenRecord(st: ReadState, s: u64, opens: bool, plainLen: nat): (ReadState, Outcome) {
    if EpochOf(s) != st.epoch || ShouldDiscard(st.window, s) || !opens then (st, Discarded)
    else if plainLen > MAX_PLAIN_LENGTH then (st, Failed)
    else (st.(window := Record(st.window, s)), Accepted)
  }

  /** dtls1_set_read_state; leftover is its check for unprocessed handshake data. */
  function SetReadState(st: ReadState, leftover: bool): ReadState {
    if leftover then st else ReadState((st.epoch + 1) % (MAX_EPOCH + 1), EMPTY_WINDOW)
  }

  datatype Event =
    | Arrives(seqNum: u64, opens: bool, plainLen: nat)
    | NewKeys(leftover: bool)

  const START := ReadState(0, EMPTY_WINDOW)

  function After(st: ReadState, e: Event): ReadState {
    match e
    case Arrives(s, opens, n) => OpenRecord(st, s, opens, n).0
    case NewKeys(leftover) => SetReadState(st, leftover)
  }

  function Run(es: seq<Event>): ReadState {
    if es == [] then START else After(Run(es[..|es| - 1]), es[|es| - 1])
  }

  /** A record with the number of epoch changes before it. */
  datatype Mark = Mark(changes: nat, seqNum: u64)

  function EpochChanges(es: seq<Event>): nat {
    if es == [] then 0
    else
      EpochChanges(es[..|es| - 1]) + if es[|es| - 1] == NewKeys(false) then 1 else 0
  }

  /** The records accepted over a run, in order. */
  function AcceptedLog(es: seq<Event>): seq<Mark> {
    if es == [] then []
    else
      var before, e := es[..|es| - 1], es[|es| - 1];
      AcceptedLog(before) +
      if e.Arrives? && OpenRecord(Run(before), e.seqNum, e.opens, e.plainLen).1.Accepted?
      then [Mark(EpochChanges(before), e.seqNum)] else []
  }

  ghost predicate Distinct<T(!new)>(log: seq<T>) {
    forall i, j | 0 <= i < j < |log| :: log[i] != log[j]
  }

  /** The numbers accepted since so many changes. */
  ghost function Since(log: seq<Mark>, changes: nat): set<u64> {
    set m | m in log && m.changes == changes :: m.seqNum
  }

  /** What every reachable state keeps: the window holds the numbers accepted since the last change of epoch. */
  ghost predicate Consistent(st: ReadState, log: seq<Mark>, changes: nat) {
    && st.epoch == changes % (MAX_EPOCH + 1)
    && (forall m | m in log :: m.changes <= changes && EpochOf(m.seqNum) == m.changes % (MAX_EPOCH + 1))
    && Refines(st.window, Since(log, changes))
    && Distinct(log)
  }

  lemma ArrivalKeeps(st: ReadState, log: seq<Mark>, changes: nat, s: u64)
    requires Consistent(st, log, changes) && EpochOf(s) == st.epoch && !ShouldDiscard(st.window, s)
    ensures Consistent(st.(window := Record(st.window, s)), log + [Mark(changes, s)], changes)
  {
    var recorded := Since(log, changes);
    DiscardsSeenOrStale(st.window, recorded, s);
    RecordAdds(st.window, recorded, s);
    assert Since(log + [Mark(changes, s)], changes) == recorded + {s};
    assert Mark(changes, s) !in log;
  }

  lemma NewKeysKeep(st: ReadState, log: seq<Mark>, changes: nat)
    requires Consistent(st, log, changes)
    ensures Consistent(SetReadState(st, false), log, changes + 1)
  {
    EmptyRefines();
    assert Since(log, changes + 1) == {};
    NextEpoch(changes);
  }

  lemma NextEpoch(changes: nat)
    ensures (changes % (MAX_EPOCH + 1) + 1) % (MAX_EPOCH + 1) == (changes + 1) % (MAX_EPOCH + 1)
  {
  }

  lemma {:induction false} RunInvariant(es: seq<Event>)
    ensures Consistent(Run(es), AcceptedLog(es), EpochChanges(es))
  {
    if es == [] {
      EmptyRefines();
      assert Since([], 0) == {};
    } else {
      var before, e := es[..|es| - 1], es[|es| - 1];
      RunInvariant(before);
      var st, log := Run(before), AcceptedLog(before);
      assert log + [] == log;
      if e.Arrives? && OpenRecord(st, e.seqNum, e.opens, e.plainLen).1.Accepted? {
        ArrivalKeeps(st, log, EpochChanges(before), e.seqNum);
      } else if e == NewKeys(false) {
        NewKeysKeep(st, log, EpochChanges(before));
      }
    }
  }

  /** Over every run no number is accepted twice between two changes of epoch. */
  lemma NeverTwice(es: seq<Event>)
    ensures Distinct(AcceptedLog(es))
  {
    RunInvariant(es);
  }

  /** The numbers alone, as they stand in the records. */
  function Numbers(log: seq<Mark>): (ns: seq<u64>)
    ensures |ns| == |log| && forall i | 0 <= i < |log| :: ns[i] == log[i].seqNum
  {
    seq(|log|, i requires 0 <= i < |log| => log[i].seqNum)
  }

  /** Before the epoch wraps it is the number of changes. */
  lemma SameMark(m: Mark, n: Mark)
    requires EpochOf(m.seqNum) == m.changes % (MAX_EPOCH + 1) && EpochOf(n.seqNum) == n.changes % (MAX_EPOCH + 1)
    requires m.changes <= MAX_EPOCH && n.changes <= MAX_EPOCH && m.seqNum == n.seqNum
    ensures m == n
  {
  }

  /** While the 16-bit epoch does not wrap, no number is accepted twice at all. */
  lemma NoReplay(es: seq<Event>)
    requires EpochChanges(es) <= MAX_EPOCH
    ensures Distinct(Numbers(AcceptedLog(es)))
  {
    hide Refines, Run, EpochOf, AcceptedLog, EpochChanges;
    RunInvariant(es);
    var log := AcceptedLog(es);
    forall i, j | 0 <= i < j < |log| ensures log[i].seqNum != log[j].seqNum {
      assert log[i] in log && log[j] in log && log[i] != log[j];
      if log[i].seqNum == log[j].seqNum { SameMark(log[i], log[j]); }
    }
  }

  /**
   What the window costs an honest peer: an authentic record of the current epoch is let through exactly when its
   number is new and less than 64 below every number accepted since the last change of epoch.
   */
  lemma AcceptsExactly(es: seq<Event>, s: u64, plainLen: nat)
    requires plainLen <= MAX_PLAIN_LENGTH && EpochOf(s) == Run(es).epoch
    ensures OpenRecord(Run(es), s, true, plainLen).1.Accepted? <==>
            Mark(EpochChanges(es), s) !in AcceptedLog(es) &&
            forall m | m in AcceptedLog(es) && m.changes == EpochChanges(es) :: m.seqNum < s + WINDOW_SIZE
  {
    RunInvariant(es);
    var st, log, changes := Run(es), AcceptedLog(es), EpochChanges(es);
    var recorded := Since(log, changes);
    DiscardsSeenOrStale(st.window, recorded, s);
    assert s in recorded <==> Mark(changes, s) in log;
    assert forall m | m in log && m.changes == changes :: m.seqNum in recorded;
  }

  // The bound on epoch changes is exact: one more and the first record of a run can come back.

  /** A record, n changes of epoch, and from 65536 changes on the record again as soon as its epoch is back. */
  function Wraps(s: u64, n: nat): seq<Event> {
    if n == 0 then [Arrives(s, true, 0)]
    else
      Wraps(s, n - 1) + [NewKeys(false)] + if n == MAX_EPOCH + 1 then [Arrives(s, true, 0)] else []
  }

  lemma FreshAccepts(s: u64)
    ensures !ShouldDiscard(EMPTY_WINDOW, s)
  {
    EmptyRefines();
    DiscardsSeenOrStale(EMPTY_WINDOW, {}, s);
  }

  lemma OneMoreEvent(es: seq<Event>, e: Event)
    ensures (es + [e])[..|es|] == es && Run(es + [e]) == After(Run(es), e)
    ensures EpochChanges(es + [e]) == EpochChanges(es) + if e == NewKeys(false) then 1 else 0
  {
    assert (es + [e])[..|es|] == es;
  }

  lemma OneMoreChange(es: seq<Event>)
    ensures EpochChanges(es + [NewKeys(false)]) == EpochChanges(es) + 1
    ensures AcceptedLog(es + [NewKeys(false)]) == AcceptedLog(es)
  {
    assert (es + [NewKeys(false)])[..|es|] == es && AcceptedLog(es) + [] == AcceptedLog(es);
  }

  /** After a change of epoch to that of s, its record is accepted. */
  lemma AcceptedAgain(es: seq<Event>, s: u64)
    requires EpochOf(s) == (Run(es).epoch + 1) % (MAX_EPOCH + 1)
    ensures var changed := es + [NewKeys(false)];
            && EpochChanges(changed + [Arrives(s, true, 0)]) == EpochChanges(es) + 1
            && AcceptedLog(changed + [Arrives(s, true, 0)]) == AcceptedLog(es) + [Mark(EpochChanges(es) + 1, s)]
  {
    hide ShouldDiscard;
    var changed := es + [NewKeys(false)];
    FreshAccepts(s);
    OneMoreEvent(es, NewKeys(false));
    OneMoreEvent(changed, Arrives(s, true, 0));
    assert AcceptedLog(changed) == AcceptedLog(es) + [];
  }

  lemma NumbersSnoc(log: seq<Mark>, m: Mark)
    ensures Numbers(log + [m]) == Numbers(log) + [m.seqNum]
  {
  }

  lemma {:induction false} AfterWraps(s: u64, n: nat)
    requires EpochOf(s) == 0
    ensures EpochChanges(Wraps(s, n)) == n
    ensures Numbers(AcceptedLog(Wraps(s, n))) == if n <= MAX_EPOCH then [s] else [s, s]
  {
    hide Refines, Numbers;
    if n == 0 {
      FreshAccepts(s);
      assert Wraps(s, n)[..0] == [];
      NumbersSnoc([], Mark(0, s));
      assert Numbers([]) == [];
    } else {
      AfterWraps(s, n - 1);
      hide ShouldDiscard, After, AcceptedLog;
      var before := Wraps(s, n - 1);
      if n == MAX_EPOCH + 1 {
        RunInvariant(before);
        AcceptedAgain(before, s);
        NumbersSnoc(AcceptedLog(before), Mark(n, s));
      } else {
        OneMoreChange(before);
        assert Wraps(s, n) == before + [NewKeys(false)];
      }
    }
  }

  /** No run with n changes accepts a number twice, exactly when n does not wrap the epoch. */
  lemma ReplaysExactlyAfterWrap(n: nat)
    ensures (forall es: seq<Event> | EpochChanges(es) == n :: Distinct(Numbers(AcceptedLog(es)))) <==> n <= MAX_EPOCH
  {
    if n <= MAX_EPOCH {
      forall es: seq<Event> | EpochChanges(es) == n ensures Distinct(Numbers(AcceptedLog(es))) { NoReplay(es); }
    } else {
      AfterWraps(0, n);
      var log := Numbers(AcceptedLog(Wraps(0, n)));
      assert log[0] == log[1] && !Distinct(log);
    }
  }

  /** The first such run: the record with number 0 is accepted, and again after 65536 changes. */
  lemma ReplayAfterEpochWrap()
    ensures EpochChanges(Wraps(0, MAX_EPOCH + 1)) == MAX_EPOCH + 1
    ensures Numbers(AcceptedLog(Wraps(0, MAX_EPOCH + 1))) == [0, 0]
  {
    AfterWraps(0, MAX_EPOCH + 1);
  }

  // The source's own form: fields updated in place.

  /** The number a big-endian byte string stands for. */
  function BigEndian(bytes: seq<byte>): nat {
    if bytes == [] then 0 else BigEndian(bytes[..|bytes| - 1]) * 256 + bytes[|bytes| - 1]
  }

  lemma BigEndianSplit(bytes: seq<byte>, k: nat)
    requires k < |bytes|
    ensures BigEndian(bytes[..k + 1]) == BigEndian(bytes[..k]) * 256 + bytes[k]
  {
    assert bytes[..k + 1][..k] == bytes[..k];
  }

  /** Eight bytes make a 64-bit number, and their first two are the epoch it carries. */
  lemma EightBytes(bytes: seq<byte>)
    requires |bytes| == 8
    ensures BigEndian(bytes) < TWO64
    ensures BigEndian(bytes) / EPOCH_UNIT == bytes[0] as int * 256 + bytes[1]
  {
    assert BigEndian(bytes[..0]) == 0;
    forall k: nat | k < 8
      ensures BigEndian(bytes[..k + 1]) == BigEndian(bytes[..k]) * 256 + bytes[k]
    {
      BigEndianSplit(bytes, k);
    }
    assert bytes[..8] == bytes;
    var low := BigEndian(bytes) - (bytes[0] as int * 256 + bytes[1]) * EPOCH_UNIT;
    assert 0 <= low < EPOCH_UNIT by {
      assert BigEndian(bytes[..0 + 1]) == bytes[0] as int;
      assert BigEndian(bytes[..1 + 1]) == bytes[0] as int * 256 + bytes[1];
      assert BigEndian(bytes[..2 + 1]) == BigEndian(bytes[..2]) * 256 + bytes[2];
      assert BigEndian(bytes[..3 + 1]) == BigEndian(bytes[..3]) * 256 + bytes[3];
      assert BigEndian(bytes[..4 + 1]) == BigEndian(bytes[..4]) * 256 + bytes[4];
      assert BigEndian(bytes[..5 + 1]) == BigEndian(bytes[..5]) * 256 + bytes[5];
      assert BigEndian(bytes[..6 + 1]) == BigEndian(bytes[..6]) * 256 + bytes[6];
      assert BigEndian(bytes[..7 + 1]) == BigEndian(bytes[..7]) * 256 + bytes[7];
    }
  }

  lemma {:induction false} BigEndianBound(bytes: seq<byte>)
    requires |bytes| <= 8
    ensures BigEndian(bytes) < Pow2(8 * |bytes|) <= TWO64
  {
    Pow2Of64();
    if bytes != [] {
      BigEndianBound(bytes[..|bytes| - 1]);
      Pow2Plus8(8 * (|bytes| - 1));
    }
    Pow2Monotone(8 * |bytes|, 64);
  }

  class DtlsReader {
    var epoch: nat
    var bits: u64
    var maxSeqNum: u64

    ghost function State(): ReadState
      reads this
    {
      ReadState(epoch, Window(bits, maxSeqNum))
    }

    constructor ()
      ensures State() == START
    {
      epoch, bits, maxSeqNum := 0, 0, 0;
    }

    static method ToU64Be(bytes: seq<byte>) returns (ret: u64)
      requires |bytes| == 8
      ensures ret == BigEndian(bytes)
    {
      ret := 0;
      for i := 0 to 8
        invariant ret == BigEndian(bytes[..i])
      {
        BigEndianSplit(bytes, i);
        BigEndianBound(bytes[..i + 1]);
        ret := ret * 256 + bytes[i];
      }
      assert bytes[..8] == bytes;
    }

    method BitmapShouldDiscard(s: u64) returns (discard: bool)
      ensures discard == ShouldDiscard(State().window, s)
    {
      if s > maxSeqNum {
        return false;
      }
      var idx := maxSeqNum - s;
      discard := idx >= WINDOW_SIZE || Bit(bits, idx);
    }

    method BitmapRecord(s: u64)
      modifies this`bits, this`maxSeqNum
      ensures State() == old(State()).(window := Record(old(State()).window, s))
    {
      if s > maxSeqNum {
        var shift := s - maxSeqNum;
        if shift >= WINDOW_SIZE {
          bits := 0;
        } else {
          bits := Shl(bits, shift);
        }
        maxSeqNum := s;
      }
      var idx := maxSeqNum - s;
      if idx < WINDOW_SIZE {
        SetBitFits(bits, idx);
        bits := SetBit(bits, idx);
      }
    }

    method Open(sequence: seq<byte>, opens: bool, plainLen: nat) returns (outcome: Outcome)
      requires |sequence| == 8
      modifies this`bits, this`maxSeqNum
      ensures BigEndian(sequence) < TWO64
      ensures (State(), outcome) == OpenRecord(old(State()), BigEndian(sequence), opens, plainLen)
    {
      var s := ToU64Be(sequence);
      EightBytes(sequence);
      if sequence[0] as int * 256 + sequence[1] != epoch {
        return Discarded;
      }
      var discard := BitmapShouldDiscard(s);
      if discard || !opens {
        return Discarded;
      }
      if plainLen > MAX_PLAIN_LENGTH {
        return Failed;
      }
      BitmapRecord(s);
      outcome := Accepted;
    }

    method ChangeReadState(leftover: bool) returns (ok: bool)
      modifies this
      ensures State() == SetReadState(old(State()), leftover) && ok == !leftover
    {
      if leftover {
        return false;
      }
      epoch := (epoch + 1) % (MAX_EPOCH + 1);
      bits, maxSeqNum := 0, 0;
      ok := true;
    }
  }
}
