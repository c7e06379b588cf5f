/** Two limits of pb_decode_noinit: a zero tag ends a message, and only the first 64 required fields are checked. */
module PbLimits {
  import opened Bytes
  import opened PbWire
  import opened PbMessage
  import opened PbEncoding
  import opened PbDecoding
  import opened PbRoundTrip
  import opened PbRequired

  // The zero tag.

  /** Whatever comes behind a zero tag is not looked at. */
  lemma ZeroTagHidesTheRest(fields: seq<Field>, slots: seq<Slot>, seen: set<nat>, g: seq<byte>, rest: seq<byte>)
    requires |slots| == |fields| && Unknown(fields, g)
    ensures DecLoop(fields, slots, seen, g + [0] + rest) == DecLoop(fields, slots, seen, [])
  {
    assert g + [0] + rest == g + ([0] + rest);
    UnknownSkipped(fields, slots, seen, g, [0] + rest);
    assert ([0] + rest)[0] == 0 && DecodeTag([0] + rest) == TagEnd;
  }

  const NUMBER := Field(1, UVarint, Required, 4, None)

  lemma OneField(slots: seq<Slot>, seen: set<nat>, n: byte, rest: seq<byte>)
    requires |slots| == 1 && n < 128 && seen <= {0}
    ensures DecLoop([NUMBER], slots, seen, [8, n] + rest) == DecLoop([NUMBER], [One(Num(n as int))], {0}, rest)
  {
    assert SchemaOk([NUMBER]);
    VarintOfEncoding(n as int, rest);
    assert EncodeVarint(n as int) == [n];
    assert DecSlot(NUMBER, slots[0], 0, [n] + rest) == Some(Read(One(Num(n as int)), 1));
    assert EncodeTag(0, 1) == [8];
    TaggedStep([NUMBER], slots, seen, 0, 0, [n], rest, One(Num(n as int)));
    assert [8] + [n] + rest == [8, n] + rest;
    assert Store([NUMBER], slots, 0, One(Num(n as int))) == [One(Num(n as int))];
    assert RequiredBefore([NUMBER], 0) == 0 && seen + SeenBy([NUMBER], 0) == {0};
  }

  /** A number in field 1, a zero, and the field again: the second value is lost, and the message accepted. */
  lemma ZeroTagExample()
    ensures Decode([NUMBER], [8, 5, 0, 8, 9]) == Some([One(Num(5))])
    ensures Decode([NUMBER], [8, 5, 8, 9]) == Some([One(Num(9))])
  {
    hide DecLoop;
    OneField(InitSlots([NUMBER]), {}, 5, [0, 8, 9]);
    assert [8, 5, 0, 8, 9] == [8, 5] + [0, 8, 9] && [0, 8, 9] == [] + [0] + [8, 9];
    ZeroTagHidesTheRest([NUMBER], [One(Num(5))], {0}, [], [8, 9]);
    OneField(InitSlots([NUMBER]), {}, 5, [8, 9]);
    OneField([One(Num(5))], {0}, 9, []);
    assert [8, 5, 8, 9] == [8, 5] + [8, 9] && [8, 9] == [8, 9] + [];
    NumberEnds(5);
    NumberEnds(9);
  }

  lemma NumberEnds(n: int)
    ensures DecLoop([NUMBER], [One(Num(n))], {0}, []) == Some([One(Num(n))])
  {
    assert RequiredBefore([NUMBER], 0) == 0;
  }

  // More than 64 required fields.

  /** A message that decodes has every required field. */
  ghost predicate Demands(fields: seq<Field>, bs: Input) {
    Decode(fields, bs).Some? ==>
      var w := Walk(fields, InitSlots(fields), {}, bs);
      w.Some? && forall i | 0 <= i < |fields| && fields[i].htype == Required :: i in w.value.occurred
  }

  /** The required fields among fields i to n, encoded. */
  function RequiredBytes(fields: seq<Field>, vals: seq<Slot>, i: nat, n: nat): Output
    requires |vals| == |fields| && i <= n <= |fields|
    decreases n - i
  {
    if i == n then Some([])
    else if fields[i].htype == Required && vals[i].One?
    then Join(EncTagged(fields[i], vals[i].v), RequiredBytes(fields, vals, i + 1, n))
    else RequiredBytes(fields, vals, i + 1, n)
  }

  /** Each required field's value has an encoding shorter than 2^32 bytes. */
  ghost predicate ShortValues(fields: seq<Field>, vals: seq<Slot>) {
    && |vals| == |fields| && SlotsOk(fields, vals)
    && forall i | 0 <= i < |fields| && fields[i].htype == Required :: vals[i].One? && Short(fields[i], vals[i].v)
  }

  predicate Short(f: Field, v: Val) { EncTagged(f, v).Some? && |EncTagged(f, v).value| < TWO32 }

  /** What reads back into a required field. */
  lemma ReadsBack(f: Field, v: Val, rest: seq<byte>)
    requires FieldOk(f) && f.htype == Required && ValOk(f.ltype, f.dataSize, v) && Short(f, v)
    ensures var payload := EncVal(f.ltype, f.dataSize, v).value;
            DecSlot(f, InitSlot(f), WireType(f.ltype), payload + rest)
            == Some(Read(Placed(f, InitSlot(f), v), |payload|))
  {
    assert InitSlot(f) == One(InitVal(f));
    ValRoundTrip(f, v, Target(f, InitSlot(f)), rest);
  }

  /** Reading a tag and then what DecSlot takes is one turn of the walk. */
  lemma WalkStep(fields: seq<Field>, slots: seq<Slot>, occurred: set<nat>, i: nat, wireType: nat,
                 payload: seq<byte>, rest: seq<byte>, s: Slot)
    requires |slots| == |fields| && SchemaOk(fields) && i < |fields| && wireType < 8
    requires DecSlot(fields[i], slots[i], wireType, payload + rest) == Some(Read(s, |payload|))
    ensures Walk(fields, slots, occurred, EncodeTag(wireType, fields[i].tag) + payload + rest)
         == Walk(fields, Store(fields, slots, i, s), occurred + {i}, rest)
  {
    hide DecSlot;
    assert FieldOk(fields[i]);
    var tag := EncodeTag(wireType, fields[i].tag);
    var bs := tag + payload + rest;
    assert bs == tag + (payload + rest);
    TagRoundTrip(wireType, fields[i].tag, payload + rest);
    FindsIt(fields, i);
    assert bs[|tag|..] == payload + rest;
    assert (payload + rest)[|payload|..] == rest;
  }

  lemma WalkOne(fields: seq<Field>, slots: seq<Slot>, occurred: set<nat>, i: nat, v: Val, rest: seq<byte>)
      returns (s: Slot)
    requires |slots| == |fields| && SchemaOk(fields) && i < |fields| && fields[i].htype == Required
    requires ValOk(fields[i].ltype, fields[i].dataSize, v) && slots[i] == InitSlot(fields[i])
    requires Short(fields[i], v)
    ensures Walk(fields, slots, occurred, EncTagged(fields[i], v).value + rest)
         == Walk(fields, slots[i := s], occurred + {i}, rest)
  {
    assert FieldOk(fields[i]);
    hide ValOk, DecSlot, EncVal, FieldOk, Walk, EncodeTag, Placed, SchemaOk;
    var f := fields[i];
    ReadsBack(f, v, rest);
    s := Placed(f, slots[i], v);
    WalkStep(fields, slots, occurred, i, WireType(f.ltype), EncVal(f.ltype, f.dataSize, v).value, rest, s);
    assert Store(fields, slots, i, s) == slots[i := s];
  }

  lemma WalkNothing(fields: seq<Field>, slots: seq<Slot>, occurred: set<nat>)
    requires |slots| == |fields|
    ensures var w := Walk(fields, slots, occurred, []);
            w.Some? && w.value.occurred == occurred
  {
  }

  lemma {:induction false} WalkRequired(fields: seq<Field>, vals: seq<Slot>, slots: seq<Slot>, occurred: set<nat>,
                                        i: nat, n: nat)
    requires SchemaOk(fields) && ShortValues(fields, vals) && |slots| == |fields| && i <= n <= |fields|
    requires forall j | i <= j < |fields| :: slots[j] == InitSlot(fields[j])
    ensures RequiredBytes(fields, vals, i, n).Some?
    ensures var w := Walk(fields, slots, occurred, RequiredBytes(fields, vals, i, n).value);
            w.Some? && forall k :: k in w.value.occurred <==>
                         k in occurred || (i <= k < n && fields[k].htype == Required)
    decreases n - i
  {
    WalkNothing(fields, slots, occurred);
    hide Walk, SchemaOk;
    if i < n {
      assert SlotOk(fields[i], vals[i]);
      if fields[i].htype == Required {
        WalkRequired(fields, vals, slots, occurred, i + 1, n);
        var rest := RequiredBytes(fields, vals, i + 1, n).value;
        var s := WalkOne(fields, slots, occurred, i, vals[i].v, rest);
        WalkRequired(fields, vals, slots[i := s], occurred + {i}, i + 1, n);
      } else {
        WalkRequired(fields, vals, slots, occurred, i + 1, n);
      }
    }
  }

  /** The last required field. */
  lemma {:induction false} LastRequired(fields: seq<Field>, n: nat) returns (i: nat)
    requires n <= |fields| && RequiredBefore(fields, n) > 0
    ensures i < n && fields[i].htype == Required && RequiredBefore(fields, i) == RequiredBefore(fields, n) - 1
  {
    if fields[n - 1].htype == Required { i := n - 1; } else { i := LastRequired(fields, n - 1); }
  }

  lemma {:induction false} BeforeIsSmaller(fields: seq<Field>, i: nat, n: nat)
    requires i < n <= |fields| && fields[i].htype == Required
    ensures RequiredBefore(fields, i) < RequiredBefore(fields, n)
  {
    CountGrows(fields, i, n);
  }

  /** The message of all required fields before field last, which is required after at least 64 others. */
  lemma WithoutLast(fields: seq<Field>, vals: seq<Slot>, last: nat)
    requires SchemaOk(fields) && ShortValues(fields, vals)
    requires last < |fields| && fields[last].htype == Required && RequiredBefore(fields, last) >= MAX_REQUIRED_FIELDS
    ensures var bs := RequiredBytes(fields, vals, 0, last);
            bs.Some? && !Demands(fields, bs.value)
  {
    hide SchemaOk, SlotsOk, Short, Walk, DecLoop, RequiredBytes, RequiredBefore;
    WalkRequired(fields, vals, InitSlots(fields), {}, 0, last);
    var bs := RequiredBytes(fields, vals, 0, last).value;
    RequiredFieldsOccur(fields, InitSlots(fields), bs);
    var w := Walk(fields, InitSlots(fields), {}, bs).value;
    forall i | 0 <= i < |fields| && fields[i].htype == Required && RequiredBefore(fields, i) < MAX_REQUIRED_FIELDS
      ensures i in w.occurred
    {
      if last < i { BeforeIsSmaller(fields, last, i); }
    }
    assert last !in w.occurred;
  }

  /** The decoder demands all required fields of a schema exactly when there are at most 64 of them. */
  lemma DemandsExactly64(fields: seq<Field>, vals: seq<Slot>)
    requires SchemaOk(fields) && ShortValues(fields, vals)
    ensures (forall bs: Input :: Demands(fields, bs)) <==> RequiredBefore(fields, |fields|) <= MAX_REQUIRED_FIELDS
  {
    if RequiredBefore(fields, |fields|) <= MAX_REQUIRED_FIELDS {
      forall bs: Input ensures Demands(fields, bs) {
        RequiredFieldsOccur(fields, InitSlots(fields), bs);
        forall i | 0 <= i < |fields| && fields[i].htype == Required
          ensures RequiredBefore(fields, i) < MAX_REQUIRED_FIELDS
        {
          BeforeIsSmaller(fields, i, |fields|);
        }
      }
    } else {
      var last := LastRequired(fields, |fields|);
      WithoutLast(fields, vals, last);
    }
  }

  // Such a schema: 65 required numbers.

  function NumberField(i: nat): Field
    requires i < 1000
  {
    Field(i + 1, UVarint, Required, 4, None)
  }

  function Numbered(n: nat): (fields: seq<Field>)
    requires n <= 1000
    ensures |fields| == n && forall i | 0 <= i < n :: fields[i] == NumberField(i)
  {
    seq(n, i requires 0 <= i < n => NumberField(i))
  }

  lemma {:induction false} NumberedCount(n: nat, i: nat)
    requires i <= n <= 1000
    ensures RequiredBefore(Numbered(n), i) == i
  {
    if i > 0 { NumberedCount(n, i - 1); }
  }

  lemma OneIsShort(i: nat)
    requires i < 1000
    ensures ValOk(UVarint, 4, Num(1)) && Short(NumberField(i), Num(1))
  {
    TenBytesSuffice((i + 1) * 8);
    TenBytesSuffice(1);
  }

  lemma OnesAreShort(n: nat, vals: seq<Slot>)
    requires n <= 1000 && |vals| == n && forall i | 0 <= i < n :: vals[i] == One(Num(1))
    ensures SchemaOk(Numbered(n)) && ShortValues(Numbered(n), vals)
  {
    hide Short, ValOk;
    forall i | 0 <= i < n ensures SlotOk(NumberField(i), vals[i]) && Short(NumberField(i), Num(1)) { OneIsShort(i); }
  }

  /** Sixty-five required numbers, and the first sixty-four of them in the message. */
  lemma SixtyFifthIsNotDemanded()
    ensures var bs := RequiredBytes(Numbered(65), seq(65, _ => One(Num(1))), 0, 64);
            bs.Some? && !Demands(Numbered(65), bs.value)
  {
    hide Demands, ShortValues, SchemaOk, RequiredBytes;
    var vals := seq(65, _ => One(Num(1)));
    NumberedCount(65, 64);
    OnesAreShort(65, vals);
    WithoutLast(Numbered(65), vals, 64);
  }
}
