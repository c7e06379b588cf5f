/** Required fields: what the bitmask of pb_decode_noinit and the field iterator's index establish together. */
module PbRequired {
  import opened Bytes
  import opened PbWire
  import opened PbMessage
  import opened PbDecoding

  // The loop without the bitmask, keeping the fields that occurred.

  datatype Walked = Walked(slots: seq<Slot>, occurred: set<nat>)

  /** Which fields of the descriptor occur as records in bs, and what they leave; no field is demanded. */
  function Walk(fields: seq<Field>, slots: seq<Slot>, occurred: set<nat>, bs: Input): Option<Walked>
    requires |slots| == |fields|
    decreases |bs|
  {
    if bs == [] then Some(Walked(slots, occurred))
    else match DecodeTag(bs)
      case TagFail => None
      case TagEnd => Some(Walked(slots, occurred))
      case Tag(wireType, tag, used) =>
        var rest := bs[used..];
        if fields == [] && tag == 0 then None
        else match FindField(fields, tag)
          case None =>
            (match SkipField(wireType, rest)
             case None => None
             case Some(n) => Walk(fields, slots, occurred, rest[n..]))
          case Some(i) =>
            (match DecSlot(fields[i], slots[i], wireType, rest)
             case None => None
             case Some(Read(s, n)) => Walk(fields, Store(fields, slots, i, s), occurred + {i}, rest[n..]))
  }

  /** Every required field among the first 64 occurred. */
  ghost predicate Complete(fields: seq<Field>, occurred: set<nat>) {
    forall i | 0 <= i < |fields| && fields[i].htype == Required && RequiredBefore(fields, i) < MAX_REQUIRED_FIELDS ::
      i in occurred
  }

  /** The bitmask holds exactly the indices of the required fields that occurred. */
  ghost predicate Tracks(fields: seq<Field>, seen: set<nat>, occurred: set<nat>) {
    && (forall i | i in occurred :: i < |fields|)
    && (forall i | i in occurred :: SeenBy(fields, i) <= seen)
    && forall k | k in seen :: exists i | i in occurred :: k in SeenBy(fields, i)
  }

  lemma {:induction false} CountGrows(fields: seq<Field>, i: nat, j: nat)
    requires i < j <= |fields| && fields[i].htype == Required
    ensures RequiredBefore(fields, i) < RequiredBefore(fields, j)
    decreases j
  {
    if i < j - 1 { CountGrows(fields, i, j - 1); }
  }

  /** Each index below the count belongs to a required field. */
  lemma {:induction false} FieldOfIndex(fields: seq<Field>, n: nat, k: nat) returns (i: nat)
    requires n <= |fields| && k < RequiredBefore(fields, n)
    ensures i < n && fields[i].htype == Required && RequiredBefore(fields, i) == k
  {
    i := n - 1;
    if k < RequiredBefore(fields, n - 1) { i := FieldOfIndex(fields, n - 1, k); }
  }

  lemma SeenTwice(fields: seq<Field>, i: nat, j: nat, k: nat)
    requires i < |fields| && j < |fields| && k in SeenBy(fields, i) && k in SeenBy(fields, j)
    ensures i == j
  {
    if i < j { CountGrows(fields, i, j); } else if j < i { CountGrows(fields, j, i); }
  }

  lemma AllSeenIsComplete(fields: seq<Field>, seen: set<nat>, occurred: set<nat>)
    requires Tracks(fields, seen, occurred)
    ensures AllSeen(fields, seen) <==> Complete(fields, occurred)
  {
    var count := RequiredBefore(fields, |fields|);
    if AllSeen(fields, seen) {
      forall i | 0 <= i < |fields| && fields[i].htype == Required && RequiredBefore(fields, i) < MAX_REQUIRED_FIELDS
        ensures i in occurred
      {
        CountGrows(fields, i, |fields|);
        var k := RequiredBefore(fields, i);
        assert k in seen;
        var j :| j in occurred && k in SeenBy(fields, j);
        SeenTwice(fields, i, j, k);
      }
    }
    if Complete(fields, occurred) {
      forall k | 0 <= k < count && k < MAX_REQUIRED_FIELDS ensures k in seen {
        var i := FieldOfIndex(fields, |fields|, k);
        assert i in occurred;
      }
    }
  }

  lemma TracksOneMore(fields: seq<Field>, seen: set<nat>, occurred: set<nat>, i: nat)
    requires Tracks(fields, seen, occurred) && i < |fields|
    ensures Tracks(fields, seen + SeenBy(fields, i), occurred + {i})
  {
    forall k | k in seen + SeenBy(fields, i) ensures exists j | j in occurred + {i} :: k in SeenBy(fields, j) {
      if k in seen {
        var j :| j in occurred && k in SeenBy(fields, j);
        assert j in occurred + {i};
      } else {
        assert i in occurred + {i};
      }
    }
  }

  lemma {:induction false} LoopIsWalk(fields: seq<Field>, slots: seq<Slot>, seen: set<nat>, occurred: set<nat>,
                                      bs: Input)
    requires |slots| == |fields| && Tracks(fields, seen, occurred)
    ensures DecLoop(fields, slots, seen, bs) == Checked(fields, Walk(fields, slots, occurred, bs))
    decreases |bs|
  {
    AllSeenIsComplete(fields, seen, occurred);
    if bs != [] && DecodeTag(bs).Tag? {
      var Tag(wireType, tag, used) := DecodeTag(bs);
      var rest := bs[used..];
      if !(fields == [] && tag == 0) {
        match FindField(fields, tag) {
          case None =>
            match SkipField(wireType, rest) {
              case None =>
              case Some(n) => LoopIsWalk(fields, slots, seen, occurred, rest[n..]);
            }
          case Some(i) =>
            match DecSlot(fields[i], slots[i], wireType, rest) {
              case None =>
              case Some(Read(s, n)) =>
                TracksOneMore(fields, seen, occurred, i);
                LoopIsWalk(fields, Store(fields, slots, i, s), seen + SeenBy(fields, i), occurred + {i}, rest[n..]);
            }
        }
      }
    }
  }

  ghost function Checked(fields: seq<Field>, w: Option<Walked>): Option<seq<Slot>> {
    if w.Some? && Complete(fields, w.value.occurred) then Some(w.value.slots) else None
  }

  /**
   A message decodes, at the top and in every submessage, exactly when its records do and each of its first
   64 required fields is among them.
   */
  lemma RequiredFieldsOccur(fields: seq<Field>, slots: seq<Slot>, bs: Input)
    requires |slots| == |fields|
    ensures DecLoop(fields, slots, {}, bs) == Checked(fields, Walk(fields, slots, {}, bs))
  {
    LoopIsWalk(fields, slots, {}, {}, bs);
  }
}
