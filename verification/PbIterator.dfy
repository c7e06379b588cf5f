/**
 The circular field iterator (pb_common.c) and the required-field bitmask of pb_decode_noinit.
 */
module PbIterator {
  import opened Bytes
  import opened Words
  import opened PbWire
  import opened PbMessage
  import opened PbDecoding

  /** Descriptors end at a field with tag 0, so no other field may have it. */
  ghost predicate Terminated(fields: seq<Field>) {
    forall i | 0 <= i < |fields| :: fields[i].tag != 0
  }

  /** pb_field_iter_t: pos runs over the descriptor; at |fields| is the terminator. */
  class FieldIter {
    const fields: seq<Field>
    var pos: nat
    var requiredFieldIndex: nat

    ghost predicate Valid()
      reads this
    {
      && Terminated(fields)
      && pos < (if fields == [] then 1 else |fields|)
      && requiredFieldIndex == RequiredBefore(fields, pos)
    }

    /** iter->pos->tag. */
    function Tag(): u32
      requires pos <= |fields|
      reads this
    {
      if pos < |fields| then fields[pos].tag else 0
    }

    constructor (fields: seq<Field>)
      requires Terminated(fields)
      ensures Valid() && this.fields == fields && pos == 0
    {
      this.fields := fields;
      pos, requiredFieldIndex := 0, 0;
    }

    /** pb_field_iter_next: false when it has wrapped round to the first field. */
    method Next() returns (more: bool)
      requires Valid()
      modifies this
      ensures Valid()
      ensures more == (old(pos) + 1 < |fields|) && pos == if more then old(pos) + 1 else 0
    {
      if Tag() == 0 {
        return false;
      }
      var prev := fields[pos];
      pos := pos + 1;
      if Tag() == 0 {
        pos, requiredFieldIndex := 0, 0;
        return false;
      }
      if prev.htype == Required {
        requiredFieldIndex := requiredFieldIndex + 1;
      }
      return true;
    }

    /**
     pb_field_iter_find, from wherever the iterator is: it stops on a field with the tag if there is one, and
     is back where it was if not. An empty descriptor's terminator passes for a field with tag 0.
     */
    method Find(tag: u32) returns (found: bool)
      requires Valid()
      modifies this
      ensures Valid() && (found ==> Tag() == tag) && (!found ==> pos == old(pos))
      ensures found <==> FindField(fields, tag).Some? || (fields == [] && tag == 0)
    {
      var start := pos;
      ghost var wrapped := false;
      while true
        invariant Valid() && (if wrapped then pos < start else start <= pos)
        invariant forall i | 0 <= i < |fields| && (start <= i || i < pos) && (wrapped || i < pos) ::
                    fields[i].tag == tag ==> !wrapped && i < start
        decreases !wrapped, |fields| - pos
      {
        if Tag() == tag {
          return true;
        }
        var more := Next();
        wrapped := wrapped || !more;
        if pos == start {
          return false;
        }
      }
    }

    /** The seek to the end of the descriptor after the decoding loop. */
    method CountRequired() returns (count: nat)
      requires Valid()
      modifies this
      ensures Valid() && count == RequiredBefore(fields, |fields|)
    {
      count := requiredFieldIndex;
      var lastRequired := Tag() == 0 || fields[pos].htype == Required;
      ghost var last := pos;
      var more := Next();
      while more
        invariant Valid() && last < (if fields == [] then 1 else |fields|)
        invariant count == RequiredBefore(fields, last)
        invariant lastRequired == (fields == [] || fields[last].htype == Required)
        invariant more == (last + 1 < |fields|) && pos == if more then last + 1 else 0
        decreases |fields| - last
      {
        count := requiredFieldIndex;
        lastRequired := fields[pos].htype == Required;
        last := pos;
        more := Next();
      }
      if lastRequired && Tag() != 0 {
        count := count + 1;
      }
    }
  }

  /** With distinct tags, a find that succeeds stops at the one field with the tag. */
  lemma FoundIsTheField(fields: seq<Field>, pos: nat, tag: nat)
    requires SchemaOk(fields) && pos < |fields| && fields[pos].tag == tag
    ensures FindField(fields, tag) == Some(pos)
  {
    var j := FindField(fields, tag).value;
    assert fields[j].tag == fields[pos].tag;
  }

  // The bitmask.

  /** x >> k. */
  function Shr(x: nat, k: nat): nat
    decreases k
  {
    if k == 0 then x else Shr(x / 2, k - 1)
  }

  lemma {:induction false} ShrOfOnes(n: nat, k: nat)
    requires k <= n
    ensures Pow2(n) > 0 && Pow2(n - k) > 0 && Shr(Pow2(n) - 1, k) == Pow2(n - k) - 1
    decreases k
  {
    Pow2Positive(n);
    Pow2Positive(n - k);
    if k > 0 {
      ShrOfOnes(n - 1, k - 1);
      assert (Pow2(n) - 1) / 2 == Pow2(n - 1) - 1;
    }
  }

  lemma {:induction false} BitsOfOnes(x: nat, n: nat, i: nat)
    requires x + 1 == Pow2(n)
    ensures Bit(x, i) == (i < n)
  {
    if n == 0 {
      BitOfZero(i);
    } else if i > 0 {
      BitsOfOnes(x / 2, n - 1, i - 1);
    }
  }

  lemma {:induction false} SameBits(x: nat, y: nat, n: nat)
    requires x < Pow2(n) && y < Pow2(n) && forall i | 0 <= i < n :: Bit(x, i) == Bit(y, i)
    ensures x == y
  {
    if n > 0 {
      assert Bit(x, 0) == Bit(y, 0);
      forall i | 0 <= i < n - 1 ensures Bit(x / 2, i) == Bit(y / 2, i) {
        assert Bit(x, i + 1) == Bit(y, i + 1);
      }
      SameBits(x / 2, y / 2, n - 1);
    }
  }

  const ALL_BITS: u32 := 0xffff_ffff

  /** fields_seen, two 32-bit words. */
  class SeenFields {
    const words: array<u32>

    ghost predicate Holds(seen: set<nat>)
      reads words
    {
      && words.Length == 2
      && (forall k | k in seen :: k < MAX_REQUIRED_FIELDS)
      && (forall i | 0 <= i < 32 :: Bit(words[0], i) == (i in seen))
      && forall i | 0 <= i < 32 :: Bit(words[1], i) == (i + 32 in seen)
    }

    constructor ()
      ensures Holds({}) && fresh(words)
    {
      words := new u32[2](_ => 0);
      new;
      forall i | 0 <= i < 32 ensures !Bit(0, i) { BitOfZero(i); }
    }

    method Mark(index: nat, ghost seen: set<nat>)
      requires Holds(seen) && index < MAX_REQUIRED_FIELDS
      modifies words
      ensures Holds(seen + {index})
    {
      var w, b := index / 32, index % 32;
      Pow2Of32();
      SetBitBound(words[w], b, 32);
      forall i | 0 <= i < 32 ensures Bit(SetBit(words[w], b), i) == (i == b || Bit(words[w], i)) {
        BitOfSetBit(words[w], b, i);
      }
      words[w] := SetBit(words[w], b);
    }

    /** The check for missing required fields: whole words first, then the remaining bits. */
    method Check(reqFieldCount: nat, ghost seen: set<nat>) returns (ok: bool)
      requires Holds(seen) && forall k | k in seen :: k < reqFieldCount
      ensures ok <==> forall k | 0 <= k < reqFieldCount && k < MAX_REQUIRED_FIELDS :: k in seen
    {
      var count := reqFieldCount;
      if count > MAX_REQUIRED_FIELDS { count := MAX_REQUIRED_FIELDS; }
      if count > 0 {
        var i := 0;
        while i < count / 32
          invariant i <= count / 32
          invariant forall k | 0 <= k < 32 * i :: k in seen
        {
          WordIsFull(i, 32, seen);
          if words[i] != ALL_BITS {
            return false;
          }
          i := i + 1;
        }
        if count % 32 != 0 {
          WordIsFull(count / 32, count % 32, seen);
          if words[count / 32] != Shr(ALL_BITS, 32 - count % 32) {
            return false;
          }
        }
      }
      return true;
    }

    /** Word w, of whose numbers only the first n can have been marked, is n ones when all n are. */
    lemma WordIsFull(w: nat, n: nat, seen: set<nat>)
      requires Holds(seen) && w < 2 && 0 < n <= 32
      requires n < 32 ==> forall k | k in seen :: k < 32 * w + n
      ensures words[w] == Shr(ALL_BITS, 32 - n) <==> forall k | 32 * w <= k < 32 * w + n :: k in seen
    {
      Pow2Of32();
      ShrOfOnes(32, 32 - n);
      var ones := Shr(ALL_BITS, 32 - n);
      forall i | 0 <= i < 32 ensures Bit(ones, i) == (i < n) && Bit(words[w], i) == (i + 32 * w in seen) {
        BitsOfOnes(ones, n, i);
      }
      if forall k | 32 * w <= k < 32 * w + n :: k in seen {
        Pow2Monotone(n, 32);
        SameBits(words[w], ones, 32);
      }
      if words[w] == ones {
        forall k | 32 * w <= k < 32 * w + n ensures k in seen { assert Bit(ones, k - 32 * w); }
      }
    }
  }
}
