/**
 The I/O buffer of ssl_buffer.cc, with its 16-bit offset.
 */
module SslBuffer {
  import opened Bytes

  const ALIGN_PAYLOAD: nat := 8
  const TWO16: nat := 0x1_0000

  /** Capacities whose end no alignment puts beyond what 16 bits can name. */
  predicate Roomy(cap: nat) { cap + ALIGN_PAYLOAD - 1 <= TWO16 }

  class SSLBuffer {
    var buf: array?<byte>
    var offset: u16
    var size: u16
    var cap: u16

    ghost predicate Valid()
      reads this
    {
      if buf == null then offset == 0 && size == 0 && cap == 0
      else size <= cap && offset as int + cap <= buf.Length
    }

    /** No offset that can still come wraps. */
    ghost predicate Safe()
      reads this
    {
      offset as int + cap <= TWO16
    }

    ghost function Contents(): (s: seq<byte>)
      requires Valid()
      reads this, buf
      ensures |s| == size
    {
      if buf == null then [] else buf[offset..offset as int + size]
    }

    ghost function Repr(): set<object>
      reads this
    {
      if buf == null then {this} else {this, buf}
    }

    constructor ()
      ensures Valid() && Safe() && fresh(Repr()) && Contents() == []
    {
      buf, offset, size, cap := null, 0, 0, 0;
    }

    method Clear()
      modifies this
      ensures Valid() && Safe() && Contents() == [] && buf == null
    {
      buf, offset, size, cap := null, 0, 0, 0;
    }

    /** The contents move to a larger buffer whose record body will be aligned; address is what malloc returned. */
    method EnsureCap(headerLen: nat, newCap: nat, address: nat) returns (ok: bool)
      requires Valid()
      modifies this
      ensures Valid() && fresh(Repr() - old(Repr())) && Contents() == old(Contents())
      ensures ok <==> newCap < TWO16
      ensures ok ==> cap >= newCap
      ensures old(Safe()) && (!ok || newCap <= old(cap) as int || Roomy(newCap)) ==> Safe()
    {
      if newCap > 0xffff {
        return false;
      }
      if cap as int >= newCap {
        return true;
      }
      var newBuf := new byte[newCap + ALIGN_PAYLOAD - 1];
      var newOffset := (0 - headerLen - address) % ALIGN_PAYLOAD;
      if buf != null {
        Copy(buf, offset, size, newBuf, newOffset);
      }
      buf, offset, cap := newBuf, newOffset, newCap;
      return true;
    }

    /** Copying to remaining() and DidWrite. */
    method Append(bytes: seq<byte>)
      requires Valid() && |bytes| <= cap as int - size as int
      modifies Repr()
      ensures Valid() && fresh(Repr() - old(Repr())) && Contents() == old(Contents()) + bytes
      ensures cap == old(cap) && (old(Safe()) ==> Safe())
    {
      if bytes == [] {
        return;
      }
      Put(bytes, buf, offset as int + size as int);
      ghost var end := offset as int + size as int;
      assert buf[offset..end + |bytes|] == buf[offset..end] + bytes;
      size := size as int + |bytes|;
    }

    /** All three 16-bit fields move by the bytes consumed. */
    method Consume(len: nat)
      requires Valid() && len <= size as int
      modifies this
      ensures Valid() && buf == old(buf) && size as int == old(size) as int - len
      ensures len == old(size) as int || old(offset) as int + len < TWO16 ==> Contents() == old(Contents())[len..]
      ensures old(Safe()) ==> Safe() && Contents() == old(Contents())[len..]
    {
      offset := (offset as int + len) % TWO16;
      size := size as int - len;
      cap := cap as int - len;
    }

    method DiscardConsumed()
      requires Valid()
      modifies this
      ensures Valid() && Contents() == old(Contents()) && Repr() <= old(Repr()) && (old(Safe()) ==> Safe())
    {
      if size == 0 {
        Clear();
      }
    }
  }

  method Copy(from: array<byte>, fromOffset: nat, len: nat, to: array<byte>, toOffset: nat)
    requires from != to && fromOffset + len <= from.Length && toOffset + len <= to.Length
    modifies to
    ensures to[toOffset..toOffset + len] == from[fromOffset..fromOffset + len]
  {
    var i := 0;
    while i < len
      invariant i <= len && to[toOffset..toOffset + i] == from[fromOffset..fromOffset + i]
    {
      to[toOffset + i] := from[fromOffset + i];
      i := i + 1;
    }
  }

  method Put(bytes: seq<byte>, to: array<byte>, at: nat)
    requires at + |bytes| <= to.Length
    modifies to
    ensures to[..at] == old(to[..at]) && to[at..at + |bytes|] == bytes
  {
    var i := 0;
    while i < |bytes|
      invariant i <= |bytes| && to[..at] == old(to[..at]) && to[at..at + i] == bytes[..i]
    {
      to[at + i] := bytes[i];
      i := i + 1;
    }
  }

  // The 16-bit offset: EnsureCap lets capacities through for which it can wrap.

  function Window(memory: seq<byte>, offset: nat, size: nat): seq<byte>
    requires offset + size <= |memory|
  {
    memory[offset..offset + size]
  }

  predicate KeepsTheRest(memory: seq<byte>, offset: u16, size: u16, len: nat)
    requires offset as int + size as int <= |memory| && len <= size as int
  {
    Window(memory, (offset as int + len) % TWO16, size as int - len) == Window(memory, offset, size)[len..]
  }

  /**
   Consuming len bytes keeps the rest, whatever the memory holds, exactly when nothing is left or the
   offset still fits 16 bits.
   */
  lemma ConsumeKeepsTheRest(length: nat, offset: u16, size: u16, len: nat)
    requires offset as int + size as int <= length && 0 < len <= size as int
    ensures (forall memory: seq<byte> | |memory| == length :: KeepsTheRest(memory, offset, size, len))
       <==> len == size as int || offset as int + len < TWO16
  {
    var at, left := offset as int + len, size as int - len;
    if left > 0 && at >= TWO16 {
      var memory: seq<byte> := seq(length, i => if i == at then 1 else 0);
      assert Window(memory, offset, size)[len..][0] == memory[at];
      assert Window(memory, at % TWO16, left)[0] == memory[at % TWO16];
      assert !KeepsTheRest(memory, offset, size, len);
    }
  }

  /** The smallest capacity that can lose a byte: full, at the worst alignment, all but one written. */
  lemma UnroomyWraps()
    ensures !Roomy(0xfffa)
    ensures exists memory: seq<byte> | |memory| == 0xfffa + ALIGN_PAYLOAD - 1 ::
              !KeepsTheRest(memory, 7, 0xfffa, 0xfff9)
  {
    ConsumeKeepsTheRest(0xfffa + ALIGN_PAYLOAD - 1, 7, 0xfffa, 0xfff9);
  }

  /** At every alignment and every fill, consuming some bytes keeps the rest. */
  ghost predicate NeverLoses(cap: u16, length: nat)
    requires length == cap as int + ALIGN_PAYLOAD - 1
  {
    forall offset: u16, size: u16, len: nat | offset < ALIGN_PAYLOAD && 0 < len <= size as int <= cap as int ::
      AlwaysKeeps(length, offset, size, len)
  }

  ghost predicate AlwaysKeeps(length: nat, offset: u16, size: u16, len: nat)
    requires offset as int + size as int <= length && len <= size as int
  {
    forall memory: seq<byte> | |memory| == length :: KeepsTheRest(memory, offset, size, len)
  }

  /** Of the capacities EnsureCap lets through, those up to 0xfff9 lose nothing, and all above lose bytes somewhere. */
  lemma LosesExactlyAbove(cap: u16)
    ensures NeverLoses(cap, cap as int + ALIGN_PAYLOAD - 1) <==> cap <= 0xfff9
    ensures Roomy(cap as int) <==> cap <= 0xfff9
  {
    var length := cap as int + ALIGN_PAYLOAD - 1;
    if cap > 0xfff9 {
      ConsumeKeepsTheRest(length, 7, cap, 0xfff9);
      assert !AlwaysKeeps(length, 7, cap, 0xfff9);
    } else {
      forall offset: u16, size: u16, len: nat | offset < ALIGN_PAYLOAD && 0 < len <= size as int <= cap as int
        ensures AlwaysKeeps(length, offset, size, len)
      {
        ConsumeKeepsTheRest(length, offset, size, len);
      }
    }
  }
}
