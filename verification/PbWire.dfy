/** Varints and zigzag integers (pb_encode.c, pb_decode.c) of the Protocol Buffers encoding specification. */
module PbWire {
  import opened Bytes
  import opened Words

  const TWO32: nat := 0x1_0000_0000
  const TWO31: nat := 0x8000_0000
  const TWO63: int := 0x8000_0000_0000_0000
  type u32 = x: int | 0 <= x < TWO32
  type i64 = x: int | -TWO63 <= x < TWO63

  /** A value read from the front of a stream, and how many bytes it took. */
  datatype Read<+T> = Read(value: T, used: nat)

  // Encoding.

  function EncodeVarint(v: nat): seq<byte> {
    if v < 128 then [v] else [v % 128 + 128] + EncodeVarint(v / 128)
  }

  /** Bytes with the continuation bit of the last one cleared. */
  function Closed(buffer: seq<byte>): seq<byte>
    requires buffer != [] && buffer[|buffer| - 1] >= 128
  {
    buffer[|buffer| - 1 := buffer[|buffer| - 1] - 128]
  }

  lemma VarintStep(buffer: seq<byte>, v: nat)
    requires v > 0
    ensures var next := buffer + [v % 128 + 128];
            if v < 128 then Closed(next) == buffer + EncodeVarint(v)
            else next + EncodeVarint(v / 128) == buffer + EncodeVarint(v)
  {
  }

  /** pb_encode_varint's buffer. */
  method EncodeVarintBuffer(value: nat) returns (bytes: seq<byte>)
    ensures bytes == EncodeVarint(value)
  {
    if value <= 0x7f {
      return [value];
    }
    var buffer: seq<byte>, v: nat := [], value;
    while v != 0
      invariant v > 0 ==> buffer + EncodeVarint(v) == EncodeVarint(value)
      invariant v == 0 ==> buffer != [] && buffer[|buffer| - 1] >= 128 && Closed(buffer) == EncodeVarint(value)
      decreases v
    {
      VarintStep(buffer, v);
      var b: byte := v % 128 + 128;
      buffer, v := buffer + [b], v / 128;
    }
    return Closed(buffer);
  }

  // Decoding: the bytes of a varint, and the number they spell.

  /** The base-128 number at the front of bs, low digits first, and its length; None if bs ends in it. */
  function RawVarint(bs: seq<byte>): (r: Option<Read<nat>>)
    ensures r.Some? ==> 1 <= r.value.used <= |bs|
  {
    if bs == [] then None
    else if bs[0] < 128 then Some(Read(bs[0], 1))
    else match RawVarint(bs[1..])
      case None => None
      case Some(Read(v, n)) => Some(Read(bs[0] as int - 128 + 128 * v, n + 1))
  }

  /** pb_decode_varint: at most ten bytes, and what exceeds 64 bits is lost. */
  function DecodeVarint(bs: seq<byte>): (r: Option<Read<u64>>)
    ensures r.Some? ==> 1 <= r.value.used <= |bs|
  {
    match RawVarint(bs)
    case Some(Read(v, n)) => if n <= 10 then Some(Read(v % TWO64, n)) else None
    case None => None
  }

  lemma {:induction false} VarintOfEncoding(v: u64, rest: seq<byte>)
    ensures RawVarint(EncodeVarint(v) + rest) == Some(Read(v, |EncodeVarint(v)|))
    decreases v
  {
    var bs := EncodeVarint(v) + rest;
    if v >= 128 {
      assert bs[1..] == EncodeVarint(v / 128) + rest;
      VarintOfEncoding(v / 128, rest);
    }
  }

  lemma {:induction false} EncodingLength(v: u64, n: nat)
    requires n > 0 && v < Pow2(7 * n)
    ensures 1 <= |EncodeVarint(v)| <= n
    decreases n
  {
    if v >= 128 {
      Pow2Plus7(7 * (n - 1));
      if n == 1 { assert Pow2(0) == 1; }
      EncodingLength(v / 128, n - 1);
    }
  }

  lemma Pow2Plus7(n: nat)
    ensures Pow2(n + 7) == 128 * Pow2(n)
  {
    Pow2Plus8(n);
    assert Pow2(n + 8) == 2 * Pow2(n + 7);
  }

  lemma TenBytesSuffice(v: u64)
    ensures 1 <= |EncodeVarint(v)| <= 10
  {
    Pow2Of64();
    assert Pow2(66) == 4 * Pow2(64) && Pow2(68) == 4 * Pow2(66) && Pow2(70) == 4 * Pow2(68);
    EncodingLength(v, 10);
  }

  /** Every 64-bit number takes at most ten bytes and reads back, whatever follows. */
  lemma VarintRoundTrip(v: u64, rest: seq<byte>)
    ensures |EncodeVarint(v)| <= 10
    ensures DecodeVarint(EncodeVarint(v) + rest) == Some(Read(v, |EncodeVarint(v)|))
  {
    TenBytesSuffice(v);
    VarintOfEncoding(v, rest);
  }

  // The 32-bit decoder reads the same bytes and the same number modulo 2^32.

  /** The low seven bits of a byte. */
  function Payload(b: byte): nat { b % 128 }

  /** x << n, on unbounded numbers. */
  function Shift(x: nat, n: nat): nat
    decreases n
  {
    if n == 0 then x else Shift(2 * x, n - 1)
  }

  /** (result | payload << bitpos) in 32 bits, where result has no bit at bitpos or above. */
  function Add32(result: u32, b: byte, bitpos: nat): u32 {
    (result + Shift(Payload(b), bitpos)) % TWO32
  }

  /** The multibyte loop of pb_decode_varint32_eof, at byte i with result so far. */
  function More32(bs: seq<byte>, i: nat, result: u32, bitpos: nat): (r: Option<Read<u32>>)
    requires i <= |bs|
    ensures r.Some? ==> i < r.value.used <= |bs|
    decreases |bs| - i
  {
    if i == |bs| then None
    else
      var b := bs[i];
      if bitpos >= 32 && Payload(b) != 0 && (result < TWO31 || b != if bitpos < 63 then 0xff else 0x01) then None
      else
        var next := if bitpos >= 32 then result else Add32(result, b, bitpos);
        if b >= 128 then More32(bs, i + 1, next, bitpos + 7)
        else if bitpos + 7 == 35 && b / 16 != 0 then None
        else Some(Read(next, i + 1))
  }

  function DecodeVarint32(bs: seq<byte>): (r: Option<Read<u32>>)
    ensures r.Some? ==> 1 <= r.value.used <= |bs|
  {
    if bs == [] then None
    else if bs[0] < 128 then Some(Read(bs[0], 1))
    else More32(bs, 1, Payload(bs[0]), 7)
  }

  lemma VarintCons(bs: seq<byte>)
    requires bs != [] && bs[0] >= 128 && RawVarint(bs[1..]).Some?
    ensures var Read(t, k) := RawVarint(bs[1..]).value;
            RawVarint(bs) == Some(Read(Payload(bs[0]) + 128 * t, k + 1))
  {
    assert Payload(bs[0]) == bs[0] as int - 128;
  }

  lemma {:induction false} ShiftAdd(x: nat, y: nat, n: nat)
    ensures Shift(x + y, n) == Shift(x, n) + Shift(y, n)
    decreases n
  {
    if n > 0 { ShiftAdd(2 * x, 2 * y, n - 1); }
  }

  lemma {:induction false} ShiftShift(x: nat, m: nat, n: nat)
    ensures Shift(x, m + n) == Shift(Shift(x, m), n)
    decreases m
  {
    if m > 0 { ShiftShift(2 * x, m - 1, n); }
  }

  lemma {:induction false} ShiftGrows(x: nat, y: nat, m: nat, n: nat)
    requires x <= y && m <= n
    ensures Shift(x, m) <= Shift(y, n)
    decreases n
  {
    if m > 0 { ShiftGrows(2 * x, 2 * y, m - 1, n - 1); }
    else if n > 0 { ShiftGrows(x, 2 * y, 0, n - 1); }
  }

  lemma Shift7(x: nat, n: nat)
    ensures Shift(x, n + 7) == Shift(128 * x, n)
  {
    assert Shift(x, n + 7) == Shift(2 * x, n + 6) == Shift(4 * x, n + 5);
    assert Shift(4 * x, n + 5) == Shift(8 * x, n + 4) == Shift(16 * x, n + 3);
    assert Shift(16 * x, n + 3) == Shift(32 * x, n + 2) == Shift(64 * x, n + 1);
  }

  lemma Shift14(x: nat, n: nat)
    ensures Shift(x, n + 14) == Shift(0x4000 * x, n)
  {
    Shift7(x, n + 7);
    Shift7(128 * x, n);
  }

  lemma Shift28(x: nat)
    ensures Shift(x, 28) == 0x1000_0000 * x
  {
    Shift14(x, 14);
    Shift14(0x4000 * x, 0);
  }

  lemma Shift32(x: nat)
    ensures Shift(x, 32) == TWO32 * x
  {
    assert Shift(x, 32) == Shift(4 * x, 30) == Shift(16 * x, 28);
    Shift28(16 * x);
  }

  /** Shifting t, whose lowest digit is p, by n is shifting p by n and the rest by n + 7. */
  lemma ShiftDigits(p: nat, rest: nat, n: nat)
    ensures Shift(p + 128 * rest, n) == Shift(p, n) + Shift(rest, n + 7)
  {
    ShiftAdd(p, 128 * rest, n);
    Shift7(rest, n);
  }

  lemma ModAdds(a: nat, b: nat)
    ensures (a % TWO32 + b) % TWO32 == (a + b) % TWO32
  {
  }

  /** From bit 32 on, what a digit adds vanishes modulo 2^32. */
  lemma HighDigitsVanish(result: u32, bitpos: nat, t: nat)
    requires bitpos >= 32
    ensures (result + Shift(t, bitpos)) % TWO32 == result
  {
    ShiftShift(t, bitpos - 32, 32);
    var k := Shift(t, bitpos - 32);
    Shift32(k);
    DivModIs(result + TWO32 * k, TWO32, k, result);
  }

  lemma {:induction false} More32Agrees(bs: seq<byte>, i: nat, result: u32, bitpos: nat)
    requires i <= |bs| && RawVarint(bs[i..]).Some? && More32(bs, i, result, bitpos).Some?
    ensures var Read(t, k) := RawVarint(bs[i..]).value;
            More32(bs, i, result, bitpos) == Some(Read((result + Shift(t, bitpos)) % TWO32, i + k))
    decreases |bs| - i
  {
    var Read(t, k) := RawVarint(bs[i..]).value;
    var b, p := bs[i], Payload(bs[i]);
    if bitpos >= 32 { HighDigitsVanish(result, bitpos, t); }
    if b >= 128 {
      assert bs[i..][1..] == bs[i + 1..];
      var rest := RawVarint(bs[i + 1..]).value.value;
      VarintCons(bs[i..]);
      if bitpos >= 32 {
        More32Agrees(bs, i + 1, result, bitpos + 7);
        HighDigitsVanish(result, bitpos + 7, rest);
      } else {
        More32Agrees(bs, i + 1, Add32(result, b, bitpos), bitpos + 7);
        ShiftDigits(p, rest, bitpos);
        ModAdds(result + Shift(p, bitpos), Shift(rest, bitpos + 7));
      }
    }
  }

  lemma ModOfMod(v: nat)
    ensures v % TWO64 % TWO32 == v % TWO32
  {
  }

  lemma Varint32IsModular(bs: seq<byte>)
    requires DecodeVarint32(bs).Some? && RawVarint(bs).Some?
    ensures var Read(v, n) := RawVarint(bs).value;
            DecodeVarint32(bs) == Some(Read(v % TWO32, n))
  {
    if bs[0] >= 128 {
      var Read(t, k) := RawVarint(bs[1..]).value;
      More32Agrees(bs, 1, Payload(bs[0]), 7);
      Shift7Is128(t);
      VarintCons(bs);
    } else {
      assert bs[0] as int % TWO32 == bs[0];
    }
  }

  lemma Shift7Is128(x: nat)
    ensures Shift(x, 7) == 128 * x
  {
    Shift7(x, 0);
  }

  /** On varints of at most ten bytes a successful 32-bit decode is the 64-bit one modulo 2^32. */
  lemma Varint32Agrees(bs: seq<byte>)
    requires DecodeVarint32(bs).Some? && RawVarint(bs).Some? && RawVarint(bs).value.used <= 10
    ensures DecodeVarint(bs).Some?
    ensures DecodeVarint32(bs).value == Read(DecodeVarint(bs).value.value % TWO32, DecodeVarint(bs).value.used)
  {
    Varint32IsModular(bs);
    ModOfMod(RawVarint(bs).value.value);
  }

  /** The front of an encoding inside bs, at position i. */
  lemma EncodingAt(bs: seq<byte>, i: nat, t: u64, rest: seq<byte>)
    requires i <= |bs| && bs[i..] == EncodeVarint(t) + rest
    ensures i < |bs| && bs[i] == if t < 128 then t else t % 128 + 128
    ensures t >= 128 ==> |EncodeVarint(t)| == 1 + |EncodeVarint(t / 128)|
                         && bs[i + 1..] == EncodeVarint(t / 128) + rest
  {
    assert bs[i] == EncodeVarint(t)[0];
    if t >= 128 { assert bs[i + 1..] == bs[i..][1..]; }
  }

  lemma {:induction false} More32Canonical(bs: seq<byte>, i: nat, result: u32, t: u64, rest: seq<byte>)
    requires 1 <= i <= |bs| && bs[i..] == EncodeVarint(t) + rest && t > 0
    requires result + Shift(t, 7 * i) < TWO32
    ensures More32(bs, i, result, 7 * i) == Some(Read(result + Shift(t, 7 * i), i + |EncodeVarint(t)|))
    decreases t
  {
    EncodingAt(bs, i, t, rest);
    ShiftBelowFive(t, i);
    if t < 128 {
      More32Last(bs, i, result);
    } else {
      var d, h := t % 128, t / 128;
      ShiftDigits(d, h, 7 * i);
      More32Step(bs, i, result, d);
      More32Canonical(bs, i + 1, result + Shift(d, 7 * i), h, rest);
    }
  }

  lemma More32Last(bs: seq<byte>, i: nat, result: u32)
    requires i < |bs| && i < 5 && bs[i] < 128 && (i == 4 ==> bs[i] < 16)
    requires result + Shift(bs[i], 7 * i) < TWO32
    ensures More32(bs, i, result, 7 * i) == Some(Read(result + Shift(bs[i], 7 * i), i + 1))
  {
  }

  lemma More32Step(bs: seq<byte>, i: nat, result: u32, d: nat)
    requires i < |bs| && i < 5 && bs[i] == d + 128 && result + Shift(d, 7 * i) < TWO32
    ensures More32(bs, i, result, 7 * i) == More32(bs, i + 1, result + Shift(d, 7 * i), 7 * (i + 1))
  {
    assert Payload(bs[i]) == d;
  }

  lemma ShiftBelowFive(t: nat, i: nat)
    requires t > 0 && Shift(t, 7 * i) < TWO32
    ensures i < 5 && (i == 4 ==> t < 16)
  {
    Shift28(t);
    if i >= 5 {
      ShiftGrows(1, t, 32, 7 * i);
      Shift32(1);
    }
  }

  /** Every number below 2^32 passes the 32-bit decoder in its own encoding. */
  lemma Varint32OfCanonical(v: u32, rest: seq<byte>)
    ensures DecodeVarint32(EncodeVarint(v) + rest) == Some(Read(v, |EncodeVarint(v)|))
  {
    var bs := EncodeVarint(v) + rest;
    EncodingAt(bs, 0, v, rest);
    if v >= 128 {
      var d, h := v % 128, v / 128;
      Shift7Is128(h);
      assert bs[1..] == bs[0 + 1..];
      More32Canonical(bs, 1, d, h, rest);
      FirstDigit(bs, d);
    }
  }

  lemma FirstDigit(bs: seq<byte>, d: nat)
    requires bs != [] && bs[0] == d + 128
    ensures DecodeVarint32(bs) == More32(bs, 1, d, 7)
  {
    assert Payload(bs[0]) == d;
  }

  // A negative int32 is sign-extended to ten bytes.

  /** The five bytes 0xff 0xff 0xff 0xff 0x01 that end every such encoding pass as sign extension. */
  lemma SignTail(bs: seq<byte>, result: u32, rest: seq<byte>)
    requires 5 <= |bs| && bs[5..] == EncodeVarint(0x1fff_ffff) + rest && result >= TWO31
    ensures |EncodeVarint(0x1fff_ffff)| == 5 && More32(bs, 5, result, 35) == Some(Read(result, 10))
  {
    EncodingAt(bs, 5, 0x1fff_ffff, rest);
    EncodingAt(bs, 6, 0x3f_ffff, rest);
    EncodingAt(bs, 7, 0x7fff, rest);
    EncodingAt(bs, 8, 0xff, rest);
    EncodingAt(bs, 9, 1, rest);
    assert More32(bs, 9, result, 63) == Some(Read(result, 10));
    assert More32(bs, 8, result, 56) == Some(Read(result, 10));
    assert More32(bs, 7, result, 49) == Some(Read(result, 10));
    assert More32(bs, 6, result, 42) == Some(Read(result, 10));
  }

  /** The fifth digit of a sign-extended number: its upper bits fall out of the 32-bit word. */
  lemma FifthDigit(bs: seq<byte>, result: u32, d: nat, k: nat)
    requires 4 < |bs| && bs[4] == d + 128 && 1 <= k <= TWO31
    requires result + 0x1000_0000 * d == 0x8_0000_0000 - k
    ensures More32(bs, 4, result, 28) == More32(bs, 5, TWO32 - k, 35)
  {
    Shift28(d);
    DivModIs(result + Shift(d, 28), TWO32, 7, TWO32 - k);
    assert Payload(bs[4]) == d;
    assert Add32(result, bs[4], 28) == TWO32 - k;
  }

  lemma LastDigits(result: nat, t: nat, k: nat)
    requires result < 0x1000_0000 && result + 0x1000_0000 * t == TWO64 - k && 1 <= k <= TWO31
    ensures t / 128 == 0x1fff_ffff && result + 0x1000_0000 * (t % 128) == 0x8_0000_0000 - k
  {
  }

  lemma NextDigit(result: nat, t: nat, n: nat)
    requires result < Shift(1, n)
    ensures result + Shift(t, n) == result + Shift(t % 128, n) + Shift(t / 128, n + 7)
    ensures result + Shift(t % 128, n) < Shift(1, n + 7)
  {
    ShiftDigits(t % 128, t / 128, n);
    ShiftAdd(t % 128, 1, n);
    ShiftGrows(t % 128 + 1, 128, n, n);
    Shift7(1, n);
  }

  lemma {:induction false} More32Negative(bs: seq<byte>, i: nat, result: u32, t: u64, rest: seq<byte>, k: nat)
    requires 1 <= i <= 4 && i <= |bs| && bs[i..] == EncodeVarint(t) + rest && 1 <= k <= TWO31
    requires result < Shift(1, 7 * i) && result + Shift(t, 7 * i) == TWO64 - k
    ensures i + |EncodeVarint(t)| == 10 && More32(bs, i, result, 7 * i) == Some(Read(TWO32 - k, 10))
    decreases 4 - i
  {
    EncodingAt(bs, i, t, rest);
    ShiftGrows(1, 1, 7 * i, 28);
    Shift28(1);
    if t < 128 { ShiftGrows(t, 128, 7 * i, 28); Shift28(128); }
    var d, h := t % 128, t / 128;
    if i == 4 {
      Shift28(t);
      LastDigits(result, t, k);
      FifthDigit(bs, result, d, k);
      SignTail(bs, TWO32 - k, rest);
    } else {
      NextDigit(result, t, 7 * i);
      ShiftGrows(1, 1, 7 * i + 7, 28);
      More32Step(bs, i, result, d);
      More32Negative(bs, i + 1, result + Shift(d, 7 * i), h, rest, k);
    }
  }

  /** Every negative int32, written as a sign-extended 64-bit number, passes the 32-bit decoder. */
  lemma Varint32OfNegative(k: nat, rest: seq<byte>)
    requires 1 <= k <= TWO31
    ensures var v: u64 := TWO64 - k;
            |EncodeVarint(v)| == 10
            && DecodeVarint32(EncodeVarint(v) + rest) == Some(Read(TWO32 - k, 10))
  {
    var v: u64 := TWO64 - k;
    var bs := EncodeVarint(v) + rest;
    EncodingAt(bs, 0, v, rest);
    assert bs[1..] == bs[0 + 1..];
    Shift7Is128(v / 128);
    Shift7Is128(1);
    More32Negative(bs, 1, v % 128, v / 128, rest, k);
    assert Payload(bs[0]) == v % 128;
  }

  // Signed integers.

  /** (pb_uint64_t)x. */
  function ToU64(x: i64): u64 { if x < 0 then x + TWO64 else x }

  /** (pb_int64_t)x. */
  function ToI64(x: u64): i64 { if x < TWO63 then x else x - TWO64 }

  /** pb_encode_svarint: a left shift, complemented when negative. */
  function Zigzag(x: i64): u64 {
    if x < 0 then TWO64 - 1 - ToU64(x) * 2 % TWO64 else ToU64(x) * 2 % TWO64
  }

  /** pb_decode_svarint. */
  function Unzigzag(v: u64): i64 {
    if v % 2 == 1 then ToI64(TWO64 - 1 - v / 2) else ToI64(v / 2)
  }

  lemma ZigzagRoundTrip(x: i64)
    ensures Unzigzag(Zigzag(x)) == x
  {
    if x < 0 {
      assert Zigzag(x) == -2 * x - 1;
    } else {
      assert Zigzag(x) == 2 * x;
    }
  }

  lemma UnzigzagRoundTrip(v: u64)
    ensures Zigzag(Unzigzag(v)) == v
  {
    if v % 2 == 1 {
      assert Unzigzag(v) == -1 - v / 2;
    } else {
      assert Unzigzag(v) == v / 2;
    }
  }
}
