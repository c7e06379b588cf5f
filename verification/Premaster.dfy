/** The branch-free choice of the premaster secret (handshake_server.cc) on the masks of crypto/internal.h. */
module Premaster {
  const MASTER_KEY_LENGTH: nat := 48
  const TRUE_W: bv64 := 0xffff_ffff_ffff_ffff

  function Mask(b: bool): bv64 { if b then TRUE_W else 0 }

  function Mask8(b: bool): bv8 { if b then 0xff else 0 }

  // The masks.

  /** constant_time_msb_w. */
  function Msb(a: bv64): (m: bv64)
    ensures m == Mask(a >= 0x8000_0000_0000_0000)
  {
    0 - (a >> 63)
  }

  /** constant_time_is_zero_w. */
  function IsZero(a: bv64): (m: bv64)
    ensures m == Mask(a == 0)
  {
    Msb(!a & (a - 1))
  }

  /** constant_time_eq_w. */
  function Eq(a: bv64, b: bv64): (m: bv64)
    ensures m == Mask(a == b)
  {
    IsZero(a ^ b)
  }

  /** The cast to uint8_t. */
  function Low8(a: bv64): bv8 {
    (a & 0xff) as bv8
  }

  /** constant_time_select_w. */
  function Select(mask: bv64, a: bv64, b: bv64): bv64 {
    (mask & a) | (!mask & b)
  }

  /** constant_time_select_8; the mask is widened with zeros. */
  function Select8(mask: bv8, a: bv8, b: bv8): bv8 {
    Low8(Select(mask as bv64, a as bv64, b as bv64))
  }

  lemma Select8ByMask(which: bool, a: bv8, b: bv8)
    ensures Select8(Mask8(which), a, b) == if which then a else b
  {
  }

  lemma LowMask(b: bool)
    ensures Low8(Mask(b)) == Mask8(b)
  {
  }

  lemma AndMask(a: bool, b: bool)
    ensures Mask8(a) & Mask8(b) == Mask8(a && b)
  {
  }

  /** constant_time_is_zero_8. */
  function IsZero8(a: bv8): (m: bv8)
    ensures m == Mask8(a == 0)
  {
    LowMask(a == 0);
    Low8(IsZero(a as bv64))
  }

  /** constant_time_eq_8 and constant_time_eq_int_8. */
  function Eq8(a: bv8, b: bv8): (m: bv8)
    ensures m == Mask8(a == b)
  {
    LowMask(a == b);
    Low8(Eq(a as bv64, b as bv64))
  }

  // The padding check.

  /** An encoded message 00 02 PS 00 M whose PS has no zero and whose M, the last 48 bytes, begins with the version. */
  predicate WellPadded(buf: seq<bv8>, versionHigh: bv8, versionLow: bv8)
    requires |buf| >= 11 + MASTER_KEY_LENGTH
  {
    var n := |buf| - MASTER_KEY_LENGTH;
    && buf[0] == 0 && buf[1] == 2
    && (forall i | 2 <= i < n - 1 :: buf[i] != 0)
    && buf[n - 1] == 0
    && buf[n] == versionHigh && buf[n + 1] == versionLow
  }

  /** The secret holds random bytes on entry. Blocks that are too short are an error. */
  method ChoosePremaster(buf: seq<bv8>, versionHigh: bv8, versionLow: bv8, secret: array<bv8>) returns (ok: bool)
    requires secret.Length == MASTER_KEY_LENGTH
    modifies secret
    ensures ok <==> |buf| >= 11 + MASTER_KEY_LENGTH
    ensures secret[..] == if ok && WellPadded(buf, versionHigh, versionLow)
                          then buf[|buf| - MASTER_KEY_LENGTH..] else old(secret[..])
  {
    if |buf| < 11 + secret.Length {
      return false;
    }
    var paddingLen := |buf| - secret.Length;
    var good := Padding(buf, paddingLen);
    AndMask(Padded(buf, paddingLen), buf[paddingLen] == versionHigh);
    good := good & Eq8(buf[paddingLen], versionHigh);
    AndMask(Padded(buf, paddingLen) && buf[paddingLen] == versionHigh, buf[paddingLen + 1] == versionLow);
    good := good & Eq8(buf[paddingLen + 1], versionLow);
    SelectInto(good, WellPadded(buf, versionHigh, versionLow), buf[paddingLen..], secret);
    return true;
  }

  predicate Padded(buf: seq<bv8>, paddingLen: nat)
    requires 11 <= paddingLen <= |buf|
  {
    && buf[0] == 0 && buf[1] == 2
    && (forall i | 2 <= i < paddingLen - 1 :: buf[i] != 0)
    && buf[paddingLen - 1] == 0
  }

  /** The mask loop: every byte is looked at, whatever it is. */
  method Padding(buf: seq<bv8>, paddingLen: nat) returns (good: bv8)
    requires 11 <= paddingLen <= |buf|
    ensures good == Mask8(Padded(buf, paddingLen))
  {
    AndMask(buf[0] == 0, buf[1] == 2);
    good := Eq8(buf[0], 0) & Eq8(buf[1], 2);
    ghost var so := buf[0] == 0 && buf[1] == 2;
    var i := 2;
    while i < paddingLen - 1
      invariant 2 <= i <= paddingLen - 1
      invariant so == (buf[0] == 0 && buf[1] == 2 && forall j | 2 <= j < i :: buf[j] != 0)
      invariant good == Mask8(so)
    {
      AndMask(so, buf[i] != 0);
      NotMask(buf[i] == 0);
      good := good & !IsZero8(buf[i]);
      so := so && buf[i] != 0;
      i := i + 1;
    }
    AndMask(so, buf[paddingLen - 1] == 0);
    good := good & IsZero8(buf[paddingLen - 1]);
  }

  lemma NotMask(b: bool)
    ensures !Mask8(b) == Mask8(!b)
  {
  }

  method SelectInto(mask: bv8, ghost which: bool, from: seq<bv8>, secret: array<bv8>)
    requires |from| == secret.Length && mask == Mask8(which)
    modifies secret
    ensures secret[..] == if which then from else old(secret[..])
  {
    var i := 0;
    while i < secret.Length
      invariant i <= secret.Length
      invariant forall j | 0 <= j < secret.Length ::
                  secret[j] == if which && j < i then from[j] else old(secret[j])
    {
      Select8ByMask(which, from[i], secret[i]);
      secret[i] := Select8(mask, from[i], secret[i]);
      i := i + 1;
    }
  }
}
