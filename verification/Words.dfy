/**
 64-bit machine words as numbers below 2^64, with the bit operations the source uses on them.
 */
module Words {
  const TWO64: nat := 0x1_0000_0000_0000_0000
  type u64 = x: int | 0 <= x < TWO64

  /** The bit of m at position i, counting from the least significant: m & (1 << i). */
  predicate Bit(m: nat, i: nat) {
    if i == 0 then m % 2 == 1 else Bit(m / 2, i - 1)
  }

  /** m << k, losing what leaves the 64-bit word. */
  function Shl(m: u64, k: nat): u64
    decreases k
  {
    if k == 0 then m else Shl(m * 2 % TWO64, k - 1)
  }

  /** m | (1 << i). */
  function SetBit(m: nat, i: nat): nat {
    if i == 0 then m / 2 * 2 + 1 else SetBit(m / 2, i - 1) * 2 + m % 2
  }

  function Pow2(n: nat): nat {
    if n == 0 then 1 else 2 * Pow2(n - 1)
  }

  lemma {:induction false} Pow2Positive(n: nat)
    ensures Pow2(n) > 0
  {
    if n > 0 { Pow2Positive(n - 1); }
  }

  lemma {:induction false} Pow2Monotone(a: nat, b: nat)
    requires a <= b
    ensures Pow2(a) <= Pow2(b)
  {
    if a < b { Pow2Monotone(a, b - 1); }
  }

  lemma Pow2Plus8(n: nat)
    ensures Pow2(n + 8) == 256 * Pow2(n)
  {
    assert Pow2(n + 2) == 4 * Pow2(n);
    assert Pow2(n + 4) == 4 * Pow2(n + 2);
    assert Pow2(n + 6) == 4 * Pow2(n + 4);
  }

  lemma Pow2Of32()
    ensures Pow2(32) == 0x1_0000_0000
  {
    Pow2Plus8(0); Pow2Plus8(8); Pow2Plus8(16); Pow2Plus8(24);
  }

  lemma Pow2Of64()
    ensures Pow2(64) == TWO64
  {
    Pow2Plus8(0); Pow2Plus8(8); Pow2Plus8(16); Pow2Plus8(24);
    Pow2Plus8(32); Pow2Plus8(40); Pow2Plus8(48); Pow2Plus8(56);
  }

  lemma {:induction false} BitOfZero(i: nat)
    ensures !Bit(0, i)
  {
    if i > 0 { BitOfZero(i - 1); }
  }

  lemma {:induction false} BitOfSetBit(m: nat, k: nat, i: nat)
    ensures Bit(SetBit(m, k), i) == (i == k || Bit(m, i))
  {
    if k > 0 && i > 0 { BitOfSetBit(m / 2, k - 1, i - 1); }
  }

  lemma {:induction false} SetBitBound(m: nat, k: nat, n: nat)
    requires k < n && m < Pow2(n)
    ensures SetBit(m, k) < Pow2(n)
  {
    if k > 0 { SetBitBound(m / 2, k - 1, n - 1); }
  }

  lemma SetBitFits(m: u64, k: nat)
    requires k < 64
    ensures SetBit(m, k) < TWO64
  {
    Pow2Of64();
    SetBitBound(m, k, 64);
  }

  lemma MulGap(n: nat, a: nat, b: nat)
    requires a < b
    ensures n * a + n <= n * b
  {
    var c: nat := b - a - 1;
    calc { n * b; n * (a + 1 + c); n * a + n + n * c; }
    assert n * c >= 0;
  }

  /** Quotient and remainder are unique. */
  lemma DivModIs(m: nat, n: nat, d: nat, r: nat)
    requires n > 0 && r < n && m == n * d + r
    ensures m / n == d && m % n == r
  {
    var d', r' := m / n, m % n;
    assert m == n * d' + r';
    if d' < d { MulGap(n, d', d); } else if d < d' { MulGap(n, d, d'); }
  }

  lemma HalfOfMod(m: nat, q: nat)
    requires q > 0
    ensures m % (2 * q) == m / 2 % q * 2 + m % 2
  {
    var h, b := m / 2, m % 2;
    var d, r := h / q, h % q;
    assert h == q * d + r;
    DivModIs(m, 2 * q, d, 2 * r + b);
  }

  /** Cutting a word off at n bits keeps the bits below n. */
  lemma {:induction false} BitOfLow(m: nat, n: nat, i: nat)
    requires i < n
    ensures Pow2(n) > 0 && Bit(m % Pow2(n), i) == Bit(m, i)
  {
    Pow2Positive(n);
    Pow2Positive(n - 1);
    HalfOfMod(m, Pow2(n - 1));
    if i > 0 { BitOfLow(m / 2, n - 1, i - 1); }
  }

  lemma BitOfDouble(m: u64, i: nat)
    requires i < 64
    ensures Bit(m * 2 % TWO64, i) == (i > 0 && Bit(m, i - 1))
  {
    Pow2Of64();
    assert Pow2(64) == 2 * Pow2(63);
    HalfOfMod(m * 2, Pow2(63));
    if i > 0 { BitOfLow(m, 63, i - 1); }
  }

  lemma {:induction false} BitOfShl(m: u64, k: nat, i: nat)
    requires i < 64
    ensures Bit(Shl(m, k), i) == (k <= i && Bit(m, i - k))
    decreases k
  {
    if k > 0 {
      BitOfShl(m * 2 % TWO64, k - 1, i);
      if k - 1 <= i { BitOfDouble(m, i - (k - 1)); }
    }
  }
}
