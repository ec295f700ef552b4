/** Unsigned machine integers as natural numbers: powers of two, bitwise operators, signed reading. */
module Ints {
  type u8 = x: int | 0 <= x < 0x100
  type u32 = x: int | 0 <= x < 0x1_0000_0000
  type u64 = x: int | 0 <= x < 0x1_0000_0000_0000_0000

  const TWO32 := 0x1_0000_0000
  const TWO64 := 0x1_0000_0000_0000_0000

  function Pow2(n: nat): (r: nat)
    ensures r > 0
  {
    if n == 0 then 1 else 2 * Pow2(n - 1)
  }

  lemma Pow2Values()
    ensures Pow2(0) == 1 && Pow2(16) == 0x1_0000
    ensures Pow2(31) == 0x8000_0000 && Pow2(32) == TWO32
    ensures Pow2(63) == 0x8000_0000_0000_0000 && Pow2(64) == TWO64
  {
    assert Pow2(8) == 0x100 && Pow2(15) == 0x8000;
    Pow2Add(8, 8);
    Pow2Add(16, 15);
    Pow2Add(16, 16);
    Pow2Add(32, 31);
    Pow2Add(32, 32);
  }

  lemma {:induction false} Pow2Add(a: nat, b: nat)
    ensures Pow2(a + b) == Pow2(a) * Pow2(b)
  {
    if a > 0 {
      Pow2Add(a - 1, b);
      assert Pow2(a + b) == 2 * Pow2(a - 1 + b);
      assert 2 * (Pow2(a - 1) * Pow2(b)) == (2 * Pow2(a - 1)) * Pow2(b);
    }
  }

  lemma Pow2At26()
    ensures Pow2(25) == 0x200_0000 && Pow2(26) == 0x400_0000
  {
    Pow2Values();
    Pow2Add(16, 9);
    Pow2Add(16, 10);
    assert Pow2(9) == 0x200 && Pow2(10) == 0x400;
  }

  lemma Pow2At9()
    ensures Pow2(8) == 256 && Pow2(9) == 512
  {}

  lemma Pow2At14()
    ensures Pow2(13) == 0x2000 && Pow2(14) == 0x4000
  {}

  lemma Pow2At21()
    ensures Pow2(20) == 0x10_0000 && Pow2(21) == 0x20_0000
  {
    Pow2Values();
    Pow2Add(16, 4);
    Pow2Add(16, 5);
    assert Pow2(4) == 16 && Pow2(5) == 32;
  }

  lemma QuotientNonNegative(x: nat, d: nat)
    requires d > 0
    ensures x / d >= 0
  {}

  /** A logical shift to the right. */
  function Shr(x: nat, k: nat): nat {
    QuotientNonNegative(x, Pow2(k));
    x / Pow2(k)
  }

  /** Bitwise AND and OR, bit by bit from the bottom. */
  function BitAnd(x: nat, y: nat): nat {
    if x == 0 || y == 0 then 0
    else 2 * BitAnd(x / 2, y / 2) + (if x % 2 == 1 && y % 2 == 1 then 1 else 0)
  }

  function BitOr(x: nat, y: nat): nat
    decreases x + y
  {
    if x == 0 then y
    else if y == 0 then x
    else 2 * BitOr(x / 2, y / 2) + (if x % 2 == 1 || y % 2 == 1 then 1 else 0)
  }

  /** Bit `k` of a number. */
  predicate IsSet(x: nat, k: nat) {
    (x / Pow2(k)) % 2 == 1
  }

  lemma HalveQuotient(x: nat, k: nat)
    requires k > 0
    ensures x / Pow2(k) == (x / 2) / Pow2(k - 1)
    ensures x % Pow2(k) == 2 * ((x / 2) % Pow2(k - 1)) + x % 2
  {
    var p := Pow2(k - 1);
    var h := x / 2;
    var q, r := h / p, h % p;
    assert h == q * p + r;
    assert x == 2 * h + x % 2;
    assert x == q * (2 * p) + (2 * r + x % 2) by {
      assert 2 * (q * p) == q * (2 * p);
    }
    DivModUnique(x, 2 * p, q, 2 * r + x % 2);
  }

  lemma Distribute(a: int, b: int, d: int)
    ensures (a + b) * d == a * d + b * d
  {}

  lemma ProductNonNegative(a: nat, b: nat)
    ensures a * b >= 0
  {}

  lemma MultipleGap(a: nat, b: nat, d: nat)
    ensures a < b ==> a * d + d <= b * d
  {
    if a < b {
      var k := b - a - 1;
      Distribute(a + 1, k, d);
      Distribute(a, 1, d);
      ProductNonNegative(k, d);
    }
  }

  lemma DivModUnique(x: nat, d: nat, q: nat, r: nat)
    requires d > 0 && x == q * d + r && r < d
    ensures x / d == q && x % d == r
  {
    var q', r' := x / d, x % d;
    assert x == q' * d + r';
    MultipleGap(q, q', d);
    MultipleGap(q', q, d);
  }

  lemma AndZeroRight(x: nat)
    ensures BitAnd(x, 0) == 0
  {}

  lemma AndOdd(x: nat, p: nat)
    requires p > 0
    ensures BitAnd(x, 2 * p - 1) == 2 * BitAnd(x / 2, p - 1) + x % 2
  {
    var m := 2 * p - 1;
    assert m / 2 == p - 1 && m % 2 == 1;
  }

  /** Masking with `k` one bits keeps the remainder. */
  lemma {:induction false} AndLowMask(x: nat, k: nat)
    ensures BitAnd(x, Pow2(k) - 1) == x % Pow2(k)
    decreases k
  {
    hide BitAnd;
    if k > 0 {
      AndOdd(x, Pow2(k - 1));
      AndLowMask(x / 2, k - 1);
      HalveQuotient(x, k);
    } else {
      AndZeroRight(x);
    }
  }

  /** Masking with a single bit keeps that bit. */
  lemma {:induction false} AndSingleBit(x: nat, k: nat)
    ensures BitAnd(x, Pow2(k)) == if IsSet(x, k) then Pow2(k) else 0
    decreases k
  {
    if x > 0 {
      if k > 0 {
        HalveQuotient(x, k);
        AndSingleBit(x / 2, k - 1);
        assert Pow2(k) / 2 == Pow2(k - 1) && Pow2(k) % 2 == 0;
      } else {
        assert BitAnd(x / 2, 0) == 0;
      }
    }
  }

  /** The OR of bit fields that do not overlap is their sum. */
  lemma {:induction false} OrDisjoint(low: nat, high: nat, k: nat)
    requires low < Pow2(k)
    ensures BitOr(low, high * Pow2(k)) == low + high * Pow2(k)
    decreases k
  {
    if k > 0 && low > 0 && high > 0 {
      var p := Pow2(k - 1);
      assert high * Pow2(k) == 2 * (high * p);
      OrDisjoint(low / 2, high, k - 1);
    }
  }

  lemma {:induction false} OrBound(x: nat, y: nat, k: nat)
    requires x < Pow2(k) && y < Pow2(k)
    ensures BitOr(x, y) < Pow2(k)
    decreases k
  {
    if k > 0 && x > 0 && y > 0 {
      OrBound(x / 2, y / 2, k - 1);
    }
  }
}
