/** What OR and the shift rules do to the single bits of a register. */
module Bitwise {
  import opened Ints
  import opened Shifts

  // ---------- bits of sums, quotients and remainders ----------

  lemma BitStep(x: nat, k: nat)
    ensures IsSet(x, k) == if k == 0 then x % 2 == 1 else IsSet(x / 2, k - 1)
  {
    if k > 0 {
      HalveQuotient(x, k);
    } else {
      assert Pow2(0) == 1;
    }
  }

  lemma {:induction false} ZeroBit(k: nat)
    ensures !IsSet(0, k)
  {
    hide IsSet;
    BitStep(0, k);
    if k > 0 {
      ZeroBit(k - 1);
    }
  }

  lemma OrStep(x: nat, y: nat)
    requires x > 0 && y > 0
    ensures BitOr(x, y) / 2 == BitOr(x / 2, y / 2)
    ensures BitOr(x, y) % 2 == 1 <==> x % 2 == 1 || y % 2 == 1
  {}

  lemma OrWithZero(x: nat, y: nat)
    ensures BitOr(0, y) == y && BitOr(x, 0) == x
  {}

  lemma {:induction false} OrBit(x: nat, y: nat, k: nat)
    ensures IsSet(BitOr(x, y), k) <==> IsSet(x, k) || IsSet(y, k)
    decreases k
  {
    hide IsSet, BitOr;
    if x == 0 || y == 0 {
      OrWithZero(x, y);
      ZeroBit(k);
    } else {
      OrStep(x, y);
      BitStep(BitOr(x, y), k);
      BitStep(x, k);
      BitStep(y, k);
      if k > 0 {
        OrBit(x / 2, y / 2, k - 1);
      }
    }
  }

  lemma JoinHalves(low: nat, high: nat, p: nat)
    requires low < 2 * p
    ensures (low + high * (2 * p)) / 2 == low / 2 + high * p && (low + high * (2 * p)) % 2 == low % 2
  {
    assert high * (2 * p) == 2 * (high * p);
  }

  /** A number below 2 to the `n`, under another one moved up by `n` bits. */
  lemma {:induction false} JoinedBit(low: nat, high: nat, n: nat, k: nat)
    requires low < Pow2(n)
    ensures IsSet(low + high * Pow2(n), k) == if k < n then IsSet(low, k) else IsSet(high, k - n)
    decreases n
  {
    hide IsSet;
    if n > 0 {
      JoinHalves(low, high, Pow2(n - 1));
      BitStep(low + high * Pow2(n), k);
      BitStep(low, k);
      if k > 0 {
        JoinedBit(low / 2, high, n - 1, k - 1);
      }
    }
  }

  lemma QuotientBit(x: nat, a: nat, k: nat)
    ensures IsSet(Shr(x, a), k) == IsSet(x, k + a)
  {
    hide IsSet, Pow2;
    JoinedBit(x % Pow2(a), Shr(x, a), a, k + a);
  }

  lemma RemainderBit(x: nat, n: nat, k: nat)
    ensures IsSet(x % Pow2(n), k) <==> k < n && IsSet(x, k)
  {
    hide IsSet, Pow2;
    JoinedBit(x % Pow2(n), Shr(x, n), n, k);
    JoinedBit(x % Pow2(n), 0, n, k);
    if k >= n {
      ZeroBit(k - n);
    }
  }

  lemma {:induction false} OnesBit(n: nat, k: nat)
    requires k < n
    ensures IsSet(Pow2(n) - 1, k)
  {
    hide IsSet;
    BitStep(Pow2(n) - 1, k);
    if k > 0 {
      OnesBit(n - 1, k - 1);
    }
  }

  // ---------- the shift rules ----------

  /** Bit `k` of the shifted operand, as ShiftReg of the shared pseudocode places it. */
  predicate ShiftedBit(rule: ShiftRule, wd: Width, x: nat, a: nat, k: nat) {
    match rule
    case LSL => k >= a && IsSet(x, k - a)
    case LSR => IsSet(x, k + a)
    case ASR => IsSet(x, if k + a < Bits(wd) then k + a else Bits(wd) - 1)
    case ROR => IsSet(x, (k + a) % Bits(wd))
  }

  lemma LeftBit(wd: Width, x: nat, a: nat, k: nat)
    requires k < Bits(wd)
    ensures IsSet(Shifted(LSL, wd, x, a), k) == ShiftedBit(LSL, wd, x, a, k)
  {
    hide IsSet, Pow2;
    WidthPowers(wd);
    ProductNonNegative(x, Pow2(a));
    RemainderBit(x * Pow2(a), Bits(wd), k);
    JoinedBit(0, x, a, k);
    if k < a {
      ZeroBit(k);
    }
  }

  lemma RightBit(wd: Width, x: nat, a: nat, k: nat)
    ensures Shifted(LSR, wd, x, a) == Shr(x, a)
    ensures IsSet(Shr(x, a), k) == ShiftedBit(LSR, wd, x, a, k)
  {
    hide IsSet, Pow2;
    QuotientBit(x, a, k);
  }

  lemma RotatedJoin(wd: Width, x: nat, a: nat)
    requires x < Modulus(wd) && a < Bits(wd)
    ensures Shr(x, a) < Pow2(Bits(wd) - a)
    ensures Rotate(wd, x, a) == Shr(x, a) + (x % Pow2(a)) * Pow2(Bits(wd) - a) >= 0
  {
    hide Pow2, Rotate;
    RotateIsSplit(wd, x, a);
    WidthPowers(wd);
    Pow2Add(Bits(wd) - a, a);
    QuotientBelow(x, Pow2(a), Pow2(Bits(wd) - a), Modulus(wd));
    ProductNonNegative(x % Pow2(a), Pow2(Bits(wd) - a));
  }

  lemma RotatedBit(wd: Width, x: nat, a: nat, k: nat)
    requires x < Modulus(wd) && a < Bits(wd) && k < Bits(wd)
    ensures Rotate(wd, x, a) >= 0 && IsSet(Rotate(wd, x, a), k) == ShiftedBit(ROR, wd, x, a, k)
  {
    hide IsSet, Pow2, Rotate, Shr;
    var n := Bits(wd) - a;
    RotatedJoin(wd, x, a);
    JoinedBit(Shr(x, a), x % Pow2(a), n, k);
    if k < n {
      QuotientBit(x, a, k);
    } else {
      RemainderBit(x, a, k - n);
    }
  }

  lemma SignBit(wd: Width, x: nat)
    requires x < Modulus(wd)
    ensures IsSet(x, Bits(wd) - 1) <==> x >= Half(wd)
  {
    hide Pow2;
    WidthPowers(wd);
  }

  /** Nothing is set above the width. */
  lemma HighBits(x: nat, n: nat, k: nat)
    requires x < Pow2(n) && k >= n
    ensures !IsSet(x, k)
  {
    hide IsSet, Pow2;
    RemainderBit(x, n, k);
  }

  lemma PositiveBit(wd: Width, x: nat, a: nat, k: nat)
    requires x < Half(wd) && a < Bits(wd) && k < Bits(wd)
    ensures Shifted(ASR, wd, x, a) == Shr(x, a)
    ensures IsSet(Shr(x, a), k) == ShiftedBit(ASR, wd, x, a, k)
  {
    hide IsSet, Pow2;
    WidthPowers(wd);
    QuotientBound(wd, x, a);
    QuotientBit(x, a, k);
    SignBit(wd, x);
    if k + a >= Bits(wd) {
      HighBits(x, Bits(wd) - 1, k + a);
    }
  }

  lemma NegativeBit(wd: Width, x: nat, a: nat, k: nat)
    requires Half(wd) <= x < Modulus(wd) && a < Bits(wd) && k < Bits(wd)
    ensures IsSet(Shifted(ASR, wd, x, a), k) == ShiftedBit(ASR, wd, x, a, k)
  {
    hide IsSet, Pow2, Wrap;
    var n, d := Bits(wd) - 1 - a, x - Half(wd);
    WidthPowers(wd);
    Pow2Add(n, a);
    NegativeQuotient(wd, d, Pow2(a), Pow2(n));
    VacatedBits(wd, a, n);
    SignBit(wd, x);
    JoinedBit(Shr(d, a), Pow2(a + 1) - 1, n, k);
    if k < n {
      QuotientBit(d, a, k);
      RemainderBit(x, Bits(wd) - 1, k + a);
      DropSign(wd, x);
    } else {
      OnesBit(a + 1, k - n);
    }
  }

  lemma DropSign(wd: Width, x: nat)
    requires Half(wd) <= x < Modulus(wd)
    ensures x % Half(wd) == x - Half(wd)
  {}

  /** The value of every shift rule, bit by bit, for every amount below the width. */
  lemma ShiftBitwise(rule: ShiftRule, wd: Width, x: nat, a: nat, k: nat)
    requires x < Modulus(wd) && a < Bits(wd) && k < Bits(wd)
    ensures Shifted(rule, wd, x, a) >= 0
    ensures IsSet(Shifted(rule, wd, x, a), k) == ShiftedBit(rule, wd, x, a, k)
  {
    hide IsSet, Pow2, Rotate, Shifted, ShiftedBit;
    ShiftedRange(rule, wd, x, a);
    match rule
    case LSL => LeftBit(wd, x, a, k);
    case LSR => RightBit(wd, x, a, k);
    case ASR =>
      if x < Half(wd) {
        PositiveBit(wd, x, a, k);
      } else {
        NegativeBit(wd, x, a, k);
      }
    case ROR =>
      RotatedBit(wd, x, a, k);
      RotateShifts(wd, x, a);
  }

  lemma RotateShifts(wd: Width, x: nat, a: nat)
    ensures Shifted(ROR, wd, x, a) == Rotate(wd, x, a)
  {}
}
