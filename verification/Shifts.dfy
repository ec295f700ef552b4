/** The shift rules of ops/include/ops/base_op.h for 32-bit and 64-bit data. */
module Shifts {
  import opened Ints
  import opened Patterns

  datatype Width = W32 | W64

  function Bits(wd: Width): nat {
    if wd == W32 then 32 else 64
  }

  function Modulus(wd: Width): nat {
    if wd == W32 then TWO32 else TWO64
  }

  /** The weight of the sign bit. */
  function Half(wd: Width): nat {
    if wd == W32 then 0x8000_0000 else 0x8000_0000_0000_0000
  }

  lemma WidthPowers(wd: Width)
    ensures Modulus(wd) == Pow2(Bits(wd)) && Half(wd) == Pow2(Bits(wd) - 1) && Modulus(wd) == 2 * Half(wd)
  {
    Pow2Values();
  }

  /** Two's complement reading, and reduction to the width. */
  function Signed(wd: Width, x: int): int {
    if x >= Half(wd) then x - Modulus(wd) else x
  }

  function Wrap(wd: Width, x: int): (r: nat)
    ensures r < Modulus(wd)
  {
    x % Modulus(wd)
  }

  datatype ShiftRule = LSL | LSR | ASR | ROR

  /** One bit leaves at the bottom and enters at the top. */
  function RotateOne(wd: Width, x: nat): nat {
    x / 2 + (x % 2) * Half(wd)
  }

  function Rotate(wd: Width, x: nat, n: nat): nat {
    if n == 0 then x else RotateOne(wd, Rotate(wd, x, n - 1))
  }

  /** What each rule means: a product reduced to the width, a quotient, the floor of the signed
      quotient, and a bitwise rotation to the right. */
  function Shifted(rule: ShiftRule, wd: Width, data: nat, amt: nat): int {
    match rule
    case LSL => Wrap(wd, data * Pow2(amt))
    case LSR => data / Pow2(amt)
    case ASR => Wrap(wd, Signed(wd, data) / Pow2(amt))
    case ROR => Rotate(wd, data, amt)
  }

  /** The shift that the C++ expression would do by the full width. */
  predicate FullWidthShift(rule: ShiftRule, wd: Width, data: nat, amt: nat) {
    rule == ASR && data >= Half(wd) && amt == Bits(wd) - 1
  }

  // ---------- rotation ----------

  lemma {:induction false} RotateIsSplit(wd: Width, x: nat, a: nat)
    requires a <= Bits(wd) && x < Modulus(wd)
    ensures Rotate(wd, x, a) == x / Pow2(a) + (x % Pow2(a)) * Pow2(Bits(wd) - a)
  {
    if a > 0 {
      RotateIsSplit(wd, x, a - 1);
      WidthPowers(wd);
      RotateStep(x, Pow2(a - 1), Pow2(Bits(wd) - a), Half(wd)) by {
        Pow2Add(a - 1, Bits(wd) - a);
      }
      assert Pow2(Bits(wd) - (a - 1)) == 2 * Pow2(Bits(wd) - a);
    }
  }

  /** Rotating the word whose low `p` part is already on top by one more bit. */
  lemma RotateStep(x: nat, p: nat, q: nat, half: nat)
    requires p > 0 && q > 0 && half == p * q
    ensures var y := x / p + (x % p) * (2 * q);
            y / 2 + (y % 2) * half == x / (2 * p) + (x % (2 * p)) * q
  {
    var h, l := x / p, x % p;
    SplitOnce(h, l, p, x);
    assert l * (2 * q) == 2 * (l * q);
    TopBits(h % 2, l, p, q);
  }

  lemma SplitOnce(h: nat, l: nat, p: nat, x: nat)
    requires p > 0 && x == h * p + l && l < p
    ensures x / (2 * p) == h / 2 && x % (2 * p) == (h % 2) * p + l
  {
    Distribute(2 * (h / 2), h % 2, p);
    assert (2 * (h / 2)) * p == (h / 2) * (2 * p);
    DivModUnique(x, 2 * p, h / 2, (h % 2) * p + l);
  }

  lemma TopBits(b: nat, l: nat, p: nat, q: nat)
    ensures (b * p + l) * q == b * (p * q) + l * q
  {
    Distribute(b * p, l, q);
    assert (b * p) * q == b * (p * q);
  }

  lemma {:induction false} RotateBound(wd: Width, x: nat, n: nat)
    requires x < Modulus(wd)
    ensures Rotate(wd, x, n) < Modulus(wd)
  {
    if n > 0 {
      RotateBound(wd, x, n - 1);
    }
  }

  /** Rotations add up. */
  lemma {:induction false} RotateAdds(wd: Width, x: nat, a: nat, b: nat)
    ensures Rotate(wd, Rotate(wd, x, a), b) == Rotate(wd, x, a + b)
  {
    if b > 0 {
      RotateAdds(wd, x, a, b - 1);
    }
  }

  /** A rotation by the width is the identity, so rotating by `a` and then by the rest undoes it, and
      amounts count modulo the width. */
  lemma RotateRoundTrip(wd: Width, x: nat, a: nat, b: nat)
    requires x < Modulus(wd)
    ensures a <= Bits(wd) ==> Rotate(wd, Rotate(wd, x, a), Bits(wd) - a) == x
    ensures a < Bits(wd) && b < Bits(wd) ==> Rotate(wd, Rotate(wd, x, a), b) == Rotate(wd, x, (a + b) % Bits(wd))
  {
    hide Rotate;
    FullTurn(wd, x);
    if a <= Bits(wd) {
      RotateAdds(wd, x, a, Bits(wd) - a);
    }
    if a < Bits(wd) && b < Bits(wd) {
      RotateAdds(wd, x, a, b);
      if a + b >= Bits(wd) {
        RotateAdds(wd, x, Bits(wd), a + b - Bits(wd));
      }
    }
  }

  lemma FullTurn(wd: Width, x: nat)
    requires x < Modulus(wd)
    ensures Rotate(wd, x, Bits(wd)) == x
  {
    hide Rotate;
    RotateIsSplit(wd, x, Bits(wd));
    WidthPowers(wd);
    assert Pow2(0) == 1;
    assert x / Modulus(wd) == 0 && x % Modulus(wd) == x;
  }

  // ---------- the mask-and-or forms ----------

  lemma QuotientBelow(x: nat, p: nat, bound: nat, product: nat)
    requires p > 0 && product == bound * p && x < product
    ensures 0 <= x / p < bound <= product
  {
    if x / p >= bound {
      MultipleAtMost(bound, x / p, p);
    }
    FactorAtMost(bound, p);
  }

  lemma FactorAtMost(k: nat, p: nat)
    requires p > 0
    ensures k <= k * p
  {
    MultipleAtMost(1, p, k);
  }

  lemma MultipleAtMost(a: nat, b: nat, d: nat)
    requires a <= b
    ensures a * d <= b * d
  {
    MultipleGap(a, b, d);
  }

  lemma QuotientBound(wd: Width, x: nat, a: nat)
    requires x < Modulus(wd)
    ensures 0 <= x / Pow2(a) < Modulus(wd)
  {
    hide Pow2;
    FactorAtMost(Modulus(wd), Pow2(a));
    QuotientBelow(x, Pow2(a), Modulus(wd), Modulus(wd) * Pow2(a));
  }

  lemma NonNegativeShift(wd: Width, x: nat, a: nat)
    requires x < Half(wd)
    ensures x / Pow2(a) == Shifted(ASR, wd, x, a)
  {
    hide Pow2;
    QuotientBound(wd, x, a);
  }

  lemma ShiftByNothing(rule: ShiftRule, wd: Width, x: nat)
    requires x < Modulus(wd)
    ensures Shifted(rule, wd, x, 0) == x
  {
    assert Pow2(0) == 1;
  }

  /** Masking with the sign bit. */
  lemma SignBitOf(wd: Width, x: nat)
    requires x < Modulus(wd)
    ensures BitAnd(x, Half(wd)) == if x >= Half(wd) then Half(wd) else 0
  {
    hide Pow2, BitAnd;
    WidthPowers(wd);
    AndSingleBit(x, Bits(wd) - 1);
    assert x / Half(wd) == if x >= Half(wd) then 1 else 0;
  }

  lemma FloorOfDifference(d: int, k: int, p: nat, product: int)
    requires p > 0 && product == k * p
    ensures (d - product) / p == d / p - k
  {
    var q, r := d / p, d % p;
    assert d == q * p + r;
    Distribute(q, -k, p);
    assert (-k) * p == -product;
    FloorUnique(d - product, p, q - k, r);
  }

  lemma FloorUnique(x: int, d: nat, q: int, r: nat)
    requires d > 0 && x == q * d + r && r < d
    ensures x / d == q
  {
    var q', r' := x / d, x % d;
    assert x == q' * d + r';
    Distribute(q - q', q', d);
    assert (q - q') * d == r' - r;
    SmallMultiple(q - q', d, r' - r);
  }

  lemma SmallMultiple(k: int, d: nat, m: int)
    requires d > 0 && k * d == m && -(d as int) < m < d
    ensures k == 0
  {
    if k > 0 {
      ProductNonNegative(k - 1, d);
      Distribute(k - 1, 1, d);
    } else if k < 0 {
      ProductNonNegative(-k - 1, d);
      Distribute(-k - 1, 1, d);
      Distribute(k, -k, d);
    }
  }

  lemma WrapShift(wd: Width, x: int, d: nat)
    requires d < Modulus(wd)
    ensures Wrap(wd, x + d) == if Wrap(wd, x) + d < Modulus(wd) then Wrap(wd, x) + d else Wrap(wd, x) + d - Modulus(wd)
  {
    var m := Modulus(wd);
    var q, r := x / m, x % m;
    assert x == q * m + r;
    if r + d < m {
      EuclidUnique(x + d, m, q, r + d);
    } else {
      Distribute(q, 1, m);
      EuclidUnique(x + d, m, q + 1, r + d - m);
    }
  }

  lemma EuclidUnique(x: int, d: nat, q: int, r: nat)
    requires d > 0 && x == q * d + r && r < d
    ensures x % d == r
  {
    FloorUnique(x, d, q, r);
  }

  /** The floor of a negative quotient, reduced to the width. */
  lemma NegativeQuotient(wd: Width, d: nat, p: nat, k: nat)
    requires p > 0 && Half(wd) == k * p && d < Half(wd)
    ensures 0 <= d / p < k && Wrap(wd, (d - Half(wd)) / p) == d / p + Modulus(wd) - k
  {
    QuotientBelow(d, p, k, Half(wd));
    FloorOfDifference(d, k, p, Half(wd));
    WrapNegative(wd, d / p - k);
  }

  lemma WrapNegative(wd: Width, v: int)
    requires 0 - Half(wd) <= v < 0
    ensures Wrap(wd, v) == v + Modulus(wd)
  {}

  /** The sign bit and the `a` bits below it. */
  function SignBits(wd: Width, a: nat): nat
    requires a < Bits(wd)
  {
    Wrap(wd, (Pow2(a + 1) - 1) * Pow2(Bits(wd) - 1 - a))
  }

  /** Clearing the sign bit, shifting, and setting the vacated bits is the floor of the quotient. */
  lemma ArithmeticShift(wd: Width, x: nat, a: nat)
    requires Half(wd) <= x < Modulus(wd) && 0 < a < Bits(wd) - 1
    ensures BitOr(Shr(BitAnd(x, Half(wd) - 1), a), SignBits(wd, a)) == Shifted(ASR, wd, x, a)
  {
    hide Pow2, BitAnd, BitOr, Wrap;
    WidthPowers(wd);
    var k := Bits(wd) - 1 - a;
    AndLowMask(x, Bits(wd) - 1);
    assert x % Half(wd) == x - Half(wd);
    VacatedBits(wd, a, k);
    Pow2Add(k, a);
    NegativeQuotient(wd, x - Half(wd), Pow2(a), Pow2(k));
    OrDisjoint((x - Half(wd)) / Pow2(a), Pow2(a + 1) - 1, k);
  }

  lemma VacatedBits(wd: Width, a: nat, k: nat)
    requires a + k == Bits(wd) - 1
    ensures (Pow2(a + 1) - 1) * Pow2(k) == Modulus(wd) - Pow2(k)
    ensures Wrap(wd, (Pow2(a + 1) - 1) * Pow2(k)) == Modulus(wd) - Pow2(k)
  {
    hide Pow2;
    WidthPowers(wd);
    Pow2Add(a + 1, k);
    Distribute(Pow2(a + 1), -1, Pow2(k));
    MultipleAtMost(1, Pow2(a + 1), Pow2(k));
  }

  lemma {:induction false} AndCommutes(x: nat, y: nat)
    ensures BitAnd(x, y) == BitAnd(y, x)
  {
    if x > 0 && y > 0 {
      AndCommutes(x / 2, y / 2);
    }
  }

  /** The low `a` bits, moved to the top, fit the width. */
  lemma MirroredFits(wd: Width, l: nat, p: nat, q: nat)
    requires l < p && p * q == Modulus(wd)
    ensures 0 <= l * q && Wrap(wd, l * q) == l * q
  {
    MultipleGap(l, p, q);
    ProductNonNegative(l, q);
  }

  /** Moving the low bits to the top and shifting the rest down is the rotation. */
  lemma RotateByMasks(wd: Width, x: nat, a: nat)
    requires x < Modulus(wd) && a < Bits(wd)
    ensures BitOr(Shr(x, a), Wrap(wd, BitAnd(Pow2(a) - 1, x) * Pow2(Bits(wd) - a))) == Rotate(wd, x, a)
  {
    hide Pow2, BitAnd, BitOr, Rotate, Wrap;
    WidthPowers(wd);
    AndCommutes(Pow2(a) - 1, x);
    AndLowMask(x, a);
    Pow2Add(Bits(wd) - a, a);
    Pow2Add(a, Bits(wd) - a);
    QuotientBelow(x, Pow2(a), Pow2(Bits(wd) - a), Modulus(wd));
    MirroredFits(wd, x % Pow2(a), Pow2(a), Pow2(Bits(wd) - a));
    OrDisjoint(x / Pow2(a), x % Pow2(a), Bits(wd) - a);
    RotateIsSplit(wd, x, a);
  }

  lemma ShiftedRange(rule: ShiftRule, wd: Width, x: nat, a: nat)
    requires x < Modulus(wd)
    ensures 0 <= Shifted(rule, wd, x, a) < Modulus(wd)
  {
    hide Pow2, Rotate;
    QuotientBound(wd, x, a);
    RotateBound(wd, x, a);
  }

  // ---------- the shift routine ----------

  /** shift_by_rule_32 and shift_by_rule_64. The signed intermediate values of the 32-bit form are
      taken to wrap; a shift by the full width, which C++ leaves undefined, yields `None`. */
  method ShiftByRule(rule: ShiftRule, wd: Width, input: nat, amt: nat) returns (r: Option<nat>)
    requires input < Modulus(wd) && amt < Bits(wd)
    ensures r.None? <==> FullWidthShift(rule, wd, input, amt)
    ensures r.Some? ==> r.value == Shifted(rule, wd, input, amt) && r.value < Modulus(wd)
  {
    hide Pow2, BitAnd, BitOr, Rotate;
    if amt == 0 {
      ShiftByNothing(rule, wd, input);
      return Some(input);
    }
    var data := input;
    match rule {
      case LSL =>
        return Some(Wrap(wd, data * Pow2(amt)));
      case LSR =>
        QuotientBound(wd, data, amt);
        return Some(data / Pow2(amt));
      case ASR =>
        SignBitOf(wd, data);
        if BitAnd(data, Half(wd)) != 0 {
          if amt == Bits(wd) - 1 {
            return None;
          }
          data := BitAnd(data, Half(wd) - 1);
          data := Shr(data, amt);
          data := BitOr(data, SignBits(wd, amt));
          ArithmeticShift(wd, input, amt);
          return Some(data);
        } else {
          QuotientBound(wd, data, amt);
          NonNegativeShift(wd, data, amt);
          return Some(data / Pow2(amt));
        }
      case ROR =>
        var mirrored := Wrap(wd, BitAnd(Pow2(amt) - 1, data) * Pow2(Bits(wd) - amt));
        data := Shr(data, amt);
        data := BitOr(data, mirrored);
        RotateByMasks(wd, input, amt);
        RotateBound(wd, input, amt);
        return Some(data);
    }
  }
}
