/** Flags, the Arm shared pseudocode functions they are defined by, and the conditions. */
module Arith {
  import opened Ints
  import opened Patterns
  import opened Shifts

  datatype Flags = Flags(n: bool, z: bool, c: bool, v: bool)

  /** AddWithCarry of the Arm Architecture Reference Manual (shared pseudocode), over unbounded
      integers: the flags compare the reduced result with the exact unsigned and signed sums. */
  function AddWithCarry(wd: Width, x: nat, y: nat, carry: nat): (nat, Flags) {
    var unsignedSum := x + y + carry;
    var signedSum := Signed(wd, x) + Signed(wd, y) + carry;
    var result := Wrap(wd, unsignedSum);
    (result, Flags(result >= Half(wd), result == 0, result != unsignedSum, Signed(wd, result) != signedSum))
  }

  /** Bitwise complement at a width. */
  function Not(wd: Width, y: nat): int {
    Modulus(wd) - 1 - y
  }

  function AddFlags(wd: Width, x: nat, imm: nat): Flags {
    AddWithCarry(wd, x, imm, 0).1
  }

  function SubFlags(wd: Width, x: nat, imm: nat): Flags
    requires imm < Modulus(wd)
  {
    AddWithCarry(wd, x, Not(wd, imm), 1).1
  }

  // ---------- conditions ----------

  /** ConditionHolds of the Arm Architecture Reference Manual (shared pseudocode). */
  predicate ConditionHolds(cond: nat, f: Flags)
    requires cond < 16
  {
    var base :=
      match cond / 2
      case 0 => f.z
      case 1 => f.c
      case 2 => f.n
      case 3 => f.v
      case 4 => f.c && !f.z
      case 5 => f.n == f.v
      case 6 => f.n == f.v && !f.z
      case _ => true;
    if cond % 2 == 1 && cond != 15 then !base else base
  }

  /** is_cond_true: LS and LE are written with a conjunction, NV never holds. */
  predicate CondTrue(cond: nat, f: Flags)
    requires cond < 16
  {
    match cond
    case 0 => f.z
    case 1 => !f.z
    case 2 => f.c
    case 3 => !f.c
    case 4 => f.n
    case 5 => !f.n
    case 6 => f.v
    case 7 => !f.v
    case 8 => f.c && !f.z
    case 9 => !f.c && f.z
    case 10 => f.n == f.v
    case 11 => f.n != f.v
    case 12 => !f.z && f.n == f.v
    case 13 => f.z && f.n != f.v
    case 14 => true
    case _ => false
  }

  /** Exactly where is_cond_true departs from the architecture: LS when C and Z agree, LE when Z and
      N != V disagree, and NV. */
  lemma CondTrueIffArm(cond: nat, f: Flags)
    requires cond < 16
    ensures CondTrue(cond, f) == ConditionHolds(cond, f)
            <==> (cond == 9 ==> f.c != f.z) && (cond == 13 ==> f.z == (f.n != f.v)) && cond != 15
  {}

  /** The condition code with its lowest bit inverted. */
  function InvertCond(cond: nat): (r: nat)
    requires cond < 16
    ensures r < 16
  {
    if cond % 2 == 0 then cond + 1 else cond - 1
  }

  /** Exactly when inverting the lowest bit complements the condition. */
  lemma InversionComplements(cond: nat, f: Flags)
    requires cond < 14
    ensures ConditionHolds(InvertCond(cond), f) == !ConditionHolds(cond, f)
    ensures CondTrue(InvertCond(cond), f) == !CondTrue(cond, f)
            <==> (cond / 2 == 4 ==> f.c != f.z) && (cond / 2 == 6 ==> f.z == (f.n != f.v))
  {}

  // ---------- comparisons ----------

  /** What a condition code says about the operands of a preceding compare; `None` for the codes that
      name no comparison of the two operands. */
  function Comparison(cond: nat, wd: Width, x: nat, y: nat): Option<bool>
    requires cond < 16
  {
    match cond
    case 0 => Some(x == y)
    case 1 => Some(x != y)
    case 2 => Some(x >= y)
    case 3 => Some(x < y)
    case 8 => Some(x > y)
    case 9 => Some(x <= y)
    case 10 => Some(Signed(wd, x) >= Signed(wd, y))
    case 11 => Some(Signed(wd, x) < Signed(wd, y))
    case 12 => Some(Signed(wd, x) > Signed(wd, y))
    case 13 => Some(Signed(wd, x) <= Signed(wd, y))
    case _ => None
  }

  /** The flags of a subtraction, read as facts about the operands. */
  lemma SubFlagsMeaning(wd: Width, x: nat, y: nat)
    requires x < Modulus(wd) && y < Modulus(wd)
    ensures var f := SubFlags(wd, x, y);
            && (f.z <==> x == y)
            && (f.c <==> x >= y)
            && (f.n != f.v <==> Signed(wd, x) < Signed(wd, y))
  {
    DifferenceZeroCarry(wd, x, y);
    DifferenceFlagsMean(wd, x, y);
    SameDifference(wd, x, y);
    hide SubFlags, Wrap;
    SignFlips(wd, Signed(wd, x) - Signed(wd, y));
  }

  lemma DifferenceZeroCarry(wd: Width, x: nat, y: nat)
    requires x < Modulus(wd) && y < Modulus(wd)
    ensures (SubFlags(wd, x, y).z <==> x == y) && (SubFlags(wd, x, y).c <==> x >= y)
  {}

  /** Reducing a number out of range changes its sign. */
  lemma SignFlips(wd: Width, z: int)
    requires 0 - Modulus(wd) < z < Modulus(wd)
    ensures (Signed(wd, Wrap(wd, z)) < 0 <==> z < 0) <==> 0 - Half(wd) <= z < Half(wd)
  {}

  /** After a subtraction the architecture's conditions decide the comparisons they name. */
  lemma ConditionsCompare(cond: nat, wd: Width, x: nat, y: nat)
    requires cond < 16 && x < Modulus(wd) && y < Modulus(wd) && Comparison(cond, wd, x, y).Some?
    ensures ConditionHolds(cond, SubFlags(wd, x, y)) == Comparison(cond, wd, x, y).value
  {
    hide SubFlags, Signed;
    SubFlagsMeaning(wd, x, y);
    SignedInjective(wd, x, y);
  }

  lemma SignedInjective(wd: Width, x: nat, y: nat)
    requires x < Modulus(wd) && y < Modulus(wd)
    ensures Signed(wd, x) == Signed(wd, y) <==> x == y
  {}

  /** The conditions that test one flag: after a subtraction MI and PL are the sign of the reduced
      difference, VS and VC say whether the exact signed difference is out of range. AL always holds; the
      code takes NV as never, the architecture as always. */
  lemma SignConditions(wd: Width, x: nat, y: nat)
    requires x < Modulus(wd) && y < Modulus(wd)
    ensures var f := SubFlags(wd, x, y);
            var negative := Signed(wd, Wrap(wd, x - y)) < 0;
            var exact := Signed(wd, x) - Signed(wd, y);
            var overflow := !(0 - Half(wd) <= exact < Half(wd));
            && (CondTrue(4, f) <==> negative) && (CondTrue(5, f) <==> !negative)
            && (CondTrue(6, f) <==> overflow) && (CondTrue(7, f) <==> !overflow)
            && (ConditionHolds(4, f) <==> negative) && (ConditionHolds(5, f) <==> !negative)
            && (ConditionHolds(6, f) <==> overflow) && (ConditionHolds(7, f) <==> !overflow)
            && CondTrue(14, f) && ConditionHolds(14, f) && !CondTrue(15, f) && ConditionHolds(15, f)
  {
    DifferenceFlagsMean(wd, x, y);
    hide SubFlags, Signed, Wrap;
  }

  lemma DifferenceFlagsMean(wd: Width, x: nat, y: nat)
    requires x < Modulus(wd) && y < Modulus(wd)
    ensures SubFlags(wd, x, y).n <==> Signed(wd, Wrap(wd, x - y)) < 0
    ensures SubFlags(wd, x, y).v <==> !(0 - Half(wd) <= Signed(wd, x) - Signed(wd, y) < Half(wd))
  {
    hide Wrap;
    var exact := Signed(wd, x) - Signed(wd, y);
    assert Signed(wd, x) + Signed(wd, Not(wd, y)) + 1 == exact;
    SameDifference(wd, x, y);
    SignedFits(wd, exact);
  }

  /** Three ways to reduce a difference. */
  lemma SameDifference(wd: Width, x: nat, y: nat)
    requires x < Modulus(wd) && y < Modulus(wd)
    ensures Wrap(wd, x + Not(wd, y) + 1) == Wrap(wd, x - y) == Wrap(wd, Signed(wd, x) - Signed(wd, y))
  {
    var d := x as int - y;
    WrapMoved(wd, d, 1);
    var exact := Signed(wd, x) - Signed(wd, y);
    if exact > d {
      WrapMoved(wd, d, 1);
    } else if exact < d {
      WrapMoved(wd, d, -1);
    }
  }

  lemma WrapMoved(wd: Width, z: int, k: int)
    requires -1 <= k <= 1
    ensures Wrap(wd, z + k * Modulus(wd)) == Wrap(wd, z)
  {
    var m := Modulus(wd);
    var q := z / m;
    Distribute(q, k, m);
    EuclidUnique(z + k * m, m, q + k, z % m);
  }

  /** A number of at most twice the range is itself after reduction exactly when it is in range. */
  lemma SignedFits(wd: Width, z: int)
    requires 0 - Modulus(wd) < z < Modulus(wd)
    ensures Signed(wd, Wrap(wd, z)) == z <==> 0 - Half(wd) <= z < Half(wd)
  {}
}
