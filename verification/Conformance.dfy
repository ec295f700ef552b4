/** Where the handlers do what the Arm Architecture Reference Manual (A-profile, A64 base instructions)
    says, and exactly where they do not. */
module Conformance {
  import opened Patterns
  import opened Ints
  import opened Shifts
  import opened Bitwise
  import opened Arith
  import opened Fields
  import opened Dispatcher
  import opened Isa
  import opened Arm
  import opened Assembler

  // ---------- register writes ----------

  /** A write of the given width loses nothing: a 32-bit write keeps the upper half of the register, which
      the architecture clears. */
  predicate Clear(c: Cpu, wd: Width, i: nat)
    requires i < 32
  {
    wd == W64 || c.r[i] < TWO32
  }

  /** Writing `used` as the handlers do against writing `v` to a destination where index 31 discards. */
  predicate WriteRight(c: Cpu, wd: Width, i: nat, used: nat, v: nat)
    requires i < 32
  {
    if i != 31 then used == v && Clear(c, wd, i) else used == Reg(c, wd, 31)
  }

  lemma WriteConformance(c: Cpu, f: Flags, wd: Width, i: nat, used: nat, v: nat)
    requires i < 32 && used < Modulus(wd) && v < Modulus(wd)
    ensures SetReg(c.(f := f), wd, i, used) == WriteX(c.(f := f), wd, i, v) <==> WriteRight(c, wd, i, used, v)
    ensures SetReg(c, wd, i, used) == WriteX(c, wd, i, v) <==> WriteRight(c, wd, i, used, v)
    ensures SetReg(c, wd, i, used) == WriteSp(c, wd, i, v) <==> used == v && Clear(c, wd, i)
  {
    var was := SetReg(c, wd, i, used).r;
    assert was[i] == Merge(wd, c.r[i], used);
    MergeIsWrite(c.r[i], wd, used, v);
    assert c.r[i := c.r[i]] == c.r;
    assert c.r[i := v][i] == v;
    assert i != 31 ==> WriteX(c, wd, i, v).r[i] == v;
  }

  lemma MergeIsWrite(was: u64, wd: Width, used: nat, v: nat)
    requires used < Modulus(wd) && v < Modulus(wd)
    ensures Merge(wd, was, used) == v <==> used == v && (wd == W64 || was < TWO32)
    ensures Merge(wd, was, used) == was <==> used == if wd == W64 then was else was % TWO32
  {}

  // ---------- ADD and SUB ----------

  /** ADD, and SUB, do what the architecture does exactly when the destination has no upper half to lose. */
  lemma AddConformance(w: Word, c: Cpu)
    ensures ExecAddImm(w, c) == Done(ArmAddImm(w, c)) <==> Clear(c, WidthOf(w), Rd(w))
  {
    hide Sf, Sh, Field;
    var wd := WidthOf(w);
    var v := Sum(wd, Reg(c, wd, Rn(w)), ShiftedImm12(w), 0);
    WriteConformance(c, c.f, wd, Rd(w), v, v);
  }

  lemma SubConformance(w: Word, c: Cpu)
    ensures ExecSubImm(w, c) == Done(ArmSubImm(w, c)) <==> Clear(c, WidthOf(w), Rd(w))
  {
    hide Sf, Sh, Field, Wrap;
    var wd := WidthOf(w);
    var x := Reg(c, wd, Rn(w));
    ComplementSubtracts(wd, x, ShiftedImm12(w));
    WriteConformance(c, c.f, wd, Rd(w), Wrap(wd, x - ShiftedImm12(w)), Wrap(wd, x - ShiftedImm12(w)));
  }

  // ---------- ADDS and SUBS ----------

  predicate AddsRight(w: Word, c: Cpu) {
    var wd := WidthOf(w);
    var x := Reg(c, wd, Rn(w));
    && !(wd == W64 && x >= Half(wd))
    && if Rd(w) != 31 then Clear(c, wd, Rd(w)) else Wrap(wd, x + ShiftedImm12(w)) == Reg(c, wd, 31)
  }

  /** ADDS: the sum is always the architecture's; the flags are, unless the 64-bit form meets a negative
      register operand; and with the destination, where index 31 (CMN) should discard the sum, this decides
      when the whole state is the architecture's. */
  lemma AddsConformance(w: Word, c: Cpu)
    ensures var wd := WidthOf(w);
            var x := Reg(c, wd, Rn(w));
            var arm := AddWithCarry(wd, x, ShiftedImm12(w), 0);
            var after := ExecAddsImm(w, c).cpu;
            && Reg(after, wd, Rd(w)) == arm.0
            && (after.f == arm.1 <==> !(wd == W64 && x >= Half(wd)))
            && (ExecAddsImm(w, c) == Done(ArmAddsImm(w, c)) <==> AddsRight(w, c))
  {
    hide Sf, Sh, Field;
    var wd := WidthOf(w);
    var x := Reg(c, wd, Rn(w));
    NegativePlusSmall(x, ShiftedImm12(w));
    AddsWrites(w, c);
  }

  lemma AddsWrites(w: Word, c: Cpu)
    ensures var wd := WidthOf(w);
            var x := Reg(c, wd, Rn(w));
            ExecAddsImm(w, c) == Done(ArmAddsImm(w, c))
            <==> AddsFlags(wd, x, ShiftedImm12(w)) == AddFlags(wd, x, ShiftedImm12(w))
                 && WriteRight(c, wd, Rd(w), Wrap(wd, x + ShiftedImm12(w)), Wrap(wd, x + ShiftedImm12(w)))
  {
    hide Sf, Sh, Field, AddsFlags, AddFlags, WriteRight, Reg;
    var wd := WidthOf(w);
    var x := Reg(c, wd, Rn(w));
    var v := Wrap(wd, x + ShiftedImm12(w));
    WriteConformance(c, AddFlags(wd, x, ShiftedImm12(w)), wd, Rd(w), v, v);
    assert Sum(wd, x, ShiftedImm12(w), 0) == v;
    assert ExecAddsImm(w, c).cpu.f == AddsFlags(wd, x, ShiftedImm12(w));
    assert ArmAddsImm(w, c).f == AddFlags(wd, x, ShiftedImm12(w));
  }

  /** A negative number plus a small non-negative one never overflows. */
  lemma NegativePlusSmall(x: nat, imm: nat)
    requires x < TWO64 && imm < 0x100_0000
    ensures x >= Half(W64) ==> !AddFlags(W64, x, imm).v
  {}

  predicate SubsRight(w: Word, c: Cpu) {
    var wd := WidthOf(w);
    if Rd(w) != 31 then (!Sh(w) || Imm12(w) == 0) && Clear(c, wd, Rd(w))
    else Wrap(wd, Reg(c, wd, Rn(w)) - Imm12(w)) == Reg(c, wd, 31)
  }

  /** SUBS: the flags are always the architecture's; the difference is, unless a nonzero immediate is
      shifted; and with the destination, where index 31 (CMP) should discard the difference, this decides
      when the whole state is the architecture's. */
  lemma SubsConformance(w: Word, c: Cpu)
    ensures var wd := WidthOf(w);
            var x := Reg(c, wd, Rn(w));
            var arm := AddWithCarry(wd, x, Not(wd, ShiftedImm12(w)), 1);
            var after := ExecSubsImm(w, c).cpu;
            && after.f == arm.1
            && (Reg(after, wd, Rd(w)) == arm.0 <==> !Sh(w) || Imm12(w) == 0)
            && (ExecSubsImm(w, c) == Done(ArmSubsImm(w, c)) <==> SubsRight(w, c))
  {
    hide Sf, Sh, Field, SubFlags, AddWithCarry, Wrap;
    var wd := WidthOf(w);
    var x := Reg(c, wd, Rn(w));
    SubtractTwice(wd, x, Imm12(w), ShiftedImm12(w));
    WriteConformance(c, SubFlags(wd, x, ShiftedImm12(w)), wd, Rd(w), Wrap(wd, x - Imm12(w)),
                     Sum(wd, x, Not(wd, ShiftedImm12(w)), 1));
    assert SubFlags(wd, x, ShiftedImm12(w)) == AddWithCarry(wd, x, Not(wd, ShiftedImm12(w)), 1).1 by {
      SubFlagsAre(wd, x, ShiftedImm12(w));
    }
  }

  lemma SubFlagsAre(wd: Width, x: nat, imm: nat)
    requires imm < Modulus(wd)
    ensures SubFlags(wd, x, imm) == AddWithCarry(wd, x, Not(wd, imm), 1).1
  {
    hide AddWithCarry;
  }

  lemma SubtractTwice(wd: Width, x: nat, a: nat, b: nat)
    requires x < Modulus(wd) && a <= b < 0x100_0000
    ensures Wrap(wd, x - a) == AddWithCarry(wd, x, Not(wd, b), 1).0 <==> a == b
  {
    hide Wrap;
    ComplementSubtracts(wd, x, b);
    WrapDifference(wd, x, a);
    WrapDifference(wd, x, b);
  }

  lemma WrapDifference(wd: Width, x: nat, a: nat)
    requires x < Modulus(wd) && a < Modulus(wd)
    ensures Wrap(wd, x - a) == if x >= a then x - a else x - a + Modulus(wd)
  {}

  /** Adding the complement and one subtracts. */
  lemma ComplementSubtracts(wd: Width, x: nat, b: nat)
    requires x < Modulus(wd) && b < Modulus(wd)
    ensures AddWithCarry(wd, x, Not(wd, b), 1).0 == Wrap(wd, x - b)
  {
    WrapDifference(wd, x, b);
  }

  // ---------- CSINC and CSET ----------

  /** The alias path yields what the general path would, exactly when inverting the condition code
      complements the condition in the current flags. */
  lemma AliasIsGeneralPath(w: Word, c: Cpu)
    requires IsCset(w)
    ensures var wd := WidthOf(w);
            Reg(ExecCsinc(w, c).cpu, wd, Rd(w)) == CsincValue(w, c, CondTrue(Cond(w), c.f))
            <==> (Cond(w) / 2 == 4 ==> c.f.c != c.f.z) && (Cond(w) / 2 == 6 ==> c.f.z == (c.f.n != c.f.v))
  {
    hide Sf, Field, CondTrue;
    InversionComplements(Cond(w), c.f);
  }

  /** Whether the handler's test, on the alias path of the inverted code, decides as the architecture. */
  predicate TestRight(w: Word, f: Flags) {
    if IsCset(w) then (Cond(w) == 8 ==> f.c != f.z) && (Cond(w) == 12 ==> f.z == (f.n != f.v))
    else (Cond(w) == 9 ==> f.c != f.z) && (Cond(w) == 13 ==> f.z == (f.n != f.v)) && Cond(w) != 15
  }

  /** The value the handler writes: the architecture's where its test is right, the other one elsewhere. */
  function CsincUsed(w: Word, c: Cpu): (v: nat)
    ensures v < Modulus(WidthOf(w))
  {
    CsincValue(w, c, TestRight(w, c.f) == ConditionHolds(Cond(w), c.f))
  }

  lemma CsincWrites(w: Word, c: Cpu)
    ensures ExecCsinc(w, c) == Done(SetReg(c, WidthOf(w), Rd(w), CsincUsed(w, c)))
  {
    hide Sf, Field, CondTrue, ConditionHolds;
    if IsCset(w) {
      InversionComplements(Cond(w), c.f);
      CondTrueIffArm(InvertCond(Cond(w)), c.f);
    } else {
      CondTrueIffArm(Cond(w), c.f);
    }
  }

  predicate CsincRight(w: Word, c: Cpu) {
    var wd := WidthOf(w);
    if Rd(w) != 31 then (TestRight(w, c.f) || CsincValue(w, c, true) == CsincValue(w, c, false)) && Clear(c, wd, Rd(w))
    else CsincUsed(w, c) == Reg(c, wd, 31)
  }

  /** CSINC and CSET: the whole state is the architecture's exactly when the test decides rightly (or both
      sources give the same value) and the destination loses nothing; index 31 should discard the value. */
  lemma CsincConformance(w: Word, c: Cpu)
    ensures ExecCsinc(w, c) == Done(ArmCsinc(w, c)) <==> CsincRight(w, c)
  {
    hide Sf, Field, ConditionHolds, TestRight, Reg;
    CsincWrites(w, c);
    WriteConformance(c, c.f, WidthOf(w), Rd(w), CsincUsed(w, c), CsincValue(w, c, ConditionHolds(Cond(w), c.f)));
  }

  lemma UsedValue(w: Word, c: Cpu)
    ensures CsincUsed(w, c) == CsincValue(w, c, ConditionHolds(Cond(w), c.f))
            <==> TestRight(w, c.f) || CsincValue(w, c, true) == CsincValue(w, c, false)
  {
    hide Sf, Field, ConditionHolds, TestRight, Reg;
  }

  /** CSET writes what the architecture writes except for LS when C and Z agree, for LE when Z and N != V
      disagree, where the destination keeps an upper half, and into index 31. */
  lemma CsetConformance(w: Word, c: Cpu)
    requires IsCset(w)
    ensures Reg(ExecCsinc(w, c).cpu, WidthOf(w), Rd(w)) == CsincValue(w, c, ConditionHolds(Cond(w), c.f))
            <==> (Cond(w) == 8 ==> c.f.c != c.f.z) && (Cond(w) == 12 ==> c.f.z == (c.f.n != c.f.v))
    ensures var wd := WidthOf(w);
            ExecCsinc(w, c) == Done(ArmCsinc(w, c))
            <==> if Rd(w) != 31 then (Cond(w) == 8 ==> c.f.c != c.f.z) && (Cond(w) == 12 ==> c.f.z == (c.f.n != c.f.v))
                                     && Clear(c, wd, Rd(w))
                 else CsincUsed(w, c) == Reg(c, wd, 31)
  {
    hide Sf, Field, ConditionHolds, CsincUsed, Clear;
    CsincConformance(w, c);
    CsincWrites(w, c);
    UsedValue(w, c);
  }

  // ---------- ORR and the shift rules ----------

  /** ORR with the zero register and no shift is MOV: the register is copied unchanged. */
  lemma MovCopies(w: Word, c: Cpu)
    requires Rn(w) == 31 && Imm6(w) == 0
    ensures ExecOrrSh(w, c) == Done(SetReg(c, WidthOf(w), Rd(w), Reg(c, WidthOf(w), Rm(w))))
  {
    hide Sf, Field;
    ShiftByNothing(RuleOf(ShiftBits(w)), WidthOf(w), Reg(c, WidthOf(w), Rm(w)));
  }

  /** ORR bit by bit: where its shift has a meaning, each result bit is the OR of the first operand's bit
      (index 31 reads as zero) and the bit that the shift places there. */
  lemma OrrBits(w: Word, c: Cpu, k: nat)
    requires k < Bits(WidthOf(w))
    ensures var wd := WidthOf(w);
            var rule := RuleOf(ShiftBits(w));
            var o := ExecOrrSh(w, c);
            && (o.status == Continue <==> Imm6(w) < Bits(wd) && !FullWidthShift(rule, wd, Reg(c, wd, Rm(w)), Imm6(w)))
            && (o.status == Continue ==>
                  (IsSet(Reg(o.cpu, wd, Rd(w)), k)
                   <==> (Rn(w) != 31 && IsSet(Reg(c, wd, Rn(w)), k))
                        || ShiftedBit(rule, wd, Reg(c, wd, Rm(w)), Imm6(w), k)))
  {
    hide Sf, Field, IsSet, ShiftedBit, BitOr, Shifted, FullWidthShift;
    var wd := WidthOf(w);
    var rule := RuleOf(ShiftBits(w));
    var x := Reg(c, wd, Rm(w));
    if Imm6(w) < Bits(wd) {
      ShiftBitwise(rule, wd, x, Imm6(w), k);
      OrBit(Reg(c, wd, Rn(w)), ShiftValue(rule, wd, x, Imm6(w)), k);
    }
  }

  lemma {:induction false} RotateZero(wd: Width, a: nat)
    ensures Rotate(wd, 0, a) == 0
  {
    if a > 0 {
      RotateZero(wd, a - 1);
    }
  }

  lemma ShiftOfZero(rule: ShiftRule, wd: Width, a: nat)
    ensures Shifted(rule, wd, 0, a) == 0
  {
    hide Pow2, Rotate;
    RotateZero(wd, a);
    QuotientBelow(0, Pow2(a), 1, Pow2(a));
  }

  /** The shifted second operand as the handler takes it: index 31 is read as the stack pointer. */
  function OrrUsed(w: Word, c: Cpu): (v: nat)
    ensures v < Modulus(WidthOf(w))
  {
    var wd := WidthOf(w);
    ShiftValue(RuleOf(ShiftBits(w)), wd, Reg(c, wd, Rm(w)), Imm6(w))
  }

  predicate OrrRight(w: Word, c: Cpu) {
    var wd := WidthOf(w);
    var n := Source(c, wd, Rn(w));
    && Imm6(w) < Bits(wd)
    && !FullWidthShift(RuleOf(ShiftBits(w)), wd, Reg(c, wd, Rm(w)), Imm6(w))
    && if Rd(w) != 31 then (Rm(w) == 31 ==> OrValue(wd, n, OrrUsed(w, c)) == n) && Clear(c, wd, Rd(w))
       else OrValue(wd, n, OrrUsed(w, c)) == Reg(c, wd, 31)
  }

  /** ORR: the whole state is the architecture's exactly when its shift has a meaning, the second operand,
      if it is index 31, adds no bit of the stack pointer, and the destination loses nothing. */
  lemma OrrConformance(w: Word, c: Cpu)
    ensures ExecOrrSh(w, c) == Done(ArmOrrSh(w, c)) <==> OrrRight(w, c)
  {
    hide Sf, Field, BitOr, Shifted, FullWidthShift, Clear;
    var wd := WidthOf(w);
    var n := Source(c, wd, Rn(w));
    ShiftOfZero(RuleOf(ShiftBits(w)), wd, Imm6(w));
    OrWithZero(n, 0);
    OrWithZero(n, OrrUsed(w, c));
    WriteConformance(c, c.f, wd, Rd(w), OrValue(wd, n, OrrUsed(w, c)), OrValue(wd, n, OrrOperand(w, c)));
  }

  // ---------- MOVZ and ADRP ----------

  lemma MovzProduct(imm: nat, hw: nat)
    requires imm < 0x1_0000 && hw < 2
    ensures imm * Pow2(16 * hw) == if hw == 1 then imm * 0x1_0000 else imm
  {
    hide Pow2;
    Pow2Values();
    assert Pow2(16 * hw) == if hw == 1 then 0x1_0000 else 1;
  }

  lemma MovzOperandValue(w: Word)
    requires Hw(w) < 2
    ensures MovzOperand(w) == if Hw(w) == 1 then Imm16(w) * 0x1_0000 else Imm16(w)
  {
    hide Sf, Field, Pow2, Wrap, Hw, Imm16;
    MovzProduct(Imm16(w), Hw(w));
    SmallWrap(WidthOf(w), if Hw(w) == 1 then Imm16(w) * 0x1_0000 else Imm16(w));
  }

  lemma SmallWrap(wd: Width, x: nat)
    requires x < TWO32
    ensures Wrap(wd, x) == x
  {}

  predicate MovzRight(w: Word, c: Cpu) {
    && Hw(w) < 2
    && if Rd(w) != 31 then Clear(c, WidthOf(w), Rd(w)) else MovzOperand(w) == Reg(c, WidthOf(w), 31)
  }

  /** MOVZ has a meaning only for shifts by 0 and 16; its value is then the architecture's. */
  lemma MovzConformance(w: Word, c: Cpu)
    ensures ExecMovz(w, c).status == Continue <==> Hw(w) < 2
    ensures ExecMovz(w, c) == Done(ArmMovz(w, c)) <==> MovzRight(w, c)
  {
    hide Sf, Field, Clear, Reg, MovzOperand;
    if Hw(w) < 2 {
      MovzOperandValue(w);
      WriteConformance(c, c.f, WidthOf(w), Rd(w), MovzOperand(w), MovzOperand(w));
    }
  }

  predicate AdrpRight(w: Word, c: Cpu) {
    var page := ImmHi(w) * 4 + ImmLo(w);
    if Rd(w) != 31 then page < 2
    else Wrap(W64, c.pc - c.pc % 1024 + if page != 0 then 1024 else 0) == Reg(c, W64, 31)
  }

  /** ADRP: the page arithmetic is the architecture's and the offset is right exactly for the pages 0
      and 1, the truth values. */
  lemma AdrpConformance(w: Word, c: Cpu)
    ensures ExecAdrp(w, c) == Done(ArmAdrp(w, c)) <==> AdrpRight(w, c)
  {
    hide Field, Reg, SignExtend;
    var page := ImmHi(w) * 4 + ImmLo(w);
    var truth := if page != 0 then 1 else 0;
    var here := c.pc - c.pc % 1024;
    PageGap(page, truth);
    SameWord(here + truth * 1024, here + PageOffset(w) * 1024);
    WriteConformance(c, c.f, W64, Rd(w), Wrap(W64, here + truth * 1024), Wrap(W64, here + PageOffset(w) * 1024));
  }

  lemma PageGap(page: nat, truth: nat)
    requires page < 0x20_0000 && truth == if page != 0 then 1 else 0
    ensures -0x10_0000 <= SignExtend(page, 21) < 0x10_0000
    ensures SignExtend(page, 21) == truth <==> page < 2
  {
    hide Pow2;
    Pow2At21();
  }

  /** Two values less than 2^64 apart are the same register value only when equal. */
  lemma SameWord(x: int, y: int)
    requires -TWO64 < x - y < TWO64
    ensures Wrap(W64, x) == Wrap(W64, y) <==> x == y
  {
    if x <= y {
      WrapShift(W64, x, y - x);
    } else {
      WrapShift(W64, y, x - y);
    }
  }

  // ---------- branches ----------

  /** One turn on B or BL moves the PC by exactly the signed 26-bit displacement, in words; BL leaves the
      address behind it in the link register. */
  lemma BranchMoves(prog: seq<Word>, c: Cpu, w: Word)
    requires c.pc < |prog| && prog[c.pc] == w && HandlerOf(w) in {Some(B), Some(Bl)}
    ensures var o := Step(prog, c);
            && o.status == Continue
            && o.cpu.pc == Wrap(W64, c.pc + SignExtend(Imm26(w), 26))
            && o.cpu.r == (if HandlerOf(w) == Some(Bl) then c.r[LR := Wrap(W64, c.pc + 1)] else c.r)
            && o.cpu.mem == c.mem && o.cpu.f == c.f
  {
    hide Field, HandlerOf, SignExtend, ExecRet, ExecTbnz, ExecCsinc, ExecStp, ExecLdp, ExecStrImm, ExecLdrImm;
    hide ExecAddImm, ExecAddsImm, ExecSubImm, ExecSubsImm, ExecMovz, ExecAdrp, ExecOrrSh, ExecStur, ExecLdur;
    WrapTwice(c.pc + SignExtend(Imm26(w), 26));
  }

  /** For every k from -2^25 to 2^25 - 1, a turn on the branch assembled for k moves the PC by k words. */
  lemma BranchBy(prog: seq<Word>, c: Cpu, link: bv1, k: int, imm: bv26)
    requires -0x200_0000 <= k < 0x200_0000 && imm as nat == k % 0x400_0000
    requires c.pc < |prog| && prog[c.pc] == BranchWord(link, imm)
    ensures Step(prog, c)
            == Done(c.(pc := Wrap(W64, c.pc + k), r := if On(link) then c.r[LR := Wrap(W64, c.pc + 1)] else c.r))
  {
    BranchRoundTrip(link, imm);
    DisplacementEncodes(k, imm as nat);
    hide HandlerOf, Field, BranchWord, Step, SignExtend, Wrap;
    BranchMoves(prog, c, prog[c.pc]);
  }

  lemma WrapTwice(x: int)
    ensures Wrap(W64, Wrap(W64, x - 1) + 1) == Wrap(W64, x)
  {}

  /** Every displacement from -2^25 to 2^25 - 1 is encodable, and is the one executed. */
  lemma DisplacementEncodes(k: int, imm: nat)
    requires -0x200_0000 <= k < 0x200_0000 && imm == k % 0x400_0000
    ensures imm < 0x400_0000 && SignExtend(imm, 26) == k
  {
    hide Pow2;
    Pow2At26();
  }

  predicate TbnzRight(w: Word, c: Cpu) {
    IsSet(Reg(c, WidthOf(w), Rd(w)), (if Sf(w) then 32 else 0) + B40(w)) ==>
      if Rd(w) != 31 then Imm14(w) < 0x2000 else Imm14(w) == 1
  }

  /** A taken TBNZ moves the PC by its unsigned 14-bit field, which is the architecture's signed
      displacement exactly for forward branches; index 31 tests the stack pointer instead of zero. */
  lemma TbnzMoves(prog: seq<Word>, c: Cpu, w: Word)
    requires c.pc < |prog| && prog[c.pc] == w && HandlerOf(w) == Some(Tbnz)
    ensures var o := Step(prog, c);
            var taken := IsSet(Reg(c, WidthOf(w), Rd(w)), (if Sf(w) then 32 else 0) + B40(w));
            && o.status == Continue
            && o.cpu.pc == Wrap(W64, c.pc + if taken then Imm14(w) else 1)
            && (taken ==> (o.cpu.pc == Wrap(W64, c.pc + SignExtend(Imm14(w), 14)) <==> Imm14(w) < 0x2000))
            && (o == Done(ArmTbnz(w, c)) <==> TbnzRight(w, c))
  {
    hide Field, HandlerOf, IsSet, Sf, Pow2, Step, SignExtend, Wrap;
    TbnzStep(prog, c, w);
    ForwardOnly(c.pc, Imm14(w));
    ZeroBit((if Sf(w) then 32 else 0) + B40(w));
    SameWord(c.pc + Imm14(w), c.pc + 1);
  }

  lemma TbnzStep(prog: seq<Word>, c: Cpu, w: Word)
    requires c.pc < |prog| && prog[c.pc] == w && HandlerOf(w) == Some(Tbnz)
    ensures var taken := IsSet(Reg(c, WidthOf(w), Rd(w)), (if Sf(w) then 32 else 0) + B40(w));
            Step(prog, c) == Done(c.(pc := Wrap(W64, c.pc + if taken then Imm14(w) else 1)))
  {
    hide Field, HandlerOf, IsSet, Sf, Reg, ExecTbnz, Imm14, B40;
    TbnzExec(w, c);
    WrapTwice(c.pc + Imm14(w));
  }

  lemma TbnzExec(w: Word, c: Cpu)
    ensures var taken := IsSet(Reg(c, WidthOf(w), Rd(w)), (if Sf(w) then 32 else 0) + B40(w));
            ExecTbnz(w, c) == Done(if taken then c.(pc := Wrap(W64, c.pc + Imm14(w) - 1)) else c)
  {
    hide Field, IsSet, Sf, Reg;
  }

  /** A turn on RET: it halts on a zero register; otherwise control goes where the architecture says, unless
      the register is index 31 (the stack pointer here, zero there), and the register is cleared, which the
      architecture never does. */
  lemma RetConformance(prog: seq<Word>, c: Cpu, w: Word)
    requires c.pc < |prog| && prog[c.pc] == w && HandlerOf(w) == Some(Ret)
    ensures var o := Step(prog, c);
            && (o.status == Continue <==> c.r[Rn(w)] != 0)
            && (o.status == Continue ==>
                  && o.cpu != ArmRet(w, c)
                  && (o.cpu == ArmRet(w, c).(r := c.r[Rn(w) := 0]) <==> Rn(w) != 31))
  {
    hide Field, HandlerOf;
    RetStepIs(prog, c, w);
  }

  lemma RetStepIs(prog: seq<Word>, c: Cpu, w: Word)
    requires c.pc < |prog| && prog[c.pc] == w && HandlerOf(w) == Some(Ret)
    ensures Step(prog, c)
            == if c.r[Rn(w)] == 0 then Outcome(Stop, c) else Done(c.(pc := c.r[Rn(w)], r := c.r[Rn(w) := 0]))
  {
    hide Field, HandlerOf;
  }

  lemma ForwardOnly(pc: u64, imm: nat)
    requires imm < 0x4000
    ensures Wrap(W64, pc + imm) == Wrap(W64, pc + SignExtend(imm, 14)) <==> imm < 0x2000
  {
    hide Pow2;
    Pow2At14();
  }
}
