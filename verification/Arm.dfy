/** The same instructions as the Arm Architecture Reference Manual (A-profile, A64 base instructions) has
    them: index 31 is the zero register or the stack pointer, depending on the operand, and a 32-bit
    result clears the upper half of its register. Addresses of code are counted in words. */
module Arm {
  import opened Ints
  import opened Shifts
  import opened Arith
  import opened Fields
  import opened Isa
  import opened Patterns

  // ---------- registers ----------

  /** A destination for which index 31 is the zero register: the result is discarded. */
  function WriteX(c: Cpu, wd: Width, i: nat, v: nat): Cpu
    requires i < 32 && v < Modulus(wd)
  {
    if i == 31 then c else c.(r := c.r[i := v])
  }

  /** A destination for which index 31 is the stack pointer. */
  function WriteSp(c: Cpu, wd: Width, i: nat, v: nat): Cpu
    requires i < 32 && v < Modulus(wd)
  {
    c.(r := c.r[i := v])
  }

  // ---------- data processing ----------

  function Sum(wd: Width, x: nat, y: nat, carry: nat): (v: nat)
    ensures v < Modulus(wd)
  {
    AddWithCarry(wd, x, y, carry).0
  }

  function ArmAddImm(w: Word, c: Cpu): Cpu {
    var wd := WidthOf(w);
    WriteSp(c, wd, Rd(w), Sum(wd, Reg(c, wd, Rn(w)), ShiftedImm12(w), 0))
  }

  function ArmSubImm(w: Word, c: Cpu): Cpu {
    var wd := WidthOf(w);
    WriteSp(c, wd, Rd(w), Sum(wd, Reg(c, wd, Rn(w)), Not(wd, ShiftedImm12(w)), 1))
  }

  function ArmAddsImm(w: Word, c: Cpu): Cpu {
    var wd := WidthOf(w);
    var x := Reg(c, wd, Rn(w));
    WriteX(c.(f := AddFlags(wd, x, ShiftedImm12(w))), wd, Rd(w), Sum(wd, x, ShiftedImm12(w), 0))
  }

  function ArmSubsImm(w: Word, c: Cpu): Cpu {
    var wd := WidthOf(w);
    var x := Reg(c, wd, Rn(w));
    WriteX(c.(f := SubFlags(wd, x, ShiftedImm12(w))), wd, Rd(w), Sum(wd, x, Not(wd, ShiftedImm12(w)), 1))
  }

  function CsincValue(w: Word, c: Cpu, holds: bool): (v: nat)
    ensures v < Modulus(WidthOf(w))
  {
    var wd := WidthOf(w);
    if holds then Source(c, wd, Rn(w)) else Wrap(wd, Source(c, wd, Rm(w)) + 1)
  }

  function ArmCsinc(w: Word, c: Cpu): Cpu {
    WriteX(c, WidthOf(w), Rd(w), CsincValue(w, c, ConditionHolds(Cond(w), c.f)))
  }

  /** What each shift rule does to the bits is `Bitwise.ShiftBitwise`. */
  function OrrOperand(w: Word, c: Cpu): (v: nat)
    ensures v < Modulus(WidthOf(w))
  {
    var wd := WidthOf(w);
    ShiftValue(RuleOf(ShiftBits(w)), wd, Source(c, wd, Rm(w)), Imm6(w))
  }

  function ArmOrrSh(w: Word, c: Cpu): Cpu {
    var wd := WidthOf(w);
    WriteX(c, wd, Rd(w), OrValue(wd, Source(c, wd, Rn(w)), OrrOperand(w, c)))
  }

  function MovzOperand(w: Word): (v: nat)
    ensures v < Modulus(WidthOf(w))
  {
    Wrap(WidthOf(w), Imm16(w) * Pow2(16 * Hw(w)))
  }

  function ArmMovz(w: Word, c: Cpu): Cpu {
    WriteX(c, WidthOf(w), Rd(w), MovzOperand(w))
  }

  /** The 21-bit page offset `immhi:immlo`. */
  function PageOffset(w: Word): int {
    SignExtend(ImmHi(w) * 4 + ImmLo(w), 21)
  }

  /** A page holds 1024 words. */
  function ArmAdrp(w: Word, c: Cpu): Cpu {
    WriteX(c, W64, Rd(w), Wrap(W64, c.pc - c.pc % 1024 + PageOffset(w) * 1024))
  }

  // ---------- branches, with the PC of the next turn ----------

  function ArmTbnz(w: Word, c: Cpu): Cpu {
    var bit := (if Sf(w) then 32 else 0) + B40(w);
    c.(pc := Wrap(W64, c.pc + if IsSet(Source(c, WidthOf(w), Rd(w)), bit) then SignExtend(Imm14(w), 14) else 1))
  }

  function ArmRet(w: Word, c: Cpu): Cpu {
    c.(pc := Source(c, W64, Rn(w)))
  }

  // ---------- loads and stores ----------

  /** The 64-bit address, as the signed offset of a stack access. The base is never cut to 32 bits. */
  function ArmAddress(c: Cpu, n: nat, disp: int): int
    requires n < 32
  {
    Signed(W64, Wrap(W64, c.r[n] + disp))
  }

  function ArmStore(c: Cpu, wd: Width, n: nat, disp: int, t: nat): Outcome
    requires n < 32 && t < 32
  {
    StoreOne(c, wd, ArmAddress(c, n, disp), Source(c, wd, t))
  }

  function ArmLoad(c: Cpu, wd: Width, n: nat, disp: int, t: nat): Outcome
    requires n < 32 && t < 32
  {
    var off := ArmAddress(c, n, disp);
    var s := Access(off, Bytes(wd));
    if s != Continue then Outcome(s, c) else Done(WriteX(c, wd, t, Get(c, wd, off)))
  }

  /** The base register after an indexed access. */
  function ArmWriteback(c: Cpu, n: nat, step: int): Cpu
    requires n < 32
  {
    WriteSp(c, W64, n, Wrap(W64, c.r[n] + step))
  }

  /** What an indexed access adds to the base for its address: nothing for post-index. */
  function IndexDisplacement(form: Form, w: Word): int {
    if form == PostIndex then 0 else SignExtend(Imm9(w), 9)
  }

  function ArmStrIndexed(w: Word, c: Cpu, wd: Width, form: Form): Outcome {
    var o := ArmStore(c, wd, Rn(w), IndexDisplacement(form, w), Rd(w));
    if o.status != Continue then o else Done(ArmWriteback(o.cpu, Rn(w), SignExtend(Imm9(w), 9)))
  }

  /** The base is written back before the loaded value arrives. */
  function ArmLdrIndexed(w: Word, c: Cpu, wd: Width, form: Form): Outcome {
    var off := ArmAddress(c, Rn(w), IndexDisplacement(form, w));
    var s := Access(off, Bytes(wd));
    if s != Continue then Outcome(s, c)
    else Done(WriteX(ArmWriteback(c, Rn(w), SignExtend(Imm9(w), 9)), wd, Rd(w), Get(c, wd, off)))
  }

  /** The signed, scaled offset of a pair. */
  function PairStep(w: Word, wd: Width): int {
    SignExtend(Imm7(w), 7) * Bytes(wd)
  }

  /** What a pair adds to the base for its address: nothing for post-index. */
  function PairDisplacement(form: Form, w: Word, wd: Width): int {
    if form == PostIndex then 0 else PairStep(w, wd)
  }

  function ArmPairAccess(c: Cpu, wd: Width, n: nat, disp: int): Status
    requires n < 32
  {
    var first := Access(ArmAddress(c, n, disp), Bytes(wd));
    if first != Continue then first else Access(ArmAddress(c, n, disp + Bytes(wd)), Bytes(wd))
  }

  function ArmStp(w: Word, c: Cpu, wd: Width, form: Form): Outcome {
    var disp := PairDisplacement(form, w, wd);
    var s := ArmPairAccess(c, wd, Rn(w), disp);
    if s != Continue then Outcome(s, c)
    else
      var c1 := Put(c, wd, ArmAddress(c, Rn(w), disp), Source(c, wd, Rd(w)));
      var c2 := Put(c1, wd, ArmAddress(c, Rn(w), disp + Bytes(wd)), Source(c, wd, Rt2(w)));
      Done(if Indexed(form) then ArmWriteback(c2, Rn(w), PairStep(w, wd)) else c2)
  }

  function ArmLdp(w: Word, c: Cpu, wd: Width, form: Form): Outcome {
    var disp := PairDisplacement(form, w, wd);
    var s := ArmPairAccess(c, wd, Rn(w), disp);
    if s != Continue then Outcome(s, c)
    else
      var v1 := Get(c, wd, ArmAddress(c, Rn(w), disp));
      var v2 := Get(c, wd, ArmAddress(c, Rn(w), disp + Bytes(wd)));
      var d := if Indexed(form) then ArmWriteback(c, Rn(w), PairStep(w, wd)) else c;
      Done(WriteX(WriteX(d, wd, Rd(w), v1), wd, Rt2(w), v2))
  }
}
