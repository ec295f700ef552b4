/** For the departures from the architecture, one dispatched word and one state each. */
module Witnesses {
  import opened Patterns
  import opened Ints
  import opened Shifts
  import opened Arith
  import opened Fields
  import opened Dispatcher
  import opened Isa
  import opened Arm
  import opened Assembler
  import opened Conformance
  import opened Addressing

  lemma EqualOperands(x: nat)
    requires x < TWO64
    ensures SubFlags(W64, x, x) == Flags(false, true, true, false) && Sum(W64, x, Not(W64, x), 1) == 0
  {}

  /** CMP X0, #5 with X0 = 5 moves the stack pointer to zero. */
  lemma CmpMovesSp(c: Cpu)
    requires c.r[0] == 5
    ensures Exec(0xF100141F, c) == Done(c.(f := Flags(false, true, true, false), r := c.r[31 := 0]))
    ensures ArmSubsImm(0xF100141F, c) == c.(f := Flags(false, true, true, false))
  {
    assert 0xF100141F == AddSubWord(1, 1, 1, 0, 5, 0, 31);
    AddSubRoundTrip(1, 1, 1, 0, 5, 0, 31);
    EqualOperands(5);
    hide HandlerOf, Field, AddSubWord, Sf, Sh, SubFlags, Sum;
    assert (5 as bv12) as nat == 5 && (0 as bv5) as nat == 0 && (31 as bv5) as nat == 31;
  }

  /** SUBS X0, X1, #1, LSL #12 with X1 = 4096 sets Z and writes 4095. */
  lemma ShiftedSubs(c: Cpu)
    requires c.r[1] == 4096
    ensures Exec(0xF1400420, c) == Done(c.(f := Flags(false, true, true, false), r := c.r[0 := 4095]))
    ensures ArmSubsImm(0xF1400420, c) == c.(f := Flags(false, true, true, false), r := c.r[0 := 0])
  {
    assert 0xF1400420 == AddSubWord(1, 1, 1, 1, 1, 1, 0);
    AddSubRoundTrip(1, 1, 1, 1, 1, 1, 0);
    EqualOperands(4096);
    hide HandlerOf, Field, AddSubWord, Sf, Sh, SubFlags, Sum;
    assert (1 as bv12) as nat == 1 && (0 as bv5) as nat == 0 && (1 as bv5) as nat == 1;
  }

  /** ADDS X0, X1, #0 with the smallest X1 sets V. */
  lemma NegativeAdds(c: Cpu)
    requires c.r[1] == Half(W64)
    ensures Exec(0xB1000020, c) == Done(c.(f := Flags(true, false, false, true), r := c.r[0 := Half(W64)]))
    ensures ArmAddsImm(0xB1000020, c) == c.(f := Flags(true, false, false, false), r := c.r[0 := Half(W64)])
  {
    assert 0xB1000020 == AddSubWord(1, 0, 1, 0, 0, 1, 0);
    AddSubRoundTrip(1, 0, 1, 0, 0, 1, 0);
    hide HandlerOf, Field, AddSubWord, Sf, Sh;
    assert (0 as bv12) as nat == 0 && (0 as bv5) as nat == 0 && (1 as bv5) as nat == 1;
  }

  /** ADD W0, W1, #0 keeps the upper half of X0. */
  lemma UpperHalfStays(c: Cpu)
    requires c.r[0] == TWO32 && c.r[1] == 0
    ensures Exec(0x11000020, c) == Done(c)
    ensures ArmAddImm(0x11000020, c) == c.(r := c.r[0 := 0])
  {
    assert 0x11000020 == AddSubWord(0, 0, 0, 0, 0, 1, 0);
    AddSubRoundTrip(0, 0, 0, 0, 0, 1, 0);
    hide HandlerOf, Field, AddSubWord, Sf, Sh;
    assert (0 as bv12) as nat == 0 && (0 as bv5) as nat == 0 && (1 as bv5) as nat == 1;
    assert c.r[0 := c.r[0]] == c.r;
  }

  /** CSET X0, LS after a comparison of equal operands writes 0 instead of 1, and so does CSET X0, LE. */
  lemma EqualIsNotLowerOrSame(c: Cpu)
    requires c.f == SubFlags(W64, 5, 5)
    ensures Exec(0x9A9F87E0, c) == Exec(0x9A9FC7E0, c) == Done(c.(r := c.r[0 := 0]))
    ensures ArmCsinc(0x9A9F87E0, c) == ArmCsinc(0x9A9FC7E0, c) == c.(r := c.r[0 := 1])
  {
    assert 0x9A9F87E0 == CsincWord(1, 31, 8, 31, 0) && 0x9A9FC7E0 == CsincWord(1, 31, 12, 31, 0);
    CsincRoundTrip(1, 31, 8, 31, 0);
    CsincRoundTrip(1, 31, 12, 31, 0);
    hide HandlerOf, Field, CsincWord, Sf;
    assert (31 as bv5) as nat == 31 && (8 as bv4) as nat == 8 && (12 as bv4) as nat == 12 && (0 as bv5) as nat == 0;
  }

  /** MOV X0, XZR copies the stack pointer. */
  lemma ZeroMoveCopiesSp(c: Cpu)
    ensures Exec(0xAA1F03E0, c) == Done(c.(r := c.r[0 := c.r[31]]))
    ensures ArmOrrSh(0xAA1F03E0, c) == c.(r := c.r[0 := 0])
  {
    assert 0xAA1F03E0 == OrrWord(1, 0, 31, 0, 31, 0);
    OrrRoundTrip(1, 0, 31, 0, 31, 0);
    hide HandlerOf, Field, OrrWord, Sf;
    assert (31 as bv5) as nat == 31 && (0 as bv6) as nat == 0 && (0 as bv2) as nat == 0 && (0 as bv5) as nat == 0;
    MovCopies(0xAA1F03E0, c);
    ShiftOfZero(LSL, W64, 0);
    hide Shifted;
  }

  /** ADRP X0 for the page two ahead yields the page one ahead. */
  lemma SecondPage(c: Cpu)
    requires c.pc == 0
    ensures Exec(0xD0000000, c) == Done(c.(r := c.r[0 := 1024]))
    ensures ArmAdrp(0xD0000000, c) == c.(r := c.r[0 := 2048])
  {
    assert 0xD0000000 == AdrpWord(2, 0, 0);
    AdrpRoundTrip(2, 0, 0);
    hide HandlerOf, Field, AdrpWord, Pow2;
    assert (2 as bv2) as nat == 2 && (0 as bv19) as nat == 0 && (0 as bv5) as nat == 0;
    Pow2At21();
  }

  /** TBNZ W0, #0 one word back, taken, moves 16383 words ahead. */
  lemma BackwardTbnz(prog: seq<Word>, c: Cpu)
    requires c.pc == 1 && |prog| > 1 && prog[1] == 0x3707FFE0 && c.r[0] == 1
    ensures Step(prog, c).status == Continue && Step(prog, c).cpu.pc == 0x4000
    ensures ArmTbnz(0x3707FFE0, c).pc == 0
  {
    assert 0x3707FFE0 == TbnzWord(0, 0, 0x3FFF, 0);
    TbnzRoundTrip(0, 0, 0x3FFF, 0);
    hide HandlerOf, Field, TbnzWord, Sf, Step;
    assert (0x3FFF as bv14) as nat == 0x3FFF && (0 as bv5) as nat == 0;
    TbnzMoves(prog, c, 0x3707FFE0);
    Pow2At14();
    assert IsSet(1, 0);
  }

  lemma SmallOffset(wd: Width, base: nat, disp: nat)
    requires base < 2 * STACK_SIZE && disp < 2048
    ensures Address(wd, base, disp) == base + disp
  {}

  /** STP X29, X30, [SP, #-16]!, the usual first instruction of a function, throws at the initial stack
      pointer of a session. */
  lemma PushThrows(c: Cpu)
    requires c.r[31] == STACK_SIZE - 1
    ensures Exec(0xA9BF7BFD, c) == Outcome(Throw, c)
  {
    assert 0xA9BF7BFD == PairWord(1, 3, 0, 126, 30, 31, 29);
    PairHandlerRoundTrip(1, 3, 0, 126, 30, 31, 29);
    PairRoundTrip(1, 3, 0, 126, 30, 31, 29);
    SmallOffset(W64, STACK_SIZE - 1, 1008);
    hide HandlerOf, Field, PairWord, PairWidth, StpForm, StpWrite, Address, Rn, Imm7;
    assert (126 as bv7) as nat == 126 && (31 as bv5) as nat == 31;
  }

  /** STP W2, W1, [X0, #16] with X0 = 2^32 uses the cell at 16. */
  lemma CutBase(c: Cpu)
    requires c.r[0] == TWO32
    ensures HandlerOf(0x29020402) == Some(Stp) && ExecStp(0x29020402, c).status == Continue
    ensures Address(W32, Reg(c, W32, Rn(0x29020402)), Imm7(0x29020402) * 4) == 16
    ensures ArmAddress(c, Rn(0x29020402), 16) == TWO32 + 16
  {
    assert 0x29020402 == PairWord(0, 2, 0, 4, 1, 0, 2);
    PairHandlerRoundTrip(0, 2, 0, 4, 1, 0, 2);
    PairRoundTrip(0, 2, 0, 4, 1, 0, 2);
    hide HandlerOf, Field, PairWord, PairWidth, StpForm, Put;
    assert (4 as bv7) as nat == 4 && (0 as bv5) as nat == 0;
  }

  /** LDR XZR, [X0] overwrites the stack pointer with the loaded value. */
  lemma LoadOverwritesSp(c: Cpu)
    requires c.r[0] == 0
    ensures Exec(0xF940001F, c) == Done(c.(r := c.r[31 := Get(c, W64, 0)]))
    ensures ArmLoad(c, W64, 0, 0, 31) == Done(c)
  {
    assert 0xF940001F == UnsignedWord(1, 1, 0, 0, 31);
    UnsignedRoundTrip(1, 1, 0, 0, 31);
    hide HandlerOf, Field, UnsignedWord, SingleWidth, LdrUnsignedOffset, Get;
    assert (0 as bv12) as nat == 0 && (0 as bv5) as nat == 0 && (31 as bv5) as nat == 31;
  }

  /** STR W0, [X1, #-4]! with X1 = 8 stores at 516 and leaves 516 in X1. */
  lemma NegativePreIndex(c: Cpu)
    requires c.r[1] == 8
    ensures Exec(0xB81FCC20, c) == Done(Put(c, W32, 516, c.r[0] % TWO32).(r := c.r[1 := 516]))
    ensures ArmAddress(c, 1, SignExtend(508, 9)) == 4
  {
    assert 0xB81FCC20 == IndexedWord(0, 0, 508, 1, 1, 0);
    IndexedHandlerRoundTrip(0, 0, 508, 1, 1, 0);
    IndexedFormRoundTrip(0, 0, 508, 1, 1, 0);
    SmallOffset(W32, 8, 508);
    NegativeArm(c);
    hide HandlerOf, Field, IndexedWord, SingleWidth, StrIndexed, StrUnsignedOffset;
    hide Put, Address, ArmAddress, Rn, Rd, Imm9;
    assert (508 as bv9) as nat == 508 && (1 as bv5) as nat == 1 && (0 as bv5) as nat == 0;
  }

  lemma NegativeArm(c: Cpu)
    requires c.r[1] == 8
    ensures ArmAddress(c, 1, SignExtend(508, 9)) == 4
  {
    hide Pow2;
    Pow2At9();
  }

  /** LDR X0, [X1], #8 is refused. */
  lemma PostIndexRefused(c: Cpu)
    requires c.r[1] == 0
    ensures Exec(0xF8408420, c) == Outcome(Stop, c)
  {
    assert 0xF8408420 == IndexedWord(1, 1, 8, 0, 1, 0);
    IndexedHandlerRoundTrip(1, 1, 8, 0, 1, 0);
    IndexedFormRoundTrip(1, 1, 8, 0, 1, 0);
    SmallOffset(W64, 0, 8);
    hide HandlerOf, Field, IndexedWord, SingleWidth, LdrIndexed, LdrUnsignedOffset, Get, Address, Rn, Rd, Imm9;
    assert (8 as bv9) as nat == 8 && (1 as bv5) as nat == 1;
  }
}
