/** The instruction words and states of the repository's own tests (tests/src/ops_tests.cpp). The LDUR test
    is `LoadStore.LdurExample`. */
module Samples {
  import opened Patterns
  import opened Ints
  import opened Arith
  import opened Memory
  import opened Isa
  import opened Assembler
  import opened Instructions
  import opened Shifts
  import opened Conformance
  import Dispatcher
  import Fields
  import LoadStore

  /** ADD W0, W8, #2, LSL #12. */
  lemma AddTest(c: Cpu)
    requires c.r[0] == 0 && c.r[8] == 0
    ensures Exec(0x11400900, c) == Done(c.(r := c.r[0 := 8192]))
  {
    hide Exec;
    assert 0x11400900 == AddSubWord(0, 0, 0, 1, 2, 8, 0);
    hide AddSubWord;
    assert (2 as bv12) as nat == 2 && (8 as bv5) as nat == 8 && (0 as bv5) as nat == 0;
    AddSubDoes(c, 0, 0, 1, 2, 8, 0);
  }

  /** SUB W8, W8, #50. */
  lemma SubTest(c: Cpu)
    requires c.r[8] == 500
    ensures Exec(0x5100C908, c) == Done(c.(r := c.r[8 := 450]))
  {
    hide Exec;
    assert 0x5100C908 == AddSubWord(0, 1, 0, 0, 50, 8, 8);
    hide AddSubWord;
    assert (50 as bv12) as nat == 50 && (8 as bv5) as nat == 8;
    AddSubDoes(c, 0, 1, 0, 50, 8, 8);
  }

  /** SUBS W8, W8, #50: N, Z and V clear, C set. */
  lemma SubsTest(c: Cpu)
    requires c.r[8] == 500
    ensures Exec(0x7100C908, c) == Done(c.(f := Flags(false, false, true, false), r := c.r[8 := 450]))
  {
    hide Exec;
    assert 0x7100C908 == AddSubWord(0, 1, 1, 0, 50, 8, 8);
    hide AddSubWord;
    assert (50 as bv12) as nat == 50 && (8 as bv5) as nat == 8;
    AddsSubsDoes(c, 0, 1, 0, 50, 8, 8);
  }

  /** MOVZ W0, #0. */
  lemma MovzTest(c: Cpu)
    requires c.r[0] == 0xFFFF
    ensures Exec(0x52800000, c) == Done(c.(r := c.r[0 := 0]))
  {
    hide Exec;
    assert 0x52800000 == MovzWord(0, 0, 0, 0);
    hide MovzWord;
    assert (0 as bv16) as nat == 0 && (0 as bv5) as nat == 0 && (0 as bv2) as nat == 0;
    MovzDoes(c, 0, 0, 0, 0);
  }

  /** ADRP X9 for the next page, at 0x100003f68: the word index of 0x100004000. */
  lemma AdrpTest(c: Cpu)
    requires c.pc == 0x1_0000_3F68 / 4
    ensures Exec(0xB0000009, c) == Done(c.(r := c.r[9 := 0x1_0000_4000 / 4]))
  {
    hide Exec;
    assert 0xB0000009 == AdrpWord(1, 0, 9);
    hide AdrpWord;
    assert (1 as bv2) as nat == 1 && (9 as bv5) as nat == 9;
    AdrpDoes(c, 1, 0, 9);
  }

  /** CSET X9, NE and CSET X10, EQ with Z clear. */
  lemma CsetTests(c: Cpu)
    requires !c.f.z
    ensures Exec(0x9A9F07E9, c) == Done(c.(r := c.r[9 := 1]))
    ensures Exec(0x9A9F17EA, c) == Done(c.(r := c.r[10 := 0]))
  {
    hide Exec;
    assert 0x9A9F07E9 == CsincWord(1, 31, 0, 31, 9) && 0x9A9F17EA == CsincWord(1, 31, 1, 31, 10);
    hide CsincWord;
    assert (31 as bv5) as nat == 31 && (0 as bv4) as nat == 0 && (1 as bv4) as nat == 1;
    assert (9 as bv5) as nat == 9 && (10 as bv5) as nat == 10;
    CsincDoes(c, 1, 31, 0, 31, 9);
    CsincDoes(c, 1, 31, 1, 31, 10);
  }

  /** ORR X8, XZR, X0. */
  lemma MoveTest(c: Cpu)
    requires c.r[0] == 0x1234
    ensures Exec(0xAA0003E8, c) == Done(c.(r := c.r[8 := 0x1234]))
  {
    hide Exec;
    assert 0xAA0003E8 == OrrWord(1, 0, 0, 0, 31, 8);
    OrrRoundTrip(1, 0, 0, 0, 31, 8);
    hide OrrWord;
    assert (31 as bv5) as nat == 31 && (8 as bv5) as nat == 8 && (0 as bv5) as nat == 0 && (0 as bv6) as nat == 0;
    OrrMoves(0xAA0003E8, c);
  }

  lemma OrrMoves(w: Word, c: Cpu)
    requires Dispatcher.HandlerOf(w) == Patterns.Some(Dispatcher.OrrSh) && Fields.Sf(w)
    requires Fields.Rn(w) == 31 && Fields.Imm6(w) == 0
    ensures Exec(w, c) == Done(c.(r := c.r[Fields.Rd(w) := c.r[Fields.Rm(w)]]))
  {
    hide Exec, ExecOrrSh, Fields.Field, Fields.Sf;
    HandledBy(w, c, Dispatcher.OrrSh);
    MovCopies(w, c);
  }

  /** ORR X9, X2, X3, LSL #4. */
  lemma LslTest(c: Cpu)
    requires c.r[2] == 1 && c.r[3] == 1
    ensures Exec(0xAA031049, c) == Done(c.(r := c.r[9 := 0x11]))
  {
    hide Exec;
    assert 0xAA031049 == OrrWord(1, 0, 3, 4, 2, 9);
    OrrRoundTrip(1, 0, 3, 4, 2, 9);
    hide OrrWord, BitOr;
    assert (2 as bv5) as nat == 2 && (3 as bv5) as nat == 3 && (9 as bv5) as nat == 9;
    assert (4 as bv6) as nat == 4 && (0 as bv2) as nat == 0;
    ShiftedOperands(0xAA031049, c);
    SmallPowers();
    OrOfSamples();
  }

  /** ORR X9, X2, X3, LSR #3. */
  lemma LsrTest(c: Cpu)
    requires c.r[2] == 0x10 && c.r[3] == 0x18
    ensures Exec(0xAA430C49, c) == Done(c.(r := c.r[9 := 0x13]))
  {
    hide Exec;
    assert 0xAA430C49 == OrrWord(1, 1, 3, 3, 2, 9);
    OrrRoundTrip(1, 1, 3, 3, 2, 9);
    hide OrrWord, BitOr;
    assert (2 as bv5) as nat == 2 && (3 as bv5) as nat == 3 && (9 as bv5) as nat == 9;
    assert (3 as bv6) as nat == 3 && (1 as bv2) as nat == 1;
    ShiftedOperands(0xAA430C49, c);
    SmallPowers();
    OrOfSamples();
  }

  /** ORR X9, X2, X3, ASR #2. */
  lemma AsrTest(c: Cpu)
    requires c.r[2] == 0 && c.r[3] == 0x8000_0000_0000_0010
    ensures Exec(0xAA830849, c) == Done(c.(r := c.r[9 := 0xE000_0000_0000_0004]))
  {
    hide Exec;
    assert 0xAA830849 == OrrWord(1, 2, 3, 2, 2, 9);
    OrrRoundTrip(1, 2, 3, 2, 2, 9);
    hide OrrWord, BitOr;
    assert (2 as bv5) as nat == 2 && (3 as bv5) as nat == 3 && (9 as bv5) as nat == 9;
    assert (2 as bv6) as nat == 2 && (2 as bv2) as nat == 2;
    ShiftedOperands(0xAA830849, c);
    SmallPowers();
    OrOfSamples();
  }

  /** ORR on 64 bits, with a shift that has a meaning. */
  lemma ShiftedOperands(w: Word, c: Cpu)
    requires Dispatcher.HandlerOf(w) == Patterns.Some(Dispatcher.OrrSh) && Fields.Sf(w)
    requires Fields.Rn(w) != 31 && 0 < Fields.Imm6(w) < 63
    ensures var v := ShiftValue(RuleOf(Fields.ShiftBits(w)), W64, c.r[Fields.Rm(w)], Fields.Imm6(w));
            Exec(w, c) == Done(SetReg(c, W64, Fields.Rd(w), OrValue(W64, c.r[Fields.Rn(w)], v)))
  {
    hide Exec, Fields.Field, Fields.Sf, Shifted, BitOr;
    HandledBy(w, c, Dispatcher.OrrSh);
  }

  lemma SmallPowers()
    ensures Pow2(2) == 4 && Pow2(3) == 8 && Pow2(4) == 16
  {}

  lemma OrOfSamples()
    ensures BitOr(1, 16) == 0x11 && BitOr(0x10, 3) == 0x13 && BitOr(0, 0xE000_0000_0000_0004) == 0xE000_0000_0000_0004
  {}

  /** STR W8, [SP, #8] with SP = 0, then the cell at 8 holds the register. */
  lemma StrTest(c: Cpu)
    requires c.r[8] % TWO32 == 0xFFFF && c.r[31] % TWO32 == 0
    ensures Exec(0xB9000BE8, c) == Done(c.(mem := Store(c.mem, 8, 4, 0xFFFF)))
    ensures Load(Store(c.mem, 8, 4, 0xFFFF), 8, 4) == 0xFFFF
  {
    hide Exec;
    assert 0xB9000BE8 == UnsignedWord(0, 0, 2, 31, 8);
    hide UnsignedWord, Store, Load;
    assert (2 as bv12) as nat == 2 && (31 as bv5) as nat == 31 && (8 as bv5) as nat == 8;
    UnsignedInStack(c, 0, 0, 2, 31, 8);
    Pow256Values();
    LoadStored(c.mem, 8, 4, 0xFFFF);
  }

  /** LDR W8, [SP, #12] with SP = 0. */
  lemma LdrTest(c: Cpu)
    requires c.r[31] % TWO32 == 0 && Load(c.mem, 12, 4) == 0xABC
    ensures Exec(0xB9400FE8, c).status == Continue && Exec(0xB9400FE8, c).cpu.r[8] % TWO32 == 0xABC
  {
    hide Exec;
    assert 0xB9400FE8 == UnsignedWord(0, 1, 3, 31, 8);
    hide UnsignedWord, Load;
    assert (3 as bv12) as nat == 3 && (31 as bv5) as nat == 31 && (8 as bv5) as nat == 8;
    UnsignedInStack(c, 0, 1, 3, 31, 8);
  }

  /** STUR WZR, [X29, #-4] with X29 = 0xFF clears the cell at 0xFB. */
  lemma SturTest(c: Cpu)
    requires c.r[29] == 0xFF
    ensures Exec(0xB81FC3BF, c) == Done(c.(mem := Store(c.mem, 0xFB, 4, 0)))
    ensures Load(Store(c.mem, 0xFB, 4, 0), 0xFB, 4) == 0
  {
    hide Exec;
    assert 0xB81FC3BF == UnscaledWord(0, 0, 0x1FC, 29, 31);
    hide UnscaledWord, Store, Load;
    assert (0x1FC as bv9) as nat == 0x1FC && (29 as bv5) as nat == 29 && (31 as bv5) as nat == 31;
    UnscaledInStack(c, 0, 0, 0x1FC, 29, 31);
    Pow256Values();
    LoadStored(c.mem, 0xFB, 4, 0);
  }

  /** STP X29, X30, [SP, #16] with SP = 0xFF. */
  lemma StpTest(c: Cpu)
    requires c.r[29] == 0xFA && c.r[30] == 0xAB && c.r[31] == 0xFF
    ensures var o := Exec(0xA9017BFD, c);
            o.status == Continue && Load(o.cpu.mem, 0x10F, 8) == 0xFA && Load(o.cpu.mem, 0x117, 8) == 0xAB
  {
    hide Exec;
    assert 0xA9017BFD == PairWord(1, 2, 0, 2, 30, 31, 29);
    hide PairWord, Store, Load;
    assert (2 as bv7) as nat == 2 && (30 as bv5) as nat == 30 && (31 as bv5) as nat == 31 && (29 as bv5) as nat == 29;
    PairInBase(c, 1, 2, 0, 2, 30, 31, 29);
    LoadStore.TwoCells(c.mem, 0x10F, W64, 0xFA, 0xAB);
  }

  /** LDP X29, X30, [SP, #16] with SP = 0xFF. */
  lemma LdpTest(c: Cpu)
    requires c.r[31] == 0xFF && Load(c.mem, 0x10F, 8) == 0xFA && Load(c.mem, 0x117, 8) == 0xAB
    ensures Exec(0xA9417BFD, c) == Done(c.(r := c.r[29 := 0xFA][30 := 0xAB]))
  {
    hide Exec;
    assert 0xA9417BFD == PairWord(1, 2, 1, 2, 30, 31, 29);
    hide PairWord, Load;
    assert (2 as bv7) as nat == 2 && (30 as bv5) as nat == 30 && (31 as bv5) as nat == 31 && (29 as bv5) as nat == 29;
    assert (2 as bv2) as nat == 2;
    PairDoes(c, 1, 2, 1, 2, 30, 31, 29);
    PairEndsInStack(0xFF, 16, true);
    hide Offset, PairEnds;
  }
}
