/** Compare and set: SUBS, any run of instructions without ADDS and SUBS, then CSET. */
module CompareSet {
  import opened Patterns
  import opened Shifts
  import opened Arith
  import opened Fields
  import opened Dispatcher
  import opened Isa
  import opened Session
  import opened Assembler
  import opened Ints
  import Memory

  predicate WritesFlags(w: Word) {
    HandlerOf(w) == Some(AddsImm) || HandlerOf(w) == Some(SubsImm)
  }

  /** Only ADDS and SUBS touch the flags, however the instruction ends. */
  lemma ExecKeepsFlags(w: Word, c: Cpu)
    requires !WritesFlags(w)
    ensures Exec(w, c).cpu.f == c.f
  {
    hide HandlerOf, Field, IsBitSet;
    LoadsKeepFlags(w, c);
    StoresKeepFlags(w, c);
    hide ExecLdp, ExecLdrImm, ExecLdur, ExecStp, ExecStrImm, ExecStur;
  }

  lemma LoadsKeepFlags(w: Word, c: Cpu)
    ensures ExecLdp(w, c).cpu.f == c.f && ExecLdrImm(w, c).cpu.f == c.f && ExecLdur(w, c).cpu.f == c.f
  {
    hide ExecLdp, ExecLdrImm, ExecLdur;
    LdpKeepsFlags(w, c);
    LdrKeepsFlags(w, c);
    LdurKeepsFlags(w, c);
  }

  lemma LdpKeepsFlags(w: Word, c: Cpu)
    ensures ExecLdp(w, c).cpu.f == c.f
  {
    hide Field, Address, Get, Access, Reg, Merge;
  }

  lemma LdrKeepsFlags(w: Word, c: Cpu)
    ensures ExecLdrImm(w, c).cpu.f == c.f
  {
    hide Field, Address, Get, Access, Reg, Merge;
  }

  lemma LdurKeepsFlags(w: Word, c: Cpu)
    ensures ExecLdur(w, c).cpu.f == c.f
  {
    hide Field, Address, Get, Access, Reg, Merge;
  }

  lemma StoresKeepFlags(w: Word, c: Cpu)
    ensures ExecStp(w, c).cpu.f == c.f && ExecStrImm(w, c).cpu.f == c.f && ExecStur(w, c).cpu.f == c.f
  {
    hide Field, Address, Access, Memory.Store;
  }

  /** The next `n` turns all continue, and none of them handles ADDS or SUBS. */
  ghost predicate QuietRun(prog: seq<Word>, c: Cpu, n: nat)
    decreases n
  {
    n > 0 ==>
      && c.pc < |prog|
      && !WritesFlags(prog[c.pc])
      && Step(prog, c).status == Continue
      && QuietRun(prog, Step(prog, c).cpu, n - 1)
  }

  lemma {:induction false} QuietRunKeepsFlags(prog: seq<Word>, c: Cpu, n: nat)
    requires QuietRun(prog, c, n)
    ensures Run(prog, c, n).status == Continue && Run(prog, c, n).cpu.f == c.f
    decreases n
  {
    hide Exec, WritesFlags;
    if n > 0 {
      ExecKeepsFlags(prog[c.pc], c);
      QuietRunKeepsFlags(prog, Step(prog, c).cpu, n - 1);
    }
  }

  /** What the condition tested by CSET says after a comparison of `x` with `y`: the comparison it names,
      except that the conditions LS and LE always come out false. */
  lemma ConditionAfterCompare(cond: nat, wd: Width, x: nat, y: nat)
    requires cond < 16 && x < Modulus(wd) && y < Modulus(wd) && Comparison(cond, wd, x, y).Some?
    ensures CondTrue(cond, SubFlags(wd, x, y)) == Comparison(cond, wd, x, y).value
            <==> (cond == 9 ==> x > y) && (cond == 13 ==> Signed(wd, x) > Signed(wd, y))
  {
    hide SubFlags, Signed;
    SubFlagsMeaning(wd, x, y);
    SignedInjective(wd, x, y);
  }

  /** SUBS at the current PC, then `n` turns without ADDS or SUBS, then CSET of the condition `cond`
      (encoded inverted, in either width, into any register): the register becomes 1 if the comparison
      named by `cond` holds of the compared operands and 0 if not; for LS and LE this is so exactly when
      the comparison is false. */
  lemma CompareAndSet(prog: seq<Word>, c: Cpu, n: nat, cond: nat, cset: Word)
    requires c.pc < |prog| && HandlerOf(prog[c.pc]) == Some(SubsImm)
    requires QuietRun(prog, Step(prog, c).cpu, n)
    requires var d := Run(prog, c, 1 + n).cpu;
             d.pc < |prog| && prog[d.pc] == cset && HandlerOf(cset) == Some(Csinc)
    requires IsCset(cset) && cond < 14 && Cond(cset) == InvertCond(cond)
    requires var wd := WidthOf(prog[c.pc]);
             Comparison(cond, wd, Reg(c, wd, Rn(prog[c.pc])), ShiftedImm12(prog[c.pc])).Some?
    ensures var wd := WidthOf(prog[c.pc]);
            var x, y := Reg(c, wd, Rn(prog[c.pc])), ShiftedImm12(prog[c.pc]);
            var o := Run(prog, c, n + 2);
            && o.status == Continue
            && (Reg(o.cpu, WidthOf(cset), Rd(cset)) == (if Comparison(cond, wd, x, y).value then 1 else 0)
                <==> (cond == 9 ==> x > y) && (cond == 13 ==> Signed(wd, x) > Signed(wd, y)))
  {
    hide Field, Sf, Sh, HandlerOf, SubFlags, CondTrue, Comparison, Run, Step;
    var wd := WidthOf(prog[c.pc]);
    var x, y := Reg(c, wd, Rn(prog[c.pc])), ShiftedImm12(prog[c.pc]);
    SubsTurn(prog, c);
    var c1 := Step(prog, c).cpu;
    QuietRunKeepsFlags(prog, c1, n);
    var d := Run(prog, c1, n).cpu;
    RunOne(prog, c);
    RunSplits(prog, c, 1, n);
    RunSplits(prog, c, 1 + n, 1);
    RunOne(prog, d);
    CsetTurn(prog, d, cset);
    ConditionAfterCompare(cond, wd, x, y);
  }

  lemma SubsTurn(prog: seq<Word>, c: Cpu)
    requires c.pc < |prog| && HandlerOf(prog[c.pc]) == Some(SubsImm)
    ensures var w := prog[c.pc];
            var wd := WidthOf(w);
            Step(prog, c).status == Continue
            && Step(prog, c).cpu.f == SubFlags(wd, Reg(c, wd, Rn(w)), ShiftedImm12(w))
  {
    hide Field, Sf, Sh, HandlerOf, SubFlags;
  }

  lemma CsetTurn(prog: seq<Word>, c: Cpu, w: Word)
    requires c.pc < |prog| && prog[c.pc] == w && HandlerOf(w) == Some(Csinc) && IsCset(w)
    ensures Step(prog, c).status == Continue
    ensures Reg(Step(prog, c).cpu, WidthOf(w), Rd(w)) == if CondTrue(InvertCond(Cond(w)), c.f) then 1 else 0
  {
    hide Field, Sf, HandlerOf, CondTrue;
  }

  lemma SubsAdvances(prog: seq<Word>, c: Cpu)
    requires c.pc + 1 < TWO64 && c.pc < |prog| && HandlerOf(prog[c.pc]) == Some(SubsImm)
    ensures Step(prog, c).status == Continue && Step(prog, c).cpu.pc == c.pc + 1
  {
    hide Field, Sf, Sh, HandlerOf, SubFlags;
  }

  lemma CompareFields(sf: bv1, sh: bv1, imm: bv12, rn: bv5, rd: bv5)
    ensures var w := AddSubWord(sf, 1, 1, sh, imm, rn, rd);
            HandlerOf(w) == Some(SubsImm) && WidthOf(w) == WidthBit(sf) && Rn(w) == rn as nat
            && ShiftedImm12(w) == Immediate(sh, imm)
  {
    AddSubRoundTrip(sf, 1, 1, sh, imm, rn, rd);
    hide HandlerOf, Sf, Sh, Field, AddSubWord;
  }

  lemma CsetFields(sf: bv1, code: bv4, rd: bv5)
    requires code as nat < 14
    ensures var w := CsincWord(sf, 31, code, 31, rd);
            HandlerOf(w) == Some(Csinc) && WidthOf(w) == WidthBit(sf) && IsCset(w) && Cond(w) == code as nat
            && Rd(w) == rd as nat
  {
    CsincRoundTrip(sf, 31, code, 31, rd);
    hide HandlerOf, Sf, Field, CsincWord;
    assert (31 as bv5) as nat == 31;
  }

  /** `v` is 1 or 0 as the comparison named by `cond` holds; for LS and LE, exactly when it does not. */
  predicate Reports(v: nat, cond: nat, wd: Width, x: nat, y: nat)
    requires cond < 16
  {
    match Comparison(cond, wd, x, y)
    case None => true
    case Some(holds) =>
      v == (if holds then 1 else 0) <==> (cond == 9 ==> x > y) && (cond == 13 ==> Signed(wd, x) > Signed(wd, y))
  }

  /** CMP then CSET, assembled, anywhere in a program, for all widths, registers, immediates and operands. */
  lemma AssembledCompareSet(prog: seq<Word>, c: Cpu, sf: bv1, sh: bv1, imm: bv12, rn: bv5, rd: bv5,
                            cond: nat, sf2: bv1, code: bv4, rd2: bv5)
    requires cond < 14 && code as nat == InvertCond(cond)
    requires c.pc + 1 < |prog| < TWO64
    requires prog[c.pc] == AddSubWord(sf, 1, 1, sh, imm, rn, rd)
    requires prog[c.pc + 1] == CsincWord(sf2, 31, code, 31, rd2)
    ensures Run(prog, c, 2).status == Continue
    ensures Reports(Reg(Run(prog, c, 2).cpu, WidthBit(sf2), rd2 as nat), cond,
                    WidthBit(sf), Reg(c, WidthBit(sf), rn as nat), Immediate(sh, imm))
  {
    hide HandlerOf, Rn, Rd, Cond, IsCset, WidthOf, ShiftedImm12;
    hide AddSubWord, CsincWord, Comparison, Run, Step, WritesFlags, Immediate;
    CompareFields(sf, sh, imm, rn, rd);
    CsetFields(sf2, code, rd2);
    SubsAdvances(prog, c);
    RunOne(prog, c);
    RunSplits(prog, c, 1, 1);
    var d := Step(prog, c).cpu;
    RunOne(prog, d);
    CsetTurn(prog, d, prog[d.pc]);
    if Comparison(cond, WidthBit(sf), Reg(c, WidthBit(sf), rn as nat), Immediate(sh, imm)).Some? {
      CompareAndSet(prog, c, 0, cond, prog[d.pc]);
    }
  }
}
