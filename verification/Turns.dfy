/** One turn of the session against one turn of the architecture, for every instruction of the table, and
    whole runs. */
module Turns {
  import opened Patterns
  import opened Ints
  import opened Shifts
  import opened Fields
  import opened RowList
  import opened Dispatcher
  import opened Isa
  import opened Arm
  import opened Conformance
  import opened LoadStore
  import opened Addressing
  import opened Pairs

  // ---------- what a word stands for ----------

  /** The instruction a listed word stands for: the dispatcher's choice, except that the second row of
      STUR is LDUR. */
  function Intended(w: Word): Option<Op> {
    if Matches(R_STUR_ROW38, w) then Some(Ldur) else HandlerOf(w)
  }

  /** The rows of the table that stand for an instruction. */
  predicate IsRowOf(op: Op, w: Word) {
    match op
    case AddImm => Matches(R_ADD_IMM, w)
    case AddsImm => Matches(R_ADDS_IMM, w)
    case SubImm => Matches(R_SUB_IMM, w)
    case SubsImm => Matches(R_SUBS_IMM, w)
    case B => Matches(R_B, w)
    case Bl => Matches(R_BL, w)
    case Ret => Matches(R_RET, w)
    case Tbnz => Matches(R_TBNZ, w)
    case Csinc => Matches(R_CSINC, w)
    case Movz => Matches(R_MOVZ, w)
    case Adrp => Matches(R_ADRP, w)
    case OrrSh => Matches(R_ORR_SH, w)
    case Stp => Matches(R_STP_POST, w) || Matches(R_STP_PRE, w) || Matches(R_STP_OFFSET, w)
    case Ldp => Matches(R_LDP_POST, w) || Matches(R_LDP_PRE, w) || Matches(R_LDP_OFFSET, w)
    case StrImm => Matches(R_STR_IMM_POST, w) || Matches(R_STR_IMM_PRE, w) || Matches(R_STR_IMM_OFFSET, w)
    case LdrImm => Matches(R_LDR_IMM_POST, w) || Matches(R_LDR_IMM_PRE, w) || Matches(R_LDR_IMM_OFFSET, w)
    case Stur => Matches(R_STUR, w)
    case Ldur => Matches(R_STUR_ROW38, w)
  }

  predicate Listed(w: Word) {
    Intended(w).Some? && IsRowOf(Intended(w).value, w)
  }

  /** Some row of a list matches. */
  predicate AnyMatches(l: Rows, w: Word) {
    l.Row? && (Matches(l.p, w) || AnyMatches(l.rest, w))
  }

  lemma {:induction false} AnyIsMember(l: Rows, w: Word)
    ensures AnyMatches(l, w) <==> exists p :: p in ToSeq(l) && Matches(p, w)
  {
    hide Matches;
    if l.Row? {
      AnyIsMember(l.rest, w);
      assert l.p in ToSeq(l);
    }
  }

  lemma {:induction false} AnyInBoth(a: Rows, b: Rows, w: Word)
    ensures AnyMatches(Cat(a, b), w) <==> AnyMatches(a, w) || AnyMatches(b, w)
  {
    hide Matches;
    if a.Row? {
      AnyInBoth(a.rest, b, w);
    }
  }

  /** The listed words are those that match a row of the table. */
  lemma ListedIsMatching(w: Word)
    ensures Listed(w) <==> exists p :: p in ToSeq(TABLE) && Matches(p, w)
  {
    AnyIsMember(TABLE, w);
    AnyInBoth(ROWS_1, Cat(ROWS_2, ROWS_3), w);
    AnyInBoth(ROWS_2, ROWS_3, w);
    ListedIsAny(w);
    hide AnyMatches, Listed, ToSeq, ROWS_1, ROWS_2, ROWS_3;
  }

  lemma ThreeRows(p: Pattern, q: Pattern, r: Pattern, rest: Rows, w: Word)
    ensures AnyMatches(Row(p, Row(q, Row(r, rest))), w)
            <==> Matches(p, w) || Matches(q, w) || Matches(r, w) || AnyMatches(rest, w)
  {
    hide Matches;
    assert AnyMatches(Row(r, rest), w) <==> Matches(r, w) || AnyMatches(rest, w);
  }

  lemma Rows1Match(w: Word)
    ensures AnyMatches(ROWS_1, w)
            <==> || Matches(R_ADD_IMM, w) || Matches(R_ADDS_IMM, w) || Matches(R_SUB_IMM, w)
                 || Matches(R_SUBS_IMM, w) || Matches(R_B, w) || Matches(R_BL, w)
                 || Matches(R_CSINC, w) || Matches(R_TBNZ, w) || Matches(R_MOVZ, w)
  {
    hide Matches;
    var l3 := Row(R_CSINC, Row(R_TBNZ, Row(R_MOVZ, NoRows)));
    ThreeRows(R_CSINC, R_TBNZ, R_MOVZ, NoRows, w);
    var l2 := Row(R_SUBS_IMM, Row(R_B, Row(R_BL, l3)));
    ThreeRows(R_SUBS_IMM, R_B, R_BL, l3, w);
    var l1 := Row(R_ADD_IMM, Row(R_ADDS_IMM, Row(R_SUB_IMM, l2)));
    ThreeRows(R_ADD_IMM, R_ADDS_IMM, R_SUB_IMM, l2, w);
    assert ROWS_1 == l1;
  }

  lemma Rows2Match(w: Word)
    ensures AnyMatches(ROWS_2, w)
            <==> || Matches(R_ORR_SH, w) || Matches(R_RET, w) || Matches(R_STP_POST, w)
                 || Matches(R_STP_PRE, w) || Matches(R_STP_OFFSET, w) || Matches(R_LDP_POST, w)
                 || Matches(R_LDP_PRE, w) || Matches(R_LDP_OFFSET, w)
  {
    hide Matches;
    var l3 := Row(R_LDP_PRE, Row(R_LDP_OFFSET, NoRows));
    assert AnyMatches(Row(R_LDP_OFFSET, NoRows), w) <==> Matches(R_LDP_OFFSET, w);
    var l2 := Row(R_STP_PRE, Row(R_STP_OFFSET, Row(R_LDP_POST, l3)));
    ThreeRows(R_STP_PRE, R_STP_OFFSET, R_LDP_POST, l3, w);
    var l1 := Row(R_ORR_SH, Row(R_RET, Row(R_STP_POST, l2)));
    ThreeRows(R_ORR_SH, R_RET, R_STP_POST, l2, w);
    assert ROWS_2 == l1;
  }

  lemma Rows3Match(w: Word)
    ensures AnyMatches(ROWS_3, w)
            <==> || Matches(R_STR_IMM_POST, w) || Matches(R_STR_IMM_PRE, w) || Matches(R_STR_IMM_OFFSET, w)
                 || Matches(R_LDR_IMM_POST, w) || Matches(R_LDR_IMM_PRE, w) || Matches(R_LDR_IMM_OFFSET, w)
                 || Matches(R_STUR, w) || Matches(R_STUR_ROW38, w) || Matches(R_ADRP, w)
  {
    hide Matches;
    var l3 := Row(R_STUR, Row(R_STUR_ROW38, Row(R_ADRP, NoRows)));
    ThreeRows(R_STUR, R_STUR_ROW38, R_ADRP, NoRows, w);
    var l2 := Row(R_LDR_IMM_POST, Row(R_LDR_IMM_PRE, Row(R_LDR_IMM_OFFSET, l3)));
    ThreeRows(R_LDR_IMM_POST, R_LDR_IMM_PRE, R_LDR_IMM_OFFSET, l3, w);
    var l1 := Row(R_STR_IMM_POST, Row(R_STR_IMM_PRE, Row(R_STR_IMM_OFFSET, l2)));
    ThreeRows(R_STR_IMM_POST, R_STR_IMM_PRE, R_STR_IMM_OFFSET, l2, w);
    assert ROWS_3 == l1;
  }

  lemma ListedIsAny(w: Word)
    ensures Listed(w) <==> AnyMatches(ROWS_1, w) || AnyMatches(ROWS_2, w) || AnyMatches(ROWS_3, w)
  {
    RowsOfData(w);
    RowsOfBranches(w);
    RowsOfSelection(w);
    RowsOfLoadsAndStores(w);
    hide Matches, HandlerOf, AnyMatches, ROWS_1, ROWS_2, ROWS_3;
    Rows1Match(w);
    Rows2Match(w);
    Rows3Match(w);
  }

  lemma RowsOfData(w: Word)
    ensures Matches(R_ADD_IMM, w) ==> HandlerOf(w) == Some(AddImm)
    ensures Matches(R_ADDS_IMM, w) ==> HandlerOf(w) == Some(AddsImm)
    ensures Matches(R_SUB_IMM, w) ==> HandlerOf(w) == Some(SubImm)
    ensures Matches(R_SUBS_IMM, w) ==> HandlerOf(w) == Some(SubsImm)
    ensures Matches(R_MOVZ, w) ==> HandlerOf(w) == Some(Movz)
    ensures Matches(R_ADRP, w) ==> HandlerOf(w) == Some(Adrp)
  {}

  lemma RowsOfBranches(w: Word)
    ensures Matches(R_B, w) ==> HandlerOf(w) == Some(B)
    ensures Matches(R_BL, w) ==> HandlerOf(w) == Some(Bl)
    ensures Matches(R_RET, w) ==> HandlerOf(w) == Some(Ret)
    ensures Matches(R_TBNZ, w) ==> HandlerOf(w) == Some(Tbnz)
  {}

  lemma RowsOfSelection(w: Word)
    ensures Matches(R_CSINC, w) ==> HandlerOf(w) == Some(Csinc)
    ensures Matches(R_ORR_SH, w) ==> HandlerOf(w) == Some(OrrSh)
  {}

  lemma RowsOfLoadsAndStores(w: Word)
    ensures Matches(R_STP_POST, w) || Matches(R_STP_PRE, w) || Matches(R_STP_OFFSET, w) ==> HandlerOf(w) == Some(Stp)
    ensures Matches(R_LDP_POST, w) || Matches(R_LDP_PRE, w) || Matches(R_LDP_OFFSET, w) ==> HandlerOf(w) == Some(Ldp)
    ensures Matches(R_STR_IMM_POST, w) || Matches(R_STR_IMM_PRE, w) || Matches(R_STR_IMM_OFFSET, w) ==>
              HandlerOf(w) == Some(StrImm)
    ensures Matches(R_LDR_IMM_POST, w) || Matches(R_LDR_IMM_PRE, w) || Matches(R_LDR_IMM_OFFSET, w) ==>
              HandlerOf(w) == Some(LdrImm)
    ensures Matches(R_STUR, w) || Matches(R_STUR_ROW38, w) ==> HandlerOf(w) == Some(Stur)
    ensures !(Matches(R_STUR, w) && Matches(R_STUR_ROW38, w))
  {}

  /** Words to which the architecture gives a defined result: an index or shift within the width, and no
      register used twice where the outcome would depend on the order. */
  predicate Predictable(w: Word) {
    match Intended(w)
    case Some(OrrSh) => Sf(w) || Imm6(w) < 32
    case Some(Movz) => Sf(w) || Hw(w) < 2
    case Some(Stp) => Indexed(StpForm(w)) && Rn(w) in {Rd(w), Rt2(w)} ==> Rn(w) == 31
    case Some(Ldp) => Rd(w) != Rt2(w) && (Indexed(LdpForm(w)) && Rn(w) in {Rd(w), Rt2(w)} ==> Rn(w) == 31)
    case Some(StrImm) => !StrUnsignedOffset(w) && Rn(w) == Rd(w) ==> Rn(w) == 31
    case Some(LdrImm) => !LdrUnsignedOffset(w) && Rn(w) == Rd(w) ==> Rn(w) == 31
    case _ => true
  }

  // ---------- a turn of the architecture ----------

  /** The PC moves on when an instruction that is not a branch has succeeded. */
  function Advanced(o: Outcome): Outcome {
    if o.status == Continue then Done(NextPc(o.cpu)) else o
  }

  function ArmBranch(c: Cpu, words: int, link: bool): Cpu {
    c.(pc := Wrap(W64, c.pc + words), r := if link then c.r[LR := Wrap(W64, c.pc + 1)] else c.r)
  }

  /** STR and LDR in their three forms, STUR and LDUR, at the width of the word. */
  function ArmSingle(op: Op, w: Word, c: Cpu, wd: Width): Outcome {
    match op
    case StrImm =>
      if StrUnsignedOffset(w) then ArmStore(c, wd, Rn(w), Imm12(w) * Bytes(wd), Rd(w))
      else ArmStrIndexed(w, c, wd, SingleForm(w))
    case LdrImm =>
      if LdrUnsignedOffset(w) then ArmLoad(c, wd, Rn(w), Imm12(w) * Bytes(wd), Rd(w))
      else ArmLdrIndexed(w, c, wd, SingleForm(w))
    case Stur => ArmStore(c, wd, Rn(w), SignExtend(Imm9(w), 9), Rd(w))
    case _ => ArmLoad(c, wd, Rn(w), SignExtend(Imm9(w), 9), Rd(w))
  }

  /** One turn on a listed word. */
  function ArmTurn(w: Word, c: Cpu): Outcome {
    match Intended(w)
    case None => Outcome(Stop, c)
    case Some(op) =>
      match op
      case AddImm => Done(NextPc(ArmAddImm(w, c)))
      case AddsImm => Done(NextPc(ArmAddsImm(w, c)))
      case SubImm => Done(NextPc(ArmSubImm(w, c)))
      case SubsImm => Done(NextPc(ArmSubsImm(w, c)))
      case B => Done(ArmBranch(c, SignExtend(Imm26(w), 26), false))
      case Bl => Done(ArmBranch(c, SignExtend(Imm26(w), 26), true))
      case Ret => Done(ArmRet(w, c))
      case Tbnz => Done(ArmTbnz(w, c))
      case Csinc => Done(NextPc(ArmCsinc(w, c)))
      case Movz => Done(NextPc(ArmMovz(w, c)))
      case Adrp => Done(NextPc(ArmAdrp(w, c)))
      case OrrSh => Done(NextPc(ArmOrrSh(w, c)))
      case Stp =>
        if PairWidth(w).None? then Outcome(Stop, c) else Advanced(ArmStp(w, c, PairWidth(w).value, StpForm(w)))
      case Ldp =>
        if PairWidth(w).None? then Outcome(Stop, c) else Advanced(ArmLdp(w, c, PairWidth(w).value, LdpForm(w)))
      case _ =>
        if SingleWidth(w).None? then Outcome(Stop, c) else Advanced(ArmSingle(op, w, c, SingleWidth(w).value))
  }

  // ---------- when the two turns agree ----------

  predicate SingleRight(op: Op, w: Word, c: Cpu, wd: Width) {
    match op
    case StrImm =>
      if StrUnsignedOffset(w) then Reached(c, wd, Rn(w), Imm12(w) * Bytes(wd)) else StrIndexedRight(w, c, wd)
    case LdrImm =>
      if LdrUnsignedOffset(w) then LoadRight(c, wd, Rn(w), Imm12(w) * Bytes(wd), Rd(w)) else LdrIndexedRight(w, c, wd)
    case Stur => Reached(c, wd, Rn(w), SignExtend(Imm9(w), 9))
    case _ => StoredIsLoaded(c, wd, Rn(w), SignExtend(Imm9(w), 9), Rd(w))
  }

  /** The conditions of the single handlers. RET is never right: it clears its register, or halts. */
  predicate Right(w: Word, c: Cpu) {
    match Intended(w)
    case None => true
    case Some(op) =>
      match op
      case AddImm => Clear(c, WidthOf(w), Rd(w))
      case SubImm => Clear(c, WidthOf(w), Rd(w))
      case AddsImm => AddsRight(w, c)
      case SubsImm => SubsRight(w, c)
      case B => true
      case Bl => true
      case Ret => false
      case Tbnz => TbnzRight(w, c)
      case Csinc => CsincRight(w, c)
      case Movz => MovzRight(w, c)
      case Adrp => AdrpRight(w, c)
      case OrrSh => OrrRight(w, c)
      case Stp => PairWidth(w).Some? && StpRight(w, c, PairWidth(w).value)
      case Ldp => PairWidth(w).Some? && LdpRight(w, c, PairWidth(w).value)
      case _ => SingleWidth(w).Some? && SingleRight(op, w, c, SingleWidth(w).value)
  }

  lemma NextPcInjective(c: Cpu, d: Cpu)
    ensures NextPc(c) == NextPc(d) <==> c == d
  {
    hide Wrap;
    SameWord(c.pc + 1, d.pc + 1);
  }

  lemma AdvancedInjective(o: Outcome, p: Outcome)
    ensures Advanced(o) == Advanced(p) <==> o == p
  {
    hide NextPc;
    NextPcInjective(o.cpu, p.cpu);
  }

  lemma StepIs(prog: seq<Word>, c: Cpu, op: Op)
    requires c.pc < |prog| && HandlerOf(prog[c.pc]) == Some(op)
    ensures Step(prog, c) == Advanced(ExecOp(op, prog[c.pc], c))
  {
    hide HandlerOf, ExecOp;
  }

  /** Data processing: the whole state of a turn is right exactly when the handler's is. */
  lemma DataTurn(prog: seq<Word>, c: Cpu, w: Word, op: Op)
    requires c.pc < |prog| && prog[c.pc] == w && Intended(w) == HandlerOf(w) == Some(op)
    requires op in {AddImm, AddsImm, SubImm, SubsImm, Csinc, Movz, Adrp, OrrSh}
    ensures Step(prog, c) == ArmTurn(w, c) <==> Right(w, c)
  {
    hide Intended, HandlerOf, Step, NextPc, Clear, AddsRight, SubsRight, CsincRight, MovzRight, AdrpRight, OrrRight;
    hide ExecAddImm, ExecAddsImm, ExecSubImm, ExecSubsImm, ExecCsinc, ExecMovz, ExecAdrp, ExecOrrSh, WidthOf, Rd;
    hide ArmAddImm, ArmAddsImm, ArmSubImm, ArmSubsImm, ArmCsinc, ArmMovz, ArmAdrp, ArmOrrSh;
    StepIs(prog, c, op);
    match op {
      case AddImm => AddConformance(w, c); AdvancedInjective(ExecAddImm(w, c), Done(ArmAddImm(w, c)));
      case AddsImm => AddsConformance(w, c); AdvancedInjective(ExecAddsImm(w, c), Done(ArmAddsImm(w, c)));
      case SubImm => SubConformance(w, c); AdvancedInjective(ExecSubImm(w, c), Done(ArmSubImm(w, c)));
      case SubsImm => SubsConformance(w, c); AdvancedInjective(ExecSubsImm(w, c), Done(ArmSubsImm(w, c)));
      case Csinc => CsincConformance(w, c); AdvancedInjective(ExecCsinc(w, c), Done(ArmCsinc(w, c)));
      case Movz => MovzConformance(w, c); AdvancedInjective(ExecMovz(w, c), Done(ArmMovz(w, c)));
      case Adrp => AdrpConformance(w, c); AdvancedInjective(ExecAdrp(w, c), Done(ArmAdrp(w, c)));
      case OrrSh => OrrConformance(w, c); AdvancedInjective(ExecOrrSh(w, c), Done(ArmOrrSh(w, c)));
    }
  }

  lemma BranchTurn(prog: seq<Word>, c: Cpu, w: Word, op: Op)
    requires c.pc < |prog| && prog[c.pc] == w && Intended(w) == HandlerOf(w) == Some(op)
    requires op in {B, Bl, Ret, Tbnz}
    ensures Step(prog, c) == ArmTurn(w, c) <==> Right(w, c)
  {
    hide Intended, HandlerOf, Step, Wrap, SignExtend, TbnzRight, ArmTbnz, Field, ArmRet;
    match op {
      case B => BranchMoves(prog, c, w);
      case Bl => BranchMoves(prog, c, w);
      case Ret => RetConformance(prog, c, w);
      case Tbnz => TbnzMoves(prog, c, w);
    }
  }

  lemma PairTurn(prog: seq<Word>, c: Cpu, w: Word, op: Op)
    requires c.pc < |prog| && prog[c.pc] == w && Intended(w) == HandlerOf(w) == Some(op) && op in {Stp, Ldp}
    requires IsRowOf(op, w) && Predictable(w)
    ensures Step(prog, c) == ArmTurn(w, c) <==> Right(w, c)
  {
    PairFields(w);
    hide Intended, HandlerOf, Step, NextPc, Matches, Field, PairWidth, StpForm, LdpForm, StpRight, LdpRight;
    hide ExecStp, ExecLdp, ArmStp, ArmLdp, Rn, Rd, Rt2;
    var wd := PairWidth(w).value;
    StepIs(prog, c, op);
    if op == Stp {
      StpConformance(w, c, wd);
      AdvancedInjective(ExecStp(w, c), ArmStp(w, c, wd, StpForm(w)));
    } else {
      LdpConformance(w, c, wd);
      AdvancedInjective(ExecLdp(w, c), ArmLdp(w, c, wd, LdpForm(w)));
    }
  }

  lemma SingleFields(op: Op, w: Word)
    requires op in {StrImm, LdrImm, Stur, Ldur} && IsRowOf(op, w)
    ensures SingleWidth(w).Some?
    ensures op == StrImm && !StrUnsignedOffset(w) ==> StrIndexed(w)
    ensures op == LdrImm && !LdrUnsignedOffset(w) ==> LdrIndexed(w)
  {
    hide Matches, SingleWidth, StrUnsignedOffset, StrIndexed, LdrUnsignedOffset, LdrIndexed;
    StrPostFields(w);
    StrPreFields(w);
    StrOffsetFields(w);
    LdrPostFields(w);
    LdrPreFields(w);
    LdrOffsetFields(w);
    SturFields(w);
  }

  /** The handlers of single loads and stores; LDUR words are handled as STUR. */
  lemma SingleExec(op: Op, w: Word, c: Cpu, wd: Width)
    requires op in {StrImm, LdrImm, Stur, Ldur} && IsRowOf(op, w) && SingleWidth(w) == Some(wd)
    requires op == StrImm && !StrUnsignedOffset(w) && Rn(w) == Rd(w) ==> Rn(w) == 31
    requires op == LdrImm && !LdrUnsignedOffset(w) && Rn(w) == Rd(w) ==> Rn(w) == 31
    ensures ExecOp(if op == Ldur then Stur else op, w, c) == ArmSingle(op, w, c, wd) <==> SingleRight(op, w, c, wd)
  {
    hide Field, Matches, SingleWidth, StrUnsignedOffset, StrIndexed, LdrUnsignedOffset, LdrIndexed, Rn, Rd, SignExtend;
    hide ArmStore, ArmLoad, ArmStrIndexed, ArmLdrIndexed, StrIndexedRight, LdrIndexedRight, Reached, LoadRight;
    hide ExecStrImm, ExecLdrImm, SingleForm, Address, Source, Reg, StoredIsLoaded, StoreOne;
    SingleFields(op, w);
    match op {
      case StrImm =>
        StrConformance(w, c, wd);
        if !StrUnsignedOffset(w) {
          StrIndexedConformance(w, c, wd);
        }
      case LdrImm =>
        LdrConformance(w, c, wd);
        if !LdrUnsignedOffset(w) {
          LdrIndexedConformance(w, c, wd);
        }
      case Stur =>
        StrConformance(w, c, wd);
      case Ldur =>
        StoreForLoad(c, wd, Rn(w), SignExtend(Imm9(w), 9), Rd(w));
    }
  }

  lemma HandledAs(op: Op, w: Word)
    requires Intended(w) == Some(op) && IsRowOf(op, w)
    ensures HandlerOf(w) == Some(if op == Ldur then Stur else op)
  {
    hide HandlerOf, Matches;
    ExactStur(w);
  }

  lemma SingleTurn(prog: seq<Word>, c: Cpu, w: Word, op: Op)
    requires c.pc < |prog| && prog[c.pc] == w && Intended(w) == Some(op) && op in {StrImm, LdrImm, Stur, Ldur}
    requires IsRowOf(op, w) && Predictable(w)
    ensures Step(prog, c) == ArmTurn(w, c) <==> Right(w, c)
  {
    hide HandlerOf, Intended, IsRowOf, Step, Advanced, ExecOp, ArmSingle, SingleRight, SingleWidth, Rn, Rd, Field;
    hide StrUnsignedOffset, LdrUnsignedOffset, Predictable, ArmTurn, Right;
    SingleFields(op, w);
    HandledAs(op, w);
    SingleUses(op, w);
    var wd := SingleWidth(w).value;
    var handler := if op == Ldur then Stur else op;
    StepIs(prog, c, handler);
    SingleExec(op, w, c, wd);
    AdvancedInjective(ExecOp(handler, w, c), ArmSingle(op, w, c, wd));
    SingleTurnIs(op, w, c, wd);
  }

  lemma SingleUses(op: Op, w: Word)
    requires Intended(w) == Some(op) && Predictable(w)
    ensures op == StrImm && !StrUnsignedOffset(w) && Rn(w) == Rd(w) ==> Rn(w) == 31
    ensures op == LdrImm && !LdrUnsignedOffset(w) && Rn(w) == Rd(w) ==> Rn(w) == 31
  {
    hide Intended, Field, StrUnsignedOffset, LdrUnsignedOffset;
  }

  lemma SingleTurnIs(op: Op, w: Word, c: Cpu, wd: Width)
    requires Intended(w) == Some(op) && op in {StrImm, LdrImm, Stur, Ldur} && SingleWidth(w) == Some(wd)
    ensures ArmTurn(w, c) == Advanced(ArmSingle(op, w, c, wd)) && Right(w, c) == SingleRight(op, w, c, wd)
  {
    hide Intended, Advanced, ArmSingle, SingleRight, SingleWidth;
  }

  /** A turn on any listed word with a defined meaning is the architecture's exactly when the condition of
      its handler holds. */
  lemma TurnConformance(prog: seq<Word>, c: Cpu)
    requires c.pc < |prog| && Listed(prog[c.pc]) && Predictable(prog[c.pc])
    ensures Step(prog, c) == ArmTurn(prog[c.pc], c) <==> Right(prog[c.pc], c)
  {
    var w := prog[c.pc];
    var op := Intended(w).value;
    if op in {StrImm, LdrImm, Stur, Ldur} {
      SingleTurn(prog, c, w, op);
    } else {
      assert Intended(w) == HandlerOf(w);
      hide Intended, HandlerOf, Step, ArmTurn, Right, Predictable;
      if op in {Stp, Ldp} {
        PairTurn(prog, c, w, op);
      } else if op in {B, Bl, Ret, Tbnz} {
        BranchTurn(prog, c, w, op);
      } else {
        DataTurn(prog, c, w, op);
      }
    }
  }

  // ---------- runs ----------

  function ArmStep(prog: seq<Word>, c: Cpu): Outcome {
    if c.pc >= |prog| then Outcome(Undefined, c) else ArmTurn(prog[c.pc], c)
  }

  function ArmRun(prog: seq<Word>, c: Cpu, n: nat): Outcome
    decreases n
  {
    if n == 0 then Done(c)
    else
      var o := ArmStep(prog, c);
      if o.status == Continue then ArmRun(prog, o.cpu, n - 1) else o
  }

  /** Every turn of the next `n` is right, as long as the session runs. */
  ghost predicate RightRun(prog: seq<Word>, c: Cpu, n: nat)
    decreases n
  {
    n > 0 && c.pc < |prog| ==>
      && Right(prog[c.pc], c)
      && (Step(prog, c).status == Continue ==> RightRun(prog, Step(prog, c).cpu, n - 1))
  }

  /** Session and architecture are in the same state after each of the first `n` turns. */
  ghost predicate Lockstep(prog: seq<Word>, c: Cpu, n: nat) {
    forall k: nat | k <= n :: Run(prog, c, k) == ArmRun(prog, c, k)
  }

  /** A program of listed words with a defined meaning runs in step with the architecture exactly when
      every turn is right. */
  lemma {:induction false} RunConformance(prog: seq<Word>, c: Cpu, n: nat)
    requires forall w | w in prog :: Listed(w) && Predictable(w)
    ensures Lockstep(prog, c, n) <==> RightRun(prog, c, n)
    decreases n
  {
    hide Listed, Predictable, Right, Step, ArmTurn;
    if n > 0 {
      StepConformance(prog, c);
      FirstTurn(prog, c, n);
      if Step(prog, c) == ArmStep(prog, c) && Step(prog, c).status == Continue {
        RunConformance(prog, Step(prog, c).cpu, n - 1);
      }
      OutOfProgram(prog, c);
    }
  }

  lemma OutOfProgram(prog: seq<Word>, c: Cpu)
    ensures c.pc >= |prog| ==> Step(prog, c) == ArmStep(prog, c) == Outcome(Undefined, c)
  {
    hide ArmTurn;
  }

  lemma StepConformance(prog: seq<Word>, c: Cpu)
    requires forall w | w in prog :: Listed(w) && Predictable(w)
    ensures Step(prog, c) == ArmStep(prog, c) <==> (c.pc < |prog| ==> Right(prog[c.pc], c))
  {
    hide Listed, Predictable, Right, ArmTurn;
    if c.pc < |prog| {
      TurnConformance(prog, c);
    }
  }

  /** In step for `n` turns: the first turn agrees and, if it continues, so do the others. */
  lemma FirstTurn(prog: seq<Word>, c: Cpu, n: nat)
    requires n > 0
    ensures Lockstep(prog, c, n)
            <==> Step(prog, c) == ArmStep(prog, c)
                 && (Step(prog, c).status == Continue ==> Lockstep(prog, Step(prog, c).cpu, n - 1))
  {
    hide Step, ArmStep;
    var o := Step(prog, c);
    if Lockstep(prog, c, n) {
      OneTurn(prog, c);
      assert Run(prog, c, 1) == ArmRun(prog, c, 1);
      if o.status == Continue {
        forall k: nat | k <= n - 1 ensures Run(prog, o.cpu, k) == ArmRun(prog, o.cpu, k) {
          assert Run(prog, c, k + 1) == ArmRun(prog, c, k + 1);
        }
      }
    } else if o == ArmStep(prog, c) {
      var k: nat :| k <= n && Run(prog, c, k) != ArmRun(prog, c, k);
      assert k > 0;
      assert o.status == Continue && Run(prog, o.cpu, k - 1) != ArmRun(prog, o.cpu, k - 1);
    }
  }

  lemma OneTurn(prog: seq<Word>, c: Cpu)
    ensures Run(prog, c, 1) == Step(prog, c) && ArmRun(prog, c, 1) == ArmStep(prog, c)
  {
    hide Step, ArmStep;
    if Step(prog, c).status == Continue {
      assert Run(prog, Step(prog, c).cpu, 0) == Done(Step(prog, c).cpu);
    }
    if ArmStep(prog, c).status == Continue {
      assert ArmRun(prog, ArmStep(prog, c).cpu, 0) == Done(ArmStep(prog, c).cpu);
    }
  }

  // ---------- programs that are always right ----------

  /** Whether the handler's test decides rightly in every flag state. */
  predicate TestSafe(w: Word) {
    if IsCset(w) then Cond(w) !in {8, 12} else Cond(w) !in {9, 13, 15}
  }

  /** The offset of a pair is the one the architecture uses. */
  predicate OffsetSafe(w: Word, form: Form) {
    PairWidth(w) == Some(W64) && Imm7(w) < 64 && (form == PostIndex ==> Imm7(w) == 0)
  }

  /** Words that need no condition on the state: 64-bit, not into index 31, and away from the departures.
      ADDS, RET, LDUR and the indexed STR and LDR have no such words here. */
  predicate Safe(w: Word) {
    match Intended(w)
    case None => false
    case Some(op) =>
      match op
      case AddImm => Sf(w)
      case SubImm => Sf(w)
      case SubsImm => Sf(w) && Rd(w) != 31 && (!Sh(w) || Imm12(w) == 0)
      case B => true
      case Bl => true
      case Tbnz => Rd(w) != 31 && Imm14(w) < 0x2000
      case Csinc => Sf(w) && Rd(w) != 31 && TestSafe(w)
      case Movz => Sf(w) && Rd(w) != 31 && Hw(w) < 2
      case Adrp => Rd(w) != 31 && ImmHi(w) * 4 + ImmLo(w) < 2
      case OrrSh => Sf(w) && Rd(w) != 31 && Rm(w) != 31 && (RuleOf(ShiftBits(w)) == ASR ==> Imm6(w) != 63)
      case Stp => OffsetSafe(w, StpForm(w))
      case Ldp => OffsetSafe(w, LdpForm(w)) && Rd(w) != 31 && Rt2(w) != 31
      case StrImm => SingleWidth(w) == Some(W64) && StrUnsignedOffset(w)
      case LdrImm => SingleWidth(w) == Some(W64) && LdrUnsignedOffset(w) && Rd(w) != 31
      case Stur => SingleWidth(w) == Some(W64)
      case _ => false
  }

  lemma SafePair(w: Word, c: Cpu, form: Form)
    requires OffsetSafe(w, form) && Defined(form)
    ensures form == StpForm(w) ==> StpRight(w, c, W64)
    ensures form == LdpForm(w) && Rd(w) != 31 && Rt2(w) != 31 && (Indexed(form) ==> Rn(w) !in {Rd(w), Rt2(w)}) ==>
              LdpRight(w, c, W64)
  {
    hide Field, PairWidth, Address, ArmAddress, PairDisplacement, Near, StpForm, LdpForm, Cell, Source, Reg;
    PairGap(form, w, W64);
    PairAddressConformance(w, c, W64, form);
    SameCells(w, c, W64, form);
    assert Used(w, W64) == PairDisplacement(form, w, W64);
  }

  lemma SafeIsRight(w: Word, c: Cpu)
    requires Listed(w) && Predictable(w) && Safe(w)
    ensures Right(w, c)
  {
    PairFields(w);
    hide Intended, HandlerOf, Matches, Field, PairWidth, StpForm, LdpForm, SingleWidth, StpRight, LdpRight;
    hide Sf, Sh, StrUnsignedOffset, LdrUnsignedOffset;
    match Intended(w).value
    case Stp => SafePair(w, c, StpForm(w));
    case Ldp => SafePair(w, c, LdpForm(w));
    case _ =>
  }

  /** A program of safe words does, from every state and for every number of turns, exactly what the
      architecture does. */
  lemma {:induction false} SafeProgramConforms(prog: seq<Word>, c: Cpu, n: nat)
    requires forall w | w in prog :: Listed(w) && Predictable(w) && Safe(w)
    ensures Run(prog, c, n) == ArmRun(prog, c, n)
  {
    hide Listed, Predictable, Safe, Run, ArmRun;
    SafeRun(prog, c, n);
    RunConformance(prog, c, n);
  }

  lemma {:induction false} SafeRun(prog: seq<Word>, c: Cpu, n: nat)
    requires forall w | w in prog :: Listed(w) && Predictable(w) && Safe(w)
    ensures RightRun(prog, c, n)
    decreases n
  {
    hide Listed, Predictable, Safe, Step, Right;
    if n > 0 && c.pc < |prog| {
      SafeIsRight(prog[c.pc], c);
      if Step(prog, c).status == Continue {
        SafeRun(prog, Step(prog, c).cpu, n - 1);
      }
    }
  }
}
