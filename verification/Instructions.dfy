/** What every assembled instruction does, in plain numbers: the registers, the bytes of the stack and how
    the handler ends. The statements go neither through field extraction nor through the accessors' guard
    or the shift codes of the model. */
module Instructions {
  import opened Patterns
  import opened Ints
  import opened Shifts
  import opened Bitwise
  import opened Arith
  import opened Memory
  import opened Fields
  import opened Dispatcher
  import opened Isa
  import opened Assembler
  import opened Conformance
  import opened Handlers

  // ---------- registers and stack in numbers ----------

  /** A register at 64 bits, or its low 32 bits. */
  function View(v: u64, wide: bool): nat {
    if wide then v else v % 0x1_0000_0000
  }

  /** A register after a write of 64 bits, or of 32 bits that leave the upper half alone. */
  function Updated(was: u64, wide: bool, v: int): u64 {
    if wide then v % 0x1_0000_0000_0000_0000 else (was / 0x1_0000_0000) * 0x1_0000_0000 + v % 0x1_0000_0000
  }

  function Write(c: Cpu, wide: bool, i: nat, v: int): Cpu
    requires i < 32
  {
    c.(r := c.r[i := Updated(c.r[i], wide, v)])
  }

  function Range(wide: bool): (n: nat)
    ensures n > 0
  {
    if wide then 0x1_0000_0000_0000_0000 else 0x1_0000_0000
  }

  /** The signed offset that base and displacement add up to, at 64 or 32 bits. */
  function Offset(base: nat, k: int, wide: bool): int {
    var sum := (base + k) % Range(wide);
    if 2 * sum >= Range(wide) then sum - Range(wide) else sum
  }

  function Size(wide: bool): nat {
    if wide then 8 else 4
  }

  /** How an access to the stack of 524288 bytes ends: a start outside of it throws; a start inside, with
      an end outside, is past the array. */
  function Ends(off: int, size: nat): Status {
    if off < 0 || off > 524288 then Throw else if off + size > 524288 then Undefined else Continue
  }

  function Stored(c: Cpu, off: int, wide: bool, v: nat): Outcome {
    var s := Ends(off, Size(wide));
    if s != Continue then Outcome(s, c) else Done(c.(mem := Store(c.mem, off, Size(wide), v)))
  }

  function Loaded(c: Cpu, off: int, wide: bool, i: nat): Outcome
    requires i < 32
  {
    var s := Ends(off, Size(wide));
    if s != Continue then Outcome(s, c) else Done(Write(c, wide, i, Load(c.mem, off, Size(wide))))
  }

  /** What a store takes from register `i`: index 31 is zero. */
  function Operand(c: Cpu, wide: bool, i: nat): nat
    requires i < 32
  {
    if i == 31 then 0 else View(c.r[i], wide)
  }

  /** A base and a displacement inside the stack simply add up. */
  lemma OffsetInStack(base: nat, k: int, wide: bool)
    requires base <= 524288 && -0x10_0000 <= k <= 0x10_0000
    ensures Offset(base, k, wide) == base + k
  {}

  // ---------- the same in the terms of the model ----------

  function Wd(wide: bool): Width {
    if wide then W64 else W32
  }

  lemma ViewIsReg(c: Cpu, wide: bool, i: nat)
    requires i < 32
    ensures Reg(c, Wd(wide), i) == View(c.r[i], wide) && Source(c, Wd(wide), i) == Operand(c, wide, i)
  {}

  lemma UpdatedIsMerge(was: u64, wide: bool, v: int)
    ensures Merge(Wd(wide), was, Wrap(Wd(wide), v)) == Updated(was, wide, v)
  {}

  lemma WriteIsSetReg(c: Cpu, wide: bool, i: nat, v: int)
    requires i < 32
    ensures SetReg(c, Wd(wide), i, Wrap(Wd(wide), v)) == Write(c, wide, i, v)
    ensures 0 <= v < Range(wide) ==> SetReg(c, Wd(wide), i, v) == Write(c, wide, i, v)
  {
    UpdatedIsMerge(c.r[i], wide, v);
    WrapOfSmall(wide, v);
  }

  lemma WrapOfSmall(wide: bool, v: int)
    ensures Modulus(Wd(wide)) == Range(wide)
    ensures 0 <= v < Range(wide) ==> Wrap(Wd(wide), v) == v
  {}

  lemma OffsetIsAddress(base: nat, k: int, wide: bool)
    ensures Address(Wd(wide), base, k) == Offset(base, k, wide)
  {}

  lemma EndsIsAccess(off: int, wide: bool)
    ensures Access(off, Bytes(Wd(wide))) == Ends(off, Size(wide)) && Bytes(Wd(wide)) == Size(wide)
  {}

  lemma StoredIsStore(c: Cpu, off: int, wide: bool, v: nat)
    ensures StoreOne(c, Wd(wide), off, v) == Stored(c, off, wide, v)
  {
    hide Store;
    EndsIsAccess(off, wide);
  }

  lemma LoadedIsLoad(c: Cpu, off: int, wide: bool, i: nat)
    requires i < 32
    ensures LoadOne(c, Wd(wide), off, i) == Loaded(c, off, wide, i)
  {
    hide Load, SetReg, Write, Wrap, Access, Ends;
    EndsIsAccess(off, wide);
    if Ends(off, Size(wide)) == Continue {
      var v := Get(c, Wd(wide), off);
      WrapOfSmall(wide, v);
      WriteIsSetReg(c, wide, i, v);
    }
  }

  lemma HandledBy(w: Word, c: Cpu, op: Op)
    requires HandlerOf(w) == Some(op)
    ensures Exec(w, c) == ExecOp(op, w, c)
  {
    hide HandlerOf, ExecOp;
  }

  // ---------- ADD, SUB, ADDS, SUBS ----------

  /** The immediate of ADD, ADDS, SUB and SUBS. */
  function Imm(shifted: bool, imm12: nat): nat {
    if shifted then imm12 * 4096 else imm12
  }

  /** The flags of ADDS: sign, zero and carry of the sum, and overflow, which the 64-bit form also reports
      for every negative operand. */
  function SumFlags(wide: bool, x: nat, imm: nat): Flags {
    var n := Range(wide);
    var sum := (x + imm) % n;
    Flags(2 * sum >= n, sum == 0, x + imm >= n, if wide then 2 * x >= n || 2 * sum >= n else 2 * x < n && 2 * sum >= n)
  }

  /** The flags of SUBS: sign and zero of the difference, no borrow, and overflow. */
  function DifferenceFlags(wide: bool, x: nat, imm: nat): Flags {
    var n := Range(wide);
    var difference := (x - imm) % n;
    Flags(2 * difference >= n, difference == 0, x >= imm, 2 * x >= n && 2 * difference < n)
  }

  lemma SumFlagsAre(wide: bool, x: nat, imm: nat)
    requires x < Range(wide) && imm < 0x100_0000
    ensures AddsFlags(Wd(wide), x, imm) == SumFlags(wide, x, imm)
  {}

  lemma DifferenceFlagsAre(wide: bool, x: nat, imm: nat)
    requires x < Range(wide) && imm < 0x100_0000
    ensures SubFlags(Wd(wide), x, imm) == DifferenceFlags(wide, x, imm)
  {
    hide SubFlags;
    SubFlagBits(Wd(wide), x, imm);
  }

  lemma ViewRange(v: u64, wide: bool)
    ensures View(v, wide) < Range(wide)
  {}

  lemma AddSubExec(w: Word, c: Cpu, wide: bool)
    requires WidthOf(w) == Wd(wide)
    ensures var x, imm := View(c.r[Rn(w)], wide), ShiftedImm12(w);
            && ExecAddImm(w, c) == Done(Write(c, wide, Rd(w), x + imm))
            && ExecSubImm(w, c) == Done(Write(c, wide, Rd(w), x - imm))
  {
    hide Field, Sf, Sh, WidthOf, ShiftedImm12, Rn, Rd, View, Reg, Write, SetReg, Wrap;
    var x: int, imm: int := View(c.r[Rn(w)], wide), ShiftedImm12(w);
    ViewIsReg(c, wide, Rn(w));
    WriteIsSetReg(c, wide, Rd(w), x + imm);
    WriteIsSetReg(c, wide, Rd(w), x - imm);
  }

  lemma AddsExec(w: Word, c: Cpu, wide: bool)
    requires WidthOf(w) == Wd(wide)
    ensures var x, imm := View(c.r[Rn(w)], wide), ShiftedImm12(w);
            ExecAddsImm(w, c) == Done(Write(c.(f := SumFlags(wide, x, imm)), wide, Rd(w), x + imm))
  {
    hide Field, Sf, Sh, WidthOf, ShiftedImm12, Rn, Rd, View, Reg, Write, SetReg, Wrap, AddsFlags, SumFlags;
    var x, imm := View(c.r[Rn(w)], wide), ShiftedImm12(w);
    ViewIsReg(c, wide, Rn(w));
    ViewRange(c.r[Rn(w)], wide);
    SumFlagsAre(wide, x, imm);
    WriteIsSetReg(c.(f := SumFlags(wide, x, imm)), wide, Rd(w), x + imm);
  }

  lemma SubsExec(w: Word, c: Cpu, wide: bool)
    requires WidthOf(w) == Wd(wide)
    ensures var x, imm := View(c.r[Rn(w)], wide), ShiftedImm12(w);
            ExecSubsImm(w, c) == Done(Write(c.(f := DifferenceFlags(wide, x, imm)), wide, Rd(w), x - Imm12(w)))
  {
    hide Field, Sf, Sh, WidthOf, ShiftedImm12, Imm12, Rn, Rd, View, Reg, Write, SetReg, Wrap, SubFlags, DifferenceFlags;
    var x, imm := View(c.r[Rn(w)], wide), ShiftedImm12(w);
    ViewIsReg(c, wide, Rn(w));
    ViewRange(c.r[Rn(w)], wide);
    DifferenceFlagsAre(wide, x, imm);
    WriteIsSetReg(c.(f := DifferenceFlags(wide, x, imm)), wide, Rd(w), x - Imm12(w));
  }

  lemma AddSubFields(sf: bv1, op: bv1, s: bv1, sh: bv1, imm12: bv12, rn: bv5, rd: bv5)
    ensures var w := AddSubWord(sf, op, s, sh, imm12, rn, rd);
            && ShiftedImm12(w) == Imm(sh == 1, imm12 as nat) && WidthOf(w) == Wd(sf == 1)
            && HandlerOf(w) == Some(if op == 1 then (if s == 1 then SubsImm else SubImm)
                                               else (if s == 1 then AddsImm else AddImm))
            && Imm12(w) == imm12 as nat && Rn(w) == rn as nat && Rd(w) == rd as nat
  {
    hide HandlerOf, Field, AddSubWord, Sf, Sh;
    AddSubRoundTrip(sf, op, s, sh, imm12, rn, rd);
  }

  lemma AddSubDoes(c: Cpu, sf: bv1, op: bv1, sh: bv1, imm12: bv12, rn: bv5, rd: bv5)
    ensures var x, imm := View(c.r[rn as nat], sf == 1), Imm(sh == 1, imm12 as nat);
            Exec(AddSubWord(sf, op, 0, sh, imm12, rn, rd), c)
            == Done(Write(c, sf == 1, rd as nat, if op == 1 then x - imm else x + imm))
  {
    hide HandlerOf, Field, AddSubWord, Exec, ExecAddImm, ExecSubImm, WidthOf, ShiftedImm12, Rn, Rd, View, Write, Imm;
    var w := AddSubWord(sf, op, 0, sh, imm12, rn, rd);
    AddSubFields(sf, op, 0, sh, imm12, rn, rd);
    HandledBy(w, c, if op == 1 then SubImm else AddImm);
    AddSubExec(w, c, sf == 1);
  }

  /** ADDS adds; SUBS writes the difference with the immediate as encoded, and the flags of the difference
      with the immediate shifted. */
  lemma AddsSubsDoes(c: Cpu, sf: bv1, op: bv1, sh: bv1, imm12: bv12, rn: bv5, rd: bv5)
    ensures var x, imm := View(c.r[rn as nat], sf == 1), Imm(sh == 1, imm12 as nat);
            Exec(AddSubWord(sf, op, 1, sh, imm12, rn, rd), c)
            == Done(if op == 1 then
                      Write(c.(f := DifferenceFlags(sf == 1, x, imm)), sf == 1, rd as nat, x - imm12 as nat)
                    else
                      Write(c.(f := SumFlags(sf == 1, x, imm)), sf == 1, rd as nat, x + imm))
  {
    hide HandlerOf, Field, AddSubWord, Exec, ExecAddsImm, ExecSubsImm, WidthOf, ShiftedImm12, Imm12, Rn, Rd;
    hide View, Write, Imm, SumFlags, DifferenceFlags;
    var w := AddSubWord(sf, op, 1, sh, imm12, rn, rd);
    AddSubFields(sf, op, 1, sh, imm12, rn, rd);
    HandledBy(w, c, if op == 1 then SubsImm else AddsImm);
    AddsExec(w, c, sf == 1);
    SubsExec(w, c, sf == 1);
  }

  // ---------- MOVZ, ADRP, CSINC ----------

  lemma MovzExec(w: Word, c: Cpu, wide: bool)
    requires WidthOf(w) == Wd(wide)
    ensures ExecMovz(w, c)
            == if Hw(w) >= 2 then Outcome(Undefined, c)
               else Done(Write(c, wide, Rd(w), Imm16(w) * (if Hw(w) == 1 then 65536 else 1)))
  {
    hide Field, Sf, WidthOf, Rd, Hw, Imm16, Write, SetReg;
    WriteIsSetReg(c, wide, Rd(w), Imm16(w) * (if Hw(w) == 1 then 65536 else 1));
  }

  /** MOVZ: the immediate, moved up by 16 or not; larger shifts have no meaning. */
  lemma MovzDoes(c: Cpu, sf: bv1, hw: bv2, imm16: bv16, rd: bv5)
    ensures Exec(MovzWord(sf, hw, imm16, rd), c)
            == if hw as nat >= 2 then Outcome(Undefined, c)
               else Done(Write(c, sf == 1, rd as nat, (imm16 as nat) * (if hw as nat == 1 then 65536 else 1)))
  {
    hide HandlerOf, Field, MovzWord, Exec, ExecMovz, Rd, Hw, Imm16, Write;
    var w := MovzWord(sf, hw, imm16, rd);
    MovzRoundTrip(sf, hw, imm16, rd);
    HandledBy(w, c, Movz);
    MovzExec(w, c, sf == 1);
  }

  lemma AdrpExec(w: Word, c: Cpu)
    ensures ExecAdrp(w, c)
            == Done(Write(c, true, Rd(w), (c.pc / 1024) * 1024 + if ImmLo(w) == 0 && ImmHi(w) == 0 then 0 else 1024))
  {
    hide Field, Rd, ImmHi, ImmLo, Write, SetReg, Wrap;
    WriteIsSetReg(c, true, Rd(w), (c.pc / 1024) * 1024 + if ImmLo(w) == 0 && ImmHi(w) == 0 then 0 else 1024);
  }

  /** ADRP: the page of the PC, or the next one if any bit of the immediate is set. */
  lemma AdrpDoes(c: Cpu, immLo: bv2, immHi: bv19, rd: bv5)
    ensures Exec(AdrpWord(immLo, immHi, rd), c)
            == Done(Write(c, true, rd as nat,
                          (c.pc / 1024) * 1024 + if immLo as nat == 0 && immHi as nat == 0 then 0 else 1024))
  {
    hide HandlerOf, Field, AdrpWord, Exec, ExecAdrp, Rd, ImmHi, ImmLo, Write;
    var w := AdrpWord(immLo, immHi, rd);
    AdrpRoundTrip(immLo, immHi, rd);
    HandledBy(w, c, Adrp);
    AdrpExec(w, c);
  }

  /** What CSINC writes: with both sources 31 and a condition that can be inverted, the truth value of the
      inverted one; otherwise the first source, or the second one plus one, index 31 being zero. */
  function Selected(c: Cpu, wide: bool, m: nat, k: nat, n: nat): nat
    requires m < 32 && n < 32 && k < 16
  {
    if m == 31 && n == 31 && k < 14 then (if CondTrue(if k % 2 == 0 then k + 1 else k - 1, c.f) then 1 else 0)
    else if CondTrue(k, c.f) then Operand(c, wide, n)
    else Operand(c, wide, m) + 1
  }

  lemma CsincExec(w: Word, c: Cpu, wide: bool)
    requires WidthOf(w) == Wd(wide)
    ensures ExecCsinc(w, c) == Done(Write(c, wide, Rd(w), Selected(c, wide, Rm(w), Cond(w), Rn(w))))
  {
    hide Field, Sf, WidthOf, Rn, Rm, Rd, Cond, Write, SetReg, CondTrue, Source, Operand, Wrap;
    var m, n := Operand(c, wide, Rm(w)), Operand(c, wide, Rn(w));
    ViewIsReg(c, wide, Rm(w));
    ViewIsReg(c, wide, Rn(w));
    WrapOfSmall(wide, n);
    WriteIsSetReg(c, wide, Rd(w), n);
    WriteIsSetReg(c, wide, Rd(w), m + 1);
    WriteIsSetReg(c, wide, Rd(w), 0);
    WriteIsSetReg(c, wide, Rd(w), 1);
  }

  lemma CsincDoes(c: Cpu, sf: bv1, rm: bv5, cond: bv4, rn: bv5, rd: bv5)
    ensures Exec(CsincWord(sf, rm, cond, rn, rd), c)
            == Done(Write(c, sf == 1, rd as nat, Selected(c, sf == 1, rm as nat, cond as nat, rn as nat)))
  {
    hide HandlerOf, Field, CsincWord, Exec, ExecCsinc, Rn, Rm, Rd, Cond, Write, Selected;
    var w := CsincWord(sf, rm, cond, rn, rd);
    CsincRoundTrip(sf, rm, cond, rn, rd);
    HandledBy(w, c, Csinc);
    CsincExec(w, c, sf == 1);
  }

  // ---------- ORR ----------

  /** Bit `k` of the second operand `v` of ORR, `n` bits wide: the shift code says which bit of the register
      is taken. */
  predicate OperandBit(code: nat, n: nat, v: nat, a: nat, k: nat)
    requires n > 0
  {
    if code == 0 then k >= a && IsSet(v, k - a)
    else if code == 1 then IsSet(v, k + a)
    else if code == 2 then IsSet(v, if k + a < n then k + a else n - 1)
    else IsSet(v, (k + a) % n)
  }

  /** ORR has no meaning for amounts from the width on, and for the arithmetic shift of a negative operand
      by the width less one. */
  predicate OrrDefined(code: nat, n: nat, wide: bool, v: nat, a: nat) {
    a < n && !(code == 2 && 2 * v >= Range(wide) && a == n - 1)
  }

  lemma RuleBit(code: nat, wide: bool, v: nat, a: nat, k: nat)
    requires code < 4
    ensures var n := if wide then 64 else 32;
            && ShiftedBit(RuleOf(code), Wd(wide), v, a, k) == OperandBit(code, n, v, a, k)
            && Bits(Wd(wide)) == n
            && (a < n && !FullWidthShift(RuleOf(code), Wd(wide), v, a) <==> OrrDefined(code, n, wide, v, a))
  {
    hide IsSet;
  }

  lemma OrrWrites(w: Word, c: Cpu)
    ensures var o := ExecOrrSh(w, c);
            && (o.status != Continue ==> o == Outcome(Undefined, c))
            && (o.status == Continue ==> o.cpu == SetReg(c, WidthOf(w), Rd(w), Reg(o.cpu, WidthOf(w), Rd(w))))
  {
    hide Field, Sf, Shifted, BitOr, FullWidthShift;
  }

  lemma OrrExec(w: Word, c: Cpu, wide: bool, k: nat)
    requires WidthOf(w) == Wd(wide) && k < if wide then 64 else 32
    ensures var n := if wide then 64 else 32;
            var v := View(c.r[Rm(w)], wide);
            var o := ExecOrrSh(w, c);
            if !OrrDefined(ShiftBits(w), n, wide, v, Imm6(w)) then o == Outcome(Undefined, c)
            else
              var result := View(o.cpu.r[Rd(w)], wide);
              && o == Done(Write(c, wide, Rd(w), result))
              && (IsSet(result, k) <==> (Rn(w) != 31 && IsSet(View(c.r[Rn(w)], wide), k))
                                        || OperandBit(ShiftBits(w), n, v, Imm6(w), k))
  {
    hide Field, Sf, WidthOf, Rn, Rm, Rd, Imm6, ShiftBits, ExecOrrSh, IsSet, ShiftedBit, OperandBit, OrrDefined;
    hide FullWidthShift, Reg, View, Write, SetReg;
    OrrBits(w, c, k);
    OrrWrites(w, c);
    ViewIsReg(c, wide, Rm(w));
    ViewIsReg(c, wide, Rn(w));
    RuleBit(ShiftBits(w), wide, View(c.r[Rm(w)], wide), Imm6(w), k);
    var o := ExecOrrSh(w, c);
    ViewIsReg(o.cpu, wide, Rd(w));
    ViewRange(o.cpu.r[Rd(w)], wide);
    WriteIsSetReg(c, wide, Rd(w), View(o.cpu.r[Rd(w)], wide));
  }

  /** ORR, bit by bit, for every shift code. */
  lemma OrrDoes(c: Cpu, sf: bv1, shift: bv2, rm: bv5, imm6: bv6, rn: bv5, rd: bv5, k: nat)
    requires k < if sf == 1 then 64 else 32
    ensures var n := if sf == 1 then 64 else 32;
            var v := View(c.r[rm as nat], sf == 1);
            var o := Exec(OrrWord(sf, shift, rm, imm6, rn, rd), c);
            if !OrrDefined(shift as nat, n, sf == 1, v, imm6 as nat) then o == Outcome(Undefined, c)
            else
              var result := View(o.cpu.r[rd as nat], sf == 1);
              && o == Done(Write(c, sf == 1, rd as nat, result))
              && (IsSet(result, k) <==> (rn as nat != 31 && IsSet(View(c.r[rn as nat], sf == 1), k))
                                        || OperandBit(shift as nat, n, v, imm6 as nat, k))
  {
    hide HandlerOf, Field, OrrWord, Exec, ExecOrrSh, Rn, Rm, Rd, Imm6, ShiftBits;
    hide View, Write, IsSet, OperandBit, OrrDefined;
    var w := OrrWord(sf, shift, rm, imm6, rn, rd);
    OrrRoundTrip(sf, shift, rm, imm6, rn, rd);
    HandledBy(w, c, OrrSh);
    OrrExec(w, c, sf == 1, k);
  }

  // ---------- branches ----------

  /** A turn on TBNZ: taken, it moves the PC by the field as it stands. */
  lemma TbnzDoes(prog: seq<Word>, c: Cpu, b5: bv1, b40: bv5, imm14: bv14, rt: bv5)
    requires c.pc < |prog| && prog[c.pc] == TbnzWord(b5, b40, imm14, rt)
    ensures var bit := (View(c.r[rt as nat], b5 == 1) / Pow2(b40 as nat + if b5 == 1 then 32 else 0)) % 2;
            Step(prog, c) == Done(c.(pc := (c.pc + if bit == 1 then imm14 as nat else 1) % 0x1_0000_0000_0000_0000))
  {
    hide HandlerOf, Field, TbnzWord, Step, Reg, View, Pow2, Rd, B40, Imm14;
    TbnzRoundTrip(b5, b40, imm14, rt);
    ViewIsReg(c, b5 == 1, rt as nat);
    TbnzStep(prog, c, prog[c.pc]);
  }

  /** A turn on RET: it halts on zero; otherwise control goes to the register, which is cleared. */
  lemma RetDoes(prog: seq<Word>, c: Cpu, rn: bv5)
    requires c.pc < |prog| && prog[c.pc] == RetWord(rn)
    ensures var target := c.r[rn as nat];
            Step(prog, c) == if target == 0 then Outcome(Stop, c) else Done(c.(pc := target, r := c.r[rn as nat := 0]))
  {
    hide HandlerOf, Field, RetWord, Step, Rn;
    RetRoundTrip(rn);
    RetStepIs(prog, c, prog[c.pc]);
  }

  // ---------- STR, LDR, STUR ----------

  lemma StrExec(w: Word, c: Cpu, wide: bool)
    requires SingleWidth(w) == Some(Wd(wide))
    ensures StrUnsignedOffset(w) ==>
              ExecStrImm(w, c)
              == Stored(c, Offset(View(c.r[Rn(w)], wide), Imm12(w) * Size(wide), wide), wide, Operand(c, wide, Rd(w)))
    ensures ExecStur(w, c)
            == Stored(c, Offset(View(c.r[Rn(w)], wide), SignExtend(Imm9(w), 9), wide), wide, Operand(c, wide, Rd(w)))
  {
    hide Field, SingleWidth, StrUnsignedOffset, Reg, Source, View, Operand, StoreOne, Stored, SignExtend;
    hide Address, Offset, Rn, Rd, Imm12, Imm9;
    var base, v := View(c.r[Rn(w)], wide), Operand(c, wide, Rd(w));
    ViewIsReg(c, wide, Rn(w));
    ViewIsReg(c, wide, Rd(w));
    OffsetIsAddress(base, Imm12(w) * Size(wide), wide);
    OffsetIsAddress(base, SignExtend(Imm9(w), 9), wide);
    StoredIsStore(c, Offset(base, Imm12(w) * Size(wide), wide), wide, v);
    StoredIsStore(c, Offset(base, SignExtend(Imm9(w), 9), wide), wide, v);
  }

  lemma LdrExec(w: Word, c: Cpu, wide: bool)
    requires SingleWidth(w) == Some(Wd(wide))
    ensures LdrUnsignedOffset(w) ==>
              ExecLdrImm(w, c)
              == Loaded(c, Offset(View(c.r[Rn(w)], wide), Imm12(w) * Size(wide), wide), wide, Rd(w))
    ensures ExecLdur(w, c)
            == Loaded(c, Offset(View(c.r[Rn(w)], wide), SignExtend(Imm9(w), 9), wide), wide, Rd(w))
  {
    hide Field, SingleWidth, LdrUnsignedOffset, Reg, View, LoadOne, Loaded, SignExtend;
    hide Address, Offset, Rn, Rd, Imm12, Imm9;
    var base := View(c.r[Rn(w)], wide);
    ViewIsReg(c, wide, Rn(w));
    OffsetIsAddress(base, Imm12(w) * Size(wide), wide);
    OffsetIsAddress(base, SignExtend(Imm9(w), 9), wide);
    LoadedIsLoad(c, Offset(base, Imm12(w) * Size(wide), wide), wide, Rd(w));
    LoadedIsLoad(c, Offset(base, SignExtend(Imm9(w), 9), wide), wide, Rd(w));
  }

  /** STR and LDR with unsigned offset: the cell at base plus scaled offset. */
  lemma UnsignedDoes(c: Cpu, x: bv1, load: bv1, imm12: bv12, rn: bv5, rt: bv5)
    ensures var off := Offset(View(c.r[rn as nat], x == 1), (imm12 as nat) * Size(x == 1), x == 1);
            Exec(UnsignedWord(x, load, imm12, rn, rt), c)
            == if load == 1 then Loaded(c, off, x == 1, rt as nat)
               else Stored(c, off, x == 1, Operand(c, x == 1, rt as nat))
  {
    hide HandlerOf, Field, UnsignedWord, SingleWidth, StrUnsignedOffset, LdrUnsignedOffset, Exec;
    hide ExecStrImm, ExecLdrImm, View, Operand, Stored, Loaded, Offset, Rn, Rd, Imm12;
    var w := UnsignedWord(x, load, imm12, rn, rt);
    UnsignedRoundTrip(x, load, imm12, rn, rt);
    HandledBy(w, c, if load == 1 then LdrImm else StrImm);
    StrExec(w, c, x == 1);
    LdrExec(w, c, x == 1);
  }

  /** A signed nine-bit field. */
  function Signed9(imm9: nat): int {
    if imm9 < 256 then imm9 else imm9 - 512
  }

  lemma Signed9Is(imm9: nat)
    requires imm9 < 512
    ensures SignExtend(imm9, 9) == Signed9(imm9)
  {
    hide Pow2;
    Pow2At9();
  }

  /** STUR stores at base plus signed displacement, and so does every LDUR; the handler of LDUR, which no
      word reaches, loads from there. */
  lemma UnscaledDoes(c: Cpu, x: bv1, load: bv1, imm9: bv9, rn: bv5, rt: bv5)
    ensures var w := UnscaledWord(x, load, imm9, rn, rt);
            var off := Offset(View(c.r[rn as nat], x == 1), Signed9(imm9 as nat), x == 1);
            && Exec(w, c) == Stored(c, off, x == 1, Operand(c, x == 1, rt as nat))
            && ExecLdur(w, c) == Loaded(c, off, x == 1, rt as nat)
  {
    hide HandlerOf, Field, UnscaledWord, SingleWidth, Exec, ExecStur, ExecLdur, SignExtend, Signed9;
    hide View, Operand, Stored, Loaded, Offset, Rn, Rd, Imm9;
    var w := UnscaledWord(x, load, imm9, rn, rt);
    UnscaledRoundTrip(x, load, imm9, rn, rt);
    HandledBy(w, c, Stur);
    Signed9Is(Imm9(w));
    StrExec(w, c, x == 1);
    LdrExec(w, c, x == 1);
  }

  // ---------- indexed STR and LDR ----------

  lemma PostIndexExec(w: Word, c: Cpu, wide: bool)
    requires SingleWidth(w) == Some(Wd(wide)) && Field(w, 10, 11) == 1
    ensures var s := Ends(Offset(View(c.r[Rn(w)], wide), Imm9(w), wide), Size(wide));
            var o := Outcome(if s == Continue then Stop else s, c);
            && (!StrUnsignedOffset(w) && StrIndexed(w) ==> ExecStrImm(w, c) == o)
            && (!LdrUnsignedOffset(w) && LdrIndexed(w) ==> ExecLdrImm(w, c) == o)
  {
    hide Field, SingleWidth, StrUnsignedOffset, StrIndexed, LdrUnsignedOffset, LdrIndexed;
    hide Reg, View, Source, Address, Offset, Rn, Rd, Imm9, Access, Ends;
    ViewIsReg(c, wide, Rn(w));
    OffsetIsAddress(View(c.r[Rn(w)], wide), Imm9(w), wide);
    EndsIsAccess(Offset(View(c.r[Rn(w)], wide), Imm9(w), wide), wide);
  }

  /** Post-index STR and LDR: the access is tried, and then refused. */
  lemma PostIndexDoes(c: Cpu, x: bv1, load: bv1, imm9: bv9, rn: bv5, rt: bv5)
    ensures var s := Ends(Offset(View(c.r[rn as nat], x == 1), imm9 as nat, x == 1), Size(x == 1));
            Exec(IndexedWord(x, load, imm9, 0, rn, rt), c) == Outcome(if s == Continue then Stop else s, c)
  {
    hide HandlerOf, Field, IndexedWord, SingleWidth, Exec, ExecStrImm, ExecLdrImm, View, Offset, Rn, Rd, Imm9, Ends;
    hide StrUnsignedOffset, StrIndexed, LdrUnsignedOffset, LdrIndexed;
    var w := IndexedWord(x, load, imm9, 0, rn, rt);
    IndexedHandlerRoundTrip(x, load, imm9, 0, rn, rt);
    IndexedFormRoundTrip(x, load, imm9, 0, rn, rt);
    HandledBy(w, c, if load == 1 then LdrImm else StrImm);
    PostIndexExec(w, c, x == 1);
  }

  /** Pre-index STR: only the 32-bit form writes the base back. */
  function PreStored(c: Cpu, wide: bool, k: nat, n: nat, t: nat): Outcome
    requires n < 32 && t < 32
  {
    var base := View(c.r[n], wide);
    var o := Stored(c, Offset(base, k, wide), wide, Operand(c, wide, t));
    if o.status == Continue && !wide then Done(Write(o.cpu, wide, n, base + k)) else o
  }

  /** Pre-index LDR: the register is loaded, and then the base is advanced. */
  function PreLoaded(c: Cpu, wide: bool, k: nat, n: nat, t: nat): Outcome
    requires n < 32 && t < 32
  {
    var o := Loaded(c, Offset(View(c.r[n], wide), k, wide), wide, t);
    if o.status == Continue then Done(Write(o.cpu, wide, n, View(o.cpu.r[n], wide) + k)) else o
  }

  lemma PreStrExec(w: Word, c: Cpu, wide: bool)
    requires SingleWidth(w) == Some(Wd(wide)) && Field(w, 10, 11) != 1 && !StrUnsignedOffset(w) && StrIndexed(w)
    ensures ExecStrImm(w, c) == PreStored(c, wide, Imm9(w), Rn(w), Rd(w))
  {
    hide Field, SingleWidth, StrUnsignedOffset, StrIndexed, Reg, View, Source, Operand, Address, Offset, Rn, Rd, Imm9;
    hide Access, Ends, Store, SetReg, Write, Wrap;
    var base := View(c.r[Rn(w)], wide);
    var off := Offset(base, Imm9(w), wide);
    ViewIsReg(c, wide, Rn(w));
    ViewIsReg(c, wide, Rd(w));
    OffsetIsAddress(base, Imm9(w), wide);
    EndsIsAccess(off, wide);
    var stored := Stored(c, off, wide, Operand(c, wide, Rd(w))).cpu;
    ViewIsReg(stored, wide, Rn(w));
    WriteIsSetReg(stored, wide, Rn(w), base + Imm9(w));
  }

  lemma PreLdrExec(w: Word, c: Cpu, wide: bool)
    requires SingleWidth(w) == Some(Wd(wide)) && Field(w, 10, 11) != 1 && !LdrUnsignedOffset(w) && LdrIndexed(w)
    ensures ExecLdrImm(w, c) == PreLoaded(c, wide, Imm9(w), Rn(w), Rd(w))
  {
    hide Field, SingleWidth, LdrUnsignedOffset, LdrIndexed, Reg, View, Address, Offset, Rn, Rd, Imm9;
    hide Access, Ends, Get, Loaded, SetReg, Write, Wrap;
    var off := Offset(View(c.r[Rn(w)], wide), Imm9(w), wide);
    ViewIsReg(c, wide, Rn(w));
    OffsetIsAddress(View(c.r[Rn(w)], wide), Imm9(w), wide);
    LoadedIsLoad(c, off, wide, Rd(w));
    var loaded := Loaded(c, off, wide, Rd(w)).cpu;
    ViewIsReg(loaded, wide, Rn(w));
    WriteIsSetReg(loaded, wide, Rn(w), View(loaded.r[Rn(w)], wide) + Imm9(w));
  }

  lemma PreIndexDoes(c: Cpu, x: bv1, load: bv1, imm9: bv9, rn: bv5, rt: bv5)
    ensures Exec(IndexedWord(x, load, imm9, 1, rn, rt), c)
            == if load == 1 then PreLoaded(c, x == 1, imm9 as nat, rn as nat, rt as nat)
               else PreStored(c, x == 1, imm9 as nat, rn as nat, rt as nat)
  {
    hide HandlerOf, Field, IndexedWord, SingleWidth, Exec, ExecStrImm, ExecLdrImm, Rn, Rd, Imm9, PreStored, PreLoaded;
    hide StrUnsignedOffset, StrIndexed, LdrUnsignedOffset, LdrIndexed;
    var w := IndexedWord(x, load, imm9, 1, rn, rt);
    IndexedHandlerRoundTrip(x, load, imm9, 1, rn, rt);
    IndexedFormRoundTrip(x, load, imm9, 1, rn, rt);
    HandledBy(w, c, if load == 1 then LdrImm else StrImm);
    if load == 1 {
      PreLdrExec(w, c, x == 1);
    } else {
      PreStrExec(w, c, x == 1);
    }
  }

  /** A word without bit 31 that reaches STR or LDR, such as STRB, is refused. */
  lemma NarrowRefused(w: Word, c: Cpu)
    requires HandlerOf(w) in {Some(StrImm), Some(LdrImm)} && w & 0x80000000 == 0
    ensures Exec(w, c) == Outcome(Stop, c)
  {
    NarrowSize(w);
    hide HandlerOf, Field, SingleWidth;
  }

  lemma NarrowSize(w: Word)
    requires w & 0x80000000 == 0
    ensures SingleWidth(w) == None
  {}

  // ---------- pairs ----------

  /** Both cells of a pair are located before anything is accessed. */
  function PairEnds(off1: int, off2: int, wide: bool): Status {
    if Ends(off1, Size(wide)) != Continue then Ends(off1, Size(wide)) else Ends(off2, Size(wide))
  }

  /** Index 1 is post-index, 2 signed offset, 3 pre-index; all three store at base plus offset. */
  function PairStored(c: Cpu, wide: bool, index: nat, d: nat, t2: nat, n: nat, t: nat): Outcome
    requires n < 32 && t < 32 && t2 < 32
  {
    var base := View(c.r[n], wide);
    var off1, off2 := Offset(base, d, wide), Offset(base, d + Size(wide), wide);
    var s := PairEnds(off1, off2, wide);
    if s != Continue then Outcome(s, c)
    else
      var one := Store(c.mem, off1, Size(wide), Operand(c, wide, t));
      var stored := c.(mem := Store(one, off2, Size(wide), Operand(c, wide, t2)));
      Done(if index == 2 then stored else Write(stored, wide, n, base + d))
  }

  /** The two registers receive the two cells; pre-index advances the base before, post-index after. */
  function PairLoaded(c: Cpu, wide: bool, index: nat, d: nat, t2: nat, n: nat, t: nat): Outcome
    requires n < 32 && t < 32 && t2 < 32
  {
    var base := View(c.r[n], wide);
    var off1, off2 := Offset(base, d, wide), Offset(base, d + Size(wide), wide);
    var s := PairEnds(off1, off2, wide);
    if s != Continue then Outcome(s, c)
    else
      Done(PairWritten(c, wide, index, d, t2, n, t, Load(c.mem, off1, Size(wide)), Load(c.mem, off2, Size(wide))))
  }

  function PairWritten(c: Cpu, wide: bool, index: nat, d: nat, t2: nat, n: nat, t: nat, v1: nat, v2: nat): Cpu
    requires n < 32 && t < 32 && t2 < 32
  {
    var before := if index == 3 then Write(c, wide, n, View(c.r[n], wide) + d) else c;
    var loaded := Write(Write(before, wide, t, v1), wide, t2, v2);
    if index == 1 then Write(loaded, wide, n, View(loaded.r[n], wide) + d) else loaded
  }

  function FormOf(index: nat): Form {
    if index == 1 then PostIndex else if index == 2 then SignedOffset else PreIndex
  }

  lemma PairEndsIsAccess(c: Cpu, wide: bool, n: nat, d: nat)
    requires n < 32
    ensures var base := View(c.r[n], wide);
            PairAccess(Wd(wide), Reg(c, Wd(wide), n), d)
            == PairEnds(Offset(base, d, wide), Offset(base, d + Size(wide), wide), wide)
  {
    hide Reg, View, Address, Offset, Access, Ends;
    var base := View(c.r[n], wide);
    ViewIsReg(c, wide, n);
    OffsetIsAddress(base, d, wide);
    OffsetIsAddress(base, d + Size(wide), wide);
    EndsIsAccess(Offset(base, d, wide), wide);
    EndsIsAccess(Offset(base, d + Size(wide), wide), wide);
  }

  lemma PairInStack(off1: int, off2: int, wide: bool)
    requires PairEnds(off1, off2, wide) == Continue
    ensures 0 <= off1 && off1 + Size(wide) <= STACK_SIZE && 0 <= off2 && off2 + Size(wide) <= STACK_SIZE
  {}

  lemma StpExec(w: Word, c: Cpu, wide: bool, index: nat)
    requires PairWidth(w) == Some(Wd(wide)) && 0 < index < 4 && StpForm(w) == FormOf(index)
    ensures ExecStp(w, c) == PairStored(c, wide, index, Imm7(w) * Size(wide), Rt2(w), Rn(w), Rd(w))
  {
    hide Field, PairWidth, StpForm, Reg, View, Source, Operand, Address, Offset, Rn, Rd, Rt2, Imm7;
    hide Store, SetReg, Write, Wrap, PairAccess, Access, Ends;
    var base, d := View(c.r[Rn(w)], wide), Imm7(w) * Size(wide);
    ViewIsReg(c, wide, Rn(w));
    ViewIsReg(c, wide, Rd(w));
    ViewIsReg(c, wide, Rt2(w));
    PairEndsIsAccess(c, wide, Rn(w), d);
    var off1, off2 := Offset(base, d, wide), Offset(base, d + Size(wide), wide);
    OffsetIsAddress(base, d, wide);
    OffsetIsAddress(base, d + Size(wide), wide);
    EndsIsAccess(off1, wide);
    EndsIsAccess(off2, wide);
    if PairEnds(off1, off2, wide) == Continue {
      PairInStack(off1, off2, wide);
      var one := Store(c.mem, off1, Size(wide), Operand(c, wide, Rd(w)));
      var stored := c.(mem := Store(one, off2, Size(wide), Operand(c, wide, Rt2(w))));
      ViewIsReg(stored, wide, Rn(w));
      WriteIsSetReg(stored, wide, Rn(w), base + d);
    }
  }

  lemma LdpExec(w: Word, c: Cpu, wide: bool, index: nat)
    requires PairWidth(w) == Some(Wd(wide)) && 0 < index < 4 && LdpForm(w) == FormOf(index)
    ensures ExecLdp(w, c) == PairLoaded(c, wide, index, Imm7(w) * Size(wide), Rt2(w), Rn(w), Rd(w))
  {
    hide Field, PairWidth, LdpForm, Reg, View, Address, Offset, Rn, Rd, Rt2, Imm7;
    hide Load, LdpWrite, PairWritten, PairAccess, Access, Ends;
    var base, d := View(c.r[Rn(w)], wide), Imm7(w) * Size(wide);
    ViewIsReg(c, wide, Rn(w));
    PairEndsIsAccess(c, wide, Rn(w), d);
    var off1, off2 := Offset(base, d, wide), Offset(base, d + Size(wide), wide);
    OffsetIsAddress(base, d, wide);
    OffsetIsAddress(base, d + Size(wide), wide);
    EndsIsAccess(off1, wide);
    EndsIsAccess(off2, wide);
    if PairEnds(off1, off2, wide) == Continue {
      LdpWriteExec(w, c, wide, index, d, Get(c, Wd(wide), off1), Get(c, Wd(wide), off2));
    }
  }

  lemma LdpWriteExec(w: Word, c: Cpu, wide: bool, index: nat, d: nat, v1: nat, v2: nat)
    requires 0 < index < 4 && LdpForm(w) == FormOf(index) && v1 < Modulus(Wd(wide)) && v2 < Modulus(Wd(wide))
    ensures LdpWrite(w, c, Wd(wide), d, v1, v2) == Done(PairWritten(c, wide, index, d, Rt2(w), Rn(w), Rd(w), v1, v2))
  {
    hide Field, LdpForm, Reg, View, Rn, Rd, Rt2, SetReg, Write, Wrap;
    var before := if index == 3 then Write(c, wide, Rn(w), View(c.r[Rn(w)], wide) + d) else c;
    var one := Write(before, wide, Rd(w), v1);
    var loaded := Write(one, wide, Rt2(w), v2);
    ViewIsReg(c, wide, Rn(w));
    ViewIsReg(loaded, wide, Rn(w));
    WriteIsSetReg(c, wide, Rn(w), View(c.r[Rn(w)], wide) + d);
    WriteIsSetReg(before, wide, Rd(w), v1);
    WriteIsSetReg(one, wide, Rt2(w), v2);
    WriteIsSetReg(loaded, wide, Rn(w), View(loaded.r[Rn(w)], wide) + d);
  }

  lemma PairFormFields(x: bv1, index: bv2, load: bv1, imm7: bv7, rt2: bv5, rn: bv5, rt: bv5)
    requires index != 0
    ensures var w := PairWord(x, index, load, imm7, rt2, rn, rt);
            && 0 < index as nat < 4 && PairWidth(w) == Some(Wd(x == 1))
            && HandlerOf(w) == Some(if load == 1 then Ldp else Stp)
            && (if load == 1 then LdpForm(w) else StpForm(w)) == FormOf(index as nat)
            && Imm7(w) == imm7 as nat && Rt2(w) == rt2 as nat && Rn(w) == rn as nat && Rd(w) == rt as nat
  {
    hide HandlerOf, Field, PairWord, PairWidth, LdpForm, StpForm;
    PairHandlerRoundTrip(x, index, load, imm7, rt2, rn, rt);
    PairRoundTrip(x, index, load, imm7, rt2, rn, rt);
    assert (index == 1 <==> index as nat == 1) && (index == 2 <==> index as nat == 2);
    assert index == 3 <==> index as nat == 3;
  }

  /** STP and LDP in their three forms. */
  lemma PairDoes(c: Cpu, x: bv1, index: bv2, load: bv1, imm7: bv7, rt2: bv5, rn: bv5, rt: bv5)
    requires index != 0
    ensures var d := (imm7 as nat) * Size(x == 1);
            Exec(PairWord(x, index, load, imm7, rt2, rn, rt), c)
            == if load == 1 then PairLoaded(c, x == 1, index as nat, d, rt2 as nat, rn as nat, rt as nat)
               else PairStored(c, x == 1, index as nat, d, rt2 as nat, rn as nat, rt as nat)
  {
    hide HandlerOf, Field, PairWord, PairWidth, LdpForm, StpForm, Exec, ExecStp, ExecLdp, PairLoaded, PairStored;
    hide Rn, Rd, Rt2, Imm7;
    var w := PairWord(x, index, load, imm7, rt2, rn, rt);
    PairFormFields(x, index, load, imm7, rt2, rn, rt);
    HandledBy(w, c, if load == 1 then Ldp else Stp);
    if load == 1 {
      LdpExec(w, c, x == 1, index as nat);
    } else {
      StpExec(w, c, x == 1, index as nat);
    }
  }

  /** Whatever word they are given, the handlers of loads and stores refuse a size or form they do not know,
      after the accesses of a pair have been tried, and change nothing. */
  lemma UnknownRefused(w: Word, c: Cpu)
    ensures SingleWidth(w) == None ==> ExecStrImm(w, c) == ExecLdrImm(w, c) == Outcome(Stop, c)
    ensures SingleWidth(w) == None ==> ExecStur(w, c) == ExecLdur(w, c) == Outcome(Stop, c)
    ensures SingleWidth(w).Some? && !StrUnsignedOffset(w) && !StrIndexed(w) ==> ExecStrImm(w, c) == Outcome(Stop, c)
    ensures SingleWidth(w).Some? && !LdrUnsignedOffset(w) && !LdrIndexed(w) ==> ExecLdrImm(w, c) == Outcome(Stop, c)
    ensures PairWidth(w) == None ==> ExecStp(w, c) == ExecLdp(w, c) == Outcome(Stop, c)
    ensures PairWidth(w).Some? && StpForm(w) in {BadIndex, NoForm} ==>
              ExecStp(w, c) == Outcome(if PairTried(w, c) == Continue then Stop else PairTried(w, c), c)
    ensures PairWidth(w).Some? && LdpForm(w) in {BadIndex, NoForm} ==>
              ExecLdp(w, c) == Outcome(if PairTried(w, c) == Continue then Stop else PairTried(w, c), c)
  {
    hide Field, SingleWidth, PairWidth, StpForm, LdpForm, StrUnsignedOffset, StrIndexed, LdrUnsignedOffset, LdrIndexed;
    hide View, Offset, Address, Access, Ends, Reg, PairAccess, PairEnds, Imm7, Rn;
    if PairWidth(w).Some? {
      var wide := PairWidth(w).value == W64;
      EndsIsAccess(0, wide);
      PairEndsIsAccess(c, wide, Rn(w), Imm7(w) * Size(wide));
    }
  }

  function PairTried(w: Word, c: Cpu): Status
    requires PairWidth(w).Some?
  {
    var wide := PairWidth(w).value == W64;
    var base, d := View(c.r[Rn(w)], wide), Imm7(w) * Size(wide);
    PairEnds(Offset(base, d, wide), Offset(base, d + Size(wide), wide), wide)
  }

  // ---------- accesses from a base inside the stack ----------

  /** How an access of `size` bytes at `a` ends, and when. */
  ghost predicate EndsRight(s: Status, a: int, size: nat) {
    && (s == Continue <==> 0 <= a && a + size <= 524288)
    && (s == Throw <==> a < 0 || a > 524288)
    && (s == Undefined <==> 524288 - size < a <= 524288)
  }

  /** A store that ends right and, when it succeeds, writes the bytes of `v` at `a` and nothing else. */
  ghost predicate StoresAt(o: Outcome, c: Cpu, a: int, size: nat, v: nat) {
    EndsRight(o.status, a, size) && (o.status == Continue ==> o.cpu == c.(mem := Store(c.mem, a, size, v)))
  }

  /** A load that ends right and, when it succeeds, writes the cell at `a` to register `i`. */
  ghost predicate LoadsAt(o: Outcome, c: Cpu, a: int, wide: bool, i: nat)
    requires i < 32
  {
    && EndsRight(o.status, a, Size(wide))
    && (o.status == Continue ==> o.cpu == Write(c, wide, i, Load(c.mem, a, Size(wide))))
  }

  lemma StoredInStack(c: Cpu, base: nat, k: int, wide: bool, v: nat)
    requires base <= 524288 && -0x10_0000 <= k <= 0x10_0000
    ensures StoresAt(Stored(c, Offset(base, k, wide), wide, v), c, base + k, Size(wide), v)
  {
    hide Offset, Store;
    OffsetInStack(base, k, wide);
  }

  lemma LoadedInStack(c: Cpu, base: nat, k: int, wide: bool, i: nat)
    requires base <= 524288 && -0x10_0000 <= k <= 0x10_0000 && i < 32
    ensures LoadsAt(Loaded(c, Offset(base, k, wide), wide, i), c, base + k, wide, i)
  {
    hide Offset, Load, Write;
    OffsetInStack(base, k, wide);
  }

  /** STR and LDR with unsigned offset, from a base inside the stack. */
  lemma UnsignedInStack(c: Cpu, x: bv1, load: bv1, imm12: bv12, rn: bv5, rt: bv5)
    requires View(c.r[rn as nat], x == 1) <= 524288
    ensures var a := View(c.r[rn as nat], x == 1) + (imm12 as nat) * Size(x == 1);
            var o := Exec(UnsignedWord(x, load, imm12, rn, rt), c);
            if load == 1 then LoadsAt(o, c, a, x == 1, rt as nat)
            else StoresAt(o, c, a, Size(x == 1), Operand(c, x == 1, rt as nat))
  {
    hide Exec, UnsignedWord, View, Operand, Offset, Stored, Loaded, StoresAt, LoadsAt;
    UnsignedDoes(c, x, load, imm12, rn, rt);
    assert imm12 as nat < 4096;
    var base, k := View(c.r[rn as nat], x == 1), (imm12 as nat) * Size(x == 1);
    StoredInStack(c, base, k, x == 1, Operand(c, x == 1, rt as nat));
    LoadedInStack(c, base, k, x == 1, rt as nat);
  }

  /** STUR, every LDUR, and the handler of LDUR, from a base inside the stack. */
  lemma UnscaledInStack(c: Cpu, x: bv1, load: bv1, imm9: bv9, rn: bv5, rt: bv5)
    requires View(c.r[rn as nat], x == 1) <= 524288
    ensures var a := View(c.r[rn as nat], x == 1) + Signed9(imm9 as nat);
            var w := UnscaledWord(x, load, imm9, rn, rt);
            && StoresAt(Exec(w, c), c, a, Size(x == 1), Operand(c, x == 1, rt as nat))
            && LoadsAt(ExecLdur(w, c), c, a, x == 1, rt as nat)
  {
    hide Exec, ExecLdur, UnscaledWord, View, Operand, Offset, Stored, Loaded, StoresAt, LoadsAt;
    UnscaledDoes(c, x, load, imm9, rn, rt);
    assert imm9 as nat < 512;
    var base, k := View(c.r[rn as nat], x == 1), Signed9(imm9 as nat);
    StoredInStack(c, base, k, x == 1, Operand(c, x == 1, rt as nat));
    LoadedInStack(c, base, k, x == 1, rt as nat);
  }

  lemma PairEndsInStack(base: nat, d: nat, wide: bool)
    requires base <= 524288 && d <= 1024
    ensures var s := PairEnds(Offset(base, d, wide), Offset(base, d + Size(wide), wide), wide);
            var a, size := base + d, Size(wide);
            && (s == Continue <==> a + 2 * size <= 524288)
            && (s == Throw <==> a > 524288)
            && (s == Undefined <==> 524288 - 2 * size < a <= 524288)
    ensures Offset(base, d, wide) == base + d && Offset(base, d + Size(wide), wide) == base + d + Size(wide)
  {
    hide Offset;
    OffsetInStack(base, d, wide);
    OffsetInStack(base, d + Size(wide), wide);
  }

  /** Pairs from a base inside the stack: when they succeed, throw or leave the array, and the two cells
      that STP writes. */
  lemma PairInBase(c: Cpu, x: bv1, index: bv2, load: bv1, imm7: bv7, rt2: bv5, rn: bv5, rt: bv5)
    requires index != 0 && View(c.r[rn as nat], x == 1) <= 524288
    ensures var a, size := View(c.r[rn as nat], x == 1) + (imm7 as nat) * Size(x == 1), Size(x == 1);
            var o := Exec(PairWord(x, index, load, imm7, rt2, rn, rt), c);
            && (o.status == Continue <==> a + 2 * size <= 524288)
            && (o.status == Throw <==> a > 524288)
            && (o.status == Undefined <==> 524288 - 2 * size < a <= 524288)
            && (o.status == Continue && load == 0 ==>
                  o.cpu.mem == PairBytes(c.mem, a, size, Operand(c, x == 1, rt as nat), Operand(c, x == 1, rt2 as nat)))
  {
    hide Exec, PairWord, View, Operand, PairLoaded, PairStored, PairBytes;
    PairDoes(c, x, index, load, imm7, rt2, rn, rt);
    assert imm7 as nat < 128;
    PairsInStack(c, x == 1, index as nat, (imm7 as nat) * Size(x == 1), rt2 as nat, rn as nat, rt as nat);
  }

  /** The bytes of two values, one behind the other. */
  function PairBytes(mem: seq<u8>, a: nat, size: nat, v1: nat, v2: nat): seq<u8>
    requires a + 2 * size <= |mem|
  {
    Store(Store(mem, a, size, v1), a + size, size, v2)
  }

  lemma PairsInStack(c: Cpu, wide: bool, index: nat, d: nat, t2: nat, n: nat, t: nat)
    requires n < 32 && t < 32 && t2 < 32 && d <= 1024 && View(c.r[n], wide) <= 524288
    ensures var a, size := View(c.r[n], wide) + d, Size(wide);
            var s := PairEnds(Offset(View(c.r[n], wide), d, wide), Offset(View(c.r[n], wide), d + size, wide), wide);
            && (s == Continue <==> a + 2 * size <= 524288)
            && (s == Throw <==> a > 524288)
            && (s == Undefined <==> 524288 - 2 * size < a <= 524288)
            && PairLoaded(c, wide, index, d, t2, n, t).status == s
            && PairStored(c, wide, index, d, t2, n, t).status == s
            && (s == Continue ==>
                  PairStored(c, wide, index, d, t2, n, t).cpu.mem
                  == PairBytes(c.mem, a, size, Operand(c, wide, t), Operand(c, wide, t2)))
  {
    PairEndsInStack(View(c.r[n], wide), d, wide);
    hide View, Operand, Offset, PairEnds, PairWritten, Store, Load, Updated;
  }
}
