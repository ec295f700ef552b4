/** The machine state and the effect of every handler, as the source's handlers have it. */
module Isa {
  import opened Patterns
  import opened Ints
  import opened Shifts
  import opened Arith
  import opened Memory
  import opened Fields
  import opened Dispatcher

  const STACK_SIZE := 512 * 1024
  const SP := 31
  const LR := 30
  const FP := 29

  datatype CpuState = CpuState(r: seq<u64>, pc: u64, f: Flags, mem: seq<u8>)

  type Cpu = c: CpuState | |c.r| == 32 && |c.mem| == STACK_SIZE
    witness CpuState(seq(32, _ => 0), 0, Flags(false, false, false, false), seq(STACK_SIZE, _ => 0))

  /** How a handler ends: it returns true, it returns false, an accessor throws, or the C++ code has no
      defined meaning (a shift by the full width, a failed assertion, an access past the array). */
  datatype Status = Continue | Stop | Throw | Undefined
  datatype Outcome = Outcome(status: Status, cpu: Cpu)

  function Done(c: Cpu): Outcome {
    Outcome(Continue, c)
  }

  // ---------- registers ----------

  function Reg(c: Cpu, wd: Width, i: nat): (v: nat)
    requires i < 32
    ensures v < Modulus(wd)
  {
    if wd == W64 then c.r[i] else c.r[i] % TWO32
  }

  /** A 32-bit write replaces the low half only. */
  function Merge(wd: Width, was: u64, v: nat): (r: u64)
    requires v < Modulus(wd)
  {
    if wd == W64 then v else was - was % TWO32 + v
  }

  function SetReg(c: Cpu, wd: Width, i: nat, v: nat): (c': Cpu)
    requires i < 32 && v < Modulus(wd)
    ensures Reg(c', wd, i) == v
  {
    c.(r := c.r[i := Merge(wd, c.r[i], v)])
  }

  /** A register read in which index 31 stands for zero. */
  function Source(c: Cpu, wd: Width, i: nat): (v: nat)
    requires i < 32
    ensures v < Modulus(wd)
  {
    if i == 31 then 0 else Reg(c, wd, i)
  }

  function WidthOf(w: Word): Width {
    if Sf(w) then W64 else W32
  }

  // ---------- arithmetic and logic ----------

  function ShiftedImm12(w: Word): (i: nat)
    ensures i < 0x100_0000
  {
    if Sh(w) then Imm12(w) * 4096 else Imm12(w)
  }

  function ExecAddImm(w: Word, c: Cpu): Outcome {
    var wd := WidthOf(w);
    Done(SetReg(c, wd, Rd(w), Wrap(wd, Reg(c, wd, Rn(w)) + ShiftedImm12(w))))
  }

  function ExecSubImm(w: Word, c: Cpu): Outcome {
    var wd := WidthOf(w);
    Done(SetReg(c, wd, Rd(w), Wrap(wd, Reg(c, wd, Rn(w)) - ShiftedImm12(w))))
  }

  /** The flags ADDS sets: those of the architecture, except that the 64-bit form sets V whenever the
      register operand is negative. */
  function AddsFlags(wd: Width, x: nat, imm: nat): Flags {
    if wd == W64 && x >= Half(wd) then AddFlags(wd, x, imm).(v := true) else AddFlags(wd, x, imm)
  }

  function ExecAddsImm(w: Word, c: Cpu): Outcome {
    var wd := WidthOf(w);
    var x := Reg(c, wd, Rn(w));
    Done(SetReg(c.(f := AddsFlags(wd, x, ShiftedImm12(w))), wd, Rd(w), Wrap(wd, x + ShiftedImm12(w))))
  }

  /** The register receives the difference with the unshifted immediate; the flags are those of the
      subtraction of the shifted one. */
  function ExecSubsImm(w: Word, c: Cpu): Outcome {
    var wd := WidthOf(w);
    var x := Reg(c, wd, Rn(w));
    Done(SetReg(c.(f := SubFlags(wd, x, ShiftedImm12(w))), wd, Rd(w), Wrap(wd, x - Imm12(w))))
  }

  function RuleOf(bits: nat): ShiftRule
    requires bits < 4
  {
    match bits
    case 0 => LSL
    case 1 => LSR
    case 2 => ASR
    case _ => ROR
  }

  function ShiftValue(rule: ShiftRule, wd: Width, data: nat, amt: nat): (r: nat)
    requires data < Modulus(wd)
    ensures r < Modulus(wd)
  {
    ShiftedRange(rule, wd, data, amt);
    Shifted(rule, wd, data, amt)
  }

  function OrValue(wd: Width, x: nat, y: nat): (r: nat)
    requires x < Modulus(wd) && y < Modulus(wd)
    ensures r < Modulus(wd)
  {
    WidthPowers(wd);
    OrBound(x, y, Bits(wd));
    BitOr(x, y)
  }

  function ExecOrrSh(w: Word, c: Cpu): Outcome {
    var wd := WidthOf(w);
    var rule := RuleOf(ShiftBits(w));
    var data := Reg(c, wd, Rm(w));
    if Imm6(w) >= Bits(wd) || FullWidthShift(rule, wd, data, Imm6(w)) then Outcome(Undefined, c)
    else
      var v := ShiftValue(rule, wd, data, Imm6(w));
      Done(SetReg(c, wd, Rd(w), if Rn(w) != 31 then OrValue(wd, Reg(c, wd, Rn(w)), v) else v))
  }

  /** With both sources 31 and a condition below 14 this is the alias CSET. */
  predicate IsCset(w: Word) {
    Rm(w) == 31 && Cond(w) / 2 != 7 && Rn(w) == 31
  }

  function ExecCsinc(w: Word, c: Cpu): Outcome {
    var wd := WidthOf(w);
    if IsCset(w) then Done(SetReg(c, wd, Rd(w), if CondTrue(InvertCond(Cond(w)), c.f) then 1 else 0))
    else if CondTrue(Cond(w), c.f) then Done(SetReg(c, wd, Rd(w), Source(c, wd, Rn(w))))
    else Done(SetReg(c, wd, Rd(w), Wrap(wd, Source(c, wd, Rm(w)) + 1)))
  }

  /** A shift of the 32-bit immediate by 32 or more has no defined meaning. */
  function ExecMovz(w: Word, c: Cpu): Outcome {
    if Hw(w) >= 2 then Outcome(Undefined, c)
    else Done(SetReg(c, WidthOf(w), Rd(w), if Hw(w) == 1 then Imm16(w) * 0x1_0000 else Imm16(w)))
  }

  /** The page offset is the truth value of the immediate, one or zero. */
  function ExecAdrp(w: Word, c: Cpu): Outcome {
    var imm := if ImmLo(w) != 0 || ImmHi(w) != 0 then 1 else 0;
    Done(SetReg(c, W64, Rd(w), Wrap(W64, c.pc - c.pc % 1024 + imm * 1024)))
  }

  // ---------- branches ----------

  /** SignExtend of the Arm Architecture Reference Manual (shared pseudocode), as an integer. */
  function SignExtend(v: nat, bits: nat): int
    requires bits > 0
  {
    if v >= Pow2(bits - 1) then v - Pow2(bits) else v
  }

  function Jump(c: Cpu, words: int): Cpu {
    c.(pc := Wrap(W64, c.pc + words - 1))
  }

  function ExecB(w: Word, c: Cpu): Outcome {
    Done(Jump(c, SignExtend(Imm26(w), 26)))
  }

  function ExecBl(w: Word, c: Cpu): Outcome {
    Done(Jump(SetReg(c, W64, LR, Wrap(W64, c.pc + 1)), SignExtend(Imm26(w), 26)))
  }

  /** The 14-bit displacement is not sign-extended. */
  function ExecTbnz(w: Word, c: Cpu): Outcome {
    var bit := (if Sf(w) then 32 else 0) + B40(w);
    Done(if IsSet(Reg(c, WidthOf(w), Rd(w)), bit) then Jump(c, Imm14(w)) else c)
  }

  /** A zero register ends the program; otherwise the register is cleared. */
  function ExecRet(w: Word, c: Cpu): Outcome {
    var target := Reg(c, W64, Rn(w));
    if target == 0 then Outcome(Stop, c)
    else Done(SetReg(c.(pc := target - 1), W64, Rn(w), 0))
  }

  // ---------- loads and stores ----------

  function Bytes(wd: Width): nat {
    if wd == W32 then 4 else 8
  }

  /** The signed offset an accessor is called with. */
  function Address(wd: Width, base: nat, disp: int): int {
    Signed(wd, Wrap(wd, base + disp))
  }

  /** The accessor's own test rejects only the start offset; the rest of the array bound is C++'s. */
  function Access(off: int, n: nat): (s: Status)
    ensures s != Stop
  {
    if off < 0 || off > STACK_SIZE then Throw
    else if off + n > STACK_SIZE then Undefined
    else Continue
  }

  function Put(c: Cpu, wd: Width, off: int, v: nat): Cpu
    requires Access(off, Bytes(wd)) == Continue
  {
    c.(mem := Store(c.mem, off, Bytes(wd), v))
  }

  function Get(c: Cpu, wd: Width, off: int): (v: nat)
    requires Access(off, Bytes(wd)) == Continue
    ensures v < Modulus(wd)
  {
    LoadRange(c.mem, off, wd);
    Load(c.mem, off, Bytes(wd))
  }

  lemma LoadRange(mem: seq<u8>, a: nat, wd: Width)
    requires a + Bytes(wd) <= |mem|
    ensures Load(mem, a, Bytes(wd)) < Modulus(wd)
  {
    Pow256Values();
    FromBytesBound(mem[a..a + Bytes(wd)]);
  }

  function StoreOne(c: Cpu, wd: Width, off: int, v: nat): Outcome {
    var s := Access(off, Bytes(wd));
    if s != Continue then Outcome(s, c) else Done(Put(c, wd, off, v))
  }

  function LoadOne(c: Cpu, wd: Width, off: int, rt: nat): Outcome
    requires rt < 32
  {
    var s := Access(off, Bytes(wd));
    if s != Continue then Outcome(s, c) else Done(SetReg(c, wd, rt, Get(c, wd, off)))
  }

  /** Adds to a base register. */
  function Advance(c: Cpu, wd: Width, i: nat, step: nat): Cpu
    requires i < 32
  {
    SetReg(c, wd, i, Wrap(wd, Reg(c, wd, i) + step))
  }

  datatype Form = SignedOffset | PreIndex | PostIndex | BadIndex | NoForm

  /** The indexed forms are told apart by a second test, of bits 23 and 24, with an error branch of its own. */
  function IndexForm(w: Word): Form {
    var enc := Field(w, 23, 24);
    if enc == 3 then PreIndex else if enc == 1 then PostIndex else BadIndex
  }

  function StpForm(w: Word): Form {
    var fixed := Field(w, 22, 30);
    if fixed == 0xA4 then SignedOffset
    else if fixed == 0xA2 || fixed == 0xA6 then IndexForm(w)
    else NoForm
  }

  function LdpForm(w: Word): Form {
    var fixed := Field(w, 22, 30);
    if fixed == 0xA5 then SignedOffset
    else if fixed == 0xA3 || fixed == 0xA7 then IndexForm(w)
    else NoForm
  }

  predicate Indexed(f: Form) {
    f == PreIndex || f == PostIndex
  }

  function PairWidth(w: Word): Option<Width> {
    if Sz(w) == 0 then Some(W32) else if Sz(w) == 2 then Some(W64) else None
  }

  /** Both cells are located, and checked, before anything is written. */
  function PairAccess(wd: Width, base: nat, disp: nat): Status {
    var first := Access(Address(wd, base, disp), Bytes(wd));
    if first != Continue then first else Access(Address(wd, base, disp + Bytes(wd)), Bytes(wd))
  }

  /** All three forms store at base + offset, the offset read as unsigned. */
  function ExecStp(w: Word, c: Cpu): Outcome {
    match PairWidth(w)
    case None => Outcome(Stop, c)
    case Some(wd) =>
      var base := Reg(c, wd, Rn(w));
      var disp := Imm7(w) * Bytes(wd);
      var s := PairAccess(wd, base, disp);
      if s != Continue then Outcome(s, c)
      else StpWrite(w, c, wd, disp, Address(wd, base, disp), Address(wd, base, disp + Bytes(wd)))
  }

  function StpWrite(w: Word, c: Cpu, wd: Width, disp: nat, off1: int, off2: int): Outcome
    requires Access(off1, Bytes(wd)) == Continue && Access(off2, Bytes(wd)) == Continue
  {
    if StpForm(w) == NoForm || StpForm(w) == BadIndex then Outcome(Stop, c)
    else
      var c1 := Put(c, wd, off1, Source(c, wd, Rd(w)));
      var c2 := Put(c1, wd, off2, Source(c, wd, Rt2(w)));
      Done(if StpForm(w) == SignedOffset then c2 else Advance(c2, wd, Rn(w), disp))
  }

  /** All three forms load from base + offset, the offset read as unsigned. */
  function ExecLdp(w: Word, c: Cpu): Outcome {
    match PairWidth(w)
    case None => Outcome(Stop, c)
    case Some(wd) =>
      var base := Reg(c, wd, Rn(w));
      var disp := Imm7(w) * Bytes(wd);
      var s := PairAccess(wd, base, disp);
      if s != Continue then Outcome(s, c)
      else
        var v1 := Get(c, wd, Address(wd, base, disp));
        var v2 := Get(c, wd, Address(wd, base, disp + Bytes(wd)));
        LdpWrite(w, c, wd, disp, v1, v2)
  }

  function LdpWrite(w: Word, c: Cpu, wd: Width, disp: nat, v1: nat, v2: nat): Outcome
    requires v1 < Modulus(wd) && v2 < Modulus(wd)
  {
    match LdpForm(w)
    case SignedOffset => Done(SetReg(SetReg(c, wd, Rd(w), v1), wd, Rt2(w), v2))
    case PreIndex => Done(SetReg(SetReg(Advance(c, wd, Rn(w), disp), wd, Rd(w), v1), wd, Rt2(w), v2))
    case PostIndex => Done(Advance(SetReg(SetReg(c, wd, Rd(w), v1), wd, Rt2(w), v2), wd, Rn(w), disp))
    case BadIndex => Outcome(Stop, c)
    case NoForm => Outcome(Stop, c)
  }

  function SingleWidth(w: Word): Option<Width> {
    if Sz(w) == 2 then Some(W32) else if Sz(w) == 3 then Some(W64) else None
  }

  predicate StrUnsignedOffset(w: Word) {
    Field(w, 22, 29) == 0xE4
  }

  predicate StrIndexed(w: Word) {
    Field(w, 21, 29) == 0x1C0 && Field(w, 10, 11) != 0
  }

  /** Indexed forms: the offset is not sign-extended, post-index fails after its bounds check, and only
      the 32-bit pre-index form writes the base register back. */
  function ExecStrImm(w: Word, c: Cpu): Outcome {
    match SingleWidth(w)
    case None => Outcome(Stop, c)
    case Some(wd) =>
      var base := Reg(c, wd, Rn(w));
      var v := Source(c, wd, Rd(w));
      if StrUnsignedOffset(w) then StoreOne(c, wd, Address(wd, base, Imm12(w) * Bytes(wd)), v)
      else if StrIndexed(w) then
        var off := Address(wd, base, Imm9(w));
        var s := Access(off, Bytes(wd));
        if s != Continue then Outcome(s, c)
        else if Field(w, 10, 11) == 1 then Outcome(Stop, c)
        else
          var stored := Put(c, wd, off, v);
          Done(if wd == W32 then Advance(stored, wd, Rn(w), Imm9(w)) else stored)
      else Outcome(Stop, c)
  }

  predicate LdrUnsignedOffset(w: Word) {
    Field(w, 22, 29) == 0xE5
  }

  predicate LdrIndexed(w: Word) {
    Field(w, 21, 29) == 0x1C2 && Field(w, 10, 11) != 0
  }

  /** Indexed forms: the offset is not sign-extended and post-index fails after its bounds check. */
  function ExecLdrImm(w: Word, c: Cpu): Outcome {
    match SingleWidth(w)
    case None => Outcome(Stop, c)
    case Some(wd) =>
      var base := Reg(c, wd, Rn(w));
      if LdrUnsignedOffset(w) then LoadOne(c, wd, Address(wd, base, Imm12(w) * Bytes(wd)), Rd(w))
      else if LdrIndexed(w) then
        var off := Address(wd, base, Imm9(w));
        var s := Access(off, Bytes(wd));
        if s != Continue then Outcome(s, c)
        else if Field(w, 10, 11) == 1 then Outcome(Stop, c)
        else Done(Advance(SetReg(c, wd, Rd(w), Get(c, wd, off)), wd, Rn(w), Imm9(w)))
      else Outcome(Stop, c)
  }

  function ExecStur(w: Word, c: Cpu): Outcome {
    match SingleWidth(w)
    case None => Outcome(Stop, c)
    case Some(wd) =>
      StoreOne(c, wd, Address(wd, Reg(c, wd, Rn(w)), SignExtend(Imm9(w), 9)), Source(c, wd, Rd(w)))
  }

  function ExecLdur(w: Word, c: Cpu): Outcome {
    match SingleWidth(w)
    case None => Outcome(Stop, c)
    case Some(wd) =>
      LoadOne(c, wd, Address(wd, Reg(c, wd, Rn(w)), SignExtend(Imm9(w), 9)), Rd(w))
  }

  // ---------- one instruction, and a run ----------

  function ExecOp(op: Op, w: Word, c: Cpu): Outcome {
    match op
    case AddImm => ExecAddImm(w, c)
    case AddsImm => ExecAddsImm(w, c)
    case SubImm => ExecSubImm(w, c)
    case SubsImm => ExecSubsImm(w, c)
    case B => ExecB(w, c)
    case Bl => ExecBl(w, c)
    case Ret => ExecRet(w, c)
    case Tbnz => ExecTbnz(w, c)
    case Csinc => ExecCsinc(w, c)
    case Movz => ExecMovz(w, c)
    case Adrp => ExecAdrp(w, c)
    case OrrSh => ExecOrrSh(w, c)
    case Stp => ExecStp(w, c)
    case Ldp => ExecLdp(w, c)
    case StrImm => ExecStrImm(w, c)
    case LdrImm => ExecLdrImm(w, c)
    case Stur => ExecStur(w, c)
    case Ldur => ExecLdur(w, c)
  }

  /** handle_instruction: an instruction without a handler stops the machine. */
  function Exec(w: Word, c: Cpu): Outcome {
    match HandlerOf(w)
    case None => Outcome(Stop, c)
    case Some(op) => ExecOp(op, w, c)
  }

  function NextPc(c: Cpu): Cpu {
    c.(pc := Wrap(W64, c.pc + 1))
  }

  /** One turn of the session loop. Fetching past the program has no defined meaning. */
  function Step(prog: seq<Word>, c: Cpu): Outcome {
    if c.pc >= |prog| then Outcome(Undefined, c)
    else
      var o := Exec(prog[c.pc], c);
      if o.status == Continue then Done(NextPc(o.cpu)) else o
  }

  /** At most `n` turns of the loop; it ends early when a turn does not continue. */
  function Run(prog: seq<Word>, c: Cpu, n: nat): Outcome
    decreases n
  {
    if n == 0 then Done(c)
    else
      var o := Step(prog, c);
      if o.status == Continue then Run(prog, o.cpu, n - 1) else o
  }
}
