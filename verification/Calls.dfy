/** Nested calls: every level opens a stack frame, saves frame pointer and link register, calls the next
    level, restores them and returns. */
module Calls {
  import opened Patterns
  import opened Ints
  import opened Shifts
  import opened Memory
  import opened Fields
  import opened Dispatcher
  import opened Isa
  import opened Assembler
  import opened Session
  import opened LoadStore

  /** One function: where it starts, its frame (a 12-bit immediate, perhaps shifted), the slot of the
      saved pair in units of 8 bytes, the frame pointer's offset and the displacement of its call. */
  datatype Level = Level(entry: nat, sh: bv1, frame: bv12, slot: bv7, fp: bv12, call: bv26)

  function FrameSize(l: Level): nat {
    Immediate(l.sh, l.frame)
  }

  /** SUB sp, sp, #frame; STP x29, x30, [sp, #slot]; ADD x29, sp, #fp; BL; LDP; ADD sp; RET. */
  ghost predicate CodeAt(prog: seq<Word>, l: Level) {
    && l.entry + 7 <= |prog| < TWO64
    && prog[l.entry] == AddSubWord(1, 1, 0, l.sh, l.frame, 31, 31)
    && prog[l.entry + 1] == PairWord(1, 2, 0, l.slot, 30, 31, 29)
    && prog[l.entry + 2] == AddSubWord(1, 0, 0, 0, l.fp, 31, 29)
    && prog[l.entry + 3] == BranchWord(1, l.call)
    && prog[l.entry + 4] == PairWord(1, 2, 1, l.slot, 30, 31, 29)
    && prog[l.entry + 5] == AddSubWord(1, 0, 0, l.sh, l.frame, 31, 31)
    && prog[l.entry + 6] == RetWord(30)
    && 8 * (l.slot as nat) + 16 <= FrameSize(l)
  }

  function Callee(l: Level): int {
    l.entry + 3 + SignExtend(l.call as nat, 26)
  }

  /** The contract of a call: after `n` turns control is back at the link register of the call, stack and
      frame pointer are as they were, the link register is cleared, and memory has changed at most in the
      `need` bytes below the stack pointer. */
  ghost predicate Returns(prog: seq<Word>, c: Cpu, n: nat, need: nat) {
    var o := Run(prog, c, n);
    && o.status == Continue
    && o.cpu.pc == c.r[LR]
    && o.cpu.r[SP] == c.r[SP] && o.cpu.r[FP] == c.r[FP] && o.cpu.r[LR] == 0
    && forall i :: 0 <= i < STACK_SIZE && !(c.r[SP] - need <= i < c.r[SP]) ==> o.cpu.mem[i] == c.mem[i]
  }

  // ---------- single turns ----------

  function With(c: Cpu, i: nat, v: u64): Cpu
    requires i < 32
  {
    c.(r := c.r[i := v])
  }

  /** A turn on a word whose handler returns true. */
  lemma TurnOf(prog: seq<Word>, c: Cpu, op: Op, d: Cpu)
    requires c.pc + 1 < TWO64 && c.pc < |prog| && HandlerOf(prog[c.pc]) == Some(op)
    requires ExecOp(op, prog[c.pc], c) == Done(d)
    ensures Step(prog, c) == Done(d.(pc := Wrap(W64, d.pc + 1)))
  {
    hide HandlerOf, ExecOp;
  }

  lemma SubExec(w: Word, c: Cpu)
    requires Sf(w) && Rn(w) == SP && Rd(w) == SP && c.r[SP] >= ShiftedImm12(w)
    ensures ExecSubImm(w, c) == Done(With(c, SP, c.r[SP] - ShiftedImm12(w)))
  {
    hide Sf, Field, ShiftedImm12;
  }

  lemma AddExec(w: Word, c: Cpu)
    requires Sf(w) && Rn(w) == SP
    ensures ExecAddImm(w, c) == Done(With(c, Rd(w), Wrap(W64, c.r[SP] + ShiftedImm12(w))))
  {
    hide Sf, Field, ShiftedImm12;
  }

  /** The fields of ADD and SUB with the stack pointer as operand. */
  lemma StackImmediate(op: bv1, sh: bv1, imm: bv12, rd: bv5)
    ensures var w := AddSubWord(1, op, 0, sh, imm, 31, rd);
            && HandlerOf(w) == Some(if On(op) then SubImm else AddImm) && Sf(w)
            && ShiftedImm12(w) == Immediate(sh, imm) && Rn(w) == SP && Rd(w) == rd as nat
  {
    AddSubRoundTrip(1, op, 0, sh, imm, 31, rd);
    hide HandlerOf, Sf, Sh, Field, AddSubWord;
    assert (31 as bv5) as nat == 31;
  }

  lemma SubTurn(prog: seq<Word>, c: Cpu, sh: bv1, frame: bv12)
    requires c.pc + 1 < TWO64 && c.pc < |prog| && prog[c.pc] == AddSubWord(1, 1, 0, sh, frame, 31, 31)
    requires c.r[SP] >= Immediate(sh, frame)
    ensures Step(prog, c) == Done(With(c, SP, c.r[SP] - Immediate(sh, frame)).(pc := c.pc + 1))
  {
    hide HandlerOf, Sf, Rn, Rd, ShiftedImm12, Immediate, AddSubWord, ExecSubImm, Step;
    StackImmediate(1, sh, frame, 31);
    assert (31 as bv5) as nat == 31;
    SubExec(prog[c.pc], c);
    TurnOf(prog, c, SubImm, With(c, SP, c.r[SP] - Immediate(sh, frame)));
  }

  lemma AddTurn(prog: seq<Word>, c: Cpu, sh: bv1, imm: bv12, rd: bv5)
    requires c.pc + 1 < TWO64 && c.pc < |prog| && prog[c.pc] == AddSubWord(1, 0, 0, sh, imm, 31, rd)
    ensures Step(prog, c) == Done(With(c, rd as nat, Wrap(W64, c.r[SP] + Immediate(sh, imm))).(pc := c.pc + 1))
  {
    hide HandlerOf, Sf, Rn, Rd, ShiftedImm12, Immediate, AddSubWord, ExecAddImm, Step;
    StackImmediate(0, sh, imm, rd);
    AddExec(prog[c.pc], c);
    TurnOf(prog, c, AddImm, With(c, rd as nat, Wrap(W64, c.r[SP] + Immediate(sh, imm))));
  }

  lemma SmallAddress(base: nat, disp: nat)
    requires base + disp <= STACK_SIZE
    ensures Address(W64, base, disp) == base + disp
  {}

  /** Both cells of a pair above the stack pointer, when they lie in the stack. */
  lemma PairCells(base: nat, disp: nat)
    requires base + disp + 16 <= STACK_SIZE
    ensures Address(W64, base, disp) == base + disp && Address(W64, base, disp + 8) == base + disp + 8
    ensures PairAccess(W64, base, disp) == Continue
    ensures Access(base + disp, 8) == Continue && Access(base + disp + 8, 8) == Continue
  {
    hide Address;
    SmallAddress(base, disp);
    SmallAddress(base, disp + 8);
  }

  lemma StpCellsWritten(w: Word, c: Cpu, a: nat)
    requires StpForm(w) == SignedOffset && Rd(w) == FP && Rt2(w) == LR && a + 16 <= STACK_SIZE
    ensures StpWrite(w, c, W64, 8 * Imm7(w), a, a + 8)
            == Done(c.(mem := Store(Store(c.mem, a, 8, c.r[FP]), a + 8, 8, c.r[LR])))
  {
    hide Field, StpForm, Rd, Rt2, Store;
  }

  lemma StpExec(w: Word, c: Cpu)
    requires PairWidth(w) == Some(W64) && StpForm(w) == SignedOffset && Rn(w) == SP && Rd(w) == FP && Rt2(w) == LR
    requires c.r[SP] + 8 * Imm7(w) + 16 <= STACK_SIZE
    ensures var a := c.r[SP] + 8 * Imm7(w);
            ExecStp(w, c) == Done(c.(mem := Store(Store(c.mem, a, 8, c.r[FP]), a + 8, 8, c.r[LR])))
  {
    hide Field, Address, StpForm, PairWidth, Store, PairAccess, Access, StpWrite, Rn, Rd, Rt2;
    PairCells(c.r[SP], 8 * Imm7(w));
    StpCellsWritten(w, c, c.r[SP] + 8 * Imm7(w));
  }

  lemma StpFields(slot: bv7)
    ensures var w := PairWord(1, 2, 0, slot, 30, 31, 29);
            && HandlerOf(w) == Some(Stp) && PairWidth(w) == Some(W64) && StpForm(w) == SignedOffset
            && Imm7(w) == slot as nat && Rn(w) == SP && Rd(w) == FP && Rt2(w) == LR
  {
    PairHandlerRoundTrip(1, 2, 0, slot, 30, 31, 29);
    PairRoundTrip(1, 2, 0, slot, 30, 31, 29);
    hide HandlerOf, Field, PairWord, StpForm, PairWidth;
    assert (31 as bv5) as nat == 31 && (30 as bv5) as nat == 30 && (29 as bv5) as nat == 29;
  }

  lemma StpTurn(prog: seq<Word>, c: Cpu, slot: bv7)
    requires c.pc + 1 < TWO64 && c.pc < |prog| && prog[c.pc] == PairWord(1, 2, 0, slot, 30, 31, 29)
    requires c.r[SP] + 8 * (slot as nat) + 16 <= STACK_SIZE
    ensures var a := c.r[SP] + 8 * (slot as nat);
            Step(prog, c) == Done(c.(mem := Store(Store(c.mem, a, 8, c.r[FP]), a + 8, 8, c.r[LR]), pc := c.pc + 1))
  {
    StpFields(slot);
    hide HandlerOf, Field, PairWord, StpForm, PairWidth, Store, ExecStp, Step, Imm7;
    StpExec(prog[c.pc], c);
    TurnOf(prog, c, Stp, ExecStp(prog[c.pc], c).cpu);
  }

  lemma LdpExec(w: Word, c: Cpu)
    requires PairWidth(w) == Some(W64) && LdpForm(w) == SignedOffset && Rn(w) == SP && Rd(w) == FP && Rt2(w) == LR
    requires c.r[SP] + 8 * Imm7(w) + 16 <= STACK_SIZE
    ensures var a := c.r[SP] + 8 * Imm7(w);
            Load(c.mem, a, 8) < TWO64 && Load(c.mem, a + 8, 8) < TWO64
            && ExecLdp(w, c) == Done(With(With(c, FP, Load(c.mem, a, 8)), LR, Load(c.mem, a + 8, 8)))
  {
    hide Field, Address, LdpForm, PairWidth, Load, PairAccess, Access, Rn, Rd, Rt2;
    PairCells(c.r[SP], 8 * Imm7(w));
    LoadRange(c.mem, c.r[SP] + 8 * Imm7(w), W64);
    LoadRange(c.mem, c.r[SP] + 8 * Imm7(w) + 8, W64);
  }

  lemma LdpFields(slot: bv7)
    ensures var w := PairWord(1, 2, 1, slot, 30, 31, 29);
            && HandlerOf(w) == Some(Ldp) && PairWidth(w) == Some(W64) && LdpForm(w) == SignedOffset
            && Imm7(w) == slot as nat && Rn(w) == SP && Rd(w) == FP && Rt2(w) == LR
  {
    PairHandlerRoundTrip(1, 2, 1, slot, 30, 31, 29);
    PairRoundTrip(1, 2, 1, slot, 30, 31, 29);
    hide HandlerOf, Field, PairWord, LdpForm, PairWidth;
    assert (31 as bv5) as nat == 31 && (30 as bv5) as nat == 30 && (29 as bv5) as nat == 29;
  }

  lemma LdpTurn(prog: seq<Word>, c: Cpu, slot: bv7)
    requires c.pc + 1 < TWO64 && c.pc < |prog| && prog[c.pc] == PairWord(1, 2, 1, slot, 30, 31, 29)
    requires c.r[SP] + 8 * (slot as nat) + 16 <= STACK_SIZE
    ensures var a := c.r[SP] + 8 * (slot as nat);
            Load(c.mem, a, 8) < TWO64 && Load(c.mem, a + 8, 8) < TWO64
            && Step(prog, c) == Done(With(With(c, FP, Load(c.mem, a, 8)), LR, Load(c.mem, a + 8, 8)).(pc := c.pc + 1))
  {
    LdpFields(slot);
    hide HandlerOf, Field, PairWord, LdpForm, PairWidth, Load, ExecLdp, Step, Imm7;
    LdpExec(prog[c.pc], c);
    TurnOf(prog, c, Ldp, ExecLdp(prog[c.pc], c).cpu);
  }

  lemma BlTurn(prog: seq<Word>, c: Cpu, call: bv26)
    requires c.pc + 1 < TWO64 && c.pc < |prog| && prog[c.pc] == BranchWord(1, call)
    requires 0 <= c.pc + SignExtend(call as nat, 26) < TWO64
    ensures Step(prog, c) == Done(With(c, LR, c.pc + 1).(pc := c.pc + SignExtend(call as nat, 26)))
  {
    BranchRoundTrip(1, call);
    hide HandlerOf, Field, BranchWord, SignExtend, Step;
    TurnOf(prog, c, Bl, Jump(With(c, LR, c.pc + 1), SignExtend(call as nat, 26)));
  }

  lemma RetStep(prog: seq<Word>, c: Cpu)
    requires c.pc < |prog| && HandlerOf(prog[c.pc]) == Some(Ret) && Rn(prog[c.pc]) == LR
    ensures Step(prog, c) == if c.r[LR] == 0 then Outcome(Stop, c) else Done(With(c, LR, 0).(pc := c.r[LR]))
  {
    hide HandlerOf, Field;
  }

  lemma RetTurn(prog: seq<Word>, c: Cpu)
    requires c.pc < |prog| && prog[c.pc] == RetWord(30)
    ensures Step(prog, c) == if c.r[LR] == 0 then Outcome(Stop, c) else Done(With(c, LR, 0).(pc := c.r[LR]))
  {
    RetRoundTrip(30);
    hide HandlerOf, Field, RetWord, Step;
    assert (30 as bv5) as nat == 30;
    RetStep(prog, c);
  }

  // ---------- entering and leaving one level ----------

  /** The state after the frame is opened and the pair saved. */
  function Opened(c: Cpu, l: Level): Cpu
    requires FrameSize(l) <= c.r[SP] <= STACK_SIZE && 8 * (l.slot as nat) + 16 <= FrameSize(l) && c.pc + 4 < TWO64
  {
    var sp := c.r[SP] - FrameSize(l);
    var a := sp + 8 * (l.slot as nat);
    CpuState(c.r[SP := sp], c.pc + 2, c.f, Store(Store(c.mem, a, 8, c.r[FP]), a + 8, 8, c.r[LR]))
  }

  /** The state in which the callee starts: frame pointer set, link made. */
  function Entered(c: Cpu, l: Level): (d: Cpu)
    requires FrameSize(l) <= c.r[SP] <= STACK_SIZE && 8 * (l.slot as nat) + 16 <= FrameSize(l) && c.pc + 4 < TWO64
    requires 0 <= Callee(l) < TWO64
    ensures d.r[SP] == c.r[SP] - FrameSize(l) && d.r[LR] == c.pc + 4 && d.pc == Callee(l)
  {
    var o := Opened(c, l);
    CpuState(o.r[FP := Wrap(W64, o.r[SP] + l.fp as nat)][LR := c.pc + 4], Callee(l), c.f, o.mem)
  }

  lemma RunThen(prog: seq<Word>, c: Cpu, a: nat, d: Cpu, b: nat)
    requires Run(prog, c, a) == Done(d)
    ensures Run(prog, c, a + b) == Run(prog, d, b)
  {
    hide Run;
    RunSplits(prog, c, a, b);
  }

  lemma RunTurn(prog: seq<Word>, c: Cpu, d: Cpu, b: nat)
    requires Step(prog, c) == Done(d)
    ensures Run(prog, c, 1 + b) == Run(prog, d, b)
  {
    hide Step;
  }

  lemma OpenFrame(prog: seq<Word>, c: Cpu, l: Level)
    requires CodeAt(prog, l) && c.pc == l.entry && FrameSize(l) <= c.r[SP] <= STACK_SIZE
    ensures Run(prog, c, 2) == Done(Opened(c, l))
  {
    hide Run, Step, AddSubWord, PairWord, BranchWord, RetWord, Store, Wrap, Immediate;
    SubTurn(prog, c, l.sh, l.frame);
    var c1 := With(c, SP, c.r[SP] - FrameSize(l)).(pc := c.pc + 1);
    StpTurn(prog, c1, l.slot);
    RunTurn(prog, c, c1, 1);
    RunOne(prog, c1);
  }

  lemma MakeCall(prog: seq<Word>, c: Cpu, l: Level)
    requires CodeAt(prog, l) && c.pc == l.entry + 2 && 0 <= Callee(l) < TWO64
    ensures Run(prog, c, 2)
            == Done(CpuState(c.r[FP := Wrap(W64, c.r[SP] + l.fp as nat)][LR := l.entry + 4], Callee(l), c.f, c.mem))
  {
    hide Run, Step, AddSubWord, PairWord, BranchWord, RetWord, SignExtend, Wrap;
    AddTurn(prog, c, 0, l.fp, 29);
    assert (29 as bv5) as nat == 29;
    var c1 := With(c, FP, Wrap(W64, c.r[SP] + l.fp as nat)).(pc := c.pc + 1);
    BlTurn(prog, c1, l.call);
    RunTurn(prog, c, c1, 1);
    RunOne(prog, c1);
  }

  lemma EnterLevel(prog: seq<Word>, c: Cpu, l: Level)
    requires CodeAt(prog, l) && c.pc == l.entry && FrameSize(l) <= c.r[SP] <= STACK_SIZE && 0 <= Callee(l) < TWO64
    ensures Run(prog, c, 4) == Done(Entered(c, l))
  {
    hide Run, AddSubWord, PairWord, BranchWord, RetWord, Wrap, Store, SignExtend, Immediate;
    OpenFrame(prog, c, l);
    MakeCall(prog, Opened(c, l), l);
    RunThen(prog, c, 2, Opened(c, l), 2);
  }

  lemma CloseFrame(prog: seq<Word>, d: Cpu, l: Level, fp: u64, lr: u64)
    requires CodeAt(prog, l) && d.pc == l.entry + 4 && d.r[SP] + FrameSize(l) <= STACK_SIZE
    requires var a := d.r[SP] + 8 * (l.slot as nat);
             Load(d.mem, a, 8) == fp && Load(d.mem, a + 8, 8) == lr
    ensures Run(prog, d, 2)
            == Done(CpuState(d.r[FP := fp][LR := lr][SP := d.r[SP] + FrameSize(l)], l.entry + 6, d.f, d.mem))
  {
    hide Run, Step, AddSubWord, PairWord, BranchWord, RetWord, Load, Immediate;
    LdpTurn(prog, d, l.slot);
    var d1 := With(With(d, FP, fp), LR, lr).(pc := d.pc + 1);
    AddTurn(prog, d1, l.sh, l.frame, 31);
    assert (31 as bv5) as nat == 31;
    RunTurn(prog, d, d1, 1);
    RunOne(prog, d1);
  }

  /** LDP, ADD and RET behind the call. */
  lemma LeaveLevel(prog: seq<Word>, d: Cpu, l: Level, fp: u64, lr: u64)
    requires CodeAt(prog, l) && d.pc == l.entry + 4 && d.r[SP] + FrameSize(l) <= STACK_SIZE
    requires var a := d.r[SP] + 8 * (l.slot as nat);
             Load(d.mem, a, 8) == fp && Load(d.mem, a + 8, 8) == lr
    ensures var r := d.r[FP := fp][LR := 0][SP := d.r[SP] + FrameSize(l)];
            Run(prog, d, 3)
            == if lr == 0 then Outcome(Stop, CpuState(r, l.entry + 6, d.f, d.mem))
               else Done(CpuState(r, lr, d.f, d.mem))
  {
    hide Run, Step, AddSubWord, PairWord, BranchWord, RetWord, Load, Immediate;
    CloseFrame(prog, d, l, fp, lr);
    var d2 := CpuState(d.r[FP := fp][LR := lr][SP := d.r[SP] + FrameSize(l)], l.entry + 6, d.f, d.mem);
    RetTurn(prog, d2);
    RunThen(prog, d, 2, d2, 1);
    RunOne(prog, d2);
    assert d2.r[LR := 0] == d.r[FP := fp][LR := 0][SP := d.r[SP] + FrameSize(l)];
  }

  /** Storing the pair changes 16 bytes, and both words read back as long as those bytes are kept. */
  lemma SavedPair(mem: seq<u8>, mem': seq<u8>, a: nat, fp: u64, lr: u64)
    requires a + 16 <= |mem| == |mem'|
    requires forall i :: a <= i < a + 16 ==> mem'[i] == Store(Store(mem, a, 8, fp), a + 8, 8, lr)[i]
    ensures Load(mem', a, 8) == fp && Load(mem', a + 8, 8) == lr
    ensures forall i :: 0 <= i < |mem| && !(a <= i < a + 16) ==> Store(Store(mem, a, 8, fp), a + 8, 8, lr)[i] == mem[i]
  {
    var m := Store(Store(mem, a, 8, fp), a + 8, 8, lr);
    TwoCells(mem, a, W64, fp, lr);
    assert mem'[a..a + 8] == m[a..a + 8];
    assert mem'[a + 8..a + 16] == m[a + 8..a + 16];
  }

  /** The state one level leaves behind, whatever its callee does within the contract. */
  lemma LevelRuns(prog: seq<Word>, c: Cpu, l: Level, n: nat, need: nat) returns (d: Cpu)
    requires CodeAt(prog, l) && c.pc == l.entry && 0 <= Callee(l) < TWO64
    requires FrameSize(l) + need <= c.r[SP] <= STACK_SIZE
    requires Returns(prog, Entered(c, l), n, need)
    ensures d.r[SP] == c.r[SP] && d.r[FP] == c.r[FP] && d.r[LR] == 0
    ensures forall i | 0 <= i < STACK_SIZE && !(c.r[SP] - (need + FrameSize(l)) <= i < c.r[SP]) ::
              d.mem[i] == c.mem[i]
    ensures Run(prog, c, n + 7)
            == if c.r[LR] == 0 then Outcome(Stop, d.(pc := l.entry + 6)) else Done(d.(pc := c.r[LR]))
  {
    hide Run, Step, AddSubWord, PairWord, BranchWord, RetWord, SignExtend, Load, Store;
    EnterLevel(prog, c, l);
    var e := Entered(c, l);
    var b := Run(prog, e, n).cpu;
    var a := e.r[SP] + 8 * (l.slot as nat);
    SavedPair(c.mem, b.mem, a, c.r[FP], c.r[LR]);
    LeaveLevel(prog, b, l, c.r[FP], c.r[LR]);
    RunThen(prog, c, 4, e, n + 3);
    RunThen(prog, e, n, b, 3);
    d := Run(prog, b, 3).cpu;
  }

  /** One level keeps the contract of calls if its callee does. */
  lemma LevelReturns(prog: seq<Word>, c: Cpu, l: Level, n: nat, need: nat)
    requires CodeAt(prog, l) && c.pc == l.entry && 0 <= Callee(l) < TWO64 && c.r[LR] != 0
    requires FrameSize(l) + need <= c.r[SP] <= STACK_SIZE
    requires Returns(prog, Entered(c, l), n, need)
    ensures Returns(prog, c, n + 7, need + FrameSize(l))
  {
    hide Run, CodeAt, Entered;
    var d := LevelRuns(prog, c, l, n, need);
  }

  // ---------- any number of levels ----------

  /** Each level calls the next one, the last calls a leaf that only returns. */
  ghost predicate Linked(prog: seq<Word>, levels: seq<Level>, leaf: nat) {
    && leaf < |prog| < TWO64 && prog[leaf] == RetWord(30)
    && (forall i :: 0 <= i < |levels| ==> CodeAt(prog, levels[i]))
    && (forall i :: 0 <= i < |levels| ==> Callee(levels[i]) == StartOf(levels[i + 1..], leaf))
  }

  function StartOf(levels: seq<Level>, leaf: nat): nat {
    if levels == [] then leaf else levels[0].entry
  }

  function TotalFrames(levels: seq<Level>): nat {
    if levels == [] then 0 else TotalFrames(levels[1..]) + FrameSize(levels[0])
  }

  lemma LinkedTail(prog: seq<Word>, levels: seq<Level>, leaf: nat)
    requires Linked(prog, levels, leaf) && levels != []
    ensures Linked(prog, levels[1..], leaf)
    ensures CodeAt(prog, levels[0]) && Callee(levels[0]) == StartOf(levels[1..], leaf) && 0 <= Callee(levels[0]) < TWO64
  {
    hide CodeAt, Callee, RetWord;
    forall i | 0 <= i < |levels[1..]| ensures Callee(levels[1..][i]) == StartOf(levels[1..][i + 1..], leaf) {
      assert levels[1..][i] == levels[i + 1] && levels[1..][i + 1..] == levels[i + 2..];
    }
    EntryBound(prog, levels[1..], leaf);
  }

  lemma EntryBound(prog: seq<Word>, levels: seq<Level>, leaf: nat)
    requires leaf < |prog| && forall i :: 0 <= i < |levels| ==> CodeAt(prog, levels[i])
    ensures StartOf(levels, leaf) < |prog|
  {}

  /** The nested-call discipline: from the first level's entry, with a stack that holds all frames, the
      run of all levels returns to the caller's link register, with stack pointer and frame pointer as
      they were and memory changed within the frames only. */
  lemma {:induction false} NestedCallsReturn(prog: seq<Word>, c: Cpu, levels: seq<Level>, leaf: nat)
    requires Linked(prog, levels, leaf) && c.pc == StartOf(levels, leaf) && c.r[LR] != 0
    requires TotalFrames(levels) <= c.r[SP] <= STACK_SIZE
    ensures Returns(prog, c, 7 * |levels| + 1, TotalFrames(levels))
    decreases |levels|
  {
    hide Run, Step, CodeAt, Callee, RetWord;
    if levels == [] {
      RetTurn(prog, c);
      RunOne(prog, c);
    } else {
      var l := levels[0];
      LinkedTail(prog, levels, leaf);
      EntryFits(prog, l);
      NestedCallsReturn(prog, Entered(c, l), levels[1..], leaf);
      LevelReturns(prog, c, l, 7 * |levels[1..]| + 1, TotalFrames(levels[1..]));
    }
  }

  lemma EntryFits(prog: seq<Word>, l: Level)
    requires CodeAt(prog, l)
    ensures l.entry + 4 < TWO64 && 8 * (l.slot as nat) + 16 <= FrameSize(l)
  {}

  /** The outermost function, entered with a zero link register, ends the program: the run stops at its
      RET, with stack pointer, frame pointer and the memory outside the frames as they were. */
  lemma ProgramStops(prog: seq<Word>, c: Cpu, levels: seq<Level>, leaf: nat)
    requires Linked(prog, levels, leaf) && levels != [] && c.pc == levels[0].entry && c.r[LR] == 0
    requires TotalFrames(levels) <= c.r[SP] <= STACK_SIZE
    ensures var o := Run(prog, c, 7 * |levels| + 1);
            && o.status == Stop && o.cpu.pc == levels[0].entry + 6
            && o.cpu.r[SP] == c.r[SP] && o.cpu.r[FP] == c.r[FP] && o.cpu.r[LR] == 0
            && forall i | 0 <= i < STACK_SIZE && !(c.r[SP] - TotalFrames(levels) <= i < c.r[SP]) ::
                 o.cpu.mem[i] == c.mem[i]
  {
    hide Run, Step, CodeAt, Callee, RetWord, Linked, Returns, FrameSize;
    var l := levels[0];
    LinkedTail(prog, levels, leaf);
    EntryFits(prog, l);
    NestedCallsReturn(prog, Entered(c, l), levels[1..], leaf);
    var d := LevelRuns(prog, c, l, 7 * |levels[1..]| + 1, TotalFrames(levels[1..]));
  }

  /** A session whose program is a chain of calls: started with a zero link register at the first entry,
      with frames that fit below the initial stack pointer, it stops with its stack pointer back. */
  lemma SessionStops(prog: seq<Word>, initial: Cpu, levels: seq<Level>, leaf: nat, turns: nat)
    requires Linked(prog, levels, leaf) && levels != [] && initial.pc == levels[0].entry
    requires initial.r[SP] == STACK_SIZE - 1 && initial.r[LR] == 0 && TotalFrames(levels) < STACK_SIZE
    requires turns >= 7 * |levels| + 1
    ensures Run(prog, initial, turns).status == Stop && Run(prog, initial, turns).cpu.r[SP] == STACK_SIZE - 1
  {
    hide Run, Linked;
    ProgramStops(prog, initial, levels, leaf);
    RunSplits(prog, initial, 7 * |levels| + 1, turns - (7 * |levels| + 1));
  }
}
