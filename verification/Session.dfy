/** Dispatch of one instruction and the run loop of the session. */
module Session {
  import opened Patterns
  import opened Ints
  import opened Shifts
  import opened Dispatcher
  import opened Isa
  import opened CoreState
  import Arith
  import Handlers

  method HandleInstruction(instruction: Word, st: State) returns (s: Status)
    requires st.Valid()
    modifies st, st.r, st.stack
    ensures Outcome(s, st.View()) == Exec(instruction, old(st.View()))
  {
    hide HandlerOf, ExecAddImm, ExecAddsImm, ExecSubImm, ExecSubsImm, ExecB, ExecBl, ExecRet, ExecTbnz, ExecCsinc;
    hide ExecMovz, ExecAdrp, ExecOrrSh, ExecStp, ExecLdp, ExecStrImm, ExecLdrImm, ExecStur, ExecLdur;
    var handler := HandlerOf(instruction);
    if handler.None? {
      return Stop;
    }
    match handler.value {
      case AddImm => s := Handlers.AddImm(instruction, st);
      case AddsImm => s := Handlers.AddsImm(instruction, st);
      case SubImm => s := Handlers.SubImm(instruction, st);
      case SubsImm => s := Handlers.SubsImm(instruction, st);
      case B => s := Handlers.B(instruction, st);
      case Bl => s := Handlers.Bl(instruction, st);
      case Ret => s := Handlers.Ret(instruction, st);
      case Tbnz => s := Handlers.Tbnz(instruction, st);
      case Csinc => s := Handlers.Csinc(instruction, st);
      case Movz => s := Handlers.Movz(instruction, st);
      case Adrp => s := Handlers.Adrp(instruction, st);
      case OrrSh => s := Handlers.OrrSh(instruction, st);
      case Stp => s := Handlers.Stp(instruction, st);
      case Ldp => s := Handlers.Ldp(instruction, st);
      case StrImm => s := Handlers.StrImm(instruction, st);
      case LdrImm => s := Handlers.LdrImm(instruction, st);
      case Stur => s := Handlers.Stur(instruction, st);
      case Ldur => s := Handlers.Ldur(instruction, st);
    }
  }

  /** The `while` loop: fetch, handle, advance. `turns` bounds the number of instructions. */
  method RunLoop(instrs: seq<Word>, st: State, turns: nat) returns (s: Status)
    requires st.Valid()
    modifies st, st.r, st.stack
    ensures Outcome(s, st.View()) == Run(instrs, old(st.View()), turns)
  {
    hide Exec;
    var left := turns;
    while left > 0
      invariant Run(instrs, st.View(), left) == Run(instrs, old(st.View()), turns)
    {
      if st.pc >= |instrs| {
        return Undefined;
      }
      s := HandleInstruction(instrs[st.pc], st);
      if s != Continue {
        return;
      }
      st.AdvancePc();
      left := left - 1;
    }
    return Continue;
  }

  /** The session: a fresh state with the stack pointer one below the stack size and the entry point in
      the PC, then the loop. */
  method Start(instrs: seq<Word>, entry: u64, turns: nat) returns (s: Status, st: State, ghost initial: Cpu)
    ensures fresh(st) && st.Valid()
    ensures initial.pc == entry && initial.r[SP] == STACK_SIZE - 1
            && initial.f == Arith.Flags(false, false, false, false)
    ensures Outcome(s, st.View()) == Run(instrs, initial, turns)
  {
    st := new State();
    st.SetR(W64, 31, STACK_SIZE - 1);
    st.UpdatePc(entry);
    initial := st.View();
    s := RunLoop(instrs, st, turns);
  }

  // ---------- runs ----------

  /** A run of `a + b` turns is a run of `a` turns followed, if it continues, by a run of `b`. */
  lemma {:induction false} RunSplits(prog: seq<Word>, c: Cpu, a: nat, b: nat)
    ensures Run(prog, c, a + b)
            == if Run(prog, c, a).status == Continue then Run(prog, Run(prog, c, a).cpu, b) else Run(prog, c, a)
    decreases a
  {
    hide Step;
    if a > 0 {
      var o := Step(prog, c);
      if o.status == Continue {
        RunSplits(prog, o.cpu, a - 1, b);
      }
    }
  }

  lemma RunOne(prog: seq<Word>, c: Cpu)
    ensures Run(prog, c, 1) == Step(prog, c)
  {
    hide Step;
    if Step(prog, c).status == Continue {
      assert Run(prog, Step(prog, c).cpu, 0) == Done(Step(prog, c).cpu);
    }
  }
}
