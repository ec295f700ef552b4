/** The session loop through the checked-in text: what the text returns on a word decides the turn. */
module Loop {
  import opened Patterns
  import opened CodeGen
  import opened Dispatcher
  import opened Isa
  import opened Session
  import opened BaseOp

  /** What the checked-in text, read as C++ and run, returns on a word; control never leaves it otherwise. */
  function Answer(w: Word): Flow {
    match ParseBlock(BASE_OP)
    case None => Falls
    case Some((block, _)) => ExecBlock(block, w)
  }

  lemma AnswerIs(w: Word)
    ensures Answer(w) == Returned(HandlerName(HandlerOf(w)))
  {
    hide ParseBlock, ExecBlock, BASE_OP, HandlerOf, HandlerName;
    TextIsHandlerOf(w);
  }

  lemma NamesDiffer(op: Op, other: Op)
    ensures OpName(op) == OpName(other) ==> op == other
  {}

  /** A word for which the text returns false ends in false and changes nothing; a word for which it calls
      a handler has exactly the effect of the handler of that name. */
  lemma TextDecides(w: Word, c: Cpu)
    ensures Answer(w).Returned?
    ensures Answer(w).name == None ==> Exec(w, c) == Outcome(Stop, c)
    ensures forall op :: Answer(w).name == Some(OpName(op)) ==> Exec(w, c) == ExecOp(op, w, c)
  {
    hide Answer, HandlerOf, ExecOp, OpName;
    AnswerIs(w);
    forall op | Answer(w).name == Some(OpName(op)) ensures Exec(w, c) == ExecOp(op, w, c) {
      NamesDiffer(op, HandlerOf(w).value);
    }
  }

  /** A turn on a word for which the text returns false. */
  lemma UnsupportedStops(prog: seq<Word>, c: Cpu)
    requires c.pc < |prog| && Answer(prog[c.pc]) == Returned(None)
    ensures Step(prog, c) == Outcome(Stop, c)
  {
    hide Answer, Exec;
    TextDecides(prog[c.pc], c);
  }

  /** The first turn that does not continue ends the run, whatever turns are left; in particular a word for
      which the text returns false ends it with the state as it was. */
  lemma RunEnds(prog: seq<Word>, c: Cpu, n: nat, more: nat)
    requires Run(prog, c, n).status == Continue
    ensures var d := Run(prog, c, n).cpu;
            && (Step(prog, d).status != Continue ==> Run(prog, c, n + 1 + more) == Step(prog, d))
            && (d.pc < |prog| && Answer(prog[d.pc]) == Returned(None) ==>
                  Run(prog, c, n + 1 + more) == Outcome(Stop, d))
            && (d.pc >= |prog| ==> Run(prog, c, n + 1 + more) == Outcome(Undefined, d))
  {
    hide Answer, Exec, Run;
    var d := Run(prog, c, n).cpu;
    RunSplits(prog, c, n, 1 + more);
    OneTurnOf(prog, d, more);
    if d.pc < |prog| && Answer(prog[d.pc]) == Returned(None) {
      UnsupportedStops(prog, d);
    }
  }

  lemma OneTurnOf(prog: seq<Word>, c: Cpu, more: nat)
    ensures Step(prog, c).status != Continue ==> Run(prog, c, 1 + more) == Step(prog, c)
    ensures Step(prog, c).status == Continue ==> Run(prog, c, 1 + more) == Run(prog, Step(prog, c).cpu, more)
  {
    hide Step;
  }

  /** A turn whose handler returns true goes on at the next word, modulo 2^64. */
  lemma TurnAdvances(prog: seq<Word>, c: Cpu)
    requires c.pc < |prog| && Exec(prog[c.pc], c).status == Continue
    ensures var d := Exec(prog[c.pc], c).cpu;
            Step(prog, c) == Done(d.(pc := (d.pc + 1) % 0x1_0000_0000_0000_0000))
  {
    hide Exec;
  }

  /** ADD X0, X0, X1 (shifted register) has no row: it ends the session. */
  lemma AddRegisterStops(c: Cpu)
    ensures Answer(0x8B010000) == Returned(None) && Exec(0x8B010000, c) == Outcome(Stop, c)
  {
    assert HandlerOf(0x8B010000) == None;
    hide HandlerOf, Answer;
    AnswerIs(0x8B010000);
  }
}
