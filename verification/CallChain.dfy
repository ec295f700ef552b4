/** Call chains of every depth, assembled: the programs the nested-call theorem is about exist. */
module CallChain {
  import opened Patterns
  import opened Ints
  import opened Isa
  import opened Assembler
  import opened Calls
  import opened Session
  import opened CoreState

  /** The immediates of one level. */
  datatype Frame = Frame(sh: bv1, size: bv12, slot: bv7, fp: bv12)

  /** The saved pair lies within the frame. */
  predicate HoldsPair(f: Frame) {
    8 * (f.slot as nat) + 16 <= Immediate(f.sh, f.size)
  }

  /** Seven words; the call goes to the word behind them. */
  function FrameCode(f: Frame): (code: seq<Word>)
    ensures |code| == 7
  {
    [AddSubWord(1, 1, 0, f.sh, f.size, 31, 31), PairWord(1, 2, 0, f.slot, 30, 31, 29),
     AddSubWord(1, 0, 0, 0, f.fp, 31, 29),
     BranchWord(1, 4), PairWord(1, 2, 1, f.slot, 30, 31, 29), AddSubWord(1, 0, 0, f.sh, f.size, 31, 31), RetWord(30)]
  }

  function Assemble(frames: seq<Frame>): (code: seq<Word>)
    ensures |code| == 7 * |frames| + 1
  {
    if frames == [] then [RetWord(30)] else FrameCode(frames[0]) + Assemble(frames[1..])
  }

  function LevelAt(f: Frame, start: nat): Level {
    Level(start, f.sh, f.size, f.slot, f.fp, 4)
  }

  function LevelsFrom(frames: seq<Frame>, start: nat): (levels: seq<Level>)
    ensures |levels| == |frames| && StartOf(levels, start + 7 * |frames|) == start
  {
    if frames == [] then [] else [LevelAt(frames[0], start)] + LevelsFrom(frames[1..], start + 7)
  }

  function StackNeed(frames: seq<Frame>): nat {
    if frames == [] then 0 else StackNeed(frames[1..]) + Immediate(frames[0].sh, frames[0].size)
  }

  lemma NextLevel(f: Frame, start: nat)
    ensures Callee(LevelAt(f, start)) == start + 7
  {
    hide Pow2;
    assert (4 as bv26) as nat == 4;
    Pow2At26();
  }

  lemma CodePlaced(before: seq<Word>, f: Frame, behind: seq<Word>)
    requires HoldsPair(f) && |before| + 7 + |behind| < TWO64
    ensures CodeAt(before + FrameCode(f) + behind, LevelAt(f, |before|))
  {
    hide AddSubWord, PairWord, BranchWord, RetWord, Immediate;
  }

  lemma LinkedCons(prog: seq<Word>, l: Level, levels: seq<Level>, leaf: nat)
    requires Linked(prog, levels, leaf) && CodeAt(prog, l) && Callee(l) == StartOf(levels, leaf)
    ensures Linked(prog, [l] + levels, leaf)
  {
    hide CodeAt, Callee, RetWord, StartOf;
    var all := [l] + levels;
    forall i | 0 <= i < |all| ensures CodeAt(prog, all[i]) && Callee(all[i]) == StartOf(all[i + 1..], leaf) {
      if i > 0 {
        assert all[i] == levels[i - 1] && all[i + 1..] == levels[i..];
      } else {
        assert all[1..] == levels;
      }
    }
  }

  /** The assembled frames form a chain, wherever they are placed. */
  lemma {:induction false} AssembledIsLinked(before: seq<Word>, frames: seq<Frame>)
    requires (forall f | f in frames :: HoldsPair(f)) && |before| + 7 * |frames| + 1 < TWO64
    ensures Linked(before + Assemble(frames), LevelsFrom(frames, |before|), |before| + 7 * |frames|)
    ensures TotalFrames(LevelsFrom(frames, |before|)) == StackNeed(frames)
    decreases |frames|
  {
    hide HoldsPair, FrameCode, CodeAt, Callee, RetWord, LevelAt, Linked, TotalFrames, Immediate;
    if frames == [] {
      LeafLinked(before);
    } else {
      var f, rest := frames[0], frames[1..];
      var next := before + FrameCode(f);
      AssembledIsLinked(next, rest);
      assert before + Assemble(frames) == next + Assemble(rest);
      CodePlaced(before, f, Assemble(rest));
      NextLevel(f, |before|);
      LinkedCons(next + Assemble(rest), LevelAt(f, |before|), LevelsFrom(rest, |next|), |before| + 7 * |frames|);
      FramesCons(LevelAt(f, |before|), LevelsFrom(rest, |next|));
      SameFrame(f, |before|);
    }
  }

  lemma LeafLinked(before: seq<Word>)
    requires |before| + 1 < TWO64
    ensures Linked(before + [RetWord(30)], [], |before|) && TotalFrames([]) == 0
  {
    hide RetWord;
  }

  lemma SameFrame(f: Frame, start: nat)
    ensures FrameSize(LevelAt(f, start)) == Immediate(f.sh, f.size)
  {}

  lemma FramesCons(l: Level, levels: seq<Level>)
    ensures TotalFrames([l] + levels) == TotalFrames(levels) + FrameSize(l)
  {
    assert ([l] + levels)[1..] == levels;
  }

  /** For every depth, all frame sizes that fit the stack, any code around and any initial state: calling
      the assembled chain returns to the caller with stack pointer and frame pointer restored and memory
      changed in the frames only. */
  lemma AssembledChainReturns(before: seq<Word>, frames: seq<Frame>, c: Cpu)
    requires (forall f | f in frames :: HoldsPair(f)) && |before| + 7 * |frames| + 1 < TWO64
    requires c.pc == |before| && c.r[LR] != 0 && StackNeed(frames) <= c.r[SP] <= STACK_SIZE
    ensures Returns(before + Assemble(frames), c, 7 * |frames| + 1, StackNeed(frames))
  {
    hide Returns, Linked, Assemble, LevelsFrom, TotalFrames, StackNeed, HoldsPair;
    AssembledIsLinked(before, frames);
    NestedCallsReturn(before + Assemble(frames), c, LevelsFrom(frames, |before|), |before| + 7 * |frames|);
  }

  /** The whole session on an assembled chain of one or more levels stops, whatever memory and the other
      registers held, and leaves its stack pointer where it started. */
  lemma AssembledSessionStops(before: seq<Word>, frames: seq<Frame>, initial: Cpu, turns: nat)
    requires (forall f | f in frames :: HoldsPair(f)) && frames != [] && |before| + 7 * |frames| + 1 < TWO64
    requires initial.pc == |before| && initial.r[SP] == STACK_SIZE - 1 && initial.r[LR] == 0
    requires StackNeed(frames) < STACK_SIZE && turns >= 7 * |frames| + 1
    ensures var o := Run(before + Assemble(frames), initial, turns);
            o.status == Stop && o.cpu.r[SP] == STACK_SIZE - 1
  {
    hide Run, Linked, Assemble, TotalFrames, StackNeed, HoldsPair;
    AssembledIsLinked(before, frames);
    SessionStops(before + Assemble(frames), initial, LevelsFrom(frames, |before|), |before| + 7 * |frames|, turns);
  }

  /** The session itself, started on an assembled chain: if the link register happens to hold zero, it
      returns after a RET has stopped it, with the stack pointer where the session put it. */
  method RunChain(before: seq<Word>, frames: seq<Frame>, turns: nat) returns (s: Status, st: State, ghost initial: Cpu)
    requires (forall f | f in frames :: HoldsPair(f)) && frames != [] && |before| + 7 * |frames| + 1 < TWO64
    requires StackNeed(frames) < STACK_SIZE && turns >= 7 * |frames| + 1
    ensures fresh(st) && st.Valid() && initial.pc == |before|
    ensures initial.r[LR] == 0 ==> s == Stop && st.View().r[SP] == STACK_SIZE - 1
  {
    hide Run, Assemble, StackNeed, HoldsPair;
    s, st, initial := Start(before + Assemble(frames), |before|, turns);
    if initial.r[LR] == 0 {
      AssembledSessionStops(before, frames, initial, turns);
    }
  }
}
