/** The C++ text the generator writes, read back as C++ and run. */
module CodeGen {
  import opened Patterns
  import opened DecisionTree
  import opened Routing

  // ---------- what the generator writes ----------

  /** One written fragment, up to its line break. */
  datatype Line =
    | SwitchOpen(mask: Word)
    | CaseOpen(val: Word)
    | DefaultOpen
    | ReturnProcess(name: string)
    | LogError
    | ReturnFalse
    | Close

  const DEFAULT_LINES: seq<Line> := [DefaultOpen, LogError, ReturnFalse, Close]

  function Emit(t: Tree): seq<Line> {
    match t
    case Leaf(p) => [ReturnProcess(p.name)]
    case Group(m, cases) => [SwitchOpen(m)] + EmitCases(cases) + DEFAULT_LINES + [Close]
  }

  function EmitCases(cs: Cases): seq<Line> {
    match cs
    case Default => []
    case Case(val, node, rest) => [CaseOpen(val)] + Emit(node) + [Close] + EmitCases(rest)
  }

  // ---------- C++ syntax and its meaning ----------

  datatype Stmt = Switch(mask: Word, arms: Arms) | Return(name: Option<string>) | Log
  datatype Block = End | Then(first: Stmt, rest: Block)

  /** The labelled blocks of a switch; `None` is the label `default`. */
  datatype Arms = NoArms | Arm(tag: Option<Word>, body: Block, rest: Arms)

  /** A statement returns from the function, or control goes on behind it. */
  datatype Flow = Returned(name: Option<string>) | Falls

  /** The arms from the one tagged `tag` on. */
  function From(arms: Arms, tag: Option<Word>): (r: Arms)
    ensures r == arms || r < arms
  {
    match arms
    case NoArms => NoArms
    case Arm(l, _, rest) => if l == tag then arms else From(rest, tag)
  }

  /** Where control enters a switch: at the matching case, else at `default`, else nowhere. */
  function Entry(arms: Arms, v: Word): (r: Arms)
    ensures r == arms || r < arms
  {
    var hit := From(arms, Some(v));
    if hit == NoArms then From(arms, None) else hit
  }

  function ExecStmt(s: Stmt, w: Word): Flow
    decreases s
  {
    match s
    case Switch(m, arms) => ExecArms(Entry(arms, And(w, m)), w)
    case Return(name) => Returned(name)
    case Log => Falls
  }

  function ExecBlock(b: Block, w: Word): Flow
    decreases b
  {
    match b
    case End => Falls
    case Then(first, rest) =>
      var flow := ExecStmt(first, w);
      if flow == Falls then ExecBlock(rest, w) else flow
  }

  /** No generated block contains `break`: a block that does not return falls into the next one. */
  function ExecArms(arms: Arms, w: Word): Flow
    decreases arms
  {
    match arms
    case NoArms => Falls
    case Arm(_, body, rest) =>
      var flow := ExecBlock(body, w);
      if flow == Falls then ExecArms(rest, w) else flow
  }

  /** A block that does not return runs into the next one. */
  lemma FallsThrough(tag: Option<Word>, body: Block, rest: Arms, w: Word)
    ensures ExecBlock(body, w) == Falls ==> ExecArms(Arm(tag, body, rest), w) == ExecArms(rest, w)
    ensures ExecBlock(body, w) != Falls ==> ExecArms(Arm(tag, body, rest), w) == ExecBlock(body, w)
  {}

  /** Writing to the log does not return: the statement behind it runs. */
  lemma LogGoesOn(body: Block, w: Word)
    ensures ExecBlock(Then(Log, body), w) == ExecBlock(body, w)
  {}

  // ---------- reading the text ----------

  function ParseBlock(ls: seq<Line>): (r: Option<(Block, seq<Line>)>)
    ensures r.Some? ==> |r.value.1| <= |ls|
    decreases |ls|
  {
    if ls == [] || ls[0].Close? then Some((End, ls))
    else
      match ls[0]
      case ReturnProcess(n) => Prepend(Return(Some(n)), ParseBlock(ls[1..]))
      case ReturnFalse => Prepend(Return(None), ParseBlock(ls[1..]))
      case LogError => Prepend(Log, ParseBlock(ls[1..]))
      case SwitchOpen(m) =>
        (match ParseArms(ls[1..])
         case None => None
         case Some((arms, rest)) =>
           if rest == [] then None else Prepend(Switch(m, arms), ParseBlock(rest[1..])))
      case _ => None
  }

  /** Reads up to, not including, the brace that closes the switch. */
  function ParseArms(ls: seq<Line>): (r: Option<(Arms, seq<Line>)>)
    ensures r.Some? ==> |r.value.1| <= |ls|
    ensures r.Some? && r.value.1 != [] ==> r.value.1[0].Close?
    decreases |ls|
  {
    if ls == [] then None
    else if ls[0].Close? then Some((NoArms, ls))
    else if !ls[0].CaseOpen? && !ls[0].DefaultOpen? then None
    else
      var tag := if ls[0].CaseOpen? then Some(ls[0].val) else None;
      match ParseBlock(ls[1..])
      case None => None
      case Some((body, rest)) =>
        if rest == [] then None
        else
          match ParseArms(rest[1..])
          case None => None
          case Some((arms, rest')) => Some((Arm(tag, body, arms), rest'))
  }

  function Prepend(s: Stmt, r: Option<(Block, seq<Line>)>): Option<(Block, seq<Line>)> {
    match r
    case None => None
    case Some((b, rest)) => Some((Then(s, b), rest))
  }

  /** The statement the text of a tree stands for. */
  function StmtOf(t: Tree): Stmt {
    match t
    case Leaf(p) => Return(Some(p.name))
    case Group(m, cases) => Switch(m, ArmsOf(cases))
  }

  function ArmsOf(cs: Cases): Arms {
    match cs
    case Default => Arm(None, Then(Log, Then(Return(None), End)), NoArms)
    case Case(val, node, rest) => Arm(Some(val), Then(StmtOf(node), End), ArmsOf(rest))
  }

  lemma {:induction false} ParseEmitted(t: Tree, rest: seq<Line>)
    ensures ParseBlock(Emit(t) + rest) == Prepend(StmtOf(t), ParseBlock(rest))
    decreases t
  {
    match t
    case Leaf(p) =>
      assert (Emit(t) + rest)[1..] == rest;
    case Group(m, cases) =>
      var inner := EmitCases(cases) + DEFAULT_LINES + ([Close] + rest);
      assert (Emit(t) + rest)[1..] == inner;
      ParseEmittedCases(cases, rest);
      assert ([Close] + rest)[1..] == rest;
  }

  lemma {:induction false} ParseEmittedCases(cs: Cases, rest: seq<Line>)
    ensures ParseArms(EmitCases(cs) + DEFAULT_LINES + ([Close] + rest)) == Some((ArmsOf(cs), [Close] + rest))
    decreases cs
  {
    hide ParseBlock, ParseArms, Emit, StmtOf, DEFAULT_LINES;
    match cs
    case Default =>
      ParseDefault(rest);
      assert EmitCases(cs) + DEFAULT_LINES + ([Close] + rest) == DEFAULT_LINES + ([Close] + rest);
    case Case(val, node, more) =>
      var tail := EmitCases(more) + DEFAULT_LINES + ([Close] + rest);
      ParseEmitted(node, [Close] + tail);
      ParseEmittedCases(more, rest);
      ParseOneCase(val, Emit(node) + ([Close] + tail), StmtOf(node), tail);
      assert EmitCases(cs) + DEFAULT_LINES + ([Close] + rest) == [CaseOpen(val)] + (Emit(node) + ([Close] + tail));
  }

  /** One case of a switch: its tag, a block of one statement, then the remaining arms. */
  lemma ParseOneCase(val: Word, block: seq<Line>, s: Stmt, tail: seq<Line>)
    requires ParseBlock(block) == Prepend(s, ParseBlock([Close] + tail)) && ParseArms(tail).Some?
    ensures ParseArms([CaseOpen(val)] + block)
            == Some((Arm(Some(val), Then(s, End), ParseArms(tail).value.0), ParseArms(tail).value.1))
  {
    assert ([CaseOpen(val)] + block)[1..] == block;
    assert ([Close] + tail)[1..] == tail;
  }

  /** A closing brace ends the block, and the switch, before it. */
  lemma ParseClose(rest: seq<Line>)
    ensures ParseBlock([Close] + rest) == Some((End, [Close] + rest))
    ensures ParseArms([Close] + rest) == Some((NoArms, [Close] + rest))
  {}

  lemma ParseReturnFalse(rest: seq<Line>)
    ensures ParseBlock([ReturnFalse] + rest) == Prepend(Return(None), ParseBlock(rest))
  {
    assert ([ReturnFalse] + rest)[1..] == rest;
  }

  lemma ParseLog(rest: seq<Line>)
    ensures ParseBlock([LogError] + rest) == Prepend(Log, ParseBlock(rest))
  {
    assert ([LogError] + rest)[1..] == rest;
  }

  /** The last arm of a switch. */
  lemma ParseLastArm(block: seq<Line>, body: Block, tail: seq<Line>)
    requires ParseBlock(block) == Some((body, [Close] + tail)) && ParseArms(tail) == Some((NoArms, tail))
    ensures ParseArms([DefaultOpen] + block) == Some((Arm(None, body, NoArms), tail))
  {
    assert ([DefaultOpen] + block)[1..] == block;
    assert ([Close] + tail)[1..] == tail;
  }

  lemma ParseDefault(rest: seq<Line>)
    ensures ParseArms(DEFAULT_LINES + ([Close] + rest)) == Some((ArmsOf(Default), [Close] + rest))
  {
    hide ParseBlock, ParseArms;
    var outer := [Close] + rest;
    var inner := [Close] + outer;
    ParseClose(rest);
    ParseClose(outer);
    ParseReturnFalse(inner);
    ParseLog([ReturnFalse] + inner);
    ParseLastArm([LogError] + ([ReturnFalse] + inner), Then(Log, Then(Return(None), End)), outer);
    assert DEFAULT_LINES + outer == [DefaultOpen] + ([LogError] + ([ReturnFalse] + inner));
  }

  /** `case v: {} case u: { return N; }` returns N on v and on u and falls out of the switch on any other
      value: empty blocks fall through, and without a `default` nothing runs. */
  lemma EmptyCaseFallsThrough(m: Word, v: Word, u: Word, name: string, w: Word)
    requires v != u
    ensures var text := [SwitchOpen(m), CaseOpen(v), Close, CaseOpen(u), ReturnProcess(name), Close, Close];
            && ParseBlock(text).Some?
            && ExecBlock(ParseBlock(text).value.0, w)
               == if And(w, m) == v || And(w, m) == u then Returned(Some(name)) else Falls
  {
    hide And;
    var body := Then(Return(Some(name)), End);
    var last := Arm(Some(u), body, NoArms);
    var arms := Arm(Some(v), End, last);
    TwoCasesParse(m, v, u, name);
    FallsThrough(Some(v), End, last, w);
    assert ExecBlock(body, w) == Returned(Some(name));
    FallsThrough(Some(u), body, NoArms, w);
    assert From(NoArms, Some(And(w, m))) == NoArms && From(NoArms, None) == NoArms;
    assert From(last, Some(And(w, m))) == if u == And(w, m) then last else NoArms;
    assert From(last, None) == NoArms && From(arms, None) == NoArms;
    assert ExecStmt(Switch(m, arms), w) == ExecArms(Entry(arms, And(w, m)), w);
  }

  lemma TwoCasesParse(m: Word, v: Word, u: Word, name: string)
    ensures ParseBlock([SwitchOpen(m), CaseOpen(v), Close, CaseOpen(u), ReturnProcess(name), Close, Close])
            == Some((Then(Switch(m, Arm(Some(v), End, Arm(Some(u), Then(Return(Some(name)), End), NoArms))), End), []))
  {
    hide ParseBlock, ParseArms;
    var none: seq<Line> := [];
    var l6 := [Close] + none;
    var l5 := [Close] + l6;
    var l4 := [ReturnProcess(name)] + l5;
    var l3 := [CaseOpen(u)] + l4;
    var l2 := [Close] + l3;
    var l1 := [CaseOpen(v)] + l2;
    ParseClose(none);
    ParseClose(l6);
    ParseClose(l3);
    ParseReturn(name, l5);
    ParseCaseThen(u, l4, Then(Return(Some(name)), End), l6);
    ParseCaseThen(v, l2, End, l3);
    ParseSwitch(m, l1, none);
    ParseNothing();
    assert [SwitchOpen(m), CaseOpen(v), Close, CaseOpen(u), ReturnProcess(name), Close, Close] == [SwitchOpen(m)] + l1;
  }

  lemma ParseReturn(name: string, rest: seq<Line>)
    ensures ParseBlock([ReturnProcess(name)] + rest) == Prepend(Return(Some(name)), ParseBlock(rest))
  {
    assert ([ReturnProcess(name)] + rest)[1..] == rest;
  }

  lemma ParseNothing()
    ensures ParseBlock([]) == Some((End, []))
  {}

  lemma ParseSwitch(m: Word, inner: seq<Line>, rest: seq<Line>)
    requires ParseArms(inner).Some? && ParseArms(inner).value.1 == [Close] + rest
    ensures ParseBlock([SwitchOpen(m)] + inner) == Prepend(Switch(m, ParseArms(inner).value.0), ParseBlock(rest))
  {
    assert ([SwitchOpen(m)] + inner)[1..] == inner;
    assert ([Close] + rest)[1..] == rest;
  }

  lemma ParseCaseThen(val: Word, block: seq<Line>, body: Block, tail: seq<Line>)
    requires ParseBlock(block) == Some((body, [Close] + tail)) && ParseArms(tail).Some?
    ensures ParseArms([CaseOpen(val)] + block)
            == Some((Arm(Some(val), body, ParseArms(tail).value.0), ParseArms(tail).value.1))
  {
    assert ([CaseOpen(val)] + block)[1..] == block;
    assert ([Close] + tail)[1..] == tail;
  }

  // ---------- correctness of the generated code ----------

  lemma {:induction false} ExecIsLookup(t: Tree, w: Word)
    ensures ExecStmt(StmtOf(t), w) == Returned(NameOf(Lookup(t, w)))
    decreases t
  {
    hide And;
    if t.Group? {
      EntryRuns(t.cases, And(w, t.mask), w);
    }
  }

  lemma {:induction false} EntryRuns(cs: Cases, v: Word, w: Word)
    ensures ExecArms(Entry(ArmsOf(cs), v), w) == Returned(NameOf(LookupCases(cs, v, w)))
    ensures From(ArmsOf(cs), None) == ArmsOf(Default)
    decreases cs
  {
    hide And;
    match cs
    case Default =>
      assert From(ArmsOf(cs), Some(v)) == NoArms;
    case Case(val, node, rest) =>
      EntryRuns(rest, v, w);
      if val == v {
        ExecIsLookup(node, w);
      }
  }

  /** The emitted text parses as one statement, and running it under C++ fall-through rules returns
      exactly what the tree answers: control never leaves a block without returning. */
  lemma EmittedCodeIsLookup(t: Tree, w: Word)
    ensures ParseBlock(Emit(t)) == Some((Then(StmtOf(t), End), []))
    ensures ExecBlock(Then(StmtOf(t), End), w) == Returned(NameOf(Lookup(t, w)))
  {
    ParseEmitted(t, []);
    assert Emit(t) + [] == Emit(t);
    ExecIsLookup(t, w);
  }

  /** What C++ demands of every switch: distinct case labels and a single `default`. */
  ghost predicate ValidStmt(s: Stmt)
    decreases s
  {
    s.Switch? ==> Distinct(Tags(s.arms)) && ValidArms(s.arms)
  }

  ghost predicate ValidArms(arms: Arms)
    decreases arms
  {
    arms.Arm? ==> ValidBlock(arms.body) && ValidArms(arms.rest)
  }

  ghost predicate ValidBlock(b: Block)
    decreases b
  {
    b.Then? ==> ValidStmt(b.first) && ValidBlock(b.rest)
  }

  function Tags(arms: Arms): seq<Option<Word>> {
    match arms
    case NoArms => []
    case Arm(tag, _, rest) => [tag] + Tags(rest)
  }

  /** Two equal labels, or two `default`s, are refused. */
  lemma DuplicatesInvalid(m: Word, tag: Option<Word>, b1: Block, b2: Block, rest: Arms)
    ensures !ValidStmt(Switch(m, Arm(tag, b1, Arm(tag, b2, rest))))
  {
    var inner := Arm(tag, b2, rest);
    var tags := Tags(Arm(tag, b1, inner));
    assert tags == [tag] + Tags(inner) && Tags(inner) == [tag] + Tags(rest);
    assert tags[0] == tags[1];
  }

  /** The code emitted for a built table is accepted as C++. */
  lemma {:induction false} EmittedCodeIsValid(ps: seq<Pattern>, limit: nat, t: Tree)
    requires Build(ps, limit) == Some(t)
    ensures ValidStmt(StmtOf(t))
    decreases limit, 1, 0
  {
    hide And, Common, Keys, BuildCases;
    KeysDistinct(ps, Common(ps));
    EmittedArmsValid(ps, Common(ps), Keys(ps, Common(ps)), limit, t.cases);
  }

  lemma {:induction false} EmittedArmsValid(ps: seq<Pattern>, m: Word, keys: seq<Word>, limit: nat, cs: Cases)
    requires limit > 0 && Distinct(keys) && BuildCases(ps, m, keys, limit) == Some(cs)
    ensures ValidArms(ArmsOf(cs)) && Distinct(Tags(ArmsOf(cs)))
    ensures forall tag | tag in Tags(ArmsOf(cs)) :: tag == None || (tag.Some? && tag.value in keys)
    decreases limit, 0, |keys|
  {
    hide And, Bucket, Build;
    if keys != [] {
      var b := Bucket(ps, m, keys[0]);
      if |b| > 1 {
        EmittedCodeIsValid(b, limit - 1, cs.node);
      }
      EmittedArmsValid(ps, m, keys[1..], limit, cs.rest);
      var tags := Tags(ArmsOf(cs.rest));
      assert Some(keys[0]) !in tags;
      assert Tags(ArmsOf(cs)) == [Some(keys[0])] + tags;
      assert ValidBlock(Then(StmtOf(cs.node), End));
    } else {
      assert ValidBlock(Then(Return(None), End));
      assert ValidBlock(Then(Log, Then(Return(None), End)));
      assert Tags(ArmsOf(cs)) == [None];
    }
  }

  /** The generator as a whole: for a table that builds, the emitted text, read as C++ and run, returns
      the handler of every row the word matches, and returns false only if the word matches no row. */
  lemma GeneratedCodeImplementsTable(ps: seq<Pattern>, limit: nat, t: Tree, w: Word)
    requires Build(ps, limit) == Some(t)
    ensures ParseBlock(Emit(t)).Some? && ValidStmt(StmtOf(t))
    ensures var flow := ExecBlock(ParseBlock(Emit(t)).value.0, w);
            && flow.Returned?
            && (forall p | p in ps && Matches(p, w) :: flow.name == Some(p.name))
            && (flow.name == None ==> forall p | p in ps :: !Matches(p, w))
  {
    hide And, Build, Lookup, Emit, ParseBlock, ExecBlock, StmtOf, Matches, ValidStmt;
    EmittedCodeIsLookup(t, w);
    EmittedCodeIsValid(ps, limit, t);
    MeaningPreserved(ps, limit, t, w);
  }
}
