/** generate_tree.py as it runs: loops that update a mask and a dictionary, and a recursive writer. */
module Builder {
  import opened Patterns
  import opened DecisionTree
  import opened CodeGen
  import PatternText

  /** A dictionary key. */
  datatype Key = Key(val: Word)

  /** The dictionary `groups` of the grouping loop holds, key by key, the buckets of the rows read so
      far; `order` holds its keys as a Python dict keeps them, in order of insertion. */
  ghost predicate GroupsOf(groups: map<Key, seq<Pattern>>, order: seq<Word>, ps: seq<Pattern>, m: Word) {
    && order == Keys(ps, m)
    && (forall v :: Key(v) in groups <==> v in order)
    && (forall v :: v in order ==> groups[Key(v)] == Bucket(ps, m, v))
  }

  /** One row more: it joins its group, or opens a new one at the end. */
  lemma GroupStep(groups: map<Key, seq<Pattern>>, order: seq<Word>, ps: seq<Pattern>, m: Word)
    requires ps != [] && GroupsOf(groups, order, ps[..|ps| - 1], m)
    ensures var p := ps[|ps| - 1];
            var v := And(p.fb, m);
            if Key(v) in groups then GroupsOf(groups[Key(v) := groups[Key(v)] + [p]], order, ps, m)
            else GroupsOf(groups[Key(v) := [p]], order + [v], ps, m)
  {
    hide And, Bucket, Keys;
    var before, p := ps[..|ps| - 1], ps[|ps| - 1];
    var v := And(p.fb, m);
    KeysMember(before, m, v);
    NextKeys(ps, m);
    BucketSnoc(ps, m, v);
    assert Bucket(ps, m, v) == Bucket(before, m, v) + [p];
    forall u | u in order && u != v ensures groups[Key(u)] == Bucket(ps, m, u) {
      BucketSnoc(ps, m, u);
      assert Bucket(ps, m, u) == Bucket(before, m, u);
    }
  }

  lemma NextKeys(ps: seq<Pattern>, m: Word)
    requires ps != []
    ensures var before, v := Keys(ps[..|ps| - 1], m), And(ps[|ps| - 1].fb, m);
            Keys(ps, m) == if v in before then before else before + [v]
  {
    hide And;
  }

  method GroupByValue(ps: seq<Pattern>, m: Word) returns (groups: map<Key, seq<Pattern>>, order: seq<Word>)
    ensures GroupsOf(groups, order, ps, m)
  {
    hide And;
    groups, order := map[], [];
    for k := 0 to |ps|
      invariant GroupsOf(groups, order, ps[..k], m)
    {
      var v := And(ps[k].fb, m);
      assert ps[..k + 1][..k] == ps[..k];
      GroupStep(groups, order, ps[..k + 1], m);
      if Key(v) in groups {
        groups := groups[Key(v) := groups[Key(v)] + [ps[k]]];
      } else {
        groups := groups[Key(v) := [ps[k]]];
        order := order + [v];
      }
    }
    assert ps[..|ps|] == ps;
  }

  method CommonMask(ps: seq<Pattern>) returns (m: Word)
    ensures m == Common(ps)
  {
    hide And;
    m := 0xFFFFFFFF;
    for k := 0 to |ps|
      invariant m == Common(ps[..k])
    {
      assert ps[..k + 1][..k] == ps[..k];
      m := And(m, ps[k].mask);
    }
    assert ps[..|ps|] == ps;
  }

  /** Puts the finished entries in front of the entries still to be built. */
  function Append(done: seq<(Word, Tree)>, rest: Cases): Cases {
    if done == [] then rest else Append(done[..|done| - 1], Case(done[|done| - 1].0, done[|done| - 1].1, rest))
  }

  /** The constructor of PatternGroup. `limit` is the recursion limit of the interpreter. */
  method PatternGroup(ps: seq<Pattern>, limit: nat) returns (r: Option<Tree>)
    ensures r == Build(ps, limit)
    decreases limit
  {
    hide And, Common, Keys, Bucket;
    if limit == 0 {
      return None;
    }
    var m := CommonMask(ps);
    var groups, order := GroupByValue(ps, m);
    var entries: seq<(Word, Tree)> := [];
    for k := 0 to |order|
      invariant |entries| == k
      invariant BuildCases(ps, m, order, limit)
                == match BuildCases(ps, m, order[k..], limit)
                   case None => None
                   case Some(rest) => Some(Append(entries, rest))
    {
      var b := groups[Key(order[k])];
      var node;
      if |b| > 1 {
        node := PatternGroup(b, limit - 1);
      } else {
        KeysMember(ps, m, order[k]);
        node := Some(Leaf(b[0]));
      }
      assert node == BuildNode(Bucket(ps, m, order[k]), limit);
      assert order[k..][1..] == order[k + 1..];
      if node.None? {
        return None;
      }
      assert (entries + [(order[k], node.value)])[..k] == entries;
      entries := entries + [(order[k], node.value)];
    }
    r := Some(Group(m, Append(entries, Default)));
  }

  /** The output file. */
  class OutFile {
    var lines: seq<Line>

    constructor ()
      ensures lines == []
    {
      lines := [];
    }

    method Write(line: Line)
      modifies this
      ensures lines == old(lines) + [line]
    {
      lines := lines + [line];
    }
  }

  lemma NoMoreCases()
    ensures EmitCases(Default) == []
  {}

  /** The text of an entry, then the text of the remaining entries. */
  lemma EmittedEntry(before: seq<Line>, cs: Cases)
    requires cs.Case?
    ensures before + EmitCases(cs) == before + ([CaseOpen(cs.val)] + Emit(cs.node) + [Close]) + EmitCases(cs.rest)
  {
    hide Emit;
  }

  /** generate_decision_tree: writes a group, recursing into nested groups. */
  method GenerateDecisionTree(out: OutFile, mask: Word, cases: Cases)
    modifies out
    ensures out.lines == old(out.lines) + Emit(Group(mask, cases))
    decreases cases
  {
    hide And, EmitCases, DEFAULT_LINES;
    ghost var start := out.lines + [SwitchOpen(mask)];
    out.Write(SwitchOpen(mask));
    var rest := cases;
    while rest.Case?
      invariant start + EmitCases(cases) == out.lines + EmitCases(rest)
      invariant rest == cases || rest < cases
      decreases rest
    {
      ghost var before := out.lines;
      WriteEntry(out, rest.val, rest.node);
      EmittedEntry(before, rest);
      rest := rest.rest;
    }
    NoMoreCases();
    assert out.lines == start + EmitCases(cases);
    WriteDefault(out);
  }

  /** One dictionary entry: its case, its return statement or nested group, and the closing brace. */
  method WriteEntry(out: OutFile, val: Word, node: Tree)
    modifies out
    ensures out.lines == old(out.lines) + ([CaseOpen(val)] + Emit(node) + [Close])
    decreases node, 1
  {
    out.Write(CaseOpen(val));
    match node {
      case Leaf(p) =>
        out.Write(ReturnProcess(p.name));
      case Group(m, inner) =>
        GenerateDecisionTree(out, m, inner);
    }
    out.Write(Close);
  }

  /** The default branch, its brace and the brace of the switch. */
  method WriteDefault(out: OutFile)
    modifies out
    ensures out.lines == old(out.lines) + DEFAULT_LINES + [Close]
  {
    out.Write(DefaultOpen);
    out.Write(LogError);
    out.Write(ReturnFalse);
    out.Write(Close);
    out.Write(Close);
  }

  /** The patterns of a file, when every row is correct. */
  ghost predicate PatternsOf(ps: seq<Pattern>, lines: seq<string>) {
    var rows := PatternText.Rows(lines);
    && |ps| == |rows|
    && forall i :: 0 <= i < |rows| ==> PatternText.ValidRow(rows[i]) && ps[i] == PatternText.ParseRow(rows[i])
  }

  /** The whole script: read the rows, build the groups, write the switches. It fails exactly when a row
      is not correct or the recursion does not end within the limit; otherwise the file holds the text of
      the tree built from the rows. */
  method Generate(lines: seq<string>, limit: nat) returns (out: OutFile?, ghost ps: seq<Pattern>, ghost t: Tree)
    ensures out == null
            <==> (exists i :: 0 <= i < |PatternText.Rows(lines)| && !PatternText.ValidRow(PatternText.Rows(lines)[i]))
                 || (PatternsOf(ps, lines) && Build(ps, limit) == None)
    ensures out != null ==> fresh(out) && PatternsOf(ps, lines) && Build(ps, limit) == Some(t) && out.lines == Emit(t)
  {
    hide Emit, Build;
    var patterns := PatternText.ParsePatterns(lines);
    out, ps, t := null, [], Leaf(Pattern(0, 0, ""));
    if patterns.None? {
      return;
    }
    ps := patterns.value;
    var tree := PatternGroup(patterns.value, limit);
    if tree.None? {
      return;
    }
    t := tree.value;
    BuiltIsGroup(ps, limit);
    out := new OutFile();
    match tree.value {
      case Group(mask, cases) => GenerateDecisionTree(out, mask, cases);
    }
    assert [] + Emit(t) == Emit(t);
  }

  lemma BuiltIsGroup(ps: seq<Pattern>, limit: nat)
    requires Build(ps, limit).Some?
    ensures Build(ps, limit).value.Group?
  {}
}
