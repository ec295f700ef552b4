/** The text of handle_instruction in ops/src/base_op.cpp, fragment by fragment. */
module BaseOp {
  import opened Patterns
  import opened DecisionTree
  import opened CodeGen
  import opened Dispatcher
  import opened TreeShape

  // ---------- the switches, innermost first ----------

  // ops/src/base_op.cpp:12-29
  const ADD_SUB_LINES: seq<Line> :=
    [SwitchOpen(0x7F800000),
     CaseOpen(0x11000000), ReturnProcess("AddImm"), Close,
     CaseOpen(0x31000000), ReturnProcess("AddsImm"), Close,
     CaseOpen(0x51000000), ReturnProcess("SubImm"), Close,
     CaseOpen(0x71000000), ReturnProcess("SubsImm"), Close,
     DefaultOpen, LogError, ReturnFalse, Close, Close]

  // ops/src/base_op.cpp:10-41
  const IMMEDIATES_LINES: seq<Line> :=
    [SwitchOpen(0x1F000000),
     CaseOpen(0x11000000)]
    + ADD_SUB_LINES
    + [Close,
     CaseOpen(0x12000000), ReturnProcess("Movz"), Close,
     CaseOpen(0x10000000), ReturnProcess("Adrp"), Close,
     DefaultOpen, LogError, ReturnFalse, Close, Close]

  // ops/src/base_op.cpp:46-57
  const PLAIN_BRANCHES_LINES: seq<Line> :=
    [SwitchOpen(0xFC000000),
     CaseOpen(0x14000000), ReturnProcess("B"), Close,
     CaseOpen(0x94000000), ReturnProcess("Bl"), Close,
     DefaultOpen, LogError, ReturnFalse, Close, Close]

  // ops/src/base_op.cpp:44-69
  const BRANCHES_LINES: seq<Line> :=
    [SwitchOpen(0x7C000000),
     CaseOpen(0x14000000)]
    + PLAIN_BRANCHES_LINES
    + [Close,
     CaseOpen(0x34000000), ReturnProcess("Tbnz"), Close,
     CaseOpen(0x54000000), ReturnProcess("Ret"), Close,
     DefaultOpen, LogError, ReturnFalse, Close, Close]

  // ops/src/base_op.cpp:77-91
  const STORES_IMM9_LINES: seq<Line> :=
    [SwitchOpen(0xBFE00C00),
     CaseOpen(0xB8000400), ReturnProcess("StrImm"), Close,
     CaseOpen(0xB8000C00), ReturnProcess("StrImm"), Close,
     CaseOpen(0xB8000000), ReturnProcess("Stur"), Close,
     DefaultOpen, LogError, ReturnFalse, Close, Close]

  // ops/src/base_op.cpp:97-111
  const LOADS_IMM9_LINES: seq<Line> :=
    [SwitchOpen(0xBFE00C00),
     CaseOpen(0xB8400400), ReturnProcess("LdrImm"), Close,
     CaseOpen(0xB8400C00), ReturnProcess("LdrImm"), Close,
     CaseOpen(0xB8400000), ReturnProcess("Stur"), Close,
     DefaultOpen, LogError, ReturnFalse, Close, Close]

  // ops/src/base_op.cpp:72-120
  const LOADS_STORES_LINES: seq<Line> :=
    [SwitchOpen(0x3FC00000),
     CaseOpen(0x1A800000), ReturnProcess("Csinc"), Close,
     CaseOpen(0x38000000)]
    + STORES_IMM9_LINES
    + [Close,
     CaseOpen(0x39000000), ReturnProcess("StrImm"), Close,
     CaseOpen(0x38400000)]
    + LOADS_IMM9_LINES
    + [Close,
     CaseOpen(0x39400000), ReturnProcess("LdrImm"), Close,
     DefaultOpen, LogError, ReturnFalse, Close, Close]

  // ops/src/base_op.cpp:128-139
  const PAIRS_POST_LINES: seq<Line> :=
    [SwitchOpen(0x7FC00000),
     CaseOpen(0x28800000), ReturnProcess("Stp"), Close,
     CaseOpen(0x28C00000), ReturnProcess("Ldp"), Close,
     DefaultOpen, LogError, ReturnFalse, Close, Close]

  // ops/src/base_op.cpp:142-159
  const PAIRS_OFFSET_LINES: seq<Line> :=
    [SwitchOpen(0x7FC00000),
     CaseOpen(0x29800000), ReturnProcess("Stp"), Close,
     CaseOpen(0x29000000), ReturnProcess("Stp"), Close,
     CaseOpen(0x29C00000), ReturnProcess("Ldp"), Close,
     CaseOpen(0x29400000), ReturnProcess("Ldp"), Close,
     DefaultOpen, LogError, ReturnFalse, Close, Close]

  // ops/src/base_op.cpp:123-165
  const PAIRS_LINES: seq<Line> :=
    [SwitchOpen(0x7F000000),
     CaseOpen(0x2A000000), ReturnProcess("OrrSh"), Close,
     CaseOpen(0x28000000)]
    + PAIRS_POST_LINES
    + [Close,
     CaseOpen(0x29000000)]
    + PAIRS_OFFSET_LINES
    + [Close,
     DefaultOpen, LogError, ReturnFalse, Close, Close]

  // ops/src/base_op.cpp:8-171
  const BASE_OP: seq<Line> :=
    [SwitchOpen(0x1C000000),
     CaseOpen(0x10000000)]
    + IMMEDIATES_LINES
    + [Close,
     CaseOpen(0x14000000)]
    + BRANCHES_LINES
    + [Close,
     CaseOpen(0x18000000)]
    + LOADS_STORES_LINES
    + [Close,
     CaseOpen(0x08000000)]
    + PAIRS_LINES
    + [Close,
     DefaultOpen, LogError, ReturnFalse, Close, Close]

  // ---------- the generator writes this text ----------

  /** One case in front of the others. */
  function CaseText(val: Word, body: seq<Line>, more: seq<Line>): seq<Line> {
    [CaseOpen(val)] + body + [Close] + more
  }

  lemma CaseEmitted(val: Word, node: Tree, body: seq<Line>, rest: Cases, more: seq<Line>)
    requires Emit(node) == body && EmitCases(rest) == more
    ensures EmitCases(Case(val, node, rest)) == CaseText(val, body, more)
  {}

  lemma GroupEmitted(m: Word, cases: Cases, more: seq<Line>)
    requires EmitCases(cases) == more
    ensures Emit(Group(m, cases)) == [SwitchOpen(m)] + more + DEFAULT_LINES + [Close]
  {}

  lemma NothingEmitted()
    ensures EmitCases(Default) == []
  {}

  lemma LeafEmitted(p: Pattern)
    ensures Emit(Leaf(p)) == [ReturnProcess(p.name)]
  {}

  lemma AddSubEmitted()
    ensures Emit(ADD_SUB_TREE) == ADD_SUB_LINES
  {
  }

  lemma ImmediatesEmitted()
    ensures Emit(IMMEDIATES_TREE) == IMMEDIATES_LINES
  {
    AddSubEmitted();
    hide Emit, EmitCases, ADD_SUB_TREE, ADD_SUB_LINES;
    LeafEmitted(R_MOVZ);
    LeafEmitted(R_ADRP);
    NothingEmitted();
    var c2, m2 := Case(0x10000000, Leaf(R_ADRP), Default), CaseText(0x10000000, [ReturnProcess("Adrp")], []);
    CaseEmitted(0x10000000, Leaf(R_ADRP), [ReturnProcess("Adrp")], Default, []);
    var c1, m1 := Case(0x12000000, Leaf(R_MOVZ), c2), CaseText(0x12000000, [ReturnProcess("Movz")], m2);
    CaseEmitted(0x12000000, Leaf(R_MOVZ), [ReturnProcess("Movz")], c2, m2);
    var c0, m0 := Case(0x11000000, ADD_SUB_TREE, c1), CaseText(0x11000000, ADD_SUB_LINES, m1);
    CaseEmitted(0x11000000, ADD_SUB_TREE, ADD_SUB_LINES, c1, m1);
    GroupEmitted(0x1F000000, c0, m0);
    assert IMMEDIATES_TREE == Group(0x1F000000, c0);
  }

  lemma PlainBranchesEmitted()
    ensures Emit(PLAIN_BRANCHES_TREE) == PLAIN_BRANCHES_LINES
  {
  }

  lemma BranchesEmitted()
    ensures Emit(BRANCHES_TREE) == BRANCHES_LINES
  {
    PlainBranchesEmitted();
    hide Emit, EmitCases, PLAIN_BRANCHES_TREE, PLAIN_BRANCHES_LINES;
    LeafEmitted(R_TBNZ);
    LeafEmitted(R_RET);
    NothingEmitted();
    var c2, m2 := Case(0x54000000, Leaf(R_RET), Default), CaseText(0x54000000, [ReturnProcess("Ret")], []);
    CaseEmitted(0x54000000, Leaf(R_RET), [ReturnProcess("Ret")], Default, []);
    var c1, m1 := Case(0x34000000, Leaf(R_TBNZ), c2), CaseText(0x34000000, [ReturnProcess("Tbnz")], m2);
    CaseEmitted(0x34000000, Leaf(R_TBNZ), [ReturnProcess("Tbnz")], c2, m2);
    var c0, m0 := Case(0x14000000, PLAIN_BRANCHES_TREE, c1), CaseText(0x14000000, PLAIN_BRANCHES_LINES, m1);
    CaseEmitted(0x14000000, PLAIN_BRANCHES_TREE, PLAIN_BRANCHES_LINES, c1, m1);
    GroupEmitted(0x7C000000, c0, m0);
    assert BRANCHES_TREE == Group(0x7C000000, c0);
  }

  lemma StoresImm9Emitted()
    ensures Emit(STORES_IMM9_TREE) == STORES_IMM9_LINES
  {
  }

  lemma LoadsImm9Emitted()
    ensures Emit(LOADS_IMM9_TREE) == LOADS_IMM9_LINES
  {
  }

  lemma LoadsStoresEmitted()
    ensures Emit(LOADS_STORES_TREE) == LOADS_STORES_LINES
  {
    StoresImm9Emitted();
    LoadsImm9Emitted();
    hide Emit, EmitCases, STORES_IMM9_TREE, STORES_IMM9_LINES, LOADS_IMM9_TREE, LOADS_IMM9_LINES;
    LeafEmitted(R_CSINC);
    LeafEmitted(R_STR_IMM_OFFSET);
    LeafEmitted(R_LDR_IMM_OFFSET);
    NothingEmitted();
    var c4 := Case(0x39400000, Leaf(R_LDR_IMM_OFFSET), Default);
    var m4 := CaseText(0x39400000, [ReturnProcess("LdrImm")], []);
    CaseEmitted(0x39400000, Leaf(R_LDR_IMM_OFFSET), [ReturnProcess("LdrImm")], Default, []);
    var c3, m3 := Case(0x38400000, LOADS_IMM9_TREE, c4), CaseText(0x38400000, LOADS_IMM9_LINES, m4);
    CaseEmitted(0x38400000, LOADS_IMM9_TREE, LOADS_IMM9_LINES, c4, m4);
    var c2, m2 := Case(0x39000000, Leaf(R_STR_IMM_OFFSET), c3), CaseText(0x39000000, [ReturnProcess("StrImm")], m3);
    CaseEmitted(0x39000000, Leaf(R_STR_IMM_OFFSET), [ReturnProcess("StrImm")], c3, m3);
    var c1, m1 := Case(0x38000000, STORES_IMM9_TREE, c2), CaseText(0x38000000, STORES_IMM9_LINES, m2);
    CaseEmitted(0x38000000, STORES_IMM9_TREE, STORES_IMM9_LINES, c2, m2);
    var c0, m0 := Case(0x1A800000, Leaf(R_CSINC), c1), CaseText(0x1A800000, [ReturnProcess("Csinc")], m1);
    CaseEmitted(0x1A800000, Leaf(R_CSINC), [ReturnProcess("Csinc")], c1, m1);
    GroupEmitted(0x3FC00000, c0, m0);
    assert LOADS_STORES_TREE == Group(0x3FC00000, c0);
  }

  lemma PairsPostEmitted()
    ensures Emit(PAIRS_POST_TREE) == PAIRS_POST_LINES
  {
  }

  lemma PairsOffsetEmitted()
    ensures Emit(PAIRS_OFFSET_TREE) == PAIRS_OFFSET_LINES
  {
  }

  lemma PairsEmitted()
    ensures Emit(PAIRS_TREE) == PAIRS_LINES
  {
    PairsPostEmitted();
    PairsOffsetEmitted();
    hide Emit, EmitCases, PAIRS_POST_TREE, PAIRS_POST_LINES, PAIRS_OFFSET_TREE, PAIRS_OFFSET_LINES;
    LeafEmitted(R_ORR_SH);
    NothingEmitted();
    var c2, m2 := Case(0x29000000, PAIRS_OFFSET_TREE, Default), CaseText(0x29000000, PAIRS_OFFSET_LINES, []);
    CaseEmitted(0x29000000, PAIRS_OFFSET_TREE, PAIRS_OFFSET_LINES, Default, []);
    var c1, m1 := Case(0x28000000, PAIRS_POST_TREE, c2), CaseText(0x28000000, PAIRS_POST_LINES, m2);
    CaseEmitted(0x28000000, PAIRS_POST_TREE, PAIRS_POST_LINES, c2, m2);
    var c0, m0 := Case(0x2A000000, Leaf(R_ORR_SH), c1), CaseText(0x2A000000, [ReturnProcess("OrrSh")], m1);
    CaseEmitted(0x2A000000, Leaf(R_ORR_SH), [ReturnProcess("OrrSh")], c1, m1);
    GroupEmitted(0x7F000000, c0, m0);
    assert PAIRS_TREE == Group(0x7F000000, c0);
  }

  lemma RootEmitted()
    ensures Emit(ROOT_TREE) == BASE_OP
  {
    ImmediatesEmitted();
    BranchesEmitted();
    LoadsStoresEmitted();
    PairsEmitted();
    hide Emit, EmitCases, IMMEDIATES_TREE, IMMEDIATES_LINES, BRANCHES_TREE;
    hide BRANCHES_LINES, LOADS_STORES_TREE, LOADS_STORES_LINES, PAIRS_TREE, PAIRS_LINES;
    NothingEmitted();
    var c3, m3 := Case(0x08000000, PAIRS_TREE, Default), CaseText(0x08000000, PAIRS_LINES, []);
    CaseEmitted(0x08000000, PAIRS_TREE, PAIRS_LINES, Default, []);
    var c2, m2 := Case(0x18000000, LOADS_STORES_TREE, c3), CaseText(0x18000000, LOADS_STORES_LINES, m3);
    CaseEmitted(0x18000000, LOADS_STORES_TREE, LOADS_STORES_LINES, c3, m3);
    var c1, m1 := Case(0x14000000, BRANCHES_TREE, c2), CaseText(0x14000000, BRANCHES_LINES, m2);
    CaseEmitted(0x14000000, BRANCHES_TREE, BRANCHES_LINES, c2, m2);
    var c0, m0 := Case(0x10000000, IMMEDIATES_TREE, c1), CaseText(0x10000000, IMMEDIATES_LINES, m1);
    CaseEmitted(0x10000000, IMMEDIATES_TREE, IMMEDIATES_LINES, c1, m1);
    GroupEmitted(0x1C000000, c0, m0);
    assert ROOT_TREE == Group(0x1C000000, c0);
  }

  /** The checked-in text, read as C++ and run under fall-through rules, returns on every word what
      `Dispatcher.HandlerOf` returns. */
  lemma TextIsHandlerOf(w: Word)
    ensures ParseBlock(BASE_OP).Some?
    ensures ExecBlock(ParseBlock(BASE_OP).value.0, w) == Returned(HandlerName(HandlerOf(w)))
  {
    hide ROOT_TREE, BASE_OP, Emit, ParseBlock, ExecBlock, HandlerOf, HandlerName;
    RootEmitted();
    EmittedCodeIsLookup(ROOT_TREE, w);
    DispatcherIsGenerated(w);
  }

  lemma InnerDepths()
    ensures Depth(ADD_SUB_TREE) == Depth(PLAIN_BRANCHES_TREE) == 1
    ensures Depth(STORES_IMM9_TREE) == Depth(LOADS_IMM9_TREE) == 1
    ensures Depth(PAIRS_POST_TREE) == Depth(PAIRS_OFFSET_TREE) == 1
  {}

  lemma MiddleDepths()
    ensures Depth(IMMEDIATES_TREE) == Depth(BRANCHES_TREE) == 2
    ensures Depth(PAIRS_TREE) == 2
  {
    InnerDepths();
  }

  lemma LoadStoreDepth()
    ensures Depth(LOADS_STORES_TREE) == 2
  {
    InnerDepths();
  }

  /** A switch with four groups. */
  lemma FourGroups(m: Word, v1: Word, n1: Tree, v2: Word, n2: Tree, v3: Word, n3: Tree, v4: Word, n4: Tree, w: Word)
    ensures var t := Group(m, Case(v1, n1, Case(v2, n2, Case(v3, n3, Case(v4, n4, Default)))));
            var v := And(w, m);
            && (Depth(n1) == Depth(n2) == Depth(n3) == Depth(n4) ==> Depth(t) == 1 + Depth(n1))
            && Tests(t, w) == 1 + if v1 == v then Tests(n1, w) else if v2 == v then Tests(n2, w)
                                  else if v3 == v then Tests(n3, w) else if v4 == v then Tests(n4, w) else 0
  {
    hide And;
    var c4 := Case(v4, n4, Default);
    var c3 := Case(v3, n3, c4);
    var c2 := Case(v2, n2, c3);
    var v := And(w, m);
    assert DepthCases(c4) == Depth(n4) && TestsCases(c4, v, w) == if v4 == v then Tests(n4, w) else 0;
    assert TestsCases(c3, v, w) == if v3 == v then Tests(n3, w) else TestsCases(c4, v, w);
    assert TestsCases(c2, v, w) == if v2 == v then Tests(n2, w) else TestsCases(c3, v, w);
    assert Depth(n3) == Depth(n4) ==> DepthCases(c3) == Depth(n3);
    assert Depth(n2) == Depth(n3) == Depth(n4) ==> DepthCases(c2) == Depth(n2);
  }

  lemma AddTests()
    ensures Tests(IMMEDIATES_TREE, 0x11000000) == 2
  {
    assert Tests(ADD_SUB_TREE, 0x11000000) == 1;
  }

  lemma RetTests()
    ensures Tests(BRANCHES_TREE, 0xD65F0000) == 1
  {}

  /** The shipped switches are nested three deep. A lookup evaluates three of them for an ADD, two for a
      RET, and one for a word that no group takes. */
  lemma ShippedTests()
    ensures Depth(ROOT_TREE) == 3
    ensures Tests(ROOT_TREE, 0x11000000) == 3 && Tests(ROOT_TREE, 0xD65F0000) == 2 && Tests(ROOT_TREE, 0x04000000) == 1
  {
    MiddleDepths();
    LoadStoreDepth();
    AddTests();
    RetTests();
    RootTests(0x11000000);
    RootTests(0xD65F0000);
    RootTests(0x04000000);
  }

  lemma RootTests(w: Word)
    ensures var v := And(w, 0x1C000000);
            Tests(ROOT_TREE, w)
            == 1 + if v == 0x10000000 then Tests(IMMEDIATES_TREE, w)
                   else if v == 0x14000000 then Tests(BRANCHES_TREE, w)
                   else if v == 0x18000000 then Tests(LOADS_STORES_TREE, w)
                   else if v == 0x08000000 then Tests(PAIRS_TREE, w) else 0
    ensures Depth(IMMEDIATES_TREE) == Depth(BRANCHES_TREE) == Depth(LOADS_STORES_TREE) == Depth(PAIRS_TREE) ==>
              Depth(ROOT_TREE) == 1 + Depth(IMMEDIATES_TREE)
  {
    hide And, Tests, Depth, IMMEDIATES_TREE, BRANCHES_TREE, LOADS_STORES_TREE, PAIRS_TREE;
    FourGroups(0x1C000000, 0x10000000, IMMEDIATES_TREE, 0x14000000, BRANCHES_TREE, 0x18000000, LOADS_STORES_TREE,
               0x08000000, PAIRS_TREE, w);
  }
}
