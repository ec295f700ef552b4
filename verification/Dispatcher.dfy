/** The shipped table (patterns.txt) and the shipped dispatcher (ops/src/base_op.cpp). */
module Dispatcher {
  import opened Patterns
  import opened DecisionTree
  import opened Routing
  import opened RowList

  // ---------- the rows of patterns.txt (their characters are in module PatternsFile) ----------

  const R_ADD_IMM := Pattern(0x7F800000, 0x11000000, "AddImm")
  const R_ADDS_IMM := Pattern(0x7F800000, 0x31000000, "AddsImm")
  const R_SUB_IMM := Pattern(0x7F800000, 0x51000000, "SubImm")
  const R_SUBS_IMM := Pattern(0x7F800000, 0x71000000, "SubsImm")
  const R_B := Pattern(0xFC000000, 0x14000000, "B")
  const R_BL := Pattern(0xFC000000, 0x94000000, "Bl")
  const R_CSINC := Pattern(0x7FE00C00, 0x1A800400, "Csinc")
  const R_TBNZ := Pattern(0x7F000000, 0x37000000, "Tbnz")
  const R_MOVZ := Pattern(0x7F800000, 0x52800000, "Movz")
  const R_ORR_SH := Pattern(0x7F200000, 0x2A000000, "OrrSh")
  const R_RET := Pattern(0xFFFFFC1F, 0xD65F0000, "Ret")
  const R_STP_POST := Pattern(0x7FC00000, 0x28800000, "Stp")
  const R_STP_PRE := Pattern(0x7FC00000, 0x29800000, "Stp")
  const R_STP_OFFSET := Pattern(0x7FC00000, 0x29000000, "Stp")
  const R_LDP_POST := Pattern(0x7FC00000, 0x28C00000, "Ldp")
  const R_LDP_PRE := Pattern(0x7FC00000, 0x29C00000, "Ldp")
  const R_LDP_OFFSET := Pattern(0x7FC00000, 0x29400000, "Ldp")
  const R_STR_IMM_POST := Pattern(0xBFE00C00, 0xB8000400, "StrImm")
  const R_STR_IMM_PRE := Pattern(0xBFE00C00, 0xB8000C00, "StrImm")
  const R_STR_IMM_OFFSET := Pattern(0xBFC00000, 0xB9000000, "StrImm")
  const R_LDR_IMM_POST := Pattern(0xBFE00C00, 0xB8400400, "LdrImm")
  const R_LDR_IMM_PRE := Pattern(0xBFE00C00, 0xB8400C00, "LdrImm")
  const R_LDR_IMM_OFFSET := Pattern(0xBFC00000, 0xB9400000, "LdrImm")
  const R_STUR := Pattern(0xBFE00C00, 0xB8000000, "Stur")
  const R_STUR_ROW38 := Pattern(0xBFE00C00, 0xB8400000, "Stur")
  const R_ADRP := Pattern(0x9F000000, 0x90000000, "Adrp")

  // ---------- the table and the groups the generator forms ----------

  const ROWS_1: Rows :=
    Row(R_ADD_IMM, Row(R_ADDS_IMM, Row(R_SUB_IMM, Row(R_SUBS_IMM, Row(R_B, Row(R_BL,
    Row(R_CSINC, Row(R_TBNZ, Row(R_MOVZ, NoRows)))))))))

  const ROWS_2: Rows :=
    Row(R_ORR_SH, Row(R_RET, Row(R_STP_POST, Row(R_STP_PRE, Row(R_STP_OFFSET,
    Row(R_LDP_POST, Row(R_LDP_PRE, Row(R_LDP_OFFSET, NoRows))))))))

  const ROWS_3: Rows :=
    Row(R_STR_IMM_POST, Row(R_STR_IMM_PRE, Row(R_STR_IMM_OFFSET, Row(R_LDR_IMM_POST, Row(R_LDR_IMM_PRE,
    Row(R_LDR_IMM_OFFSET, Row(R_STUR, Row(R_STUR_ROW38, Row(R_ADRP, NoRows)))))))))

  /** The whole table, in file order. */
  const TABLE: Rows := Cat(ROWS_1, Cat(ROWS_2, ROWS_3))

  const IMMEDIATES: Rows :=
    Row(R_ADD_IMM, Row(R_ADDS_IMM, Row(R_SUB_IMM, Row(R_SUBS_IMM, Row(R_MOVZ, Row(R_ADRP, NoRows))))))

  const ADD_SUB: Rows :=
    Row(R_ADD_IMM, Row(R_ADDS_IMM, Row(R_SUB_IMM, Row(R_SUBS_IMM, NoRows))))

  const BRANCHES: Rows :=
    Row(R_B, Row(R_BL, Row(R_TBNZ, Row(R_RET, NoRows))))

  const PLAIN_BRANCHES: Rows :=
    Row(R_B, Row(R_BL, NoRows))

  const LOADS_STORES: Rows :=
    Row(R_CSINC, Row(R_STR_IMM_POST, Row(R_STR_IMM_PRE, Row(R_STR_IMM_OFFSET, Row(R_LDR_IMM_POST, Row(R_LDR_IMM_PRE,
    Row(R_LDR_IMM_OFFSET, Row(R_STUR, Row(R_STUR_ROW38, NoRows)))))))))

  const STORES_IMM9: Rows :=
    Row(R_STR_IMM_POST, Row(R_STR_IMM_PRE, Row(R_STUR, NoRows)))

  const LOADS_IMM9: Rows :=
    Row(R_LDR_IMM_POST, Row(R_LDR_IMM_PRE, Row(R_STUR_ROW38, NoRows)))

  const PAIRS: Rows :=
    Row(R_ORR_SH, Row(R_STP_POST, Row(R_STP_PRE, Row(R_STP_OFFSET, Row(R_LDP_POST, Row(R_LDP_PRE, Row(R_LDP_OFFSET,
    NoRows)))))))

  const PAIRS_POST: Rows :=
    Row(R_STP_POST, Row(R_LDP_POST, NoRows))

  const PAIRS_OFFSET: Rows :=
    Row(R_STP_PRE, Row(R_STP_OFFSET, Row(R_LDP_PRE, Row(R_LDP_OFFSET, NoRows))))

  // ---------- the tree, innermost groups first ----------

  const PAIRS_OFFSET_TREE: Tree :=
    Group(0x7FC00000,
      Case(0x29800000, Leaf(R_STP_PRE),
      Case(0x29000000, Leaf(R_STP_OFFSET),
      Case(0x29C00000, Leaf(R_LDP_PRE),
      Case(0x29400000, Leaf(R_LDP_OFFSET),
      Default)))))

  const PAIRS_POST_TREE: Tree :=
    Group(0x7FC00000,
      Case(0x28800000, Leaf(R_STP_POST),
      Case(0x28C00000, Leaf(R_LDP_POST),
      Default)))

  const PAIRS_TREE: Tree :=
    Group(0x7F000000,
      Case(0x2A000000, Leaf(R_ORR_SH),
      Case(0x28000000, PAIRS_POST_TREE,
      Case(0x29000000, PAIRS_OFFSET_TREE,
      Default))))

  const LOADS_IMM9_TREE: Tree :=
    Group(0xBFE00C00,
      Case(0xB8400400, Leaf(R_LDR_IMM_POST),
      Case(0xB8400C00, Leaf(R_LDR_IMM_PRE),
      Case(0xB8400000, Leaf(R_STUR_ROW38),
      Default))))

  const STORES_IMM9_TREE: Tree :=
    Group(0xBFE00C00,
      Case(0xB8000400, Leaf(R_STR_IMM_POST),
      Case(0xB8000C00, Leaf(R_STR_IMM_PRE),
      Case(0xB8000000, Leaf(R_STUR),
      Default))))

  const LOADS_STORES_TREE: Tree :=
    Group(0x3FC00000,
      Case(0x1A800000, Leaf(R_CSINC),
      Case(0x38000000, STORES_IMM9_TREE,
      Case(0x39000000, Leaf(R_STR_IMM_OFFSET),
      Case(0x38400000, LOADS_IMM9_TREE,
      Case(0x39400000, Leaf(R_LDR_IMM_OFFSET),
      Default))))))

  const PLAIN_BRANCHES_TREE: Tree :=
    Group(0xFC000000,
      Case(0x14000000, Leaf(R_B),
      Case(0x94000000, Leaf(R_BL),
      Default)))

  const BRANCHES_TREE: Tree :=
    Group(0x7C000000,
      Case(0x14000000, PLAIN_BRANCHES_TREE,
      Case(0x34000000, Leaf(R_TBNZ),
      Case(0x54000000, Leaf(R_RET),
      Default))))

  const ADD_SUB_TREE: Tree :=
    Group(0x7F800000,
      Case(0x11000000, Leaf(R_ADD_IMM),
      Case(0x31000000, Leaf(R_ADDS_IMM),
      Case(0x51000000, Leaf(R_SUB_IMM),
      Case(0x71000000, Leaf(R_SUBS_IMM),
      Default)))))

  const IMMEDIATES_TREE: Tree :=
    Group(0x1F000000,
      Case(0x11000000, ADD_SUB_TREE,
      Case(0x12000000, Leaf(R_MOVZ),
      Case(0x10000000, Leaf(R_ADRP),
      Default))))

  const ROOT_TREE: Tree :=
    Group(0x1C000000,
      Case(0x10000000, IMMEDIATES_TREE,
      Case(0x14000000, BRANCHES_TREE,
      Case(0x18000000, LOADS_STORES_TREE,
      Case(0x08000000, PAIRS_TREE,
      Default)))))

  // ---------- the generator builds this tree from this table ----------

  lemma BuildPairsOffset()
    ensures BuildL(PAIRS_OFFSET, 1) == Some(PAIRS_OFFSET_TREE)
  {
    assert CommonL(PAIRS_OFFSET) == 0x7FC00000;
    assert KeysL(PAIRS_OFFSET, 0x7FC00000)
        == Val(0x29800000, Val(0x29000000, Val(0x29C00000, Val(0x29400000, NoValues))));
    assert BucketL(PAIRS_OFFSET, 0x7FC00000, 0x29800000) == Row(R_STP_PRE, NoRows);
    assert BucketL(PAIRS_OFFSET, 0x7FC00000, 0x29000000) == Row(R_STP_OFFSET, NoRows);
    assert BucketL(PAIRS_OFFSET, 0x7FC00000, 0x29C00000) == Row(R_LDP_PRE, NoRows);
    assert BucketL(PAIRS_OFFSET, 0x7FC00000, 0x29400000) == Row(R_LDP_OFFSET, NoRows);
  }

  lemma BuildPairsPost()
    ensures BuildL(PAIRS_POST, 1) == Some(PAIRS_POST_TREE)
  {
    assert CommonL(PAIRS_POST) == 0x7FC00000;
    assert KeysL(PAIRS_POST, 0x7FC00000) == Val(0x28800000, Val(0x28C00000, NoValues));
    assert BucketL(PAIRS_POST, 0x7FC00000, 0x28800000) == Row(R_STP_POST, NoRows);
    assert BucketL(PAIRS_POST, 0x7FC00000, 0x28C00000) == Row(R_LDP_POST, NoRows);
  }

  lemma BuildPairs()
    ensures BuildL(PAIRS, 2) == Some(PAIRS_TREE)
  {
    assert CommonL(PAIRS) == 0x7F000000;
    assert KeysL(PAIRS, 0x7F000000) == Val(0x2A000000, Val(0x28000000, Val(0x29000000, NoValues)));
    assert BucketL(PAIRS, 0x7F000000, 0x2A000000) == Row(R_ORR_SH, NoRows);
    assert BucketL(PAIRS, 0x7F000000, 0x28000000) == PAIRS_POST;
    BuildPairsPost();
    assert BucketL(PAIRS, 0x7F000000, 0x29000000) == PAIRS_OFFSET;
    BuildPairsOffset();
  }

  lemma BuildLoadsImm9()
    ensures BuildL(LOADS_IMM9, 1) == Some(LOADS_IMM9_TREE)
  {
    assert CommonL(LOADS_IMM9) == 0xBFE00C00;
    assert KeysL(LOADS_IMM9, 0xBFE00C00) == Val(0xB8400400, Val(0xB8400C00, Val(0xB8400000, NoValues)));
    assert BucketL(LOADS_IMM9, 0xBFE00C00, 0xB8400400) == Row(R_LDR_IMM_POST, NoRows);
    assert BucketL(LOADS_IMM9, 0xBFE00C00, 0xB8400C00) == Row(R_LDR_IMM_PRE, NoRows);
    assert BucketL(LOADS_IMM9, 0xBFE00C00, 0xB8400000) == Row(R_STUR_ROW38, NoRows);
  }

  lemma BuildStoresImm9()
    ensures BuildL(STORES_IMM9, 1) == Some(STORES_IMM9_TREE)
  {
    assert CommonL(STORES_IMM9) == 0xBFE00C00;
    assert KeysL(STORES_IMM9, 0xBFE00C00) == Val(0xB8000400, Val(0xB8000C00, Val(0xB8000000, NoValues)));
    assert BucketL(STORES_IMM9, 0xBFE00C00, 0xB8000400) == Row(R_STR_IMM_POST, NoRows);
    assert BucketL(STORES_IMM9, 0xBFE00C00, 0xB8000C00) == Row(R_STR_IMM_PRE, NoRows);
    assert BucketL(STORES_IMM9, 0xBFE00C00, 0xB8000000) == Row(R_STUR, NoRows);
  }

  lemma LoadsStoresCommon()
    ensures CommonL(LOADS_STORES) == 0x3FC00000
  {}

  lemma LoadsStoresKeys()
    ensures KeysL(LOADS_STORES, 0x3FC00000)
            == Val(0x1A800000, Val(0x38000000, Val(0x39000000, Val(0x38400000, Val(0x39400000, NoValues)))))
  {}

  lemma LoadsStoresBucket1()
    ensures BucketL(LOADS_STORES, 0x3FC00000, 0x1A800000) == Row(R_CSINC, NoRows)
  {}

  lemma LoadsStoresBucket2()
    ensures BucketL(LOADS_STORES, 0x3FC00000, 0x38000000) == STORES_IMM9
  {}

  lemma LoadsStoresBucket3()
    ensures BucketL(LOADS_STORES, 0x3FC00000, 0x39000000) == Row(R_STR_IMM_OFFSET, NoRows)
  {}

  lemma LoadsStoresBucket4()
    ensures BucketL(LOADS_STORES, 0x3FC00000, 0x38400000) == LOADS_IMM9
  {}

  lemma LoadsStoresBucket5()
    ensures BucketL(LOADS_STORES, 0x3FC00000, 0x39400000) == Row(R_LDR_IMM_OFFSET, NoRows)
  {}

  lemma BuildLoadsStores()
    ensures BuildL(LOADS_STORES, 2) == Some(LOADS_STORES_TREE)
  {
    hide CommonL, KeysL, BucketL;
    LoadsStoresCommon();
    LoadsStoresKeys();
    LoadsStoresBucket1();
    LoadsStoresBucket2();
    BuildStoresImm9();
    LoadsStoresBucket3();
    LoadsStoresBucket4();
    BuildLoadsImm9();
    LoadsStoresBucket5();
  }

  lemma BuildPlainBranches()
    ensures BuildL(PLAIN_BRANCHES, 1) == Some(PLAIN_BRANCHES_TREE)
  {
    assert CommonL(PLAIN_BRANCHES) == 0xFC000000;
    assert KeysL(PLAIN_BRANCHES, 0xFC000000) == Val(0x14000000, Val(0x94000000, NoValues));
    assert BucketL(PLAIN_BRANCHES, 0xFC000000, 0x14000000) == Row(R_B, NoRows);
    assert BucketL(PLAIN_BRANCHES, 0xFC000000, 0x94000000) == Row(R_BL, NoRows);
  }

  lemma BuildBranches()
    ensures BuildL(BRANCHES, 2) == Some(BRANCHES_TREE)
  {
    assert CommonL(BRANCHES) == 0x7C000000;
    assert KeysL(BRANCHES, 0x7C000000) == Val(0x14000000, Val(0x34000000, Val(0x54000000, NoValues)));
    assert BucketL(BRANCHES, 0x7C000000, 0x14000000) == PLAIN_BRANCHES;
    BuildPlainBranches();
    assert BucketL(BRANCHES, 0x7C000000, 0x34000000) == Row(R_TBNZ, NoRows);
    assert BucketL(BRANCHES, 0x7C000000, 0x54000000) == Row(R_RET, NoRows);
  }

  lemma BuildAddSub()
    ensures BuildL(ADD_SUB, 1) == Some(ADD_SUB_TREE)
  {
    assert CommonL(ADD_SUB) == 0x7F800000;
    assert KeysL(ADD_SUB, 0x7F800000) == Val(0x11000000, Val(0x31000000, Val(0x51000000, Val(0x71000000, NoValues))));
    assert BucketL(ADD_SUB, 0x7F800000, 0x11000000) == Row(R_ADD_IMM, NoRows);
    assert BucketL(ADD_SUB, 0x7F800000, 0x31000000) == Row(R_ADDS_IMM, NoRows);
    assert BucketL(ADD_SUB, 0x7F800000, 0x51000000) == Row(R_SUB_IMM, NoRows);
    assert BucketL(ADD_SUB, 0x7F800000, 0x71000000) == Row(R_SUBS_IMM, NoRows);
  }

  lemma BuildImmediates()
    ensures BuildL(IMMEDIATES, 2) == Some(IMMEDIATES_TREE)
  {
    assert CommonL(IMMEDIATES) == 0x1F000000;
    assert KeysL(IMMEDIATES, 0x1F000000) == Val(0x11000000, Val(0x12000000, Val(0x10000000, NoValues)));
    assert BucketL(IMMEDIATES, 0x1F000000, 0x11000000) == ADD_SUB;
    BuildAddSub();
    assert BucketL(IMMEDIATES, 0x1F000000, 0x12000000) == Row(R_MOVZ, NoRows);
    assert BucketL(IMMEDIATES, 0x1F000000, 0x10000000) == Row(R_ADRP, NoRows);
  }

  lemma TableCommon()
    ensures CommonL(TABLE) == 0x1C000000
  {
    CommonCat(ROWS_1, Cat(ROWS_2, ROWS_3));
    CommonCat(ROWS_2, ROWS_3);
    assert CommonL(ROWS_1) == 0x7C000000;
    assert CommonL(ROWS_2) == 0x7F000000;
    assert CommonL(ROWS_3) == 0x9F000000;
  }

  lemma TableKeys()
    ensures KeysL(TABLE, 0x1C000000) == Val(0x10000000, Val(0x14000000, Val(0x18000000, Val(0x08000000, NoValues))))
  {
    KeysCat(ROWS_2, ROWS_3, 0x1C000000);
    assert KeysL(ROWS_2, 0x1C000000) == Val(0x08000000, Val(0x14000000, NoValues));
    assert KeysL(ROWS_3, 0x1C000000) == Val(0x18000000, Val(0x10000000, NoValues));
    assert KeysL(Cat(ROWS_2, ROWS_3), 0x1C000000)
           == Val(0x08000000, Val(0x14000000, Val(0x18000000, Val(0x10000000, NoValues))));
    KeysCat(ROWS_1, Cat(ROWS_2, ROWS_3), 0x1C000000);
    assert KeysL(ROWS_1, 0x1C000000) == Val(0x10000000, Val(0x14000000, Val(0x18000000, NoValues)));
  }

  lemma TableBucket10()
    ensures BucketL(TABLE, 0x1C000000, 0x10000000) == IMMEDIATES
  {
    BucketCat(ROWS_1, Cat(ROWS_2, ROWS_3), 0x1C000000, 0x10000000);
    BucketCat(ROWS_2, ROWS_3, 0x1C000000, 0x10000000);
    assert BucketL(ROWS_1, 0x1C000000, 0x10000000)
           == Row(R_ADD_IMM, Row(R_ADDS_IMM, Row(R_SUB_IMM, Row(R_SUBS_IMM, Row(R_MOVZ, NoRows)))));
    assert BucketL(ROWS_2, 0x1C000000, 0x10000000)
           == NoRows;
    assert BucketL(ROWS_3, 0x1C000000, 0x10000000)
           == Row(R_ADRP, NoRows);
  }

  lemma TableBucket14()
    ensures BucketL(TABLE, 0x1C000000, 0x14000000) == BRANCHES
  {
    BucketCat(ROWS_1, Cat(ROWS_2, ROWS_3), 0x1C000000, 0x14000000);
    BucketCat(ROWS_2, ROWS_3, 0x1C000000, 0x14000000);
    assert BucketL(ROWS_1, 0x1C000000, 0x14000000)
           == Row(R_B, Row(R_BL, Row(R_TBNZ, NoRows)));
    assert BucketL(ROWS_2, 0x1C000000, 0x14000000)
           == Row(R_RET, NoRows);
    assert BucketL(ROWS_3, 0x1C000000, 0x14000000)
           == NoRows;
  }

  lemma TableBucket18()
    ensures BucketL(TABLE, 0x1C000000, 0x18000000) == LOADS_STORES
  {
    BucketCat(ROWS_1, Cat(ROWS_2, ROWS_3), 0x1C000000, 0x18000000);
    BucketCat(ROWS_2, ROWS_3, 0x1C000000, 0x18000000);
    assert BucketL(ROWS_1, 0x1C000000, 0x18000000)
           == Row(R_CSINC, NoRows);
    assert BucketL(ROWS_2, 0x1C000000, 0x18000000)
           == NoRows;
    assert BucketL(ROWS_3, 0x1C000000, 0x18000000)
           == Row(R_STR_IMM_POST, Row(R_STR_IMM_PRE, Row(R_STR_IMM_OFFSET, Row(R_LDR_IMM_POST, Row(R_LDR_IMM_PRE,
              Row(R_LDR_IMM_OFFSET, Row(R_STUR, Row(R_STUR_ROW38, NoRows))))))));
  }

  lemma TableBucket8()
    ensures BucketL(TABLE, 0x1C000000, 0x08000000) == PAIRS
  {
    BucketCat(ROWS_1, Cat(ROWS_2, ROWS_3), 0x1C000000, 0x08000000);
    BucketCat(ROWS_2, ROWS_3, 0x1C000000, 0x08000000);
    assert BucketL(ROWS_1, 0x1C000000, 0x08000000)
           == NoRows;
    assert BucketL(ROWS_2, 0x1C000000, 0x08000000)
           == Row(R_ORR_SH, Row(R_STP_POST, Row(R_STP_PRE, Row(R_STP_OFFSET,
              Row(R_LDP_POST, Row(R_LDP_PRE, Row(R_LDP_OFFSET, NoRows)))))));
    assert BucketL(ROWS_3, 0x1C000000, 0x08000000)
           == NoRows;
  }

  lemma BuildTable()
    ensures BuildL(TABLE, 3) == Some(ROOT_TREE)
  {
    hide And, CommonL, KeysL, BucketL, Cat;
    TableCommon();
    TableKeys();
    TableBucket8();
    BuildPairs();
    GroupCase(TABLE, 0x1C000000, 0x08000000, NoValues, 3, PAIRS, PAIRS_TREE, Default);
    TableBucket18();
    BuildLoadsStores();
    GroupCase(TABLE, 0x1C000000, 0x18000000, Val(0x08000000, NoValues), 3, LOADS_STORES, LOADS_STORES_TREE,
              Case(0x08000000, PAIRS_TREE, Default));
    TableBucket14();
    BuildBranches();
    GroupCase(TABLE, 0x1C000000, 0x14000000, Val(0x18000000, Val(0x08000000, NoValues)), 3, BRANCHES,
              BRANCHES_TREE, Case(0x18000000, LOADS_STORES_TREE, Case(0x08000000, PAIRS_TREE, Default)));
    TableBucket10();
    BuildImmediates();
    GroupCase(TABLE, 0x1C000000, 0x10000000, Val(0x14000000, Val(0x18000000, Val(0x08000000, NoValues))), 3,
              IMMEDIATES, IMMEDIATES_TREE,
              Case(0x14000000, BRANCHES_TREE,
              Case(0x18000000, LOADS_STORES_TREE, Case(0x08000000, PAIRS_TREE, Default))));
  }

  /** The generator, run on the rows of patterns.txt, terminates and yields the shipped tree. */
  lemma ShippedTableBuilds()
    ensures Build(ToSeq(TABLE), 3) == Some(ROOT_TREE)
    ensures Separable(ToSeq(TABLE))
  {
    hide And, TABLE, ROOT_TREE, Build, BuildL, Separable;
    BuildTable();
    ListBuild(TABLE, 3);
    BuiltIsSeparable(ToSeq(TABLE), 3);
  }

  // ---------- ops/src/base_op.cpp ----------

  /** The handlers. `Ldur` has a handler in the source but no row in the table. */
  datatype Op =
    | AddImm | AddsImm | SubImm | SubsImm
    | B | Bl | Ret | Tbnz
    | Csinc | Movz | Adrp | OrrSh
    | Stp | Ldp | StrImm | LdrImm | Stur | Ldur

  function OpName(op: Op): string {
    match op
    case AddImm => "AddImm"
    case AddsImm => "AddsImm"
    case SubImm => "SubImm"
    case SubsImm => "SubsImm"
    case B => "B"
    case Bl => "Bl"
    case Ret => "Ret"
    case Tbnz => "Tbnz"
    case Csinc => "Csinc"
    case Movz => "Movz"
    case Adrp => "Adrp"
    case OrrSh => "OrrSh"
    case Stp => "Stp"
    case Ldp => "Ldp"
    case StrImm => "StrImm"
    case LdrImm => "LdrImm"
    case Stur => "Stur"
    case Ldur => "Ldur"
  }

  /** The checked-in nested switches; `None` is the `default` branch, which returns false. */
  function HandlerOf(w: Word): Option<Op> {
    var root := w & 0x1C000000;
    if root == 0x10000000 then ImmediateHandler(w)
    else if root == 0x14000000 then BranchHandler(w)
    else if root == 0x18000000 then LoadStoreHandler(w)
    else if root == 0x08000000 then PairHandler(w)
    else None
  }

  function ImmediateHandler(w: Word): Option<Op> {
    var v := w & 0x1F000000;
    if v == 0x11000000 then
      var u := w & 0x7F800000;
      if u == 0x11000000 then Some(AddImm)
      else if u == 0x31000000 then Some(AddsImm)
      else if u == 0x51000000 then Some(SubImm)
      else if u == 0x71000000 then Some(SubsImm)
      else None
    else if v == 0x12000000 then Some(Movz)
    else if v == 0x10000000 then Some(Adrp)
    else None
  }

  function BranchHandler(w: Word): Option<Op> {
    var v := w & 0x7C000000;
    if v == 0x14000000 then
      var u := w & 0xFC000000;
      if u == 0x14000000 then Some(B)
      else if u == 0x94000000 then Some(Bl)
      else None
    else if v == 0x34000000 then Some(Tbnz)
    else if v == 0x54000000 then Some(Ret)
    else None
  }

  function LoadStoreHandler(w: Word): Option<Op> {
    var v := w & 0x3FC00000;
    var u := w & 0xBFE00C00;
    if v == 0x1A800000 then Some(Csinc)
    else if v == 0x38000000 then
      if u == 0xB8000400 then Some(StrImm)
      else if u == 0xB8000C00 then Some(StrImm)
      else if u == 0xB8000000 then Some(Stur)
      else None
    else if v == 0x39000000 then Some(StrImm)
    else if v == 0x38400000 then
      if u == 0xB8400400 then Some(LdrImm)
      else if u == 0xB8400C00 then Some(LdrImm)
      else if u == 0xB8400000 then Some(Stur)
      else None
    else if v == 0x39400000 then Some(LdrImm)
    else None
  }

  function PairHandler(w: Word): Option<Op> {
    var v := w & 0x7F000000;
    var u := w & 0x7FC00000;
    if v == 0x2A000000 then Some(OrrSh)
    else if v == 0x28000000 then
      if u == 0x28800000 then Some(Stp)
      else if u == 0x28C00000 then Some(Ldp)
      else None
    else if v == 0x29000000 then
      if u == 0x29800000 then Some(Stp)
      else if u == 0x29000000 then Some(Stp)
      else if u == 0x29C00000 then Some(Ldp)
      else if u == 0x29400000 then Some(Ldp)
      else None
    else None
  }

  function HandlerName(h: Option<Op>): Option<string> {
    match h
    case None => None
    case Some(op) => Some(OpName(op))
  }

  lemma LookupPairsOffset(w: Word)
    ensures Lookup(PAIRS_OFFSET_TREE, w) == var v := And(w, 0x7FC00000);
            if v == 0x29800000 then Some(R_STP_PRE)
            else if v == 0x29000000 then Some(R_STP_OFFSET)
            else if v == 0x29C00000 then Some(R_LDP_PRE)
            else if v == 0x29400000 then Some(R_LDP_OFFSET)
            else None
  {
    hide And;
    var v := And(w, 0x7FC00000);
    var c3 := Case(0x29400000, Leaf(R_LDP_OFFSET), Default);
    assert LookupCases(c3, v, w) == if v == 0x29400000 then Some(R_LDP_OFFSET) else None;
    var c2 := Case(0x29C00000, Leaf(R_LDP_PRE), c3);
    assert LookupCases(c2, v, w) == if v == 0x29C00000 then Some(R_LDP_PRE) else LookupCases(c3, v, w);
    var c1 := Case(0x29000000, Leaf(R_STP_OFFSET), c2);
    assert LookupCases(c1, v, w) == if v == 0x29000000 then Some(R_STP_OFFSET) else LookupCases(c2, v, w);
    var c0 := Case(0x29800000, Leaf(R_STP_PRE), c1);
    assert LookupCases(c0, v, w) == if v == 0x29800000 then Some(R_STP_PRE) else LookupCases(c1, v, w);
    assert PAIRS_OFFSET_TREE == Group(0x7FC00000, c0);
  }

  lemma LookupPairsPost(w: Word)
    ensures Lookup(PAIRS_POST_TREE, w) == var v := And(w, 0x7FC00000);
            if v == 0x28800000 then Some(R_STP_POST)
            else if v == 0x28C00000 then Some(R_LDP_POST)
            else None
  {
    hide And;
    var v := And(w, 0x7FC00000);
    var c1 := Case(0x28C00000, Leaf(R_LDP_POST), Default);
    assert LookupCases(c1, v, w) == if v == 0x28C00000 then Some(R_LDP_POST) else None;
    var c0 := Case(0x28800000, Leaf(R_STP_POST), c1);
    assert LookupCases(c0, v, w) == if v == 0x28800000 then Some(R_STP_POST) else LookupCases(c1, v, w);
    assert PAIRS_POST_TREE == Group(0x7FC00000, c0);
  }

  lemma LookupPairs(w: Word)
    ensures Lookup(PAIRS_TREE, w) == var v := And(w, 0x7F000000);
            if v == 0x2A000000 then Some(R_ORR_SH)
            else if v == 0x28000000 then Lookup(PAIRS_POST_TREE, w)
            else if v == 0x29000000 then Lookup(PAIRS_OFFSET_TREE, w)
            else None
  {
    hide And, PAIRS_POST_TREE, PAIRS_OFFSET_TREE;
    var v := And(w, 0x7F000000);
    var c2 := Case(0x29000000, PAIRS_OFFSET_TREE, Default);
    assert LookupCases(c2, v, w) == if v == 0x29000000 then Lookup(PAIRS_OFFSET_TREE, w) else None;
    var c1 := Case(0x28000000, PAIRS_POST_TREE, c2);
    assert LookupCases(c1, v, w) == if v == 0x28000000 then Lookup(PAIRS_POST_TREE, w) else LookupCases(c2, v, w);
    var c0 := Case(0x2A000000, Leaf(R_ORR_SH), c1);
    assert LookupCases(c0, v, w) == if v == 0x2A000000 then Some(R_ORR_SH) else LookupCases(c1, v, w);
    assert PAIRS_TREE == Group(0x7F000000, c0);
  }

  lemma LookupLoadsImm9(w: Word)
    ensures Lookup(LOADS_IMM9_TREE, w) == var v := And(w, 0xBFE00C00);
            if v == 0xB8400400 then Some(R_LDR_IMM_POST)
            else if v == 0xB8400C00 then Some(R_LDR_IMM_PRE)
            else if v == 0xB8400000 then Some(R_STUR_ROW38)
            else None
  {
    hide And;
    var v := And(w, 0xBFE00C00);
    var c2 := Case(0xB8400000, Leaf(R_STUR_ROW38), Default);
    assert LookupCases(c2, v, w) == if v == 0xB8400000 then Some(R_STUR_ROW38) else None;
    var c1 := Case(0xB8400C00, Leaf(R_LDR_IMM_PRE), c2);
    assert LookupCases(c1, v, w) == if v == 0xB8400C00 then Some(R_LDR_IMM_PRE) else LookupCases(c2, v, w);
    var c0 := Case(0xB8400400, Leaf(R_LDR_IMM_POST), c1);
    assert LookupCases(c0, v, w) == if v == 0xB8400400 then Some(R_LDR_IMM_POST) else LookupCases(c1, v, w);
    assert LOADS_IMM9_TREE == Group(0xBFE00C00, c0);
  }

  lemma LookupStoresImm9(w: Word)
    ensures Lookup(STORES_IMM9_TREE, w) == var v := And(w, 0xBFE00C00);
            if v == 0xB8000400 then Some(R_STR_IMM_POST)
            else if v == 0xB8000C00 then Some(R_STR_IMM_PRE)
            else if v == 0xB8000000 then Some(R_STUR)
            else None
  {
    hide And;
    var v := And(w, 0xBFE00C00);
    var c2 := Case(0xB8000000, Leaf(R_STUR), Default);
    assert LookupCases(c2, v, w) == if v == 0xB8000000 then Some(R_STUR) else None;
    var c1 := Case(0xB8000C00, Leaf(R_STR_IMM_PRE), c2);
    assert LookupCases(c1, v, w) == if v == 0xB8000C00 then Some(R_STR_IMM_PRE) else LookupCases(c2, v, w);
    var c0 := Case(0xB8000400, Leaf(R_STR_IMM_POST), c1);
    assert LookupCases(c0, v, w) == if v == 0xB8000400 then Some(R_STR_IMM_POST) else LookupCases(c1, v, w);
    assert STORES_IMM9_TREE == Group(0xBFE00C00, c0);
  }

  lemma LookupLoadsStores(w: Word)
    ensures Lookup(LOADS_STORES_TREE, w) == var v := And(w, 0x3FC00000);
            if v == 0x1A800000 then Some(R_CSINC)
            else if v == 0x38000000 then Lookup(STORES_IMM9_TREE, w)
            else if v == 0x39000000 then Some(R_STR_IMM_OFFSET)
            else if v == 0x38400000 then Lookup(LOADS_IMM9_TREE, w)
            else if v == 0x39400000 then Some(R_LDR_IMM_OFFSET)
            else None
  {
    hide And, STORES_IMM9_TREE, LOADS_IMM9_TREE;
    var v := And(w, 0x3FC00000);
    var c4 := Case(0x39400000, Leaf(R_LDR_IMM_OFFSET), Default);
    assert LookupCases(c4, v, w) == if v == 0x39400000 then Some(R_LDR_IMM_OFFSET) else None;
    var c3 := Case(0x38400000, LOADS_IMM9_TREE, c4);
    assert LookupCases(c3, v, w) == if v == 0x38400000 then Lookup(LOADS_IMM9_TREE, w) else LookupCases(c4, v, w);
    var c2 := Case(0x39000000, Leaf(R_STR_IMM_OFFSET), c3);
    assert LookupCases(c2, v, w) == if v == 0x39000000 then Some(R_STR_IMM_OFFSET) else LookupCases(c3, v, w);
    var c1 := Case(0x38000000, STORES_IMM9_TREE, c2);
    assert LookupCases(c1, v, w) == if v == 0x38000000 then Lookup(STORES_IMM9_TREE, w) else LookupCases(c2, v, w);
    var c0 := Case(0x1A800000, Leaf(R_CSINC), c1);
    assert LookupCases(c0, v, w) == if v == 0x1A800000 then Some(R_CSINC) else LookupCases(c1, v, w);
    assert LOADS_STORES_TREE == Group(0x3FC00000, c0);
  }

  lemma LookupPlainBranches(w: Word)
    ensures Lookup(PLAIN_BRANCHES_TREE, w) == var v := And(w, 0xFC000000);
            if v == 0x14000000 then Some(R_B)
            else if v == 0x94000000 then Some(R_BL)
            else None
  {
    hide And;
    var v := And(w, 0xFC000000);
    var c1 := Case(0x94000000, Leaf(R_BL), Default);
    assert LookupCases(c1, v, w) == if v == 0x94000000 then Some(R_BL) else None;
    var c0 := Case(0x14000000, Leaf(R_B), c1);
    assert LookupCases(c0, v, w) == if v == 0x14000000 then Some(R_B) else LookupCases(c1, v, w);
    assert PLAIN_BRANCHES_TREE == Group(0xFC000000, c0);
  }

  lemma LookupBranches(w: Word)
    ensures Lookup(BRANCHES_TREE, w) == var v := And(w, 0x7C000000);
            if v == 0x14000000 then Lookup(PLAIN_BRANCHES_TREE, w)
            else if v == 0x34000000 then Some(R_TBNZ)
            else if v == 0x54000000 then Some(R_RET)
            else None
  {
    hide And, PLAIN_BRANCHES_TREE;
    var v := And(w, 0x7C000000);
    var c2 := Case(0x54000000, Leaf(R_RET), Default);
    assert LookupCases(c2, v, w) == if v == 0x54000000 then Some(R_RET) else None;
    var c1 := Case(0x34000000, Leaf(R_TBNZ), c2);
    assert LookupCases(c1, v, w) == if v == 0x34000000 then Some(R_TBNZ) else LookupCases(c2, v, w);
    var c0 := Case(0x14000000, PLAIN_BRANCHES_TREE, c1);
    assert LookupCases(c0, v, w) == if v == 0x14000000 then Lookup(PLAIN_BRANCHES_TREE, w) else LookupCases(c1, v, w);
    assert BRANCHES_TREE == Group(0x7C000000, c0);
  }

  lemma LookupAddSub(w: Word)
    ensures Lookup(ADD_SUB_TREE, w) == var v := And(w, 0x7F800000);
            if v == 0x11000000 then Some(R_ADD_IMM)
            else if v == 0x31000000 then Some(R_ADDS_IMM)
            else if v == 0x51000000 then Some(R_SUB_IMM)
            else if v == 0x71000000 then Some(R_SUBS_IMM)
            else None
  {
    hide And;
    var v := And(w, 0x7F800000);
    var c3 := Case(0x71000000, Leaf(R_SUBS_IMM), Default);
    assert LookupCases(c3, v, w) == if v == 0x71000000 then Some(R_SUBS_IMM) else None;
    var c2 := Case(0x51000000, Leaf(R_SUB_IMM), c3);
    assert LookupCases(c2, v, w) == if v == 0x51000000 then Some(R_SUB_IMM) else LookupCases(c3, v, w);
    var c1 := Case(0x31000000, Leaf(R_ADDS_IMM), c2);
    assert LookupCases(c1, v, w) == if v == 0x31000000 then Some(R_ADDS_IMM) else LookupCases(c2, v, w);
    var c0 := Case(0x11000000, Leaf(R_ADD_IMM), c1);
    assert LookupCases(c0, v, w) == if v == 0x11000000 then Some(R_ADD_IMM) else LookupCases(c1, v, w);
    assert ADD_SUB_TREE == Group(0x7F800000, c0);
  }

  lemma LookupImmediates(w: Word)
    ensures Lookup(IMMEDIATES_TREE, w) == var v := And(w, 0x1F000000);
            if v == 0x11000000 then Lookup(ADD_SUB_TREE, w)
            else if v == 0x12000000 then Some(R_MOVZ)
            else if v == 0x10000000 then Some(R_ADRP)
            else None
  {
    hide And, ADD_SUB_TREE;
    var v := And(w, 0x1F000000);
    var c2 := Case(0x10000000, Leaf(R_ADRP), Default);
    assert LookupCases(c2, v, w) == if v == 0x10000000 then Some(R_ADRP) else None;
    var c1 := Case(0x12000000, Leaf(R_MOVZ), c2);
    assert LookupCases(c1, v, w) == if v == 0x12000000 then Some(R_MOVZ) else LookupCases(c2, v, w);
    var c0 := Case(0x11000000, ADD_SUB_TREE, c1);
    assert LookupCases(c0, v, w) == if v == 0x11000000 then Lookup(ADD_SUB_TREE, w) else LookupCases(c1, v, w);
    assert IMMEDIATES_TREE == Group(0x1F000000, c0);
  }

  lemma LookupRoot(w: Word)
    ensures Lookup(ROOT_TREE, w) == var v := And(w, 0x1C000000);
            if v == 0x10000000 then Lookup(IMMEDIATES_TREE, w)
            else if v == 0x14000000 then Lookup(BRANCHES_TREE, w)
            else if v == 0x18000000 then Lookup(LOADS_STORES_TREE, w)
            else if v == 0x08000000 then Lookup(PAIRS_TREE, w)
            else None
  {
    hide And, IMMEDIATES_TREE, BRANCHES_TREE, LOADS_STORES_TREE, PAIRS_TREE;
    var v := And(w, 0x1C000000);
    var c3 := Case(0x08000000, PAIRS_TREE, Default);
    assert LookupCases(c3, v, w) == if v == 0x08000000 then Lookup(PAIRS_TREE, w) else None;
    var c2 := Case(0x18000000, LOADS_STORES_TREE, c3);
    assert LookupCases(c2, v, w) == if v == 0x18000000 then Lookup(LOADS_STORES_TREE, w) else LookupCases(c3, v, w);
    var c1 := Case(0x14000000, BRANCHES_TREE, c2);
    assert LookupCases(c1, v, w) == if v == 0x14000000 then Lookup(BRANCHES_TREE, w) else LookupCases(c2, v, w);
    var c0 := Case(0x10000000, IMMEDIATES_TREE, c1);
    assert LookupCases(c0, v, w) == if v == 0x10000000 then Lookup(IMMEDIATES_TREE, w) else LookupCases(c1, v, w);
    assert ROOT_TREE == Group(0x1C000000, c0);
  }

  lemma ImmediateAgrees(w: Word)
    ensures NameOf(Lookup(IMMEDIATES_TREE, w)) == HandlerName(ImmediateHandler(w))
  {
    hide ADD_SUB_TREE, IMMEDIATES_TREE;
    LookupImmediates(w);
    LookupAddSub(w);
  }

  lemma BranchAgrees(w: Word)
    ensures NameOf(Lookup(BRANCHES_TREE, w)) == HandlerName(BranchHandler(w))
  {
    hide PLAIN_BRANCHES_TREE, BRANCHES_TREE;
    LookupBranches(w);
    LookupPlainBranches(w);
  }

  lemma LoadStoreAgrees(w: Word)
    ensures NameOf(Lookup(LOADS_STORES_TREE, w)) == HandlerName(LoadStoreHandler(w))
  {
    hide STORES_IMM9_TREE, LOADS_IMM9_TREE, LOADS_STORES_TREE;
    LookupLoadsStores(w);
    LookupStoresImm9(w);
    LookupLoadsImm9(w);
  }

  lemma PairAgrees(w: Word)
    ensures NameOf(Lookup(PAIRS_TREE, w)) == HandlerName(PairHandler(w))
  {
    hide PAIRS_POST_TREE, PAIRS_OFFSET_TREE, PAIRS_TREE;
    LookupPairs(w);
    LookupPairsPost(w);
    LookupPairsOffset(w);
  }

  /** The checked-in dispatcher is the tree the generator builds from patterns.txt. */
  lemma DispatcherIsGenerated(w: Word)
    ensures HandlerName(HandlerOf(w)) == NameOf(Lookup(ROOT_TREE, w))
  {
    hide IMMEDIATES_TREE, BRANCHES_TREE, LOADS_STORES_TREE, PAIRS_TREE, ROOT_TREE, OpName;
    LookupRoot(w);
    hide ImmediateHandler, BranchHandler, LoadStoreHandler, PairHandler;
    ImmediateAgrees(w);
    BranchAgrees(w);
    LoadStoreAgrees(w);
    PairAgrees(w);
  }

  /** Every word that matches a row of patterns.txt reaches the handler the row names. */
  lemma RowsReachTheirHandlers(p: Pattern, w: Word)
    requires p in ToSeq(TABLE) && Matches(p, w)
    ensures HandlerName(HandlerOf(w)) == Some(p.name)
  {
    hide And, Build, Lookup, HandlerOf, TABLE, ROOT_TREE, Matches, Separable, HandlerName;
    ShippedTableBuilds();
    DispatcherIsGenerated(w);
    MeaningPreserved(ToSeq(TABLE), 3, ROOT_TREE, w);
  }

  // ---------- which words reach which handler ----------

  /** Each of these handlers receives exactly the words of its rows. */
  lemma ExactArithmetic(w: Word)
    ensures HandlerOf(w) == Some(AddImm) <==> Matches(R_ADD_IMM, w)
    ensures HandlerOf(w) == Some(AddsImm) <==> Matches(R_ADDS_IMM, w)
    ensures HandlerOf(w) == Some(SubImm) <==> Matches(R_SUB_IMM, w)
    ensures HandlerOf(w) == Some(SubsImm) <==> Matches(R_SUBS_IMM, w)
  {}

  lemma ExactBranches(w: Word)
    ensures HandlerOf(w) == Some(B) <==> Matches(R_B, w)
    ensures HandlerOf(w) == Some(Bl) <==> Matches(R_BL, w)
  {}

  lemma ExactPairs(w: Word)
    ensures HandlerOf(w) == Some(Stp) <==> Matches(R_STP_POST, w) || Matches(R_STP_PRE, w) || Matches(R_STP_OFFSET, w)
    ensures HandlerOf(w) == Some(Ldp) <==> Matches(R_LDP_POST, w) || Matches(R_LDP_PRE, w) || Matches(R_LDP_OFFSET, w)
  {}

  lemma ExactStur(w: Word)
    ensures HandlerOf(w) == Some(Stur) <==> Matches(R_STUR, w) || Matches(R_STUR_ROW38, w)
    ensures HandlerOf(w) != Some(Ldur)
  {}

  /** The other handlers receive every word that agrees with their row on the tested bits only. */
  lemma LooseHandlers(w: Word)
    ensures HandlerOf(w) == Some(Movz) <==> w & 0x1F000000 == 0x12000000
    ensures HandlerOf(w) == Some(Adrp) <==> w & 0x1F000000 == 0x10000000
    ensures HandlerOf(w) == Some(Tbnz) <==> w & 0x7C000000 == 0x34000000
    ensures HandlerOf(w) == Some(Ret) <==> w & 0x7C000000 == 0x54000000
    ensures HandlerOf(w) == Some(Csinc) <==> w & 0x3FC00000 == 0x1A800000
    ensures HandlerOf(w) == Some(OrrSh) <==> w & 0x7F000000 == 0x2A000000
  {}

  lemma LooseLoadsStores(w: Word)
    ensures HandlerOf(w) == Some(StrImm)
            <==> Matches(R_STR_IMM_POST, w) || Matches(R_STR_IMM_PRE, w) || w & 0x3FC00000 == 0x39000000
    ensures HandlerOf(w) == Some(LdrImm)
            <==> Matches(R_LDR_IMM_POST, w) || Matches(R_LDR_IMM_PRE, w) || w & 0x3FC00000 == 0x39400000
  {}

  /** For each of those handlers, a word it receives although the word does not match its row. */
  lemma LooseWitnesses()
    ensures HandlerOf(0x72800000) == Some(Movz) && !Matches(R_MOVZ, 0x72800000)
    ensures HandlerOf(0x10000000) == Some(Adrp) && !Matches(R_ADRP, 0x10000000)
    ensures HandlerOf(0x34000000) == Some(Tbnz) && !Matches(R_TBNZ, 0x34000000)
    ensures HandlerOf(0xD61F0000) == Some(Ret) && !Matches(R_RET, 0xD61F0000)
    ensures HandlerOf(0x1A800000) == Some(Csinc) && !Matches(R_CSINC, 0x1A800000)
    ensures HandlerOf(0x2A200000) == Some(OrrSh) && !Matches(R_ORR_SH, 0x2A200000)
    ensures HandlerOf(0x39000000) == Some(StrImm) && !Matches(R_STR_IMM_OFFSET, 0x39000000)
    ensures HandlerOf(0x39400000) == Some(LdrImm) && !Matches(R_LDR_IMM_OFFSET, 0x39400000)
  {}
}
