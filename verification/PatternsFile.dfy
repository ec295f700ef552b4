/** The text of patterns.txt, read as the generator reads it. */
module PatternsFile {
  import opened Patterns
  import opened PatternText
  import opened DecisionTree
  import CodeGen
  import Builder
  import opened RowList
  import opened Dispatcher
  import opened RowText
  import BaseOp

  /** A row of the file: its 32 characters, eight at a time, and its name. */
  datatype RowBytes = RowBytes(a: string, b: string, c: string, d: string, name: string)

  function Text(t: RowBytes, end: string): string {
    (t.a + t.b + t.c + t.d) + ("    " + t.name + end)
  }

  const T_ADD_IMM := RowBytes(".0010001", "0.......", "........", "........", "AddImm")
  const T_ADDS_IMM := RowBytes(".0110001", "0.......", "........", "........", "AddsImm")
  const T_SUB_IMM := RowBytes(".1010001", "0.......", "........", "........", "SubImm")
  const T_SUBS_IMM := RowBytes(".1110001", "0.......", "........", "........", "SubsImm")
  const T_B := RowBytes("000101..", "........", "........", "........", "B")
  const T_BL := RowBytes("100101..", "........", "........", "........", "Bl")
  const T_CSINC := RowBytes(".0011010", "100.....", "....01..", "........", "Csinc")
  const T_TBNZ := RowBytes(".0110111", "........", "........", "........", "Tbnz")
  const T_MOVZ := RowBytes(".1010010", "1.......", "........", "........", "Movz")
  const T_ORR_SH := RowBytes(".0101010", "..0.....", "........", "........", "OrrSh")
  const T_RET := RowBytes("11010110", "01011111", "000000..", "...00000", "Ret")
  const T_STP_POST := RowBytes(".0101000", "10......", "........", "........", "Stp")
  const T_STP_PRE := RowBytes(".0101001", "10......", "........", "........", "Stp")
  const T_STP_OFFSET := RowBytes(".0101001", "00......", "........", "........", "Stp")
  const T_LDP_POST := RowBytes(".0101000", "11......", "........", "........", "Ldp")
  const T_LDP_PRE := RowBytes(".0101001", "11......", "........", "........", "Ldp")
  const T_LDP_OFFSET := RowBytes(".0101001", "01......", "........", "........", "Ldp")
  const T_STR_IMM_POST := RowBytes("1.111000", "000.....", "....01..", "........", "StrImm")
  const T_STR_IMM_PRE := RowBytes("1.111000", "000.....", "....11..", "........", "StrImm")
  const T_STR_IMM_OFFSET := RowBytes("1.111001", "00......", "........", "........", "StrImm")
  const T_LDR_IMM_POST := RowBytes("1.111000", "010.....", "....01..", "........", "LdrImm")
  const T_LDR_IMM_PRE := RowBytes("1.111000", "010.....", "....11..", "........", "LdrImm")
  const T_LDR_IMM_OFFSET := RowBytes("1.111001", "01......", "........", "........", "LdrImm")
  const T_STUR := RowBytes("1.111000", "000.....", "....00..", "........", "Stur")
  const T_STUR_ROW38 := RowBytes("1.111000", "010.....", "....00..", "........", "Stur")
  const T_ADRP := RowBytes("1..10000", "........", "........", "........", "Adrp")

  // ---------- reading eight characters ----------

  predicate EightBits(t: string) {
    && |t| == 8
    && IsBitChar(t[0]) && IsBitChar(t[1]) && IsBitChar(t[2]) && IsBitChar(t[3])
    && IsBitChar(t[4]) && IsBitChar(t[5]) && IsBitChar(t[6]) && IsBitChar(t[7])
  }

  function Append4(x: Word, a: Word, b: Word, c: Word, d: Word): Word {
    Append(Append(Append(Append(x, a), b), c), d)
  }

  function MaskByte(x: Word, t: string): Word
    requires |t| == 8
  {
    Append4(Append4(x, Digit(MaskChar(t[0])), Digit(MaskChar(t[1])), Digit(MaskChar(t[2])), Digit(MaskChar(t[3]))),
            Digit(MaskChar(t[4])), Digit(MaskChar(t[5])), Digit(MaskChar(t[6])), Digit(MaskChar(t[7])))
  }

  function FixedByte(x: Word, t: string): Word
    requires |t| == 8
  {
    Append4(Append4(x, Digit(FixedChar(t[0])), Digit(FixedChar(t[1])), Digit(FixedChar(t[2])), Digit(FixedChar(t[3]))),
            Digit(FixedChar(t[4])), Digit(FixedChar(t[5])), Digit(FixedChar(t[6])), Digit(FixedChar(t[7])))
  }

  lemma OneMore(s: string, t: string, k: nat)
    requires k < |t|
    ensures MaskOf(s + t, |s| + k + 1) == Append(MaskOf(s + t, |s| + k), Digit(MaskChar(t[k])))
    ensures FixedOf(s + t, |s| + k + 1) == Append(FixedOf(s + t, |s| + k), Digit(FixedChar(t[k])))
  {
    hide Append, Digit, MaskChar, FixedChar;
  }

  lemma EightMore(s: string, t: string)
    requires |t| == 8
    ensures MaskOf(s + t, |s| + 8) == MaskByte(MaskOf(s, |s|), t)
    ensures FixedOf(s + t, |s| + 8) == FixedByte(FixedOf(s, |s|), t)
  {
    hide Append, Digit, MaskChar, FixedChar, MaskOf, FixedOf;
    SamePrefix(s + t, s, |s|);
    OneMore(s, t, 0);
    OneMore(s, t, 1);
    OneMore(s, t, 2);
    OneMore(s, t, 3);
    OneMore(s, t, 4);
    OneMore(s, t, 5);
    OneMore(s, t, 6);
    OneMore(s, t, 7);
  }

  lemma RowCharacters(t: RowBytes)
    requires EightBits(t.a) && EightBits(t.b) && EightBits(t.c) && EightBits(t.d)
    ensures MaskOf(t.a + t.b + t.c + t.d, 32) == MaskByte(MaskByte(MaskByte(MaskByte(0, t.a), t.b), t.c), t.d)
    ensures FixedOf(t.a + t.b + t.c + t.d, 32) == FixedByte(FixedByte(FixedByte(FixedByte(0, t.a), t.b), t.c), t.d)
  {
    hide Append4, MaskByte, FixedByte, IsBitChar;
    EightMore([], t.a);
    assert [] + t.a == t.a;
    EightMore(t.a, t.b);
    EightMore(t.a + t.b, t.c);
    EightMore(t.a + t.b + t.c, t.d);
  }

  predicate ReadsAs(line: string, p: Pattern) {
    ValidRow(line) && ParseRow(line) == p
  }

  /** The row is correct and its characters, eight at a time, are the pattern. */
  predicate Means(t: RowBytes, p: Pattern) {
    && EightBits(t.a) && EightBits(t.b) && EightBits(t.c) && EightBits(t.d)
    && PlainName(t.name)
    && p == Pattern(MaskByte(MaskByte(MaskByte(MaskByte(0, t.a), t.b), t.c), t.d),
                    FixedByte(FixedByte(FixedByte(FixedByte(0, t.a), t.b), t.c), t.d), t.name)
  }

  predicate Letters(s: string) {
    forall i :: 0 <= i < |s| ==> 'A' <= s[i] <= 'z'
  }

  lemma MeansRow(t: RowBytes, p: Pattern)
    requires EightBits(t.a) && EightBits(t.b) && EightBits(t.c) && EightBits(t.d) && Letters(t.name)
    requires p.mask == MaskByte(MaskByte(MaskByte(MaskByte(0, t.a), t.b), t.c), t.d) && p.name == t.name
    requires p.fb == FixedByte(FixedByte(FixedByte(FixedByte(0, t.a), t.b), t.c), t.d)
    ensures Means(t, p)
  {
    hide EightBits, MaskByte, FixedByte;
  }

  lemma RowReads(t: RowBytes, p: Pattern, end: string)
    requires Means(t, p) && White(end)
    ensures ReadsAs(Text(t, end), p)
  {
    hide MaskByte, FixedByte, MaskOf, FixedOf, PlainName, ParseRow, White;
    RowCharacters(t);
    ReadRow(t.a + t.b + t.c + t.d, t.name, "    ", end);
  }

  // ---------- the rows of the file ----------

  lemma AddRows()
    ensures Means(T_ADD_IMM, R_ADD_IMM)
    ensures Means(T_ADDS_IMM, R_ADDS_IMM)
  {
    hide Means;
    MeansRow(T_ADD_IMM, R_ADD_IMM);
    MeansRow(T_ADDS_IMM, R_ADDS_IMM);
  }

  lemma SubRows()
    ensures Means(T_SUB_IMM, R_SUB_IMM)
    ensures Means(T_SUBS_IMM, R_SUBS_IMM)
  {
    hide Means;
    MeansRow(T_SUB_IMM, R_SUB_IMM);
    MeansRow(T_SUBS_IMM, R_SUBS_IMM);
  }

  lemma BranchRows()
    ensures Means(T_B, R_B)
    ensures Means(T_BL, R_BL)
  {
    hide Means;
    MeansRow(T_B, R_B);
    MeansRow(T_BL, R_BL);
  }

  lemma ReturnRows()
    ensures Means(T_TBNZ, R_TBNZ)
    ensures Means(T_RET, R_RET)
  {
    hide Means;
    MeansRow(T_TBNZ, R_TBNZ);
    MeansRow(T_RET, R_RET);
  }

  lemma SelectRows()
    ensures Means(T_CSINC, R_CSINC)
    ensures Means(T_ORR_SH, R_ORR_SH)
  {
    hide Means;
    MeansRow(T_CSINC, R_CSINC);
    MeansRow(T_ORR_SH, R_ORR_SH);
  }

  lemma MoveRows()
    ensures Means(T_MOVZ, R_MOVZ)
    ensures Means(T_ADRP, R_ADRP)
  {
    hide Means;
    MeansRow(T_MOVZ, R_MOVZ);
    MeansRow(T_ADRP, R_ADRP);
  }

  lemma StpRows()
    ensures Means(T_STP_POST, R_STP_POST)
    ensures Means(T_STP_PRE, R_STP_PRE)
    ensures Means(T_STP_OFFSET, R_STP_OFFSET)
  {
    hide Means;
    MeansRow(T_STP_POST, R_STP_POST);
    MeansRow(T_STP_PRE, R_STP_PRE);
    MeansRow(T_STP_OFFSET, R_STP_OFFSET);
  }

  lemma LdpRows()
    ensures Means(T_LDP_POST, R_LDP_POST)
    ensures Means(T_LDP_PRE, R_LDP_PRE)
    ensures Means(T_LDP_OFFSET, R_LDP_OFFSET)
  {
    hide Means;
    MeansRow(T_LDP_POST, R_LDP_POST);
    MeansRow(T_LDP_PRE, R_LDP_PRE);
    MeansRow(T_LDP_OFFSET, R_LDP_OFFSET);
  }

  lemma StrRows()
    ensures Means(T_STR_IMM_POST, R_STR_IMM_POST)
    ensures Means(T_STR_IMM_PRE, R_STR_IMM_PRE)
    ensures Means(T_STR_IMM_OFFSET, R_STR_IMM_OFFSET)
  {
    hide Means;
    MeansRow(T_STR_IMM_POST, R_STR_IMM_POST);
    MeansRow(T_STR_IMM_PRE, R_STR_IMM_PRE);
    MeansRow(T_STR_IMM_OFFSET, R_STR_IMM_OFFSET);
  }

  lemma LdrRows()
    ensures Means(T_LDR_IMM_POST, R_LDR_IMM_POST)
    ensures Means(T_LDR_IMM_PRE, R_LDR_IMM_PRE)
    ensures Means(T_LDR_IMM_OFFSET, R_LDR_IMM_OFFSET)
  {
    hide Means;
    MeansRow(T_LDR_IMM_POST, R_LDR_IMM_POST);
    MeansRow(T_LDR_IMM_PRE, R_LDR_IMM_PRE);
    MeansRow(T_LDR_IMM_OFFSET, R_LDR_IMM_OFFSET);
  }

  lemma UnscaledRows()
    ensures Means(T_STUR, R_STUR)
    ensures Means(T_STUR_ROW38, R_STUR_ROW38)
  {
    hide Means;
    MeansRow(T_STUR, R_STUR);
    MeansRow(T_STUR_ROW38, R_STUR_ROW38);
  }

  datatype Texts = NoText | TextRow(t: RowBytes, rest: Texts)

  function Both(a: Texts, b: Texts): Texts {
    match a
    case NoText => b
    case TextRow(t, rest) => TextRow(t, Both(rest, b))
  }

  const FILE_1: Texts :=
    TextRow(T_ADD_IMM, TextRow(T_ADDS_IMM, TextRow(T_SUB_IMM, TextRow(T_SUBS_IMM, TextRow(T_B,
    TextRow(T_BL, TextRow(T_CSINC, TextRow(T_TBNZ, TextRow(T_MOVZ, NoText)))))))))

  const FILE_2: Texts :=
    TextRow(T_ORR_SH, TextRow(T_RET, TextRow(T_STP_POST, TextRow(T_STP_PRE,
    TextRow(T_STP_OFFSET, TextRow(T_LDP_POST, TextRow(T_LDP_PRE, TextRow(T_LDP_OFFSET, NoText))))))))

  const FILE_3: Texts :=
    TextRow(T_STR_IMM_POST, TextRow(T_STR_IMM_PRE, TextRow(T_STR_IMM_OFFSET, TextRow(T_LDR_IMM_POST,
    TextRow(T_LDR_IMM_PRE, TextRow(T_LDR_IMM_OFFSET, TextRow(T_STUR, TextRow(T_STUR_ROW38,
    TextRow(T_ADRP, NoText)))))))))

  /** The rows of the file, in order. */
  const FILE: Texts := Both(FILE_1, Both(FILE_2, FILE_3))

  ghost predicate AllMean(ts: Texts, l: Rows)
    decreases ts
  {
    match ts
    case NoText => l == NoRows
    case TextRow(t, rest) => l.Row? && Means(t, l.p) && AllMean(rest, l.rest)
  }

  lemma {:induction false} BothMean(a: Texts, b: Texts, la: Rows, lb: Rows)
    requires AllMean(a, la) && AllMean(b, lb)
    ensures AllMean(Both(a, b), Cat(la, lb))
    decreases a
  {
    hide Means;
    if a.TextRow? {
      BothMean(a.rest, b, la.rest, lb);
    }
  }

  lemma FileMeans1()
    ensures AllMean(FILE_1, ROWS_1)
  {
    hide Means;
    AddRows();
    SubRows();
    BranchRows();
    SelectRows();
    ReturnRows();
    MoveRows();
  }

  lemma FileMeans2()
    ensures AllMean(FILE_2, ROWS_2)
  {
    hide Means;
    SelectRows();
    ReturnRows();
    StpRows();
    LdpRows();
  }

  lemma FileMeans3()
    ensures AllMean(FILE_3, ROWS_3)
  {
    hide Means;
    StrRows();
    LdrRows();
    UnscaledRows();
    MoveRows();
  }

  lemma FileMeans()
    ensures AllMean(FILE, TABLE)
  {
    hide AllMean, Both, Cat, ROWS_1, ROWS_2, ROWS_3, FILE_1, FILE_2, FILE_3;
    FileMeans1();
    FileMeans2();
    FileMeans3();
    BothMean(FILE_2, FILE_3, ROWS_2, ROWS_3);
    BothMean(FILE_1, Both(FILE_2, FILE_3), ROWS_1, Cat(ROWS_2, ROWS_3));
  }

  /** The non-comment lines are the given rows, each ended by white space or by the end of the file. */
  ghost predicate Holds(rows: seq<string>, ts: Texts)
    decreases ts
  {
    match ts
    case NoText => rows == []
    case TextRow(t, rest) =>
      rows != [] && (exists end | White(end) :: rows[0] == Text(t, end)) && Holds(rows[1..], rest)
  }

  /** The lines of a file without comments. */
  function LinesOf(ts: Texts): seq<string> {
    match ts
    case NoText => []
    case TextRow(t, rest) => [Text(t, "\n")] + LinesOf(rest)
  }

  lemma {:induction false} RowsOfParts(a: seq<string>, b: seq<string>)
    ensures PatternText.Rows(a + b) == PatternText.Rows(a) + PatternText.Rows(b)
  {
    hide LStrip;
    if b == [] {
      assert a + b == a;
    } else {
      assert (a + b)[..|a + b| - 1] == a + b[..|b| - 1];
      RowsOfParts(a, b[..|b| - 1]);
    }
  }

  /** Comments and blank lines may stand anywhere: white space, alone or before `#` and any text. */
  lemma CommentsVanish(a: seq<string>, white: string, text: string, b: seq<string>)
    requires White(white)
    ensures PatternText.Rows(a + [white] + b) == PatternText.Rows(a + b)
    ensures PatternText.Rows(a + [white + ("#" + text)] + b) == PatternText.Rows(a + b)
  {
    hide PatternText.Rows;
    NoRowInLine(white, text);
    RowsOfParts(a + [white], b);
    RowsOfParts(a + [white + ("#" + text)], b);
    RowsOfParts(a, [white]);
    RowsOfParts(a, [white + ("#" + text)]);
    RowsOfParts(a, b);
  }

  lemma RowLine(t: RowBytes, p: Pattern)
    requires Means(t, p)
    ensures PatternText.Rows([Text(t, "\n")]) == [Text(t, "\n")]
  {
    hide MaskByte, FixedByte;
    var line := Text(t, "\n");
    assert line[0] == t.a[0];
    assert LStrip(line) == line;
    var before: seq<string> := [];
    assert [line] == before + [line] && [line][..0] == before;
  }

  /** A file that consists of these rows holds them. */
  lemma {:induction false} LinesHold(ts: Texts, l: Rows)
    requires AllMean(ts, l)
    ensures Holds(PatternText.Rows(LinesOf(ts)), ts)
    decreases ts
  {
    hide Means, Text, PatternText.Rows;
    match ts
    case NoText =>
      NoRowsInNothing();
    case TextRow(t, rest) =>
      RowsOfParts([Text(t, "\n")], LinesOf(rest));
      RowLine(t, l.p);
      LinesHold(rest, l.rest);
      assert White("\n");
  }

  lemma NoRowsInNothing()
    ensures PatternText.Rows([]) == []
  {}

  // ---------- the file itself ----------

  const G_ADD_SUB: Texts := TextRow(T_ADD_IMM, TextRow(T_ADDS_IMM, TextRow(T_SUB_IMM, TextRow(T_SUBS_IMM, NoText))))
  const G_BRANCH: Texts := TextRow(T_B, TextRow(T_BL, NoText))
  const G_SELECT: Texts := TextRow(T_CSINC, TextRow(T_TBNZ, NoText))
  const G_MOVE: Texts := TextRow(T_MOVZ, NoText)
  const G_OR: Texts := TextRow(T_ORR_SH, NoText)
  const G_RETURN: Texts := TextRow(T_RET, NoText)
  const G_STP: Texts := TextRow(T_STP_POST, TextRow(T_STP_PRE, TextRow(T_STP_OFFSET, NoText)))
  const G_LDP: Texts := TextRow(T_LDP_POST, TextRow(T_LDP_PRE, TextRow(T_LDP_OFFSET, NoText)))
  const G_STR: Texts := TextRow(T_STR_IMM_POST, TextRow(T_STR_IMM_PRE, TextRow(T_STR_IMM_OFFSET, NoText)))
  const G_LDR: Texts := TextRow(T_LDR_IMM_POST, TextRow(T_LDR_IMM_PRE, TextRow(T_LDR_IMM_OFFSET, NoText)))
  const G_UNSCALED: Texts := TextRow(T_STUR, TextRow(T_STUR_ROW38, NoText))
  const G_PAGE: Texts := TextRow(T_ADRP, NoText)

  /** A group of rows, ended by a blank line. */
  function Block(ts: Texts): seq<string> {
    LinesOf(ts) + ["\n"]
  }

  const LINES_1: seq<string> := Block(G_ADD_SUB) + (Block(G_BRANCH) + (Block(G_SELECT) + Block(G_MOVE)))
  const LINES_2: seq<string> := Block(G_OR) + (Block(G_RETURN) + (Block(G_STP) + Block(G_LDP)))
  const LINES_3: seq<string> := Block(G_STR) + (Block(G_LDR) + (Block(G_UNSCALED) + [Text(T_ADRP, "")]))

  /** patterns.txt, line by line. */
  const LINES: seq<string> :=
    ["# format: \n", "# xxx0000110xxx.. \n", "\n"] + (LINES_1 + (LINES_2 + LINES_3))

  lemma {:induction false} HoldsBoth(a: seq<string>, b: seq<string>, s: Texts, t: Texts)
    requires Holds(PatternText.Rows(a), s) && Holds(PatternText.Rows(b), t)
    ensures Holds(PatternText.Rows(a + b), Both(s, t))
  {
    hide PatternText.Rows;
    RowsOfParts(a, b);
    HoldsJoined(PatternText.Rows(a), PatternText.Rows(b), s, t);
  }

  lemma {:induction false} HoldsJoined(a: seq<string>, b: seq<string>, s: Texts, t: Texts)
    requires Holds(a, s) && Holds(b, t)
    ensures Holds(a + b, Both(s, t))
    decreases s
  {
    hide Text, White;
    if s.TextRow? {
      HoldsJoined(a[1..], b, s.rest, t);
      assert (a + b)[1..] == a[1..] + b;
      assert (a + b)[0] == a[0];
    } else {
      assert a + b == b;
    }
  }

  /** The rows of a group that stands in the table, whatever its patterns. */
  lemma BlockHolds(ts: Texts, l: Rows)
    requires AllMean(ts, l)
    ensures Holds(PatternText.Rows(Block(ts)), ts)
  {
    hide PatternText.Rows, Holds, AllMean, LinesOf;
    LinesHold(ts, l);
    NoRowInLine("\n", "");
    RowsOfParts(LinesOf(ts), ["\n"]);
    assert PatternText.Rows(LinesOf(ts)) + [] == PatternText.Rows(LinesOf(ts));
  }

  lemma Blocks1()
    ensures Holds(PatternText.Rows(Block(G_ADD_SUB)), G_ADD_SUB)
    ensures Holds(PatternText.Rows(Block(G_BRANCH)), G_BRANCH)
    ensures Holds(PatternText.Rows(Block(G_SELECT)), G_SELECT)
    ensures Holds(PatternText.Rows(Block(G_MOVE)), G_MOVE)
  {
    hide Means, Holds, PatternText.Rows, Block;
    AddRows();
    SubRows();
    BranchRows();
    SelectRows();
    ReturnRows();
    MoveRows();
    BlockHolds(G_ADD_SUB, Row(R_ADD_IMM, Row(R_ADDS_IMM, Row(R_SUB_IMM, Row(R_SUBS_IMM, NoRows)))));
    BlockHolds(G_BRANCH, Row(R_B, Row(R_BL, NoRows)));
    BlockHolds(G_SELECT, Row(R_CSINC, Row(R_TBNZ, NoRows)));
    BlockHolds(G_MOVE, Row(R_MOVZ, NoRows));
  }

  lemma Blocks2()
    ensures Holds(PatternText.Rows(Block(G_OR)), G_OR)
    ensures Holds(PatternText.Rows(Block(G_RETURN)), G_RETURN)
    ensures Holds(PatternText.Rows(Block(G_STP)), G_STP)
    ensures Holds(PatternText.Rows(Block(G_LDP)), G_LDP)
  {
    hide Means, Holds, PatternText.Rows, Block;
    SelectRows();
    ReturnRows();
    StpRows();
    LdpRows();
    BlockHolds(G_OR, Row(R_ORR_SH, NoRows));
    BlockHolds(G_RETURN, Row(R_RET, NoRows));
    BlockHolds(G_STP, Row(R_STP_POST, Row(R_STP_PRE, Row(R_STP_OFFSET, NoRows))));
    BlockHolds(G_LDP, Row(R_LDP_POST, Row(R_LDP_PRE, Row(R_LDP_OFFSET, NoRows))));
  }

  lemma Blocks3()
    ensures Holds(PatternText.Rows(Block(G_STR)), G_STR)
    ensures Holds(PatternText.Rows(Block(G_LDR)), G_LDR)
    ensures Holds(PatternText.Rows(Block(G_UNSCALED)), G_UNSCALED)
  {
    hide Means, Holds, PatternText.Rows, Block;
    StrRows();
    LdrRows();
    UnscaledRows();
    MoveRows();
    BlockHolds(G_STR, Row(R_STR_IMM_POST, Row(R_STR_IMM_PRE, Row(R_STR_IMM_OFFSET, NoRows))));
    BlockHolds(G_LDR, Row(R_LDR_IMM_POST, Row(R_LDR_IMM_PRE, Row(R_LDR_IMM_OFFSET, NoRows))));
    BlockHolds(G_UNSCALED, Row(R_STUR, Row(R_STUR_ROW38, NoRows)));
  }

  lemma LastLine()
    ensures Holds(PatternText.Rows([Text(T_ADRP, "")]), G_PAGE)
  {
    MoveRows();
    OneRowInLine("", Text(T_ADRP, ""));
    assert "" + Text(T_ADRP, "") == Text(T_ADRP, "");
    hide PatternText.Rows, Text;
    assert White("");
  }

  lemma Groups1()
    ensures Both(G_ADD_SUB, Both(G_BRANCH, Both(G_SELECT, G_MOVE))) == FILE_1
  {}

  lemma LinesHold1()
    ensures Holds(PatternText.Rows(LINES_1), FILE_1)
  {
    hide Holds, PatternText.Rows, Block, Both, FILE_1, Text, G_ADD_SUB, G_BRANCH, G_SELECT, G_MOVE;
    Blocks1();
    HoldsBoth(Block(G_SELECT), Block(G_MOVE), G_SELECT, G_MOVE);
    HoldsBoth(Block(G_BRANCH), Block(G_SELECT) + Block(G_MOVE), G_BRANCH, Both(G_SELECT, G_MOVE));
    HoldsBoth(Block(G_ADD_SUB), Block(G_BRANCH) + (Block(G_SELECT) + Block(G_MOVE)), G_ADD_SUB,
              Both(G_BRANCH, Both(G_SELECT, G_MOVE)));
    Groups1();
  }

  lemma Groups2()
    ensures Both(G_OR, Both(G_RETURN, Both(G_STP, G_LDP))) == FILE_2
  {}

  lemma LinesHold2()
    ensures Holds(PatternText.Rows(LINES_2), FILE_2)
  {
    hide Holds, PatternText.Rows, Block, Both, FILE_2, Text, G_OR, G_RETURN, G_STP, G_LDP;
    Blocks2();
    HoldsBoth(Block(G_STP), Block(G_LDP), G_STP, G_LDP);
    HoldsBoth(Block(G_RETURN), Block(G_STP) + Block(G_LDP), G_RETURN, Both(G_STP, G_LDP));
    HoldsBoth(Block(G_OR), Block(G_RETURN) + (Block(G_STP) + Block(G_LDP)), G_OR, Both(G_RETURN, Both(G_STP, G_LDP)));
    Groups2();
  }

  lemma Groups3()
    ensures Both(G_STR, Both(G_LDR, Both(G_UNSCALED, G_PAGE))) == FILE_3
  {}

  lemma LinesHold3()
    ensures Holds(PatternText.Rows(LINES_3), FILE_3)
  {
    hide Holds, PatternText.Rows, Block, Both, FILE_3, Text, G_STR, G_LDR, G_UNSCALED, G_PAGE;
    Blocks3();
    LastLine();
    HoldsBoth(Block(G_UNSCALED), [Text(T_ADRP, "")], G_UNSCALED, G_PAGE);
    HoldsBoth(Block(G_LDR), Block(G_UNSCALED) + [Text(T_ADRP, "")], G_LDR, Both(G_UNSCALED, G_PAGE));
    HoldsBoth(Block(G_STR), Block(G_LDR) + (Block(G_UNSCALED) + [Text(T_ADRP, "")]), G_STR,
              Both(G_LDR, Both(G_UNSCALED, G_PAGE)));
    Groups3();
  }

  lemma FirstComment()
    ensures PatternText.Rows(["# format: \n"]) == []
  {
    hide PatternText.Rows;
    NoRowInLine("", " format: \n");
    assert "" + ("#" + " format: \n") == "# format: \n";
  }

  lemma SecondComment()
    ensures PatternText.Rows(["# xxx0000110xxx.. \n"]) == []
  {
    hide PatternText.Rows;
    NoRowInLine("", " xxx0000110xxx.. \n");
    assert "" + ("#" + " xxx0000110xxx.. \n") == "# xxx0000110xxx.. \n";
  }

  lemma ThreeLines(a: string, b: string, c: string)
    ensures PatternText.Rows([a, b, c]) == PatternText.Rows([a]) + PatternText.Rows([b]) + PatternText.Rows([c])
  {
    hide PatternText.Rows;
    RowsOfParts([a], [b]);
    RowsOfParts([a] + [b], [c]);
    assert [a] + [b] + [c] == [a, b, c];
  }

  lemma HeaderHolds()
    ensures PatternText.Rows(["# format: \n", "# xxx0000110xxx.. \n", "\n"]) == []
  {
    hide PatternText.Rows;
    FirstComment();
    SecondComment();
    NoRowInLine("\n", "");
    ThreeLines("# format: \n", "# xxx0000110xxx.. \n", "\n");
  }

  /** patterns.txt, with its comments and blank lines, holds the rows of the table. */
  lemma FileHolds()
    ensures Holds(PatternText.Rows(LINES), FILE)
  {
    hide Holds, PatternText.Rows, Both, FILE_1, FILE_2, FILE_3, LINES_1, LINES_2, LINES_3;
    HeaderHolds();
    LinesHold1();
    LinesHold2();
    LinesHold3();
    HoldsBoth(LINES_2, LINES_3, FILE_2, FILE_3);
    HoldsBoth(LINES_1, LINES_2 + LINES_3, FILE_1, Both(FILE_2, FILE_3));
    RowsOfParts(["# format: \n", "# xxx0000110xxx.. \n", "\n"], LINES_1 + (LINES_2 + LINES_3));
    assert [] + PatternText.Rows(LINES_1 + (LINES_2 + LINES_3)) == PatternText.Rows(LINES_1 + (LINES_2 + LINES_3));
  }

  lemma {:induction false} RowsRead(rows: seq<string>, ts: Texts, l: Rows)
    requires Holds(rows, ts) && AllMean(ts, l)
    ensures |rows| == |ToSeq(l)|
    ensures forall i :: 0 <= i < |rows| ==> ReadsAs(rows[i], ToSeq(l)[i])
    decreases ts
  {
    hide Means, ReadsAs, Text, White;
    if ts.TextRow? {
      var end :| White(end) && rows[0] == Text(ts.t, end);
      RowReads(ts.t, l.p, end);
      RowsRead(rows[1..], ts.rest, l.rest);
    }
  }

  /** A file with these rows, whatever its comments and blank lines, is read as the shipped table. */
  lemma ShippedFileIsTable(lines: seq<string>, ps: seq<Pattern>)
    requires Holds(PatternText.Rows(lines), FILE)
    ensures Builder.PatternsOf(ps, lines) <==> ps == ToSeq(TABLE)
    ensures forall row | row in PatternText.Rows(lines) :: ValidRow(row)
  {
    hide FILE, TABLE, ToSeq, ParseRow, ValidRow, PatternText.Rows, Holds;
    FileMeans();
    RowsRead(PatternText.Rows(lines), FILE, TABLE);
  }

  /** The script on the shipped file: it succeeds, and what it writes is the checked-in text. */
  method GenerateShipped(lines: seq<string>, limit: nat) returns (out: Builder.OutFile?)
    requires Holds(PatternText.Rows(lines), FILE) && limit >= 3
    ensures out != null && fresh(out) && out.lines == BaseOp.BASE_OP
  {
    hide FILE, TABLE, ROOT_TREE, ToSeq, PatternText.Rows, Holds;
    hide Build, CodeGen.Emit, ValidRow, Separable, Builder.PatternsOf, BaseOp.BASE_OP;
    ghost var ps, t;
    out, ps, t := Builder.Generate(lines, limit);
    ShippedFileIsTable(lines, ps);
    ShippedTableBuilds();
    BuildMonotone(ToSeq(TABLE), 3, limit);
    BaseOp.RootEmitted();
  }

  /** The script on patterns.txt writes the checked-in text. */
  method GenerateFromFile(limit: nat) returns (out: Builder.OutFile?)
    requires limit >= 3
    ensures out != null && fresh(out) && out.lines == BaseOp.BASE_OP
  {
    hide LINES, FILE, Holds, BaseOp.BASE_OP;
    FileHolds();
    out := GenerateShipped(LINES, limit);
  }

  /** From the characters to the handler: a word that carries the 0s and 1s of a row of the file, read
      from bit 31 down, reaches the handler the row names. */
  lemma TextReachesHandler(lines: seq<string>, k: nat, w: Word)
    requires Holds(PatternText.Rows(lines), FILE) && k < |PatternText.Rows(lines)|
    requires var row := PatternText.Rows(lines)[k];
             |row| >= 32 && forall i :: 0 <= i < 32 && row[i] != '.' ==> Bit(w, 31 - i) == (row[i] == '1')
    ensures var row := PatternText.Rows(lines)[k];
            ValidRow(row) && HandlerName(HandlerOf(w)) == Some(ParseRow(row).name)
  {
    hide FILE, TABLE, ToSeq, ParseRow, ValidRow, PatternText.Rows, Holds, HandlerOf, HandlerName, Matches, Bit;
    FileMeans();
    RowsRead(PatternText.Rows(lines), FILE, TABLE);
    RowSemantics(PatternText.Rows(lines)[k], w);
    RowsReachTheirHandlers(ToSeq(TABLE)[k], w);
  }
}
