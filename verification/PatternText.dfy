/** The text format of patterns.txt and its reading in generate_tree.py. */
module PatternText {
  import opened Patterns

  // ---------- lines ----------

  /** The characters Python counts as white space. */
  predicate IsSpace(c: char) {
    || '\t' <= c <= '\r'
    || '\U{1C}' <= c <= ' '
    || c == '\U{85}' || c == '\U{A0}' || c == '\U{1680}'
    || c == '\U{2028}' || c == '\U{2029}' || c == '\U{202F}' || c == '\U{205F}' || c == '\U{3000}'
    || '\U{2000}' <= c <= '\U{200A}'
  }

  function LStrip(s: string): string {
    if s != [] && IsSpace(s[0]) then LStrip(s[1..]) else s
  }

  function RStrip(s: string): string {
    if s != [] && IsSpace(s[|s| - 1]) then RStrip(s[..|s| - 1]) else s
  }

  function RemoveBlanks(s: string): string {
    if s == [] then [] else (if s[0] == ' ' then [] else [s[0]]) + RemoveBlanks(s[1..])
  }

  /** Applied to a stripped line. */
  predicate ShouldSkip(line: string) {
    |line| == 0 || line[0] == '#'
  }

  predicate IsBitChar(c: char) {
    c == '.' || c == '0' || c == '1'
  }

  /** Applied to a stripped line: 32 bit characters and then white space. */
  predicate ValidRow(line: string) {
    && |line| > 32
    && IsSpace(line[32])
    && forall i :: 0 <= i < 32 ==> IsBitChar(line[i])
  }

  // ---------- bits ----------

  function MaskChar(c: char): char {
    if c == '.' then '0' else '1'
  }

  function FixedChar(c: char): char {
    if c == '.' then '0' else c
  }

  function Digit(c: char): Word {
    if c == '1' then 1 else 0
  }

  function Append(x: Word, bit: Word): Word {
    (x << 1) | bit
  }

  /** The number written by the first `n` characters, dots read as 0 and zeros read as 1. */
  function MaskOf(s: string, n: nat): Word
    requires n <= |s|
  {
    if n == 0 then 0 else Append(MaskOf(s, n - 1), Digit(MaskChar(s[n - 1])))
  }

  /** The number written by the first `n` characters, dots read as 0. */
  function FixedOf(s: string, n: nat): Word
    requires n <= |s|
  {
    if n == 0 then 0 else Append(FixedOf(s, n - 1), Digit(FixedChar(s[n - 1])))
  }

  function ParseRow(line: string): Pattern
    requires ValidRow(line)
  {
    Pattern(MaskOf(line, 32), FixedOf(line, 32), RStrip(RemoveBlanks(line[32..])))
  }

  /** Bit `i` of a word, bit 0 the lowest. */
  predicate Bit(x: Word, i: nat) {
    if i == 0 then x & 1 == 1 else Bit(x >> 1, i - 1)
  }

  // ---------- what a row means ----------

  /** `n` one bits. */
  function Ones(n: nat): Word {
    if n == 0 then 0 else Append(Ones(n - 1), 1)
  }

  lemma AppendWithin(x: Word, ones: Word, bit: Word)
    requires Within(x, ones) && bit <= 1
    ensures Within(Append(x, bit), Append(ones, 1))
  {}

  lemma {:induction false} RowWithin(s: string, n: nat)
    requires n <= |s|
    ensures Within(MaskOf(s, n), Ones(n)) && Within(FixedOf(s, n), Ones(n))
  {
    hide And, Append, Within;
    if n > 0 {
      RowWithin(s, n - 1);
      AppendWithin(MaskOf(s, n - 1), Ones(n - 1), Digit(MaskChar(s[n - 1])));
      AppendWithin(FixedOf(s, n - 1), Ones(n - 1), Digit(FixedChar(s[n - 1])));
    } else {
      ZeroWithin(0);
    }
  }

  /** Fewer than 32 one bits leave the top bit clear. */
  lemma {:induction false} OnesGrow(n: nat, m: nat)
    requires n <= m
    ensures Within(Ones(n), Ones(m))
    decreases m
  {
    hide And, Append, Within;
    if n > 0 {
      OnesGrow(n - 1, m - 1);
      AppendWithin(Ones(n - 1), Ones(m - 1), 1);
    } else {
      ZeroWithin(Ones(m));
    }
  }

  lemma Ones31()
    ensures Ones(31) == 0x7FFFFFFF
  {
    assert Ones(8) == 0xFF;
    assert Ones(16) == 0xFFFF;
    assert Ones(24) == 0xFFFFFF;
  }

  lemma TopClear(x: Word)
    requires Within(x, 0x7FFFFFFF)
    ensures x & 0x80000000 == 0
  {}

  lemma RowTopClear(s: string, n: nat)
    requires n <= |s| && n <= 31
    ensures MaskOf(s, n) & 0x80000000 == 0 && FixedOf(s, n) & 0x80000000 == 0
  {
    hide And, Append, Within, MaskOf, FixedOf, Ones;
    RowWithin(s, n);
    OnesGrow(n, 31);
    Ones31();
    WithinTransitive(MaskOf(s, n), Ones(n), Ones(31));
    WithinTransitive(FixedOf(s, n), Ones(n), Ones(31));
    TopClear(MaskOf(s, n));
    TopClear(FixedOf(s, n));
  }

  lemma MaskedAppend(x: Word, m: Word, mb: Word)
    requires mb <= 1
    ensures And(x, Append(m, mb)) == Append(And(x >> 1, m), (x & 1) & mb)
    ensures (x & 1) & mb <= 1
  {}

  lemma AppendInjective(a: Word, p: Word, b: Word, q: Word)
    requires a & 0x80000000 == 0 && b & 0x80000000 == 0 && p <= 1 && q <= 1
    ensures Append(a, p) == Append(b, q) ==> a == b && p == q
  {}

  lemma MaskedTopClear(x: Word, m: Word)
    requires m & 0x80000000 == 0
    ensures And(x, m) & 0x80000000 == 0
  {}

  /** Comparing under an extended mask compares the upper bits and the last bit separately. */
  lemma CompareSplits(x: Word, m: Word, f: Word, mb: Word, fb: Word)
    requires m & 0x80000000 == 0 && f & 0x80000000 == 0 && mb <= 1 && fb <= 1
    ensures And(x, Append(m, mb)) == Append(f, fb) <==> And(x >> 1, m) == f && (x & 1) & mb == fb
  {
    hide And, Append;
    MaskedAppend(x, m, mb);
    MaskedTopClear(x >> 1, m);
    AppendInjective(And(x >> 1, m), (x & 1) & mb, f, fb);
  }

  /** The first `n` characters agree with the low `n` bits of `x`, the last character with bit 0. */
  ghost predicate Agrees(s: string, n: nat, x: Word)
    requires n <= |s|
  {
    forall i :: 0 <= i < n && s[i] != '.' ==> Bit(x, n - 1 - i) == (s[i] == '1')
  }

  lemma {:induction false} AgreesStep(s: string, n: nat, x: Word)
    requires 0 < n <= |s|
    ensures Agrees(s, n, x) <==> Agrees(s, n - 1, x >> 1) && (s[n - 1] != '.' ==> (x & 1 == 1) == (s[n - 1] == '1'))
  {
    assert forall j :: 0 < j < n ==> Bit(x, j) == Bit(x >> 1, j - 1);
    assert Bit(x, 0) == (x & 1 == 1);
  }

  lemma LastBit(x: Word, c: char)
    requires IsBitChar(c)
    ensures (x & 1) & Digit(MaskChar(c)) == Digit(FixedChar(c)) <==> (c != '.' ==> (x & 1 == 1) == (c == '1'))
  {}

  lemma {:induction false} PrefixSemantics(s: string, n: nat, x: Word)
    requires n <= |s| && n <= 32
    requires forall i :: 0 <= i < n ==> IsBitChar(s[i])
    ensures And(x, MaskOf(s, n)) == FixedOf(s, n) <==> Agrees(s, n, x)
  {
    hide And, Append, Bit, Agrees, MaskChar, FixedChar, Digit;
    if n == 0 {
      EmptyRow(s, x);
    } else {
      PrefixSemantics(s, n - 1, x >> 1);
      RowTopClear(s, n - 1);
      DigitRange(MaskChar(s[n - 1]));
      DigitRange(FixedChar(s[n - 1]));
      CompareSplits(x, MaskOf(s, n - 1), FixedOf(s, n - 1), Digit(MaskChar(s[n - 1])), Digit(FixedChar(s[n - 1])));
      LastBit(x, s[n - 1]);
      AgreesStep(s, n, x);
    }
  }

  lemma DigitRange(c: char)
    ensures Digit(c) <= 1
  {}

  lemma EmptyRow(s: string, x: Word)
    ensures And(x, 0) == 0 && Agrees(s, 0, x)
  {}

  lemma {:induction false} FixedWithinMask(s: string, n: nat)
    requires n <= |s| && forall i :: 0 <= i < n ==> IsBitChar(s[i])
    ensures Within(FixedOf(s, n), MaskOf(s, n))
  {
    hide And, Append, Within, Digit, MaskChar, FixedChar;
    if n > 0 {
      FixedWithinMask(s, n - 1);
      AppendBoth(FixedOf(s, n - 1), MaskOf(s, n - 1), s[n - 1]);
    } else {
      ZeroWithin(0);
    }
  }

  lemma AppendBoth(f: Word, m: Word, c: char)
    requires Within(f, m) && IsBitChar(c)
    ensures Within(Append(f, Digit(FixedChar(c))), Append(m, Digit(MaskChar(c))))
  {}

  /** A row matches exactly the words that carry its 0s and 1s, read from bit 31 down, and a parsed
      pattern fixes no bit outside its mask. */
  lemma RowSemantics(line: string, w: Word)
    requires ValidRow(line)
    ensures Matches(ParseRow(line), w)
            <==> forall i :: 0 <= i < 32 && line[i] != '.' ==> Bit(w, 31 - i) == (line[i] == '1')
    ensures WellFormed(ParseRow(line))
  {
    hide And, Bit, MaskOf, FixedOf, RStrip, RemoveBlanks;
    PrefixSemantics(line, 32, w);
    FixedWithinMask(line, 32);
  }

  // ---------- the whole file ----------

  /** The non-comment, non-empty lines, stripped on the left. */
  function Rows(lines: seq<string>): seq<string> {
    if lines == [] then []
    else
      var before := Rows(lines[..|lines| - 1]);
      var line := LStrip(lines[|lines| - 1]);
      if ShouldSkip(line) then before else before + [line]
  }

  /** The parsing loop: `None` is the RuntimeError raised on the first row that is not correct. */
  method ParsePatterns(lines: seq<string>) returns (r: Option<seq<Pattern>>)
    ensures r.None? <==> exists i :: 0 <= i < |Rows(lines)| && !ValidRow(Rows(lines)[i])
    ensures r.Some? ==> |r.value| == |Rows(lines)|
    ensures r.Some? ==> forall i :: 0 <= i < |r.value| ==> r.value[i] == ParseRow(Rows(lines)[i])
  {
    hide RStrip, RemoveBlanks, LStrip, MaskOf, FixedOf;
    var patterns := [];
    for k := 0 to |lines|
      invariant |patterns| == |Rows(lines[..k])|
      invariant forall i :: 0 <= i < |patterns| ==>
                  ValidRow(Rows(lines[..k])[i]) && patterns[i] == ParseRow(Rows(lines[..k])[i])
    {
      assert lines[..k + 1][..k] == lines[..k];
      var line := LStrip(lines[k]);
      if ShouldSkip(line) {
        continue;
      }
      if !ValidRow(line) {
        RowsPrefix(lines, k + 1);
        assert Rows(lines)[|Rows(lines[..k])|] == line;
        return None;
      }
      patterns := patterns + [ParseRow(line)];
    }
    assert lines[..|lines|] == lines;
    r := Some(patterns);
  }

  lemma {:induction false} RowsPrefix(lines: seq<string>, k: nat)
    requires k <= |lines|
    ensures Rows(lines[..k]) <= Rows(lines)
    decreases |lines| - k
  {
    hide LStrip;
    if k < |lines| {
      assert lines[..k + 1][..k] == lines[..k];
      RowsPrefix(lines, k + 1);
    } else {
      assert lines[..k] == lines;
    }
  }
}
