/** Writing a pattern as a row of text: the inverse of reading one. */
module RowText {
  import opened Patterns
  import opened PatternText

  function CharOf(mask: Word, fixed: Word): char {
    if mask == 0 then '.' else if fixed == 0 then '0' else '1'
  }

  function Last(x: Word): Word {
    x & 1
  }

  function Upper(x: Word): Word {
    x >> 1
  }

  /** The low `n` bits of a mask and its fixed bits, as characters. */
  function RowChars(m: Word, f: Word, n: nat): (s: string)
    ensures |s| == n && forall i :: 0 <= i < n ==> IsBitChar(s[i])
    decreases n
  {
    if n == 0 then [] else RowChars(Upper(m), Upper(f), n - 1) + [CharOf(Last(m), Last(f))]
  }

  /** A name that survives the removal of blanks and trailing white space. */
  predicate PlainName(name: string) {
    && (forall i :: 0 <= i < |name| ==> name[i] != ' ')
    && (name != [] ==> !IsSpace(name[|name| - 1]))
  }

  predicate Blank(s: string) {
    forall i :: 0 <= i < |s| ==> s[i] == ' '
  }

  predicate White(s: string) {
    forall i :: 0 <= i < |s| ==> IsSpace(s[i])
  }

  /** The row of a pattern, with any gap before the name and any white space behind it. */
  function Row(p: Pattern, gap: string, end: string): string {
    RowChars(p.mask, p.fb, 32) + (gap + p.name + end)
  }

  // ---------- the characters ----------

  lemma {:induction false} SamePrefix(s: string, t: string, n: nat)
    requires n <= |s| && n <= |t| && s[..n] == t[..n]
    ensures MaskOf(s, n) == MaskOf(t, n) && FixedOf(s, n) == FixedOf(t, n)
  {
    hide Append, Digit, MaskChar, FixedChar;
    if n > 0 {
      assert s[..n - 1] == s[..n][..n - 1] == t[..n - 1];
      assert s[n - 1] == s[..n][n - 1] == t[n - 1];
      SamePrefix(s, t, n - 1);
    }
  }

  lemma Rejoin(x: Word, bit: Word)
    requires bit == Last(x)
    ensures Append(Upper(x), bit) == x
  {}

  lemma WithinSplits(f: Word, m: Word)
    requires Within(f, m)
    ensures Within(Upper(f), Upper(m)) && Last(f) <= Last(m) <= 1
  {}

  lemma CharDigits(mb: Word, fb: Word)
    requires fb <= mb <= 1
    ensures Digit(MaskChar(CharOf(mb, fb))) == mb && Digit(FixedChar(CharOf(mb, fb))) == fb
  {}

  /** One step of reading undoes one step of writing. */
  lemma LastBitRead(m: Word, f: Word)
    requires Within(f, m)
    ensures Within(Upper(f), Upper(m))
    ensures Append(Upper(m), Digit(MaskChar(CharOf(Last(m), Last(f))))) == m
    ensures Append(Upper(f), Digit(FixedChar(CharOf(Last(m), Last(f))))) == f
  {
    hide Append, Upper, Last, Within, Digit, MaskChar, FixedChar, CharOf;
    WithinSplits(f, m);
    CharDigits(Last(m), Last(f));
    Rejoin(m, Last(m));
    Rejoin(f, Last(f));
  }

  lemma OnesHalve(m: Word, ones: Word)
    requires Within(m, Append(ones, 1)) && ones & 0x80000000 == 0
    ensures Within(Upper(m), ones)
  {}

  lemma OnesTopClear(n: nat)
    requires n <= 31
    ensures Ones(n) & 0x80000000 == 0
  {
    hide And, Append, Within, Ones;
    OnesGrow(n, 31);
    Ones31();
    TopClear(Ones(n));
  }

  /** Reading the written characters gives back mask and fixed bits. */
  lemma {:induction false} ReadWritten(m: Word, f: Word, n: nat)
    requires n <= 32 && Within(f, m) && Within(m, Ones(n))
    ensures MaskOf(RowChars(m, f, n), n) == m && FixedOf(RowChars(m, f, n), n) == f
    decreases n
  {
    hide And, Append, Within, Digit, MaskChar, FixedChar, CharOf, Last, Upper, IsBitChar;
    if n > 0 {
      OnesTopClear(n - 1);
      OnesHalve(m, Ones(n - 1));
      LastBitRead(m, f);
      ReadWritten(Upper(m), Upper(f), n - 1);
      SamePrefix(RowChars(m, f, n), RowChars(Upper(m), Upper(f), n - 1), n - 1);
    } else {
      NothingWithinZero(m, f);
    }
  }

  lemma NothingWithinZero(m: Word, f: Word)
    requires Within(f, m) && Within(m, 0)
    ensures m == 0 && f == 0
  {}

  /** One step of writing undoes one step of reading. */
  lemma LastBitWritten(m: Word, f: Word, c: char)
    requires IsBitChar(c) && m & 0x80000000 == 0 && f & 0x80000000 == 0
    ensures Upper(Append(m, Digit(MaskChar(c)))) == m && Upper(Append(f, Digit(FixedChar(c)))) == f
    ensures CharOf(Last(Append(m, Digit(MaskChar(c)))), Last(Append(f, Digit(FixedChar(c))))) == c
  {}

  /** Writing what was read gives back the characters. */
  lemma {:induction false} WriteRead(s: string, n: nat)
    requires n <= |s| && n <= 32 && forall i :: 0 <= i < n ==> IsBitChar(s[i])
    ensures RowChars(MaskOf(s, n), FixedOf(s, n), n) == s[..n]
  {
    hide And, Append, Digit, MaskChar, FixedChar, CharOf, IsBitChar, Last, Upper;
    if n > 0 {
      RowTopClear(s, n - 1);
      LastBitWritten(MaskOf(s, n - 1), FixedOf(s, n - 1), s[n - 1]);
      WriteRead(s, n - 1);
    }
  }

  // ---------- the name ----------

  lemma {:induction false} GapVanishes(gap: string, s: string)
    requires Blank(gap)
    ensures RemoveBlanks(gap + s) == RemoveBlanks(s)
  {
    if gap == [] {
      assert gap + s == s;
    } else {
      assert (gap + s)[1..] == gap[1..] + s;
      GapVanishes(gap[1..], s);
    }
  }

  lemma {:induction false} NameStays(name: string, s: string)
    requires forall i :: 0 <= i < |name| ==> name[i] != ' '
    ensures RemoveBlanks(name + s) == name + RemoveBlanks(s)
  {
    if name == [] {
      assert name + s == s;
    } else {
      assert (name + s)[1..] == name[1..] + s;
      NameStays(name[1..], s);
    }
  }

  lemma {:induction false} WhiteStays(s: string)
    requires White(s)
    ensures White(RemoveBlanks(s))
  {
    if s != [] {
      WhiteStays(s[1..]);
    }
  }

  lemma {:induction false} EndVanishes(name: string, end: string)
    requires White(end) && (name != [] ==> !IsSpace(name[|name| - 1]))
    ensures RStrip(name + end) == name
  {
    if end == [] {
      assert name + end == name;
    } else {
      assert (name + end)[..|name + end| - 1] == name + end[..|end| - 1];
      EndVanishes(name, end[..|end| - 1]);
    }
  }

  lemma NameRead(name: string, gap: string, end: string)
    requires PlainName(name) && Blank(gap) && White(end)
    ensures RStrip(RemoveBlanks(gap + name + end)) == name
  {
    hide RemoveBlanks, RStrip, IsSpace;
    assert gap + name + end == gap + (name + end);
    GapVanishes(gap, name + end);
    NameStays(name, end);
    WhiteStays(end);
    EndVanishes(name, RemoveBlanks(end));
  }

  // ---------- rows ----------

  /** A row of bit characters, gap, name and white space is correct and reads as those characters and
      that name. */
  lemma ReadRow(chars: string, name: string, gap: string, end: string)
    requires |chars| == 32 && forall i :: 0 <= i < 32 ==> IsBitChar(chars[i])
    requires PlainName(name) && Blank(gap) && gap != [] && White(end)
    ensures ValidRow(chars + (gap + name + end))
    ensures ParseRow(chars + (gap + name + end)) == Pattern(MaskOf(chars, 32), FixedOf(chars, 32), name)
  {
    hide MaskOf, FixedOf, RemoveBlanks, RStrip, PlainName;
    var line := chars + (gap + name + end);
    assert line[32] == gap[0];
    assert line[32..] == gap + name + end;
    SamePrefix(line, chars, 32);
    NameRead(name, gap, end);
  }

  /** Every pattern that fixes no bit outside its mask has a row, and reading the row returns it. */
  lemma RowRoundTrip(p: Pattern, gap: string, end: string)
    requires WellFormed(p) && PlainName(p.name) && Blank(gap) && gap != [] && White(end)
    ensures ValidRow(Row(p, gap, end)) && ParseRow(Row(p, gap, end)) == p
  {
    hide RowChars, PlainName, MaskOf, FixedOf, Blank, White;
    AllWithin(p.mask);
    ReadWritten(p.mask, p.fb, 32);
    ReadRow(RowChars(p.mask, p.fb, 32), p.name, gap, end);
  }

  lemma AllWithin(m: Word)
    ensures Within(m, Ones(32))
  {
    Ones31();
  }

  /** The pattern determines the characters of its row: no two different rows of bit characters mean
      the same pattern. */
  lemma RowDetermined(line: string)
    requires ValidRow(line)
    ensures RowChars(ParseRow(line).mask, ParseRow(line).fb, 32) == line[..32]
  {
    hide MaskOf, FixedOf, RemoveBlanks, RStrip, RowChars;
    WriteRead(line, 32);
  }

  // ---------- lines ----------

  /** The code points Python counts as white space, written out. */
  lemma SpaceCodes(c: char)
    ensures var code := c as int;
            IsSpace(c) <==> || code in {0x09, 0x0A, 0x0B, 0x0C, 0x0D, 0x1C, 0x1D, 0x1E, 0x1F, 0x20, 0x85, 0xA0, 0x1680}
                            || 0x2000 <= code <= 0x200A
                            || code in {0x2028, 0x2029, 0x202F, 0x205F, 0x3000}
  {}

  /** What a correct row is: 32 characters, each a dot, a 0 or a 1, and then at least white space. */
  lemma ValidRowIs(chars: string, c: char, rest: string)
    requires |chars| == 32
    ensures ValidRow(chars + [c] + rest)
            <==> IsSpace(c) && forall i :: 0 <= i < 32 ==> chars[i] == '.' || chars[i] == '0' || chars[i] == '1'
    ensures !ValidRow(chars)
  {
    hide IsSpace;
    var line := chars + [c] + rest;
    assert line[32] == c;
    assert forall i :: 0 <= i < 32 ==> line[i] == chars[i];
  }

  lemma {:induction false} LeftStripped(white: string, s: string)
    requires White(white) && (s != [] ==> !IsSpace(s[0]))
    ensures LStrip(white + s) == s
  {
    hide IsSpace;
    if white == [] {
      assert white + s == s;
    } else {
      assert (white + s)[1..] == white[1..] + s;
      LeftStripped(white[1..], s);
    }
  }

  lemma RowsLast(lines: seq<string>, line: string)
    ensures Rows(lines + [line]) == Rows(lines) + if ShouldSkip(LStrip(line)) then [] else [LStrip(line)]
  {
    hide LStrip, ShouldSkip;
    assert (lines + [line])[..|lines|] == lines;
  }

  lemma RowsOfOne(line: string)
    ensures Rows([line]) == if ShouldSkip(LStrip(line)) then [] else [LStrip(line)]
  {
    var none: seq<string> := [];
    assert Rows(none) == [];
    hide LStrip, ShouldSkip, Rows;
    RowsLast(none, line);
    assert none + [line] == [line];
  }

  /** White space followed by nothing, or by `#` and any text, contributes no row. */
  lemma NoRowInLine(white: string, text: string)
    requires White(white)
    ensures Rows([white]) == [] && Rows([white + ("#" + text)]) == []
  {
    hide Rows;
    LeftStripped(white, []);
    assert white + [] == white;
    LeftStripped(white, "#" + text);
    RowsOfOne(white);
    RowsOfOne(white + ("#" + text));
  }

  /** White space followed by anything else contributes exactly that. */
  lemma OneRowInLine(white: string, row: string)
    requires White(white) && row != [] && !IsSpace(row[0]) && row[0] != '#'
    ensures Rows([white + row]) == [row]
  {
    hide Rows, IsSpace;
    LeftStripped(white, row);
    RowsOfOne(white + row);
  }

  /** Removing blanks keeps all other characters, in order. */
  lemma {:induction false} RemoveBlanksIs(a: string, b: string, c: char)
    ensures RemoveBlanks(a + b) == RemoveBlanks(a) + RemoveBlanks(b)
    ensures RemoveBlanks([c]) == if c == ' ' then [] else [c]
  {
    if a == [] {
      assert a + b == b;
    } else {
      assert (a + b)[1..] == a[1..] + b;
      RemoveBlanksIs(a[1..], b, c);
    }
    assert [c][1..] == [];
  }

  /** What stripping on the right leaves: everything up to the last character that is not white. */
  lemma {:induction false} RStripIs(s: string) returns (end: string)
    ensures s == RStrip(s) + end && White(end)
    ensures RStrip(s) != [] ==> !IsSpace(RStrip(s)[|RStrip(s)| - 1])
  {
    hide IsSpace;
    end := [];
    if s != [] && IsSpace(s[|s| - 1]) {
      var inner := RStripIs(s[..|s| - 1]);
      end := inner + [s[|s| - 1]];
      assert s == s[..|s| - 1] + [s[|s| - 1]];
    } else {
      assert s == RStrip(s) + end;
    }
  }

  /** The name of a row is all that stands behind the 32 characters, without its blanks and without white
      space at its end; any other white space in front of it, a tab say, stays. */
  lemma NameIs(chars: string, rest: string) returns (end: string)
    requires |chars| == 32 && ValidRow(chars + rest)
    ensures var name := ParseRow(chars + rest).name;
            && RemoveBlanks(rest) == name + end && White(end)
            && (name != [] ==> !IsSpace(name[|name| - 1]))
  {
    hide MaskOf, FixedOf, RemoveBlanks, RStrip, IsSpace;
    assert (chars + rest)[32..] == rest;
    end := RStripIs(RemoveBlanks(rest));
  }
}
