/** The shape of a built tree: its depth and its leaves. */
module TreeShape {
  import opened Patterns
  import opened DecisionTree
  import opened Routing

  /** The number of switches nested inside each other, the outermost included. */
  function Depth(t: Tree): nat {
    match t
    case Leaf(_) => 0
    case Group(_, cases) => 1 + DepthCases(cases)
  }

  function DepthCases(cs: Cases): nat {
    match cs
    case Default => 0
    case Case(_, node, rest) => if Depth(node) > DepthCases(rest) then Depth(node) else DepthCases(rest)
  }

  /** The number of switches one lookup evaluates. */
  function Tests(t: Tree, w: Word): nat {
    match t
    case Leaf(_) => 0
    case Group(m, cases) => 1 + TestsCases(cases, And(w, m), w)
  }

  function TestsCases(cs: Cases, v: Word, w: Word): nat {
    match cs
    case Default => 0
    case Case(val, node, rest) => if val == v then Tests(node, w) else TestsCases(rest, v, w)
  }

  /** Every nested switch tests strictly more bits than the one around it. */
  predicate NestsIn(cs: Cases, m: Word) {
    match cs
    case Default => true
    case Case(_, node, rest) =>
      && (node.Group? ==> Within(m, node.mask) && m != node.mask && NestsIn(node.cases, node.mask))
      && NestsIn(rest, m)
  }

  function Half(m: Word): Word {
    m >> 1
  }

  function Low(m: Word): nat {
    if m & 1 == 1 then 1 else 0
  }

  function PopCount(m: Word): nat
    decreases m
  {
    if m == 0 then 0
    else
      HalfIsSmaller(m);
      PopCount(Half(m)) + Low(m)
  }

  lemma HalfIsSmaller(m: Word)
    ensures m != 0 ==> Half(m) < m
  {}

  // ---------- strictly growing masks ----------

  lemma WithinHalves(a: Word, b: Word)
    requires Within(a, b)
    ensures Within(Half(a), Half(b)) && Low(a) <= Low(b)
    ensures Half(a) == Half(b) && Low(a) == Low(b) ==> a == b
    ensures b == 0 ==> a == 0
  {}

  lemma PopCountStep(m: Word)
    ensures PopCount(m) == PopCount(Half(m)) + Low(m)
  {}

  lemma {:induction false} PopCountGrows(a: Word, b: Word)
    requires Within(a, b)
    ensures PopCount(a) <= PopCount(b)
    ensures a != b ==> PopCount(a) < PopCount(b)
    decreases b
  {
    hide And, Half, Low, Within, PopCount;
    WithinHalves(a, b);
    PopCountStep(a);
    PopCountStep(b);
    if b != 0 {
      HalfIsSmaller(b);
      PopCountGrows(Half(a), Half(b));
    }
  }

  lemma AllOnes()
    ensures PopCount(0xFFFFFFFF) == 32
  {
    assert PopCount(0x3) == 2;
    assert PopCount(0xF) == 4;
    assert PopCount(0x3F) == 6;
    assert PopCount(0xFF) == 8;
    assert PopCount(0x3FF) == 10;
    assert PopCount(0xFFF) == 12;
    assert PopCount(0x3FFF) == 14;
    assert PopCount(0xFFFF) == 16;
    assert PopCount(0x3FFFF) == 18;
    assert PopCount(0xFFFFF) == 20;
    assert PopCount(0x3FFFFF) == 22;
    assert PopCount(0xFFFFFF) == 24;
    assert PopCount(0x3FFFFFF) == 26;
    assert PopCount(0xFFFFFFF) == 28;
    assert PopCount(0x3FFFFFFF) == 30;
  }

  lemma PopCountAtMost32(m: Word)
    ensures PopCount(m) <= 32
  {
    hide And;
    WithinAll(m);
    PopCountGrows(m, 0xFFFFFFFF);
    AllOnes();
  }

  /** A group and each group nested in it: the inner list splits, the outer mask does not split it. */
  lemma NestedMaskDiffers(ps: seq<Pattern>, v: Word)
    requires Separable(ps) && |Bucket(ps, Common(ps), v)| > 1
    ensures Within(Common(ps), Common(Bucket(ps, Common(ps), v)))
    ensures Common(ps) != Common(Bucket(ps, Common(ps), v))
  {
    hide And, Common, Within, Bucket, Separable;
    var b := Bucket(ps, Common(ps), v);
    forall q ensures q in b ==> q in ps && Takes(q, Common(ps), v) {
      BucketMember(ps, Common(ps), v, q);
    }
    CommonAntitone(ps, b);
    SeparableBucket(ps, v);
    SeparableSplits(b);
    var i :| 0 < i < |b| && Differ(b[i], b[0], Common(b));
    assert b[i] in b && b[0] in b;
  }

  lemma {:induction false} BuiltNests(ps: seq<Pattern>, limit: nat, t: Tree)
    requires Build(ps, limit) == Some(t)
    ensures t.Group? && t.mask == Common(ps) && NestsIn(t.cases, t.mask)
    decreases limit, 1, 0
  {
    hide And, Common, Separable, Keys;
    BuiltIsSeparable(ps, limit);
    CasesNest(ps, Keys(ps, Common(ps)), limit, t.cases);
  }

  lemma {:induction false} CasesNest(ps: seq<Pattern>, keys: seq<Word>, limit: nat, cs: Cases)
    requires Separable(ps) && limit > 0 && BuildCases(ps, Common(ps), keys, limit) == Some(cs)
    ensures NestsIn(cs, Common(ps))
    decreases limit, 0, |keys|
  {
    hide And, Common, Separable, Bucket, Within, Build;
    if keys != [] {
      if |Bucket(ps, Common(ps), keys[0])| > 1 {
        NestedMaskDiffers(ps, keys[0]);
        BuiltNests(Bucket(ps, Common(ps), keys[0]), limit - 1, cs.node);
      }
      CasesNest(ps, keys[1..], limit, cs.rest);
    }
  }

  lemma {:induction false} DepthBelowMask(cs: Cases, m: Word)
    requires NestsIn(cs, m)
    ensures DepthCases(cs) <= 32 - PopCount(m)
  {
    hide And, Within, PopCount;
    match cs
    case Default =>
      PopCountAtMost32(m);
    case Case(_, node, rest) =>
      DepthBelowMask(rest, m);
      if node.Group? {
        PopCountGrows(m, node.mask);
        DepthBelowMask(node.cases, node.mask);
      } else {
        PopCountAtMost32(m);
      }
  }

  lemma {:induction false} DepthAtMostLimit(ps: seq<Pattern>, limit: nat, t: Tree)
    requires Build(ps, limit) == Some(t)
    ensures Depth(t) <= limit
    decreases limit, 1, 0
  {
    hide And, Common, Keys, BuildCases;
    CasesDepthAtMostLimit(ps, Common(ps), Keys(ps, Common(ps)), limit, t.cases);
  }

  lemma {:induction false} CasesDepthAtMostLimit(ps: seq<Pattern>, m: Word, keys: seq<Word>, limit: nat, cs: Cases)
    requires limit > 0 && BuildCases(ps, m, keys, limit) == Some(cs)
    ensures DepthCases(cs) < limit
    decreases limit, 0, |keys|
  {
    hide And, Bucket, Build;
    if keys != [] {
      if |Bucket(ps, m, keys[0])| > 1 {
        DepthAtMostLimit(Bucket(ps, m, keys[0]), limit - 1, cs.node);
      }
      CasesDepthAtMostLimit(ps, m, keys[1..], limit, cs.rest);
    }
  }

  /** Two patterns that differ under a mask show that the mask is not empty. */
  lemma SplitMaskNonzero(ps: seq<Pattern>)
    requires Splits(ps)
    ensures PopCount(Common(ps)) > 0
  {
    hide Common, Half, Low;
    AndZero(ps[0].fb);
    var i :| 0 < i < |ps| && Differ(ps[i], ps[0], Common(ps));
    AndZero(ps[i].fb);
    ZeroWithin(Common(ps));
    PopCountGrows(0, Common(ps));
  }

  lemma AndZero(x: Word)
    ensures And(x, 0) == 0
  {}

  lemma {:induction false} TestsAtMostDepth(t: Tree, w: Word)
    ensures Tests(t, w) <= Depth(t)
  {
    if t.Group? {
      TestsCasesAtMostDepth(t.cases, And(w, t.mask), w);
    }
  }

  lemma {:induction false} TestsCasesAtMostDepth(cs: Cases, v: Word, w: Word)
    ensures TestsCases(cs, v, w) <= DepthCases(cs)
  {
    if cs.Case? {
      TestsAtMostDepth(cs.node, w);
      TestsCasesAtMostDepth(cs.rest, v, w);
    }
  }

  /** The depth bound: no lookup evaluates more than 32 switches, nor (from two patterns on) as many
      switches as there are patterns. */
  lemma LookupIsShort(ps: seq<Pattern>, limit: nat, t: Tree, w: Word)
    requires Build(ps, limit) == Some(t)
    ensures Tests(t, w) <= Depth(t) <= 32
    ensures Depth(t) <= SizeDepth(ps)
  {
    hide And, Common, Separable, Build, Depth, Tests;
    TestsAtMostDepth(t, w);
    TerminatesIffSeparable(ps);
    if limit <= SizeDepth(ps) {
      BuildMonotone(ps, limit, SizeDepth(ps));
    } else {
      BuildMonotone(ps, SizeDepth(ps), limit);
    }
    DepthAtMostLimit(ps, SizeDepth(ps), t);
    DepthAtMost32(ps, limit, t);
  }

  lemma DepthAtMost32(ps: seq<Pattern>, limit: nat, t: Tree)
    requires Build(ps, limit) == Some(t)
    ensures Depth(t) <= 32
  {
    hide And, Common, Separable, Build, PopCount;
    BuiltIsSeparable(ps, limit);
    if |ps| >= 2 {
      BuiltNests(ps, limit, t);
      SeparableSplits(ps);
      SplitMaskNonzero(ps);
      DepthBelowMask(t.cases, t.mask);
    } else {
      SeparableBuildsBySize(ps, 1);
      BuildNeedsStack(ps, limit);
      BuildMonotone(ps, 1, limit);
      DepthAtMostLimit(ps, 1, t);
    }
  }

  /** Stack of the depth of the tree is enough to build it. */
  lemma {:induction false} DepthSuffices(ps: seq<Pattern>, limit: nat, t: Tree, less: nat)
    requires Build(ps, limit) == Some(t) && Depth(t) <= less <= limit
    ensures Build(ps, less) == Some(t)
    decreases limit, 1, 0
  {
    hide And, Common, Keys, BuildCases;
    CasesDepthSuffices(ps, Common(ps), Keys(ps, Common(ps)), limit, t.cases, less);
  }

  lemma {:induction false} CasesDepthSuffices(ps: seq<Pattern>, m: Word, keys: seq<Word>, limit: nat, cs: Cases,
                                              less: nat)
    requires limit > 0 && BuildCases(ps, m, keys, limit) == Some(cs) && DepthCases(cs) < less <= limit
    ensures BuildCases(ps, m, keys, less) == Some(cs)
    decreases limit, 0, |keys|
  {
    hide And, Bucket, Build;
    if keys != [] {
      if |Bucket(ps, m, keys[0])| > 1 {
        DepthSuffices(Bucket(ps, m, keys[0]), limit - 1, cs.node, less - 1);
      }
      CasesDepthSuffices(ps, m, keys[1..], limit, cs.rest, less);
    }
  }

  /** A table that builds at all builds within 32 nested calls. */
  lemma TerminatesWithin32(ps: seq<Pattern>)
    ensures Terminates(ps) <==> Build(ps, 32).Some?
  {
    hide And, Common, Build, Depth;
    if limit: nat :| Build(ps, limit).Some? {
      DepthAtMost32(ps, limit, Build(ps, limit).value);
      if limit <= 32 {
        BuildMonotone(ps, limit, 32);
      } else {
        DepthSuffices(ps, limit, Build(ps, limit).value, 32);
      }
    }
  }

  // ---------- the leaves ----------

  function Leaves(t: Tree): multiset<Pattern> {
    match t
    case Leaf(p) => multiset{p}
    case Group(_, cases) => LeavesCases(cases)
  }

  function LeavesCases(cs: Cases): multiset<Pattern> {
    match cs
    case Default => multiset{}
    case Case(_, node, rest) => Leaves(node) + LeavesCases(rest)
  }

  /** Conservation: the leaves are the rows of the table, each exactly as often as it occurs. */
  lemma {:induction false} LeavesAreRows(ps: seq<Pattern>, limit: nat, t: Tree)
    requires Build(ps, limit) == Some(t)
    ensures Leaves(t) == multiset(ps)
    decreases limit, 1, 0
  {
    hide And, Common, BuildCases, LeavesCases, Keys;
    var m, keys := Common(ps), Keys(ps, Common(ps));
    KeysDistinct(ps, m);
    forall p ensures LeavesCases(t.cases)[p] == multiset(ps)[p] {
      CasesLeaves(ps, m, keys, limit, t.cases, p);
      RowHasKey(ps, m, p);
    }
  }

  lemma RowHasKey(ps: seq<Pattern>, m: Word, p: Pattern)
    ensures And(p.fb, m) !in Keys(ps, m) ==> multiset(ps)[p] == 0
  {
    hide And, Keys, Bucket;
    KeysMember(ps, m, And(p.fb, m));
    BucketMember(ps, m, And(p.fb, m), p);
    assert p in ps <==> p in multiset(ps);
  }

  lemma {:induction false} CasesLeaves(ps: seq<Pattern>, m: Word, keys: seq<Word>, limit: nat, cs: Cases, p: Pattern)
    requires limit > 0 && Distinct(keys) && BuildCases(ps, m, keys, limit) == Some(cs)
    ensures LeavesCases(cs)[p] == if And(p.fb, m) in keys then multiset(ps)[p] else 0
    decreases limit, 0, |keys|
  {
    hide And, Bucket, Build;
    if keys != [] {
      var b := Bucket(ps, m, keys[0]);
      NodeLeaves(b, limit, cs.node);
      BucketCount(ps, m, keys[0], p);
      CasesLeaves(ps, m, keys[1..], limit, cs.rest, p);
    }
  }

  lemma {:induction false} NodeLeaves(b: seq<Pattern>, limit: nat, node: Tree)
    requires limit > 0 && BuildNode(b, limit) == Some(node)
    ensures Leaves(node) == multiset(b)
    decreases limit, 0, 0
  {
    hide And, Build;
    if |b| > 1 {
      LeavesAreRows(b, limit - 1, node);
    } else {
      assert b == [b[0]];
    }
  }
}
