/** The generator's recursion on a linked list of rows: the same tree, in a form that can be evaluated
    on a concrete table. */
module RowList {
  import opened Patterns
  import opened DecisionTree

  datatype Rows = NoRows | Row(p: Pattern, rest: Rows)
  datatype Values = NoValues | Val(v: Word, rest: Values)

  function ToSeq(l: Rows): seq<Pattern> {
    match l
    case NoRows => []
    case Row(p, rest) => [p] + ToSeq(rest)
  }

  function ValueSeq(vs: Values): seq<Word> {
    match vs
    case NoValues => []
    case Val(v, rest) => [v] + ValueSeq(rest)
  }

  function CommonL(l: Rows): Word {
    match l
    case NoRows => 0xFFFFFFFF
    case Row(p, rest) => And(p.mask, CommonL(rest))
  }

  function BucketL(l: Rows, m: Word, v: Word): Rows {
    match l
    case NoRows => NoRows
    case Row(p, rest) => if Takes(p, m, v) then Row(p, BucketL(rest, m, v)) else BucketL(rest, m, v)
  }

  function WithoutL(vs: Values, v: Word): Values {
    match vs
    case NoValues => NoValues
    case Val(u, rest) => if u == v then WithoutL(rest, v) else Val(u, WithoutL(rest, v))
  }

  function KeysL(l: Rows, m: Word): Values {
    match l
    case NoRows => NoValues
    case Row(p, rest) => Val(And(p.fb, m), WithoutL(KeysL(rest, m), And(p.fb, m)))
  }

  function BuildL(l: Rows, limit: nat): Option<Tree>
    decreases limit, 1, 0
  {
    if limit == 0 then None
    else
      match CasesL(l, CommonL(l), KeysL(l, CommonL(l)), limit)
      case None => None
      case Some(cases) => Some(Group(CommonL(l), cases))
  }

  function NodeL(b: Rows, limit: nat): Option<Tree>
    requires limit > 0
    decreases limit, 0, 0
  {
    match b
    case NoRows => None
    case Row(p, NoRows) => Some(Leaf(p))
    case Row(_, Row(_, _)) => BuildL(b, limit - 1)
  }

  function CasesL(l: Rows, m: Word, vs: Values, limit: nat): Option<Cases>
    requires limit > 0
    decreases limit, 0, |ValueSeq(vs)| + 1
  {
    match vs
    case NoValues => Some(Default)
    case Val(v, rest) =>
      match NodeL(BucketL(l, m, v), limit)
      case None => None
      case Some(node) =>
        match CasesL(l, m, rest, limit)
        case None => None
        case Some(cases) => Some(Case(v, node, cases))
  }

  // ---------- the list computes what the sequence computes ----------

  lemma {:induction false} CommonCons(p: Pattern, s: seq<Pattern>)
    ensures Common([p] + s) == And(p.mask, Common(s))
  {
    hide And;
    if s == [] {
      assert ([p] + s)[..0] == [];
      AndOnes(p.mask);
    } else {
      var before, last := s[..|s| - 1], s[|s| - 1];
      assert ([p] + s)[..|s|] == [p] + before;
      CommonCons(p, before);
      AndAssociates(p.mask, Common(before), last.mask);
    }
  }

  lemma AndOnes(x: Word)
    ensures And(0xFFFFFFFF, x) == x == And(x, 0xFFFFFFFF)
  {}

  lemma AndAssociates(x: Word, y: Word, z: Word)
    ensures And(And(x, y), z) == And(x, And(y, z))
  {}

  lemma {:induction false} BucketCons(p: Pattern, s: seq<Pattern>, m: Word, v: Word)
    ensures Bucket([p] + s, m, v) == (if Takes(p, m, v) then [p] else []) + Bucket(s, m, v)
  {
    hide And;
    if s == [] {
      assert ([p] + s)[..0] == [];
    } else {
      assert ([p] + s)[..|s|] == [p] + s[..|s| - 1];
      BucketCons(p, s[..|s| - 1], m, v);
    }
  }

  function Without(vs: seq<Word>, v: Word): seq<Word> {
    if vs == [] then []
    else if vs[|vs| - 1] == v then Without(vs[..|vs| - 1], v)
    else Without(vs[..|vs| - 1], v) + [vs[|vs| - 1]]
  }

  lemma {:induction false} WithoutMember(vs: seq<Word>, v: Word, u: Word)
    ensures u in Without(vs, v) <==> u in vs && u != v
  {
    if vs != [] {
      WithoutMember(vs[..|vs| - 1], v, u);
    }
  }

  lemma {:induction false} WithoutCons(u: Word, vs: seq<Word>, v: Word)
    ensures Without([u] + vs, v) == (if u == v then [] else [u]) + Without(vs, v)
  {
    if vs == [] {
      assert ([u] + vs)[..0] == [];
    } else {
      assert ([u] + vs)[..|vs|] == [u] + vs[..|vs| - 1];
      WithoutCons(u, vs[..|vs| - 1], v);
    }
  }

  lemma WithoutLast(vs: seq<Word>, u: Word, v: Word)
    ensures Without(vs + [u], v) == Without(vs, v) + (if u == v then [] else [u])
  {
    assert (vs + [u])[..|vs|] == vs;
  }

  lemma KeysLast(s: seq<Pattern>, p: Pattern, m: Word)
    ensures var v := And(p.fb, m);
            Keys(s + [p], m) == if v in Keys(s, m) then Keys(s, m) else Keys(s, m) + [v]
  {
    hide And;
    assert (s + [p])[..|s|] == s;
  }

  /** One more value at the end, with `v` moved to the front. */
  lemma MoreKeys(keys: seq<Word>, v: Word, u: Word)
    ensures var all := [v] + Without(keys, v);
            var more := if u in keys then keys else keys + [u];
            (if u in all then all else all + [u]) == [v] + Without(more, v)
  {
    hide Without;
    WithoutMember(keys, v, u);
    WithoutLast(keys, u, v);
  }

  lemma {:induction false} KeysCons(p: Pattern, s: seq<Pattern>, m: Word)
    ensures Keys([p] + s, m) == [And(p.fb, m)] + Without(Keys(s, m), And(p.fb, m))
  {
    hide And, Without;
    var v := And(p.fb, m);
    if s == [] {
      assert ([p] + s)[..0] == [];
      WithoutEmpty(v);
    } else {
      var before, last := s[..|s| - 1], s[|s| - 1];
      assert before + [last] == s && [p] + before + [last] == [p] + s;
      KeysCons(p, before, m);
      KeysLast(before, last, m);
      KeysLast([p] + before, last, m);
      MoreKeys(Keys(before, m), v, And(last.fb, m));
    }
  }

  lemma WithoutEmpty(v: Word)
    ensures Without([], v) == []
  {}

  lemma {:induction false} ListCommon(l: Rows)
    ensures Common(ToSeq(l)) == CommonL(l)
  {
    hide And;
    if l.Row? {
      ListCommon(l.rest);
      CommonCons(l.p, ToSeq(l.rest));
    }
  }

  lemma {:induction false} ListBucket(l: Rows, m: Word, v: Word)
    ensures Bucket(ToSeq(l), m, v) == ToSeq(BucketL(l, m, v))
  {
    hide And, Bucket;
    if l.Row? {
      ListBucket(l.rest, m, v);
      BucketCons(l.p, ToSeq(l.rest), m, v);
    } else {
      EmptyBucket(m, v);
    }
  }

  lemma EmptyBucket(m: Word, v: Word)
    ensures Bucket([], m, v) == []
  {}

  lemma {:induction false} ListWithout(vs: Values, v: Word)
    ensures Without(ValueSeq(vs), v) == ValueSeq(WithoutL(vs, v))
  {
    if vs.Val? {
      ListWithout(vs.rest, v);
      WithoutCons(vs.v, ValueSeq(vs.rest), v);
    }
  }

  lemma {:induction false} ListKeys(l: Rows, m: Word)
    ensures Keys(ToSeq(l), m) == ValueSeq(KeysL(l, m))
  {
    hide And;
    if l.Row? {
      ListKeys(l.rest, m);
      KeysCons(l.p, ToSeq(l.rest), m);
      ListWithout(KeysL(l.rest, m), And(l.p.fb, m));
    }
  }

  /** The recursion on the list builds the tree the generator builds from the sequence. */
  lemma {:induction false} ListBuild(l: Rows, limit: nat)
    ensures Build(ToSeq(l), limit) == BuildL(l, limit)
    decreases limit, 1, 0
  {
    hide And, Common, CommonL, Keys, KeysL, ToSeq;
    if limit > 0 {
      ListCommon(l);
      ListKeys(l, CommonL(l));
      ListCases(l, CommonL(l), KeysL(l, CommonL(l)), limit);
    }
  }

  lemma {:induction false} ListNode(b: Rows, limit: nat)
    requires limit > 0
    ensures BuildNode(ToSeq(b), limit) == NodeL(b, limit)
    decreases limit, 0, 0
  {
    hide And, Build, BuildL;
    if b.Row? && b.rest.Row? {
      ListBuild(b, limit - 1);
    }
  }

  lemma {:induction false} ListCases(l: Rows, m: Word, vs: Values, limit: nat)
    requires limit > 0
    ensures BuildCases(ToSeq(l), m, ValueSeq(vs), limit) == CasesL(l, m, vs, limit)
    decreases limit, 0, |ValueSeq(vs)| + 1
  {
    hide And, Bucket, BucketL, BuildNode, NodeL, ToSeq;
    if vs.Val? {
      ListBucket(l, m, vs.v);
      ListNode(BucketL(l, m, vs.v), limit);
      ListCases(l, m, vs.rest, limit);
      assert ValueSeq(vs)[1..] == ValueSeq(vs.rest);
    }
  }

  /** One more case in front: the bucket of its value has two or more rows. */
  lemma GroupCase(l: Rows, m: Word, v: Word, rest: Values, limit: nat, b: Rows, node: Tree, cases: Cases)
    requires limit > 0 && BucketL(l, m, v) == b && b.Row? && b.rest.Row?
    requires BuildL(b, limit - 1) == Some(node) && CasesL(l, m, rest, limit) == Some(cases)
    ensures CasesL(l, m, Val(v, rest), limit) == Some(Case(v, node, cases))
  {
    hide And, BucketL, BuildL;
  }

  // ---------- a long list in pieces ----------

  function Cat(a: Rows, b: Rows): Rows {
    match a
    case NoRows => b
    case Row(p, rest) => Row(p, Cat(rest, b))
  }

  function CatV(a: Values, b: Values): Values {
    match a
    case NoValues => b
    case Val(v, rest) => Val(v, CatV(rest, b))
  }

  function WithoutAll(vs: Values, us: Values): Values
    decreases us
  {
    match us
    case NoValues => vs
    case Val(u, rest) => WithoutAll(WithoutL(vs, u), rest)
  }

  lemma {:induction false} CommonCat(a: Rows, b: Rows)
    ensures CommonL(Cat(a, b)) == And(CommonL(a), CommonL(b))
  {
    hide And;
    match a
    case NoRows =>
      AndOnes(CommonL(b));
    case Row(p, rest) =>
      CommonCat(rest, b);
      AndAssociates(p.mask, CommonL(rest), CommonL(b));
  }

  lemma {:induction false} BucketCat(a: Rows, b: Rows, m: Word, v: Word)
    ensures BucketL(Cat(a, b), m, v) == Cat(BucketL(a, m, v), BucketL(b, m, v))
  {
    hide And;
    if a.Row? {
      BucketCat(a.rest, b, m, v);
    }
  }

  lemma {:induction false} WithoutCommutes(vs: Values, u: Word, v: Word)
    ensures WithoutL(WithoutL(vs, u), v) == WithoutL(WithoutL(vs, v), u)
    ensures WithoutL(WithoutL(vs, v), v) == WithoutL(vs, v)
  {
    if vs.Val? {
      WithoutCommutes(vs.rest, u, v);
    }
  }

  lemma {:induction false} WithoutCatV(a: Values, b: Values, v: Word)
    ensures WithoutL(CatV(a, b), v) == CatV(WithoutL(a, v), WithoutL(b, v))
  {
    if a.Val? {
      WithoutCatV(a.rest, b, v);
    }
  }

  lemma {:induction false} WithoutAllCommutes(vs: Values, us: Values, v: Word)
    ensures WithoutL(WithoutAll(vs, us), v) == WithoutAll(WithoutL(vs, v), WithoutL(us, v))
    decreases us
  {
    if us.Val? {
      WithoutAllCommutes(WithoutL(vs, us.v), us.rest, v);
      WithoutCommutes(vs, us.v, v);
    }
  }

  lemma {:induction false} KeysCat(a: Rows, b: Rows, m: Word)
    ensures KeysL(Cat(a, b), m) == CatV(KeysL(a, m), WithoutAll(KeysL(b, m), KeysL(a, m)))
  {
    hide And;
    if a.Row? {
      var v := And(a.p.fb, m);
      KeysCat(a.rest, b, m);
      WithoutCatV(KeysL(a.rest, m), WithoutAll(KeysL(b, m), KeysL(a.rest, m)), v);
      WithoutAllCommutes(KeysL(b, m), KeysL(a.rest, m), v);
    }
  }
}
