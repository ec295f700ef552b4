/** The recursive grouping of generate_tree.py: construction, termination, lookup. */
module DecisionTree {
  import opened Patterns

  /** A dictionary entry is a pattern (a leaf) or a nested group. The cases keep dictionary order;
      `Default` closes the list, as `default:` closes the emitted switch. */
  datatype Tree = Leaf(p: Pattern) | Group(mask: Word, cases: Cases)
  datatype Cases = Default | Case(val: Word, node: Tree, rest: Cases)

  /** The recursion as written: nothing checks that a group is smaller than its parent, so only the
      interpreter's recursion limit stops it. `None` is that RecursionError. */
  function Build(ps: seq<Pattern>, limit: nat): Option<Tree>
    decreases limit, 1, 0
  {
    if limit == 0 then None
    else
      var m := Common(ps);
      match BuildCases(ps, m, Keys(ps, m), limit)
      case None => None
      case Some(cases) => Some(Group(m, cases))
  }

  /** One dictionary entry: a list of two or more patterns becomes a group, a single pattern a leaf. */
  function BuildNode(b: seq<Pattern>, limit: nat): Option<Tree>
    requires limit > 0
    decreases limit, 0, 0
  {
    if |b| > 1 then Build(b, limit - 1)
    else if |b| == 1 then Some(Leaf(b[0]))
    else None
  }

  function BuildCases(ps: seq<Pattern>, m: Word, keys: seq<Word>, limit: nat): Option<Cases>
    requires limit > 0
    decreases limit, 0, |keys| + 1
  {
    if keys == [] then Some(Default)
    else
      match BuildNode(Bucket(ps, m, keys[0]), limit)
      case None => None
      case Some(node) =>
        match BuildCases(ps, m, keys[1..], limit)
        case None => None
        case Some(rest) => Some(Case(keys[0], node, rest))
  }

  // ---------- termination ----------

  /** The patterns take at least two values under the AND of their own masks. */
  ghost predicate Splits(qs: seq<Pattern>) {
    exists i :: 0 < i < |qs| && Differ(qs[i], qs[0], Common(qs))
  }

  predicate Differ(p: Pattern, q: Pattern, m: Word) {
    And(p.fb, m) != And(q.fb, m)
  }

  /** Every sub-collection of two or more patterns splits. */
  ghost predicate Separable(ps: seq<Pattern>) {
    forall qs: seq<Pattern> :: multiset(qs) <= multiset(ps) && |qs| >= 2 ==> Splits(qs)
  }

  /** The recursion ends, given enough stack. */
  ghost predicate Terminates(ps: seq<Pattern>) {
    exists limit: nat :: Build(ps, limit).Some?
  }

  lemma SubMember(qs: seq<Pattern>, ps: seq<Pattern>, q: Pattern)
    requires multiset(qs) <= multiset(ps) && q in qs
    ensures q in ps
  {
    hide And;
    assert q in multiset(qs);
    assert q in multiset(ps);
  }

  lemma SubLength(qs: seq<Pattern>, ps: seq<Pattern>)
    requires multiset(qs) <= multiset(ps)
    ensures |qs| <= |ps|
  {
    hide And;
    assert |multiset(qs)| + |multiset(ps) - multiset(qs)| == |multiset(ps)|;
  }

  lemma SeparableSub(qs: seq<Pattern>, ps: seq<Pattern>)
    requires Separable(ps) && multiset(qs) <= multiset(ps)
    ensures Separable(qs)
  {}

  /** The cases of a built node are built from the buckets of its keys. */
  lemma {:induction false} CasesBuilt(ps: seq<Pattern>, m: Word, keys: seq<Word>, limit: nat, v: Word)
    requires limit > 0 && BuildCases(ps, m, keys, limit).Some? && v in keys
    ensures BuildNode(Bucket(ps, m, v), limit).Some?
  {
    hide And;
    if v != keys[0] {
      CasesBuilt(ps, m, keys[1..], limit, v);
    }
  }

  lemma {:induction false} CasesBuild(ps: seq<Pattern>, m: Word, keys: seq<Word>, limit: nat)
    requires limit > 0
    requires forall v | v in keys :: BuildNode(Bucket(ps, m, v), limit).Some?
    ensures BuildCases(ps, m, keys, limit).Some?
  {
    hide And;
    if keys != [] {
      CasesBuild(ps, m, keys[1..], limit);
    }
  }

  /** A sub-collection that lies in one bucket of `ps` is a sub-collection of that bucket. */
  lemma SubBucket(qs: seq<Pattern>, ps: seq<Pattern>, m: Word, v: Word)
    requires multiset(qs) <= multiset(ps)
    requires forall q | q in qs :: Takes(q, m, v)
    ensures multiset(qs) <= multiset(Bucket(ps, m, v))
  {
    hide And;
    forall q ensures multiset(qs)[q] <= multiset(Bucket(ps, m, v))[q] {
      BucketCount(ps, m, v, q);
      if q !in qs {
        assert q !in multiset(qs);
      }
    }
  }

  /** A finished recursion has finished, one level deeper, on every bucket it recursed into. */
  lemma BucketBuilt(ps: seq<Pattern>, limit: nat, v: Word)
    requires Build(ps, limit).Some? && |Bucket(ps, Common(ps), v)| > 1
    ensures limit > 0 && Build(Bucket(ps, Common(ps), v), limit - 1).Some?
  {
    hide And;
    KeysMember(ps, Common(ps), v);
    CasesBuilt(ps, Common(ps), Keys(ps, Common(ps)), limit, v);
  }

  /** Patterns that differ under the common mask of a larger collection differ under their own. */
  lemma DifferInside(qs: seq<Pattern>, ps: seq<Pattern>, p: Pattern, q: Pattern)
    requires multiset(qs) <= multiset(ps) && Differ(p, q, Common(ps))
    ensures Differ(p, q, Common(qs))
  {
    hide And;
    forall r | r in qs ensures r in ps {
      SubMember(qs, ps, r);
    }
    CommonAntitone(ps, qs);
    AgreeWithin(Common(ps), Common(qs), p.fb, q.fb);
  }

  /** A sub-collection that does not split lies within one bucket. */
  lemma UnsplitInBucket(ps: seq<Pattern>, qs: seq<Pattern>)
    requires multiset(qs) <= multiset(ps) && |qs| >= 2 && !Splits(qs)
    ensures multiset(qs) <= multiset(Bucket(ps, Common(ps), And(qs[0].fb, Common(ps))))
    ensures |Bucket(ps, Common(ps), And(qs[0].fb, Common(ps)))| > 1
  {
    hide And, Common;
    var v := And(qs[0].fb, Common(ps));
    forall i | 0 <= i < |qs| ensures Takes(qs[i], Common(ps), v) {
      if Differ(qs[i], qs[0], Common(ps)) {
        DifferInside(qs, ps, qs[i], qs[0]);
      }
    }
    SubBucket(qs, ps, Common(ps), v);
    SubLength(qs, Bucket(ps, Common(ps), v));
  }

  /** If the recursion ends, every sub-collection splits. */
  lemma {:induction false} BuiltSplits(ps: seq<Pattern>, limit: nat, qs: seq<Pattern>)
    requires Build(ps, limit).Some?
    requires multiset(qs) <= multiset(ps) && |qs| >= 2
    ensures Splits(qs)
    decreases limit
  {
    hide And;
    hide Common, Bucket, Build;
    if !Splits(qs) {
      UnsplitInBucket(ps, qs);
      BucketBuilt(ps, limit, And(qs[0].fb, Common(ps)));
      BuiltSplits(Bucket(ps, Common(ps), And(qs[0].fb, Common(ps))), limit - 1, qs);
    }
  }

  lemma SeparableSplits(ps: seq<Pattern>)
    requires Separable(ps) && |ps| >= 2
    ensures Splits(ps)
  {
    hide And;
    assert multiset(ps) <= multiset(ps);
  }

  /** No bucket of a list that splits holds the whole list. */
  lemma SplitShrinks(ps: seq<Pattern>, v: Word)
    requires Splits(ps)
    ensures |Bucket(ps, Common(ps), v)| < |ps|
  {
    hide And;
    var m := Common(ps);
    if |Bucket(ps, m, v)| == |ps| {
      FullBucket(ps, m, v);
      var i :| 0 < i < |ps| && Differ(ps[i], ps[0], m);
      BucketMember(ps, m, v, ps[i]);
      BucketMember(ps, m, v, ps[0]);
    }
  }

  /** In a separable list the recursion goes on with separable, strictly shorter lists. */
  lemma SeparableBucket(ps: seq<Pattern>, v: Word)
    requires Separable(ps)
    ensures Separable(Bucket(ps, Common(ps), v))
    ensures |ps| >= 2 ==> |Bucket(ps, Common(ps), v)| < |ps|
  {
    hide And;
    BucketSub(ps, Common(ps), v);
    SeparableSub(Bucket(ps, Common(ps), v), ps);
    if |ps| >= 2 {
      SeparableSplits(ps);
      SplitShrinks(ps, v);
    }
  }

  /** Stack depth that suffices by size: one level, then at most one more per further pattern. */
  function SizeDepth(ps: seq<Pattern>): nat {
    if |ps| <= 2 then 1 else |ps| - 1
  }

  lemma {:induction false} SeparableBuildsBySize(ps: seq<Pattern>, limit: nat)
    requires Separable(ps) && limit >= SizeDepth(ps)
    ensures Build(ps, limit).Some?
    decreases limit, 1
  {
    hide And;
    forall v | v in Keys(ps, Common(ps)) ensures BuildNode(Bucket(ps, Common(ps), v), limit).Some? {
      SeparableNodeBySize(ps, v, limit);
    }
    CasesBuild(ps, Common(ps), Keys(ps, Common(ps)), limit);
  }

  lemma {:induction false} SeparableNodeBySize(ps: seq<Pattern>, v: Word, limit: nat)
    requires Separable(ps) && limit >= SizeDepth(ps) && v in Keys(ps, Common(ps))
    ensures BuildNode(Bucket(ps, Common(ps), v), limit).Some?
    decreases limit, 0
  {
    hide And;
    hide Bucket, Common, Keys;
    KeysMember(ps, Common(ps), v);
    SeparableBucket(ps, v);
    if |Bucket(ps, Common(ps), v)| > 1 {
      SeparableBuildsBySize(Bucket(ps, Common(ps), v), limit - 1);
    }
  }

  /** The exact termination condition, with the number of recursion levels that is always enough. */
  lemma TerminatesIffSeparable(ps: seq<Pattern>)
    ensures Terminates(ps) <==> Separable(ps)
    ensures Terminates(ps) <==> Build(ps, SizeDepth(ps)).Some?
  {
    hide And;
    if Terminates(ps) {
      var limit: nat :| Build(ps, limit).Some?;
      forall qs: seq<Pattern> | multiset(qs) <= multiset(ps) && |qs| >= 2 ensures Splits(qs) {
        BuiltSplits(ps, limit, qs);
      }
    }
    if Separable(ps) {
      SeparableBuildsBySize(ps, SizeDepth(ps));
    }
  }

  /** Every sub-collection of a table that builds also builds. */
  lemma SubTableTerminates(qs: seq<Pattern>, ps: seq<Pattern>)
    requires Terminates(ps) && multiset(qs) <= multiset(ps)
    ensures Terminates(qs)
  {
    hide And;
    TerminatesIffSeparable(ps);
    SeparableSub(qs, ps);
    TerminatesIffSeparable(qs);
  }

  /** More stack never changes the tree. */
  lemma {:induction false} BuildMonotone(ps: seq<Pattern>, limit: nat, more: nat)
    requires limit <= more && Build(ps, limit).Some?
    ensures Build(ps, more) == Build(ps, limit)
    decreases limit, 1, 0
  {
    hide And;
    CasesMonotone(ps, Common(ps), Keys(ps, Common(ps)), limit, more);
  }

  lemma {:induction false} CasesMonotone(ps: seq<Pattern>, m: Word, keys: seq<Word>, limit: nat, more: nat)
    requires 0 < limit <= more && BuildCases(ps, m, keys, limit).Some?
    ensures BuildCases(ps, m, keys, more) == BuildCases(ps, m, keys, limit)
    decreases limit, 0, |keys|
  {
    hide And;
    if keys != [] {
      var b := Bucket(ps, m, keys[0]);
      if |b| > 1 {
        BuildMonotone(b, limit - 1, more - 1);
      }
      CasesMonotone(ps, m, keys[1..], limit, more);
    }
  }

  lemma ThreeDisjoint(w: Word)
    ensures !(And(w, 6) == 2 && And(w, 3) == 1) && !(And(w, 6) == 2 && And(w, 5) == 4)
    ensures !(And(w, 3) == 1 && And(w, 5) == 4)
  {}

  /** Three pairwise disjoint rows that the generator cannot separate: their masks have no common bit. */
  lemma DisjointTableMayNotTerminate()
    ensures var ps := [Pattern(6, 2, "a"), Pattern(3, 1, "b"), Pattern(5, 4, "c")];
            && (forall w, i, j :: 0 <= i < j < 3 ==> !(Matches(ps[i], w) && Matches(ps[j], w)))
            && !Terminates(ps)
  {
    var ps := [Pattern(6, 2, "a"), Pattern(3, 1, "b"), Pattern(5, 4, "c")];
    assert ps[..2] == [ps[0], ps[1]];
    assert ps[..2][..1] == [ps[0]];
    assert ps[..2][..1][..0] == [];
    assert Common(ps) == 0;
    assert !Splits(ps);
    hide Common, Splits, And;
    forall w, i, j | 0 <= i < j < 3 ensures !(Matches(ps[i], w) && Matches(ps[j], w)) {
      ThreeDisjoint(w);
    }
    assert multiset(ps) <= multiset(ps) && |ps| >= 2;
    TerminatesIffSeparable(ps);
  }
}
