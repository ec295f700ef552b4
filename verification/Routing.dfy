/** What the decision tree answers: lookup, the exact set of words each pattern receives, and the
    properties that follow for the table as a whole. */
module Routing {
  import opened Patterns
  import opened DecisionTree

  /** The emitted switches: compare the masked word with the case values, top to bottom. */
  function Lookup(t: Tree, w: Word): Option<Pattern> {
    match t
    case Leaf(p) => Some(p)
    case Group(m, cases) => LookupCases(cases, And(w, m), w)
  }

  function LookupCases(cs: Cases, v: Word, w: Word): Option<Pattern> {
    match cs
    case Default => None
    case Case(val, node, rest) => if val == v then Lookup(node, w) else LookupCases(rest, v, w)
  }

  /** The same answer read off the pattern list, without a tree. */
  ghost function Route(ps: seq<Pattern>, w: Word): Option<Pattern>
    decreases |ps|
  {
    var b := Bucket(ps, Common(ps), And(w, Common(ps)));
    if |b| == 0 then None
    else if |b| == 1 then Some(b[0])
    else if |b| < |ps| then Route(b, w)
    else None
  }

  /** The mask of the innermost switch above the leaf of `p`. */
  ghost function PathMask(ps: seq<Pattern>, p: Pattern): Word
    decreases |ps|
  {
    var b := Bucket(ps, Common(ps), And(p.fb, Common(ps)));
    if 1 < |b| < |ps| then PathMask(b, p) else Common(ps)
  }

  /** The table searched row by row. */
  function LinearScan(ps: seq<Pattern>, w: Word): Option<Pattern> {
    if ps == [] then None
    else if Matches(ps[0], w) then Some(ps[0])
    else LinearScan(ps[1..], w)
  }

  // ---------- lookup in a built tree is routing ----------

  lemma {:induction false} CasesLookup(ps: seq<Pattern>, m: Word, keys: seq<Word>, limit: nat, cs: Cases, v: Word,
                                       w: Word)
    requires limit > 0 && BuildCases(ps, m, keys, limit) == Some(cs)
    ensures v !in keys ==> LookupCases(cs, v, w) == None
    ensures v in keys ==> BuildNode(Bucket(ps, m, v), limit).Some?
                          && LookupCases(cs, v, w) == Lookup(BuildNode(Bucket(ps, m, v), limit).value, w)
  {
    hide And;
    hide Bucket, BuildNode, Lookup;
    if keys != [] && v != keys[0] {
      CasesLookup(ps, m, keys[1..], limit, cs.rest, v, w);
    }
  }

  lemma BucketLookup(ps: seq<Pattern>, limit: nat, t: Tree, w: Word)
    requires limit > 0 && Build(ps, limit) == Some(t)
    ensures var b := Bucket(ps, Common(ps), And(w, Common(ps)));
            if b == [] then Lookup(t, w) == None
            else BuildNode(b, limit).Some? && Lookup(t, w) == Lookup(BuildNode(b, limit).value, w)
  {
    hide And;
    hide Bucket, BuildNode, Common, Keys;
    KeysMember(ps, Common(ps), And(w, Common(ps)));
    CasesLookup(ps, Common(ps), Keys(ps, Common(ps)), limit, t.cases, And(w, Common(ps)), w);
  }

  lemma {:induction false} LookupIsRoute(ps: seq<Pattern>, limit: nat, t: Tree, w: Word)
    requires Build(ps, limit) == Some(t)
    ensures Lookup(t, w) == Route(ps, w)
    decreases limit
  {
    hide And;
    hide Common, Keys, Bucket, Lookup, Build, Separable;
    assert limit > 0 by { BuildNeedsStack(ps, limit); }
    BucketLookup(ps, limit, t, w);
    var b := Bucket(ps, Common(ps), And(w, Common(ps)));
    if |b| > 1 {
      TerminatesIffSeparable(ps);
      assert Terminates(ps);
      SeparableBucket(ps, And(w, Common(ps)));
      LookupIsRoute(b, limit - 1, BuildNode(b, limit).value, w);
    } else if |b| == 1 {
      LookupLeaf(b[0], w);
    }
  }

  lemma BuildNeedsStack(ps: seq<Pattern>, limit: nat)
    requires Build(ps, limit).Some?
    ensures limit > 0
  {}

  lemma LookupLeaf(p: Pattern, w: Word)
    ensures Lookup(Leaf(p), w) == Some(p)
  {}

  // ---------- which words reach which pattern ----------

  lemma {:induction false} RouteMember(ps: seq<Pattern>, w: Word)
    ensures Route(ps, w).Some? ==>
              Route(ps, w).value in ps && Takes(Route(ps, w).value, Common(ps), And(w, Common(ps)))
    decreases |ps|
  {
    hide And, Common, Bucket, Takes;
    var b := Bucket(ps, Common(ps), And(w, Common(ps)));
    if 1 < |b| < |ps| {
      RouteMember(b, w);
    }
    if Route(ps, w).Some? {
      BucketMember(ps, Common(ps), And(w, Common(ps)), Route(ps, w).value);
    }
  }

  /** The innermost mask contains every mask on the path and lies within the pattern's own mask. */
  lemma {:induction false} PathMaskBetween(ps: seq<Pattern>, p: Pattern)
    requires p in ps
    ensures Within(Common(ps), PathMask(ps, p)) && Within(PathMask(ps, p), p.mask)
    decreases |ps|
  {
    hide And, Common, Bucket, Within;
    var m := Common(ps);
    var b := Bucket(ps, m, And(p.fb, m));
    if 1 < |b| < |ps| {
      BucketMember(ps, m, And(p.fb, m), p);
      PathMaskBetween(b, p);
      forall q | q in b ensures q in ps {
        BucketMember(ps, m, And(p.fb, m), q);
      }
      CommonAntitone(ps, b);
      WithinTransitive(m, Common(b), PathMask(b, p));
    } else {
      CommonWithinEach(ps, p);
      WithinReflexive(m);
    }
  }

  lemma WithinReflexive(m: Word)
    ensures Within(m, m)
  {}

  /** Exactly the words that agree with `p` on every bit tested along its path are routed to `p`. */
  lemma {:induction false} RouteExact(ps: seq<Pattern>, w: Word, p: Pattern)
    requires Separable(ps) && p in ps
    ensures Route(ps, w) == Some(p) <==> And(w, PathMask(ps, p)) == And(p.fb, PathMask(ps, p))
    decreases |ps|
  {
    hide And, Common, Bucket, Within, Separable;
    var m := Common(ps);
    if And(w, m) == And(p.fb, m) {
      var b := Bucket(ps, m, And(w, m));
      BucketMember(ps, m, And(w, m), p);
      if |b| > 1 {
        SeparableBucket(ps, And(w, m));
        RouteExact(b, w, p);
      }
    } else {
      RouteMember(ps, w);
      PathMaskBetween(ps, p);
      AgreeWithin(m, PathMask(ps, p), w, p.fb);
    }
  }

  lemma MatchIsRouted(ps: seq<Pattern>, w: Word, p: Pattern)
    requires Separable(ps) && p in ps && Matches(p, w)
    ensures Route(ps, w) == Some(p)
  {
    hide And, Separable, Route, PathMask;
    PathMaskBetween(ps, p);
    AndRegroup(w, p.mask, PathMask(ps, p));
    RouteExact(ps, w, p);
  }

  lemma {:induction false} ScanFinds(ps: seq<Pattern>, w: Word)
    ensures LinearScan(ps, w).Some? ==> LinearScan(ps, w).value in ps && Matches(LinearScan(ps, w).value, w)
    ensures LinearScan(ps, w).None? ==> forall p | p in ps :: !Matches(p, w)
  {
    hide And;
    if ps != [] {
      ScanFinds(ps[1..], w);
    }
  }

  /** Meaning preservation: the tree answers what a search of the table answers on every word that
      matches a row, and it reaches `default` only for words that match no row. */
  lemma MeaningPreserved(ps: seq<Pattern>, limit: nat, t: Tree, w: Word)
    requires Build(ps, limit) == Some(t)
    ensures forall p | p in ps && Matches(p, w) :: Lookup(t, w) == Some(p)
    ensures Lookup(t, w) == None ==> forall p | p in ps :: !Matches(p, w)
    ensures LinearScan(ps, w).Some? ==> Lookup(t, w) == LinearScan(ps, w)
  {
    hide And, Separable, Build, Lookup, Route, LinearScan, Matches;
    LookupIsRoute(ps, limit, t, w);
    BuiltIsSeparable(ps, limit);
    forall p | p in ps && Matches(p, w) ensures Route(ps, w) == Some(p) {
      MatchIsRouted(ps, w, p);
    }
    ScanFinds(ps, w);
  }

  lemma BuiltIsSeparable(ps: seq<Pattern>, limit: nat)
    requires Build(ps, limit).Some?
    ensures Separable(ps)
  {
    hide Build, Separable;
    TerminatesIffSeparable(ps);
  }

  /** The words dispatched to `p`, exactly. */
  lemma DispatchedWords(ps: seq<Pattern>, limit: nat, t: Tree, w: Word, p: Pattern)
    requires Build(ps, limit) == Some(t) && p in ps
    ensures Lookup(t, w) == Some(p) <==> And(w, PathMask(ps, p)) == And(p.fb, PathMask(ps, p))
  {
    hide And, Separable, Build, Lookup, Route, PathMask;
    LookupIsRoute(ps, limit, t, w);
    BuiltIsSeparable(ps, limit);
    RouteExact(ps, w, p);
  }

  /** A table that builds is pairwise disjoint; in particular no row is repeated. */
  lemma BuiltIsDisjoint(ps: seq<Pattern>, limit: nat, i: nat, j: nat, w: Word)
    requires Build(ps, limit).Some? && i < j < |ps|
    ensures !(Matches(ps[i], w) && Matches(ps[j], w))
  {
    hide And, Build, Route, Matches, Separable;
    BuiltIsSeparable(ps, limit);
    if Matches(ps[i], w) && Matches(ps[j], w) {
      MatchIsRouted(ps, w, ps[i]);
      MatchIsRouted(ps, w, ps[j]);
      RepeatNotSeparable(ps, i, j);
    }
  }

  lemma RepeatNotSeparable(ps: seq<Pattern>, i: nat, j: nat)
    requires i < j < |ps| && ps[i] == ps[j]
    ensures !Separable(ps)
  {
    hide And, Common;
    var p := ps[i];
    assert ps == ps[..i] + [p] + ps[i + 1..j] + [p] + ps[j + 1..];
    var qs := [p, p];
    assert multiset(qs) <= multiset(ps);
    assert !Splits(qs);
  }

  /** A leaf accepts only words that match its row if and only if its path tests the whole row. */
  lemma LeafExactIffFullMask(ps: seq<Pattern>, limit: nat, t: Tree, p: Pattern)
    requires Build(ps, limit) == Some(t) && p in ps && WellFormed(p)
    ensures (forall w :: Lookup(t, w) == Some(p) ==> Matches(p, w)) <==> PathMask(ps, p) == p.mask
  {
    hide And, Build, Lookup, PathMask;
    var pm := PathMask(ps, p);
    PathMaskBetween(ps, p);
    forall w ensures Lookup(t, w) == Some(p) <==> And(w, pm) == And(p.fb, pm) {
      DispatchedWords(ps, limit, t, w, p);
    }
    if pm != p.mask {
      var w := FlipUntested(p.fb, p.mask, pm);
      assert Lookup(t, w) == Some(p) && !Matches(p, w);
    }
  }

  /** A word that agrees with `fb` under `tested` and differs from it under `mask`. */
  lemma FlipUntested(fb: Word, mask: Word, tested: Word) returns (w: Word)
    requires Within(tested, mask) && tested != mask && And(fb, mask) == fb
    ensures And(w, tested) == And(fb, tested) && And(w, mask) != fb
  {
    var d := mask & !tested;
    UntestedBits(mask, tested);
    w := fb ^ d;
    FlipInside(fb, d, mask);
    FlipOutside(fb, d, tested);
    assert fb ^ d != fb;
  }

  lemma UntestedBits(mask: Word, tested: Word)
    requires Within(tested, mask) && tested != mask
    ensures mask & !tested != 0 && And(mask & !tested, mask) == mask & !tested && And(mask & !tested, tested) == 0
  {}

  lemma FlipInside(fb: Word, d: Word, mask: Word)
    requires And(fb, mask) == fb && And(d, mask) == d
    ensures And(fb ^ d, mask) == fb ^ d
  {}

  lemma FlipOutside(fb: Word, d: Word, tested: Word)
    requires And(d, tested) == 0
    ensures And(fb ^ d, tested) == And(fb, tested)
  {}

  ghost predicate AnswersAsScan(ps: seq<Pattern>, t: Tree) {
    forall w :: Lookup(t, w) == LinearScan(ps, w)
  }

  ghost predicate PathsTestWholeRows(ps: seq<Pattern>) {
    forall p | p in ps :: PathMask(ps, p) == p.mask
  }

  /** The tree answers as a search of the table on every word, matching or not, if and only if every
      path tests its whole row. */
  lemma TreeExactIffFullMasks(ps: seq<Pattern>, limit: nat, t: Tree)
    requires Build(ps, limit) == Some(t) && forall p | p in ps :: WellFormed(p)
    ensures AnswersAsScan(ps, t) <==> PathsTestWholeRows(ps)
  {
    hide And, Build, Lookup, PathMask, LinearScan, Matches, WellFormed;
    if AnswersAsScan(ps, t) {
      forall p | p in ps ensures PathMask(ps, p) == p.mask {
        forall w ensures Lookup(t, w) == Some(p) ==> Matches(p, w) {
          ScanFinds(ps, w);
        }
        LeafExactIffFullMask(ps, limit, t, p);
      }
    }
    if PathsTestWholeRows(ps) {
      forall w ensures Lookup(t, w) == LinearScan(ps, w) {
        MeaningPreserved(ps, limit, t, w);
        ScanFinds(ps, w);
        LookupMember(ps, limit, t, w);
        if Lookup(t, w).Some? {
          LeafExactIffFullMask(ps, limit, t, Lookup(t, w).value);
        }
      }
    }
  }

  lemma LookupMember(ps: seq<Pattern>, limit: nat, t: Tree, w: Word)
    requires Build(ps, limit) == Some(t)
    ensures Lookup(t, w).Some? ==> Lookup(t, w).value in ps
  {
    hide And, Build, Lookup, Route;
    LookupIsRoute(ps, limit, t, w);
    RouteMember(ps, w);
  }

  // ---------- order of the rows ----------

  lemma SameRowsSameCommon(ps: seq<Pattern>, qs: seq<Pattern>)
    requires multiset(ps) == multiset(qs)
    ensures Common(ps) == Common(qs)
  {
    hide And, Common, Within;
    forall p ensures p in ps <==> p in qs {
      assert p in ps <==> p in multiset(ps);
      assert p in qs <==> p in multiset(qs);
    }
    CommonAntitone(ps, qs);
    CommonAntitone(qs, ps);
    WithinAntisymmetric(Common(ps), Common(qs));
  }

  lemma SameRowsSameBucket(ps: seq<Pattern>, qs: seq<Pattern>, m: Word, v: Word)
    requires multiset(ps) == multiset(qs)
    ensures multiset(Bucket(ps, m, v)) == multiset(Bucket(qs, m, v))
    ensures |Bucket(ps, m, v)| == |Bucket(qs, m, v)|
  {
    hide And, Bucket, Takes;
    forall p ensures multiset(Bucket(ps, m, v))[p] == multiset(Bucket(qs, m, v))[p] {
      BucketCount(ps, m, v, p);
      BucketCount(qs, m, v, p);
    }
    assert multiset(Bucket(ps, m, v)) == multiset(Bucket(qs, m, v));
    assert |multiset(Bucket(ps, m, v))| == |multiset(Bucket(qs, m, v))|;
  }

  lemma {:induction false} SameRowsSameRoute(ps: seq<Pattern>, qs: seq<Pattern>, w: Word)
    requires multiset(ps) == multiset(qs)
    ensures Route(ps, w) == Route(qs, w)
    decreases |ps|
  {
    hide And, Bucket, Common;
    assert |multiset(ps)| == |ps| && |multiset(qs)| == |qs|;
    SameRowsSameCommon(ps, qs);
    var m := Common(ps);
    SameRowsSameBucket(ps, qs, m, And(w, m));
    var b, c := Bucket(ps, m, And(w, m)), Bucket(qs, m, And(w, m));
    if |b| == 1 {
      assert b[0] in multiset(c);
    } else if 1 < |b| < |ps| {
      SameRowsSameRoute(b, c, w);
    }
  }

  /** Reordering the rows changes neither whether the table builds nor any dispatch. */
  lemma OrderIrrelevant(ps: seq<Pattern>, qs: seq<Pattern>)
    requires multiset(ps) == multiset(qs)
    ensures Terminates(ps) <==> Terminates(qs)
    ensures forall a: nat, b: nat, w :: Build(ps, a).Some? && Build(qs, b).Some? ==>
              Lookup(Build(ps, a).value, w) == Lookup(Build(qs, b).value, w)
  {
    hide And, Build, Lookup, Route;
    TerminatesIffSeparable(ps);
    TerminatesIffSeparable(qs);
    forall a: nat, b: nat, w | Build(ps, a).Some? && Build(qs, b).Some?
      ensures Lookup(Build(ps, a).value, w) == Lookup(Build(qs, b).value, w)
    {
      LookupIsRoute(ps, a, Build(ps, a).value, w);
      LookupIsRoute(qs, b, Build(qs, b).value, w);
      SameRowsSameRoute(ps, qs, w);
    }
  }
}
