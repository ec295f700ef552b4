/** Instruction patterns and the grouping steps of the decision-tree generator (generate_tree.py). */
module Patterns {
  type Word = bv32

  datatype Option<+T> = None | Some(value: T)

  /** `fb` holds the fixed bits of a row, `mask` says which bits are fixed. */
  datatype Pattern = Pattern(mask: Word, fb: Word, name: string)

  /** The bitwise AND, named so that a proof can leave it uninterpreted. */
  function And(x: Word, y: Word): Word {
    x & y
  }

  function NameOf(r: Option<Pattern>): Option<string> {
    match r
    case None => None
    case Some(p) => Some(p.name)
  }

  predicate Matches(p: Pattern, w: Word) {
    And(w, p.mask) == p.fb
  }

  /** A pattern read from a text row: no fixed bit outside the mask. */
  predicate WellFormed(p: Pattern) {
    And(p.fb, p.mask) == p.fb
  }

  /** `inner` tests at least the bits `outer` tests. */
  predicate Within(outer: Word, inner: Word) {
    And(outer, inner) == outer
  }

  lemma ZeroWithin(m: Word)
    ensures Within(0, m)
  {}

  /** The AND of all masks, folded from the left over an all-ones word. */
  function Common(ps: seq<Pattern>): Word {
    if ps == [] then 0xFFFFFFFF else And(Common(ps[..|ps| - 1]), ps[|ps| - 1].mask)
  }

  predicate Takes(p: Pattern, m: Word, v: Word) {
    And(p.fb, m) == v
  }

  /** The patterns that agree with `v` under mask `m`, in table order. */
  function Bucket(ps: seq<Pattern>, m: Word, v: Word): (b: seq<Pattern>)
    ensures |b| <= |ps|
  {
    if ps == [] then []
    else
      var before := Bucket(ps[..|ps| - 1], m, v);
      if Takes(ps[|ps| - 1], m, v) then before + [ps[|ps| - 1]] else before
  }

  /** The values taken under mask `m`, in order of first appearance (the order of a Python dict). */
  function Keys(ps: seq<Pattern>, m: Word): seq<Word> {
    if ps == [] then []
    else
      var before := Keys(ps[..|ps| - 1], m);
      var v := And(ps[|ps| - 1].fb, m);
      if v in before then before else before + [v]
  }

  predicate Distinct<T(==)>(s: seq<T>) {
    forall i, j :: 0 <= i < j < |s| ==> s[i] != s[j]
  }

  // ---------- the common mask ----------

  lemma {:induction false} CommonWithinEach(ps: seq<Pattern>, p: Pattern)
    requires p in ps
    ensures Within(Common(ps), p.mask)
  {
    hide And;
    var before, last := ps[..|ps| - 1], ps[|ps| - 1];
    assert ps == before + [last];
    if p != last {
      CommonWithinEach(before, p);
      MeetLeft(Common(before), last.mask, p.mask);
    } else {
      MeetRight(Common(before), last.mask);
    }
  }

  lemma MeetRight(a: Word, b: Word)
    ensures Within(And(a, b), b)
  {}

  lemma MeetLeft(a: Word, b: Word, c: Word)
    requires Within(a, c)
    ensures Within(And(a, b), c)
  {}

  /** The common mask is the largest mask contained in every mask of the table. */
  lemma {:induction false} CommonIsGreatest(ps: seq<Pattern>, c: Word)
    requires forall p | p in ps :: Within(c, p.mask)
    ensures Within(c, Common(ps))
  {
    hide And;
    if ps == [] {
      WithinAll(c);
    } else {
      CommonIsGreatest(ps[..|ps| - 1], c);
      MeetGreatest(Common(ps[..|ps| - 1]), ps[|ps| - 1].mask, c);
    }
  }

  lemma WithinAll(c: Word)
    ensures Within(c, 0xFFFFFFFF)
  {}

  lemma MeetGreatest(a: Word, b: Word, c: Word)
    requires Within(c, a) && Within(c, b)
    ensures Within(c, And(a, b))
  {}

  lemma CommonAntitone(ps: seq<Pattern>, qs: seq<Pattern>)
    requires forall q | q in qs :: q in ps
    ensures Within(Common(ps), Common(qs))
  {
    hide And;
    forall q | q in qs ensures Within(Common(ps), q.mask) {
      CommonWithinEach(ps, q);
    }
    CommonIsGreatest(qs, Common(ps));
  }

  lemma WithinAntisymmetric(a: Word, b: Word)
    requires Within(a, b) && Within(b, a)
    ensures a == b
  {}

  lemma WithinTransitive(a: Word, b: Word, c: Word)
    requires Within(a, b) && Within(b, c)
    ensures Within(a, c)
  {}

  /** Agreement under a mask gives agreement under every smaller mask. */
  lemma AgreeWithin(outer: Word, inner: Word, x: Word, y: Word)
    requires Within(outer, inner)
    ensures And(x, inner) == And(y, inner) ==> And(x, outer) == And(y, outer)
  {
    hide And;
    AndRegroup(x, inner, outer);
    AndRegroup(y, inner, outer);
  }

  lemma AndRegroup(x: Word, inner: Word, outer: Word)
    requires Within(outer, inner)
    ensures And(And(x, inner), outer) == And(x, outer)
  {}

  // ---------- buckets and keys ----------

  lemma {:induction false} BucketCount(ps: seq<Pattern>, m: Word, v: Word, p: Pattern)
    ensures multiset(Bucket(ps, m, v))[p] == if Takes(p, m, v) then multiset(ps)[p] else 0
  {
    hide And;
    if ps != [] {
      var before, last := ps[..|ps| - 1], ps[|ps| - 1];
      assert ps == before + [last];
      BucketCount(before, m, v, p);
      var b := Bucket(before, m, v);
      if p != last {
        assert multiset(Bucket(ps, m, v))[p] == multiset(b)[p];
      } else if Takes(last, m, v) {
        assert Bucket(ps, m, v) == b + [last];
        assert multiset(ps)[p] == multiset(before)[p] + 1;
      }
    }
  }

  /** One row more at the end. */
  lemma BucketSnoc(ps: seq<Pattern>, m: Word, v: Word)
    requires ps != []
    ensures Bucket(ps, m, v)
            == Bucket(ps[..|ps| - 1], m, v) + (if Takes(ps[|ps| - 1], m, v) then [ps[|ps| - 1]] else [])
  {
    hide And;
  }

  lemma BucketMember(ps: seq<Pattern>, m: Word, v: Word, p: Pattern)
    ensures p in Bucket(ps, m, v) <==> p in ps && Takes(p, m, v)
  {
    hide And;
    BucketCount(ps, m, v, p);
    assert p in Bucket(ps, m, v) <==> p in multiset(Bucket(ps, m, v));
    assert p in ps <==> p in multiset(ps);
  }

  lemma BucketSub(ps: seq<Pattern>, m: Word, v: Word)
    ensures multiset(Bucket(ps, m, v)) <= multiset(ps)
  {
    hide And;
    forall p ensures multiset(Bucket(ps, m, v))[p] <= multiset(ps)[p] {
      BucketCount(ps, m, v, p);
    }
  }

  lemma {:induction false} FullBucket(ps: seq<Pattern>, m: Word, v: Word)
    requires |Bucket(ps, m, v)| == |ps|
    ensures Bucket(ps, m, v) == ps
  {
    hide And;
    if ps != [] {
      FullBucket(ps[..|ps| - 1], m, v);
    }
  }

  lemma {:induction false} KeysMember(ps: seq<Pattern>, m: Word, v: Word)
    ensures v in Keys(ps, m) <==> Bucket(ps, m, v) != []
  {
    hide And;
    if ps != [] {
      KeysMember(ps[..|ps| - 1], m, v);
    }
  }

  lemma {:induction false} KeysDistinct(ps: seq<Pattern>, m: Word)
    ensures Distinct(Keys(ps, m))
  {
    hide And;
    if ps != [] {
      KeysDistinct(ps[..|ps| - 1], m);
    }
  }
}
