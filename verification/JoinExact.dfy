/**
 When a hash join is the join it stands for: the join on a relation between
 rows, such as the equality of their keys, for every kind of join.
 */
module JoinExact {
  import opened Orders
  import opened HashKeys
  import opened JoinSpec
  import opened JoinTruth

  // --------------------------------------------------- the join intended

  ghost predicate RelatesSome<O, I>(eq: (O, I) -> bool, o: O, rs: seq<I>) {
    exists k :: 0 <= k < |rs| && eq(o, rs[k])
  }

  ghost predicate RelatedBySome<O, I>(eq: (O, I) -> bool, outer: seq<O>, i: I) {
    exists k :: 0 <= k < |outer| && eq(outer[k], i)
  }

  ghost function PairsOf<O, I>(eq: (O, I) -> bool, o: O, rs: seq<I>): multiset<Row<O, I>> {
    if rs == [] then multiset{}
    else (if eq(o, rs[0]) then multiset{Pair(o, rs[0])} else multiset{}) + PairsOf(eq, o, rs[1..])
  }

  ghost function Alone<O, I>(kind: Kind, eq: (O, I) -> bool, o: O, rs: seq<I>): multiset<Row<O, I>> {
    if KeepsOuter(kind) && !RelatesSome(eq, o, rs) then multiset{OuterOnly(o)} else multiset{}
  }

  /** What the outer row `o` stands for. */
  ghost function Meant<O, I>(kind: Kind, eq: (O, I) -> bool, o: O, rs: seq<I>): multiset<Row<O, I>> {
    match kind
    case Semi => if RelatesSome(eq, o, rs) then multiset{SemiRow(o)} else multiset{}
    case Anti => if RelatesSome(eq, o, rs) then multiset{} else multiset{OuterOnly(o)}
    case _ => PairsOf(eq, o, rs) + Alone(kind, eq, o, rs)
  }

  ghost function AllMeant<O, I>(kind: Kind, eq: (O, I) -> bool, os: seq<O>, rs: seq<I>): multiset<Row<O, I>> {
    if os == [] then multiset{} else Meant(kind, eq, os[0], rs) + AllMeant(kind, eq, os[1..], rs)
  }

  /** The inner rows of a right or full join that are related to nothing. */
  ghost function InnerMeant<O, I>(kind: Kind, eq: (O, I) -> bool, outer: seq<O>, rs: seq<I>): multiset<Row<O, I>> {
    if rs == [] then multiset{}
    else
      (if KeepsInner(kind) && !RelatedBySome(eq, outer, rs[0]) then multiset{InnerOnly(rs[0])} else multiset{})
      + InnerMeant(kind, eq, outer, rs[1..])
  }

  /** The join of the two inputs on the relation `eq`. */
  ghost function Intended<O, I>(kind: Kind, eq: (O, I) -> bool, outer: seq<O>, inner: seq<I>): multiset<Row<O, I>> {
    AllMeant(kind, eq, outer, inner) + InnerMeant(kind, eq, outer, inner)
  }

  // ------------------------------------------------- the exact condition

  /** What makes the hash join pair two rows. */
  predicate Meets<O, I>(p: Plan<O, I>, n: nat, o: O, i: I) {
    Survives(p, n, i) && Matches(p, o, i)
  }

  /** What makes the hash join hand out an inner row alone. */
  ghost predicate LeftAlone<O, I>(p: Plan<O, I>, n: nat, outer: seq<O>, i: I) {
    Survives(p, n, i) && !HashHit(p, p.innerHash(i), outer)
  }

  /**
   An outer row gets what it stands for: where pairs are made, it meets exactly
   the rows it is related to; where only a match is asked for, it finds one
   exactly when it is related to some row.
   */
  ghost predicate OuterExact<O, I>(p: Plan<O, I>, eq: (O, I) -> bool, n: nat, inner: seq<I>, o: O) {
    if PairsUp(p.kind) then forall k :: 0 <= k < |inner| ==> (eq(o, inner[k]) <==> Meets(p, n, o, inner[k]))
    else MatchesSome(p, o, Survivors(p, n, inner)) <==> RelatesSome(eq, o, inner)
  }

  /** An inner row is left alone exactly when it is related to nothing. */
  ghost predicate InnerExact<O, I>(p: Plan<O, I>, eq: (O, I) -> bool, n: nat, outer: seq<O>, i: I) {
    LeftAlone(p, n, outer, i) <==> !RelatedBySome(eq, outer, i)
  }

  ghost predicate Exact<O, I>(p: Plan<O, I>, eq: (O, I) -> bool, n: nat, outer: seq<O>, inner: seq<I>) {
    && (forall j :: 0 <= j < |outer| ==> OuterExact(p, eq, n, inner, outer[j]))
    && (KeepsInner(p.kind) ==> forall k :: 0 <= k < |inner| ==> InnerExact(p, eq, n, outer, inner[k]))
  }

  // ------------------------------------------------------ it is sufficient

  lemma RelatesTail<O, I>(eq: (O, I) -> bool, o: O, rs: seq<I>)
    requires rs != []
    ensures RelatesSome(eq, o, rs) <==> eq(o, rs[0]) || RelatesSome(eq, o, rs[1..])
  {
    if RelatesSome(eq, o, rs[1..]) {
      var k :| 0 <= k < |rs[1..]| && eq(o, rs[1..][k]);
      assert rs[k + 1] == rs[1..][k];
    }
    if RelatesSome(eq, o, rs) {
      var k :| 0 <= k < |rs| && eq(o, rs[k]);
      assert k > 0 ==> rs[1..][k - 1] == rs[k];
    }
  }

  /** The rest of a bucket pairs up with exactly the related rows; `m` tells whether there was one before. */
  lemma {:induction false} BucketIsMeant<O, I>(p: Plan<O, I>, eq: (O, I) -> bool, n: nat, o: O, rs: seq<I>, h: nat, m: bool)
    requires PairsUp(p.kind) && p.outerHash(o) == Some(h)
    requires forall k :: 0 <= k < |rs| ==> (eq(o, rs[k]) <==> Meets(p, n, o, rs[k]))
    ensures ProbeRows(p, o, Bucket(p, Survivors(p, n, rs), h), m) ==
      PairsOf(eq, o, rs) + if m then multiset{} else Alone(p.kind, eq, o, rs)
    decreases rs
  {
    if rs != [] {
      var i, rest, left := rs[0], rs[1..], Survivors(p, n, rs[1..]);
      RelatesTail(eq, o, rs);
      assert eq(o, i) <==> Meets(p, n, o, i);
      BucketSurvivors(p, n, rs, h);
      var es := Bucket(p, left, h);
      assert ([i] + es)[1..] == es && [] + es == es;
      if eq(o, i) {
        BucketIsMeant(p, eq, n, o, rest, h, true);
        assert ProbeRows(p, o, [i] + es, m) == multiset{Pair(o, i)} + ProbeRows(p, o, es, true);
        assert PairsOf(eq, o, rs) == multiset{Pair(o, i)} + PairsOf(eq, o, rest) && Alone(p.kind, eq, o, rs) == multiset{};
      } else {
        BucketIsMeant(p, eq, n, o, rest, h, m);
        assert PairsOf(eq, o, rs) == PairsOf(eq, o, rest) && Alone(p.kind, eq, o, rs) == Alone(p.kind, eq, o, rest);
        assert ProbeRows(p, o, Bucket(p, Survivors(p, n, rs), h), m) == ProbeRows(p, o, es, m);
      }
    }
  }

  lemma BucketSurvivors<O, I>(p: Plan<O, I>, n: nat, rs: seq<I>, h: nat)
    requires rs != []
    ensures Bucket(p, Survivors(p, n, rs), h) ==
      (if Survives(p, n, rs[0]) && p.innerHash(rs[0]) == h then [rs[0]] else []) + Bucket(p, Survivors(p, n, rs[1..]), h)
  {
    var i, left := rs[0], Survivors(p, n, rs[1..]);
    if Survives(p, n, i) { assert ([i] + left)[1..] == left; } else { assert [] + left == left; }
  }

  lemma {:induction false} NoPairs<O, I>(eq: (O, I) -> bool, o: O, rs: seq<I>)
    requires !RelatesSome(eq, o, rs)
    ensures PairsOf(eq, o, rs) == multiset{}
    decreases rs
  {
    if rs != [] {
      RelatesTail(eq, o, rs);
      NoPairs(eq, o, rs[1..]);
    }
  }

  /** An outer row with a NULL key matches nothing. */
  lemma UnhashedIsMeant<O, I>(p: Plan<O, I>, eq: (O, I) -> bool, n: nat, o: O, rs: seq<I>)
    requires p.outerHash(o).None? && OuterExact(p, eq, n, rs, o)
    ensures NullRows(p, o) == Meant(p.kind, eq, o, rs)
  {
    assert !RelatesSome(eq, o, rs);
    NoPairs(eq, o, rs);
  }

  lemma OuterIsMeant<O, I>(p: Plan<O, I>, eq: (O, I) -> bool, n: nat, o: O, rs: seq<I>)
    requires OuterExact(p, eq, n, rs, o)
    ensures OfOuter(p, Survivors(p, n, rs), o) == Meant(p.kind, eq, o, rs)
  {
    match p.outerHash(o)
    case None => UnhashedIsMeant(p, eq, n, o, rs);
    case Some(h) =>
      if PairsUp(p.kind) {
        BucketIsMeant(p, eq, n, o, rs, h, false);
      } else {
        PassesMatches(p, o, Survivors(p, n, rs), h);
        AskedBucket(p, o, Bucket(p, Survivors(p, n, rs), h));
      }
  }

  lemma {:induction false} OutersAreMeant<O, I>(p: Plan<O, I>, eq: (O, I) -> bool, n: nat, outer: seq<O>, inner: seq<I>)
    requires forall j :: 0 <= j < |outer| ==> OuterExact(p, eq, n, inner, outer[j])
    ensures AllOuter(p, Survivors(p, n, inner), outer) == AllMeant(p.kind, eq, outer, inner)
    decreases outer
  {
    if outer != [] {
      OuterIsMeant(p, eq, n, outer[0], inner);
      OutersAreMeant(p, eq, n, outer[1..], inner);
    }
  }

  lemma {:induction false} InnersAreMeant<O, I>(p: Plan<O, I>, eq: (O, I) -> bool, n: nat, outer: seq<O>, rs: seq<I>)
    requires KeepsInner(p.kind) ==> forall k :: 0 <= k < |rs| ==> InnerExact(p, eq, n, outer, rs[k])
    ensures AllInner(p, outer, Survivors(p, n, rs)) == InnerMeant(p.kind, eq, outer, rs)
    decreases rs
  {
    if rs != [] {
      var i, left := rs[0], Survivors(p, n, rs[1..]);
      InnersAreMeant(p, eq, n, outer, rs[1..]);
      assert KeepsInner(p.kind) ==> InnerExact(p, eq, n, outer, i);
      if Survives(p, n, i) { assert ([i] + left)[1..] == left; } else { assert [] + left == left; }
    }
  }

  // ------------------------------------------------------- it is necessary

  lemma {:induction false} PairsOfHas<O, I>(eq: (O, I) -> bool, o: O, rs: seq<I>, w: Row<O, I>)
    ensures w in PairsOf(eq, o, rs) <==> w.Pair? && w.o == o && w.i in rs && eq(o, w.i)
    decreases rs
  {
    if rs != [] { PairsOfHas(eq, o, rs[1..], w); }
  }

  /** Which rows the intended join has for its outer rows. */
  ghost predicate IsMeant<O, I>(kind: Kind, eq: (O, I) -> bool, os: seq<O>, rs: seq<I>, w: Row<O, I>) {
    match w
    case Pair(o, i) => PairsUp(kind) && o in os && i in rs && eq(o, i)
    case SemiRow(o) => kind.Semi? && o in os && RelatesSome(eq, o, rs)
    case OuterOnly(o) => (KeepsOuter(kind) || kind.Anti?) && o in os && !RelatesSome(eq, o, rs)
    case InnerOnly(_) => false
  }

  lemma OneMeantHas<O, I>(kind: Kind, eq: (O, I) -> bool, o: O, rs: seq<I>, w: Row<O, I>)
    ensures w in Meant(kind, eq, o, rs) <==> IsMeant(kind, eq, [o], rs, w)
  {
    PairsOfHas(eq, o, rs, w);
  }

  lemma {:induction false} MeantHas<O, I>(kind: Kind, eq: (O, I) -> bool, os: seq<O>, rs: seq<I>, w: Row<O, I>)
    ensures w in AllMeant(kind, eq, os, rs) <==> IsMeant(kind, eq, os, rs, w)
    decreases os
  {
    if os != [] {
      OneMeantHas(kind, eq, os[0], rs, w);
      MeantHas(kind, eq, os[1..], rs, w);
    }
  }

  lemma {:induction false} InnerMeantHas<O, I>(kind: Kind, eq: (O, I) -> bool, outer: seq<O>, rs: seq<I>, w: Row<O, I>)
    ensures w in InnerMeant(kind, eq, outer, rs) <==>
      w.InnerOnly? && w.i in rs && KeepsInner(kind) && !RelatedBySome(eq, outer, w.i)
    decreases rs
  {
    if rs != [] { InnerMeantHas(kind, eq, outer, rs[1..], w); }
  }

  lemma IntendedHas<O, I>(kind: Kind, eq: (O, I) -> bool, outer: seq<O>, inner: seq<I>, w: Row<O, I>)
    ensures w in Intended(kind, eq, outer, inner) <==>
      IsMeant(kind, eq, outer, inner, w)
      || (w.InnerOnly? && w.i in inner && KeepsInner(kind) && !RelatedBySome(eq, outer, w.i))
  {
    MeantHas(kind, eq, outer, inner, w);
    InnerMeantHas(kind, eq, outer, inner, w);
  }

  /** A row by which the join and the intended join differ, when the condition fails for an outer row. */
  lemma OuterDiffers<O, I>(p: Plan<O, I>, eq: (O, I) -> bool, n: nat, outer: seq<O>, inner: seq<I>, o: O)
    requires o in outer && !OuterExact(p, eq, n, inner, o)
    ensures JoinRows(p, Survivors(p, n, inner), outer) != Intended(p.kind, eq, outer, inner)
  {
    var left := Survivors(p, n, inner);
    if PairsUp(p.kind) {
      var k :| 0 <= k < |inner| && !(eq(o, inner[k]) <==> Meets(p, n, o, inner[k]));
      InSurvivors(p, n, inner, inner[k]);
      PairJoined(p, left, outer, o, inner[k]);
      IntendedHas(p.kind, eq, outer, inner, Pair(o, inner[k]));
    } else {
      SingleJoined(p, left, outer, o);
      IntendedHas(p.kind, eq, outer, inner, SemiRow(o));
      IntendedHas(p.kind, eq, outer, inner, OuterOnly(o));
    }
  }

  lemma InnerDiffers<O, I>(p: Plan<O, I>, eq: (O, I) -> bool, n: nat, outer: seq<O>, inner: seq<I>, i: I)
    requires KeepsInner(p.kind) && i in inner && !InnerExact(p, eq, n, outer, i)
    ensures JoinRows(p, Survivors(p, n, inner), outer) != Intended(p.kind, eq, outer, inner)
  {
    InSurvivors(p, n, inner, i);
    AloneJoined(p, Survivors(p, n, inner), outer, i);
    IntendedHas(p.kind, eq, outer, inner, InnerOnly(i));
  }

  // ---------------------------------------------------------- the theorems

  /** A hash join of any kind is the join on any relation exactly when it matches and leaves alone as that relation says. */
  lemma HashJoinExact<O, I>(p: Plan<O, I>, eq: (O, I) -> bool, n: nat, outer: seq<O>, inner: seq<I>)
    ensures JoinRows(p, Survivors(p, n, inner), outer) == Intended(p.kind, eq, outer, inner) <==> Exact(p, eq, n, outer, inner)
  {
    if Exact(p, eq, n, outer, inner) {
      OutersAreMeant(p, eq, n, outer, inner);
      InnersAreMeant(p, eq, n, outer, inner);
    } else if j :| 0 <= j < |outer| && !OuterExact(p, eq, n, inner, outer[j]) {
      OuterDiffers(p, eq, n, outer, inner, outer[j]);
    } else {
      var k :| 0 <= k < |inner| && !InnerExact(p, eq, n, outer, inner[k]);
      InnerDiffers(p, eq, n, outer, inner, inner[k]);
    }
  }

  /** Without an extra condition, and with nothing skipped, only wrong matches can spoil a join. */
  lemma PlainJoinExact<O, I>(p: Plan<O, I>, eq: (O, I) -> bool, n: nat, outer: seq<O>, inner: seq<I>)
    requires forall j, k :: 0 <= j < |outer| && 0 <= k < |inner| ==> p.qual(outer[j], inner[k])
    requires forall k :: 0 <= k < |inner| ==> Survives(p, n, inner[k])
    ensures Exact(p, eq, n, outer, inner) <==> forall j :: 0 <= j < |outer| ==> OuterExact(p, eq, n, inner, outer[j])
  {
    if KeepsInner(p.kind) && forall j :: 0 <= j < |outer| ==> OuterExact(p, eq, n, inner, outer[j]) {
      forall k | 0 <= k < |inner| ensures InnerExact(p, eq, n, outer, inner[k]) {
        HitIsRelated(p, eq, n, outer, inner, k);
      }
    }
  }

  lemma HitIsRelated<O, I>(p: Plan<O, I>, eq: (O, I) -> bool, n: nat, outer: seq<O>, inner: seq<I>, k: nat)
    requires k < |inner| && PairsUp(p.kind) && Survives(p, n, inner[k])
    requires forall j :: 0 <= j < |outer| ==> p.qual(outer[j], inner[k]) && OuterExact(p, eq, n, inner, outer[j])
    ensures HashHit(p, p.innerHash(inner[k]), outer) <==> RelatedBySome(eq, outer, inner[k])
  {
    var i := inner[k];
    forall j | 0 <= j < |outer| ensures eq(outer[j], i) <==> p.outerHash(outer[j]) == Some(p.innerHash(i)) {
      assert OuterExact(p, eq, n, inner, outer[j]);
    }
  }

  // -------------------------------------------- when related rows hash alike

  /** Rows related by `eq` match, and are not skipped. */
  ghost predicate AllFound<O, I>(p: Plan<O, I>, eq: (O, I) -> bool, outer: seq<O>, inner: seq<I>) {
    forall j, k :: 0 <= j < |outer| && 0 <= k < |inner| && eq(outer[j], inner[k]) ==>
      Matches(p, outer[j], inner[k]) && p.innerRehash(inner[k]).Some?
  }

  /** Nothing is matched by mistake. */
  ghost predicate OuterUnmistaken<O, I>(p: Plan<O, I>, eq: (O, I) -> bool, n: nat, inner: seq<I>, o: O) {
    if PairsUp(p.kind) then forall k :: 0 <= k < |inner| && Meets(p, n, o, inner[k]) ==> eq(o, inner[k])
    else MatchesSome(p, o, Survivors(p, n, inner)) ==> RelatesSome(eq, o, inner)
  }

  /** Nothing is matched by mistake and, in a right or full join, no inner row related to nothing is hit or skipped. */
  ghost predicate Unmistaken<O, I>(p: Plan<O, I>, eq: (O, I) -> bool, n: nat, outer: seq<O>, inner: seq<I>) {
    && (forall j :: 0 <= j < |outer| ==> OuterUnmistaken(p, eq, n, inner, outer[j]))
    && (KeepsInner(p.kind) ==>
          forall k :: 0 <= k < |inner| ==> LeftAlone(p, n, outer, inner[k]) || RelatedBySome(eq, outer, inner[k]))
  }

  lemma FoundOuter<O, I>(p: Plan<O, I>, eq: (O, I) -> bool, n: nat, outer: seq<O>, inner: seq<I>, j: nat)
    requires AllFound(p, eq, outer, inner) && j < |outer|
    ensures OuterExact(p, eq, n, inner, outer[j]) <==> OuterUnmistaken(p, eq, n, inner, outer[j])
  {
    var o, left := outer[j], Survivors(p, n, inner);
    if !PairsUp(p.kind) && RelatesSome(eq, o, inner) {
      var k :| 0 <= k < |inner| && eq(o, inner[k]);
      InSurvivors(p, n, inner, inner[k]);
      var l :| 0 <= l < |left| && left[l] == inner[k];
      assert Matches(p, o, left[l]);
    }
  }

  /** Where related rows hash alike, lost matches are no concern. */
  lemma FoundExact<O, I>(p: Plan<O, I>, eq: (O, I) -> bool, n: nat, outer: seq<O>, inner: seq<I>)
    requires AllFound(p, eq, outer, inner)
    ensures Exact(p, eq, n, outer, inner) <==> Unmistaken(p, eq, n, outer, inner)
  {
    forall j | 0 <= j < |outer|
      ensures OuterExact(p, eq, n, inner, outer[j]) <==> OuterUnmistaken(p, eq, n, inner, outer[j])
    {
      FoundOuter(p, eq, n, outer, inner, j);
    }
    forall k | 0 <= k < |inner| ensures RelatedBySome(eq, outer, inner[k]) ==> !LeftAlone(p, n, outer, inner[k]) {
      if RelatedBySome(eq, outer, inner[k]) {
        var j :| 0 <= j < |outer| && eq(outer[j], inner[k]);
        assert p.outerHash(outer[j]) == Some(p.innerHash(inner[k]));
      }
    }
  }

  // ------------------------------------------------------------ joins on keys

  /** Keys are equal, in the sense of `same`, when none is NULL and each is the same as its counterpart. */
  ghost predicate KeysEqual<D>(same: (D, D) -> bool, a: seq<Option<D>>, b: seq<Option<D>>) {
    |a| == |b| && forall k :: 0 <= k < |a| ==> a[k].Some? && b[k].Some? && same(a[k].value, b[k].value)
  }

  ghost function KeyEquality<O, I, D>(
      same: (D, D) -> bool, outerKeys: O -> seq<Option<D>>, innerKeys: I -> seq<Option<D>>, qual: (O, I) -> bool)
    : (O, I) -> bool
  {
    (o, i) => KeysEqual(same, outerKeys(o), innerKeys(i)) && qual(o, i)
  }

  /** A join on keys is the join on equal keys and the extra condition, whatever equality of keys means. */
  lemma KeyJoinExact<O, I, D>(
      kind: Kind, outerKeys: O -> seq<Option<D>>, innerKeys: I -> seq<Option<D>>, datumHash: D -> nat, qual: (O, I) -> bool,
      same: (D, D) -> bool, n: nat, outer: seq<O>, inner: seq<I>)
    ensures var p := KeyPlan(kind, outerKeys, innerKeys, datumHash, qual);
      var eq := KeyEquality(same, outerKeys, innerKeys, qual);
      JoinRows(p, Survivors(p, n, inner), outer) == Intended(kind, eq, outer, inner) <==> Exact(p, eq, n, outer, inner)
  {
    HashJoinExact(KeyPlan(kind, outerKeys, innerKeys, datumHash, qual), KeyEquality(same, outerKeys, innerKeys, qual), n, outer, inner);
  }

  /** Equal values hash alike. */
  ghost predicate Respects<D(!new)>(datumHash: D -> nat, same: (D, D) -> bool) {
    forall x, y :: same(x, y) ==> datumHash(x) == datumHash(y)
  }

  lemma {:induction false} EqualKeysHash<D(!new)>(datumHash: D -> nat, same: (D, D) -> bool, a: seq<Option<D>>, b: seq<Option<D>>)
    requires Respects(datumHash, same) && KeysEqual(same, a, b)
    ensures ProbeHash(datumHash, a) == ProbeHash(datumHash, b) == Some(BuildHash(datumHash, b))
    decreases |a|
  {
    if a != [] {
      var m := |a| - 1;
      EqualKeysHash(datumHash, same, a[..m], b[..m]);
      assert same(a[m].value, b[m].value);
    }
  }

  /** Where equal values hash alike, a join on keys is exact exactly when it matches nothing by mistake. */
  lemma RespectingJoinExact<O, I, D(!new)>(
      kind: Kind, outerKeys: O -> seq<Option<D>>, innerKeys: I -> seq<Option<D>>, datumHash: D -> nat, qual: (O, I) -> bool,
      same: (D, D) -> bool, n: nat, outer: seq<O>, inner: seq<I>)
    requires Respects(datumHash, same)
    ensures var p := KeyPlan(kind, outerKeys, innerKeys, datumHash, qual);
      var eq := KeyEquality(same, outerKeys, innerKeys, qual);
      JoinRows(p, Survivors(p, n, inner), outer) == Intended(kind, eq, outer, inner) <==> Unmistaken(p, eq, n, outer, inner)
  {
    var p := KeyPlan(kind, outerKeys, innerKeys, datumHash, qual);
    var eq := KeyEquality(same, outerKeys, innerKeys, qual);
    forall j, k | 0 <= j < |outer| && 0 <= k < |inner| && eq(outer[j], inner[k])
      ensures Matches(p, outer[j], inner[k]) && p.innerRehash(inner[k]).Some?
    {
      var a, b := outerKeys(outer[j]), innerKeys(inner[k]);
      assert KeysEqual(same, a, b);
      EqualKeysHash(datumHash, same, a, b);
      assert p.outerHash(outer[j]) == ProbeHash(datumHash, a) && p.innerHash(inner[k]) == BuildHash(datumHash, b);
    }
    FoundExact(p, eq, n, outer, inner);
    HashJoinExact(p, eq, n, outer, inner);
  }
}
