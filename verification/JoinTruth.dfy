/** Which rows a hash join has, and when splitting it into batches changes nothing. */
module JoinTruth {
  import opened Orders
  import opened HashKeys
  import opened Batches
  import opened JoinSpec

  /** The kinds that pair up rows. */
  predicate PairsUp(kind: Kind) {
    !kind.Semi? && !kind.Anti?
  }

  predicate Matches<O, I>(p: Plan<O, I>, o: O, i: I) {
    p.outerHash(o) == Some(p.innerHash(i)) && p.qual(o, i)
  }

  ghost predicate MatchesSome<O, I>(p: Plan<O, I>, o: O, rs: seq<I>) {
    exists k :: 0 <= k < |rs| && Matches(p, o, rs[k])
  }

  ghost predicate MatchedBySome<O, I>(p: Plan<O, I>, outer: seq<O>, i: I) {
    exists k :: 0 <= k < |outer| && Matches(p, outer[k], i)
  }

  // ------------------------------------------------- which rows a join has

  lemma {:induction false} InBucket<O, I>(p: Plan<O, I>, rs: seq<I>, h: nat, i: I)
    ensures i in Bucket(p, rs, h) <==> i in rs && p.innerHash(i) == h
    decreases rs
  {
    if rs != [] { InBucket(p, rs[1..], h, i); }
  }

  lemma {:induction false} PairOfBucket<O, I>(p: Plan<O, I>, o: O, es: seq<I>, m: bool, a: O, i: I)
    requires PairsUp(p.kind)
    ensures Pair(a, i) in ProbeRows(p, o, es, m) <==> a == o && i in es && p.qual(o, i)
    decreases |es|
  {
    if es != [] {
      PairOfBucket(p, o, es[1..], m, a, i);
      PairOfBucket(p, o, es[1..], true, a, i);
    }
  }

  lemma PairOfOuter<O, I>(p: Plan<O, I>, rs: seq<I>, o: O, a: O, i: I)
    requires PairsUp(p.kind)
    ensures Pair(a, i) in OfOuter(p, rs, o) <==> a == o && i in rs && Matches(p, o, i)
  {
    match p.outerHash(o)
    case None =>
    case Some(h) =>
      PairOfBucket(p, o, Bucket(p, rs, h), false, a, i);
      InBucket(p, rs, h, i);
  }

  lemma {:induction false} PairOfAllOuter<O, I>(p: Plan<O, I>, rs: seq<I>, os: seq<O>, a: O, i: I)
    requires PairsUp(p.kind)
    ensures Pair(a, i) in AllOuter(p, rs, os) <==> a in os && i in rs && Matches(p, a, i)
    decreases os
  {
    if os != [] {
      PairOfOuter(p, rs, os[0], a, i);
      PairOfAllOuter(p, rs, os[1..], a, i);
    }
  }

  lemma {:induction false} AllInnerHas<O, I>(p: Plan<O, I>, outer: seq<O>, rs: seq<I>, w: Row<O, I>)
    ensures w in AllInner(p, outer, rs) <==> w.InnerOnly? && w.i in rs && w in OfInner(p, outer, w.i)
    decreases rs
  {
    if rs != [] { AllInnerHas(p, outer, rs[1..], w); }
  }

  /** A pair is joined exactly when both rows are there and match. */
  lemma PairJoined<O, I>(p: Plan<O, I>, rs: seq<I>, outer: seq<O>, o: O, i: I)
    requires PairsUp(p.kind)
    ensures Pair(o, i) in JoinRows(p, rs, outer) <==> o in outer && i in rs && Matches(p, o, i)
  {
    PairOfAllOuter(p, rs, outer, o, i);
    AllInnerHas(p, outer, rs, Pair(o, i));
  }

  lemma {:induction false} NoInnerOfBucket<O, I>(p: Plan<O, I>, o: O, es: seq<I>, m: bool, i: I)
    ensures InnerOnly(i) !in ProbeRows(p, o, es, m)
    decreases |es|
  {
    if es != [] {
      NoInnerOfBucket(p, o, es[1..], m, i);
      NoInnerOfBucket(p, o, es[1..], true, i);
    }
  }

  lemma {:induction false} NoInnerOfOuter<O, I>(p: Plan<O, I>, rs: seq<I>, os: seq<O>, i: I)
    ensures InnerOnly(i) !in AllOuter(p, rs, os)
    decreases os
  {
    if os != [] {
      NoInnerOfOuter(p, rs, os[1..], i);
      match p.outerHash(os[0])
      case None =>
      case Some(h) => NoInnerOfBucket(p, os[0], Bucket(p, rs, h), false, i);
    }
  }

  /** An inner row stands alone exactly when it is there, is kept, and nothing hits its hash. */
  lemma AloneJoined<O, I>(p: Plan<O, I>, rs: seq<I>, outer: seq<O>, i: I)
    ensures InnerOnly(i) in JoinRows(p, rs, outer) <==>
      i in rs && KeepsInner(p.kind) && !HashHit(p, p.innerHash(i), outer)
  {
    NoInnerOfOuter(p, rs, outer, i);
    AllInnerHas(p, outer, rs, InnerOnly(i));
  }

  ghost predicate Passes<O, I>(p: Plan<O, I>, o: O, es: seq<I>) {
    exists k :: 0 <= k < |es| && p.qual(o, es[k])
  }

  lemma {:induction false} SingleOfBucket<O, I>(p: Plan<O, I>, o: O, es: seq<I>, m: bool, a: O)
    ensures OuterOnly(a) in ProbeRows(p, o, es, m) <==>
      a == o && !m && (KeepsOuter(p.kind) || p.kind.Anti?) && !Passes(p, o, es)
    ensures SemiRow(a) in ProbeRows(p, o, es, m) <==> a == o && p.kind.Semi? && Passes(p, o, es)
    decreases |es|
  {
    if es != [] {
      SingleOfBucket(p, o, es[1..], m, a);
      SingleOfBucket(p, o, es[1..], true, a);
      assert Passes(p, o, es) <==> p.qual(o, es[0]) || Passes(p, o, es[1..]) by {
        forall k | 0 < k < |es| ensures es[k] == es[1..][k - 1] {}
      }
    }
  }

  lemma PassesMatches<O, I>(p: Plan<O, I>, o: O, rs: seq<I>, h: nat)
    requires p.outerHash(o) == Some(h)
    ensures Passes(p, o, Bucket(p, rs, h)) <==> MatchesSome(p, o, rs)
  {
    var es := Bucket(p, rs, h);
    if Passes(p, o, es) {
      var k :| 0 <= k < |es| && p.qual(o, es[k]);
      InBucket(p, rs, h, es[k]);
      var j :| 0 <= j < |rs| && rs[j] == es[k];
    }
    if MatchesSome(p, o, rs) {
      var k :| 0 <= k < |rs| && Matches(p, o, rs[k]);
      InBucket(p, rs, h, rs[k]);
      var j :| 0 <= j < |es| && es[j] == rs[k];
    }
  }

  lemma SingleOfOuter<O, I>(p: Plan<O, I>, rs: seq<I>, o: O, a: O)
    ensures OuterOnly(a) in OfOuter(p, rs, o) <==>
      a == o && (KeepsOuter(p.kind) || p.kind.Anti?) && !MatchesSome(p, o, rs)
    ensures SemiRow(a) in OfOuter(p, rs, o) <==> a == o && p.kind.Semi? && MatchesSome(p, o, rs)
  {
    match p.outerHash(o)
    case None =>
    case Some(h) =>
      SingleOfBucket(p, o, Bucket(p, rs, h), false, a);
      PassesMatches(p, o, rs, h);
  }

  lemma {:induction false} SingleOfAllOuter<O, I>(p: Plan<O, I>, rs: seq<I>, os: seq<O>, a: O)
    ensures OuterOnly(a) in AllOuter(p, rs, os) <==>
      a in os && (KeepsOuter(p.kind) || p.kind.Anti?) && !MatchesSome(p, a, rs)
    ensures SemiRow(a) in AllOuter(p, rs, os) <==> a in os && p.kind.Semi? && MatchesSome(p, a, rs)
    decreases os
  {
    if os != [] {
      SingleOfOuter(p, rs, os[0], a);
      SingleOfAllOuter(p, rs, os[1..], a);
    }
  }

  /** An outer row stands alone exactly when it is there, is kept, and matches no one; a semi join wants the opposite. */
  lemma SingleJoined<O, I>(p: Plan<O, I>, rs: seq<I>, outer: seq<O>, o: O)
    ensures OuterOnly(o) in JoinRows(p, rs, outer) <==>
      o in outer && (KeepsOuter(p.kind) || p.kind.Anti?) && !MatchesSome(p, o, rs)
    ensures SemiRow(o) in JoinRows(p, rs, outer) <==> o in outer && p.kind.Semi? && MatchesSome(p, o, rs)
  {
    SingleOfAllOuter(p, rs, outer, o);
    AllInnerHas(p, outer, rs, OuterOnly(o));
    AllInnerHas(p, outer, rs, SemiRow(o));
  }

  // ------------------------------------- when batches change nothing

  /** An inner row that shows in no joined row. */
  ghost predicate Silent<O, I>(p: Plan<O, I>, outer: seq<O>, i: I) {
    && !MatchedBySome(p, outer, i)
    && (KeepsInner(p.kind) ==> HashHit(p, p.innerHash(i), outer))
  }

  /**
   No inner row skipped on its way back from a batch would have shown: for the
   kinds that pair up, none of them shows at all; for semi and anti joins, no
   outer row has only skipped rows for its matches.
   */
  ghost predicate NothingLost<O, I>(p: Plan<O, I>, n: nat, inner: seq<I>, outer: seq<O>) {
    if PairsUp(p.kind) then forall k :: 0 <= k < |inner| ==> Survives(p, n, inner[k]) || Silent(p, outer, inner[k])
    else forall k :: 0 <= k < |outer| ==>
      (MatchesSome(p, outer[k], inner) ==> MatchesSome(p, outer[k], Survivors(p, n, inner)))
  }

  lemma {:induction false} InSurvivors<O, I>(p: Plan<O, I>, n: nat, rs: seq<I>, i: I)
    ensures i in Survivors(p, n, rs) <==> i in rs && Survives(p, n, i)
    decreases rs
  {
    if rs != [] { InSurvivors(p, n, rs[1..], i); }
  }

  lemma SurvivingMatch<O, I>(p: Plan<O, I>, n: nat, rs: seq<I>, o: O)
    ensures MatchesSome(p, o, Survivors(p, n, rs)) ==> MatchesSome(p, o, rs)
  {
    var es := Survivors(p, n, rs);
    if MatchesSome(p, o, es) {
      var k :| 0 <= k < |es| && Matches(p, o, es[k]);
      InSurvivors(p, n, rs, es[k]);
      var j :| 0 <= j < |rs| && rs[j] == es[k];
    }
  }

  /** The rows that survive and match an outer row are those that match it. */
  lemma {:induction false} SameBucketRows<O, I>(p: Plan<O, I>, n: nat, rs: seq<I>, o: O, h: nat, m: bool)
    requires p.outerHash(o) == Some(h)
    requires forall k :: 0 <= k < |rs| ==> Survives(p, n, rs[k]) || !Matches(p, o, rs[k])
    ensures ProbeRows(p, o, Bucket(p, Survivors(p, n, rs), h), m) == ProbeRows(p, o, Bucket(p, rs, h), m)
    decreases rs
  {
    if rs != [] {
      var i, rest, left := rs[0], rs[1..], Survivors(p, n, rs[1..]);
      SameBucketRows(p, n, rest, o, h, m);
      SameBucketRows(p, n, rest, o, h, true);
      if Survives(p, n, i) { assert ([i] + left)[1..] == left; } else { assert [] + left == left; }
      var es, fs := Bucket(p, left, h), Bucket(p, rest, h);
      if p.innerHash(i) == h {
        assert ([i] + es)[1..] == es && ([i] + fs)[1..] == fs;
      } else {
        assert [] + es == es && [] + fs == fs;
      }
    }
  }

  /** Semi and anti joins only ask whether there is a match. */
  lemma {:induction false} AskedBucket<O, I>(p: Plan<O, I>, o: O, es: seq<I>)
    requires !PairsUp(p.kind)
    ensures ProbeRows(p, o, es, false) ==
      if p.kind.Semi? then (if Passes(p, o, es) then multiset{SemiRow(o)} else multiset{})
      else (if Passes(p, o, es) then multiset{} else multiset{OuterOnly(o)})
    decreases |es|
  {
    if es != [] {
      AskedBucket(p, o, es[1..]);
      assert Passes(p, o, es) <==> p.qual(o, es[0]) || Passes(p, o, es[1..]) by {
        forall k | 0 < k < |es| ensures es[k] == es[1..][k - 1] {}
      }
    }
  }

  lemma SameOuter<O, I>(p: Plan<O, I>, n: nat, rs: seq<I>, o: O)
    requires if PairsUp(p.kind) then forall k :: 0 <= k < |rs| ==> Survives(p, n, rs[k]) || !Matches(p, o, rs[k])
      else MatchesSome(p, o, rs) ==> MatchesSome(p, o, Survivors(p, n, rs))
    ensures OfOuter(p, Survivors(p, n, rs), o) == OfOuter(p, rs, o)
  {
    match p.outerHash(o)
    case None =>
    case Some(h) =>
      if PairsUp(p.kind) {
        SameBucketRows(p, n, rs, o, h, false);
      } else {
        SurvivingMatch(p, n, rs, o);
        PassesMatches(p, o, rs, h);
        PassesMatches(p, o, Survivors(p, n, rs), h);
        AskedBucket(p, o, Bucket(p, rs, h));
        AskedBucket(p, o, Bucket(p, Survivors(p, n, rs), h));
      }
  }

  lemma {:induction false} SameOuters<O, I>(p: Plan<O, I>, n: nat, rs: seq<I>, os: seq<O>, j: nat)
    requires NothingLost(p, n, rs, os) && j <= |os|
    ensures AllOuter(p, Survivors(p, n, rs), os[j..]) == AllOuter(p, rs, os[j..])
    decreases |os| - j
  {
    if j < |os| {
      SameOuters(p, n, rs, os, j + 1);
      assert os[j..][0] == os[j] && os[j..][1..] == os[j + 1..];
      SameOuter(p, n, rs, os[j]);
    }
  }

  lemma {:induction false} SameInner<O, I>(p: Plan<O, I>, n: nat, rs: seq<I>, outer: seq<O>)
    requires PairsUp(p.kind) ==> NothingLost(p, n, rs, outer)
    ensures AllInner(p, outer, Survivors(p, n, rs)) == AllInner(p, outer, rs)
    decreases rs
  {
    if rs != [] {
      var i, left := rs[0], Survivors(p, n, rs[1..]);
      SameInner(p, n, rs[1..], outer);
      if Survives(p, n, i) { assert ([i] + left)[1..] == left; } else { assert [] + left == left; }
    }
  }

  lemma LostShows<O, I>(p: Plan<O, I>, n: nat, inner: seq<I>, outer: seq<O>)
    requires !NothingLost(p, n, inner, outer)
    ensures JoinRows(p, Survivors(p, n, inner), outer) != JoinRows(p, inner, outer)
  {
    var left := Survivors(p, n, inner);
    if PairsUp(p.kind) {
      var k :| 0 <= k < |inner| && !Survives(p, n, inner[k]) && !Silent(p, outer, inner[k]);
      var i := inner[k];
      InSurvivors(p, n, inner, i);
      if MatchedBySome(p, outer, i) {
        var j :| 0 <= j < |outer| && Matches(p, outer[j], i);
        PairJoined(p, inner, outer, outer[j], i);
        PairJoined(p, left, outer, outer[j], i);
      } else {
        AloneJoined(p, inner, outer, i);
        AloneJoined(p, left, outer, i);
      }
    } else {
      var k :| 0 <= k < |outer| && MatchesSome(p, outer[k], inner) && !MatchesSome(p, outer[k], left);
      SingleJoined(p, inner, outer, outer[k]);
      SingleJoined(p, left, outer, outer[k]);
    }
  }

  /** Splitting a join into batches leaves its rows as they are exactly when no skipped row would have shown. */
  lemma SpillTransparent<O, I>(p: Plan<O, I>, n: nat, inner: seq<I>, outer: seq<O>)
    ensures JoinRows(p, Survivors(p, n, inner), outer) == JoinRows(p, inner, outer) <==> NothingLost(p, n, inner, outer)
  {
    if NothingLost(p, n, inner, outer) {
      SameOuters(p, n, inner, outer, 0);
      assert outer[0..] == outer;
      SameInner(p, n, inner, outer);
    } else {
      LostShows(p, n, inner, outer);
    }
  }

  lemma {:induction false} AllSurvive<O, I>(p: Plan<O, I>, n: nat, rs: seq<I>)
    requires forall k :: 0 <= k < |rs| ==> Survives(p, n, rs[k])
    ensures Survivors(p, n, rs) == rs
    decreases rs
  {
    if rs != [] { AllSurvive(p, n, rs[1..]); }
  }

  /** With at most one key, whatever the memory, no inner row is lost: a row with a NULL key stays in batch 0. */
  lemma OneKeySurvives<O, I, D>(
      kind: Kind, outerKeys: O -> seq<Option<D>>, innerKeys: I -> seq<Option<D>>, datumHash: D -> nat,
      qual: (O, I) -> bool, n: nat, inner: seq<I>)
    requires forall k :: 0 <= k < |inner| ==> |innerKeys(inner[k])| <= 1
    ensures Survivors(KeyPlan(kind, outerKeys, innerKeys, datumHash, qual), n, inner) == inner
  {
    var p := KeyPlan(kind, outerKeys, innerKeys, datumHash, qual);
    forall k | 0 <= k < |inner| ensures Survives(p, n, inner[k]) {
      var keys := innerKeys(inner[k]);
      HashesAgree(datumHash, keys);
      if AnyNull(keys) {
        assert keys == [None];
        assert BuildHash(datumHash, keys) == 0 by { assert keys[..0] == []; }
        assert And(0, n) == 0;
      }
    }
    AllSurvive(p, n, inner);
  }

  // An inner row with keys 0 and NULL, hashed by a function that maps all keys to 0.
  function ExampleKeys(i: int): seq<Option<int>> { [Some(0), None] }
  function ExampleHash(d: int): nat { 0 }

  /** With two keys a right join loses that row when it takes two bytes and there is memory for one. */
  lemma TwoKeysLose()
    ensures var p := KeyPlan<int, int, int>(Right, ExampleKeys, ExampleKeys, ExampleHash, (o, i) => true);
      && Planned((i: int) => 2, 1, [7], 0) == 2
      && JoinRows(p, [7], []) == multiset{InnerOnly(7)}
      && JoinRows(p, Survivors(p, 2, [7]), []) == multiset{}
  {
    var p := KeyPlan<int, int, int>(Right, ExampleKeys, ExampleKeys, ExampleHash, (o, i) => true);
    var keys := ExampleKeys(7);
    HashesAgree(ExampleHash, keys);
    assert keys[1].None?;
    assert keys[..1] == [Some(0)] && keys[..1][..0] == [];
    assert BuildHash(ExampleHash, []) == 0;
    assert BuildHash(ExampleHash, keys[..1]) == Mix(0, 0) == Xor(0, 0x9e3779b9) == 0x9e3779b9;
    assert BuildHash(ExampleHash, keys) == 0x9e3779b9;
    assert p.innerHash(7) == BuildHash(ExampleHash, keys);
    assert And(0x9e3779b9, 1) == 1;
    assert Survivors(p, 2, [7]) == [];
  }
}
