/** The batches of a hash join, worked off one after the other, yield the whole join. */
module JoinWhole {
  import opened HashKeys
  import opened Batches
  import opened JoinSpec
  import opened JoinSteps

  /** The inner rows are spread over the batches by their hash, in order. */
  ghost predicate Spread<O, I>(p: Plan<O, I>, n: nat, inner: seq<I>, inners: seq<seq<I>>) {
    && |inners| == n - 1
    && forall k :: 0 <= k < |inners| ==> inners[k] == Route(p, n, inner, k + 1)
  }

  ghost predicate SpreadOuter<O, I>(p: Plan<O, I>, n: nat, outer: seq<O>, outers: seq<seq<O>>) {
    && |outers| == n - 1
    && forall k :: 0 <= k < |outers| ==> outers[k] == RouteOuter(p, n, outer, k + 1)
  }

  lemma {:induction false} AsideOuter<O, I>(p: Plan<O, I>, n: nat, batches: seq<seq<O>>, os: seq<O>, k: nat)
    requires BatchesInRange(n) && |batches| == n - 1 && k < n - 1
    ensures AllAside(p, n, 0, batches, os)[k] == batches[k] + RouteOuter(p, n, os, k + 1)
    decreases |os|
  {
    if os == [] {
      assert batches[k] + [] == batches[k];
    } else {
      AsideOuter(p, n, Aside(p, n, 0, batches, os[0]), os[1..], k);
    }
  }

  /** After batch 0 every spilled outer row is in its batch. */
  lemma SpreadByBatchZero<O, I>(p: Plan<O, I>, n: nat, outer: seq<O>)
    requires BatchesInRange(n)
    ensures SpreadOuter(p, n, outer, AllAside(p, n, 0, seq(n - 1, _ => []), outer))
  {
    var none: seq<seq<O>> := seq(n - 1, _ => []);
    var outers := AllAside(p, n, 0, none, outer);
    forall k | 0 <= k < n - 1 ensures outers[k] == RouteOuter(p, n, outer, k + 1) {
      AsideOuter(p, n, none, outer, k);
      assert none[k] + RouteOuter(p, n, outer, k + 1) == RouteOuter(p, n, outer, k + 1);
    }
  }

  ghost predicate AllHome<O, I>(p: Plan<O, I>, n: nat, b: nat, os: seq<O>) {
    forall k :: 0 <= k < |os| ==> p.outerHash(os[k]).Some? && BatchOf(n, p.outerHash(os[k]).value) == b
  }

  lemma {:induction false} RouteOuterHome<O, I>(p: Plan<O, I>, n: nat, os: seq<O>, b: nat)
    ensures AllHome(p, n, b, RouteOuter(p, n, os, b))
    decreases os
  {
    if os != [] { RouteOuterHome(p, n, os[1..], b); }
  }

  lemma {:induction false} RouteHome<O, I>(p: Plan<O, I>, n: nat, rs: seq<I>, b: nat, i: I)
    requires i in Route(p, n, rs, b)
    ensures i in rs && BatchOf(n, p.innerHash(i)) == b
    decreases rs
  {
    if rs != [] && i in Route(p, n, rs[1..], b) { RouteHome(p, n, rs[1..], b, i); }
  }

  /** No row of a spilled batch is spilled again. */
  lemma {:induction false} NothingAside<O, I>(p: Plan<O, I>, n: nat, b: nat, batches: seq<seq<O>>, os: seq<O>)
    requires BatchesInRange(n) && |batches| == n - 1 && AllHome(p, n, b, os)
    ensures AllAside(p, n, b, batches, os) == batches
    decreases |os|
  {
    if os != [] { NothingAside(p, n, b, batches, os[1..]); }
  }

  // ------------------------------------------------------------- one batch

  lemma {:induction false} ScanIsAllInner<O, I>(p: Plan<O, I>, rs: seq<I>, os: seq<O>, j: nat)
    requires j <= |rs|
    ensures ScanRows(p, Fresh(p, rs), [], os, j) == AllInner(p, os, rs[j..])
    decreases |rs| - j
  {
    if j < |rs| {
      ScanIsAllInner(p, rs, os, j + 1);
      assert rs[j..][0] == rs[j] && rs[j..][1..] == rs[j + 1..];
    }
  }

  lemma InnerHit<O, I>(p: Plan<O, I>, n: nat, outer: seq<O>, b: nat, i: I)
    requires BatchOf(n, p.innerHash(i)) == b
    ensures OfInner(p, RouteOuter(p, n, outer, b), i) == OfInner(p, outer, i)
  {
    HitInBatch(p, n, outer, p.innerHash(i));
  }

  /** Only outer rows of its own batch can hit an inner row. */
  lemma {:induction false} InnerShareOf<O, I>(p: Plan<O, I>, n: nat, outer: seq<O>, rs: seq<I>, b: nat, os: seq<O>)
    requires os == outer || os == RouteOuter(p, n, outer, b)
    ensures AllInner(p, os, Route(p, n, rs, b)) == InnerShare(p, n, outer, rs, b)
    decreases rs
  {
    if rs != [] {
      InnerShareOf(p, n, outer, rs[1..], b, os);
      var i, rest := rs[0], Route(p, n, rs[1..], b);
      if BatchOf(n, p.innerHash(i)) == b {
        InnerHit(p, n, outer, b, i);
        assert ([i] + rest)[1..] == rest;
      } else {
        assert [] + rest == rest;
      }
    }
  }

  lemma OneOuter<O, I>(p: Plan<O, I>, n: nat, rs: seq<I>, b: nat, o: O)
    ensures b == 0 || p.outerHash(o).Some? ==>
      OuterRow(p, n, b, Route(p, n, rs, b), o) == if Home(p, n, o) == b then OfOuter(p, rs, o) else multiset{}
  {
    match p.outerHash(o)
    case None =>
    case Some(h) => BucketInBatch(p, n, rs, h);
  }

  /** Batch 0 sees all outer rows, and leaves those of other batches aside. */
  lemma {:induction false} OuterShareZero<O, I>(p: Plan<O, I>, n: nat, rs: seq<I>, os: seq<O>)
    ensures OuterRows(p, n, 0, Route(p, n, rs, 0), os) == OuterShare(p, n, rs, os, 0)
    decreases os
  {
    if os != [] {
      OneOuter(p, n, rs, 0, os[0]);
      OuterShareZero(p, n, rs, os[1..]);
    }
  }

  lemma {:induction false} OuterShareOf<O, I>(p: Plan<O, I>, n: nat, rs: seq<I>, os: seq<O>, b: nat)
    requires b > 0
    ensures OuterRows(p, n, b, Route(p, n, rs, b), RouteOuter(p, n, os, b)) == OuterShare(p, n, rs, os, b)
    decreases os
  {
    if os != [] {
      OuterShareOf(p, n, rs, os[1..], b);
      var o, rest := os[0], RouteOuter(p, n, os[1..], b);
      if Home(p, n, o) == b {
        OneOuter(p, n, rs, b, o);
        assert ([o] + rest)[1..] == rest;
      } else {
        assert [] + rest == rest;
      }
    }
  }

  /** What a batch yields is its share of the whole. */
  lemma BatchShare<O, I>(p: Plan<O, I>, n: nat, inner: seq<I>, outer: seq<O>, b: nat, os: seq<O>)
    requires os == if b == 0 then outer else RouteOuter(p, n, outer, b)
    ensures var all := Survivors(p, n, inner);
      BatchRows(p, n, b, Fresh(p, Loaded(p, n, inner, b)), [], os) ==
        OuterShare(p, n, all, outer, b) + InnerShare(p, n, outer, all, b)
  {
    var all := Survivors(p, n, inner);
    var rs := Loaded(p, n, inner, b);
    LoadedIsSurviving(p, n, inner, b);
    assert Rows(Fresh(p, rs)) == rs;
    ScanIsAllInner(p, rs, os, 0);
    assert rs[0..] == rs;
    InnerShareOf(p, n, outer, all, b, os);
    if b == 0 { OuterShareZero(p, n, all, outer); } else { OuterShareOf(p, n, all, outer, b); }
  }

  lemma {:induction false} LaterShares<O, I>(
      p: Plan<O, I>, n: nat, inner: seq<I>, outer: seq<O>, b: nat, inners: seq<seq<I>>, outers: seq<seq<O>>)
    requires BatchesInRange(n) && b > 0
    requires Spread(p, n, inner, inners) && SpreadOuter(p, n, outer, outers)
    ensures var all := Survivors(p, n, inner);
      Later(p, n, b, inners, outers) == OuterShares(p, n, all, outer, b) + InnerShares(p, n, outer, all, b)
    decreases n - b
  {
    if b < n {
      var os := outers[b - 1];
      RouteOuterHome(p, n, outer, b);
      NothingAside(p, n, b, outers, os);
      BatchShare(p, n, inner, outer, b, os);
      LaterShares(p, n, inner, outer, b + 1, inners, outers);
    }
  }

  /** The whole join: batch by batch the join yields exactly what the surviving inner rows make of it. */
  lemma WholeJoin<O, I>(p: Plan<O, I>, n: nat, inner: seq<I>, outer: seq<O>, inners: seq<seq<I>>)
    requires BatchesInRange(n) && Spread(p, n, inner, inners)
    ensures
      BatchRows(p, n, 0, Fresh(p, Route(p, n, inner, 0)), [], outer)
      + Later(p, n, 1, inners, AllAside(p, n, 0, seq(n - 1, _ => []), outer))
      == JoinRows(p, Survivors(p, n, inner), outer)
  {
    var all := Survivors(p, n, inner);
    BatchShare(p, n, inner, outer, 0, outer);
    SpreadByBatchZero(p, n, outer);
    LaterShares(p, n, inner, outer, 1, inners, AllAside(p, n, 0, seq(n - 1, _ => []), outer));
    SharesOfOuter(p, n, all, outer);
    SharesOfInner(p, n, outer, all);
  }
}
