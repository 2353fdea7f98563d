/**
 Hash joins, said plainly: for every outer row its matches among the inner
 rows, then the inner rows nothing hit.  No batches, no table, no order.
 */
module JoinSpec {
  import opened Orders
  import opened HashKeys
  import opened Batches

  datatype Kind = Inner | Left | Full | Right | Semi | Anti

  datatype Row<O, I> = Pair(o: O, i: I) | OuterOnly(o: O) | InnerOnly(i: I) | SemiRow(o: O)

  /**
   A join: its kind, how outer rows, inner rows being built, and inner rows
   being read back are hashed, and the extra condition.  No hash means that
   some key is NULL.
   */
  datatype Plan<!O, !I> = Plan(
    kind: Kind,
    outerHash: O -> Option<nat>,
    innerHash: I -> nat,
    innerRehash: I -> Option<nat>,
    qual: (O, I) -> bool)

  /** The plan of a join on keys. */
  function KeyPlan<O, I, D>(
      kind: Kind, outerKeys: O -> seq<Option<D>>, innerKeys: I -> seq<Option<D>>, datumHash: D -> nat,
      qual: (O, I) -> bool): Plan<O, I>
  {
    Plan(kind, o => ProbeHash(datumHash, outerKeys(o)), i => BuildHash(datumHash, innerKeys(i)),
         i => ProbeHash(datumHash, innerKeys(i)), qual)
  }

  /** Hashing an inner row again gives the same hash, or none. */
  ghost predicate Rehashes<O, I>(p: Plan<O, I>, inner: seq<I>) {
    forall k :: 0 <= k < |inner| ==>
      var h := p.innerRehash(inner[k]); h.Some? ==> h.value == p.innerHash(inner[k])
  }

  lemma KeyPlanRehashes<O, I, D>(
      kind: Kind, outerKeys: O -> seq<Option<D>>, innerKeys: I -> seq<Option<D>>, datumHash: D -> nat,
      qual: (O, I) -> bool, inner: seq<I>)
    ensures Rehashes(KeyPlan(kind, outerKeys, innerKeys, datumHash, qual), inner)
  {
    forall k | 0 <= k < |inner| { HashesAgree(datumHash, innerKeys(inner[k])); }
  }

  predicate KeepsOuter(kind: Kind) {
    kind.Left? || kind.Full?
  }

  predicate KeepsInner(kind: Kind) {
    kind.Right? || kind.Full?
  }

  /** The inner rows with the given hash, in order. */
  function Bucket<O, I>(p: Plan<O, I>, rs: seq<I>, h: nat): seq<I> {
    if rs == [] then []
    else (if p.innerHash(rs[0]) == h then [rs[0]] else []) + Bucket(p, rs[1..], h)
  }

  /** What outer row `o` yields over the rest `es` of its bucket; `matched` tells whether it yielded something before. */
  ghost function ProbeRows<O, I>(p: Plan<O, I>, o: O, es: seq<I>, matched: bool): multiset<Row<O, I>>
    decreases |es|
  {
    if es == [] then
      if !matched && (KeepsOuter(p.kind) || p.kind.Anti?) then multiset{OuterOnly(o)} else multiset{}
    else if !p.qual(o, es[0]) then ProbeRows(p, o, es[1..], matched)
    else match p.kind
      case Semi => multiset{SemiRow(o)}
      case Anti => multiset{}
      case _ => multiset{Pair(o, es[0])} + ProbeRows(p, o, es[1..], true)
  }

  /** What an outer row with a NULL key yields. */
  ghost function NullRows<O, I>(p: Plan<O, I>, o: O): multiset<Row<O, I>> {
    if KeepsOuter(p.kind) || p.kind.Anti? then multiset{OuterOnly(o)} else multiset{}
  }

  ghost function OfOuter<O, I>(p: Plan<O, I>, inner: seq<I>, o: O): multiset<Row<O, I>> {
    match p.outerHash(o)
    case None => NullRows(p, o)
    case Some(h) => ProbeRows(p, o, Bucket(p, inner, h), false)
  }

  ghost predicate HashHit<O, I>(p: Plan<O, I>, h: nat, outer: seq<O>) {
    exists k :: 0 <= k < |outer| && p.outerHash(outer[k]) == Some(h)
  }

  ghost function OfInner<O, I>(p: Plan<O, I>, outer: seq<O>, i: I): multiset<Row<O, I>> {
    if KeepsInner(p.kind) && !HashHit(p, p.innerHash(i), outer) then multiset{InnerOnly(i)} else multiset{}
  }

  ghost function AllOuter<O, I>(p: Plan<O, I>, inner: seq<I>, os: seq<O>): multiset<Row<O, I>> {
    if os == [] then multiset{} else OfOuter(p, inner, os[0]) + AllOuter(p, inner, os[1..])
  }

  ghost function AllInner<O, I>(p: Plan<O, I>, outer: seq<O>, rs: seq<I>): multiset<Row<O, I>> {
    if rs == [] then multiset{} else OfInner(p, outer, rs[0]) + AllInner(p, outer, rs[1..])
  }

  /** The whole join, all at once. */
  ghost function JoinRows<O, I>(p: Plan<O, I>, inner: seq<I>, outer: seq<O>): multiset<Row<O, I>> {
    AllOuter(p, inner, outer) + AllInner(p, outer, inner)
  }

  // --------------------------------------------------------------- routing

  /** The inner rows of batch `b`, in order. */
  function Route<O, I>(p: Plan<O, I>, n: nat, rs: seq<I>, b: nat): seq<I> {
    if rs == [] then []
    else (if BatchOf(n, p.innerHash(rs[0])) == b then [rs[0]] else []) + Route(p, n, rs[1..], b)
  }

  /** The outer rows of batch `b`, in order; rows with a NULL key belong to none. */
  function RouteOuter<O, I>(p: Plan<O, I>, n: nat, os: seq<O>, b: nat): seq<O> {
    if os == [] then []
    else
      var h := p.outerHash(os[0]);
      (if h.Some? && BatchOf(n, h.value) == b then [os[0]] else []) + RouteOuter(p, n, os[1..], b)
  }

  /** What is left of a spilled inner batch when it is read back: rows with a NULL key are skipped. */
  function NotNull<O, I>(p: Plan<O, I>, rs: seq<I>): seq<I> {
    if rs == [] then []
    else (if p.innerRehash(rs[0]).None? then [] else [rs[0]]) + NotNull(p, rs[1..])
  }

  predicate Survives<O, I>(p: Plan<O, I>, n: nat, i: I) {
    BatchOf(n, p.innerHash(i)) == 0 || !p.innerRehash(i).None?
  }

  /** The inner rows that take part in the join when there are `n` batches. */
  function Survivors<O, I>(p: Plan<O, I>, n: nat, rs: seq<I>): seq<I> {
    if rs == [] then []
    else (if Survives(p, n, rs[0]) then [rs[0]] else []) + Survivors(p, n, rs[1..])
  }

  /** The inner rows of batch `b` as the join sees them. */
  function Loaded<O, I>(p: Plan<O, I>, n: nat, rs: seq<I>, b: nat): seq<I> {
    if b == 0 then Route(p, n, rs, 0) else NotNull(p, Route(p, n, rs, b))
  }

  lemma {:induction false} LoadedIsSurviving<O, I>(p: Plan<O, I>, n: nat, rs: seq<I>, b: nat)
    ensures Loaded(p, n, rs, b) == Route(p, n, Survivors(p, n, rs), b)
    decreases rs
  {
    if rs != [] {
      LoadedIsSurviving(p, n, rs[1..], b);
      var i, rest := rs[0], rs[1..];
      if Survives(p, n, i) { assert ([i] + Survivors(p, n, rest))[1..] == Survivors(p, n, rest); }
      else { assert [] + Survivors(p, n, rest) == Survivors(p, n, rest); }
      if BatchOf(n, p.innerHash(i)) == b { assert ([i] + Route(p, n, rest, b))[1..] == Route(p, n, rest, b); }
      else { assert [] + Route(p, n, rest, b) == Route(p, n, rest, b); }
    }
  }

  /** A bucket lies within one batch. */
  lemma {:induction false} BucketInBatch<O, I>(p: Plan<O, I>, n: nat, rs: seq<I>, h: nat)
    ensures Bucket(p, Route(p, n, rs, BatchOf(n, h)), h) == Bucket(p, rs, h)
    decreases rs
  {
    if rs != [] {
      var i, rest, b := rs[0], rs[1..], BatchOf(n, h);
      BucketInBatch(p, n, rest, h);
      if BatchOf(n, p.innerHash(i)) == b { assert ([i] + Route(p, n, rest, b))[1..] == Route(p, n, rest, b); }
      else { assert [] + Route(p, n, rest, b) == Route(p, n, rest, b); }
    }
  }

  /** So is a hit. */
  lemma {:induction false} HitInBatch<O, I>(p: Plan<O, I>, n: nat, os: seq<O>, h: nat)
    ensures HashHit(p, h, RouteOuter(p, n, os, BatchOf(n, h))) <==> HashHit(p, h, os)
    decreases os
  {
    if os != [] {
      var b := BatchOf(n, h);
      HitInBatch(p, n, os[1..], h);
      HitCons(p, h, os[0], os[1..]);
      assert os == [os[0]] + os[1..];
      var rest := RouteOuter(p, n, os[1..], b);
      HitCons(p, h, os[0], rest);
      assert [] + rest == rest;
    }
  }

  lemma HitCons<O, I>(p: Plan<O, I>, h: nat, o: O, os: seq<O>)
    ensures HashHit(p, h, [o] + os) <==> p.outerHash(o) == Some(h) || HashHit(p, h, os)
  {
    var s := [o] + os;
    if HashHit(p, h, os) {
      var k :| 0 <= k < |os| && p.outerHash(os[k]) == Some(h);
      assert s[k + 1] == os[k];
    }
    if p.outerHash(o) == Some(h) { assert s[0] == o; }
    if HashHit(p, h, s) {
      var k :| 0 <= k < |s| && p.outerHash(s[k]) == Some(h);
      assert k > 0 ==> s[k] == os[k - 1];
    }
  }

  // ------------------------------------------ batch by batch, all at once

  /** Batch `b`'s share of the outer rows; rows with a NULL key are dealt with in batch 0. */
  ghost function OuterShare<O, I>(p: Plan<O, I>, n: nat, inner: seq<I>, os: seq<O>, b: nat): multiset<Row<O, I>> {
    if os == [] then multiset{}
    else (if Home(p, n, os[0]) == b then OfOuter(p, inner, os[0]) else multiset{}) + OuterShare(p, n, inner, os[1..], b)
  }

  function Home<O, I>(p: Plan<O, I>, n: nat, o: O): nat {
    match p.outerHash(o)
    case None => 0
    case Some(h) => BatchOf(n, h)
  }

  ghost function InnerShare<O, I>(p: Plan<O, I>, n: nat, outer: seq<O>, rs: seq<I>, b: nat): multiset<Row<O, I>> {
    if rs == [] then multiset{}
    else (if BatchOf(n, p.innerHash(rs[0])) == b then OfInner(p, outer, rs[0]) else multiset{})
         + InnerShare(p, n, outer, rs[1..], b)
  }

  /** The shares of batches `b` and up. */
  ghost function OuterShares<O, I>(p: Plan<O, I>, n: nat, inner: seq<I>, os: seq<O>, b: nat): multiset<Row<O, I>>
    decreases n - b
  {
    if b >= n then multiset{} else OuterShare(p, n, inner, os, b) + OuterShares(p, n, inner, os, b + 1)
  }

  ghost function InnerShares<O, I>(p: Plan<O, I>, n: nat, outer: seq<O>, rs: seq<I>, b: nat): multiset<Row<O, I>>
    decreases n - b
  {
    if b >= n then multiset{} else InnerShare(p, n, outer, rs, b) + InnerShares(p, n, outer, rs, b + 1)
  }

  lemma Interleave<R>(a: multiset<R>, b: multiset<R>, c: multiset<R>, d: multiset<R>)
    ensures (a + b) + (c + d) == (a + c) + (b + d)
  {
  }

  lemma {:induction false} OuterSharesCons<O, I>(p: Plan<O, I>, n: nat, inner: seq<I>, os: seq<O>, b: nat)
    requires os != []
    ensures OuterShares(p, n, inner, os, b) ==
      (if b <= Home(p, n, os[0]) < n then OfOuter(p, inner, os[0]) else multiset{}) + OuterShares(p, n, inner, os[1..], b)
    decreases n - b
  {
    if b < n {
      OuterSharesCons(p, n, inner, os, b + 1);
      var home, all, none := Home(p, n, os[0]), OfOuter(p, inner, os[0]), multiset{};
      Interleave(if home == b then all else none, OuterShare(p, n, inner, os[1..], b),
        if b + 1 <= home < n then all else none, OuterShares(p, n, inner, os[1..], b + 1));
    }
  }

  lemma {:induction false} InnerSharesCons<O, I>(p: Plan<O, I>, n: nat, outer: seq<O>, rs: seq<I>, b: nat)
    requires rs != []
    ensures InnerShares(p, n, outer, rs, b) ==
      (if b <= BatchOf(n, p.innerHash(rs[0])) < n then OfInner(p, outer, rs[0]) else multiset{})
      + InnerShares(p, n, outer, rs[1..], b)
    decreases n - b
  {
    if b < n {
      InnerSharesCons(p, n, outer, rs, b + 1);
      var home, all, none := BatchOf(n, p.innerHash(rs[0])), OfInner(p, outer, rs[0]), multiset{};
      Interleave(if home == b then all else none, InnerShare(p, n, outer, rs[1..], b),
        if b + 1 <= home < n then all else none, InnerShares(p, n, outer, rs[1..], b + 1));
    }
  }

  lemma {:induction false} EmptyShares<O, I>(p: Plan<O, I>, n: nat, inner: seq<I>, outer: seq<O>, b: nat)
    ensures OuterShares(p, n, inner, [], b) == multiset{} && InnerShares(p, n, outer, [], b) == multiset{}
    decreases n - b
  {
    if b < n { EmptyShares(p, n, inner, outer, b + 1); }
  }

  lemma HomeInRange<O, I>(p: Plan<O, I>, n: nat, o: O)
    requires BatchesInRange(n)
    ensures Home(p, n, o) < n
  {
  }

  /** The shares of all batches are all rows. */
  lemma {:induction false} SharesOfOuter<O, I>(p: Plan<O, I>, n: nat, inner: seq<I>, os: seq<O>)
    requires BatchesInRange(n)
    ensures OuterShares(p, n, inner, os, 0) == AllOuter(p, inner, os)
    decreases os
  {
    if os == [] {
      EmptyShares(p, n, inner, os, 0);
    } else {
      var first, rest := OfOuter(p, inner, os[0]), AllOuter(p, inner, os[1..]);
      assert OuterShares(p, n, inner, os, 0) == first + rest by {
        HomeInRange(p, n, os[0]);
        OuterSharesCons(p, n, inner, os, 0);
        SharesOfOuter(p, n, inner, os[1..]);
      }
    }
  }

  lemma {:induction false} SharesOfInner<O, I>(p: Plan<O, I>, n: nat, outer: seq<O>, rs: seq<I>)
    requires BatchesInRange(n)
    ensures InnerShares(p, n, outer, rs, 0) == AllInner(p, outer, rs)
    decreases rs
  {
    if rs == [] {
      EmptyShares(p, n, rs, outer, 0);
    } else {
      InnerSharesCons(p, n, outer, rs, 0);
      SharesOfInner(p, n, outer, rs[1..]);
    }
  }
}
