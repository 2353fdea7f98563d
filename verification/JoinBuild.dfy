/** Building the batches of a hash join row by row. */
module JoinBuild {
  import opened HashKeys
  import opened Batches
  import opened JoinSpec
  import opened JoinSteps
  import opened JoinWhole

  lemma {:induction false} RouteAppend<O, I>(p: Plan<O, I>, n: nat, rs: seq<I>, i: I, b: nat)
    ensures Route(p, n, rs + [i], b) == Route(p, n, rs, b) + if BatchOf(n, p.innerHash(i)) == b then [i] else []
    decreases rs
  {
    if rs == [] {
      assert rs + [i] == [i];
    } else {
      RouteAppend(p, n, rs[1..], i, b);
      assert (rs + [i])[1..] == rs[1..] + [i];
    }
  }

  lemma {:induction false} NotNullAppend<O, I>(p: Plan<O, I>, rs: seq<I>, i: I)
    ensures NotNull(p, rs + [i]) == NotNull(p, rs) + if p.innerRehash(i).None? then [] else [i]
    decreases rs
  {
    if rs == [] {
      assert rs + [i] == [i];
    } else {
      NotNullAppend(p, rs[1..], i);
      assert (rs + [i])[1..] == rs[1..] + [i];
    }
  }

  lemma FreshAppend<O, I>(p: Plan<O, I>, rs: seq<I>, i: I)
    ensures Fresh(p, rs + [i]) == Fresh(p, rs) + [Entry(p.innerHash(i), i, false)]
  {
  }

  /** With one batch everything stays in it. */
  lemma {:induction false} OneBatch<O, I>(p: Plan<O, I>, rs: seq<I>)
    ensures Route(p, 1, rs, 0) == rs
    decreases rs
  {
    if rs != [] { OneBatch(p, rs[1..]); }
  }

  /** The batches and the table hold exactly the rows `rs`, each in its batch. */
  ghost predicate Held<O, I>(p: Plan<O, I>, n: nat, rs: seq<I>, table: seq<Entry<I>>, inners: seq<seq<I>>) {
    table == Fresh(p, Route(p, n, rs, 0)) && Spread(p, n, rs, inners)
  }

  /** One more row, in the table or in its batch. */
  lemma HoldOne<O, I>(p: Plan<O, I>, n: nat, rs: seq<I>, table: seq<Entry<I>>, inners: seq<seq<I>>, i: I)
    requires BatchesInRange(n) && Held(p, n, rs, table, inners)
    ensures var b := BatchOf(n, p.innerHash(i));
      if b == 0 then Held(p, n, rs + [i], table + [Entry(p.innerHash(i), i, false)], inners)
      else Held(p, n, rs + [i], table, inners[b - 1 := inners[b - 1] + [i]])
  {
    var b := BatchOf(n, p.innerHash(i));
    forall k ensures Route(p, n, rs + [i], k) == Route(p, n, rs, k) + if b == k then [i] else [] {
      RouteAppend(p, n, rs, i, k);
    }
    FreshAppend(p, Route(p, n, rs, 0), i);
  }

  lemma SpreadRehashes<O, I>(p: Plan<O, I>, n: nat, inner: seq<I>, inners: seq<seq<I>>)
    requires Rehashes(p, inner) && Spread(p, n, inner, inners)
    ensures forall k :: 0 <= k < |inners| ==> Rehashes(p, inners[k])
  {
    forall k, j | 0 <= k < |inners| && 0 <= j < |inners[k]|
      ensures var h := p.innerRehash(inners[k][j]); h.Some? ==> h.value == p.innerHash(inners[k][j])
    {
      RouteHome(p, n, inner, k + 1, inners[k][j]);
    }
  }

  /** The rows of the batches from `b` on. */
  ghost function RowsFrom<O, I>(p: Plan<O, I>, n: nat, rs: seq<I>, b: nat): multiset<I>
    decreases n - b
  {
    if b >= n then multiset{} else multiset(Route(p, n, rs, b)) + RowsFrom(p, n, rs, b + 1)
  }

  lemma {:induction false} RowsFromAppend<O, I>(p: Plan<O, I>, n: nat, rs: seq<I>, i: I, b: nat)
    ensures RowsFrom(p, n, rs + [i], b) ==
      RowsFrom(p, n, rs, b) + if b <= BatchOf(n, p.innerHash(i)) < n then multiset{i} else multiset{}
    decreases n - b
  {
    if b < n {
      RouteAppend(p, n, rs, i, b);
      RowsFromAppend(p, n, rs, i, b + 1);
    }
  }

  lemma {:induction false} NoRowsFrom<O, I>(p: Plan<O, I>, n: nat, b: nat)
    ensures RowsFrom(p, n, [], b) == multiset{}
    decreases n - b
  {
    if b < n { NoRowsFrom(p, n, b + 1); }
  }

  /** Spreading rows over batches loses none and doubles none. */
  lemma {:induction false} SpreadConserves<O, I>(p: Plan<O, I>, n: nat, rs: seq<I>)
    requires BatchesInRange(n)
    ensures RowsFrom(p, n, rs, 0) == multiset(rs)
    decreases |rs|
  {
    if rs == [] {
      NoRowsFrom(p, n, 0);
    } else {
      var k := |rs| - 1;
      SpreadConserves(p, n, rs[..k]);
      RowsFromAppend(p, n, rs[..k], rs[k], 0);
      assert rs == rs[..k] + [rs[k]];
    }
  }
}
