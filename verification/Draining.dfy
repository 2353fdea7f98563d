/** Emptying a queue: both heaps sort, and they agree position by position. */
module Draining {
  import opened Orders
  import opened BinaryHeap
  import opened PairShape
  import opened PairingHeap

  ghost predicate Sorted<T>(cmp: (T, T) -> bool, s: seq<T>) {
    forall i, j :: 0 <= i < j < |s| ==> !cmp(s[j], s[i])
  }

  /** Nothing still to come precedes what was taken already. */
  ghost predicate Precedes<T>(cmp: (T, T) -> bool, s: seq<T>, rest: multiset<T>) {
    forall x, y :: x in s && y in rest ==> !cmp(y, x)
  }

  lemma TakeFirst<T(!new)>(cmp: (T, T) -> bool, s: seq<T>, rest: multiset<T>, v: T)
    requires Sorted(cmp, s) && Precedes(cmp, s, rest) && First(cmp, v, rest)
    ensures Sorted(cmp, s + [v]) && Precedes(cmp, s + [v], rest - multiset{v})
    ensures multiset(s + [v]) + (rest - multiset{v}) == multiset(s) + rest
  {
    assert forall y :: y in rest - multiset{v} ==> y in rest;
  }

  method DrainBinary<T(!new)>(h: BinaryHeap<T>) returns (out: seq<T>)
    requires h.Valid()
    modifies h`data, h`swaps
    ensures h.Valid() && h.data == []
    ensures Sorted(h.cmp, out) && multiset(out) == old(h.Contents())
  {
    out := [];
    while h.data != []
      invariant h.Valid() && Sorted(h.cmp, out) && Precedes(h.cmp, out, h.Contents())
      invariant multiset(out) + h.Contents() == old(h.Contents())
      decreases |h.data|
    {
      ghost var rest := h.Contents();
      var v := h.Pop();
      TakeFirst(h.cmp, out, rest, v.value);
      out := out + [v.value];
    }
  }

  method DrainPairing<T(!new)>(h: PairingHeap<T>) returns (out: seq<T>)
    requires h.Valid()
    modifies h`root, h`size, h`shape, h`cells, h`freed, h`destroyed, h`links, h.cells.Keys
    ensures h.Valid() && h.Contents() == multiset{} && h.freed == h.made == old(h.made)
    ensures Sorted(h.cmp, out) && multiset(out) == old(h.Contents())
  {
    out := [];
    while h.root != null
      invariant h.Valid() && h.cells.Keys <= old(h.cells.Keys)
      invariant Sorted(h.cmp, out) && Precedes(h.cmp, out, h.Contents())
      invariant multiset(out) + h.Contents() == old(h.Contents())
      decreases h.size
    {
      ghost var rest, c := h.Contents(), h.cmp;
      var v := h.Pop();
      TakeFirst(c, out, rest, v.value);
      out := out + [v.value];
    }
  }

  // -------------------------------------------------------------- agreement

  /** How many values in `s` precede `v`. */
  function CountBefore<T>(cmp: (T, T) -> bool, s: seq<T>, v: T): nat {
    if s == [] then 0 else (if cmp(s[0], v) then 1 else 0) + CountBefore(cmp, s[1..], v)
  }

  lemma {:induction false} CountConcat<T>(cmp: (T, T) -> bool, s: seq<T>, t: seq<T>, v: T)
    ensures CountBefore(cmp, s + t, v) == CountBefore(cmp, s, v) + CountBefore(cmp, t, v)
    decreases s
  {
    if s == [] {
      assert s + t == t;
    } else {
      assert (s + t)[1..] == s[1..] + t;
      CountConcat(cmp, s[1..], t, v);
    }
  }

  lemma {:induction false} CountAll<T>(cmp: (T, T) -> bool, s: seq<T>, v: T)
    ensures (forall x :: x in s ==> cmp(x, v)) ==> CountBefore(cmp, s, v) == |s|
    ensures (forall x :: x in s ==> !cmp(x, v)) ==> CountBefore(cmp, s, v) == 0
    ensures CountBefore(cmp, s, v) <= |s|
    decreases s
  {
    if s != [] {
      CountAll(cmp, s[1..], v);
      assert s[0] in s && forall x :: x in s[1..] ==> x in s;
    }
  }

  lemma Without<T>(s: seq<T>, k: nat)
    requires k < |s|
    ensures s == s[..k] + [s[k]] + s[k + 1..]
    ensures multiset(s[..k] + s[k + 1..]) == multiset(s) - multiset{s[k]}
  {
    assert s == s[..k] + [s[k]] + s[k + 1..];
  }

  /** The first value of one listing, found in another of the same values. */
  lemma FirstFound<T>(s: seq<T>, t: seq<T>) returns (k: nat)
    requires s != [] && multiset(s) == multiset(t)
    ensures k < |t| && t[k] == s[0] && multiset(s[1..]) == multiset(t[..k] + t[k + 1..])
  {
    assert s[0] in multiset(t);
    k :| 0 <= k < |t| && t[k] == s[0];
    Without(s, 0);
    Without(t, k);
    assert s[..0] + s[1..] == s[1..];
  }

  lemma {:induction false} CountSame<T>(cmp: (T, T) -> bool, s: seq<T>, t: seq<T>, v: T)
    requires multiset(s) == multiset(t)
    ensures CountBefore(cmp, s, v) == CountBefore(cmp, t, v)
    decreases s
  {
    if s == [] {
      assert |multiset(t)| == |t|;
    } else {
      var k := FirstFound(s, t);
      CountWithout(cmp, t, k, v);
      CountSame(cmp, s[1..], t[..k] + t[k + 1..], v);
    }
  }

  lemma CountWithout<T>(cmp: (T, T) -> bool, t: seq<T>, k: nat, v: T)
    requires k < |t|
    ensures CountBefore(cmp, t, v) == (if cmp(t[k], v) then 1 else 0) + CountBefore(cmp, t[..k] + t[k + 1..], v)
  {
    Without(t, k);
    CountConcat(cmp, t[..k] + [t[k]], t[k + 1..], v);
    CountConcat(cmp, t[..k], [t[k]], v);
    CountConcat(cmp, t[..k], t[k + 1..], v);
  }

  /** At most `i` values of a sorted sequence precede the one at `i`. */
  lemma SortedAtMost<T(!new)>(cmp: (T, T) -> bool, s: seq<T>, i: nat)
    requires StrictWeakOrder(cmp) && Sorted(cmp, s) && i < |s|
    ensures CountBefore(cmp, s, s[i]) <= i
  {
    assert s == s[..i] + s[i..];
    CountConcat(cmp, s[..i], s[i..], s[i]);
    CountAll(cmp, s[..i], s[i]);
    forall x | x in s[i..] ensures !cmp(x, s[i]) {
      var j :| 0 <= j < |s[i..]| && s[i..][j] == x;
      assert x == s[i + j];
    }
    CountAll(cmp, s[i..], s[i]);
  }

  /** More than `i` values of a sorted sequence precede whatever the one at `i` precedes. */
  lemma SortedAtLeast<T(!new)>(cmp: (T, T) -> bool, s: seq<T>, i: nat, v: T)
    requires StrictWeakOrder(cmp) && Sorted(cmp, s) && i < |s| && cmp(s[i], v)
    ensures CountBefore(cmp, s, v) > i
  {
    assert s == s[..i + 1] + s[i + 1..];
    CountConcat(cmp, s[..i + 1], s[i + 1..], v);
    forall x | x in s[..i + 1] ensures cmp(x, v) {
      var j :| 0 <= j < i + 1 && s[..i + 1][j] == x;
      assert x == s[j] && (j < i ==> !cmp(s[i], s[j]));
    }
    CountAll(cmp, s[..i + 1], v);
  }

  /** Two sorted listings of the same values agree everywhere, up to equivalence. */
  lemma SortedAgree<T(!new)>(cmp: (T, T) -> bool, s: seq<T>, t: seq<T>)
    requires StrictWeakOrder(cmp) && Sorted(cmp, s) && Sorted(cmp, t) && multiset(s) == multiset(t)
    ensures |s| == |t|
    ensures forall i :: 0 <= i < |s| ==> Equivalent(cmp, s[i], t[i])
  {
    assert |s| == |multiset(s)| == |t|;
    forall i | 0 <= i < |s| ensures Equivalent(cmp, s[i], t[i]) {
      NotBefore(cmp, s, t, i);
      NotBefore(cmp, t, s, i);
    }
  }

  lemma NotBefore<T(!new)>(cmp: (T, T) -> bool, s: seq<T>, t: seq<T>, i: nat)
    requires StrictWeakOrder(cmp) && Sorted(cmp, s) && Sorted(cmp, t) && multiset(s) == multiset(t)
    requires i < |s| == |t|
    ensures !cmp(s[i], t[i])
  {
    if cmp(s[i], t[i]) {
      SortedAtLeast(cmp, s, i, t[i]);
      SortedAtMost(cmp, t, i);
      CountSame(cmp, s, t, t[i]);
    }
  }

  lemma OneMore<T>(s: seq<T>, i: nat)
    requires i < |s|
    ensures multiset(s[..i + 1]) == multiset(s[..i]) + multiset{s[i]}
  {
    assert s[..i + 1] == s[..i] + [s[i]];
  }

  /** Fed the same values in any order, both queues are emptied in the same order, up to equivalence. */
  method DrainBoth<T(!new)>(cmp: (T, T) -> bool, xs: seq<T>, ys: seq<T>) returns (a: seq<T>, b: seq<T>)
    requires StrictWeakOrder(cmp) && multiset(xs) == multiset(ys)
    ensures Sorted(cmp, a) && multiset(a) == multiset(xs)
    ensures |a| == |b| && forall i :: 0 <= i < |a| ==> Equivalent(cmp, a[i], b[i])
  {
    var g := new BinaryHeap(cmp);
    for i := 0 to |xs|
      invariant g.Valid() && g.cmp == cmp && g.Contents() == multiset(xs[..i])
    {
      OneMore(xs, i);
      g.Add(xs[i]);
    }
    assert xs[..|xs|] == xs;
    a := DrainBinary(g);
    b := FillAndDrain(cmp, ys);
    SortedAgree(cmp, a, b);
  }

  /** Adds all values; `owned` holds the nodes the heap has. */
  method AddAll<T(!new)>(h: PairingHeap<T>, ys: seq<T>, ghost owned: set<Node<T>>)
    requires h.Valid() && h.cells.Keys <= owned
    modifies h`root, h`size, h`shape, h`cells, h`made, h`links, owned
    ensures h.Valid() && fresh(h.cells.Keys - owned)
    ensures h.Contents() == old(h.Contents()) + multiset(ys)
    decreases ys
  {
    if ys == [] {
      return;
    }
    assert ys == [ys[0]] + ys[1..];
    ghost var z := h.Add(ys[0]);
    AddAll(h, ys[1..], owned + {z});
  }

  method FillAndDrain<T(!new)>(cmp: (T, T) -> bool, ys: seq<T>) returns (b: seq<T>)
    requires StrictWeakOrder(cmp)
    ensures Sorted(cmp, b) && multiset(b) == multiset(ys)
  {
    var h := new PairingHeap(cmp);
    AddAll(h, ys, {});
    b := DrainPairing(h);
  }
}
