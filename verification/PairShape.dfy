/**
 Pairing heaps as values: the leftmost-child / next-sibling binary trees behind
 the pointers, melding, the two-pass pairing, heap order and contents.
 */
module PairShape {
  import opened Orders
  import opened Seqs

  class Node<T> {
    const value: T
    var child: Node?<T>
    var sibling: Node?<T>
    var prev: Node?<T>

    constructor (v: T)
      ensures value == v && child == null && sibling == null && prev == null
    {
      value := v;
      child, sibling, prev := null, null, null;
    }
  }

  /** A node, the list of its children, and the rest of the list it stands in. */
  datatype Tree<N> = Leaf | Tree(node: N, child: Tree<N>, sibling: Tree<N>)

  type Heap<T> = Tree<Node<T>>

  predicate Single<N>(t: Tree<N>) {
    t.Tree? && t.sibling.Leaf?
  }

  function Joined<T>(cmp: (T, T) -> bool, a: Heap<T>, b: Heap<T>): Heap<T> {
    if a.Leaf? then b
    else if b.Leaf? then a
    else if cmp(b.node.value, a.node.value) then Tree(b.node, Tree(a.node, a.child, b.child), Leaf)
    else Tree(a.node, Tree(b.node, b.child, a.child), Leaf)
  }

  /** How many links joining two trees takes. */
  function LinksOf<N>(a: Tree<N>, b: Tree<N>): nat {
    if a.Tree? && b.Tree? then 1 else 0
  }

  /** The trees of a sibling list, each on its own. */
  function Singles<N>(t: Tree<N>): (ss: seq<Tree<N>>)
    ensures forall s :: s in ss ==> Single(s)
    ensures |ss| > 0 <==> t.Tree?
  {
    if t.Leaf? then [] else [Tree(t.node, t.child, Leaf)] + Singles(t.sibling)
  }

  function PairUp<T>(cmp: (T, T) -> bool, ss: seq<Heap<T>>): (ps: seq<Heap<T>>)
    ensures |ps| == (|ss| + 1) / 2
  {
    if |ss| < 2 then ss else [Joined(cmp, ss[0], ss[1])] + PairUp(cmp, ss[2..])
  }

  lemma PairUpStep<T>(cmp: (T, T) -> bool, ms: seq<Heap<T>>, rest: seq<Heap<T>>)
    requires |rest| >= 2
    ensures ms + rest == ms + [rest[0], rest[1]] + rest[2..]
    ensures ms + PairUp(cmp, rest) == ms + [Joined(cmp, rest[0], rest[1])] + PairUp(cmp, rest[2..])
  {
    TakeTwo(rest);
    Assoc(ms, [rest[0], rest[1]], rest[2..]);
    Assoc(ms, [Joined(cmp, rest[0], rest[1])], PairUp(cmp, rest[2..]));
  }

  function MeldAll<T>(cmp: (T, T) -> bool, ss: seq<Heap<T>>): Heap<T>
    requires |ss| > 0
  {
    if |ss| == 1 then ss[0] else Joined(cmp, ss[0], MeldAll(cmp, ss[1..]))
  }

  function TwoPass<T>(cmp: (T, T) -> bool, t: Heap<T>): Heap<T> {
    if t.Leaf? then Leaf else MeldAll(cmp, PairUp(cmp, Singles(t)))
  }

  // ---------------------------------------------------------------- contents

  ghost function Nodes<N>(t: Tree<N>): set<N> {
    match t
    case Leaf => {}
    case Tree(n, c, s) => {n} + Nodes(c) + Nodes(s)
  }

  /** No node occurs twice. */
  ghost predicate Distinct<N>(t: Tree<N>) {
    match t
    case Leaf => true
    case Tree(n, c, s) => n !in Nodes(c) && n !in Nodes(s) && Nodes(c) !! Nodes(s) && Distinct(c) && Distinct(s)
  }

  /** The nodes of a list of trees, children before parents and later trees before earlier ones. */
  ghost function PostOrder<N>(t: Tree<N>): seq<N> {
    match t
    case Leaf => []
    case Tree(n, c, s) => PostOrder(c) + PostOrder(s) + [n]
  }

  lemma {:induction false} PostOrderOnce<N>(t: Tree<N>)
    requires Distinct(t)
    ensures Once(PostOrder(t), Nodes(t))
  {
    if t.Tree? {
      PostOrderOnce(t.child);
      PostOrderOnce(t.sibling);
      OnceAll(PostOrder(t.child), Nodes(t.child), PostOrder(t.sibling), Nodes(t.sibling));
      OnceMore(PostOrder(t.child) + PostOrder(t.sibling), Nodes(t.child) + Nodes(t.sibling), t.node);
      assert Nodes(t) == Nodes(t.child) + Nodes(t.sibling) + {t.node};
    }
  }

  ghost function Values<T>(t: Heap<T>): multiset<T> {
    match t
    case Leaf => multiset{}
    case Tree(n, c, s) => multiset{n.value} + Values(c) + Values(s)
  }

  ghost function ValuesOf<T>(ss: seq<Heap<T>>): multiset<T> {
    if ss == [] then multiset{} else Values(ss[0]) + ValuesOf(ss[1..])
  }

  function Size<N>(t: Tree<N>): nat {
    match t
    case Leaf => 0
    case Tree(_, c, s) => 1 + Size(c) + Size(s)
  }

  lemma {:induction false} SizeIsCount<T>(t: Heap<T>)
    ensures Size(t) == |Values(t)|
  {
    if t.Tree? {
      SizeIsCount(t.child);
      SizeIsCount(t.sibling);
    }
  }

  ghost predicate AllSingle<N>(ss: seq<Tree<N>>) {
    forall i :: 0 <= i < |ss| ==> Single(ss[i])
  }

  lemma MeldSingle<T>(cmp: (T, T) -> bool, a: Heap<T>, b: Heap<T>)
    requires Single(a) && Single(b)
    ensures Single(Joined(cmp, a, b))
    ensures Values(Joined(cmp, a, b)) == Values(a) + Values(b)
  {
  }

  lemma MeldNodes<T>(cmp: (T, T) -> bool, a: Heap<T>, b: Heap<T>)
    requires Single(a) && Single(b)
    ensures Nodes(Joined(cmp, a, b)) == Nodes(a) + Nodes(b)
    ensures Distinct(a) && Distinct(b) && Nodes(a) !! Nodes(b) ==> Distinct(Joined(cmp, a, b))
  {
    assert Nodes(a) == {a.node} + Nodes(a.child) && Nodes(b) == {b.node} + Nodes(b.child);
    var c := Joined(cmp, a, b).child;
    assert Nodes(c) == {c.node} + Nodes(c.child) + Nodes(c.sibling);
  }

  lemma {:induction false} PairUpValues<T>(cmp: (T, T) -> bool, ss: seq<Heap<T>>)
    requires AllSingle(ss)
    ensures AllSingle(PairUp(cmp, ss)) && ValuesOf(PairUp(cmp, ss)) == ValuesOf(ss)
    decreases |ss|
  {
    if |ss| >= 2 {
      MeldSingle(cmp, ss[0], ss[1]);
      PairUpValues(cmp, ss[2..]);
      assert ss[1..][1..] == ss[2..];
    }
  }

  lemma {:induction false} MeldAllValues<T>(cmp: (T, T) -> bool, ss: seq<Heap<T>>)
    requires |ss| > 0 && AllSingle(ss)
    ensures Single(MeldAll(cmp, ss)) && Values(MeldAll(cmp, ss)) == ValuesOf(ss)
  {
    if |ss| == 1 {
      assert ss[1..] == [];
    } else {
      MeldAllValues(cmp, ss[1..]);
      MeldSingle(cmp, ss[0], MeldAll(cmp, ss[1..]));
    }
  }

  lemma {:induction false} SinglesValues<T>(t: Heap<T>)
    ensures ValuesOf(Singles(t)) == Values(t)
  {
    if t.Tree? {
      SinglesValues(t.sibling);
      assert Singles(t)[1..] == Singles(t.sibling);
      assert Values(Tree(t.node, t.child, Leaf)) == multiset{t.node.value} + Values(t.child);
    }
  }

  /** The two passes lose no value and leave one tree. */
  lemma TwoPassValues<T>(cmp: (T, T) -> bool, t: Heap<T>)
    ensures Values(TwoPass(cmp, t)) == Values(t)
    ensures t.Tree? ==> Single(TwoPass(cmp, t))
  {
    if t.Tree? {
      SinglesValues(t);
      PairUpValues(cmp, Singles(t));
      MeldAllValues(cmp, PairUp(cmp, Singles(t)));
    }
  }

  // -------------------------------------------------------------- heap order

  /** No tree in the list has a root that precedes `v`. */
  predicate NoneBefore<T>(cmp: (T, T) -> bool, v: T, t: Heap<T>) {
    t.Tree? ==> !cmp(t.node.value, v) && NoneBefore(cmp, v, t.sibling)
  }

  predicate HeapOrdered<T>(cmp: (T, T) -> bool, t: Heap<T>) {
    t.Tree? ==> NoneBefore(cmp, t.node.value, t.child) && HeapOrdered(cmp, t.child) && HeapOrdered(cmp, t.sibling)
  }

  ghost predicate AllOrdered<T>(cmp: (T, T) -> bool, ss: seq<Heap<T>>) {
    forall i :: 0 <= i < |ss| ==> HeapOrdered(cmp, ss[i])
  }

  lemma MeldOrdered<T(!new)>(cmp: (T, T) -> bool, a: Heap<T>, b: Heap<T>)
    requires StrictWeakOrder(cmp) && HeapOrdered(cmp, a) && HeapOrdered(cmp, b)
    ensures HeapOrdered(cmp, Joined(cmp, a, b))
  {
  }

  lemma {:induction false} PairUpOrdered<T(!new)>(cmp: (T, T) -> bool, ss: seq<Heap<T>>)
    requires StrictWeakOrder(cmp) && AllOrdered(cmp, ss)
    ensures AllOrdered(cmp, PairUp(cmp, ss))
    decreases |ss|
  {
    if |ss| >= 2 {
      MeldOrdered(cmp, ss[0], ss[1]);
      PairUpOrdered(cmp, ss[2..]);
    }
  }

  lemma {:induction false} MeldAllOrdered<T(!new)>(cmp: (T, T) -> bool, ss: seq<Heap<T>>)
    requires |ss| > 0 && StrictWeakOrder(cmp) && AllOrdered(cmp, ss)
    ensures HeapOrdered(cmp, MeldAll(cmp, ss))
  {
    if |ss| > 1 {
      MeldAllOrdered(cmp, ss[1..]);
      MeldOrdered(cmp, ss[0], MeldAll(cmp, ss[1..]));
    }
  }

  lemma {:induction false} SinglesOrdered<T>(cmp: (T, T) -> bool, t: Heap<T>)
    requires HeapOrdered(cmp, t)
    ensures AllOrdered(cmp, Singles(t))
  {
    if t.Tree? { SinglesOrdered(cmp, t.sibling); }
  }

  lemma TwoPassOrdered<T(!new)>(cmp: (T, T) -> bool, t: Heap<T>)
    requires StrictWeakOrder(cmp) && HeapOrdered(cmp, t)
    ensures HeapOrdered(cmp, TwoPass(cmp, t))
  {
    if t.Tree? {
      SinglesOrdered(cmp, t);
      PairUpOrdered(cmp, Singles(t));
      MeldAllOrdered(cmp, PairUp(cmp, Singles(t)));
    }
  }

  /** Whatever no root of an ordered list precedes, no value in the list precedes. */
  lemma {:induction false} NothingBefore<T(!new)>(cmp: (T, T) -> bool, v: T, t: Heap<T>)
    requires StrictWeakOrder(cmp) && HeapOrdered(cmp, t) && NoneBefore(cmp, v, t)
    ensures forall x :: x in Values(t) ==> !cmp(x, v)
  {
    if t.Tree? {
      NothingBefore(cmp, v, t.sibling);
      NothingBefore(cmp, t.node.value, t.child);
      forall x | x in Values(t) ensures !cmp(x, v) {
        assert x == t.node.value || x in Values(t.child) || x in Values(t.sibling);
      }
    }
  }

  /** The root of an ordered heap is first. */
  lemma RootFirst<T(!new)>(cmp: (T, T) -> bool, t: Heap<T>)
    requires StrictWeakOrder(cmp) && HeapOrdered(cmp, t) && Single(t)
    ensures t.node.value in Values(t) && forall x :: x in Values(t) ==> !cmp(x, t.node.value)
  {
    NothingBefore(cmp, t.node.value, t.child);
  }
}
