/** The pointer fields of pairing-heap nodes, taken as one value, against the shapes they spell out. */
module PairLinks {
  import opened PairShape

  /** The mutable fields of one node. */
  datatype Cell<T> = Cell(child: Node?<T>, sibling: Node?<T>, prev: Node?<T>)

  type Cells<T> = map<Node<T>, Cell<T>>

  /** `m` records what the heap holds. */
  ghost predicate Holds<T>(m: Cells<T>)
    reads m.Keys
  {
    forall n :: n in m ==> Cell(n.child, n.sibling, n.prev) == m[n]
  }

  function Ptr<T>(t: Heap<T>): Node?<T> {
    if t.Leaf? then null else t.node
  }

  /** The fields spell out `t`; a leftmost child points back to its parent, any other to its left neighbour. */
  ghost predicate Fits<T>(m: Cells<T>, t: Heap<T>, prev: Node?<T>) {
    match t
    case Leaf => true
    case Tree(n, c, s) =>
      n in m && m[n] == Cell(Ptr(c), Ptr(s), prev) && Fits(m, c, n) && Fits(m, s, n)
  }

  ghost predicate Agree<T>(m: Cells<T>, m': Cells<T>, ns: set<Node<T>>) {
    forall n :: n in ns && n in m ==> n in m' && m'[n] == m[n]
  }

  lemma {:induction false} FitsFrame<T>(m: Cells<T>, m': Cells<T>, t: Heap<T>, prev: Node?<T>)
    requires Fits(m, t, prev) && Agree(m, m', Nodes(t))
    ensures Fits(m', t, prev)
  {
    if t.Tree? {
      FitsFrame(m, m', t.child, t.node);
      FitsFrame(m, m', t.sibling, t.node);
    }
  }

  lemma {:induction false} FitsInside<T>(m: Cells<T>, t: Heap<T>, prev: Node?<T>)
    requires Fits(m, t, prev)
    ensures Nodes(t) <= m.Keys
  {
    if t.Tree? {
      FitsInside(m, t.child, t.node);
      FitsInside(m, t.sibling, t.node);
    }
  }

  // ------------------------------------------------------------ one link

  /** All fields after `b` became the leftmost child of `a`. */
  ghost function LinkCells<T>(m: Cells<T>, a: Node<T>, b: Node<T>, c: Node?<T>): Cells<T> {
    map n | n in m ::
      if n == a then Cell(b, null, null)
      else if n == b then Cell(m[n].child, c, a)
      else if n == c then m[n].(prev := b)
      else m[n]
  }

  lemma FitsLink<T>(m: Cells<T>, a: Heap<T>, b: Heap<T>, m': Cells<T>)
    requires Single(a) && Single(b) && Distinct(a) && Distinct(b) && Nodes(a) !! Nodes(b)
    requires Fits(m, a, null) && Fits(m, b, null)
    requires m' == LinkCells(m, a.node, b.node, Ptr(a.child))
    ensures Fits(m', Tree(a.node, Tree(b.node, b.child, a.child), Leaf), null)
    ensures Agree(m, m', m.Keys - Nodes(a) - Nodes(b))
  {
    assert a.child.Tree? ==> a.child.node in Nodes(a.child);
    FitsFrame(m, m', b.child, b.node);
    if a.child.Tree? {
      FitsFrame(m, m', a.child.child, a.child.node);
      FitsFrame(m, m', a.child.sibling, a.child.node);
    }
  }

  // ------------------------------------------------------- many trees at once

  ghost function NodesOf<N>(xs: seq<Tree<N>>): set<N> {
    if xs == [] then {} else Nodes(xs[0]) + NodesOf(xs[1..])
  }

  /** No two of the trees share a node. */
  ghost predicate Apart<N>(xs: seq<Tree<N>>) {
    xs == [] || (Nodes(xs[0]) !! NodesOf(xs[1..]) && Apart(xs[1..]))
  }

  lemma {:induction false} ApartConcat<N>(xs: seq<Tree<N>>, ys: seq<Tree<N>>)
    ensures NodesOf(xs + ys) == NodesOf(xs) + NodesOf(ys)
    ensures Apart(xs + ys) <==> Apart(xs) && Apart(ys) && NodesOf(xs) !! NodesOf(ys)
    decreases xs
  {
    if xs == [] {
      assert xs + ys == ys;
    } else {
      assert (xs + ys)[1..] == xs[1..] + ys;
      ApartConcat(xs[1..], ys);
    }
  }

  lemma {:induction false} NodesOfMember<N>(xs: seq<Tree<N>>, x: Tree<N>)
    requires x in xs
    ensures Nodes(x) <= NodesOf(xs)
  {
    if x != xs[0] { NodesOfMember(xs[1..], x); }
  }

  /** Separate, well-linked single trees. */
  ghost predicate Forest<T>(m: Cells<T>, xs: seq<Heap<T>>) {
    Apart(xs) && forall x :: x in xs ==> Planted(m, x)
  }

  ghost predicate Planted<T>(m: Cells<T>, x: Heap<T>) {
    Single(x) && Distinct(x) && Fits(m, x, null)
  }

  ghost predicate Roots<T>(ps: seq<Node<T>>, xs: seq<Heap<T>>) {
    |ps| == |xs| && forall i :: 0 <= i < |xs| ==> ps[i] == Ptr(xs[i])
  }

  lemma ApartSmall<N>(a: Tree<N>, b: Tree<N>)
    ensures NodesOf([a]) == Nodes(a) && Apart([a])
    ensures NodesOf([a, b]) == Nodes(a) + Nodes(b)
    ensures Apart([a, b]) <==> Nodes(a) !! Nodes(b)
  {
    assert [a, b][1..] == [b] && [b][1..] == [] && [a][1..] == [];
    assert NodesOf([b]) == Nodes(b) + NodesOf([]) == Nodes(b);
    assert NodesOf([a]) == Nodes(a) + NodesOf([]) == Nodes(a);
  }

  lemma ApartThree<N>(xs: seq<Tree<N>>, ms: seq<Tree<N>>, ys: seq<Tree<N>>)
    ensures NodesOf(xs + ms + ys) == NodesOf(xs) + NodesOf(ms) + NodesOf(ys)
    ensures Apart(xs + ms + ys) <==>
      && Apart(xs) && Apart(ms) && Apart(ys)
      && NodesOf(xs) !! NodesOf(ms) && NodesOf(xs) !! NodesOf(ys) && NodesOf(ms) !! NodesOf(ys)
  {
    ApartConcat(xs + ms, ys);
    ApartConcat(xs, ms);
  }

  lemma ApartMeld<N>(xs: seq<Tree<N>>, a: Tree<N>, b: Tree<N>, ys: seq<Tree<N>>, r: Tree<N>)
    requires Apart(xs + [a, b] + ys) && Nodes(r) == Nodes(a) + Nodes(b)
    ensures Apart(xs + [r] + ys) && NodesOf(xs + [r] + ys) == NodesOf(xs + [a, b] + ys)
    ensures Nodes(a) !! Nodes(b)
    ensures NodesOf(xs) + NodesOf(ys) !! Nodes(a) + Nodes(b)
  {
    ApartSmall(a, b);
    ApartSmall(r, r);
    ApartThree(xs, [a, b], ys);
    ApartThree(xs, [r], ys);
  }

  /** Two neighbours replaced by one tree over the same nodes. */
  lemma ForestMeld<T>(m: Cells<T>, m': Cells<T>, xs: seq<Heap<T>>, a: Heap<T>, b: Heap<T>, ys: seq<Heap<T>>, r: Heap<T>)
    requires Forest(m, xs + [a, b] + ys) && Planted(m', r) && Nodes(r) == Nodes(a) + Nodes(b)
    requires Agree(m, m', m.Keys - Nodes(a) - Nodes(b))
    ensures Forest(m', xs + [r] + ys) && NodesOf(xs + [r] + ys) == NodesOf(xs + [a, b] + ys)
  {
    ApartMeld(xs, a, b, ys, r);
    forall x | x in xs + [r] + ys ensures Planted(m', x) {
      if x != r {
        assert (x in xs || x in ys) && x in xs + [a, b] + ys;
        if x in xs { NodesOfMember(xs, x); } else { NodesOfMember(ys, x); }
        FitsInside(m, x, null);
        FitsFrame(m, m', x, null);
      }
    }
  }

  lemma {:induction false} SinglesNodes<N>(t: Tree<N>)
    ensures NodesOf(Singles(t)) == Nodes(t)
  {
    if t.Tree? {
      SinglesNodes(t.sibling);
      assert Singles(t)[1..] == Singles(t.sibling);
      assert Nodes(Tree(t.node, t.child, Leaf)) == {t.node} + Nodes(t.child);
    }
  }

  lemma ForestFrame<T>(m: Cells<T>, m': Cells<T>, xs: seq<Heap<T>>)
    requires Forest(m, xs) && Agree(m, m', NodesOf(xs))
    ensures Forest(m', xs)
  {
    forall x | x in xs ensures Planted(m', x) {
      NodesOfMember(xs, x);
      FitsFrame(m, m', x, null);
    }
  }

  /** The head of a sibling list, cut off, joins the separate trees in front of it. */
  lemma ForestDetach<T>(m: Cells<T>, xs: seq<Heap<T>>, t: Heap<T>, p: Node?<T>, m': Cells<T>)
    requires Forest(m, xs) && t.Tree? && Fits(m, t, p) && Distinct(t) && Nodes(t) !! NodesOf(xs)
    requires m' == m[t.node := Cell(Ptr(t.child), null, null)]
    ensures var x := Tree(t.node, t.child, Leaf);
      && Forest(m', xs + [x]) && NodesOf(xs + [x]) == NodesOf(xs) + {t.node} + Nodes(t.child)
      && Fits(m', t.sibling, t.node) && Distinct(t.sibling) && Nodes(t.sibling) !! NodesOf(xs + [x])
  {
    var x := Tree(t.node, t.child, Leaf);
    assert Nodes(x) == {t.node} + Nodes(t.child);
    ForestFrame(m, m', xs);
    FitsFrame(m, m', t.child, t.node);
    FitsFrame(m, m', t.sibling, t.node);
    assert Planted(m', x);
    ApartSmall(x, x);
    ApartConcat(xs, [x]);
  }

  lemma {:induction false} PairUpNodes<T>(cmp: (T, T) -> bool, ss: seq<Heap<T>>)
    requires AllSingle(ss)
    ensures AllSingle(PairUp(cmp, ss)) && NodesOf(PairUp(cmp, ss)) == NodesOf(ss)
    decreases |ss|
  {
    if |ss| >= 2 {
      MeldNodes(cmp, ss[0], ss[1]);
      PairUpNodes(cmp, ss[2..]);
      assert ss[1..][1..] == ss[2..];
      assert PairUp(cmp, ss)[1..] == PairUp(cmp, ss[2..]);
    }
  }

  lemma {:induction false} MeldAllNodes<T>(cmp: (T, T) -> bool, ss: seq<Heap<T>>)
    requires |ss| > 0 && AllSingle(ss)
    ensures Single(MeldAll(cmp, ss)) && Nodes(MeldAll(cmp, ss)) == NodesOf(ss)
  {
    if |ss| == 1 {
      assert ss[1..] == [];
    } else {
      MeldAllNodes(cmp, ss[1..]);
      MeldNodes(cmp, ss[0], MeldAll(cmp, ss[1..]));
    }
  }

  lemma TwoPassNodes<T>(cmp: (T, T) -> bool, t: Heap<T>)
    ensures Nodes(TwoPass(cmp, t)) == Nodes(t)
  {
    if t.Tree? {
      SinglesNodes(t);
      PairUpNodes(cmp, Singles(t));
      MeldAllNodes(cmp, PairUp(cmp, Singles(t)));
    }
  }

  /** Without its root, a single tree leaves the list of its children. */
  lemma FitsChildren<T>(m: Cells<T>, t: Heap<T>)
    requires Single(t) && Distinct(t) && Fits(m, t, null) && m.Keys == Nodes(t)
    ensures (m - {t.node}).Keys == Nodes(t.child) && Fits(m - {t.node}, t.child, t.node) && Distinct(t.child)
    ensures m[t.node].child == Ptr(t.child)
  {
    FitsFrame(m, m - {t.node}, t.child, t.node);
  }

  ghost predicate OneTree<T>(m: Cells<T>, t: Heap<T>) {
    (t.Tree? ==> Single(t)) && Distinct(t) && Fits(m, t, null)
  }

  lemma JoinedNodes<T>(cmp: (T, T) -> bool, s: Heap<T>, t: Heap<T>)
    requires (s.Tree? ==> Single(s)) && (t.Tree? ==> Single(t))
    ensures Nodes(Joined(cmp, s, t)) == Nodes(s) + Nodes(t)
  {
    if s.Tree? && t.Tree? { MeldNodes(cmp, s, t); }
  }

  /** Two heaps over separate nodes, their fields put together. */
  lemma Together<T>(m: Cells<T>, n: Cells<T>, s: Heap<T>, t: Heap<T>)
    requires OneTree(m, s) && OneTree(n, t) && m.Keys == Nodes(s) && n.Keys == Nodes(t) && m.Keys !! n.Keys
    ensures OneTree(m + n, s) && OneTree(m + n, t) && (m + n).Keys == Nodes(s) + Nodes(t)
  {
    FitsFrame(m, m + n, s, null);
    FitsFrame(n, m + n, t, null);
  }
}
