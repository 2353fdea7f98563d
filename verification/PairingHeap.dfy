/**
 The pairing heap over nodes with child, sibling and prev pointers: melding,
 the two-pass pairing behind a pop, and the operations built on them.
 */
module PairingHeap {
  import opened Orders
  import opened Seqs
  import opened PairShape
  import opened PairLinks
  import opened PairPotential

  /** Links two trees: the one whose root comes first gets the other as its leftmost child. */
  method MeldTrees<T>(a0: Node?<T>, b0: Node?<T>, cmp: (T, T) -> bool,
                      ghost m: Cells<T>, ghost s: Heap<T>, ghost t: Heap<T>)
    returns (r: Node?<T>, ghost m': Cells<T>, ghost links: nat)
    requires Holds(m) && OneTree(m, s) && OneTree(m, t) && Nodes(s) !! Nodes(t) && a0 == Ptr(s) && b0 == Ptr(t)
    modifies Nodes(s), Nodes(t)
    ensures Holds(m') && m'.Keys == m.Keys && Agree(m, m', m.Keys - Nodes(s) - Nodes(t))
    ensures r == Ptr(Joined(cmp, s, t)) && OneTree(m', Joined(cmp, s, t))
    ensures links == LinksOf(s, t)
  {
    if a0 == null {
      return b0, m, 0;
    }
    if b0 == null {
      return a0, m, 0;
    }
    links := 1;
    MeldNodes(cmp, s, t);
    var a, b := a0, b0;
    if cmp(b.value, a.value) {
      a, b := b, a;
      m' := Link(a, b, m, t, s);
    } else {
      m' := Link(a, b, m, s, t);
    }
    r := a;
  }

  method Link<T>(a: Node<T>, b: Node<T>, ghost m: Cells<T>, ghost s: Heap<T>, ghost t: Heap<T>) returns (ghost m': Cells<T>)
    requires Holds(m) && Single(s) && Single(t) && Distinct(s) && Distinct(t) && Nodes(s) !! Nodes(t)
    requires Fits(m, s, null) && Fits(m, t, null) && a == s.node && b == t.node
    modifies Nodes(s), Nodes(t)
    ensures Holds(m') && m'.Keys == m.Keys && Agree(m, m', m.Keys - Nodes(s) - Nodes(t))
    ensures Fits(m', Tree(a, Tree(b, t.child, s.child), Leaf), null)
  {
    m' := LinkCells(m, a, b, Ptr(s.child));
    FitsLink(m, s, t, m');
    ghost var c := a.child;
    assert s.child.Tree? ==> s.child.node in Nodes(s.child);
    b.sibling := a.child;
    if a.child != null {
      a.child.prev := b;
    }
    b.prev := a;
    a.child := b;
    a.sibling := null;
    a.prev := null;
    forall n | n in m' ensures Cell(n.child, n.sibling, n.prev) == m'[n] {
      if n == a {} else if n == b {} else if n == c {} else {
        assert m'[n] == m[n];
      }
    }
  }

  /** Cuts the head off a sibling list and moves on to the next tree. */
  method CutOff<T>(cur: Node<T>, ghost m: Cells<T>, ghost xs: seq<Heap<T>>, ghost t: Heap<T>, ghost p: Node?<T>)
    returns (next: Node?<T>, ghost m': Cells<T>)
    requires Holds(m) && Forest(m, xs) && Fits(m, t, p) && Distinct(t) && Nodes(t) !! NodesOf(xs) && cur == Ptr(t)
    modifies cur
    ensures Holds(m') && m'.Keys == m.Keys && next == Ptr(t.sibling)
    ensures Forest(m', xs + [Tree(t.node, t.child, Leaf)]) && Nodes(t.sibling) !! NodesOf(xs + [Tree(t.node, t.child, Leaf)])
    ensures Fits(m', t.sibling, cur) && Distinct(t.sibling)
  {
    m' := m[cur := Cell(Ptr(t.child), null, null)];
    ForestDetach(m, xs, t, p, m');
    next := cur.sibling;
    cur.prev := null;
    cur.sibling := null;
  }

  /** Cuts a sibling list into its trees, left to right. */
  method Detach<T>(first: Node?<T>, ghost m: Cells<T>, ghost t: Heap<T>, ghost p: Node?<T>)
    returns (trees: seq<Node<T>>, ghost m': Cells<T>)
    requires Holds(m) && Fits(m, t, p) && Distinct(t) && m.Keys == Nodes(t) && first == Ptr(t)
    modifies Nodes(t)
    ensures Holds(m') && m'.Keys == m.Keys && Forest(m', Singles(t)) && Roots(trees, Singles(t))
  {
    var cur := first;
    trees, m' := [], m;
    ghost var done, rest, q := [], t, p;
    while cur != null
      invariant Holds(m') && m'.Keys == m.Keys && cur == Ptr(rest)
      invariant Forest(m', done) && Roots(trees, done) && done + Singles(rest) == Singles(t)
      invariant Fits(m', rest, q) && Distinct(rest) && Nodes(rest) !! NodesOf(done) && Nodes(rest) <= Nodes(t)
      decreases rest
    {
      ghost var x := Tree(rest.node, rest.child, Leaf);
      Assoc(done, [x], Singles(rest.sibling));
      trees := trees + [cur];
      ghost var before := cur;
      cur, m' := CutOff(cur, m', done, rest, q);
      done, rest, q := done + [x], rest.sibling, before;
    }
    assert done + [] == done;
  }

  /** Melds two neighbours of a forest. */
  method MeldNeighbours<T>(p: Node<T>, q: Node<T>, cmp: (T, T) -> bool,
                           ghost m: Cells<T>, ghost xs: seq<Heap<T>>, ghost a: Heap<T>, ghost b: Heap<T>, ghost ys: seq<Heap<T>>)
    returns (root: Node<T>, ghost m': Cells<T>)
    requires Holds(m) && Forest(m, xs + [a, b] + ys) && NodesOf(xs + [a, b] + ys) == m.Keys
    requires p == Ptr(a) && q == Ptr(b)
    modifies m.Keys
    ensures Holds(m') && m'.Keys == m.Keys && root == Ptr(Joined(cmp, a, b))
    ensures Forest(m', xs + [Joined(cmp, a, b)] + ys) && NodesOf(xs + [Joined(cmp, a, b)] + ys) == m.Keys
  {
    assert a in xs + [a, b] + ys && b in xs + [a, b] + ys;
    ghost var r := Joined(cmp, a, b);
    MeldNodes(cmp, a, b);
    ApartMeld(xs, a, b, ys, r);
    FitsInside(m, a, null);
    FitsInside(m, b, null);
    ghost var n;
    root, m', n := MeldTrees(p, q, cmp, m, a, b);
    ForestMeld(m, m', xs, a, b, ys, r);
  }

  method PairTwo<T>(p: Node<T>, q: Node<T>, cmp: (T, T) -> bool, merged: seq<Node<T>>,
                    ghost m: Cells<T>, ghost ms: seq<Heap<T>>, ghost rest: seq<Heap<T>>)
    returns (merged': seq<Node<T>>, ghost m': Cells<T>)
    requires Holds(m) && Forest(m, ms + rest) && NodesOf(ms + rest) == m.Keys && Roots(merged, ms)
    requires |rest| >= 2 && p == Ptr(rest[0]) && q == Ptr(rest[1])
    modifies m.Keys
    ensures Holds(m') && m'.Keys == m.Keys
    ensures var ms' := ms + [Joined(cmp, rest[0], rest[1])];
      && Forest(m', ms' + rest[2..]) && NodesOf(ms' + rest[2..]) == m.Keys && Roots(merged', ms')
      && ms + PairUp(cmp, rest) == ms' + PairUp(cmp, rest[2..])
  {
    PairUpStep(cmp, ms, rest);
    var root;
    root, m' := MeldNeighbours(p, q, cmp, m, ms, rest[0], rest[1], rest[2..]);
    merged' := merged + [root];
  }

  /** The first pass: melds neighbours in pairs, left to right. */
  method PairPass<T>(trees: seq<Node<T>>, cmp: (T, T) -> bool, ghost m: Cells<T>, ghost ss: seq<Heap<T>>)
    returns (merged: seq<Node<T>>, ghost m': Cells<T>, ghost links: nat)
    requires Holds(m) && Forest(m, ss) && Roots(trees, ss) && NodesOf(ss) == m.Keys
    modifies m.Keys
    ensures Holds(m') && m'.Keys == m.Keys && Forest(m', PairUp(cmp, ss)) && Roots(merged, PairUp(cmp, ss))
    ensures NodesOf(PairUp(cmp, ss)) == m.Keys && links == |ss| / 2
  {
    merged, m', links := [], m, 0;
    var i := 0;
    ghost var ms, rest := [], ss;
    assert ms + rest == ss;
    while i < |trees|
      invariant 0 <= i && (i <= |ss| ==> rest == ss[i..]) && (i > |ss| ==> rest == [])
      invariant |ss| - |rest| - 1 <= 2 * links <= |ss| - |rest| && (|rest| > 0 ==> 2 * links == i)
      invariant Holds(m') && m'.Keys == m.Keys && Roots(merged, ms)
      invariant Forest(m', ms + rest) && NodesOf(ms + rest) == m.Keys
      invariant PairUp(cmp, ss) == ms + PairUp(cmp, rest)
    {
      if i + 1 < |trees| {
        merged, m' := PairTwo(trees[i], trees[i + 1], cmp, merged, m', ms, rest);
        ms, rest, links := ms + [Joined(cmp, rest[0], rest[1])], rest[2..], links + 1;
      } else {
        merged := merged + [trees[i]];
        LastAlone(ms, rest);
        ms, rest := ms + [rest[0]], [];
      }
      i := i + 2;
    }
    assert ms + rest == ms;
  }

  /** Melds the last two trees of a forest. */
  method MeldLast<T>(p: Node<T>, q: Node<T>, cmp: (T, T) -> bool,
                     ghost m: Cells<T>, ghost ms: seq<Heap<T>>, ghost i: nat, ghost s: Heap<T>)
    returns (root: Node<T>, ghost m': Cells<T>)
    requires Holds(m) && i < |ms| && Forest(m, ms[..i + 1] + [s]) && NodesOf(ms[..i + 1] + [s]) == m.Keys
    requires p == Ptr(ms[i]) && q == Ptr(s)
    modifies m.Keys
    ensures Holds(m') && m'.Keys == m.Keys && root == Ptr(Joined(cmp, ms[i], s))
    ensures Forest(m', ms[..i] + [Joined(cmp, ms[i], s)]) && NodesOf(ms[..i] + [Joined(cmp, ms[i], s)]) == m.Keys
  {
    LastTwo(ms, i, s);
    Padded(ms[..i] + [Joined(cmp, ms[i], s)]);
    root, m' := MeldNeighbours(p, q, cmp, m, ms[..i], ms[i], s, []);
  }

  /** The second pass: melds what is left, right to left. */
  method MeldPass<T>(merged: seq<Node<T>>, cmp: (T, T) -> bool, ghost m: Cells<T>, ghost ms: seq<Heap<T>>)
    returns (result: Node<T>, ghost m': Cells<T>, ghost links: nat)
    requires |ms| > 0 && Holds(m) && Forest(m, ms) && Roots(merged, ms) && NodesOf(ms) == m.Keys
    modifies m.Keys
    ensures Holds(m') && m'.Keys == m.Keys && Forest(m', [MeldAll(cmp, ms)])
    ensures result == Ptr(MeldAll(cmp, ms)) && links == |ms| - 1
  {
    var i := |merged| - 1;
    result, m', links := merged[i], m, 0;
    ghost var s := ms[i];
    assert ms[i..] == [s] && ms == ms[..i] + [s];
    while i > 0
      invariant 0 <= i < |ms| && links == |ms| - 1 - i && s == MeldAll(cmp, ms[i..]) && result == Ptr(s)
      invariant Holds(m') && m'.Keys == m.Keys && Forest(m', ms[..i] + [s]) && NodesOf(ms[..i] + [s]) == m.Keys
    {
      i := i - 1;
      result, m' := MeldLast(merged[i], result, cmp, m', ms, i, s);
      s, links := Joined(cmp, ms[i], s), links + 1;
      LastTwo(ms, i, s);
    }
    assert ms[..0] + [s] == [s] && ms[0..] == ms;
  }

  method TwoPassMeld<T>(first: Node?<T>, cmp: (T, T) -> bool, ghost m: Cells<T>, ghost t: Heap<T>, ghost p: Node?<T>)
    returns (result: Node?<T>, ghost m': Cells<T>, ghost links: nat)
    requires Holds(m) && Fits(m, t, p) && Distinct(t) && m.Keys == Nodes(t) && first == Ptr(t)
    modifies m.Keys
    ensures Holds(m') && m'.Keys == m.Keys == Nodes(TwoPass(cmp, t)) && result == Ptr(TwoPass(cmp, t))
    ensures OneTree(m', TwoPass(cmp, t))
    ensures links == if t.Leaf? then 0 else |Singles(t)| - 1
  {
    if first == null {
      return null, m, 0;
    }
    SinglesNodes(t);
    var trees, merged;
    ghost var links2;
    trees, m' := Detach(first, m, t, p);
    merged, m', links := PairPass(trees, cmp, m', Singles(t));
    result, m', links2 := MeldPass(merged, cmp, m', PairUp(cmp, Singles(t)));
    links := links + links2;
    ghost var r := TwoPass(cmp, t);
    assert r in [r];
    TwoPassNodes(cmp, t);
  }

  /** A heap of `n` values, none of which precedes its parent. */
  ghost predicate IsOrdered<T(!new)>(cmp: (T, T) -> bool, t: Heap<T>, n: nat) {
    StrictWeakOrder(cmp) && HeapOrdered(cmp, t) && (t.Tree? ==> Single(t)) && n == Size(t)
  }

  /** Ownership when one heap takes the nodes of another. */
  lemma NodesMoved<X>(c: set<X>, f: set<X>, m: set<X>, c': set<X>, f': set<X>, m': set<X>)
    requires c !! f && m == c + f && c' !! f' && m' == c' + f' && m !! m'
    ensures c + c' !! f && m + c' == (c + c') + f && c !! c'
    ensures f' <= m' && m + c' + f' == m + m' && m + c' !! f'
  {
  }

  class PairingHeap<T(!new)> {
    var root: Node?<T>
    var size: nat
    var cmp: (T, T) -> bool
    ghost var shape: Heap<T>
    ghost var cells: Cells<T>
    ghost var made: set<Node<T>>    // every node ever allocated
    ghost var freed: set<Node<T>>   // those deleted since
    var destroyed: seq<Node<T>>     // the same, in the order of their deletion
    ghost var links: nat            // links performed so far

    /** From the root pointer on, the heap is exactly the tree `shape`. */
    ghost predicate Linked()
      reads this`root, this`shape, this`cells, cells.Keys
    {
      Holds(cells) && cells.Keys == Nodes(shape) && OneTree(cells, shape) && root == Ptr(shape)
    }

    ghost predicate Valid()
      reads this, cells.Keys
    {
      Linked() && Ordered() && Owned()
    }

    ghost predicate Ordered()
      reads this`cmp, this`shape, this`size
    {
      IsOrdered(cmp, shape, size)
    }

    /** The nodes allocated so far are those in the heap and those freed, each in one of the two. */
    ghost predicate Owned()
      reads this`cells, this`made, this`freed, this`destroyed
    {
      cells.Keys !! freed && made == cells.Keys + freed && Once(destroyed, freed)
    }

    ghost function Contents(): multiset<T>
      reads this`shape
    {
      Values(shape)
    }

    constructor (cmp: (T, T) -> bool)
      requires StrictWeakOrder(cmp)
      ensures Valid() && Contents() == multiset{} && this.cmp == cmp && made == {} && links == 0 && shape == Leaf
      ensures destroyed == []
    {
      this.cmp := cmp;
      root, size, destroyed := null, 0, [];
      shape, cells, made, freed, links := Leaf, map[], {}, {}, 0;
    }

    /** Adds a value, in the new node `z`. */
    method Add(value: T) returns (ghost z: Node<T>)
      requires Valid()
      modifies this`root, this`size, this`shape, this`cells, this`made, this`links, cells.Keys
      ensures Valid()
      ensures Contents() == old(Contents()) + multiset{value} && size == old(size) + 1
      ensures fresh(z) && made == old(made) + {z} && z.value == value
      ensures shape == Joined(cmp, old(shape), Tree(z, Leaf, Leaf))
      ensures links == old(links) + LinksOf(old(shape), Tree(z, Leaf, Leaf))
      ensures root == if old(root) == null || cmp(value, old(root).value) then z else old(root)
    {
      var node := new Node(value);
      AddOwned(node);
      z := node;
    }

    /** Takes in a node that is linked to nothing yet. */
    method AddOwned(node: Node<T>)
      requires Valid() && node !in made && node.child == null && node.sibling == null && node.prev == null
      modifies this`root, this`size, this`shape, this`cells, this`made, this`links, node, cells.Keys
      ensures Linked()
      ensures Ordered()
      ensures Owned()
      ensures Contents() == old(Contents()) + multiset{node.value}
      ensures made == old(made) + {node} && size == old(size) + 1
      ensures shape == Joined(cmp, old(shape), Tree(node, Leaf, Leaf))
      ensures links == old(links) + LinksOf(old(shape), Tree(node, Leaf, Leaf))
    {
      AddFacts(cmp, shape, node, size);
      AddNode(node);
      size := size + 1;
    }

    method AddNode(node: Node<T>)
      requires Linked() && Owned() && node !in made && node.child == null && node.sibling == null && node.prev == null
      modifies this`root, this`shape, this`cells, this`made, this`links, node, cells.Keys
      ensures Linked()
      ensures Owned() && made == old(made) + {node}
      ensures shape == Joined(cmp, old(shape), Tree(node, Leaf, Leaf))
      ensures links == old(links) + LinksOf(old(shape), Tree(node, Leaf, Leaf))
    {
      PlaceNode(node);
      made := made + {node};
    }

    method PlaceNode(node: Node<T>)
      requires Linked() && node !in cells && node.child == null && node.sibling == null && node.prev == null
      modifies this`root, this`shape, this`cells, this`links, node, cells.Keys
      ensures Linked() && cells.Keys == old(cells.Keys) + {node}
      ensures shape == Joined(cmp, old(shape), Tree(node, Leaf, Leaf))
      ensures links == old(links) + LinksOf(old(shape), Tree(node, Leaf, Leaf))
    {
      var r;
      ghost var m, n;
      r, m, n := MeldNode(node);
      root, cells, shape, links := r, m, Joined(cmp, shape, Tree(node, Leaf, Leaf)), links + n;
    }

    method MeldNode(node: Node<T>) returns (r: Node?<T>, ghost m: Cells<T>, ghost n: nat)
      requires Linked() && node !in cells && node.child == null && node.sibling == null && node.prev == null
      modifies node, cells.Keys
      ensures var t := Joined(cmp, shape, Tree(node, Leaf, Leaf));
        Holds(m) && m.Keys == Nodes(t) && OneTree(m, t) && r == Ptr(t)
      ensures m.Keys == cells.Keys + {node} && n == LinksOf(shape, Tree(node, Leaf, Leaf))
    {
      ghost var one := Tree(node, Leaf, Leaf);
      ghost var m0 := cells[node := Cell(null, null, null)];
      FitsFrame(cells, m0, shape, null);
      assert Nodes(one) == {node};
      if shape.Tree? { MeldNodes(cmp, shape, one); }
      r, m, n := MeldTrees(root, node, cmp, m0, shape, one);
    }

    static lemma AddFacts(cmp: (T, T) -> bool, t: Heap<T>, z: Node<T>, n: nat)
      requires IsOrdered(cmp, t, n)
      ensures IsOrdered(cmp, Joined(cmp, t, Tree(z, Leaf, Leaf)), n + 1)
      ensures Values(Joined(cmp, t, Tree(z, Leaf, Leaf))) == Values(t) + multiset{z.value}
      ensures Nodes(Joined(cmp, t, Tree(z, Leaf, Leaf))) == Nodes(t) + {z}
    {
      var one := Tree(z, Leaf, Leaf);
      MeldOrdered(cmp, t, one);
      assert Values(one) == multiset{z.value} && Nodes(one) == {z};
      if t.Tree? {
        MeldSingle(cmp, t, one);
        MeldNodes(cmp, t, one);
      }
    }

    /** How many values there are. */
    method Count() returns (n: nat)
      requires Valid()
      ensures n == |Contents()|
    {
      SizeIsCount(shape);
      n := size;
    }

    method IsEmpty() returns (b: bool)
      requires Valid()
      ensures b <==> Contents() == multiset{}
    {
      SizeIsCount(shape);
      b := size == 0;
    }

    method Top() returns (v: T)
      requires Valid() && root != null
      ensures First(cmp, v, Contents())
    {
      v := root.value;
      RootFirst(cmp, shape);
    }

    method Pop() returns (out: Option<T>)
      requires Valid()
      modifies this`root, this`size, this`shape, this`cells, this`freed, this`destroyed, this`links, cells.Keys
      ensures Valid()
      ensures destroyed == old(destroyed) + if out.None? then [] else [old(root)]
      ensures freed >= old(freed)
      ensures out.None? <==> old(shape).Leaf?
      ensures out.None? ==> old(Contents()) == multiset{} && shape == old(shape) && cells == old(cells)
      ensures out.Some? ==> First(cmp, out.value, old(Contents()))
      ensures out.Some? ==> Contents() == old(Contents()) - multiset{out.value} && size == old(size) - 1
      ensures out.Some? ==> shape == TwoPass(cmp, old(shape).child) && out.value == old(shape).node.value
      ensures links == old(links) + PopLinks(old(shape))
    {
      if root == null {
        return None;
      }
      var v := PopSome();
      out := Some(v);
    }

    method PopSome() returns (v: T)
      requires Valid() && root != null
      modifies this`root, this`size, this`shape, this`cells, this`freed, this`destroyed, this`links, cells.Keys
      ensures Linked()
      ensures Ordered()
      ensures Owned()
      ensures freed == old(freed) + {old(root)} && destroyed == old(destroyed) + [old(root)] && size == old(size) - 1
      ensures First(cmp, v, old(Contents()))
      ensures Contents() == old(Contents()) - multiset{v}
      ensures links == old(links) + PopLinks(old(shape)) && shape == TwoPass(cmp, old(shape).child)
      ensures v == old(shape).node.value
    {
      PopFacts(cmp, shape, size);
      v := root.value;
      DeleteRoot();
      size := size - 1;
    }

    /** Takes the root out and frees it. */
    method DeleteRoot()
      requires Linked() && Owned() && root != null
      modifies this`root, this`shape, this`cells, this`freed, this`destroyed, this`links, cells.Keys
      ensures Linked()
      ensures Owned()
      ensures freed == old(freed) + {old(root)} && destroyed == old(destroyed) + [old(root)]
      ensures shape == TwoPass(cmp, old(shape).child)
      ensures links == old(links) + PopLinks(old(shape))
    {
      var oldRoot := root;
      PopRoot();
      Free(oldRoot);
    }

    /** Deletes a node, once. */
    method Free(node: Node<T>)
      requires node !in freed
      modifies this`freed, this`destroyed
      ensures freed == old(freed) + {node} && destroyed == old(destroyed) + [node]
      ensures Once(old(destroyed), old(freed)) ==> Once(destroyed, freed)
    {
      if Once(destroyed, freed) { OnceMore(destroyed, freed, node); }
      destroyed := destroyed + [node];
      freed := freed + {node};
    }

    /** Replaces the root by what the two passes make of its children. */
    method PopRoot()
      requires Linked() && root != null
      modifies this`root, this`shape, this`cells, this`links, cells.Keys
      ensures Linked() && shape == TwoPass(cmp, old(shape).child) && cells.Keys == old(cells.Keys) - {old(root)}
      ensures links == old(links) + PopLinks(old(shape))
    {
      var r;
      ghost var m, n;
      r, m, n := MeldChildren();
      root, cells, shape, links := r, m, TwoPass(cmp, shape.child), links + n;
    }

    method MeldChildren() returns (r: Node?<T>, ghost m: Cells<T>, ghost n: nat)
      requires Linked() && root != null
      modifies cells.Keys
      ensures var t := TwoPass(cmp, shape.child); Holds(m) && m.Keys == Nodes(t) && OneTree(m, t) && r == Ptr(t)
      ensures m.Keys == cells.Keys - {root} && n == PopLinks(shape)
    {
      FitsChildren(cells, shape);
      r, m, n := TwoPassMeld(root.child, cmp, cells - {root}, shape.child, root);
    }

    static lemma PopFacts(cmp: (T, T) -> bool, t: Heap<T>, n: nat)
      requires IsOrdered(cmp, t, n) && t.Tree?
      ensures n > 0 && IsOrdered(cmp, TwoPass(cmp, t.child), n - 1)
      ensures Values(TwoPass(cmp, t.child)) == Values(t) - multiset{t.node.value}
      ensures First(cmp, t.node.value, Values(t))
    {
      RootFirst(cmp, t);
      PopPotential(cmp, t);
      TwoPassValues(cmp, t.child);
      TwoPassOrdered(cmp, t.child);
    }

    /** Takes over all nodes of `other`, which is empty afterwards; melding a heap with itself does nothing. */
    method Meld(other: PairingHeap<T>)
      requires Valid() && other.Valid() && cmp == other.cmp && (this != other ==> made !! other.made)
      modifies this`root, this`size, this`shape, this`cells, this`made, this`links
      modifies other`root, other`size, other`shape, other`cells, other`made, cells.Keys, other.cells.Keys
      ensures Valid()
      ensures other.Valid()
      ensures made + other.made == old(made) + old(other.made)
      ensures this == other ==> shape == old(shape) && cells == old(cells) && size == old(size) && links == old(links)
      ensures this != other ==> Contents() == old(Contents()) + old(other.Contents())
      ensures this != other ==> shape == Joined(cmp, old(shape), old(other.shape))
      ensures this != other ==> other.shape == Leaf && made !! other.made && other.made <= old(other.made)
      ensures this != other ==> links == old(links) + LinksOf(old(shape), old(other.shape))
      ensures this != other && old(root) != null ==>
        root == if old(other.root) != null && cmp(old(other.root).value, old(root).value) then old(other.root) else old(root)
    {
      if this == other {
        return;
      }
      MeldDistinct(other);
    }

    method MeldDistinct(other: PairingHeap<T>)
      requires Valid() && other.Valid() && cmp == other.cmp && this != other && made !! other.made
      modifies this`root, this`size, this`shape, this`cells, this`made, this`links
      modifies other`root, other`size, other`shape, other`cells, other`made, cells.Keys, other.cells.Keys
      ensures Valid()
      ensures other.Valid()
      ensures made + other.made == old(made) + old(other.made)
      ensures Contents() == old(Contents()) + old(other.Contents())
      ensures shape == Joined(cmp, old(shape), old(other.shape))
      ensures other.shape == Leaf && made !! other.made && other.made <= old(other.made)
      ensures links == old(links) + LinksOf(old(shape), old(other.shape))
    {
      ghost var s, t, m, n := shape, other.shape, size, other.size;
      MeldOther(other);
      MeldFacts(cmp, s, t, m, n);
    }

    method MeldOther(other: PairingHeap<T>)
      requires Linked() && other.Linked() && Owned() && other.Owned() && this != other && made !! other.made
      modifies this`root, this`size, this`shape, this`cells, this`made, this`links
      modifies other`root, other`size, other`shape, other`cells, other`made, cells.Keys, other.cells.Keys
      ensures Linked()
      ensures other.Linked()
      ensures Owned()
      ensures other.Owned()
      ensures shape == Joined(cmp, old(shape), old(other.shape)) && size == old(size) + old(other.size)
      ensures other.shape == Leaf && other.size == 0
      ensures made + other.made == old(made) + old(other.made) && made !! other.made && other.made <= old(other.made)
      ensures links == old(links) + LinksOf(old(shape), old(other.shape))
    {
      ghost var keys := other.cells.Keys;
      NodesMoved(cells.Keys, freed, made, keys, other.freed, other.made);
      TakeAll(other);
      made, other.made := made + keys, other.freed;
    }

    /** Lets go of all nodes. */
    method Release()
      modifies this`root, this`size, this`shape, this`cells
      ensures Linked() && shape == Leaf && size == 0 && cells == map[]
    {
      root, size, shape, cells := null, 0, Leaf, map[];
    }

    method TakeAll(other: PairingHeap<T>)
      requires Linked() && other.Linked() && this != other && cells.Keys !! other.cells.Keys
      modifies this`root, this`size, this`shape, this`cells, this`links
      modifies other`root, other`size, other`shape, other`cells, cells.Keys, other.cells.Keys
      ensures Linked()
      ensures other.Linked()
      ensures shape == Joined(cmp, old(shape), old(other.shape)) && size == old(size) + old(other.size)
      ensures other.shape == Leaf && other.size == 0 && other.cells == map[]
      ensures cells.Keys == old(cells.Keys) + old(other.cells.Keys)
      ensures links == old(links) + LinksOf(old(shape), old(other.shape))
    {
      TakeNodes(other);
      size := size + other.size;
      other.Release();
    }

    /** Melds the other heap's tree into this one. */
    method TakeNodes(other: PairingHeap<T>)
      requires Linked() && other.Linked() && this != other && cells.Keys !! other.cells.Keys
      modifies this`root, this`shape, this`cells, this`links, cells.Keys, other.cells.Keys
      ensures Linked()
      ensures cells.Keys == old(cells.Keys) + other.cells.Keys
      ensures shape == Joined(cmp, old(shape), other.shape)
      ensures links == old(links) + LinksOf(old(shape), old(other.shape))
    {
      var r;
      ghost var m, n;
      r, m, n := MeldBoth(other);
      root, shape, cells, links := r, Joined(cmp, shape, other.shape), m, links + n;
    }

    method MeldBoth(other: PairingHeap<T>) returns (r: Node?<T>, ghost m: Cells<T>, ghost n: nat)
      requires Linked() && other.Linked() && this != other && cells.Keys !! other.cells.Keys
      modifies cells.Keys, other.cells.Keys
      ensures var t := Joined(cmp, shape, other.shape); Holds(m) && m.Keys == Nodes(t) && OneTree(m, t) && r == Ptr(t)
      ensures m.Keys == cells.Keys + other.cells.Keys && n == LinksOf(shape, other.shape)
    {
      Together(cells, other.cells, shape, other.shape);
      JoinedNodes(cmp, shape, other.shape);
      r, m, n := MeldTrees(root, other.root, cmp, cells + other.cells, shape, other.shape);
    }

    static lemma MeldFacts(cmp: (T, T) -> bool, s: Heap<T>, t: Heap<T>, m: nat, n: nat)
      requires IsOrdered(cmp, s, m) && IsOrdered(cmp, t, n)
      ensures IsOrdered(cmp, Joined(cmp, s, t), m + n)
      ensures Values(Joined(cmp, s, t)) == Values(s) + Values(t)
    {
      MeldOrdered(cmp, s, t);
      if s.Tree? && t.Tree? { MeldSingle(cmp, s, t); }
    }

    /** Frees every node of the list `t`, children first, each of them once. */
    method DestroySubtree(node: Node?<T>, ghost t: Heap<T>, ghost p: Node?<T>)
      requires Holds(cells) && Fits(cells, t, p) && Distinct(t) && node == Ptr(t) && Nodes(t) !! freed
      modifies this`freed, this`destroyed
      ensures freed == old(freed) + Nodes(t) && destroyed == old(destroyed) + PostOrder(t)
      decreases t
    {
      if node == null {
        return;
      }
      DestroySubtree(node.child, t.child, node);
      DestroySubtree(node.sibling, t.sibling, node);
      assert node !in freed;
      Free(node);
      Assoc4(old(destroyed), PostOrder(t.child), PostOrder(t.sibling), [node]);
    }

    method Clear()
      requires Valid()
      modifies this`root, this`size, this`shape, this`cells, this`freed, this`destroyed
      ensures Valid() && Contents() == multiset{} && size == 0 && shape == Leaf && freed == made
      ensures destroyed == old(destroyed) + PostOrder(old(shape))
    {
      PostOrderOnce(shape);
      OnceAll(destroyed, freed, PostOrder(shape), Nodes(shape));
      DestroySubtree(root, shape, null);
      root, size, shape, cells := null, 0, Leaf, map[];
    }

    /** Move assignment. */
    method MoveFrom(other: PairingHeap<T>)
      requires Valid() && other.Valid() && (this != other ==> made !! other.made)
      modifies this`root, this`size, this`cmp, this`shape, this`cells, this`made, this`freed, this`destroyed
      modifies other`root, other`size, other`shape, other`cells, other`made
      ensures Valid() && other.Valid() && made + other.made == old(made) + old(other.made)
      ensures this == other ==> shape == old(shape) && cells == old(cells) && size == old(size)
      ensures this == other ==> cmp == old(cmp) && freed == old(freed) && destroyed == old(destroyed)
      ensures this != other ==> shape == old(other.shape) && size == old(other.size) && cmp == other.cmp
      ensures this != other ==> other.shape == Leaf && freed == old(made) && made !! other.made
      ensures this != other ==> destroyed == old(destroyed) + PostOrder(old(shape))
    {
      if this != other {
        Clear();
        TakeOver(other);
      }
    }

    method TakeOver(other: PairingHeap<T>)
      requires this != other && cells == map[] && Owned() && made !! other.made && other.Valid()
      modifies this`root, this`size, this`cmp, this`shape, this`cells, this`made
      modifies other`root, other`size, other`shape, other`cells, other`made
      ensures Valid() && other.Valid()
      ensures shape == old(other.shape) && cells == old(other.cells) && size == old(other.size) && cmp == other.cmp
      ensures made == old(made) + cells.Keys && other.made == old(other.made) - cells.Keys && other.shape == Leaf
    {
      root, size, cmp := other.root, other.size, other.cmp;
      shape, cells, made := other.shape, other.cells, made + other.cells.Keys;
      other.Abandon();
    }

    /** Lets go of all nodes without freeing them. */
    method Abandon()
      requires StrictWeakOrder(cmp) && Once(destroyed, freed)
      modifies this`root, this`size, this`shape, this`cells, this`made
      ensures Valid() && shape == Leaf && cells == map[] && made == freed
    {
      Release();
      made := freed;
    }
  }
}
