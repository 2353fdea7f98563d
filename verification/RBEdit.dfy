/**
 Hanging a node into a tree, taking one out, and putting one in the place of
 another: what happens to the pointer fields, to the red-black laws and to the
 in-order listing.
 */
module RBEdit {
  import opened Seqs
  import opened RBShape
  import opened RBLinks

  // ---------------------------------------------------------- a new leaf

  /** All fields after `z` was hung, red, into the empty hole of `c`. */
  ghost function HangCells<T>(m: Cells<T>, z: Node<T>, c: Ctx<Node<T>>): Cells<T> {
    map n | n in m.Keys + {z} ::
      if n == z then Cell(null, null, HoleParent(c), Red)
      else if n == HoleParent(c) then (if c.InLeft? then m[n].(left := z) else m[n].(right := z))
      else m[n]
  }

  lemma ShapedHang<T>(root: Node?<T>, m: Cells<T>, c: Ctx<Node<T>>, z: Node<T>)
    requires Shaped(root, m, Plug(c, Leaf)) && z !in m
    ensures Shaped(if c.Top? then z else root, HangCells(m, z, c), Plug(c, Tree(z, Red, Leaf, Leaf)))
  {
    var m' := HangCells(m, z, c);
    Focus(root, m, c, Leaf);
    FitsRefilled(m, m', c, null, z);
    assert Fits(m', Tree(z, Red, Leaf, Leaf), HoleParent(c));
    Focus(if c.Top? then z else root, m', c, Tree(z, Red, Leaf, Leaf));
  }

  /** A red leaf breaks no law except, possibly, the one about red below red. */
  lemma HungInserting<N>(c: Ctx<N>, z: N)
    requires RedBlack(Plug(c, Leaf))
    ensures Inserting(c, Tree(z, Red, Leaf, Leaf))
  {
    RedBlackPlug(c, Leaf);
  }

  // ------------------------------------------------- a node with one child

  /** All fields after `Transplant(u, v)`. */
  ghost function TransplantCells<T>(m: Cells<T>, u: Node<T>, v: Node?<T>, p: Node?<T>): Cells<T> {
    map n | n in m ::
      if n == p then SwapChild(m[n], u, v)
      else if n == v then m[n].(parent := p)
      else m[n]
  }

  ghost predicate OnlyChild<N>(t: Tree<N>, ch: Tree<N>) {
    t.Tree? && ((t.left == Leaf && t.right == ch) || (t.right == Leaf && t.left == ch))
  }

  lemma FitsSplice<T>(m: Cells<T>, c: Ctx<Node<T>>, t: Tree<Node<T>>, ch: Tree<Node<T>>, m': Cells<T>)
    requires OnlyChild(t, ch) && Fits(m, t, HoleParent(c)) && FitsCtx(m, c, t.node)
    requires Distinct(t) && DistinctCtx(c) && Nodes(t) !! CtxNodes(c)
    requires m' == TransplantCells(m, t.node, Ptr(ch), HoleParent(c)) - {t.node}
    ensures Fits(m', ch, HoleParent(c)) && FitsCtx(m', c, Ptr(ch))
  {
    assert ch.Tree? ==> ch.node in Nodes(ch);
    assert Nodes(ch) <= Nodes(t) && t.node !in Nodes(ch);
    FitsRehung(m, m', ch, t.node, HoleParent(c));
    assert c.InRight? && c.left.Tree? ==> c.left.node in CtxNodes(c);
    FitsRefilled(m, m', c, t.node, Ptr(ch));
  }

  lemma FocusedSplice<T>(root: Node?<T>, m: Cells<T>, c: Ctx<Node<T>>, t: Tree<Node<T>>, ch: Tree<Node<T>>, m': Cells<T>)
    requires Focused(root, m, c, t) && OnlyChild(t, ch)
    requires m' == TransplantCells(m, t.node, Ptr(ch), HoleParent(c)) - {t.node}
    ensures Focused(if c.Top? then Ptr(ch) else root, m', c, ch)
    ensures ch.Tree? ==> ch.node in m && ch.node != HoleParent(c) && ch.node != t.node
    ensures !c.Top? ==> t.node != c.node
  {
    FitsSplice(m, c, t, ch, m');
    assert Nodes(t) == {t.node} + Nodes(ch);
    assert Distinct(ch);
  }

  lemma ShapedSplice<T>(root: Node?<T>, m: Cells<T>, c: Ctx<Node<T>>, t: Tree<Node<T>>, ch: Tree<Node<T>>)
    requires Shaped(root, m, Plug(c, t)) && OnlyChild(t, ch)
    ensures Shaped(if c.Top? then Ptr(ch) else root,
                   TransplantCells(m, t.node, Ptr(ch), HoleParent(c)) - {t.node}, Plug(c, ch))
    ensures ch.Tree? ==> ch.node in m && ch.node != HoleParent(c) && ch.node != t.node
    ensures !c.Top? ==> t.node != c.node
  {
    var m' := TransplantCells(m, t.node, Ptr(ch), HoleParent(c)) - {t.node};
    Focus(root, m, c, t);
    FocusedSplice(root, m, c, t, ch, m');
    Focus(if c.Top? then Ptr(ch) else root, m', c, ch);
  }

  /** Taking out a red node keeps every law; a black one leaves its place one black node short. */
  lemma SplicedLaws<N>(c: Ctx<N>, t: Tree<N>, ch: Tree<N>)
    requires RedBlack(Plug(c, t)) && OnlyChild(t, ch)
    ensures t.color == Red ==> RedBlack(Plug(c, ch))
    ensures t.color == Black ==> Short(c, ch)
  {
    RedBlackPlug(c, t);
    if t.color == Red { RedBlackPlug(c, ch); }
  }

  lemma SplicedOrder<N>(c: Ctx<N>, t: Tree<N>, ch: Tree<N>)
    requires OnlyChild(t, ch)
    ensures InOrder(Plug(c, t)) == (Before(c) + InOrder(t.left)) + [t.node] + (InOrder(t.right) + After(c))
    ensures InOrder(Plug(c, ch)) == (Before(c) + InOrder(t.left)) + (InOrder(t.right) + After(c))
  {
    InOrderPlug(c, t);
    InOrderPlug(c, ch);
    Inner3(Before(c), InOrder(t.left), [t.node], InOrder(t.right), After(c));
    assert InOrder(ch) == InOrder(t.left) + InOrder(t.right) by {
      if t.left == Leaf { assert [] + InOrder(ch) == InOrder(ch); } else { Padded(InOrder(ch)); }
    }
    Inner2(Before(c), InOrder(t.left), InOrder(t.right), After(c));
  }

  // ------------------------------------------ one node in place of another

  /** All fields after `y` took over the fields and the neighbours of `z`. */
  ghost function SubstituteCells<T>(m: Cells<T>, z: Node<T>, y: Node<T>): Cells<T>
    requires z in m
  {
    map n | n in m.Keys - {z} + {y} ::
      if n == y then m[z]
      else if n == m[z].left || n == m[z].right then m[n].(parent := y)
      else if n == m[z].parent then SwapChild(m[n], z, y)
      else m[n]
  }

  lemma FitsSubstitute<T>(m: Cells<T>, c: Ctx<Node<T>>, t: Tree<Node<T>>, y: Node<T>, m': Cells<T>)
    requires t.Tree? && Fits(m, t, HoleParent(c)) && Distinct(t) && y !in m && HoleParent(c) !in Nodes(t)
    requires m' == SubstituteCells(m, t.node, y)
    ensures Fits(m', t.(node := y), HoleParent(c))
  {
    assert t.left.Tree? ==> t.left.node in Nodes(t.left);
    assert t.right.Tree? ==> t.right.node in Nodes(t.right);
    FitsRehung(m, m', t.left, t.node, y);
    FitsRehung(m, m', t.right, t.node, y);
  }

  lemma FocusedSubstitute<T>(root: Node?<T>, m: Cells<T>, c: Ctx<Node<T>>, t: Tree<Node<T>>, y: Node<T>, m': Cells<T>)
    requires Focused(root, m, c, t) && t.Tree? && y !in m && m' == SubstituteCells(m, t.node, y)
    ensures Focused(if c.Top? then y else root, m', c, t.(node := y))
  {
    FitsSubstitute(m, c, t, y, m');
    assert c.InRight? && c.left.Tree? ==> c.left.node in CtxNodes(c);
    assert t.left.Tree? ==> t.left.node in Nodes(t);
    assert t.right.Tree? ==> t.right.node in Nodes(t);
    FitsRefilled(m, m', c, t.node, y);
  }

  lemma ShapedSubstitute<T>(root: Node?<T>, m: Cells<T>, c: Ctx<Node<T>>, t: Tree<Node<T>>, y: Node<T>)
    requires Shaped(root, m, Plug(c, t)) && t.Tree? && y !in m
    ensures t.node in m
    ensures Shaped(if c.Top? then y else root, SubstituteCells(m, t.node, y), Plug(c, t.(node := y)))
  {
    Focus(root, m, c, t);
    FocusedSubstitute(root, m, c, t, y, SubstituteCells(m, t.node, y));
    Focus(if c.Top? then y else root, SubstituteCells(m, t.node, y), c, t.(node := y));
  }

  // ------------------------------------------------ a node with two children

  /** The hole where the in-order successor hung, `k` levels of left steps below the right child of `z`. */
  function SuccessorHole<N>(k: Ctx<N>, z: N, col: Color, l: Tree<N>, c: Ctx<N>): Ctx<N> {
    Append(k, InRight(z, col, l, c))
  }

  lemma SuccessorPlug<N>(k: Ctx<N>, z: N, col: Color, l: Tree<N>, c: Ctx<N>, t: Tree<N>)
    ensures Plug(SuccessorHole(k, z, col, l, c), t) == Plug(c, Tree(z, col, l, Plug(k, t)))
  {
    PlugAppend(k, InRight(z, col, l, c), t);
  }

  /** The laws do not depend on which node stands where. */
  lemma {:induction false} LawsIgnoreNodes<N>(k: Ctx<N>, z: N, y: N, col: Color, l: Tree<N>, c: Ctx<N>, h: nat)
    ensures BalancedCtx(SuccessorHole(k, z, col, l, c), h) <==> BalancedCtx(SuccessorHole(k, y, col, l, c), h)
    ensures NoRedRedCtx(SuccessorHole(k, z, col, l, c)) <==> NoRedRedCtx(SuccessorHole(k, y, col, l, c))
    ensures BlackTop(SuccessorHole(k, z, col, l, c)) <==> BlackTop(SuccessorHole(k, y, col, l, c))
    ensures RedAbove(SuccessorHole(k, z, col, l, c)) <==> RedAbove(SuccessorHole(k, y, col, l, c))
    decreases k
  {
    if !k.Top? { LawsIgnoreNodes(k.up, z, y, col, l, c, h + Blacks(k.color)); }
  }

  /** Moving the successor `y` into the place and colour of `z` costs a black node only where `y` was, and only if it was black. */
  lemma MovedLaws<N>(k: Ctx<N>, c: Ctx<N>, t: Tree<N>, s: Tree<N>)
    requires t.Tree? && s.Tree? && s.left == Leaf && t.right == Plug(k, s) && RedBlack(Plug(c, t))
    ensures var c' := SuccessorHole(k, s.node, t.color, t.left, c);
      (s.color == Red ==> RedBlack(Plug(c', s.right))) && (s.color == Black ==> Short(c', s.right))
  {
    var c0 := SuccessorHole(k, t.node, t.color, t.left, c);
    var c' := SuccessorHole(k, s.node, t.color, t.left, c);
    SuccessorPlug(k, t.node, t.color, t.left, c, s);
    SplicedLaws(c0, s, s.right);
    LawsIgnoreNodes(k, t.node, s.node, t.color, t.left, c, BlackHeight(s.right));
    LawsIgnoreNodes(k, t.node, s.node, t.color, t.left, c, BlackHeight(s.right) + 1);
    RedBlackPlug(c0, s.right);
    RedBlackPlug(c', s.right);
    HoleIsNotTop(k, t.node, t.color, t.left, c);
    HoleIsNotTop(k, s.node, t.color, t.left, c);
  }

  lemma HoleIsNotTop<N>(k: Ctx<N>, z: N, col: Color, l: Tree<N>, c: Ctx<N>)
    ensures !SuccessorHole(k, z, col, l, c).Top?
  {
  }

  /** The node reached by left steps only comes first. */
  lemma FirstInOrder<N>(k: Ctx<N>, s: Tree<N>)
    requires s.Tree? && s.left == Leaf && Before(k) == []
    ensures InOrder(Plug(k, s)) == [s.node] + InOrder(Plug(k, s.right))
  {
    InOrderPlug(k, s);
    InOrderPlug(k, s.right);
    ConsFirst(s.node, InOrder(s.right), After(k));
  }

  lemma ConsFirst<N>(n: N, a: seq<N>, b: seq<N>)
    ensures [] + ([] + [n] + a) + b == [n] + ([] + a + b)
  {
  }

  lemma MovedOrder<N>(k: Ctx<N>, c: Ctx<N>, t: Tree<N>, s: Tree<N>)
    requires t.Tree? && s.Tree? && s.left == Leaf && t.right == Plug(k, s) && Before(k) == []
    ensures InOrder(Plug(c, t)) == (Before(c) + InOrder(t.left)) + [t.node] + (InOrder(t.right) + After(c))
    ensures InOrder(Plug(SuccessorHole(k, s.node, t.color, t.left, c), s.right))
         == (Before(c) + InOrder(t.left)) + (InOrder(t.right) + After(c))
  {
    InOrderPlug(c, t);
    Inner3(Before(c), InOrder(t.left), [t.node], InOrder(t.right), After(c));
    SuccessorPlug(k, s.node, t.color, t.left, c, s.right);
    var r := Plug(k, s.right);
    InOrderPlug(c, Tree(s.node, t.color, t.left, r));
    FirstInOrder(k, s);
    Assoc(InOrder(t.left), [s.node], InOrder(r));
    Inner2(Before(c), InOrder(t.left), InOrder(t.right), After(c));
  }

  lemma SuccessorApart<T>(root: Node?<T>, m: Cells<T>, k: Ctx<Node<T>>, c: Ctx<Node<T>>, t: Tree<Node<T>>, s: Tree<Node<T>>)
    requires t.Tree? && s.Tree? && t.right == Plug(k, s) && Shaped(root, m, Plug(c, t))
    ensures !k.Top? ==> k.node != t.node && Plug(k, s.right).Tree?
    ensures s.right.Tree? ==> s.right.node in m && s.right.node != t.node && m[s.right.node].parent == s.node
  {
    Focus(root, m, c, t);
    NodesPlug(k, s);
    if !k.Top? {
      FitsPlug(m, k, s.right);
      RootInCtx(k, Ptr(s.right));
    }
    var c0 := SuccessorHole(k, t.node, t.color, t.left, c);
    SuccessorPlug(k, t.node, t.color, t.left, c, s);
    Around(root, m, InRight(s.node, s.color, s.left, c0), s.right);
    assert s.right.Tree? ==> s.right.node in Nodes(s);
  }

  /** The fields after the successor `s.node` was spliced out. */
  lemma ShapedSuccessor<T>(root: Node?<T>, m: Cells<T>, k: Ctx<Node<T>>, c: Ctx<Node<T>>, t: Tree<Node<T>>, s: Tree<Node<T>>)
    requires t.Tree? && s.Tree? && s.left == Leaf && t.right == Plug(k, s) && Shaped(root, m, Plug(c, t))
    ensures var q := if k.Top? then t.node else k.node;
      && s.node in m && m[s.node] == Cell(null, Ptr(s.right), q, s.color) && q in m
      && Shaped(root, TransplantCells(m, s.node, Ptr(s.right), q) - {s.node}, Plug(c, t.(right := Plug(k, s.right))))
    ensures !k.Top? ==> k.node != t.node && Plug(k, s.right).Tree?
    ensures s.right.Tree? ==> s.right.node in m && s.right.node != t.node && m[s.right.node].parent == s.node
  {
    SuccessorApart(root, m, k, c, t, s);
    var c0 := SuccessorHole(k, t.node, t.color, t.left, c);
    SuccessorPlug(k, t.node, t.color, t.left, c, s);
    SuccessorPlug(k, t.node, t.color, t.left, c, s.right);
    Around(root, m, c0, s);
    ShapedSplice(root, m, c0, s, s.right);
  }

  /** The neighbours of `z` are distinct nodes, and its parent points to it from one side. */
  ghost predicate Surrounded<T>(m: Cells<T>, z: Node<T>) {
    && z in m && z !in {m[z].left, m[z].right, m[z].parent}
    && (m[z].left != null ==> m[z].left in m && m[z].left !in {m[z].right, m[z].parent})
    && (m[z].right != null ==> m[z].right in m && m[z].right != m[z].parent)
    && (m[z].parent != null ==> m[z].parent in m)
  }

  lemma ShapedSurrounded<T>(root: Node?<T>, m: Cells<T>, c: Ctx<Node<T>>, t: Tree<Node<T>>)
    requires Shaped(root, m, Plug(c, t)) && t.Tree?
    ensures Surrounded(m, t.node)
  {
    Focus(root, m, c, t);
    assert t.left.Tree? ==> t.left.node in Nodes(t.left);
    assert t.right.Tree? ==> t.right.node in Nodes(t.right);
  }

  /** `y` is the right child of `z` and has no left child; `m1` are the fields with `y` spliced out. */
  ghost predicate ChildMovable<T>(m: Cells<T>, m1: Cells<T>, z: Node<T>, y: Node<T>) {
    && Surrounded(m, z) && y in m && m[z].right == y && m[y].right != z
    && m1 == TransplantCells(m, y, m[y].right, z) - {y} && Surrounded(m1, z)
    && (m[y].right != null ==> m[y].right in m && m[m[y].right].parent == y)
  }

  /** The fields after the right child, having no left child, took the place of its parent `t.node`. */
  lemma ShapedMoveChild<T>(root: Node?<T>, m: Cells<T>, c: Ctx<Node<T>>, t: Tree<Node<T>>, m1: Cells<T>)
    requires t.Tree? && t.right.Tree? && t.right.left == Leaf && Shaped(root, m, Plug(c, t))
    requires t.node in m && m1 == TransplantCells(m, t.right.node, Ptr(t.right.right), t.node) - {t.right.node}
    requires t.node != t.right.node
    ensures SubstituteCells(m1, t.node, t.right.node).Keys == m.Keys - {t.node}
    ensures ChildMovable(m, m1, t.node, t.right.node) && m[t.node].left == Ptr(t.left) && m[t.node].parent == HoleParent(c)
    ensures Shaped(if c.Top? then t.right.node else root, SubstituteCells(m1, t.node, t.right.node),
                   Plug(c, Tree(t.right.node, t.color, t.left, t.right.right)))
  {
    var s := t.right;
    ShapedSuccessor(root, m, Top, c, t, s);
    ShapedSubstitute(root, m1, c, t.(right := s.right), s.node);
    ShapedSurrounded(root, m1, c, t.(right := s.right));
    ShapedSurrounded(root, m, c, t);
    Around(root, m, c, t);
  }
}
