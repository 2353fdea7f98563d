/**
 The pointer fields of a set of tree nodes, taken as one value, and what it
 means for them to spell out a given tree: child and parent pointers agree,
 colours agree, no node is shared and there is no cycle.
 */
module RBLinks {
  import opened Seqs
  import opened RBShape

  class Node<T> {
    const value: T
    var left: Node?<T>
    var right: Node?<T>
    var parent: Node?<T>
    var color: Color

    constructor (v: T)
      ensures value == v && left == null && right == null && parent == null && color == Red
    {
      value := v;
      left, right, parent, color := null, null, null, Red;
    }
  }

  /** The mutable fields of one node. */
  datatype Cell<T> = Cell(left: Node?<T>, right: Node?<T>, parent: Node?<T>, color: Color)

  type Cells<T> = map<Node<T>, Cell<T>>

  /** `m` records what the heap holds. */
  ghost predicate Holds<T>(m: Cells<T>)
    reads m.Keys
  {
    forall n :: n in m ==> Cell(n.left, n.right, n.parent, n.color) == m[n]
  }

  function Ptr<T>(t: Tree<Node<T>>): Node?<T> {
    if t.Leaf? then null else t.node
  }

  function HoleParent<T>(c: Ctx<Node<T>>): Node?<T> {
    if c.Top? then null else c.node
  }

  function RootOf<T>(c: Ctx<Node<T>>, n: Node?<T>): Node?<T> {
    if c.Top? then n else RootOf(c.up, c.node)
  }

  /** The fields below `Ptr(t)` spell out exactly `t`, hanging under `p`. */
  ghost predicate Fits<T>(m: Cells<T>, t: Tree<Node<T>>, p: Node?<T>) {
    match t
    case Leaf => true
    case Tree(n, col, l, r) =>
      n in m && m[n] == Cell(Ptr(l), Ptr(r), p, col) && Fits(m, l, n) && Fits(m, r, n)
  }

  /** The fields around a hole that holds the pointer `n` spell out exactly `c`. */
  ghost predicate FitsCtx<T>(m: Cells<T>, c: Ctx<Node<T>>, n: Node?<T>) {
    match c
    case Top => true
    case InLeft(p, col, r, up) =>
      p in m && m[p] == Cell(n, Ptr(r), HoleParent(up), col) && Fits(m, r, p) && FitsCtx(m, up, p)
    case InRight(p, col, l, up) =>
      p in m && m[p] == Cell(Ptr(l), n, HoleParent(up), col) && Fits(m, l, p) && FitsCtx(m, up, p)
  }

  lemma {:induction false} FitsPlug<T>(m: Cells<T>, c: Ctx<Node<T>>, t: Tree<Node<T>>)
    ensures Fits(m, Plug(c, t), null) <==> Fits(m, t, HoleParent(c)) && FitsCtx(m, c, Ptr(t))
    ensures Ptr(Plug(c, t)) == RootOf(c, Ptr(t))
    decreases c
  {
    match c
    case Top =>
    case InLeft(n, col, r, up) => FitsPlug(m, up, Tree(n, col, t, r));
    case InRight(n, col, l, up) => FitsPlug(m, up, Tree(n, col, l, t));
  }

  /** No node occurs twice. */
  ghost predicate Distinct<N>(t: Tree<N>) {
    match t
    case Leaf => true
    case Tree(n, _, l, r) =>
      n !in Nodes(l) && n !in Nodes(r) && Nodes(l) !! Nodes(r) && Distinct(l) && Distinct(r)
  }

  /** The nodes of a tree, children before parents, the left subtree first. */
  ghost function PostOrder<N>(t: Tree<N>): seq<N> {
    match t
    case Leaf => []
    case Tree(n, _, l, r) => PostOrder(l) + PostOrder(r) + [n]
  }

  lemma {:induction false} PostOrderOnce<N>(t: Tree<N>)
    requires Distinct(t)
    ensures Once(PostOrder(t), Nodes(t))
  {
    if t.Tree? {
      PostOrderOnce(t.left);
      PostOrderOnce(t.right);
      OnceAll(PostOrder(t.left), Nodes(t.left), PostOrder(t.right), Nodes(t.right));
      OnceMore(PostOrder(t.left) + PostOrder(t.right), Nodes(t.left) + Nodes(t.right), t.node);
      assert Nodes(t) == Nodes(t.left) + Nodes(t.right) + {t.node};
    }
  }

  ghost predicate DistinctCtx<N>(c: Ctx<N>) {
    match c
    case Top => true
    case InLeft(n, _, t, up) =>
      n !in Nodes(t) && n !in CtxNodes(up) && Nodes(t) !! CtxNodes(up) && Distinct(t) && DistinctCtx(up)
    case InRight(n, _, t, up) =>
      n !in Nodes(t) && n !in CtxNodes(up) && Nodes(t) !! CtxNodes(up) && Distinct(t) && DistinctCtx(up)
  }

  lemma {:induction false} DistinctPlug<N>(c: Ctx<N>, t: Tree<N>)
    ensures Distinct(Plug(c, t)) <==> Distinct(t) && DistinctCtx(c) && Nodes(t) !! CtxNodes(c)
    decreases c
  {
    match c
    case Top =>
    case InLeft(n, col, r, up) => DistinctPlug(up, Tree(n, col, t, r));
    case InRight(n, col, l, up) => DistinctPlug(up, Tree(n, col, l, t));
  }

  // ---------------------------------------------------- changing the fields

  ghost predicate Agree<T>(m: Cells<T>, m': Cells<T>, ns: set<Node<T>>) {
    forall n :: n in ns && n in m ==> n in m' && m'[n] == m[n]
  }

  lemma {:induction false} FitsFrame<T>(m: Cells<T>, m': Cells<T>, t: Tree<Node<T>>, p: Node?<T>)
    requires Fits(m, t, p) && Agree(m, m', Nodes(t))
    ensures Fits(m', t, p)
  {
    match t
    case Leaf =>
    case Tree(n, _, l, r) => FitsFrame(m, m', l, n); FitsFrame(m, m', r, n);
  }

  lemma {:induction false} FitsCtxFrame<T>(m: Cells<T>, m': Cells<T>, c: Ctx<Node<T>>, n: Node?<T>)
    requires FitsCtx(m, c, n) && Agree(m, m', CtxNodes(c))
    ensures FitsCtx(m', c, n)
  {
    match c
    case Top =>
    case InLeft(p, _, t, up) => FitsFrame(m, m', t, p); FitsCtxFrame(m, m', up, p);
    case InRight(p, _, t, up) => FitsFrame(m, m', t, p); FitsCtxFrame(m, m', up, p);
  }

  /** Only the parent field of the subtree's root moved, from `p` to `q`. */
  ghost predicate Rehung<T>(m: Cells<T>, m': Cells<T>, t: Tree<Node<T>>, q: Node?<T>) {
    && Agree(m, m', Nodes(t) - {Ptr(t)})
    && (t.Tree? && t.node in m ==> t.node in m' && m'[t.node] == m[t.node].(parent := q))
  }

  lemma FitsRehung<T>(m: Cells<T>, m': Cells<T>, t: Tree<Node<T>>, p: Node?<T>, q: Node?<T>)
    requires Fits(m, t, p) && Distinct(t) && Rehung(m, m', t, q)
    ensures Fits(m', t, q)
  {
    if t.Tree? {
      FitsFrame(m, m', t.left, t.node);
      FitsFrame(m, m', t.right, t.node);
    }
  }

  /** Only the child field that held the hole's pointer moved, to `v`. */
  ghost predicate Refilled<T>(m: Cells<T>, m': Cells<T>, c: Ctx<Node<T>>, v: Node?<T>) {
    && Agree(m, m', CtxNodes(c) - {HoleParent(c)})
    && (c.InLeft? && c.node in m ==> c.node in m' && m'[c.node] == m[c.node].(left := v))
    && (c.InRight? && c.node in m ==> c.node in m' && m'[c.node] == m[c.node].(right := v))
  }

  lemma FitsRefilled<T>(m: Cells<T>, m': Cells<T>, c: Ctx<Node<T>>, u: Node?<T>, v: Node?<T>)
    requires FitsCtx(m, c, u) && DistinctCtx(c) && Refilled(m, m', c, v)
    ensures FitsCtx(m', c, v)
  {
    match c
    case Top =>
    case InLeft(p, _, t, up) => FitsFrame(m, m', t, p); FitsCtxFrame(m, m', up, p);
    case InRight(p, _, t, up) => FitsFrame(m, m', t, p); FitsCtxFrame(m, m', up, p);
  }

  // ------------------------------------------------------- the whole tree

  /** The fields `m` of the nodes of `s` spell out `s`, from the root pointer on. */
  ghost predicate Shaped<T>(root: Node?<T>, m: Cells<T>, s: Tree<Node<T>>) {
    root == Ptr(s) && m.Keys == Nodes(s) && Distinct(s) && Fits(m, s, null)
  }

  /** The same fact about `Plug(c, t)`, seen from its hole. */
  ghost predicate Focused<T>(root: Node?<T>, m: Cells<T>, c: Ctx<Node<T>>, t: Tree<Node<T>>) {
    && root == RootOf(c, Ptr(t)) && Fits(m, t, HoleParent(c)) && FitsCtx(m, c, Ptr(t))
    && Distinct(t) && DistinctCtx(c) && Nodes(t) !! CtxNodes(c) && m.Keys == Nodes(t) + CtxNodes(c)
  }

  lemma Focus<T>(root: Node?<T>, m: Cells<T>, c: Ctx<Node<T>>, t: Tree<Node<T>>)
    ensures Shaped(root, m, Plug(c, t)) <==> Focused(root, m, c, t)
  {
    NodesPlug(c, t);
    FitsPlug(m, c, t);
    DistinctPlug(c, t);
  }

  // ------------------------------------------------------------- rotations

  function RotatedLeft<N>(t: Tree<N>): Tree<N>
    requires t.Tree? && t.right.Tree?
  {
    Tree(t.right.node, t.right.color, Tree(t.node, t.color, t.left, t.right.left), t.right.right)
  }

  function RotatedRight<N>(t: Tree<N>): Tree<N>
    requires t.Tree? && t.left.Tree?
  {
    Tree(t.left.node, t.left.color, t.left.left, Tree(t.node, t.color, t.left.right, t.right))
  }

  lemma DistinctRotatedLeft<N>(t: Tree<N>)
    requires t.Tree? && t.right.Tree?
    ensures Nodes(RotatedLeft(t)) == Nodes(t)
    ensures Distinct(t) ==> Distinct(RotatedLeft(t))
  {
    assert Distinct(t) ==> Distinct(t.right);
    var y := t.right;
    assert Nodes(y) == {y.node} + Nodes(y.left) + Nodes(y.right);
    assert Nodes(RotatedLeft(t).left) == {t.node} + Nodes(t.left) + Nodes(y.left);
  }

  /** `x` is a child of `p` with a child `y`, whose inner child is `b`; no two of them coincide. */
  ghost predicate Rotatable<T>(m: Cells<T>, x: Node<T>, y: Node<T>, b: Node?<T>, p: Node?<T>) {
    && x in m && y in m && x != y && m[x].parent == p && m[y].parent == x
    && (b != null ==> b in m && b != x && b != y)
    && (p != null ==> p in m && p != x && p != y && p != b && (m[p].left == x <==> m[p].right != x))
  }

  /** The fields of `p` after its child `u` is exchanged for `v`. */
  ghost function SwapChild<T>(p: Cell<T>, u: Node?<T>, v: Node?<T>): Cell<T> {
    if p.left == u then p.(left := v) else p.(right := v)
  }

  /** All fields after a left rotation. */
  ghost function RotateLeftCells<T>(m: Cells<T>, x: Node<T>, y: Node<T>, b: Node?<T>, p: Node?<T>): Cells<T> {
    map n | n in m ::
      if n == x then m[n].(right := b, parent := y)
      else if n == y then m[n].(left := x, parent := p)
      else if n == b then m[n].(parent := x)
      else if n == p then SwapChild(m[n], x, y)
      else m[n]
  }

  /** All fields after a right rotation. */
  ghost function RotateRightCells<T>(m: Cells<T>, x: Node<T>, y: Node<T>, b: Node?<T>, p: Node?<T>): Cells<T> {
    map n | n in m ::
      if n == x then m[n].(left := b, parent := y)
      else if n == y then m[n].(right := x, parent := p)
      else if n == b then m[n].(parent := x)
      else if n == p then SwapChild(m[n], x, y)
      else m[n]
  }

  /** The fields a left rotation reads. */
  lemma AroundLeft<T>(root: Node?<T>, m: Cells<T>, c: Ctx<Node<T>>, t: Tree<Node<T>>)
    requires Focused(root, m, c, t) && t.Tree? && t.right.Tree?
    ensures Rotatable(m, t.node, t.right.node, Ptr(t.right.left), HoleParent(c))
    ensures m[t.node].right == t.right.node && m[t.right.node].left == Ptr(t.right.left)
    ensures c.InLeft? <==> !c.Top? && m[c.node].left == t.node
  {
    assert Fits(m, t.right, t.node);
    assert Distinct(t.right);
    if c.InRight? && c.left.Tree? {
      assert c.left.node in CtxNodes(c);
    }
  }

  lemma FitsRotateLeft<T>(m: Cells<T>, m': Cells<T>, c: Ctx<Node<T>>, t: Tree<Node<T>>)
    requires t.Tree? && t.right.Tree? && Distinct(t) && Fits(m, t, HoleParent(c))
    requires HoleParent(c) !in Nodes(t)
    requires m' == RotateLeftCells(m, t.node, t.right.node, Ptr(t.right.left), HoleParent(c))
    ensures Fits(m', RotatedLeft(t), HoleParent(c))
  {
    var x, y, b := t.node, t.right.node, t.right.left;
    assert Fits(m, t.right, x);
    assert Distinct(t.right);
    FitsFrame(m, m', t.left, x);
    FitsFrame(m, m', t.right.right, y);
    FitsRehung(m, m', b, y, x);
  }

  lemma FocusedRotateLeft<T>(root: Node?<T>, m: Cells<T>, c: Ctx<Node<T>>, t: Tree<Node<T>>, m': Cells<T>)
    requires Focused(root, m, c, t) && t.Tree? && t.right.Tree?
    requires m' == RotateLeftCells(m, t.node, t.right.node, Ptr(t.right.left), HoleParent(c))
    ensures Focused(if c.Top? then t.right.node else root, m', c, RotatedLeft(t))
  {
    AroundLeft(root, m, c, t);
    DistinctRotatedLeft(t);
    FitsRotateLeft(m, m', c, t);
    assert t.right.node in Nodes(t) && (t.right.left.Tree? ==> t.right.left.node in Nodes(t.right));
    FitsRefilled(m, m', c, t.node, t.right.node);
  }

  /** A left rotation of the fields is a left rotation of the tree, and keeps the in-order listing. */
  lemma ShapedRotateLeft<T>(root: Node?<T>, m: Cells<T>, c: Ctx<Node<T>>, t: Tree<Node<T>>)
    requires Shaped(root, m, Plug(c, t)) && t.Tree? && t.right.Tree?
    ensures Rotatable(m, t.node, t.right.node, Ptr(t.right.left), HoleParent(c))
    ensures m[t.node].right == t.right.node && m[t.right.node].left == Ptr(t.right.left)
    ensures Shaped(if HoleParent(c) == null then t.right.node else root,
                   RotateLeftCells(m, t.node, t.right.node, Ptr(t.right.left), HoleParent(c)),
                   Plug(c, RotatedLeft(t)))
    ensures InOrder(Plug(c, RotatedLeft(t))) == InOrder(Plug(c, t))
  {
    Focus(root, m, c, t);
    AroundLeft(root, m, c, t);
    var m' := RotateLeftCells(m, t.node, t.right.node, Ptr(t.right.left), HoleParent(c));
    FocusedRotateLeft(root, m, c, t, m');
    Focus(if c.Top? then t.right.node else root, m', c, RotatedLeft(t));
    InOrderRotatedLeft(t);
    InOrderPlug(c, t);
    InOrderPlug(c, RotatedLeft(t));
  }

  lemma InOrderRotatedLeft<N>(t: Tree<N>)
    requires t.Tree? && t.right.Tree?
    ensures InOrder(RotatedLeft(t)) == InOrder(t)
  {
    var a, x, b, y, d := InOrder(t.left), [t.node], InOrder(t.right.left), [t.right.node], InOrder(t.right.right);
    Rotation(a, x, b, y, d);
  }

  // The mirror image.

  lemma DistinctRotatedRight<N>(t: Tree<N>)
    requires t.Tree? && t.left.Tree?
    ensures Nodes(RotatedRight(t)) == Nodes(t)
    ensures Distinct(t) ==> Distinct(RotatedRight(t))
  {
    assert Distinct(t) ==> Distinct(t.left);
    var y := t.left;
    assert Nodes(y) == {y.node} + Nodes(y.left) + Nodes(y.right);
    assert Nodes(RotatedRight(t).right) == {t.node} + Nodes(y.right) + Nodes(t.right);
  }

  lemma AroundRight<T>(root: Node?<T>, m: Cells<T>, c: Ctx<Node<T>>, t: Tree<Node<T>>)
    requires Focused(root, m, c, t) && t.Tree? && t.left.Tree?
    ensures Rotatable(m, t.node, t.left.node, Ptr(t.left.right), HoleParent(c))
    ensures m[t.node].left == t.left.node && m[t.left.node].right == Ptr(t.left.right)
    ensures c.InLeft? <==> !c.Top? && m[c.node].left == t.node
  {
    assert Fits(m, t.left, t.node);
    assert Distinct(t.left);
    if c.InRight? && c.left.Tree? {
      assert c.left.node in CtxNodes(c);
    }
  }

  lemma FitsRotateRight<T>(m: Cells<T>, m': Cells<T>, c: Ctx<Node<T>>, t: Tree<Node<T>>)
    requires t.Tree? && t.left.Tree? && Distinct(t) && Fits(m, t, HoleParent(c))
    requires HoleParent(c) !in Nodes(t)
    requires m' == RotateRightCells(m, t.node, t.left.node, Ptr(t.left.right), HoleParent(c))
    ensures Fits(m', RotatedRight(t), HoleParent(c))
  {
    var x, y, b := t.node, t.left.node, t.left.right;
    assert Fits(m, t.left, x);
    assert Distinct(t.left);
    FitsFrame(m, m', t.right, x);
    FitsFrame(m, m', t.left.left, y);
    FitsRehung(m, m', b, y, x);
  }

  lemma FocusedRotateRight<T>(root: Node?<T>, m: Cells<T>, c: Ctx<Node<T>>, t: Tree<Node<T>>, m': Cells<T>)
    requires Focused(root, m, c, t) && t.Tree? && t.left.Tree?
    requires m' == RotateRightCells(m, t.node, t.left.node, Ptr(t.left.right), HoleParent(c))
    ensures Focused(if c.Top? then t.left.node else root, m', c, RotatedRight(t))
  {
    AroundRight(root, m, c, t);
    DistinctRotatedRight(t);
    FitsRotateRight(m, m', c, t);
    assert t.left.node in Nodes(t) && (t.left.right.Tree? ==> t.left.right.node in Nodes(t.left));
    FitsRefilled(m, m', c, t.node, t.left.node);
  }

  lemma InOrderRotatedRight<N>(t: Tree<N>)
    requires t.Tree? && t.left.Tree?
    ensures InOrder(RotatedRight(t)) == InOrder(t)
  {
    var a, y, b, x, d := InOrder(t.left.left), [t.left.node], InOrder(t.left.right), [t.node], InOrder(t.right);
    Rotation(a, y, b, x, d);
  }

  lemma ShapedRotateRight<T>(root: Node?<T>, m: Cells<T>, c: Ctx<Node<T>>, t: Tree<Node<T>>)
    requires Shaped(root, m, Plug(c, t)) && t.Tree? && t.left.Tree?
    ensures Rotatable(m, t.node, t.left.node, Ptr(t.left.right), HoleParent(c))
    ensures m[t.node].left == t.left.node && m[t.left.node].right == Ptr(t.left.right)
    ensures Shaped(if HoleParent(c) == null then t.left.node else root,
                   RotateRightCells(m, t.node, t.left.node, Ptr(t.left.right), HoleParent(c)),
                   Plug(c, RotatedRight(t)))
    ensures InOrder(Plug(c, RotatedRight(t))) == InOrder(Plug(c, t))
  {
    Focus(root, m, c, t);
    AroundRight(root, m, c, t);
    var m' := RotateRightCells(m, t.node, t.left.node, Ptr(t.left.right), HoleParent(c));
    FocusedRotateRight(root, m, c, t, m');
    Focus(if c.Top? then t.left.node else root, m', c, RotatedRight(t));
    InOrderRotatedRight(t);
    InOrderPlug(c, t);
    InOrderPlug(c, RotatedRight(t));
  }

  // --------------------------------------------------- colours and look-ups

  lemma FocusedPaint<T>(root: Node?<T>, m: Cells<T>, c: Ctx<Node<T>>, t: Tree<Node<T>>, col: Color)
    requires Focused(root, m, c, t) && t.Tree?
    ensures Focused(root, m[t.node := m[t.node].(color := col)], c, Painted(t, col))
  {
    var m' := m[t.node := m[t.node].(color := col)];
    FitsFrame(m, m', t.left, t.node);
    FitsFrame(m, m', t.right, t.node);
    FitsCtxFrame(m, m', c, t.node);
  }

  lemma InOrderPainted<N>(c: Ctx<N>, t: Tree<N>, col: Color)
    ensures InOrder(Plug(c, Painted(t, col))) == InOrder(Plug(c, t))
  {
    InOrderPlug(c, t);
    InOrderPlug(c, Painted(t, col));
  }

  lemma ShapedPaint<T>(root: Node?<T>, m: Cells<T>, c: Ctx<Node<T>>, t: Tree<Node<T>>, col: Color)
    requires Shaped(root, m, Plug(c, t)) && t.Tree?
    ensures t.node in m
    ensures Shaped(root, m[t.node := m[t.node].(color := col)], Plug(c, Painted(t, col)))
  {
    Focus(root, m, c, t);
    FocusedPaint(root, m, c, t, col);
    Focus(root, m[t.node := m[t.node].(color := col)], c, Painted(t, col));
  }

  /** The fields around the hole of a whole tree. */
  lemma Around<T>(root: Node?<T>, m: Cells<T>, c: Ctx<Node<T>>, t: Tree<Node<T>>)
    requires Shaped(root, m, Plug(c, t))
    ensures t.Tree? ==> t.node in m && m[t.node] == Cell(Ptr(t.left), Ptr(t.right), HoleParent(c), t.color)
    ensures c.InLeft? ==> c.node in m && m[c.node] == Cell(Ptr(t), Ptr(c.right), HoleParent(c.up), c.color)
    ensures c.InRight? ==> c.node in m && m[c.node] == Cell(Ptr(c.left), Ptr(t), HoleParent(c.up), c.color)
    ensures c.InLeft? && t.Tree? ==> t.node != Ptr(c.right)
    ensures c.InRight? && t.Tree? ==> t.node != Ptr(c.left)
    ensures c.Top? ==> root == Ptr(t)
    ensures !c.Top? ==> root != null && root != Ptr(t)
  {
    Focus(root, m, c, t);
    if !c.Top? { RootInCtx(c, Ptr(t)); }
    assert c.InRight? && c.left.Tree? ==> c.left.node in CtxNodes(c);
    assert c.InLeft? && c.right.Tree? ==> c.right.node in CtxNodes(c);
  }

  lemma {:induction false} RootInCtx<T>(c: Ctx<Node<T>>, n: Node?<T>)
    requires !c.Top?
    ensures RootOf(c, n) in CtxNodes(c)
  {
    if !c.up.Top? { RootInCtx(c.up, c.node); }
  }
}
