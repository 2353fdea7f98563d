/**
 The values behind the pointer structure of the red-black tree: coloured
 binary trees, one-hole contexts (the path from the root down to a node), and
 the red-black laws over both.  Nothing here reads the heap.
 */
module RBShape {
  import opened Powers
  import opened Seqs

  datatype Color = Red | Black

  datatype Tree<N> = Leaf | Tree(node: N, color: Color, left: Tree<N>, right: Tree<N>)

  /** A tree with one subtree missing, read from the hole up to the root. */
  datatype Ctx<N> =
    | Top
    | InLeft(node: N, color: Color, right: Tree<N>, up: Ctx<N>)
    | InRight(node: N, color: Color, left: Tree<N>, up: Ctx<N>)

  function Plug<N>(c: Ctx<N>, t: Tree<N>): Tree<N>
    decreases c
  {
    match c
    case Top => t
    case InLeft(n, col, r, up) => Plug(up, Tree(n, col, t, r))
    case InRight(n, col, l, up) => Plug(up, Tree(n, col, l, t))
  }

  /** The context `m` with its own root hung below the hole of `b`. */
  function Append<N>(m: Ctx<N>, b: Ctx<N>): Ctx<N> {
    match m
    case Top => b
    case InLeft(n, col, r, up) => InLeft(n, col, r, Append(up, b))
    case InRight(n, col, l, up) => InRight(n, col, l, Append(up, b))
  }

  lemma {:induction false} PlugAppend<N>(m: Ctx<N>, b: Ctx<N>, t: Tree<N>)
    ensures Plug(Append(m, b), t) == Plug(b, Plug(m, t))
    decreases m
  {
    match m
    case Top =>
    case InLeft(n, col, r, up) => PlugAppend(up, b, Tree(n, col, t, r));
    case InRight(n, col, l, up) => PlugAppend(up, b, Tree(n, col, l, t));
  }

  // ------------------------------------------------------------ node sets

  ghost function Nodes<N>(t: Tree<N>): set<N> {
    match t
    case Leaf => {}
    case Tree(n, _, l, r) => {n} + Nodes(l) + Nodes(r)
  }

  ghost function CtxNodes<N>(c: Ctx<N>): set<N> {
    match c
    case Top => {}
    case InLeft(n, _, r, up) => {n} + Nodes(r) + CtxNodes(up)
    case InRight(n, _, l, up) => {n} + Nodes(l) + CtxNodes(up)
  }

  lemma {:induction false} NodesPlug<N>(c: Ctx<N>, t: Tree<N>)
    ensures Nodes(Plug(c, t)) == Nodes(t) + CtxNodes(c)
    decreases c
  {
    match c
    case Top =>
    case InLeft(n, col, r, up) => NodesPlug(up, Tree(n, col, t, r));
    case InRight(n, col, l, up) => NodesPlug(up, Tree(n, col, l, t));
  }

  // ------------------------------------------------------ in-order listing

  function InOrder<N>(t: Tree<N>): seq<N> {
    match t
    case Leaf => []
    case Tree(n, _, l, r) => InOrder(l) + [n] + InOrder(r)
  }

  function Before<N>(c: Ctx<N>): seq<N> {
    match c
    case Top => []
    case InLeft(_, _, _, up) => Before(up)
    case InRight(n, _, l, up) => Before(up) + InOrder(l) + [n]
  }

  function After<N>(c: Ctx<N>): seq<N> {
    match c
    case Top => []
    case InLeft(n, _, r, up) => [n] + InOrder(r) + After(up)
    case InRight(_, _, _, up) => After(up)
  }

  lemma {:induction false} InOrderPlug<N>(c: Ctx<N>, t: Tree<N>)
    ensures InOrder(Plug(c, t)) == Before(c) + InOrder(t) + After(c)
    decreases c
  {
    match c
    case Top =>
    case InLeft(n, col, r, up) =>
      InOrderPlug(up, Tree(n, col, t, r));
      Inner3(Before(up), InOrder(t), [n], InOrder(r), After(up));
    case InRight(n, col, l, up) =>
      InOrderPlug(up, Tree(n, col, l, t));
      Inner3(Before(up), InOrder(l), [n], InOrder(t), After(up));
  }

  lemma {:induction false} NodesInOrder<N>(t: Tree<N>)
    ensures forall n :: n in Nodes(t) <==> n in InOrder(t)
  {
    match t
    case Leaf =>
    case Tree(n, _, l, r) =>
      NodesInOrder(l);
      NodesInOrder(r);
      forall m ensures m in Nodes(t) <==> m in InOrder(t) {
        assert m in InOrder(t) <==> m in InOrder(l) || m == n || m in InOrder(r);
      }
  }

  // -------------------------------------------------------- red-black laws

  predicate IsRed<N>(t: Tree<N>) {
    t.Tree? && t.color.Red?
  }

  function Blacks(col: Color): nat {
    if col.Black? then 1 else 0
  }

  /** Black nodes on the leftmost path; on every path when `Balanced`. */
  function BlackHeight<N>(t: Tree<N>): nat {
    match t
    case Leaf => 0
    case Tree(_, col, l, _) => BlackHeight(l) + Blacks(col)
  }

  predicate Balanced<N>(t: Tree<N>) {
    match t
    case Leaf => true
    case Tree(_, _, l, r) => Balanced(l) && Balanced(r) && BlackHeight(l) == BlackHeight(r)
  }

  predicate NoRedRed<N>(t: Tree<N>) {
    match t
    case Leaf => true
    case Tree(_, col, l, r) =>
      (col.Red? ==> !IsRed(l) && !IsRed(r)) && NoRedRed(l) && NoRedRed(r)
  }

  predicate RedBlack<N>(t: Tree<N>) {
    Balanced(t) && NoRedRed(t) && !IsRed(t)
  }

  /** A context into whose hole a tree of black height `h` fits. */
  predicate BalancedCtx<N>(c: Ctx<N>, h: nat) {
    match c
    case Top => true
    case InLeft(_, col, r, up) => Balanced(r) && BlackHeight(r) == h && BalancedCtx(up, h + Blacks(col))
    case InRight(_, col, l, up) => Balanced(l) && BlackHeight(l) == h && BalancedCtx(up, h + Blacks(col))
  }

  predicate RedAbove<N>(c: Ctx<N>) {
    !c.Top? && c.color.Red?
  }

  predicate NoRedRedCtx<N>(c: Ctx<N>) {
    match c
    case Top => true
    case InLeft(_, col, r, up) =>
      NoRedRed(r) && (col.Red? ==> !IsRed(r) && !RedAbove(up)) && NoRedRedCtx(up)
    case InRight(_, col, l, up) =>
      NoRedRed(l) && (col.Red? ==> !IsRed(l) && !RedAbove(up)) && NoRedRedCtx(up)
  }

  /** The outermost node of the context, the root of the whole tree, is black. */
  predicate BlackTop<N>(c: Ctx<N>) {
    c.Top? || (if c.up.Top? then c.color.Black? else BlackTop(c.up))
  }

  lemma {:induction false} BalancedPlug<N>(c: Ctx<N>, t: Tree<N>)
    ensures Balanced(Plug(c, t)) <==> Balanced(t) && BalancedCtx(c, BlackHeight(t))
    decreases c
  {
    match c
    case Top =>
    case InLeft(n, col, r, up) => BalancedPlug(up, Tree(n, col, t, r));
    case InRight(n, col, l, up) => BalancedPlug(up, Tree(n, col, l, t));
  }

  lemma {:induction false} NoRedRedPlug<N>(c: Ctx<N>, t: Tree<N>)
    ensures NoRedRed(Plug(c, t)) <==>
            NoRedRed(t) && NoRedRedCtx(c) && (RedAbove(c) ==> !IsRed(t))
    decreases c
  {
    match c
    case Top =>
    case InLeft(n, col, r, up) => NoRedRedPlug(up, Tree(n, col, t, r));
    case InRight(n, col, l, up) => NoRedRedPlug(up, Tree(n, col, l, t));
  }

  lemma {:induction false} RootColorPlug<N>(c: Ctx<N>, t: Tree<N>)
    ensures !c.Top? ==> (IsRed(Plug(c, t)) <==> !BlackTop(c))
    decreases c
  {
    match c
    case Top =>
    case InLeft(n, col, r, up) => RootColorPlug(up, Tree(n, col, t, r));
    case InRight(n, col, l, up) => RootColorPlug(up, Tree(n, col, l, t));
  }

  /** The red-black laws of a whole tree, split at any of its nodes. */
  lemma RedBlackPlug<N>(c: Ctx<N>, t: Tree<N>)
    ensures RedBlack(Plug(c, t)) <==>
            && Balanced(t) && BalancedCtx(c, BlackHeight(t))
            && NoRedRed(t) && NoRedRedCtx(c) && (RedAbove(c) ==> !IsRed(t))
            && BlackTop(c) && (c.Top? ==> !IsRed(t))
  {
    BalancedPlug(c, t);
    NoRedRedPlug(c, t);
    RootColorPlug(c, t);
  }

  // -------------------------------------------------- laws during insertion

  /** The subtree the hole's parent roots once `t` fills the hole. */
  function Up<N>(c: Ctx<N>, t: Tree<N>): Tree<N>
    requires !c.Top?
  {
    if c.InLeft? then Tree(c.node, c.color, t, c.right) else Tree(c.node, c.color, c.left, t)
  }

  /** All laws hold, except that the red `t` may hang below a red node or be the root. */
  predicate Inserting<N>(c: Ctx<N>, t: Tree<N>) {
    && IsRed(t) && NoRedRed(t) && Balanced(t)
    && BalancedCtx(c, BlackHeight(t)) && NoRedRedCtx(c) && BlackTop(c)
  }

  /** The subtree on the other side of the hole's parent. */
  function Sibling<N>(c: Ctx<N>): Tree<N>
    requires !c.Top?
  {
    if c.InLeft? then c.right else c.left
  }

  function WithSibling<N>(c: Ctx<N>, s: Tree<N>): Ctx<N>
    requires !c.Top?
  {
    if c.InLeft? then c.(right := s) else c.(left := s)
  }

  /** The hole at the sibling, when `t` fills the hole of `c`. */
  function SiblingHole<N>(c: Ctx<N>, t: Tree<N>): Ctx<N>
    requires !c.Top?
  {
    if c.InLeft? then InRight(c.node, c.color, t, c.up) else InLeft(c.node, c.color, t, c.up)
  }

  /** A red parent is never the root, so it has a parent of its own, and that one is black. */
  lemma GrandparentExists<N>(c: Ctx<N>, t: Tree<N>)
    requires Inserting(c, t) && RedAbove(c)
    ensures !c.up.Top? && c.up.color == Black
    ensures var h := BlackHeight(t); var g := c.up;
      && Balanced(Sibling(c)) && BlackHeight(Sibling(c)) == h
      && Balanced(Sibling(g)) && BlackHeight(Sibling(g)) == h && BalancedCtx(g.up, h + 1)
    ensures NoRedRed(Sibling(c)) && !IsRed(Sibling(c)) && NoRedRed(Sibling(c.up)) && NoRedRedCtx(c.up)
    ensures NoRedRedCtx(c.up.up) && BlackTop(c.up) && BlackTop(c.up.up)
  {
    assert BalancedCtx(c.up, BlackHeight(t));
    assert NoRedRedCtx(c.up);
  }

  lemma UncleRed<N>(c: Ctx<N>, t: Tree<N>)
    requires Inserting(c, t) && RedAbove(c) && !c.up.Top? && IsRed(Sibling(c.up))
    ensures Inserting(c.up.up, Painted(Up(WithSibling(c.up, Painted(Sibling(c.up), Black)),
                                          Painted(Up(c, t), Black)), Red))
  {
    GrandparentExists(c, t);
  }

  function Painted<N>(t: Tree<N>, col: Color): Tree<N> {
    if t.Leaf? then t else t.(color := col)
  }

  /** The inner grandchild, rotated to the outside. */
  lemma InnerToOuter<N>(c: Ctx<N>, t: Tree<N>)
    requires Inserting(c, t) && RedAbove(c)
    ensures c.InRight? && c.up.InLeft? ==>
      Inserting(InLeft(t.node, Red, t.right, c.up), Tree(c.node, Red, c.left, t.left))
    ensures c.InLeft? && c.up.InRight? ==>
      Inserting(InRight(t.node, Red, t.left, c.up), Tree(c.node, Red, t.right, c.right))
  {
    GrandparentExists(c, t);
  }

  /** The hole after painting its parent black and grandparent red, and rotating about the latter. */
  function RotatedOut<N>(c: Ctx<N>): Ctx<N>
    requires (c.InLeft? && c.up.InLeft?) || (c.InRight? && c.up.InRight?)
  {
    if c.InLeft? then InLeft(c.node, Black, Tree(c.up.node, Red, c.right, c.up.right), c.up.up)
    else InRight(c.node, Black, Tree(c.up.node, Red, c.up.left, c.left), c.up.up)
  }

  /** The final rotation about the grandparent leaves no law broken. */
  lemma OuterRotated<N>(c: Ctx<N>, t: Tree<N>)
    requires Inserting(c, t) && RedAbove(c)
    requires (c.InLeft? && c.up.InLeft?) || (c.InRight? && c.up.InRight?)
    requires !IsRed(Sibling(c.up))
    ensures Inserting(RotatedOut(c), t) && !RedAbove(RotatedOut(c))
  {
    GrandparentExists(c, t);
  }

  /** Once the parent is not red, painting the root black restores every law. */
  lemma InsertionDone<N>(c: Ctx<N>, t: Tree<N>)
    requires Inserting(c, t) && !RedAbove(c)
    ensures RedBlack(Painted(Plug(c, t), Black))
  {
    BalancedPlug(c, t);
    NoRedRedPlug(c, t);
  }

  // --------------------------------------------------- laws during deletion

  /** All laws hold, except that paths through `t` are one black node short, or `t` is red below red or at the root. */
  predicate Short<N>(c: Ctx<N>, t: Tree<N>) {
    && Balanced(t) && NoRedRed(Painted(t, Black))
    && BalancedCtx(c, BlackHeight(t) + 1) && NoRedRedCtx(c) && BlackTop(c)
  }

  /** The sibling of a subtree that is one black node short cannot be empty. */
  lemma SiblingExists<N>(c: Ctx<N>, t: Tree<N>)
    requires Short(c, t) && !c.Top?
    ensures Sibling(c).Tree?
    ensures var h := BlackHeight(t) + 1; var s := Sibling(c);
      && Balanced(s) && BlackHeight(s) == h && Balanced(s.left) && Balanced(s.right)
      && BlackHeight(s.left) == BlackHeight(s.right) == h - Blacks(s.color)
      && BalancedCtx(c.up, h + Blacks(c.color))
    ensures NoRedRed(Sibling(c)) && NoRedRed(Sibling(c).left) && NoRedRed(Sibling(c).right)
    ensures NoRedRedCtx(c.up) && BlackTop(c.up) && (c.up.Top? ==> c.color == Black)
    ensures c.color == Red ==> !IsRed(Sibling(c)) && !RedAbove(c.up)
  {
  }

  /** The sibling's child on the hole's side, and the one away from it. */
  function Near<N>(c: Ctx<N>): Tree<N>
    requires !c.Top? && Sibling(c).Tree?
  {
    if c.InLeft? then c.right.left else c.left.right
  }

  function Far<N>(c: Ctx<N>): Tree<N>
    requires !c.Top? && Sibling(c).Tree?
  {
    if c.InLeft? then c.right.right else c.left.left
  }

  /** The hole after a red sibling was painted black, the parent red, and the sibling rotated above it. */
  function SiblingLifted<N>(c: Ctx<N>): Ctx<N>
    requires !c.Top? && Sibling(c).Tree?
  {
    if c.InLeft? then InLeft(c.node, Red, Near(c), InLeft(c.right.node, Black, Far(c), c.up))
    else InRight(c.node, Red, Near(c), InRight(c.left.node, Black, Far(c), c.up))
  }

  lemma RedSibling<N>(c: Ctx<N>, t: Tree<N>)
    requires Short(c, t) && !c.Top? && Sibling(c).Tree? && IsRed(Sibling(c))
    ensures Short(SiblingLifted(c), t)
    ensures Near(c).Tree? && !IsRed(Near(c))
  {
    SiblingExists(c, t);
  }

  /** Painting the sibling red makes the whole subtree of the parent short instead. */
  lemma BlackSibling<N>(c: Ctx<N>, t: Tree<N>)
    requires Short(c, t) && !c.Top? && Sibling(c).Tree?
    requires !IsRed(t) && !IsRed(Sibling(c)) && !IsRed(Near(c)) && !IsRed(Far(c))
    ensures Short(c.up, Up(WithSibling(c, Painted(Sibling(c), Red)), t))
  {
    SiblingExists(c, t);
  }

  /** The sibling after its red near child was painted black and rotated above it. */
  function NearLifted<N>(c: Ctx<N>): Tree<N>
    requires !c.Top? && Sibling(c).Tree? && Near(c).Tree?
  {
    var s, n := Sibling(c), Near(c);
    if c.InLeft? then Tree(n.node, Black, n.left, Tree(s.node, Red, n.right, s.right))
    else Tree(n.node, Black, Tree(s.node, Red, s.left, n.left), n.right)
  }

  lemma NearRed<N>(c: Ctx<N>, t: Tree<N>)
    requires Short(c, t) && !c.Top? && Sibling(c).Tree?
    requires !IsRed(Sibling(c)) && IsRed(Near(c)) && !IsRed(Far(c))
    ensures Short(WithSibling(c, NearLifted(c)), t)
  {
    SiblingExists(c, t);
  }

  /** The parent's subtree after the sibling took its place and colour and both sides were painted black. */
  function SiblingRaised<N>(c: Ctx<N>, t: Tree<N>): Tree<N>
    requires !c.Top? && Sibling(c).Tree?
  {
    var far := Painted(Far(c), Black);
    if c.InLeft? then Tree(c.right.node, c.color, Tree(c.node, Black, t, Near(c)), far)
    else Tree(c.left.node, c.color, far, Tree(c.node, Black, Near(c), t))
  }

  lemma FarRed<N>(c: Ctx<N>, t: Tree<N>)
    requires Short(c, t) && !c.Top? && Sibling(c).Tree?
    requires !IsRed(t) && !IsRed(Sibling(c)) && IsRed(Far(c))
    ensures RedBlack(Plug(c.up, SiblingRaised(c, t)))
  {
    var r := SiblingRaised(c, t);
    RaisedLaws(c, t);
    SiblingExists(c, t);
    RedBlackPlug(c.up, r);
  }

  lemma RaisedLaws<N>(c: Ctx<N>, t: Tree<N>)
    requires Short(c, t) && !c.Top? && Sibling(c).Tree?
    requires !IsRed(t) && !IsRed(Sibling(c)) && IsRed(Far(c))
    ensures var r := SiblingRaised(c, t);
      && Balanced(r) && NoRedRed(r) && BlackHeight(r) == BlackHeight(t) + 1 + Blacks(c.color)
      && r.color == c.color
  {
    SiblingExists(c, t);
    var far := Painted(Far(c), Black);
    assert Balanced(far) && NoRedRed(far) && BlackHeight(far) == BlackHeight(t) + 1;
    assert Painted(t, Black) == t;
    assert BlackHeight(Near(c)) == BlackHeight(t);
  }

  /** Painting a red or topmost `t` black repays the missing black node. */
  lemma DeletionDone<N>(c: Ctx<N>, t: Tree<N>)
    requires Short(c, t) && (c.Top? || IsRed(t))
    ensures RedBlack(Plug(c, Painted(t, Black)))
  {
    RedBlackPlug(c, Painted(t, Black));
  }

  // ----------------------------------------------------------------- height

  function Height<N>(t: Tree<N>): nat {
    match t
    case Leaf => 0
    case Tree(_, _, l, r) => 1 + (if Height(l) < Height(r) then Height(r) else Height(l))
  }

  function Depth<N>(c: Ctx<N>): nat {
    if c.Top? then 0 else 1 + Depth(c.up)
  }

  lemma {:induction false} HeightPlug<N>(c: Ctx<N>, t: Tree<N>)
    ensures Depth(c) + Height(t) <= Height(Plug(c, t))
    decreases c
  {
    match c
    case Top =>
    case InLeft(n, col, r, up) => HeightPlug(up, Tree(n, col, t, r));
    case InRight(n, col, l, up) => HeightPlug(up, Tree(n, col, l, t));
  }

  lemma {:induction false} SizeBound<N>(t: Tree<N>)
    requires Balanced(t)
    ensures Pow2(BlackHeight(t)) <= |InOrder(t)| + 1
  {
    match t
    case Leaf =>
    case Tree(_, _, l, r) => SizeBound(l); SizeBound(r);
  }

  lemma {:induction false} HeightBound<N>(t: Tree<N>)
    requires Balanced(t) && NoRedRed(t)
    ensures Height(t) <= 2 * BlackHeight(t) + (if IsRed(t) then 1 else 0)
  {
    match t
    case Leaf =>
    case Tree(_, _, l, r) => HeightBound(l); HeightBound(r);
  }

  /** Height at most 2 log2(n + 1), written without logarithms. */
  lemma LogarithmicHeight<N>(t: Tree<N>)
    requires RedBlack(t)
    ensures Pow2(Height(t)) <= (|InOrder(t)| + 1) * (|InOrder(t)| + 1)
  {
    SizeBound(t);
    HeightBound(t);
    var b := BlackHeight(t);
    Pow2Monotone(Height(t), b + b);
    Pow2Sum(b, b);
    SquareMonotone(Pow2(b), |InOrder(t)| + 1);
  }

  lemma SquareMonotone(p: nat, m: nat)
    requires p <= m
    ensures p * p <= m * m
  {
    assert p * p <= p * m;
    assert p * m <= m * m;
  }
}
