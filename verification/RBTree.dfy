/**
 The red-black tree over nodes with child and parent pointers: rotations, the
 two fix-up loops, and the operations built on them.
 */
module RBTree {
  import opened Orders
  import opened Powers
  import opened Seqs
  import opened RBShape
  import opened RBLinks
  import opened RBEdit
  import opened RBSearch

  class RBTree<T(!new)> {
    var root: Node?<T>
    var size: nat
    var cmp: (T, T) -> bool
    ghost var shape: Tree<Node<T>>
    ghost var cells: Cells<T>
    ghost var made: set<Node<T>>    // every node ever allocated
    ghost var freed: set<Node<T>>   // those deleted since
    var destroyed: seq<Node<T>>     // the same, in the order of their deletion
    ghost var rotations: nat

    /** The heap below `root` is the tree `shape`. */
    ghost predicate Linked()
      reads this`root, this`shape, this`cells, cells.Keys
    {
      Holds(cells) && Shaped(root, cells, shape)
    }

    lemma See(c: Ctx<Node<T>>, t: Tree<Node<T>>)
      requires Linked() && shape == Plug(c, t)
      ensures t.Tree? ==> t.node in cells && t.node.left == Ptr(t.left) && t.node.right == Ptr(t.right)
                          && t.node.parent == HoleParent(c) && t.node.color == t.color
      ensures !c.Top? ==> c.node in cells && c.node.parent == HoleParent(c.up) && c.node.color == c.color
      ensures c.InLeft? ==> c.node.left == Ptr(t) && c.node.right == Ptr(c.right)
      ensures c.InRight? ==> c.node.left == Ptr(c.left) && c.node.right == Ptr(t)
      ensures c.InLeft? && t.Tree? ==> t.node != Ptr(c.right)
      ensures c.InRight? && t.Tree? ==> t.node != Ptr(c.left)
      ensures c.Top? ==> root == Ptr(t)
      ensures !c.Top? ==> root != null && root != Ptr(t)
    {
      Around(root, cells, c, t);
    }

    method RotateLeftLinks(x: Node<T>)
      requires Holds(cells) && x in cells && x.right != null
      requires Rotatable(cells, x, x.right, x.right.left, x.parent)
      modifies this`root, this`cells, x, x.right, x.right.left, x.parent
      ensures cells == old(RotateLeftCells(cells, x, x.right, x.right.left, x.parent)) && Holds(cells)
      ensures root == if old(x.parent) == null then old(x.right) else old(root)
    {
      var y := x.right;
      ghost var m, b, p := cells, y.left, x.parent;
      cells := RotateLeftCells(m, x, y, b, p);
      x.right := y.left;
      if y.left != null {
        y.left.parent := x;
      }
      y.parent := x.parent;
      if x.parent == null {
        root := y;
      } else if x == x.parent.left {
        x.parent.left := y;
      } else {
        x.parent.right := y;
      }
      y.left := x;
      x.parent := y;
      forall n | n in cells ensures Cell(n.left, n.right, n.parent, n.color) == cells[n] {
        if n == x {} else if n == y {} else if n == b {} else if n == p {} else {
          assert cells[n] == m[n];
        }
      }
    }

    method RotateRightLinks(x: Node<T>)
      requires Holds(cells) && x in cells && x.left != null
      requires Rotatable(cells, x, x.left, x.left.right, x.parent)
      modifies this`root, this`cells, x, x.left, x.left.right, x.parent
      ensures cells == old(RotateRightCells(cells, x, x.left, x.left.right, x.parent)) && Holds(cells)
      ensures root == if old(x.parent) == null then old(x.left) else old(root)
    {
      var y := x.left;
      ghost var m, b, p := cells, y.right, x.parent;
      cells := RotateRightCells(m, x, y, b, p);
      x.left := y.right;
      if y.right != null {
        y.right.parent := x;
      }
      y.parent := x.parent;
      if x.parent == null {
        root := y;
      } else if x == x.parent.right {
        x.parent.right := y;
      } else {
        x.parent.left := y;
      }
      y.right := x;
      x.parent := y;
      forall n | n in cells ensures Cell(n.left, n.right, n.parent, n.color) == cells[n] {
        if n == x {} else if n == y {} else if n == b {} else if n == p {} else {
          assert cells[n] == m[n];
        }
      }
    }

    method RotateLeft(x: Node<T>, ghost c: Ctx<Node<T>>, ghost t: Tree<Node<T>>)
      requires Linked() && shape == Plug(c, t)
      requires t.Tree? && t.node == x && t.right.Tree?
      modifies this`root, this`shape, this`cells, this`rotations, cells.Keys
      ensures Linked() && shape == Plug(c, RotatedLeft(t))
      ensures cells.Keys == old(cells.Keys) && InOrder(shape) == old(InOrder(shape))
      ensures rotations == old(rotations) + 1
    {
      ShapedRotateLeft(root, cells, c, t);
      RotateLeftLinks(x);
      shape := Plug(c, RotatedLeft(t));
      rotations := rotations + 1;
    }

    method RotateRight(x: Node<T>, ghost c: Ctx<Node<T>>, ghost t: Tree<Node<T>>)
      requires Linked() && shape == Plug(c, t)
      requires t.Tree? && t.node == x && t.left.Tree?
      modifies this`root, this`shape, this`cells, this`rotations, cells.Keys
      ensures Linked() && shape == Plug(c, RotatedRight(t))
      ensures cells.Keys == old(cells.Keys) && InOrder(shape) == old(InOrder(shape))
      ensures rotations == old(rotations) + 1
    {
      ShapedRotateRight(root, cells, c, t);
      RotateRightLinks(x);
      shape := Plug(c, RotatedRight(t));
      rotations := rotations + 1;
    }

    /** SetBlack and SetRed: colours a node, if there is one. */
    method SetColor(n: Node?<T>, col: Color, ghost c: Ctx<Node<T>>, ghost t: Tree<Node<T>>)
      requires Linked() && shape == Plug(c, t) && n == Ptr(t)
      modifies this`shape, this`cells, cells.Keys
      ensures Linked() && shape == Plug(c, Painted(t, col))
      ensures cells.Keys == old(cells.Keys) && InOrder(shape) == old(InOrder(shape))
    {
      if n != null {
        ShapedPaint(root, cells, c, t, col);
        InOrderPainted(c, t, col);
        n.color := col;
        cells := cells[n := cells[n].(color := col)];
        shape := Plug(c, Painted(t, col));
      }
    }

    // ------------------------------------------------------------ insertion

    ghost predicate Fixing(z: Node<T>, c: Ctx<Node<T>>, t: Tree<Node<T>>)
      reads this`root, this`shape, this`cells, cells.Keys
    {
      Linked() && shape == Plug(c, t) && Ptr(t) == z && Inserting(c, t)
    }

    method RecolorUncle(p: Node<T>, y: Node?<T>, g: Node<T>, ghost c: Ctx<Node<T>>, ghost t: Tree<Node<T>>)
      returns (ghost t': Tree<Node<T>>)
      requires Linked() && shape == Plug(c, t) && Inserting(c, t) && RedAbove(c) && !c.up.Top?
      requires p == c.node && g == c.up.node && y == Ptr(Sibling(c.up)) && IsRed(Sibling(c.up))
      modifies this`shape, this`cells, cells.Keys
      ensures Fixing(g, c.up.up, t')
      ensures cells.Keys == old(cells.Keys) && InOrder(shape) == old(InOrder(shape))
    {
      UncleRed(c, t);
      ghost var pt, yt := Painted(Up(c, t), Black), Painted(Sibling(c.up), Black);
      SetColor(p, Black, c.up, Up(c, t));
      SetColor(y, Black, SiblingHole(c.up, pt), Sibling(c.up));
      SetColor(g, Red, c.up.up, Up(WithSibling(c.up, yt), pt));
      t' := Painted(Up(WithSibling(c.up, yt), pt), Red);
    }

    method PaintOut(p: Node<T>, g: Node<T>, ghost c: Ctx<Node<T>>, ghost t: Tree<Node<T>>)
      requires Linked() && shape == Plug(c, t) && !c.Top? && !c.up.Top? && p == c.node && g == c.up.node
      modifies this`shape, this`cells, cells.Keys
      ensures Linked() && shape == Plug(c.up.up, Painted(Up(c.up, Painted(Up(c, t), Black)), Red))
      ensures cells.Keys == old(cells.Keys) && InOrder(shape) == old(InOrder(shape))
    {
      SetColor(p, Black, c.up, Up(c, t));
      SetColor(g, Red, c.up.up, Up(c.up, Painted(Up(c, t), Black)));
    }

    method RotateOutLeft(z: Node<T>, ghost c: Ctx<Node<T>>, ghost t: Tree<Node<T>>)
      requires Linked() && shape == Plug(c, t) && Ptr(t) == z && c.InLeft? && c.up.InLeft?
      modifies this`root, this`shape, this`cells, this`rotations, cells.Keys
      ensures Linked() && shape == Plug(RotatedOut(c), t)
      ensures cells.Keys == old(cells.Keys) && InOrder(shape) == old(InOrder(shape))
      ensures rotations == old(rotations) + 1
    {
      ghost var pt := Painted(Up(c, t), Black);
      See(c, t);
      See(c.up, Up(c, t));
      var g := z.parent.parent;
      PaintOut(z.parent, g, c, t);
      RotateRight(g, c.up.up, Painted(Up(c.up, pt), Red));
    }

    method RotateOutRight(z: Node<T>, ghost c: Ctx<Node<T>>, ghost t: Tree<Node<T>>)
      requires Linked() && shape == Plug(c, t) && Ptr(t) == z && c.InRight? && c.up.InRight?
      modifies this`root, this`shape, this`cells, this`rotations, cells.Keys
      ensures Linked() && shape == Plug(RotatedOut(c), t)
      ensures cells.Keys == old(cells.Keys) && InOrder(shape) == old(InOrder(shape))
      ensures rotations == old(rotations) + 1
    {
      ghost var pt := Painted(Up(c, t), Black);
      See(c, t);
      See(c.up, Up(c, t));
      var g := z.parent.parent;
      PaintOut(z.parent, g, c, t);
      RotateLeft(g, c.up.up, Painted(Up(c.up, pt), Red));
    }

    method FixLeft(z0: Node<T>, ghost c0: Ctx<Node<T>>, ghost t0: Tree<Node<T>>)
      returns (z: Node<T>, ghost c: Ctx<Node<T>>, ghost t: Tree<Node<T>>)
      requires Fixing(z0, c0, t0) && RedAbove(c0) && c0.up.InLeft?
      modifies this`root, this`shape, this`cells, this`rotations, cells.Keys
      ensures Fixing(z, c, t)
      ensures cells.Keys == old(cells.Keys) && InOrder(shape) == old(InOrder(shape))
      ensures || (rotations == old(rotations) && Depth(c) == Depth(c0) - 2)
              || (rotations <= old(rotations) + 2 && !RedAbove(c) && Depth(c) < Depth(c0))
    {
      z, c, t := z0, c0, t0;
      See(c, t);
      See(c.up, Up(c, t));
      See(SiblingHole(c.up, Up(c, t)), c.up.right);
      var y := z.parent.parent.right;
      if y != null && y.color == Red {
        var g := z.parent.parent;
        t := RecolorUncle(z.parent, y, g, c, t);
        z, c := g, c.up.up;
      } else {
        if z == z.parent.right {
          z := z.parent;
          InnerToOuter(c, t);
          RotateLeft(z, c.up, Up(c, t));
          c, t := InLeft(t.node, Red, t.right, c.up), Tree(c.node, Red, c.left, t.left);
        }
        OuterRotated(c, t);
        RotateOutLeft(z, c, t);
        c := RotatedOut(c);
      }
    }

    method FixRight(z0: Node<T>, ghost c0: Ctx<Node<T>>, ghost t0: Tree<Node<T>>)
      returns (z: Node<T>, ghost c: Ctx<Node<T>>, ghost t: Tree<Node<T>>)
      requires Fixing(z0, c0, t0) && RedAbove(c0) && c0.up.InRight?
      modifies this`root, this`shape, this`cells, this`rotations, cells.Keys
      ensures Fixing(z, c, t)
      ensures cells.Keys == old(cells.Keys) && InOrder(shape) == old(InOrder(shape))
      ensures || (rotations == old(rotations) && Depth(c) == Depth(c0) - 2)
              || (rotations <= old(rotations) + 2 && !RedAbove(c) && Depth(c) < Depth(c0))
    {
      z, c, t := z0, c0, t0;
      See(c, t);
      See(c.up, Up(c, t));
      See(SiblingHole(c.up, Up(c, t)), c.up.left);
      var y := z.parent.parent.left;
      if y != null && y.color == Red {
        var g := z.parent.parent;
        t := RecolorUncle(z.parent, y, g, c, t);
        z, c := g, c.up.up;
      } else {
        if z == z.parent.left {
          z := z.parent;
          InnerToOuter(c, t);
          RotateRight(z, c.up, Up(c, t));
          c, t := InRight(t.node, Red, t.left, c.up), Tree(c.node, Red, t.right, c.right);
        }
        OuterRotated(c, t);
        RotateOutRight(z, c, t);
        c := RotatedOut(c);
      }
    }

    /** One round of the fixup loop: recolour and move up two levels, or rotate and be done. */
    method FixOnce(z0: Node<T>, ghost c0: Ctx<Node<T>>, ghost t0: Tree<Node<T>>)
      returns (z: Node<T>, ghost c: Ctx<Node<T>>, ghost t: Tree<Node<T>>)
      requires Fixing(z0, c0, t0) && RedAbove(c0)
      modifies this`root, this`shape, this`cells, this`rotations, cells.Keys
      ensures Fixing(z, c, t)
      ensures cells.Keys == old(cells.Keys) && InOrder(shape) == old(InOrder(shape))
      ensures || (rotations == old(rotations) && Depth(c) == Depth(c0) - 2)
              || (rotations <= old(rotations) + 2 && !RedAbove(c) && Depth(c) < Depth(c0))
    {
      GrandparentExists(c0, t0);
      See(c0, t0);
      See(c0.up, Up(c0, t0));
      if z0.parent == z0.parent.parent.left {
        z, c, t := FixLeft(z0, c0, t0);
      } else {
        z, c, t := FixRight(z0, c0, t0);
      }
    }

    method InsertFixup(z0: Node<T>, ghost c0: Ctx<Node<T>>, ghost t0: Tree<Node<T>>)
      requires Fixing(z0, c0, t0)
      modifies this`root, this`shape, this`cells, this`rotations, cells.Keys
      ensures Linked() && RedBlack(shape)
      ensures cells.Keys == old(cells.Keys) && InOrder(shape) == old(InOrder(shape))
      ensures rotations <= old(rotations) + 2
    {
      var z := z0;
      ghost var c, t := c0, t0;
      See(c, t);
      while z.parent != null && z.parent.color == Red
        invariant Fixing(z, c, t)
        invariant z.parent == HoleParent(c) && (!c.Top? ==> c.node.color == c.color)
        invariant cells.Keys == old(cells.Keys) && InOrder(shape) == old(InOrder(shape))
        invariant rotations == old(rotations) || (rotations <= old(rotations) + 2 && !RedAbove(c))
        decreases Depth(c)
      {
        z, c, t := FixOnce(z, c, t);
        See(c, t);
      }
      BlackenRoot(c, t);
    }

    method BlackenRoot(ghost c: Ctx<Node<T>>, ghost t: Tree<Node<T>>)
      requires Linked() && shape == Plug(c, t) && Inserting(c, t) && !RedAbove(c)
      modifies this`shape, this`cells, cells.Keys
      ensures Linked() && RedBlack(shape)
      ensures cells.Keys == old(cells.Keys) && InOrder(shape) == old(InOrder(shape))
    {
      InsertionDone(c, t);
      SetColor(root, Black, Top, shape);
    }

    // ------------------------------------------------------------- deletion

    /** What every round of the deletion loop keeps: the subtree at `x`, below `xp`, is one black node short. */
    ghost predicate Repaying(x: Node?<T>, xp: Node?<T>, c: Ctx<Node<T>>, t: Tree<Node<T>>)
      reads this`root, this`shape, this`cells, cells.Keys
    {
      Linked() && shape == Plug(c, t) && Short(c, t) && x == Ptr(t) && xp == HoleParent(c)
    }

    /** Red sibling: it changes colours with the parent and is rotated above it. */
    method LiftSiblingLeft(xp: Node<T>, w: Node<T>, ghost c: Ctx<Node<T>>, ghost t: Tree<Node<T>>)
      requires Linked() && shape == Plug(c, t) && c.InLeft? && c.right.Tree?
      requires xp == c.node && w == c.right.node
      modifies this`root, this`shape, this`cells, this`rotations, cells.Keys
      ensures Linked() && shape == Plug(SiblingLifted(c), t)
      ensures cells.Keys == old(cells.Keys) && InOrder(shape) == old(InOrder(shape))
      ensures rotations == old(rotations) + 1
    {
      ghost var s := Painted(c.right, Black);
      SetColor(w, Black, SiblingHole(c, t), c.right);
      SetColor(xp, Red, c.up, Up(WithSibling(c, s), t));
      RotateLeft(xp, c.up, Painted(Up(WithSibling(c, s), t), Red));
    }

    method PaintNearLeft(w: Node<T>, ghost sc: Ctx<Node<T>>, ghost s: Tree<Node<T>>)
      requires Linked() && shape == Plug(sc, s) && s.Tree? && w == s.node
      modifies this`shape, this`cells, cells.Keys
      ensures Linked() && shape == Plug(sc, s.(color := Red, left := Painted(s.left, Black)))
      ensures cells.Keys == old(cells.Keys) && InOrder(shape) == old(InOrder(shape))
    {
      See(sc, s);
      SetColor(w.left, Black, InLeft(w, s.color, s.right, sc), s.left);
      SetColor(w, Red, sc, s.(left := Painted(s.left, Black)));
    }

    /** Red near child: it changes colours with the sibling and is rotated above it. */
    method LiftNearLeft(w: Node<T>, ghost c: Ctx<Node<T>>, ghost t: Tree<Node<T>>)
      requires Linked() && shape == Plug(c, t) && c.InLeft? && c.right.Tree? && c.right.left.Tree? && w == c.right.node
      modifies this`root, this`shape, this`cells, this`rotations, cells.Keys
      ensures Linked() && shape == Plug(WithSibling(c, NearLifted(c)), t)
      ensures cells.Keys == old(cells.Keys) && InOrder(shape) == old(InOrder(shape))
      ensures rotations == old(rotations) + 1
    {
      ghost var s, sc := c.right, SiblingHole(c, t);
      PaintNearLeft(w, sc, s);
      RotateRight(w, sc, s.(color := Red, left := Painted(s.left, Black)));
    }

    method PaintFarLeft(w: Node<T>, col: Color, ghost sc: Ctx<Node<T>>, ghost s: Tree<Node<T>>)
      requires Linked() && shape == Plug(sc, s) && s.Tree? && w == s.node
      modifies this`shape, this`cells, cells.Keys
      ensures Linked() && shape == Plug(sc, s.(color := col, right := Painted(s.right, Black)))
      ensures cells.Keys == old(cells.Keys) && InOrder(shape) == old(InOrder(shape))
    {
      SetColor(w, col, sc, s);
      See(sc, Painted(s, col));
      SetColor(w.right, Black, InRight(w, col, s.left, sc), s.right);
    }

    /** Red far child: the sibling takes the parent's colour and place. */
    method RaiseSiblingLeft(xp: Node<T>, w: Node<T>, ghost c: Ctx<Node<T>>, ghost t: Tree<Node<T>>)
      requires Linked() && shape == Plug(c, t) && c.InLeft? && c.right.Tree?
      requires xp == c.node && w == c.right.node
      modifies this`root, this`shape, this`cells, this`rotations, cells.Keys
      ensures Linked() && shape == Plug(c.up, SiblingRaised(c, t))
      ensures cells.Keys == old(cells.Keys) && InOrder(shape) == old(InOrder(shape))
      ensures rotations == old(rotations) + 1
    {
      PaintRaisedLeft(xp, w, c, t);
      ghost var u := Tree(xp, Black, t, c.right.(color := c.color, right := Painted(c.right.right, Black)));
      assert RotatedLeft(u) == SiblingRaised(c, t);
      RotateLeft(xp, c.up, u);
    }

    method PaintRaisedLeft(xp: Node<T>, w: Node<T>, ghost c: Ctx<Node<T>>, ghost t: Tree<Node<T>>)
      requires Linked() && shape == Plug(c, t) && c.InLeft? && c.right.Tree?
      requires xp == c.node && w == c.right.node
      modifies this`shape, this`cells, cells.Keys
      ensures Linked() && shape == Plug(c.up, Tree(xp, Black, t, c.right.(color := c.color, right := Painted(c.right.right, Black))))
      ensures cells.Keys == old(cells.Keys) && InOrder(shape) == old(InOrder(shape))
    {
      See(c, t);
      ghost var s := c.right.(color := c.color, right := Painted(c.right.right, Black));
      PaintFarLeft(w, xp.color, SiblingHole(c, t), c.right);
      SetColor(xp, Black, c.up, Up(WithSibling(c, s), t));
    }

    /** The colours a round with a black sibling looks at. */
    lemma SeeSiblingLeft(c: Ctx<Node<T>>, t: Tree<Node<T>>)
      requires Linked() && shape == Plug(c, t) && c.InLeft? && c.right.Tree?
      ensures var w := c.right.node; w in cells && w.left == Ptr(c.right.left) && w.right == Ptr(c.right.right)
      ensures c.right.left.Tree? ==> c.right.left.node.color == c.right.left.color
      ensures c.right.right.Tree? ==> c.right.right.node.color == c.right.right.color
    {
      var w, sc := c.right.node, SiblingHole(c, t);
      See(sc, c.right);
      See(InLeft(w, c.right.color, c.right.right, sc), c.right.left);
      See(InRight(w, c.right.color, c.right.left, sc), c.right.right);
    }

    /** A black sibling with a red child: one or two rotations restore every law. */
    method RotateHomeLeft(xp: Node<T>, w0: Node<T>, ghost c0: Ctx<Node<T>>, ghost t: Tree<Node<T>>)
      requires Linked() && shape == Plug(c0, t) && Short(c0, t) && !IsRed(t)
      requires c0.InLeft? && c0.right.Tree? && !IsRed(c0.right) && xp == c0.node && w0 == c0.right.node
      requires IsRed(c0.right.left) || IsRed(c0.right.right)
      modifies this`root, this`shape, this`cells, this`rotations, cells.Keys
      ensures Linked() && RedBlack(shape)
      ensures cells.Keys == old(cells.Keys) && InOrder(shape) == old(InOrder(shape))
      ensures rotations <= old(rotations) + 2
    {
      var w := w0;
      ghost var c := c0;
      SeeSiblingLeft(c, t);
      if w.right == null || w.right.color == Black {
        NearRed(c, t);
        LiftNearLeft(w, c, t);
        c := WithSibling(c, NearLifted(c));
        See(c, t);
        w := xp.right;
      }
      FarRed(c, t);
      RaiseSiblingLeft(xp, w, c, t);
    }

    /** A round with a black sibling `w`: repaint it and move up, or rotate and be done. */
    method BlackSiblingLeft(xp0: Node<T>, w: Node<T>, ghost c0: Ctx<Node<T>>, ghost t0: Tree<Node<T>>)
      returns (x: Node?<T>, xp: Node?<T>, ghost c: Ctx<Node<T>>, ghost t: Tree<Node<T>>)
      requires Linked() && shape == Plug(c0, t0) && Short(c0, t0) && !IsRed(t0)
      requires c0.InLeft? && c0.right.Tree? && !IsRed(c0.right) && xp0 == c0.node && w == c0.right.node
      modifies this`root, this`shape, this`cells, this`rotations, cells.Keys
      ensures Repaying(x, xp, c, t)
      ensures cells.Keys == old(cells.Keys) && InOrder(shape) == old(InOrder(shape))
      ensures || (rotations == old(rotations) && c == c0.up && t.Tree? && t.color == c0.color)
              || (rotations <= old(rotations) + 2 && c.Top?)
    {
      c, t := c0, t0;
      SeeSiblingLeft(c, t);
      if (w.left == null || w.left.color == Black) && (w.right == null || w.right.color == Black) {
        BlackSibling(c, t);
        SetColor(w, Red, SiblingHole(c, t), c.right);
        t := Up(WithSibling(c, Painted(c.right, Red)), t);
        c := c.up;
        See(c, t);
        x := xp0;
        xp := x.parent;
      } else {
        RotateHomeLeft(xp0, w, c, t);
        c, t := Top, shape;
        See(c, t);
        x, xp := root, null;
      }
    }

    /** A round of the loop. */
    method RepayLeft(xp0: Node<T>, ghost c0: Ctx<Node<T>>, ghost t0: Tree<Node<T>>)
      returns (x: Node?<T>, xp: Node?<T>, ghost c: Ctx<Node<T>>, ghost t: Tree<Node<T>>)
      requires Linked() && shape == Plug(c0, t0) && Short(c0, t0) && !IsRed(t0) && c0.InLeft? && xp0 == c0.node
      modifies this`root, this`shape, this`cells, this`rotations, cells.Keys
      ensures Repaying(x, xp, c, t)
      ensures cells.Keys == old(cells.Keys) && InOrder(shape) == old(InOrder(shape))
      ensures || (rotations == old(rotations) && c == c0.up)
              || (rotations == old(rotations) + 1 && Depth(c) == Depth(c0) && IsRed(t))
              || (rotations <= old(rotations) + 3 && c.Top?)
    {
      c, t := c0, t0;
      SiblingExists(c, t);
      See(c, t);
      See(SiblingHole(c, t), c.right);
      var w := xp0.right;
      if w.color == Red {
        RedSibling(c, t);
        LiftSiblingLeft(xp0, w, c, t);
        c := SiblingLifted(c);
        See(c, t);
        w := xp0.right;
      }
      x, xp, c, t := BlackSiblingLeft(xp0, w, c, t);
    }

    /** Red sibling: it changes colours with the parent and is rotated above it. */
    method LiftSiblingRight(xp: Node<T>, w: Node<T>, ghost c: Ctx<Node<T>>, ghost t: Tree<Node<T>>)
      requires Linked() && shape == Plug(c, t) && c.InRight? && c.left.Tree?
      requires xp == c.node && w == c.left.node
      modifies this`root, this`shape, this`cells, this`rotations, cells.Keys
      ensures Linked() && shape == Plug(SiblingLifted(c), t)
      ensures cells.Keys == old(cells.Keys) && InOrder(shape) == old(InOrder(shape))
      ensures rotations == old(rotations) + 1
    {
      ghost var s := Painted(c.left, Black);
      SetColor(w, Black, SiblingHole(c, t), c.left);
      SetColor(xp, Red, c.up, Up(WithSibling(c, s), t));
      RotateRight(xp, c.up, Painted(Up(WithSibling(c, s), t), Red));
    }

    method PaintNearRight(w: Node<T>, ghost sc: Ctx<Node<T>>, ghost s: Tree<Node<T>>)
      requires Linked() && shape == Plug(sc, s) && s.Tree? && w == s.node
      modifies this`shape, this`cells, cells.Keys
      ensures Linked() && shape == Plug(sc, s.(color := Red, right := Painted(s.right, Black)))
      ensures cells.Keys == old(cells.Keys) && InOrder(shape) == old(InOrder(shape))
    {
      See(sc, s);
      SetColor(w.right, Black, InRight(w, s.color, s.left, sc), s.right);
      SetColor(w, Red, sc, s.(right := Painted(s.right, Black)));
    }

    /** Red near child: it changes colours with the sibling and is rotated above it. */
    method LiftNearRight(w: Node<T>, ghost c: Ctx<Node<T>>, ghost t: Tree<Node<T>>)
      requires Linked() && shape == Plug(c, t) && c.InRight? && c.left.Tree? && c.left.right.Tree? && w == c.left.node
      modifies this`root, this`shape, this`cells, this`rotations, cells.Keys
      ensures Linked() && shape == Plug(WithSibling(c, NearLifted(c)), t)
      ensures cells.Keys == old(cells.Keys) && InOrder(shape) == old(InOrder(shape))
      ensures rotations == old(rotations) + 1
    {
      ghost var s, sc := c.left, SiblingHole(c, t);
      PaintNearRight(w, sc, s);
      RotateLeft(w, sc, s.(color := Red, right := Painted(s.right, Black)));
    }

    method PaintFarRight(w: Node<T>, col: Color, ghost sc: Ctx<Node<T>>, ghost s: Tree<Node<T>>)
      requires Linked() && shape == Plug(sc, s) && s.Tree? && w == s.node
      modifies this`shape, this`cells, cells.Keys
      ensures Linked() && shape == Plug(sc, s.(color := col, left := Painted(s.left, Black)))
      ensures cells.Keys == old(cells.Keys) && InOrder(shape) == old(InOrder(shape))
    {
      SetColor(w, col, sc, s);
      See(sc, Painted(s, col));
      SetColor(w.left, Black, InLeft(w, col, s.right, sc), s.left);
    }

    /** Red far child: the sibling takes the parent's colour and place. */
    method RaiseSiblingRight(xp: Node<T>, w: Node<T>, ghost c: Ctx<Node<T>>, ghost t: Tree<Node<T>>)
      requires Linked() && shape == Plug(c, t) && c.InRight? && c.left.Tree?
      requires xp == c.node && w == c.left.node
      modifies this`root, this`shape, this`cells, this`rotations, cells.Keys
      ensures Linked() && shape == Plug(c.up, SiblingRaised(c, t))
      ensures cells.Keys == old(cells.Keys) && InOrder(shape) == old(InOrder(shape))
      ensures rotations == old(rotations) + 1
    {
      PaintRaisedRight(xp, w, c, t);
      ghost var u := Tree(xp, Black, c.left.(color := c.color, left := Painted(c.left.left, Black)), t);
      assert RotatedRight(u) == SiblingRaised(c, t);
      RotateRight(xp, c.up, u);
    }

    method PaintRaisedRight(xp: Node<T>, w: Node<T>, ghost c: Ctx<Node<T>>, ghost t: Tree<Node<T>>)
      requires Linked() && shape == Plug(c, t) && c.InRight? && c.left.Tree?
      requires xp == c.node && w == c.left.node
      modifies this`shape, this`cells, cells.Keys
      ensures Linked() && shape == Plug(c.up, Tree(xp, Black, c.left.(color := c.color, left := Painted(c.left.left, Black)), t))
      ensures cells.Keys == old(cells.Keys) && InOrder(shape) == old(InOrder(shape))
    {
      See(c, t);
      ghost var s := c.left.(color := c.color, left := Painted(c.left.left, Black));
      PaintFarRight(w, xp.color, SiblingHole(c, t), c.left);
      SetColor(xp, Black, c.up, Up(WithSibling(c, s), t));
    }

    /** The colours a round with a black sibling looks at. */
    lemma SeeSiblingRight(c: Ctx<Node<T>>, t: Tree<Node<T>>)
      requires Linked() && shape == Plug(c, t) && c.InRight? && c.left.Tree?
      ensures var w := c.left.node; w in cells && w.right == Ptr(c.left.right) && w.left == Ptr(c.left.left)
      ensures c.left.right.Tree? ==> c.left.right.node.color == c.left.right.color
      ensures c.left.left.Tree? ==> c.left.left.node.color == c.left.left.color
    {
      var w, sc := c.left.node, SiblingHole(c, t);
      See(sc, c.left);
      See(InRight(w, c.left.color, c.left.left, sc), c.left.right);
      See(InLeft(w, c.left.color, c.left.right, sc), c.left.left);
    }

    /** A black sibling with a red child: one or two rotations restore every law. */
    method RotateHomeRight(xp: Node<T>, w0: Node<T>, ghost c0: Ctx<Node<T>>, ghost t: Tree<Node<T>>)
      requires Linked() && shape == Plug(c0, t) && Short(c0, t) && !IsRed(t)
      requires c0.InRight? && c0.left.Tree? && !IsRed(c0.left) && xp == c0.node && w0 == c0.left.node
      requires IsRed(c0.left.right) || IsRed(c0.left.left)
      modifies this`root, this`shape, this`cells, this`rotations, cells.Keys
      ensures Linked() && RedBlack(shape)
      ensures cells.Keys == old(cells.Keys) && InOrder(shape) == old(InOrder(shape))
      ensures rotations <= old(rotations) + 2
    {
      var w := w0;
      ghost var c := c0;
      SeeSiblingRight(c, t);
      if w.left == null || w.left.color == Black {
        NearRed(c, t);
        LiftNearRight(w, c, t);
        c := WithSibling(c, NearLifted(c));
        See(c, t);
        w := xp.left;
      }
      FarRed(c, t);
      RaiseSiblingRight(xp, w, c, t);
    }

    /** A round with a black sibling `w`: repaint it and move up, or rotate and be done. */
    method BlackSiblingRight(xp0: Node<T>, w: Node<T>, ghost c0: Ctx<Node<T>>, ghost t0: Tree<Node<T>>)
      returns (x: Node?<T>, xp: Node?<T>, ghost c: Ctx<Node<T>>, ghost t: Tree<Node<T>>)
      requires Linked() && shape == Plug(c0, t0) && Short(c0, t0) && !IsRed(t0)
      requires c0.InRight? && c0.left.Tree? && !IsRed(c0.left) && xp0 == c0.node && w == c0.left.node
      modifies this`root, this`shape, this`cells, this`rotations, cells.Keys
      ensures Repaying(x, xp, c, t)
      ensures cells.Keys == old(cells.Keys) && InOrder(shape) == old(InOrder(shape))
      ensures || (rotations == old(rotations) && c == c0.up && t.Tree? && t.color == c0.color)
              || (rotations <= old(rotations) + 2 && c.Top?)
    {
      c, t := c0, t0;
      SeeSiblingRight(c, t);
      if (w.right == null || w.right.color == Black) && (w.left == null || w.left.color == Black) {
        BlackSibling(c, t);
        SetColor(w, Red, SiblingHole(c, t), c.left);
        t := Up(WithSibling(c, Painted(c.left, Red)), t);
        c := c.up;
        See(c, t);
        x := xp0;
        xp := x.parent;
      } else {
        RotateHomeRight(xp0, w, c, t);
        c, t := Top, shape;
        See(c, t);
        x, xp := root, null;
      }
    }

    /** A round of the loop. */
    method RepayRight(xp0: Node<T>, ghost c0: Ctx<Node<T>>, ghost t0: Tree<Node<T>>)
      returns (x: Node?<T>, xp: Node?<T>, ghost c: Ctx<Node<T>>, ghost t: Tree<Node<T>>)
      requires Linked() && shape == Plug(c0, t0) && Short(c0, t0) && !IsRed(t0) && c0.InRight? && xp0 == c0.node
      modifies this`root, this`shape, this`cells, this`rotations, cells.Keys
      ensures Repaying(x, xp, c, t)
      ensures cells.Keys == old(cells.Keys) && InOrder(shape) == old(InOrder(shape))
      ensures || (rotations == old(rotations) && c == c0.up)
              || (rotations == old(rotations) + 1 && Depth(c) == Depth(c0) && IsRed(t))
              || (rotations <= old(rotations) + 3 && c.Top?)
    {
      c, t := c0, t0;
      SiblingExists(c, t);
      See(c, t);
      See(SiblingHole(c, t), c.left);
      var w := xp0.left;
      if w.color == Red {
        RedSibling(c, t);
        LiftSiblingRight(xp0, w, c, t);
        c := SiblingLifted(c);
        See(c, t);
        w := xp0.left;
      }
      x, xp, c, t := BlackSiblingRight(xp0, w, c, t);
    }

    method DeleteFixup(x0: Node?<T>, xp0: Node?<T>, ghost c0: Ctx<Node<T>>, ghost t0: Tree<Node<T>>)
      requires Repaying(x0, xp0, c0, t0)
      modifies this`root, this`shape, this`cells, this`rotations, cells.Keys
      ensures Linked() && RedBlack(shape)
      ensures cells.Keys == old(cells.Keys) && InOrder(shape) == old(InOrder(shape))
      ensures rotations <= old(rotations) + 3
    {
      var x, xp := x0, xp0;
      ghost var c, t := c0, t0;
      See(c, t);
      while x != root && !(x != null && x.color == Red)
        invariant Repaying(x, xp, c, t)
        invariant (c.Top? <==> x == root) && (t.Tree? ==> t.node.color == t.color)
        invariant cells.Keys == old(cells.Keys) && InOrder(shape) == old(InOrder(shape))
        invariant rotations == old(rotations) || (rotations <= old(rotations) + 3 && (c.Top? || IsRed(t)))
        decreases Depth(c) + if IsRed(t) then 0 else 1
      {
        x, xp, c, t := RepayOnce(x, xp, c, t);
        See(c, t);
      }
      DeletionDone(c, t);
      SetColor(x, Black, c, t);
    }

    method RepayOnce(x0: Node?<T>, xp0: Node<T>, ghost c0: Ctx<Node<T>>, ghost t0: Tree<Node<T>>)
      returns (x: Node?<T>, xp: Node?<T>, ghost c: Ctx<Node<T>>, ghost t: Tree<Node<T>>)
      requires Repaying(x0, xp0, c0, t0) && !IsRed(t0)
      modifies this`root, this`shape, this`cells, this`rotations, cells.Keys
      ensures Repaying(x, xp, c, t)
      ensures cells.Keys == old(cells.Keys) && InOrder(shape) == old(InOrder(shape))
      ensures || (rotations == old(rotations) && Depth(c) == Depth(c0) - 1)
              || (rotations == old(rotations) + 1 && Depth(c) == Depth(c0) && IsRed(t))
              || (rotations <= old(rotations) + 3 && c.Top?)
      ensures Depth(c0) > 0
    {
      See(c0, t0);
      SiblingExists(c0, t0);
      if x0 == xp0.left {
        x, xp, c, t := RepayLeft(xp0, c0, t0);
      } else {
        x, xp, c, t := RepayRight(xp0, c0, t0);
      }
    }

    /** Puts `v` where `u` hangs. */
    method Transplant(u: Node<T>, v: Node?<T>)
      requires v == null || v != u.parent
      modifies this`root, u.parent, v
      ensures u.parent == old(u.parent) || u == v || u == old(u.parent)
      ensures old(u.parent) == null ==> root == v
      ensures var p := old(u.parent); p != null ==> root == old(root)
      ensures old(u.parent) != null ==>
        Cell(old(u.parent).left, old(u.parent).right, old(u.parent).parent, old(u.parent).color) ==
        old(SwapChild(Cell(u.parent.left, u.parent.right, u.parent.parent, u.parent.color), u, v))
      ensures v != null ==> v.left == old(v.left) && v.right == old(v.right) && v.color == old(v.color)
                            && v.parent == old(u.parent)
    {
      var p := u.parent;
      if p == null {
        root := v;
      } else if u == p.left {
        p.left := v;
      } else {
        p.right := v;
      }
      if v != null {
        v.parent := p;
      }
    }

    /** Takes a node with at most one child out of the tree. */
    method Splice(u: Node<T>, v: Node?<T>, ghost c: Ctx<Node<T>>, ghost t: Tree<Node<T>>, ghost ch: Tree<Node<T>>)
      requires Linked() && shape == Plug(c, t) && OnlyChild(t, ch) && u == t.node && v == Ptr(ch)
      modifies this`root, this`shape, this`cells, u.parent, v
      ensures Linked() && shape == Plug(c, ch)
      ensures cells == TransplantCells(old(cells), u, v, HoleParent(c)) - {u}
    {
      ShapedSplice(root, cells, c, t, ch);
      See(c, t);
      ghost var m, p := cells, u.parent;
      Transplant(u, v);
      cells := TransplantCells(m, u, v, p) - {u};
      forall n | n in cells ensures Cell(n.left, n.right, n.parent, n.color) == cells[n] {
        if n == p {} else if n == v {} else {
          assert cells[n] == m[n];
        }
      }
      shape := Plug(c, ch);
    }

    /** `y`, itself no longer in the tree, takes the place of `z`. */
    method Supplant(z: Node<T>, y: Node<T>)
      requires Holds(cells) && y !in cells && Surrounded(cells, z) && z.left != null && z.right != null
      modifies this`root, this`cells, y, z.left, z.right, z.parent
      ensures cells == SubstituteCells(old(cells), z, y) && Holds(cells)
      ensures root == if old(z.parent) == null then y else old(root)
    {
      ghost var m, p, l, r := cells, z.parent, z.left, z.right;
      y.right := z.right;
      y.right.parent := y;
      Transplant(z, y);
      y.left := z.left;
      y.left.parent := y;
      y.color := z.color;
      cells := SubstituteCells(m, z, y);
      forall n | n in cells ensures Cell(n.left, n.right, n.parent, n.color) == cells[n] {
        if n == y {} else if n == l {} else if n == r {} else if n == p {} else {
          assert cells[n] == m[n];
        }
      }
    }

    /** The same for the right child `y` of `z`, which keeps its own right subtree. */
    method SupplantChild(z: Node<T>, y: Node<T>, ghost m1: Cells<T>)
      requires Holds(cells) && ChildMovable(cells, m1, z, y) && z.left != null
      modifies this`root, this`cells, y, z.left, z.right, z.parent
      ensures cells == SubstituteCells(m1, z, y) && Holds(cells)
      ensures root == if old(z.parent) == null then y else old(root)
    {
      ghost var m, p, l, r := cells, z.parent, z.left, y.right;
      Transplant(z, y);
      y.left := z.left;
      y.left.parent := y;
      y.color := z.color;
      cells := SubstituteCells(m1, z, y);
      forall n | n in cells ensures Cell(n.left, n.right, n.parent, n.color) == cells[n] {
        if n == y {} else if n == l {} else if n == r {} else if n == p {} else {
          assert cells[n] == m[n];
        }
      }
    }

    /** The leftmost node below `x0`, if there is one. */
    method Min(x0: Node?<T>, ghost b: Ctx<Node<T>>, ghost t: Tree<Node<T>>)
      returns (x: Node?<T>, ghost k: Ctx<Node<T>>, ghost s: Tree<Node<T>>)
      requires Linked() && shape == Plug(b, t) && Ptr(t) == x0
      ensures x == Ptr(s) && t == Plug(k, s) && Before(k) == []
      ensures if x0 == null then x == null else x != null && s.left == Leaf
    {
      x, k, s := x0, Top, t;
      See(b, s);
      while x != null && x.left != null
        invariant shape == Plug(Append(k, b), s) && Ptr(s) == x && (x != null ==> x.left == Ptr(s.left))
        invariant t == Plug(k, s) && Before(k) == [] && (x == null <==> x0 == null)
        decreases s
      {
        x, k, s := x.left, InLeft(s.node, s.color, s.right, k), s.left;
        See(Append(k, b), s);
      }
    }

    /** Takes `z`, which has two children, out of the tree: its successor `y` moves into its place. */
    method Remove2(z: Node<T>, ghost c: Ctx<Node<T>>, ghost t: Tree<Node<T>>)
      returns (yColor: Color, x: Node?<T>, xp: Node<T>, ghost c': Ctx<Node<T>>, ghost t': Tree<Node<T>>)
      requires Linked() && RedBlack(shape) && shape == Plug(c, t) && Ptr(t) == z && t.left.Tree? && t.right.Tree?
      modifies this`root, this`shape, this`cells, cells.Keys
      ensures Linked() && shape == Plug(c', t') && x == Ptr(t') && xp == HoleParent(c')
      ensures cells.Keys == old(cells.Keys) - {z}
      ensures yColor == Red ==> RedBlack(shape)
      ensures yColor == Black ==> Short(c', t')
      ensures InOrder(shape) == (Before(c) + InOrder(t.left)) + (InOrder(t.right) + After(c))
    {
      See(c, t);
      ghost var k, s;
      var y;
      y, k, s := Min(z.right, InRight(z, t.color, t.left, c), t.right);
      MovedLaws(k, c, t, s);
      MovedOrder(k, c, t, s);
      ghost var m := cells;
      ShapedSuccessor(root, m, k, c, t, s);
      yColor := y.color;
      x := y.right;
      if y.parent == z {
        xp := y;
      } else {
        xp := y.parent;
      }
      MoveSuccessor(z, y, k, c, t, s);
      c', t' := SuccessorHole(k, y, t.color, t.left, c), s.right;
    }

    method MoveSuccessor(z: Node<T>, y: Node<T>, ghost k: Ctx<Node<T>>, ghost c: Ctx<Node<T>>,
                         ghost t: Tree<Node<T>>, ghost s: Tree<Node<T>>)
      requires Linked() && shape == Plug(c, t) && Ptr(t) == z && t.left.Tree?
      requires t.right == Plug(k, s) && Ptr(s) == y && s.left == Leaf
      modifies this`root, this`shape, this`cells, cells.Keys
      ensures Linked() && shape == Plug(SuccessorHole(k, y, t.color, t.left, c), s.right)
      ensures cells.Keys == old(cells.Keys) - {z}
    {
      ShapedSuccessor(root, cells, k, c, t, s);
      SuccessorPlug(k, y, t.color, t.left, c, s.right);
      if y.parent == z {
        MoveChild(z, y, c, t);
      } else {
        SpliceSuccessor(y, k, c, t, s);
        MoveIn(z, y, c, t.(right := Plug(k, s.right)));
      }
    }

    method SpliceSuccessor(y: Node<T>, ghost k: Ctx<Node<T>>, ghost c: Ctx<Node<T>>,
                           ghost t: Tree<Node<T>>, ghost s: Tree<Node<T>>)
      requires Linked() && shape == Plug(c, t) && t.Tree? && t.right == Plug(k, s) && Ptr(s) == y && s.left == Leaf
      modifies this`root, this`shape, this`cells, cells.Keys
      ensures Linked() && shape == Plug(c, t.(right := Plug(k, s.right)))
      ensures cells.Keys == old(cells.Keys) - {y}
    {
      ShapedSuccessor(root, cells, k, c, t, s);
      SuccessorPlug(k, t.node, t.color, t.left, c, s);
      SuccessorPlug(k, t.node, t.color, t.left, c, s.right);
      Splice(y, y.right, SuccessorHole(k, t.node, t.color, t.left, c), s, s.right);
    }

    method MoveChild(z: Node<T>, y: Node<T>, ghost c: Ctx<Node<T>>, ghost t: Tree<Node<T>>)
      requires Linked() && shape == Plug(c, t) && Ptr(t) == z && t.left.Tree?
      requires Ptr(t.right) == y && t.right.left == Leaf
      modifies this`root, this`shape, this`cells, cells.Keys
      ensures Linked() && shape == Plug(c, Tree(y, t.color, t.left, t.right.right))
      ensures cells.Keys == old(cells.Keys) - {z}
    {
      See(c, t);
      ghost var m1 := TransplantCells(cells, y, Ptr(t.right.right), z) - {y};
      ShapedSurrounded(root, cells, c, t);
      ShapedMoveChild(root, cells, c, t, m1);
      SupplantChild(z, y, m1);
      shape := Plug(c, Tree(y, t.color, t.left, t.right.right));
    }

    method MoveIn(z: Node<T>, y: Node<T>, ghost c: Ctx<Node<T>>, ghost t: Tree<Node<T>>)
      requires Linked() && shape == Plug(c, t) && Ptr(t) == z && t.left.Tree? && t.right.Tree? && y !in cells
      modifies this`root, this`shape, this`cells, y, cells.Keys
      ensures Linked() && shape == Plug(c, t.(node := y))
      ensures cells.Keys == old(cells.Keys) - {z} + {y}
    {
      ShapedSubstitute(root, cells, c, t, y);
      ShapedSurrounded(root, cells, c, t);
      See(c, t);
      Supplant(z, y);
      shape := Plug(c, t.(node := y));
    }

    // ------------------------------------------------------ public operations

    ghost predicate Valid()
      reads this, cells.Keys
    {
      && Linked() && RedBlack(shape)
      && StrictWeakOrder(cmp) && Ascending(cmp, InOrder(shape))
      && size == |InOrder(shape)|
      && Owned()
    }

    /** The nodes allocated so far are those in the tree and those freed, each in one of the two. */
    ghost predicate Owned()
      reads this`cells, this`made, this`freed, this`destroyed
    {
      cells.Keys !! freed && made == cells.Keys + freed && Once(destroyed, freed)
    }

    /** The stored values. */
    ghost function Elements(): set<T>
      reads this`shape
    {
      set n | n in InOrder(shape) :: n.value
    }

    constructor (cmp: (T, T) -> bool)
      requires StrictWeakOrder(cmp)
      ensures Valid() && Elements() == {} && this.cmp == cmp && made == {} && destroyed == [] && rotations == 0
    {
      this.cmp := cmp;
      root, size, destroyed := null, 0, [];
      shape, cells, made, freed, rotations := Leaf, map[], {}, {}, 0;
    }

    /**
     The descent that Insert, Find and Delete start with: the node `x` equivalent to `value`, or
     the empty place `x`, below `y`, where `value` belongs.
     */
    method Descend(value: T) returns (x: Node?<T>, y: Node?<T>, ghost c: Ctx<Node<T>>, ghost t: Tree<Node<T>>, ghost steps: nat)
      requires Linked() && StrictWeakOrder(cmp) && Ascending(cmp, InOrder(shape))
      ensures shape == Plug(c, t) && x == Ptr(t) && y == HoleParent(c) && Belongs(cmp, c, value)
      ensures x != null ==> Equivalent(cmp, x.value, value)
      ensures steps == Visited(cmp, shape, value) == Depth(c) + if x == null then 0 else 1
    {
      x, y, c, t, steps := root, null, Top, shape, 0;
      while x != null
        invariant steps == Depth(c) && steps + Visited(cmp, t, value) == Visited(cmp, shape, value)
        invariant shape == Plug(c, t) && x == Ptr(t) && y == HoleParent(c) && Belongs(cmp, c, value)
        decreases t
      {
        See(c, t);
        steps := steps + 1;
        if cmp(value, x.value) {
          StepLeft(cmp, c, t, value);
          x, y, c, t := x.left, x, InLeft(x, t.color, t.right, c), t.left;
        } else if cmp(x.value, value) {
          StepRight(cmp, c, t, value);
          x, y, c, t := x.right, x, InRight(x, t.color, t.left, c), t.right;
        } else {
          return;
        }
      }
    }

    /** The node whose value is equivalent to `value`, with the number of nodes compared on the way. */
    method Find(value: T) returns (r: Node?<T>, ghost steps: nat)
      requires Valid()
      ensures r != null ==> r in cells && r.value in Elements() && Equivalent(cmp, r.value, value)
      ensures r == null ==> forall e :: e in Elements() ==> !Equivalent(cmp, e, value)
      ensures steps == Visited(cmp, shape, value) && Pow2(steps) <= (size + 1) * (size + 1)
    {
      var y;
      ghost var c, t;
      r, y, c, t, steps := Descend(value);
      HeightPlug(c, t);
      LogarithmicHeight(shape);
      Pow2Monotone(steps, Height(shape));
      if r == null {
        NotFound(cmp, c, value);
      } else {
        See(c, t);
        NodeIsListed(c, t);
      }
    }

    lemma NodeIsListed(c: Ctx<Node<T>>, t: Tree<Node<T>>)
      requires t.Tree? && shape == Plug(c, t)
      ensures t.node in InOrder(shape)
    {
      NodesInOrder(shape);
      NodesPlug(c, t);
    }

    /** Adds `value` unless an equivalent value is stored already; that one then stays. */
    method Insert(value: T) returns (inserted: bool)
      requires Valid()
      modifies this`root, this`shape, this`cells, this`size, this`rotations, this`made, this`freed, this`destroyed, cells.Keys
      ensures Valid() && made > old(made) && fresh(made - old(made)) && freed >= old(freed)
      ensures inserted <==> forall e :: e in old(Elements()) ==> !Equivalent(cmp, e, value)
      ensures inserted ==> Elements() == old(Elements()) + {value} && size == old(size) + 1
      ensures inserted ==> freed == old(freed) && destroyed == old(destroyed)
      ensures !inserted ==> exists z :: z in made - old(made) && destroyed == old(destroyed) + [z]
      ensures !inserted ==> shape == old(shape) && size == old(size) && cells == old(cells)
      ensures rotations <= old(rotations) + 2
    {
      var z := new Node(value);
      var x, y;
      ghost var c, t, steps;
      x, y, c, t, steps := Descend(value);
      if x != null {
        NodeIsListed(c, t);
        assert x.value in Elements();
        DeleteNew(z);
        return false;
      }
      NotFound(cmp, c, value);
      InsertNew(z, y, c);
      inserted := true;
    }

    /** Frees a node that was never linked. */
    method DeleteNew(z: Node<T>)
      requires Valid() && z !in made
      modifies this`made, this`freed, this`destroyed
      ensures Valid() && made == old(made) + {z} && freed == old(freed) + {z} && destroyed == old(destroyed) + [z]
    {
      made := made + {z};
      Free(z);
    }

    /** Deletes a node, once. */
    method Free(node: Node<T>)
      requires node !in freed
      modifies this`freed, this`destroyed
      ensures freed == old(freed) + {node} && destroyed == old(destroyed) + [node]
      ensures Once(old(destroyed), old(freed)) ==> Once(destroyed, freed)
    {
      if Once(destroyed, freed) { OnceMore(destroyed, freed, node); }
      destroyed := destroyed + [node];
      freed := freed + {node};
    }

    method InsertNew(z: Node<T>, y: Node?<T>, ghost c: Ctx<Node<T>>)
      requires Valid() && shape == Plug(c, Leaf) && y == HoleParent(c) && Belongs(cmp, c, z.value)
      requires z !in made && z.left == null && z.right == null && z.color == Red
      modifies this`root, this`shape, this`cells, this`size, this`rotations, this`made, z, cells.Keys
      ensures Linked() && RedBlack(shape)
      ensures StrictWeakOrder(cmp) && Ascending(cmp, InOrder(shape)) && size == |InOrder(shape)|
      ensures Owned() && made == old(made) + {z}
      ensures Elements() == old(Elements()) + {z.value} && size == old(size) + 1
      ensures rotations <= old(rotations) + 2
    {
      AscendingInserted(cmp, c, z, Red);
      AddedElements(Before(c), z, After(c));
      InsertAt(z, y, c);
      made := made + {z};
    }

    lemma AddedElements(p: seq<Node<T>>, z: Node<T>, q: seq<Node<T>>)
      ensures (set n | n in p + [z] + q :: n.value) == (set n | n in p + q :: n.value) + {z.value}
    {
      assert forall n :: n in p + [z] + q <==> n in p + q || n == z;
    }

    method InsertAt(z: Node<T>, y: Node?<T>, ghost c: Ctx<Node<T>>)
      requires Linked() && RedBlack(shape) && shape == Plug(c, Leaf) && y == HoleParent(c)
      requires StrictWeakOrder(cmp) && Belongs(cmp, c, z.value)
      requires z !in cells && z.left == null && z.right == null && z.color == Red
      modifies this`root, this`shape, this`cells, this`size, this`rotations, z, cells.Keys
      ensures Linked() && RedBlack(shape) && cells.Keys == old(cells.Keys) + {z}
      ensures InOrder(shape) == InOrder(Plug(c, Tree(z, Red, Leaf, Leaf))) && size == old(size) + 1
      ensures rotations <= old(rotations) + 2
    {
      See(c, Leaf);
      SideToHang(cmp, c, z.value);
      Attach(z, y, c);
      InsertFixup(z, c, Tree(z, Red, Leaf, Leaf));
      size := size + 1;
    }

    /** Hangs the new node `z` below `y`, on the side where its value belongs. */
    method Attach(z: Node<T>, y: Node?<T>, ghost c: Ctx<Node<T>>)
      requires Linked() && RedBlack(shape) && shape == Plug(c, Leaf) && y == HoleParent(c)
      requires z !in cells && z.left == null && z.right == null && z.color == Red
      requires c.InLeft? ==> cmp(z.value, c.node.value)
      requires c.InRight? ==> !cmp(z.value, c.node.value)
      modifies this`root, this`shape, this`cells, z, y
      ensures Fixing(z, c, Tree(z, Red, Leaf, Leaf)) && cells.Keys == old(cells.Keys) + {z}
    {
      ShapedHang(root, cells, c, z);
      HungInserting(c, z);
      See(c, Leaf);
      ghost var m := cells;
      z.parent := y;
      if y == null {
        root := z;
      } else if cmp(z.value, y.value) {
        y.left := z;
      } else {
        y.right := z;
      }
      cells := HangCells(m, z, c);
      forall n | n in cells ensures Cell(n.left, n.right, n.parent, n.color) == cells[n] {
        if n == z {} else if n == y {} else {
          assert cells[n] == m[n];
        }
      }
      shape := Plug(c, Tree(z, Red, Leaf, Leaf));
    }

    /** Removes the stored value equivalent to `value`, if there is one. */
    method Delete(value: T) returns (deleted: bool)
      requires Valid()
      modifies this`root, this`shape, this`cells, this`size, this`rotations, this`freed, this`destroyed, cells.Keys
      ensures Valid()
      ensures deleted <==> exists e :: e in old(Elements()) && Equivalent(cmp, e, value)
      ensures deleted ==> size == old(size) - 1
      ensures Elements() == set e | e in old(Elements()) && !Equivalent(cmp, e, value)
      ensures !deleted ==> shape == old(shape) && cells == old(cells) && freed == old(freed) && destroyed == old(destroyed)
      ensures deleted ==> freed >= old(freed) && exists z ::
        z in old(cells.Keys) && Equivalent(cmp, z.value, value) && cells.Keys == old(cells.Keys) - {z} && destroyed == old(destroyed) + [z]
      ensures rotations <= old(rotations) + 3
    {
      var z, y;
      ghost var c, t, steps;
      z, y, c, t, steps := Descend(value);
      if z == null {
        NotFound(cmp, c, value);
        return false;
      }
      NodeIsListed(c, t);
      deleted := true;
      assert exists e :: e in Elements() && Equivalent(cmp, e, value) by {
        assert z.value in Elements() && Equivalent(cmp, z.value, value);
      }
      DeleteFound(value, z, c, t);
    }

    method DeleteFound(value: T, z: Node<T>, ghost c: Ctx<Node<T>>, ghost t: Tree<Node<T>>)
      requires Valid() && shape == Plug(c, t) && Ptr(t) == z && Equivalent(cmp, z.value, value)
      modifies this`root, this`shape, this`cells, this`size, this`rotations, this`freed, this`destroyed, cells.Keys
      ensures Valid() && size == old(size) - 1
      ensures z in old(cells.Keys) && cells.Keys == old(cells.Keys) - {z}
      ensures freed == old(freed) + {z} && destroyed == old(destroyed) + [z]
      ensures Elements() == set e | e in old(Elements()) && !Equivalent(cmp, e, value)
      ensures rotations <= old(rotations) + 3
    {
      ghost var p, q := Before(c) + InOrder(t.left), InOrder(t.right) + After(c);
      DeleteAt(z, c, t);
      AscendingWithout(cmp, p, z, q);
      OthersDiffer(cmp, p, z, q, value);
      RemovedElements(p, z, q, value);
    }

    method DeleteAt(z: Node<T>, ghost c: Ctx<Node<T>>, ghost t: Tree<Node<T>>)
      requires Linked() && RedBlack(shape) && shape == Plug(c, t) && Ptr(t) == z && size == |InOrder(shape)|
      requires Owned()
      modifies this`root, this`shape, this`cells, this`size, this`rotations, this`freed, this`destroyed, cells.Keys
      ensures Linked()
      ensures RedBlack(shape)
      ensures size == old(size) - 1 == |InOrder(shape)|
      ensures old(InOrder(shape)) == (Before(c) + InOrder(t.left)) + [z] + (InOrder(t.right) + After(c))
      ensures InOrder(shape) == (Before(c) + InOrder(t.left)) + (InOrder(t.right) + After(c))
      ensures z in old(cells) && cells.Keys == old(cells.Keys) - {z}
      ensures Owned()
      ensures freed == old(freed) + {z} && destroyed == old(destroyed) + [z]
      ensures rotations <= old(rotations) + 3
    {
      var yColor, x, xp;
      ghost var c', t';
      yColor, x, xp, c', t' := Extract(z, c, t);
      Rebalance(yColor, x, xp, c', t');
    }

    /** Takes `z` out of the tree and frees it. */
    method Extract(z: Node<T>, ghost c: Ctx<Node<T>>, ghost t: Tree<Node<T>>)
      returns (yColor: Color, x: Node?<T>, xp: Node?<T>, ghost c': Ctx<Node<T>>, ghost t': Tree<Node<T>>)
      requires Linked() && RedBlack(shape) && shape == Plug(c, t) && Ptr(t) == z && size == |InOrder(shape)|
      requires Owned()
      modifies this`root, this`shape, this`cells, this`size, this`freed, this`destroyed, cells.Keys
      ensures Linked() && cells.Keys == old(cells.Keys) - {z} && z in old(cells)
      ensures size == old(size) - 1 == |InOrder(shape)|
      ensures yColor == Red ==> RedBlack(shape)
      ensures yColor == Black ==> Repaying(x, xp, c', t')
      ensures old(InOrder(shape)) == (Before(c) + InOrder(t.left)) + [z] + (InOrder(t.right) + After(c))
      ensures InOrder(shape) == (Before(c) + InOrder(t.left)) + (InOrder(t.right) + After(c))
      ensures Owned() && freed == old(freed) + {z} && destroyed == old(destroyed) + [z]
    {
      NodeLeaves(cells.Keys, freed, made, z);
      yColor, x, xp, c', t' := Unlink(z, c, t);
      Discard(z);
    }

    static lemma NodeLeaves<X>(c: set<X>, f: set<X>, m: set<X>, x: X)
      requires c !! f && m == c + f
      ensures x in c ==> c - {x} !! f + {x} && m == (c - {x}) + (f + {x})
    {
    }

    /** Restores the laws after a node of the given colour is gone from above `x`. */
    method Rebalance(yColor: Color, x: Node?<T>, xp: Node?<T>, ghost c: Ctx<Node<T>>, ghost t: Tree<Node<T>>)
      requires Linked() && (yColor == Red ==> RedBlack(shape)) && (yColor == Black ==> Repaying(x, xp, c, t))
      modifies this`root, this`shape, this`cells, this`rotations, cells.Keys
      ensures Linked() && RedBlack(shape)
      ensures cells.Keys == old(cells.Keys) && InOrder(shape) == old(InOrder(shape))
      ensures rotations <= old(rotations) + 3
    {
      if yColor == Black {
        DeleteFixup(x, xp, c, t);
      }
    }

    lemma RemovedElements(p: seq<Node<T>>, z: Node<T>, q: seq<Node<T>>, value: T)
      requires Equivalent(cmp, z.value, value)
      requires forall n :: n in p + q ==> !Equivalent(cmp, n.value, value)
      ensures (set n | n in p + q :: n.value) == set e | e in (set n | n in p + [z] + q :: n.value) && !Equivalent(cmp, e, value)
    {
      assert forall n :: n in p + [z] + q <==> n in p + q || n == z;
    }

    /** Takes `z` out of the tree; the laws hold again unless a black node is missing above `x`. */
    method Unlink(z: Node<T>, ghost c: Ctx<Node<T>>, ghost t: Tree<Node<T>>)
      returns (yColor: Color, x: Node?<T>, xp: Node?<T>, ghost c': Ctx<Node<T>>, ghost t': Tree<Node<T>>)
      requires Linked() && RedBlack(shape) && shape == Plug(c, t) && Ptr(t) == z
      modifies this`root, this`shape, this`cells, cells.Keys
      ensures Linked() && cells.Keys == old(cells.Keys) - {z} && z in old(cells)
      ensures yColor == Red ==> RedBlack(shape)
      ensures yColor == Black ==> Repaying(x, xp, c', t')
      ensures old(InOrder(shape)) == (Before(c) + InOrder(t.left)) + [z] + (InOrder(t.right) + After(c))
      ensures InOrder(shape) == (Before(c) + InOrder(t.left)) + (InOrder(t.right) + After(c))
    {
      See(c, t);
      if z.left == null {
        x, xp, yColor := z.right, z.parent, z.color;
        UnlinkSpliced(z, z.right, c, t, t.right);
        c', t' := c, t.right;
      } else if z.right == null {
        x, xp, yColor := z.left, z.parent, z.color;
        UnlinkSpliced(z, z.left, c, t, t.left);
        c', t' := c, t.left;
      } else {
        InOrderPlug(c, t);
        Inner3(Before(c), InOrder(t.left), [z], InOrder(t.right), After(c));
        yColor, x, xp, c', t' := Remove2(z, c, t);
      }
    }

    method UnlinkSpliced(z: Node<T>, v: Node?<T>, ghost c: Ctx<Node<T>>, ghost t: Tree<Node<T>>, ghost ch: Tree<Node<T>>)
      requires Linked() && RedBlack(shape) && shape == Plug(c, t) && Ptr(t) == z && OnlyChild(t, ch) && v == Ptr(ch)
      modifies this`root, this`shape, this`cells, cells.Keys
      ensures Linked() && cells.Keys == old(cells.Keys) - {z} && z in old(cells) && shape == Plug(c, ch)
      ensures t.color == Red ==> RedBlack(shape)
      ensures t.color == Black ==> Short(c, ch)
      ensures old(InOrder(shape)) == (Before(c) + InOrder(t.left)) + [z] + (InOrder(t.right) + After(c))
      ensures InOrder(shape) == (Before(c) + InOrder(t.left)) + (InOrder(t.right) + After(c))
    {
      SplicedLaws(c, t, ch);
      SplicedOrder(c, t, ch);
      ShapedSplice(root, cells, c, t, ch);
      See(c, t);
      Splice(z, v, c, t, ch);
    }

    /** Frees the unlinked node `z`. */
    method Discard(z: Node<T>)
      requires Linked() && z !in cells && z in made && z !in freed && size > 0 && Once(destroyed, freed)
      modifies this`size, this`freed, this`destroyed, z
      ensures Linked() && size == old(size) - 1 && freed == old(freed) + {z}
      ensures destroyed == old(destroyed) + [z] && Once(destroyed, freed)
    {
      z.left, z.right, z.parent := null, null, null;
      Free(z);
      size := size - 1;
    }

    /** Walks the subtree `t`, appending each value visited. */
    method Foreach(node: Node?<T>, leftFirst: bool, visited: seq<T>, ghost c: Ctx<Node<T>>, ghost t: Tree<Node<T>>)
      returns (out: seq<T>)
      requires Linked() && shape == Plug(c, t) && node == Ptr(t)
      ensures out == visited + (if leftFirst then Values(InOrder(t)) else Reversed(Values(InOrder(t))))
      decreases t
    {
      if node == null {
        return visited;
      }
      See(c, t);
      ghost var lc, rc := InLeft(node, t.color, t.right, c), InRight(node, t.color, t.left, c);
      ghost var l, r := Values(InOrder(t.left)), Values(InOrder(t.right));
      ListedParts(InOrder(t.left), node, InOrder(t.right));
      if leftFirst {
        Assoc4(visited, l, [node.value], r);
        out := Foreach(node.left, leftFirst, visited, lc, t.left);
        out := out + [node.value];
        out := Foreach(node.right, leftFirst, out, rc, t.right);
      } else {
        Assoc4(visited, Reversed(r), [node.value], Reversed(l));
        out := Foreach(node.right, leftFirst, visited, rc, t.right);
        out := out + [node.value];
        out := Foreach(node.left, leftFirst, out, lc, t.left);
      }
    }

    /** The stored values in order. */
    ghost function Listing(): seq<T>
      reads this`shape
    {
      Values(InOrder(shape))
    }

    lemma ListingFacts()
      requires Valid()
      ensures StrictlyAscending(cmp, Listing()) && |Listing()| == size
      ensures forall e :: e in Listing() <==> e in Elements()
    {
      ListedValues(InOrder(shape));
    }

    /** No other strictly ascending sequence lists the stored values. */
    lemma OnlyListing(s: seq<T>)
      requires Valid() && StrictlyAscending(cmp, s) && forall e :: e in s <==> e in Elements()
      ensures s == Listing()
    {
      ListingFacts();
      ListingUnique(cmp, s, Listing());
    }

    method ForeachLeft() returns (out: seq<T>)
      requires Valid()
      ensures out == Listing() && StrictlyAscending(cmp, out) && |out| == size
      ensures forall e :: e in out <==> e in Elements()
    {
      out := Foreach(root, true, [], Top, shape);
      assert [] + Listing() == Listing();
      ListingFacts();
    }

    method ForeachRight() returns (out: seq<T>)
      requires Valid()
      ensures out == Reversed(Listing()) && StrictlyAscending(cmp, Reversed(out)) && |out| == size
      ensures forall e :: e in out <==> e in Elements()
    {
      out := Foreach(root, false, [], Top, shape);
      assert [] + Reversed(Listing()) == Reversed(Listing());
      ListingFacts();
      ReversedTwice(Listing());
    }

    lemma ListedValues(ns: seq<Node<T>>)
      ensures forall e :: e in Values(ns) <==> e in (set n | n in ns :: n.value)
    {
      forall n | n in ns ensures n.value in Values(ns) {
        var i :| 0 <= i < |ns| && ns[i] == n;
        assert Values(ns)[i] == n.value;
      }
    }

    method ToSortedVector() returns (out: seq<T>)
      requires Valid()
      ensures out == Listing() && StrictlyAscending(cmp, out) && |out| == size
      ensures forall e :: e in out <==> e in Elements()
    {
      out := ForeachLeft();
    }

    /** Frees every node of the subtree `t`, children first, each of them once. */
    method DestroySubtree(node: Node?<T>, ghost t: Tree<Node<T>>, ghost p: Node?<T>)
      requires Holds(cells) && Fits(cells, t, p) && Distinct(t) && node == Ptr(t) && Nodes(t) !! freed
      modifies this`freed, this`destroyed
      ensures freed == old(freed) + Nodes(t) && destroyed == old(destroyed) + PostOrder(t)
      decreases t
    {
      if node == null {
        return;
      }
      DestroySubtree(node.left, t.left, node);
      DestroySubtree(node.right, t.right, node);
      assert node !in freed;
      Free(node);
      Assoc4(old(destroyed), PostOrder(t.left), PostOrder(t.right), [node]);
    }

    method Clear()
      requires Valid()
      modifies this`root, this`shape, this`cells, this`size, this`freed, this`destroyed
      ensures Valid() && Elements() == {} && size == 0
      ensures freed == made && cells == map[] && destroyed == old(destroyed) + PostOrder(old(shape))
    {
      PostOrderOnce(shape);
      OnceAll(destroyed, freed, PostOrder(shape), Nodes(shape));
      DestroySubtree(root, shape, null);
      root, size, shape, cells := null, 0, Leaf, map[];
    }

    /** Move assignment: takes over the other tree's nodes and leaves it empty. */
    method MoveFrom(other: RBTree<T>)
      requires Valid() && other.Valid() && (this != other ==> made !! other.made)
      modifies this`root, this`size, this`cmp, this`shape, this`cells, this`made, this`freed, this`destroyed
      modifies other`root, other`size, other`shape, other`cells, other`made
      ensures Valid() && other.Valid()
      ensures this == other ==> shape == old(shape) && cells == old(cells) && size == old(size)
      ensures this == other ==> freed == old(freed) && destroyed == old(destroyed)
      ensures this != other ==> shape == old(other.shape) && size == old(other.size) && cmp == other.cmp
      ensures this != other ==> other.shape == Leaf && freed == old(made) && destroyed == old(destroyed) + PostOrder(old(shape))
      ensures made + other.made == old(made) + old(other.made)
    {
      if this != other {
        Clear();
        TakeOver(other);
      }
    }

    method TakeOver(other: RBTree<T>)
      requires this != other && cells == map[] && freed == made && Once(destroyed, freed) && made !! other.made && other.Valid()
      modifies this`root, this`size, this`cmp, this`shape, this`cells, this`made
      modifies other`root, other`size, other`shape, other`cells, other`made
      ensures Valid() && other.Valid()
      ensures shape == old(other.shape) && cells == old(other.cells) && size == old(other.size) && cmp == other.cmp
      ensures made == old(made) + cells.Keys && other.made == old(other.made) - cells.Keys && other.shape == Leaf
    {
      root, size, cmp := other.root, other.size, other.cmp;
      shape, cells, made := other.shape, other.cells, made + other.cells.Keys;
      other.Abandon();
    }

    /** Lets go of all nodes without freeing them. */
    method Abandon()
      requires StrictWeakOrder(cmp) && Once(destroyed, freed)
      modifies this`root, this`size, this`shape, this`cells, this`made
      ensures Valid() && shape == Leaf && cells == map[] && made == freed
    {
      root, size := null, 0;
      shape, cells, made := Leaf, map[], freed;
    }
  }
}
