/** The tree of `hextype_rbtree.cc` on the heap. */
module RbTree {
  import opened Arithmetic
  import opened RbShape
  import opened RbCases
  import opened RbHeight
  import opened RbMap
  import opened RbMemory
  import opened RbEdits

  function NodeColor(n: Node?): Color
    reads n
  {
    if n == null then BLACK else n.color
  }

  function Sibling(n: Node): Node?
    requires n.parent != null
    reads n, n.parent
  {
    if n == n.parent.left then n.parent.right else n.parent.left
  }

  function Grandparent(n: Node): Node
    requires n.parent != null && n.parent.parent != null
    reads n, n.parent
  {
    n.parent.parent
  }

  function Uncle(n: Node): Node?
    requires n.parent != null && n.parent.parent != null
    reads n, n.parent, n.parent.parent
  {
    Sibling(n.parent)
  }

  class RbTree {
    var root: Node?
    ghost var tree: Tree            // the picture of the whole tree, between operations
    ghost var nodes: set<Node>      // the nodes of the tree
    ghost var rotations: nat        // how many rotations have been made

    method ReplaceNode(oldn: Node, newn: Node?)
      requires oldn in nodes && oldn != newn && (newn != null ==> newn != oldn.parent)
      requires oldn.parent != null ==> oldn.parent in nodes && oldn.parent != oldn
      requires newn != null ==> newn in nodes
      modifies this`root, nodes`left, nodes`right, nodes`parent
      ensures rotations == old(rotations)
      ensures root == if old(oldn.parent) == null then newn else old(root)
      ensures Replaced(old(Snapshot(nodes)), Snapshot(nodes), oldn, newn)
    {
      if oldn.parent == null {
        root := newn;
      } else {
        if oldn == oldn.parent.left {
          oldn.parent.left := newn;
        } else {
          oldn.parent.right := newn;
        }
      }
      if newn != null {
        newn.parent := oldn.parent;
      }
    }

    /** What a rotation of `n` asks of the heap: a child to rotate up, and no two roles for one node. */
    ghost predicate CanRotate(s: Side, n: Node)
      reads this`nodes, nodes
    {
      && n in nodes
      && var r, p := if s == L then n.right else n.left, n.parent;
      && r != null && r in nodes && r != n && r != p && p != n && (p != null ==> p in nodes)
      && var moved := if s == L then r.left else r.right;
      && (moved != null ==> moved in nodes && moved !in {n, r, p})
    }

    lemma RotationReady(s: Side, f: Tree, c: Ctx)
      requires Zip(f, c) && f.Bin? && Far(s, f).Bin?
      ensures CanRotate(s, f.cell.node)
    {
      var m, g := Snapshot(nodes), Far(s, f);
      TakeApart(s, Near(s, f), f.cell, Near(s, g), g.cell, Far(s, g), c);
      assert Holds(m, g, f.cell.node);
      var moved := Near(s, g);
      assert Holds(m, moved, g.cell.node);
      assert moved.Bin? ==> moved.cell.node in Nodes(moved);
      assert c.Under? ==> c.cell.node in CtxNodes(c);
    }

    /** The heap holds `Plug(c, f)`. */
    ghost predicate Zip(f: Tree, c: Ctx)
      reads this`root, this`nodes, nodes
    {
      && nodes == Nodes(f) + CtxNodes(c)
      && ZipDistinct(f, c)
      && HoldsZip(Snapshot(nodes), f, c)
      && root == RootAt(c, RootOf(f))
    }

    method RotateLeft(n: Node)
      requires CanRotate(L, n)
      modifies this`root, this`rotations, nodes`left, nodes`right, nodes`parent
      ensures Rotated(old(Snapshot(nodes)), Snapshot(nodes), L, n)
      ensures root == if old(n.parent) == null then old(n.right) else old(root)
      ensures rotations == old(rotations) + 1
    {
      var r := n.right;
      ghost var m := Snapshot(nodes);
      ReplaceNode(n, r);
      ghost var m1 := Snapshot(nodes);
      SwingLeft(n, r);
      rotations := rotations + 1;
      SwingRotates(m, m1, Snapshot(nodes), L, n, r);
    }

    /** The second half of a rotation: `n` takes over the left child of `r` and becomes that itself. */
    method SwingLeft(n: Node, r: Node)
      requires n in nodes && r in nodes && r != n
      requires r.left != null ==> r.left in nodes && r.left != n && r.left != r
      modifies nodes`left, nodes`right, nodes`parent
      ensures Swung(old(Snapshot(nodes)), Snapshot(nodes), L, n, r)
      ensures root == old(root) && rotations == old(rotations)
    {
      n.right := r.left;
      if r.left != null {
        r.left.parent := n;
      }
      r.left := n;
      n.parent := r;
    }

    method RotateRight(n: Node)
      requires CanRotate(R, n)
      modifies this`root, this`rotations, nodes`left, nodes`right, nodes`parent
      ensures Rotated(old(Snapshot(nodes)), Snapshot(nodes), R, n)
      ensures root == if old(n.parent) == null then old(n.left) else old(root)
      ensures rotations == old(rotations) + 1
    {
      var l := n.left;
      ghost var m := Snapshot(nodes);
      ReplaceNode(n, l);
      ghost var m1 := Snapshot(nodes);
      SwingRight(n, l);
      rotations := rotations + 1;
      SwingRotates(m, m1, Snapshot(nodes), R, n, l);
    }

    method SwingRight(n: Node, l: Node)
      requires n in nodes && l in nodes && l != n
      requires l.right != null ==> l.right in nodes && l.right != n && l.right != l
      modifies nodes`left, nodes`right, nodes`parent
      ensures Swung(old(Snapshot(nodes)), Snapshot(nodes), R, n, l)
      ensures root == old(root) && rotations == old(rotations)
    {
      n.left := l.right;
      if l.right != null {
        l.right.parent := n;
      }
      l.right := n;
      n.parent := l;
    }

    // ---------------------------------------------------------------- moving the focus

    lemma MoveUp(f: Tree, c: Ctx)
      requires c.Under?
      ensures Zip(f, c) <==> Zip(Mk(c.side, f, c.cell, c.sib), c.up)
    {
      Move(Snapshot(nodes), f, c);
    }

    lemma MoveAcross(f: Tree, c: Ctx)
      requires c.Under?
      ensures Zip(f, c) <==> Zip(c.sib, Across(f, c))
    {
      MoveUp(f, c);
      MoveUp(c.sib, Across(f, c));
      assert Mk(c.side, f, c.cell, c.sib) == Mk(Flip(c.side), c.sib, c.cell, f);
    }

    /** What can be read through the pointers at and around the focus. */
    lemma Here(f: Tree, c: Ctx)
      requires Zip(f, c) && f.Bin?
      ensures var n := f.cell.node;
        && n in nodes && n.parent == ParentOf(c)
        && n.key == f.cell.key && n.value == f.cell.value && n.color == f.cell.color
        && n.left == RootOf(f.left) && n.right == RootOf(f.right)
    {
    }

    lemma Around(f: Tree, c: Ctx)
      requires Zip(f, c) && f.Bin? && c.Under?
      ensures var n, p, s := f.cell.node, c.cell.node, RootOf(c.sib);
        && n in nodes && p in nodes && n.parent == p && n != s
        && p.color == c.cell.color && p.parent == ParentOf(c.up)
        && (if c.side == L then p.left == n && p.right == s else p.right == n && p.left == s)
        && Sibling(n) == s && NodeColor(s) == ColorOf(c.sib)
        && (s != null ==> s in nodes && s.left == RootOf(c.sib.left) && s.right == RootOf(c.sib.right))
        && (s != null ==> NodeColor(s.left) == ColorOf(c.sib.left) && NodeColor(s.right) == ColorOf(c.sib.right))
    {
      Here(f, c);
      MoveUp(f, c);
      Here(Mk(c.side, f, c.cell, c.sib), c.up);
      MoveAcross(f, c);
      if c.sib.Bin? {
        assert c.sib.cell.node in Nodes(c.sib);
        Here(c.sib, Across(f, c));
        Below(c.sib, Across(f, c));
      }
    }

    lemma Below(f: Tree, c: Ctx)
      requires Zip(f, c) && f.Bin?
      ensures f.left.Bin? ==> f.left.cell.node in nodes && f.left.cell.node.color == f.left.cell.color
      ensures f.right.Bin? ==> f.right.cell.node in nodes && f.right.cell.node.color == f.right.cell.color
    {
      assert Holds(Snapshot(nodes), f.left, f.cell.node) && Holds(Snapshot(nodes), f.right, f.cell.node);
    }

    lemma {:induction false} PlugZip(c: Ctx, f: Tree)
      ensures Zip(f, c) <==> Zip(Plug(c, f), Top)
    {
      if c.Under? {
        MoveUp(f, c);
        PlugZip(c.up, Mk(c.side, f, c.cell, c.sib));
      }
    }

    /** The pointers an insertion case looks at. */
    lemma AroundParent(f: Tree, c: Ctx)
      requires Zip(f, c) && f.Bin? && c.Under? && c.up.Under?
      ensures Zip(Mk(c.side, f, c.cell, c.sib), c.up)
      ensures var n, p, g, u := f.cell.node, c.cell.node, c.up.cell.node, RootOf(c.up.sib);
        && n.parent == p && p.parent == g && p.color == c.cell.color
        && (if c.side == L then p.left == n && p.right != n else p.right == n && p.left != n)
        && (if c.up.side == L then g.left == p && g.right != p else g.right == p && g.left != p)
        && Grandparent(n) == g && Uncle(n) == u && NodeColor(u) == ColorOf(c.up.sib)
    {
      Around(f, c);
      MoveUp(f, c);
      Around(Mk(c.side, f, c.cell, c.sib), c.up);
    }

    // ---------------------------------------------------------------- recolouring

    /** `n->color = color`, with the focus on `n`. */
    method SetColor(n: Node, color: Color, ghost f: Tree, ghost c: Ctx)
      requires Zip(f, c) && f.Bin? && n == f.cell.node
      modifies nodes`color
      ensures rotations == old(rotations)
      ensures Zip(Paint(f, color), c)
    {
      ghost var m := Snapshot(nodes);
      Here(f, c);
      n.color := color;
      RefilledHolds(m, Snapshot(nodes), f, c, f.cell.(color := color));
    }

    /** `n->parent->color = color`. */
    method SetParentColor(n: Node, color: Color, ghost f: Tree, ghost c: Ctx)
      requires Zip(f, c) && f.Bin? && n == f.cell.node && c.Under?
      modifies nodes`color
      ensures rotations == old(rotations)
      ensures Zip(f, c.(cell := c.cell.(color := color)))
    {
      Around(f, c);
      MoveUp(f, c);
      SetColor(n.parent, color, Mk(c.side, f, c.cell, c.sib), c.up);
      MoveUp(f, c.(cell := c.cell.(color := color)));
    }

    /** `sibling(n)->color = color`. */
    method SetSiblingColor(n: Node, color: Color, ghost f: Tree, ghost c: Ctx)
      requires Zip(f, c) && f.Bin? && n == f.cell.node && c.Under? && c.sib.Bin?
      modifies nodes`color
      ensures rotations == old(rotations)
      ensures Zip(f, c.(sib := Paint(c.sib, color)))
    {
      Around(f, c);
      MoveAcross(f, c);
      SetColor(Sibling(n), color, c.sib, Across(f, c));
      MoveAcross(f, c.(sib := Paint(c.sib, color)));
    }

    /** `sibling(n)->left->color = color` (`s == L`) or `sibling(n)->right->color = color` (`s == R`). */
    method SetNephewColor(nephew: Node, color: Color, ghost s: Side, ghost f: Tree, ghost c: Ctx)
      requires Zip(f, c) && c.Under? && c.sib.Bin? && Near(s, c.sib).Bin? && nephew == Near(s, c.sib).cell.node
      modifies nodes`color
      ensures rotations == old(rotations)
      ensures Zip(f, c.(sib := PaintChild(s, c.sib, color)))
    {
      ghost var near := Near(s, c.sib);
      ghost var up := Under(Across(f, c), s, c.sib.cell, Far(s, c.sib));
      MoveAcross(f, c);
      MoveUp(near, up);
      SetColor(nephew, color, near, up);
      MoveUp(Paint(near, color), up);
      MoveAcross(f, c.(sib := PaintChild(s, c.sib, color)));
    }

    // ---------------------------------------------------------------- rotations, seen from a focus

    lemma AfterRotation(m: Memory, s: Side, f: Tree, c: Ctx)
      requires f.Bin? && Far(s, f).Bin? && nodes == Nodes(f) + CtxNodes(c)
      requires ZipDistinct(f, c) && HoldsZip(m, f, c) && Rotated(m, Snapshot(nodes), s, f.cell.node)
      requires root == RootAt(c, Far(s, f).cell.node)
      ensures Zip(Rotate(s, f), c)
    {
      RotationHolds(m, Snapshot(nodes), s, f, c);
    }

    method RotateLeftAt(n: Node, ghost f: Tree, ghost c: Ctx)
      requires Zip(f, c) && f.Bin? && f.right.Bin? && n == f.cell.node
      modifies this`root, this`rotations, nodes`left, nodes`right, nodes`parent
      ensures Zip(Rotate(L, f), c) && rotations == old(rotations) + 1
    {
      ghost var m := Snapshot(nodes);
      Here(f, c);
      RotationReady(L, f, c);
      RotateLeft(n);
      AfterRotation(m, L, f, c);
    }

    method RotateRightAt(n: Node, ghost f: Tree, ghost c: Ctx)
      requires Zip(f, c) && f.Bin? && f.left.Bin? && n == f.cell.node
      modifies this`root, this`rotations, nodes`left, nodes`right, nodes`parent
      ensures Zip(Rotate(R, f), c) && rotations == old(rotations) + 1
    {
      ghost var m := Snapshot(nodes);
      Here(f, c);
      RotationReady(R, f, c);
      RotateRight(n);
      AfterRotation(m, R, f, c);
    }

    // ---------------------------------------------------------------- deletion cases

    method DeleteCase1(n: Node, ghost f: Tree, ghost c: Ctx, ghost h: nat)
      requires Zip(f, c) && f.Bin? && n == f.cell.node && Short(c, h)
      modifies this`root, this`rotations, nodes`left, nodes`right, nodes`parent, nodes`color
      ensures Zip(f, RbCases.DeleteCase1(c, h))
      ensures rotations <= old(rotations) + 3
      decreases Depth(c), 2
    {
      Here(f, c);
      if n.parent == null {
        return;
      } else {
        DeleteCase2(n, f, c, h);
      }
    }

    method DeleteCase2(n: Node, ghost f: Tree, ghost c: Ctx, ghost h: nat)
      requires Zip(f, c) && f.Bin? && n == f.cell.node && Short(c, h) && c.Under?
      modifies this`root, this`rotations, nodes`left, nodes`right, nodes`parent, nodes`color
      ensures Zip(f, RbCases.DeleteCase2(c, h))
      ensures rotations <= old(rotations) + 3
      decreases Depth(c), 1
    {
      SiblingThere(c, h);
      Around(f, c);
      ghost var c' := c;
      if NodeColor(Sibling(n)) == RED {
        RaiseSibling(n, f, c);
        c' := SiblingRaised(c);
        RedSiblingRotated(c, h);
      }
      DeleteCase3(n, f, c', h);
    }

    /** The red sibling of `n` takes the place of the parent. */
    method RaiseSibling(n: Node, ghost f: Tree, ghost c: Ctx)
      requires Zip(f, c) && f.Bin? && n == f.cell.node && c.Under? && c.sib.Bin?
      modifies this`root, this`rotations, nodes`left, nodes`right, nodes`parent, nodes`color
      ensures Zip(f, SiblingRaised(c))
      ensures rotations == old(rotations) + 1
    {
      Around(f, c);
      SetParentColor(n, RED, f, c);
      ghost var c' := c.(cell := c.cell.(color := RED));
      Around(f, c');
      SetSiblingColor(n, BLACK, f, c');
      c' := c'.(sib := Paint(c.sib, BLACK));
      Around(f, c');
      MoveUp(f, c');
      ghost var p := Mk(c.side, f, c'.cell, c'.sib);
      if n == n.parent.left {
        RotateLeftAt(n.parent, p, c.up);
      } else {
        RotateRightAt(n.parent, p, c.up);
      }
      c' := SiblingRaised(c);
      MoveUp(f, c');
      MoveUp(Mk(c.side, f, c'.cell, c'.sib), c'.up);
    }

    method DeleteCase3(n: Node, ghost f: Tree, ghost c: Ctx, ghost h: nat)
      requires Zip(f, c) && f.Bin? && n == f.cell.node && Short(c, h) && c.Under? && ColorOf(c.sib) == BLACK
      modifies this`root, this`rotations, nodes`left, nodes`right, nodes`parent, nodes`color
      ensures Zip(f, RbCases.DeleteCase3(c, h))
      ensures rotations <= old(rotations) + if c.cell.color == RED then 2 else 3
      decreases if c.cell.color == RED then 0 else Depth(c), 0
    {
      SiblingThere(c, h);
      Around(f, c);
      if NodeColor(n.parent) == BLACK &&
         NodeColor(Sibling(n)) == BLACK &&
         NodeColor(Sibling(n).left) == BLACK &&
         NodeColor(Sibling(n).right) == BLACK
      {
        SetSiblingColor(n, RED, f, c);
        ghost var c' := c.(sib := Paint(c.sib, RED));
        Here(f, c');
        MoveUp(f, c');
        ghost var p := Mk(c.side, f, c'.cell, c'.sib);
        DeleteCase1(n.parent, p, c.up, h + 1);
        MoveUp(f, Under(RbCases.DeleteCase1(c.up, h + 1), c.side, c.cell, c'.sib));
        assert RbCases.DeleteCase3(c, h) == Under(RbCases.DeleteCase1(c.up, h + 1), c.side, c.cell, c'.sib);
      } else {
        DeleteCase4(n, f, c, h);
      }
    }

    method DeleteCase4(n: Node, ghost f: Tree, ghost c: Ctx, ghost h: nat)
      requires Zip(f, c) && f.Bin? && n == f.cell.node && Short(c, h) && c.Under? && ColorOf(c.sib) == BLACK
      requires c.cell.color == RED || (c.sib.Bin? && !BlackNephews(c))
      modifies this`root, this`rotations, nodes`left, nodes`right, nodes`parent, nodes`color
      ensures Zip(f, RbCases.DeleteCase4(c, h))
      ensures rotations <= old(rotations) + 2
    {
      SiblingThere(c, h);
      Around(f, c);
      if NodeColor(n.parent) == RED &&
         NodeColor(Sibling(n)) == BLACK &&
         NodeColor(Sibling(n).left) == BLACK &&
         NodeColor(Sibling(n).right) == BLACK
      {
        SetSiblingColor(n, RED, f, c);
        SetParentColor(n, BLACK, f, c.(sib := Paint(c.sib, RED)));
      } else {
        DeleteCase5(n, f, c);
      }
    }

    method DeleteCase5(n: Node, ghost f: Tree, ghost c: Ctx)
      requires Zip(f, c) && f.Bin? && n == f.cell.node && c.Under?
      requires ColorOf(c.sib) == BLACK && c.sib.Bin? && !BlackNephews(c)
      modifies this`root, this`rotations, nodes`left, nodes`right, nodes`parent, nodes`color
      ensures Zip(f, RbCases.DeleteCase5(c))
      ensures rotations <= old(rotations) + 2
    {
      Around(f, c);
      ghost var c', red := c, c.(sib := Paint(c.sib, RED));
      if n == n.parent.left &&
         NodeColor(Sibling(n)) == BLACK &&
         NodeColor(Sibling(n).left) == RED &&
         NodeColor(Sibling(n).right) == BLACK
      {
        SetSiblingColor(n, RED, f, c);
        Around(f, red);
        SetNephewColor(Sibling(n).left, BLACK, L, f, red);
        ghost var black := red.(sib := PaintChild(L, red.sib, BLACK));
        Around(f, black);
        MoveAcross(f, black);
        RotateRightAt(Sibling(n), black.sib, Across(f, black));
        c' := c.(sib := Rotate(R, black.sib));
        MoveAcross(f, c');
      } else if n == n.parent.right &&
                NodeColor(Sibling(n)) == BLACK &&
                NodeColor(Sibling(n).right) == RED &&
                NodeColor(Sibling(n).left) == BLACK
      {
        SetSiblingColor(n, RED, f, c);
        Around(f, red);
        SetNephewColor(Sibling(n).right, BLACK, R, f, red);
        ghost var black := red.(sib := PaintChild(R, red.sib, BLACK));
        Around(f, black);
        MoveAcross(f, black);
        RotateLeftAt(Sibling(n), black.sib, Across(f, black));
        c' := c.(sib := Rotate(L, black.sib));
        MoveAcross(f, c');
      }
      assert RbCases.DeleteCase5(c) == RbCases.DeleteCase6(c');
      DeleteCase6(n, f, c');
    }

    method DeleteCase6(n: Node, ghost f: Tree, ghost c: Ctx)
      requires Zip(f, c) && f.Bin? && n == f.cell.node && c.Under?
      requires c.sib.Bin? && ColorOf(Far(c.side, c.sib)) == RED
      modifies this`root, this`rotations, nodes`left, nodes`right, nodes`parent, nodes`color
      ensures Zip(f, RbCases.DeleteCase6(c))
      ensures rotations <= old(rotations) + 1
    {
      Around(f, c);
      SetSiblingColor(n, NodeColor(n.parent), f, c);
      ghost var c1 := c.(sib := Paint(c.sib, c.cell.color));
      Around(f, c1);
      SetParentColor(n, BLACK, f, c1);
      ghost var c2 := c1.(cell := c.cell.(color := BLACK));
      Around(f, c2);
      ghost var c3 := c2.(sib := PaintChild(Flip(c.side), c2.sib, BLACK));
      ghost var p := Mk(c.side, f, c3.cell, c3.sib);
      if n == n.parent.left {
        assert NodeColor(Sibling(n).right) == RED;
        SetNephewColor(Sibling(n).right, BLACK, R, f, c2);
        Around(f, c3);
        MoveUp(f, c3);
        RotateLeftAt(n.parent, p, c.up);
      } else {
        assert NodeColor(Sibling(n).left) == RED;
        SetNephewColor(Sibling(n).left, BLACK, L, f, c2);
        Around(f, c3);
        MoveUp(f, c3);
        RotateRightAt(n.parent, p, c.up);
      }
      ghost var done := RbCases.DeleteCase6(c);
      MoveUp(Mk(c.side, f, done.cell, done.sib), done.up);
      MoveUp(f, done);
    }

    // ---------------------------------------------------------------- insertion cases

    method InsertCase1(n: Node, ghost f: Tree, ghost c: Ctx)
      requires Zip(f, c) && f.Bin? && n == f.cell.node && RedFocus(f, c)
      modifies this`root, this`rotations, nodes`left, nodes`right, nodes`parent, nodes`color
      ensures Zip(RbCases.InsertCase1(f, c), Top)
      ensures rotations <= old(rotations) + 2
      decreases c, 5
    {
      Here(f, c);
      if n.parent == null {
        SetColor(n, BLACK, f, c);
      } else {
        InsertCase2(n, f, c);
      }
    }

    method InsertCase2(n: Node, ghost f: Tree, ghost c: Ctx)
      requires Zip(f, c) && f.Bin? && n == f.cell.node && RedFocus(f, c) && c.Under?
      modifies this`root, this`rotations, nodes`left, nodes`right, nodes`parent, nodes`color
      ensures Zip(RbCases.InsertCase2(f, c), Top)
      ensures rotations <= old(rotations) + 2
      decreases c, 4
    {
      Around(f, c);
      if NodeColor(n.parent) == BLACK {
        PlugZip(c, f);
        return;
      } else {
        InsertCase3(n, f, c);
      }
    }

    method InsertCase3(n: Node, ghost f: Tree, ghost c: Ctx)
      requires Zip(f, c) && f.Bin? && n == f.cell.node && RedFocus(f, c) && c.Under? && c.cell.color == RED
      modifies this`root, this`rotations, nodes`left, nodes`right, nodes`parent, nodes`color
      ensures Zip(RbCases.InsertCase3(f, c), Top)
      ensures rotations <= old(rotations) + 2
      decreases c, 3
    {
      RedParent(f, c);
      AroundParent(f, c);
      if NodeColor(Uncle(n)) == RED {
        RecolourFamily(n, f, c);
        RecolouredFocus(f, c);
        InsertCase1(Grandparent(n), Recoloured(f, c), c.up.up);
      } else {
        InsertCase4(n, f, c);
      }
    }

    /** The three assignments of case 3. */
    method RecolourFamily(n: Node, ghost f: Tree, ghost c: Ctx)
      requires Zip(f, c) && f.Bin? && n == f.cell.node && c.Under? && c.up.Under? && c.up.sib.Bin?
      modifies nodes`color
      ensures rotations == old(rotations)
      ensures Zip(Recoloured(f, c), c.up.up)
    {
      SetParentColor(n, BLACK, f, c);
      ghost var c' := c.(cell := c.cell.(color := BLACK));
      AroundParent(f, c');
      ghost var p := Mk(c.side, f, c'.cell, c.sib);
      SetSiblingColor(n.parent, BLACK, p, c.up);
      ghost var up := c.up.(sib := Paint(c.up.sib, BLACK));
      SetParentColor(n.parent, RED, p, up);
      MoveUp(p, up.(cell := up.cell.(color := RED)));
    }

    method InsertCase4(n0: Node, ghost f: Tree, ghost c: Ctx)
      requires Zip(f, c) && f.Bin? && n0 == f.cell.node && RedFocus(f, c) && c.Under? && c.cell.color == RED
      requires c.up.Under? && ColorOf(c.up.sib) == BLACK
      modifies this`root, this`rotations, nodes`left, nodes`right, nodes`parent, nodes`color
      ensures Zip(RbCases.InsertCase4(f, c), Top)
      ensures rotations <= old(rotations) + 2
    {
      var n := n0;
      ghost var f', c' := f, c;
      AroundParent(f, c);
      if n == n.parent.right && n.parent == Grandparent(n).left {
        RotateLeftAt(n.parent, Mk(c.side, f, c.cell, c.sib), c.up);
        f', c' := Bin(c.sib, c.cell, f.left), Under(c.up, L, f.cell, f.right);
        MoveUp(f', c');
        Here(Mk(L, f', f.cell, f.right), c.up);
        n := n.left;
      } else if n == n.parent.left && n.parent == Grandparent(n).right {
        RotateRightAt(n.parent, Mk(c.side, f, c.cell, c.sib), c.up);
        f', c' := Bin(f.right, c.cell, c.sib), Under(c.up, R, f.cell, f.left);
        MoveUp(f', c');
        Here(Mk(R, f', f.cell, f.left), c.up);
        n := n.right;
      }
      InsertCase5(n, f', c');
    }

    method InsertCase5(n: Node, ghost f: Tree, ghost c: Ctx)
      requires Zip(f, c) && f.Bin? && n == f.cell.node && c.Under? && c.up.Under? && c.side == c.up.side
      modifies this`root, this`rotations, nodes`left, nodes`right, nodes`parent, nodes`color
      ensures Zip(RbCases.InsertCase5(f, c), Top)
      ensures rotations == old(rotations) + 1
    {
      SetParentColor(n, BLACK, f, c);
      ghost var c' := c.(cell := c.cell.(color := BLACK));
      AroundParent(f, c');
      ghost var p := Mk(c.side, f, c'.cell, c.sib);
      SetParentColor(n.parent, RED, p, c.up);
      ghost var up := c.up.(cell := c.up.cell.(color := RED));
      MoveUp(p, up);
      MoveUp(f, c'.(up := up));
      AroundParent(f, c'.(up := up));
      ghost var g := Mk(c.side, p, up.cell, up.sib);
      if n == n.parent.left && n.parent == Grandparent(n).left {
        RotateRightAt(Grandparent(n), g, c.up.up);
        PlugZip(c.up.up, Rotate(R, g));
      } else {
        assert n == n.parent.right && n.parent == Grandparent(n).right;
        RotateLeftAt(Grandparent(n), g, c.up.up);
        PlugZip(c.up.up, Rotate(L, g));
      }
    }

    // ---------------------------------------------------------------- the public interface

    ghost predicate Valid()
      reads this`root, this`nodes, this`tree, nodes
    {
      Zip(tree, Top) && Searchable(tree)
    }

    /** The finite map that the tree stands for. */
    ghost function Contents(): Contents
      reads this`tree
    {
      ContentsOf(Inorder(tree))
    }

    constructor ()
      ensures Valid() && Contents() == map[] && nodes == {} && fresh(this)
    {
      root := null;
      tree, nodes, rotations := Nil, {}, 0;
    }

    /** The picture of the whole tree is up to date again. */
    ghost method Settle(t: Tree)
      requires Zip(t, Top) && Searchable(t)
      modifies this`tree
      ensures Valid() && tree == t
    {
      tree := t;
    }

    /** A search ends at the node with the key, or at the null pointer where it would be. */
    method LookupNode(key: Ptr) returns (n: Node?, ghost f: Tree, ghost c: Ctx, ghost steps: nat)
      requires Valid()
      ensures Zip(f, c) && n == RootOf(f) && SearchAt(tree, Key32(key), f, c)
      ensures f.Bin? ==> Key32(f.cell.key) == Key32(key)
      ensures n != null <==> Key32(key) in Contents()
      ensures steps + Height(f) <= Height(tree) + if f.Bin? then 1 else 0
    {
      n := root;
      f, c, steps := tree, Top, 0;
      while n != null
        invariant Zip(f, c) && n == RootOf(f) && SearchAt(tree, Key32(key), f, c)
        invariant steps == Depth(c)
        decreases f
      {
        DepthPlusHeight(c, f);
        Here(f, c);
        var comp := Compare(key, n.key);
        steps := steps + 1;
        if comp == 0 {
          SearchEnds(tree, Key32(key), f, c);
          return;
        } else {
          Down(Key32(key), f, c);
          if comp < 0 {
            n := n.left;
            f, c := f.left, Under(c, L, f.cell, f.right);
          } else {
            assert comp > 0;
            n := n.right;
            f, c := f.right, Under(c, R, f.cell, f.left);
          }
        }
      }
      DepthPlusHeight(c, f);
      SearchEnds(tree, Key32(key), f, c);
    }

    /** A valid tree of n nodes has height at most 2 * log2(n + 1). */
    lemma HeightIsLogarithmic()
      requires Valid()
      ensures Pow2(Height(tree)) <= (|nodes| + 1) * (|nodes| + 1)
    {
      assert nodes == Nodes(tree);
      SizeIsNodeCount(tree);
      HeightBound(tree);
    }

    method Lookup(key: Ptr) returns (value: Ptr, ghost steps: nat)
      requires Valid()
      ensures value == if Key32(key) in Contents() then Contents()[Key32(key)] else NULL
      ensures steps <= Height(tree)
    {
      var n;
      ghost var f, c;
      n, f, c, steps := LookupNode(key);
      SearchEnds(tree, Key32(key), f, c);
      if n == null {
        value := NULL;
      } else {
        Here(f, c);
        value := n.value;
      }
    }

    /** `new_node`; `mallocOk` says whether `malloc` succeeds. */
    static method NewNode(key: Ptr, value: Ptr, color: Color, left: Node?, right: Node?, mallocOk: bool)
      returns (result: Node?)
      modifies (if left == null then {} else {left})`parent, (if right == null then {} else {right})`parent
      ensures result == null <==> !mallocOk
      ensures result != null ==>
        && fresh(result) && result.key == key && result.value == value && result.color == color
        && result.left == left && result.right == right && result.parent == null
        && (left != null ==> left.parent == result) && (right != null ==> right.parent == result)
      ensures result == null ==> (left != null ==> unchanged(left)) && (right != null ==> unchanged(right))
    {
      if !mallocOk {
        return null;
      }
      result := new Node();
      result.key := key;
      result.value := value;
      result.color := color;
      result.left := left;
      result.right := right;
      if left != null {
        left.parent := result;
      }
      if right != null {
        right.parent := result;
      }
      result.parent := null;
    }

    /** `added` is the new node, if there is one. */
    method Insert(key: Ptr, value: Ptr, mallocOk: bool) returns (ghost added: Node?, ghost steps: nat)
      requires Valid()
      modifies this, nodes
      ensures Valid()
      ensures Contents() == if mallocOk then old(Contents())[Key32(key) := value] else old(Contents())
      ensures !mallocOk ==> unchanged(this) && unchanged(nodes)
      ensures added != null <==> mallocOk && Key32(key) !in old(Contents())
      ensures added != null ==> fresh(added) && nodes == old(nodes) + {added}
      ensures added == null ==> nodes == old(nodes) && root == old(root)
      ensures added == null ==> OnlyValueAt(old(Snapshot(nodes)), Snapshot(nodes), Key32(key))
      ensures rotations <= old(rotations) + 2
      ensures steps <= Height(old(tree))
    {
      added, steps := null, 0;
      var inserted := NewNode(key, value, RED, null, null, mallocOk);
      if inserted == null {
        return;
      }
      ghost var c := Top;
      if root == null {
        EmptyTree(Key32(key));
        root := inserted;
      } else {
        var overwritten;
        overwritten, c, steps := Link(inserted, key, value);
        if overwritten {
          return;
        }
      }
      Rebalance(inserted, c);
      added := inserted;
    }

    lemma EmptyTree(k: int)
      requires Valid() && root == null
      ensures tree == Nil && nodes == {} && SearchAt(tree, k, Nil, Top) && k !in Contents()
    {
      SearchEnds(tree, k, Nil, Top);
    }

    /** `insert_case1` on a new red leaf. */
    method Rebalance(inserted: Node, ghost c: Ctx)
      requires Searchable(tree) && Dangling(inserted, c) && SearchAt(tree, Key32(inserted.key), Nil, c)
      requires inserted.left == null && inserted.right == null && inserted.color == RED
      modifies this, nodes, inserted
      ensures Valid() && nodes == old(nodes) + {inserted}
      ensures Contents() == old(Contents())[Key32(old(inserted.key)) := old(inserted.value)]
      ensures rotations <= old(rotations) + 2
    {
      ghost var x := Cell(inserted, RED, inserted.key, inserted.value);
      ghost var m := Snapshot(nodes);
      nodes := nodes + {inserted};
      LeafHolds(m, Snapshot(nodes), c, x);
      LeafFocus(tree, c, x);
      InsertCase1(inserted, Bin(Nil, x, Nil), c);
      AddLeaf(tree, c, x);
      Settle(RbCases.InsertCase1(Bin(Nil, x, Nil), c));
    }

    /** A new node hangs in the hole of `c` and knows its parent. */
    ghost predicate Dangling(inserted: Node, c: Ctx)
      reads this`root, this`nodes, nodes, inserted
    {
      Hanging(inserted, c) && inserted !in nodes && inserted.parent == ParentOf(c)
    }

    /** The else branch of `rbtree_insert`: replace the value of the node with the key, or hang the new
        node where the key belongs. */
    method Link(inserted: Node, key: Ptr, value: Ptr) returns (overwritten: bool, ghost c: Ctx, ghost steps: nat)
      requires Valid() && root != null && inserted !in nodes
      modifies this`tree, nodes`left, nodes`right, nodes`value, inserted`parent
      ensures overwritten <==> Key32(key) in old(Contents())
      ensures overwritten ==> Valid() && Contents() == old(Contents())[Key32(key) := value]
      ensures overwritten ==> OnlyValueAt(old(Snapshot(nodes)), Snapshot(nodes), Key32(key))
      ensures !overwritten ==> tree == old(tree) && Dangling(inserted, c) && SearchAt(tree, Key32(key), Nil, c)
      ensures steps <= Height(old(tree))
    {
      ghost var f;
      var n;
      overwritten, n, f, c, steps := Descend(inserted, key, value);
      SearchEnds(tree, Key32(key), f, c);
      if overwritten {
        Overwritten(value, f, c);
        Settle(Plug(c, Revalued(f, value)));
      } else {
        inserted.parent := n;
      }
    }

    lemma Overwritten(value: Ptr, f: Tree, c: Ctx)
      requires Searchable(tree) && Plug(c, f) == tree && f.Bin? && Zip(Revalued(f, value), c)
      ensures var u := Plug(c, Revalued(f, value));
        && Zip(u, Top) && Searchable(u)
        && ContentsOf(Inorder(u)) == Contents()[Key32(f.cell.key) := value]
    {
      PlugZip(c, Revalued(f, value));
      RbEdits.Overwrite(tree, f, c, value);
    }

    /** One step of a search. */
    lemma Down(k: int, f: Tree, c: Ctx)
      requires Zip(f, c) && f.Bin? && Sorted(Inorder(tree)) && SearchAt(tree, k, f, c)
      ensures k < Key32(f.cell.key) ==>
        var c' := Under(c, L, f.cell, f.right); Zip(f.left, c') && SearchAt(tree, k, f.left, c')
      ensures Key32(f.cell.key) < k ==>
        var c' := Under(c, R, f.cell, f.left); Zip(f.right, c') && SearchAt(tree, k, f.right, c')
    {
      SearchStep(tree, k, f, c);
      MoveUp(f.left, Under(c, L, f.cell, f.right));
      MoveUp(f.right, Under(c, R, f.cell, f.left));
    }

    /** The loop of `rbtree_insert`. */
    method Descend(inserted: Node, key: Ptr, value: Ptr)
      returns (overwritten: bool, n: Node, ghost f: Tree, ghost c: Ctx, ghost steps: nat)
      requires Zip(tree, Top) && Sorted(Inorder(tree)) && root != null && inserted !in nodes
      modifies nodes`left, nodes`right, nodes`value
      ensures SearchAt(tree, Key32(key), f, c) && steps <= Height(tree)
      ensures overwritten <==> f.Bin?
      ensures overwritten ==> Key32(f.cell.key) == Key32(key) && Zip(Revalued(f, value), c)
      ensures overwritten ==> OnlyValueAt(old(Snapshot(nodes)), Snapshot(nodes), Key32(key))
      ensures !overwritten ==> Hanging(inserted, c) && ParentOf(c) == n
    {
      ghost var m := Snapshot(nodes);
      n := root;
      f, c, steps := tree, Top, 0;
      while true
        invariant Zip(f, c) && f.Bin? && n == f.cell.node && SearchAt(tree, Key32(key), f, c)
        invariant steps == Depth(c)
        invariant Snapshot(nodes) == m
        decreases f
      {
        Here(f, c);
        steps := steps + 1;
        var comp := Compare(key, n.key);
        if comp == 0 {
          DepthPlusHeight(c, f);
          SetValue(n, value, f, c);
          overwritten := true;
          return;
        }
        Down(Key32(key), f, c);
        if comp < 0 {
          c := Under(c, L, f.cell, f.right);
          f := f.left;
          if n.left == null {
            HangLeft(n, inserted, c);
            break;
          } else {
            n := n.left;
          }
        } else {
          assert comp > 0;
          c := Under(c, R, f.cell, f.left);
          f := f.right;
          if n.right == null {
            HangRight(n, inserted, c);
            break;
          } else {
            n := n.right;
          }
        }
      }
      DepthPlusHeight(c, Nil);
      overwritten, f := false, Nil;
    }

    /** `n->value = value`, with the focus on `n`. */
    method SetValue(n: Node, value: Ptr, ghost f: Tree, ghost c: Ctx)
      requires Zip(f, c) && f.Bin? && n == f.cell.node
      modifies nodes`value
      ensures Zip(Revalued(f, value), c)
      ensures OnlyValueAt(old(Snapshot(nodes)), Snapshot(nodes), Key32(f.cell.key))
    {
      ghost var m := Snapshot(nodes);
      Here(f, c);
      n.value := value;
      RefilledHolds(m, Snapshot(nodes), f, c, f.cell.(value := value));
    }

    /** A new node hangs in the hole of `c`, but does not belong to the tree yet. */
    ghost predicate Hanging(inserted: Node, c: Ctx)
      reads this`root, this`nodes, nodes
    {
      && nodes == CtxNodes(c) && CtxDistinct(c)
      && HoldsCtx(Snapshot(nodes), c, inserted) && root == RootAt(c, inserted)
    }

    /** `n->left = inserted_node`. */
    method HangLeft(n: Node, inserted: Node, ghost c: Ctx)
      requires Zip(Nil, c) && c.Under? && c.side == L && n == c.cell.node
      modifies n`left
      ensures Hanging(inserted, c)
    {
      ghost var m := Snapshot(nodes);
      assert n in nodes;
      n.left := inserted;
      RelinkedHolds(m, Snapshot(nodes), c, null, inserted);
    }

    /** `n->right = inserted_node`. */
    method HangRight(n: Node, inserted: Node, ghost c: Ctx)
      requires Zip(Nil, c) && c.Under? && c.side == R && n == c.cell.node
      modifies n`right
      ensures Hanging(inserted, c)
    {
      ghost var m := Snapshot(nodes);
      assert n in nodes;
      n.right := inserted;
      RelinkedHolds(m, Snapshot(nodes), c, null, inserted);
    }

    // ---------------------------------------------------------------- deletion

    lemma {:induction false} MaxZip(t: Tree, c: Ctx)
      requires t.Bin?
      ensures Zip(t, c) ==> Zip(MaxFocus(t), MaxCtx(t, c))
    {
      if t.right.Bin? {
        MoveUp(t.right, Under(c, R, t.cell, t.left));
        MaxZip(t.right, Under(c, R, t.cell, t.left));
      }
    }

    method MaximumNode(n0: Node, ghost t: Tree, ghost c: Ctx) returns (n: Node, ghost steps: nat)
      requires Zip(t, c) && t.Bin? && n0 == t.cell.node
      ensures n == MaxFocus(t).cell.node && n in nodes
      ensures n.key == MaxFocus(t).cell.key && n.value == MaxFocus(t).cell.value
      ensures steps < Height(t)
    {
      n := n0;
      ghost var f, d := t, c;
      steps := 0;
      Here(f, d);
      while n.right != null
        invariant Zip(f, d) && f.Bin? && n == f.cell.node && n.right == RootOf(f.right)
        invariant MaxFocus(f) == MaxFocus(t) && steps + Height(f) <= Height(t)
        decreases f
      {
        MoveUp(f.right, Under(d, R, f.cell, f.left));
        n := n.right;
        f, d := f.right, Under(d, R, f.cell, f.left);
        steps := steps + 1;
        Here(f, d);
      }
      Here(f, d);
    }

    method Delete(key: Ptr) returns (r: int, ghost removed: Node?, ghost steps: nat)
      requires Valid()
      modifies this, nodes
      ensures Valid()
      ensures r == if Key32(key) in old(Contents()) then 1 else 0
      ensures Contents() == old(Contents()) - {Key32(key)}
      ensures r == 0 ==> removed == null && unchanged(this) && unchanged(nodes)
      ensures r == 1 ==> removed in old(nodes) && nodes == old(nodes) - {removed}
      ensures rotations <= old(rotations) + 3
      ensures steps <= Height(old(tree))
    {
      var n;
      ghost var f, c;
      r, removed := 0, null;
      n, f, c, steps := LookupNode(key);
      SearchEnds(tree, Key32(key), f, c);
      if n != null {
        n, steps := DeleteNode(n, f, c, steps);
        r, removed := 1, n;
      }
    }

    /** `rbtree_delete` once the node with the key has been found; `cut` is the node to be freed. */
    method DeleteNode(n: Node, ghost f0: Tree, ghost c0: Ctx, ghost steps0: nat) returns (cut: Node, ghost steps: nat)
      requires Valid() && Zip(f0, c0) && f0.Bin? && n == f0.cell.node && Plug(c0, f0) == tree
      requires steps0 + Height(f0) <= Height(tree) + 1
      modifies this, nodes
      ensures Valid() && Contents() == old(Contents()) - {Key32(f0.cell.key)}
      ensures cut in old(nodes) && nodes == old(nodes) - {cut}
      ensures rotations <= old(rotations) + 3
      ensures steps <= Height(old(tree))
    {
      ghost var f, c := f0, c0;
      cut, steps := n, steps0;
      Here(f, c);
      if n.left != null && n.right != null {
        cut, f, c, steps := CopyPredecessor(n, f0, c0, steps0);
      } else {
        DeleteHere(tree, f, c);
      }
      UnlinkAndSettle(cut, f, c);
    }

    method UnlinkAndSettle(n: Node, ghost f: Tree, ghost c: Ctx)
      requires Zip(f, c) && OneChild(f) && n == RootOf(f) && RedBlack(Plug(c, f)) && Searchable(Unlinked(f, c))
      modifies this, nodes
      ensures Valid() && tree == Unlinked(f, c)
      ensures n in old(nodes) && nodes == old(nodes) - {n}
      ensures rotations <= old(rotations) + 3
    {
      Here(f, c);
      Unlink(n, f, c);
      Settle(Unlinked(f, c));
    }

    /** The node's key and value are replaced by those of its predecessor, which is to be deleted instead. */
    method CopyPredecessor(n: Node, ghost f: Tree, ghost c: Ctx, ghost steps0: nat)
      returns (pred: Node, ghost g: Tree, ghost c': Ctx, ghost steps: nat)
      requires Zip(f, c) && f.Bin? && n == f.cell.node && f.left.Bin?
      requires Searchable(tree) && Plug(c, f) == tree && steps0 + Height(f) <= Height(tree) + 1
      modifies nodes`key, nodes`value
      ensures rotations == old(rotations)
      ensures Zip(g, c') && pred == RootOf(g) && OneChild(g) && RedBlack(Plug(c', g))
      ensures Searchable(Unlinked(g, c'))
      ensures ContentsOf(Inorder(Unlinked(g, c'))) == Contents() - {Key32(f.cell.key)}
      ensures steps <= Height(tree)
    {
      ghost var m := Snapshot(nodes);
      Here(f, c);
      MoveUp(f.left, Under(c, L, f.cell, f.right));
      pred, steps := MaximumNode(n.left, f.left, Under(c, L, f.cell, f.right));
      steps := steps0 + steps;
      n.key := pred.key;
      n.value := pred.value;
      g := MaxFocus(f.left);
      ghost var f' := CopyInto(f, g.cell);
      RefilledHolds(m, Snapshot(nodes), f, c, f'.cell);
      MoveUp(f.left, Under(c, L, f'.cell, f.right));
      c' := MaxCtx(f.left, Under(c, L, f'.cell, f.right));
      MaxZip(f.left, Under(c, L, f'.cell, f.right));
      Copied(f, c, g, c');
      DeletePredecessor(tree, f, c, g, c');
    }

    /** The second half of `rbtree_delete`: a node with at most one child is cut out. */
    method Unlink(n: Node, ghost f: Tree, ghost c: Ctx)
      requires Zip(f, c) && OneChild(f) && n == f.cell.node && RedBlack(Plug(c, f))
      modifies this`root, this`nodes, this`rotations, nodes`left, nodes`right, nodes`parent, nodes`color
      ensures Zip(Unlinked(f, c), Top)
      ensures nodes == old(nodes) - {n}
      ensures rotations <= old(rotations) + 3
    {
      Here(f, c);
      assert n.left == null || n.right == null;
      var child := if n.right == null then n.left else n.right;
      ghost var t := OnlyChild(f);
      ghost var g, d := FillDeficit(n, child, f, c);
      Cut(n, child, g, d);
      PlugZip(d, t);
      if n.parent == null && child != null {
        SetColor(child, BLACK, t, d);
      }
    }

    /** If a black node is about to be cut out, the delete cases make up for it beforehand. */
    method FillDeficit(n: Node, child: Node?, ghost f: Tree, ghost c: Ctx) returns (ghost g: Tree, ghost d: Ctx)
      requires Zip(f, c) && OneChild(f) && n == f.cell.node && RedBlack(Plug(c, f)) && child == RootOf(OnlyChild(f))
      modifies this`root, this`rotations, nodes`left, nodes`right, nodes`parent, nodes`color
      ensures d == AroundUnlinked(f, c) && Zip(g, d)
      ensures OneChild(g) && OnlyChild(g) == OnlyChild(f) && g.cell.node == n
      ensures rotations <= old(rotations) + 3
    {
      g, d := f, c;
      Here(f, c);
      Below(f, c);
      if NodeColor(n) == BLACK {
        ghost var t := OnlyChild(f);
        BlackUnlinkIsShort(f, c);
        SetColor(n, NodeColor(child), f, c);
        g := Paint(f, ColorOf(t));
        DeleteCase1(n, g, c, BH(t));
        d := RbCases.DeleteCase1(c, BH(t));
      }
    }

    /** `replace_node(t, n, child)`; `n` is no longer a node of the tree, and may be freed. */
    method Cut(n: Node, child: Node?, ghost f: Tree, ghost c: Ctx)
      requires Zip(f, c) && OneChild(f) && n == f.cell.node && child == RootOf(OnlyChild(f))
      modifies this`root, this`nodes, nodes`left, nodes`right, nodes`parent
      ensures rotations == old(rotations)
      ensures Zip(OnlyChild(f), c)
      ensures nodes == old(nodes) - {n}
      ensures n.parent == ParentOf(c)
    {
      ghost var m := Snapshot(nodes);
      CutSite(m, f, c);
      ReplaceNode(n, child);
      AfterCut(m, f, c);
      nodes := nodes - {n};
    }

    lemma AfterCut(m: Memory, f: Tree, c: Ctx)
      requires OneChild(f) && ZipDistinct(f, c) && HoldsZip(m, f, c) && m.Keys == nodes == Nodes(f) + CtxNodes(c)
      requires Replaced(m, Snapshot(nodes), f.cell.node, RootOf(OnlyChild(f)))
      ensures var rest := nodes - {f.cell.node};
        && rest == Nodes(OnlyChild(f)) + CtxNodes(c)
        && ZipDistinct(OnlyChild(f), c) && HoldsZip(Snapshot(rest), OnlyChild(f), c)
    {
      CutSite(m, f, c);
      CutHolds(m, Snapshot(nodes), f, c);
      FrameZip(Snapshot(nodes), Snapshot(nodes - {f.cell.node}), OnlyChild(f), c);
    }
  }
}
