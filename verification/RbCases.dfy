/** What the insertion and deletion cases of `hextype_rbtree.cc` do to the shape of the tree, and
    why that keeps it a red-black tree with the same contents in the same order.

    A deletion case never looks inside the subtree it is called on (the doomed node stays in place
    while the cases run), so deletion is a function on the surroundings of that subtree alone. */
module RbCases {
  import opened RbShape
  import opened RbHeight

  // ---------------------------------------------------------------- insertion

  /** `f` is a fresh or recoloured red root; apart from it and its parent both being red,
      everything is in order. */
  predicate RedFocus(f: Tree, c: Ctx) {
    && ColorOf(f) == RED && RedOk(f) && Even(f)
    && CtxEven(c, BH(f)) && CtxRedOk(c)
  }

  /** What `insert_case3` may rely on: there is a grandparent, it is black, and the subtrees beside
      the path are balanced and as high as `f`. */
  lemma RedParent(f: Tree, c: Ctx)
    requires RedFocus(f, c) && c.Under? && c.cell.color == RED
    ensures c.up.Under? && c.up.cell.color == BLACK
    ensures ColorOf(c.sib) == BLACK && RedOk(c.sib) && Even(c.sib) && BH(c.sib) == BH(f)
    ensures RedOk(c.up.sib) && Even(c.up.sib) && BH(c.up.sib) == BH(f)
    ensures CtxEven(c.up.up, BH(f) + 1) && CtxRedOk(c.up.up)
  {
    assert CtxEven(c.up, BH(f)) && CtxRedOk(c.up);
  }

  ghost function InsertCase1(f: Tree, c: Ctx): Tree
    requires RedFocus(f, c)
    decreases c, 5
  {
    if c.Top? then Paint(f, BLACK) else InsertCase2(f, c)
  }

  ghost function InsertCase2(f: Tree, c: Ctx): Tree
    requires RedFocus(f, c) && c.Under?
    decreases c, 4
  {
    if c.cell.color == BLACK then Plug(c, f) else InsertCase3(f, c)
  }

  /** The parent is red, so there is a grandparent; `c.up.sib` is the uncle. */
  ghost function InsertCase3(f: Tree, c: Ctx): Tree
    requires RedFocus(f, c) && c.Under? && c.cell.color == RED
    decreases c, 3
  {
    RedParent(f, c);
    if ColorOf(c.up.sib) == RED then
      assert RedFocus(Recoloured(f, c), c.up.up) by { RecolouredFocus(f, c); }
      InsertCase1(Recoloured(f, c), c.up.up)
    else
      InsertCase4(f, c)
  }

  /** The grandparent after case 3 has made it red and both its children black. */
  function Recoloured(f: Tree, c: Ctx): Tree
    requires c.Under? && c.up.Under? && c.up.sib.Bin?
  {
    var parent := Mk(c.side, f, c.cell.(color := BLACK), c.sib);
    Mk(c.up.side, parent, c.up.cell.(color := RED), Paint(c.up.sib, BLACK))
  }

  lemma RecolouredFocus(f: Tree, c: Ctx)
    requires RedFocus(f, c) && c.Under? && c.cell.color == RED
    requires c.up.Under? && ColorOf(c.up.sib) == RED
    ensures RedFocus(Recoloured(f, c), c.up.up)
  {
    RedParent(f, c);
    var parent := Mk(c.side, f, c.cell.(color := BLACK), c.sib);
    var uncle := Paint(c.up.sib, BLACK);
    assert RedOk(parent) && Even(parent) && BH(parent) == BH(f) + 1;
    assert RedOk(uncle) && Even(uncle) && BH(uncle) == BH(f) + 1;
  }

  /** If `f` is an inner grandchild, rotate its parent outwards and go on with that parent. */
  ghost function InsertCase4(f: Tree, c: Ctx): Tree
    requires RedFocus(f, c) && c.Under? && c.cell.color == RED
    requires c.up.Under? && ColorOf(c.up.sib) == BLACK
  {
    if c.side == c.up.side then
      InsertCase5(f, c)
    else
      var out := c.up.side;
      InsertCase5(Mk(out, c.sib, c.cell, Near(out, f)), Under(c.up, out, f.cell, Far(out, f)))
  }

  /** Rotate the grandparent away from `f`. */
  ghost function InsertCase5(f: Tree, c: Ctx): Tree
    requires c.Under? && c.up.Under?
  {
    var far := Mk(c.side, c.sib, c.up.cell.(color := RED), c.up.sib);
    Plug(c.up.up, Mk(c.side, f, c.cell.(color := BLACK), far))
  }

  /** Insertion restores every red-black property and leaves the order alone, however far up
      the recolouring climbs. */
  lemma {:induction false} InsertRestores(f: Tree, c: Ctx)
    requires RedFocus(f, c)
    ensures RedBlack(InsertCase1(f, c))
    decreases c
  {
    if c.Top? {
    } else if c.cell.color == BLACK {
      PlugRedBlack(c, f);
    } else {
      RedParent(f, c);
      assert InsertCase1(f, c) == InsertCase2(f, c) == InsertCase3(f, c);
      if ColorOf(c.up.sib) == RED {
        RecolouredFocus(f, c);
        InsertRestores(Recoloured(f, c), c.up.up);
      } else {
        InsertRotatesRedBlack(f, c);
      }
    }
  }

  lemma InsertRotatesRedBlack(f: Tree, c: Ctx)
    requires RedFocus(f, c) && c.Under? && c.cell.color == RED
    requires c.up.Under? && ColorOf(c.up.sib) == BLACK
    ensures RedBlack(InsertCase4(f, c))
  {
    RedParent(f, c);
    var out := c.up.side;
    var g := c.up.cell.(color := RED);
    if c.side == out {
      TwoRedChildren(out, f, c.cell, c.sib, g, c.up.sib, c.up.up);
    } else {
      TwoRedChildren(out, Mk(out, c.sib, c.cell, Near(out, f)), f.cell, Far(out, f), g, c.up.sib, c.up.up);
    }
  }

  /** The final rotation of an insertion: a black node with two red children in place of the grandparent. */
  lemma TwoRedChildren(out: Side, a: Tree, x: Cell, b: Tree, g: Cell, u: Tree, c: Ctx)
    requires RedOk(a) && Even(a) && RedOk(b) && Even(b) && RedOk(u) && Even(u)
    requires BH(a) == BH(b) == BH(u) && g.color == RED && ColorOf(b) == ColorOf(u) == BLACK
    requires CtxEven(c, BH(a) + 1) && CtxRedOk(c)
    ensures RedBlack(Plug(c, Mk(out, a, x.(color := BLACK), Mk(out, b, g, u))))
  {
    var far := Mk(out, b, g, u);
    assert RedOk(far) && Even(far) && BH(far) == BH(a);
    var top := Mk(out, a, x.(color := BLACK), far);
    assert RedOk(top) && Even(top) && BH(top) == BH(a) + 1;
    PlugRedBlack(c, top);
  }

  /** A rotation, with any recolouring of the two nodes, keeps the order. */
  lemma RotationKeepsOrder(s: Side, a: Tree, x: Cell, b: Tree, y: Cell, d: Tree, x': Cell, y': Cell)
    requires EntryOf(x) == EntryOf(x') && EntryOf(y) == EntryOf(y')
    ensures Inorder(Mk(s, a, x, Mk(s, b, y, d))) == Inorder(Mk(s, Mk(s, a, x', b), y', d))
  {
    if s == L {
      assert Inorder(a) + [EntryOf(x)] + (Inorder(b) + [EntryOf(y)] + Inorder(d))
          == (Inorder(a) + [EntryOf(x)] + Inorder(b)) + [EntryOf(y)] + Inorder(d);
    } else {
      assert (Inorder(d) + [EntryOf(y)] + Inorder(b)) + [EntryOf(x)] + Inorder(a)
          == Inorder(d) + [EntryOf(y)] + (Inorder(b) + [EntryOf(x)] + Inorder(a));
    }
  }

  lemma SameOrderPlugged(c: Ctx, f: Tree, g: Tree)
    requires Inorder(f) == Inorder(g)
    ensures Inorder(Plug(c, f)) == Inorder(Plug(c, g))
  {
    PlugInorder(c, f);
    PlugInorder(c, g);
  }

  lemma {:induction false} InsertKeepsOrder(f: Tree, c: Ctx)
    requires RedFocus(f, c)
    ensures Inorder(InsertCase1(f, c)) == Inorder(Plug(c, f))
    decreases c
  {
    if c.Under? && c.cell.color == RED {
      RedParent(f, c);
      assert InsertCase1(f, c) == InsertCase2(f, c) == InsertCase3(f, c);
      if ColorOf(c.up.sib) == RED {
        RecolouredFocus(f, c);
        InsertKeepsOrder(Recoloured(f, c), c.up.up);
        var parent := Mk(c.side, f, c.cell, c.sib);
        SameOrderPlugged(c.up.up, Mk(c.up.side, parent, c.up.cell, c.up.sib), Recoloured(f, c));
      } else {
        InsertRotatesKeepOrder(f, c);
      }
    }
  }

  lemma InsertCase5KeepsOrder(f: Tree, c: Ctx)
    requires c.Under? && c.up.Under? && c.side == c.up.side
    ensures Inorder(InsertCase5(f, c)) == Inorder(Plug(c, f))
  {
    var out, p, g, u := c.side, c.cell, c.up.cell, c.up.sib;
    var black, red := p.(color := BLACK), g.(color := RED);
    RotationKeepsOrder(out, f, black, c.sib, red, u, p, g);
    SameOrderPlugged(c.up.up, Mk(out, Mk(out, f, p, c.sib), g, u), Mk(out, f, black, Mk(out, c.sib, red, u)));
  }

  lemma InsertRotatesKeepOrder(f: Tree, c: Ctx)
    requires RedFocus(f, c) && c.Under? && c.cell.color == RED
    requires c.up.Under? && ColorOf(c.up.sib) == BLACK
    ensures Inorder(InsertCase4(f, c)) == Inorder(Plug(c, f))
  {
    RedParent(f, c);
    var out, p := c.up.side, c.cell;
    if c.side == out {
      InsertCase5KeepsOrder(f, c);
    } else {
      var l, m := Near(out, f), Far(out, f);
      RotationKeepsOrder(out, c.sib, p, l, f.cell, m, p, f.cell);
      SameOrderPlugged(c.up, Mk(out, c.sib, p, f), Mk(out, Mk(out, c.sib, p, l), f.cell, m));
      InsertCase5KeepsOrder(Mk(out, c.sib, p, l), Under(c.up, out, f.cell, m));
    }
  }

  // ---------------------------------------------------------------- deletion

  /** The hole of `c` is to be filled with a subtree of black height `h`, one less than `c` needs.
      While a case runs, that subtree still holds the doomed node, which does not count. */
  predicate Short(c: Ctx, h: nat) {
    CtxEven(c, h + 1) && CtxRedOk(c)
  }

  /** The sibling is there, and so are the facts about what surrounds it. */
  lemma SiblingThere(c: Ctx, h: nat)
    requires Short(c, h) && c.Under?
    ensures c.sib.Bin? && RedOk(c.sib) && Even(c.sib) && BH(c.sib) == h + 1
    ensures CtxRedOk(c.up) && CtxEven(c.up, h + 1 + Weight(c.cell))
    ensures c.cell.color == RED ==> c.sib.cell.color == BLACK && BlackParent(c.up)
    ensures c.sib.cell.color == RED ==> c.cell.color == BLACK && c.sib.left.Bin? && c.sib.right.Bin?
  {
    if c.sib.cell.color == RED {
      assert BH(c.sib.left) == h + 1 && BH(c.sib.right) == h + 1;
    }
  }

  ghost function DeleteCase1(c: Ctx, h: nat): Ctx
    requires Short(c, h)
    decreases Depth(c), 2
  {
    if c.Top? then Top else DeleteCase2(c, h)
  }

  /** A red sibling is rotated above the parent, so that the new sibling is black. */
  ghost function DeleteCase2(c: Ctx, h: nat): Ctx
    requires Short(c, h) && c.Under?
    decreases Depth(c), 1
  {
    SiblingThere(c, h);
    if c.sib.cell.color == RED then
      RedSiblingRotated(c, h);
      DeleteCase3(SiblingRaised(c), h)
    else
      DeleteCase3(c, h)
  }

  /** The surroundings after the rotation of case 2. */
  function SiblingRaised(c: Ctx): Ctx
    requires c.Under? && c.sib.Bin?
  {
    var s := c.sib;
    var raised := Under(c.up, c.side, s.cell.(color := BLACK), Far(c.side, s));
    Under(raised, c.side, c.cell.(color := RED), Near(c.side, s))
  }

  lemma RedSiblingRotated(c: Ctx, h: nat)
    requires Short(c, h) && c.Under? && c.sib.Bin? && c.sib.cell.color == RED
    ensures Short(SiblingRaised(c), h) && ColorOf(SiblingRaised(c).sib) == BLACK
  {
    SiblingThere(c, h);
    var raised := SiblingRaised(c).up;
    assert CtxRedOk(raised) && CtxEven(raised, h + 1);
  }

  predicate BlackNephews(c: Ctx)
    requires c.Under? && c.sib.Bin?
  {
    c.sib.cell.color == BLACK && ColorOf(c.sib.left) == BLACK && ColorOf(c.sib.right) == BLACK
  }

  /** Everything black: the sibling turns red and the whole subtree of the parent is short. */
  ghost function DeleteCase3(c: Ctx, h: nat): Ctx
    requires Short(c, h) && c.Under? && ColorOf(c.sib) == BLACK
    decreases if c.cell.color == RED then 0 else Depth(c), 0
  {
    SiblingThere(c, h);
    if c.cell.color == BLACK && BlackNephews(c) then
      Under(DeleteCase1(c.up, h + 1), c.side, c.cell, Paint(c.sib, RED))
    else
      DeleteCase4(c, h)
  }

  /** Red parent, black nephews: the two colours are exchanged. */
  ghost function DeleteCase4(c: Ctx, h: nat): Ctx
    requires Short(c, h) && c.Under? && ColorOf(c.sib) == BLACK
  {
    SiblingThere(c, h);
    if BlackNephews(c) then
      Under(c.up, c.side, c.cell.(color := BLACK), Paint(c.sib, RED))
    else
      DeleteCase5(c)
  }

  /** If only the near nephew is red, rotate it above the sibling. */
  function DeleteCase5(c: Ctx): Ctx
    requires c.Under? && ColorOf(c.sib) == BLACK && c.sib.Bin? && !BlackNephews(c)
  {
    var s, near := c.sib, Near(c.side, c.sib);
    if ColorOf(Far(c.side, s)) == BLACK && ColorOf(near) == RED then
      var far := Mk(c.side, Far(c.side, near), s.cell.(color := RED), Far(c.side, s));
      DeleteCase6(c.(sib := Mk(c.side, Near(c.side, near), near.cell.(color := BLACK), far)))
    else
      DeleteCase6(c)
  }

  /** Rotate the sibling, in the parent's colour, above the parent. */
  function DeleteCase6(c: Ctx): Ctx
    requires c.Under? && c.sib.Bin? && ColorOf(Far(c.side, c.sib)) == RED
  {
    var s, far := c.sib, Far(c.side, c.sib);
    var raised := Under(c.up, c.side, s.cell.(color := c.cell.color), Paint(far, BLACK));
    Under(raised, c.side, c.cell.(color := BLACK), Near(c.side, s))
  }

  /** What the delete cases achieve: the surroundings are complete again for the subtree that was
      one black node short, and its parent, if any, is black, so that its root may be red. */
  predicate Restored(c: Ctx, h: nat) {
    CtxRedOk(c) && CtxEven(c, h) && (c.Under? ==> c.cell.color == BLACK)
  }

  lemma {:induction false} DeleteRestores(c: Ctx, h: nat)
    requires Short(c, h)
    ensures Restored(DeleteCase1(c, h), h)
    ensures DeleteCase1(c, h).Top? <==> c.Top?
    decreases c
  {
    if c.Under? {
      SiblingThere(c, h);
      assert DeleteCase1(c, h) == DeleteCase2(c, h);
      if c.sib.cell.color == RED {
        RedSiblingRotated(c, h);
        assert DeleteCase2(c, h) == DeleteCase3(SiblingRaised(c), h) == DeleteCase4(SiblingRaised(c), h);
        LocalCasesRestore(SiblingRaised(c), h);
      } else if c.cell.color == BLACK && BlackNephews(c) {
        assert DeleteCase2(c, h) == DeleteCase3(c, h);
        DeleteRestores(c.up, h + 1);
      } else {
        assert DeleteCase2(c, h) == DeleteCase3(c, h) == DeleteCase4(c, h);
        LocalCasesRestore(c, h);
      }
    }
  }

  lemma LocalCasesRestore(c: Ctx, h: nat)
    requires Short(c, h) && c.Under? && ColorOf(c.sib) == BLACK
    requires c.cell.color == RED || (c.sib.Bin? && !BlackNephews(c))
    ensures Restored(DeleteCase4(c, h), h) && DeleteCase4(c, h).Under?
  {
    SiblingThere(c, h);
    if BlackNephews(c) {
    } else {
      var s, near, far := c.sib, Near(c.side, c.sib), Far(c.side, c.sib);
      if ColorOf(far) == BLACK {
        var far' := Mk(c.side, Far(c.side, near), s.cell.(color := RED), far);
        assert RedOk(far') && Even(far') && BH(far') == h;
        Case6Restores(c.(sib := Mk(c.side, Near(c.side, near), near.cell.(color := BLACK), far')), h);
      } else {
        Case6Restores(c, h);
      }
    }
  }

  lemma Case6Restores(c: Ctx, h: nat)
    requires c.Under? && c.sib.Bin? && ColorOf(Far(c.side, c.sib)) == RED && c.sib.cell.color == BLACK
    requires CtxRedOk(c.up) && (c.cell.color == RED ==> BlackParent(c.up)) && CtxEven(c.up, h + 1 + Weight(c.cell))
    requires RedOk(Near(c.side, c.sib)) && Even(Near(c.side, c.sib)) && BH(Near(c.side, c.sib)) == h
    requires RedOk(Far(c.side, c.sib)) && Even(Far(c.side, c.sib)) && BH(Far(c.side, c.sib)) == h
    ensures Restored(DeleteCase6(c), h)
  {
    var s, far := c.sib, Paint(Far(c.side, c.sib), BLACK);
    assert RedOk(far) && Even(far) && BH(far) == h + 1;
    var raised := Under(c.up, c.side, s.cell.(color := c.cell.color), far);
    assert CtxRedOk(raised) && CtxEven(raised, h + 1);
  }

  lemma {:induction false} DeleteKeepsOrder(c: Ctx, h: nat)
    requires Short(c, h)
    ensures Before(DeleteCase1(c, h)) == Before(c) && After(DeleteCase1(c, h)) == After(c)
    decreases c
  {
    if c.Under? {
      SiblingThere(c, h);
      assert DeleteCase1(c, h) == DeleteCase2(c, h);
      if c.sib.cell.color == RED {
        RedSiblingRotated(c, h);
        assert DeleteCase2(c, h) == DeleteCase3(SiblingRaised(c), h) == DeleteCase4(SiblingRaised(c), h);
        SiblingRaisedKeepsOrder(c);
        LocalCasesKeepOrder(SiblingRaised(c), h);
      } else if c.cell.color == BLACK && BlackNephews(c) {
        assert DeleteCase2(c, h) == DeleteCase3(c, h);
        DeleteKeepsOrder(c.up, h + 1);
      } else {
        assert DeleteCase2(c, h) == DeleteCase3(c, h) == DeleteCase4(c, h);
        LocalCasesKeepOrder(c, h);
      }
    }
  }

  lemma SiblingRaisedKeepsOrder(c: Ctx)
    requires c.Under? && c.sib.Bin?
    ensures Before(SiblingRaised(c)) == Before(c) && After(SiblingRaised(c)) == After(c)
  {
    RaiseKeepsOrder(c.up, c.side, c.cell, Near(c.side, c.sib), c.sib.cell, Far(c.side, c.sib));
  }

  /** The order around a hole does not change when its sibling is rotated above its parent. */
  lemma RaiseKeepsOrder(up: Ctx, side: Side, p: Cell, near: Tree, s: Cell, far: Tree)
    ensures Before(Under(Under(up, side, s, far), side, p, near)) == Before(Under(up, side, p, Mk(side, near, s, far)))
    ensures After(Under(Under(up, side, s, far), side, p, near)) == After(Under(up, side, p, Mk(side, near, s, far)))
  {
    var a, b, x, y := Inorder(near), Inorder(far), [EntryOf(p)], [EntryOf(s)];
    if side == L {
      assert x + a + (y + b + After(up)) == x + (a + y + b) + After(up);
    } else {
      assert (Before(up) + b + y) + a + x == Before(up) + (b + y + a) + x;
    }
  }

  lemma LocalCasesKeepOrder(c: Ctx, h: nat)
    requires Short(c, h) && c.Under? && ColorOf(c.sib) == BLACK
    ensures Before(DeleteCase4(c, h)) == Before(c) && After(DeleteCase4(c, h)) == After(c)
  {
    SiblingThere(c, h);
    if BlackNephews(c) {
    } else {
      var s, near, far := c.sib, Near(c.side, c.sib), Far(c.side, c.sib);
      if ColorOf(far) == BLACK {
        var a, b, red, black := Near(c.side, near), Far(c.side, near), s.cell.(color := RED), near.cell.(color := BLACK);
        RotationKeepsOrder(c.side, a, black, b, red, far, near.cell, s.cell);
        var c' := c.(sib := Mk(c.side, a, black, Mk(c.side, b, red, far)));
        RaiseKeepsOrder(c.up, c.side, c.cell, a, black, Far(c.side, c'.sib));
      } else {
        RaiseKeepsOrder(c.up, c.side, c.cell, near, s.cell, far);
      }
    }
  }
}
