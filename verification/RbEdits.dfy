/** Searching, adding, overwriting and unlinking, on pictures of trees: what each does to the
    red-black properties, to the search order and to the map that the tree stands for. */
module RbEdits {
  import opened RbShape
  import opened RbCases
  import opened RbMap
  import opened RbMemory

  // ---------------------------------------------------------------- searching

  ghost predicate Searchable(t: Tree) {
    RedBlack(t) && Sorted(Inorder(t))
  }

  /** `f` is a subtree of `t`, and the key `k` can be nowhere else. */
  ghost predicate SearchAt(t: Tree, k: int, f: Tree, c: Ctx) {
    Plug(c, f) == t && AllBelow(Before(c), k) && AllAbove(k, After(c))
  }

  /** The entries to the left and to the right of the node in focus. */
  lemma Split(f: Tree, c: Ctx)
    requires f.Bin?
    ensures Inorder(Plug(c, f)) == Left(f, c) + [EntryOf(f.cell)] + Right(f, c)
  {
    PlugInorder(c, f);
    Regroup4(Before(c), Inorder(f.left), [EntryOf(f.cell)], Inorder(f.right), After(c));
  }

  function Left(f: Tree, c: Ctx): seq<Entry>
    requires f.Bin?
  {
    Before(c) + Inorder(f.left)
  }

  function Right(f: Tree, c: Ctx): seq<Entry>
    requires f.Bin?
  {
    Inorder(f.right) + After(c)
  }

  lemma Regroup4<T>(a: seq<T>, b: seq<T>, x: seq<T>, d: seq<T>, e: seq<T>)
    ensures a + (b + x + d) + e == (a + b) + x + (d + e)
  {
  }

  lemma SplitNil(c: Ctx)
    ensures Inorder(Plug(c, Nil)) == Before(c) + After(c)
  {
    PlugInorder(c, Nil);
    assert Before(c) + [] == Before(c);
  }

  lemma SearchStep(t: Tree, k: int, f: Tree, c: Ctx)
    requires Sorted(Inorder(t)) && SearchAt(t, k, f, c) && f.Bin?
    ensures k < Key32(f.cell.key) ==> SearchAt(t, k, f.left, Under(c, L, f.cell, f.right))
    ensures Key32(f.cell.key) < k ==> SearchAt(t, k, f.right, Under(c, R, f.cell, f.left))
  {
    Split(f, c);
    EntryInside(Inorder(t), Left(f, c), EntryOf(f.cell), Right(f, c));
  }

  /** Where a search ends decides whether the key is in the map, and with which value. */
  lemma SearchEnds(t: Tree, k: int, f: Tree, c: Ctx)
    requires Sorted(Inorder(t)) && SearchAt(t, k, f, c)
    ensures f.Nil? ==> k !in ContentsOf(Inorder(t))
    ensures f.Bin? && Key32(f.cell.key) == k ==>
      k in ContentsOf(Inorder(t)) && ContentsOf(Inorder(t))[k] == f.cell.value
  {
    if f.Nil? {
      SplitNil(c);
      MissingKey(Before(c), After(c), k);
    } else {
      Split(f, c);
      EntryInside(Inorder(t), Left(f, c), EntryOf(f.cell), Right(f, c));
    }
  }

  // ---------------------------------------------------------------- adding and overwriting

  lemma LeafFocus(t: Tree, c: Ctx, x: Cell)
    requires RedBlack(t) && Plug(c, Nil) == t && x.color == RED
    ensures RedFocus(Bin(Nil, x, Nil), c)
  {
    PlugRedBlack(c, Nil);
  }

  lemma AddLeaf(t: Tree, c: Ctx, x: Cell)
    requires Searchable(t) && SearchAt(t, Key32(x.key), Nil, c) && RedFocus(Bin(Nil, x, Nil), c)
    ensures var u := InsertCase1(Bin(Nil, x, Nil), c);
      Searchable(u) && ContentsOf(Inorder(u)) == ContentsOf(Inorder(t))[Key32(x.key) := x.value]
  {
    var f := Bin(Nil, x, Nil);
    InsertRestores(f, c);
    InsertKeepsOrder(f, c);
    PlugInorder(c, f);
    assert Inorder(f) == [EntryOf(x)];
    SplitNil(c);
    EntryAdded(Inorder(t), Inorder(Plug(c, f)), Before(c), EntryOf(x), After(c));
  }

  /** `f` with another value in its root. */
  function Revalued(f: Tree, value: Ptr): Tree
    requires f.Bin?
  {
    f.(cell := f.cell.(value := value))
  }

  lemma Overwrite(t: Tree, f: Tree, c: Ctx, value: Ptr)
    requires Searchable(t) && Plug(c, f) == t && f.Bin?
    ensures var u := Plug(c, Revalued(f, value));
      Searchable(u) && ContentsOf(Inorder(u)) == ContentsOf(Inorder(t))[Key32(f.cell.key) := value]
  {
    var g := Revalued(f, value);
    PlugRedBlack(c, f);
    PlugRedBlack(c, g);
    Split(f, c);
    Split(g, c);
    EntryReplaced(Inorder(t), Inorder(Plug(c, g)), Left(f, c), EntryOf(f.cell), EntryOf(g.cell), Right(f, c));
  }

  // ---------------------------------------------------------------- the predecessor

  /** The rightmost node of `t`, with what hangs below it, and its surroundings. */
  function MaxFocus(t: Tree): (f: Tree)
    requires t.Bin?
    ensures f.Bin? && f.right.Nil?
  {
    if t.right.Nil? then t else MaxFocus(t.right)
  }

  function MaxCtx(t: Tree, c: Ctx): Ctx
    requires t.Bin?
  {
    if t.right.Nil? then c else MaxCtx(t.right, Under(c, R, t.cell, t.left))
  }

  lemma {:induction false} MaxPlug(t: Tree, c: Ctx)
    requires t.Bin?
    ensures Plug(MaxCtx(t, c), MaxFocus(t)) == Plug(c, t)
    ensures After(MaxCtx(t, c)) == After(c)
  {
    if t.right.Bin? {
      MaxPlug(t.right, Under(c, R, t.cell, t.left));
    }
  }

  /** `f` with the key and value of another cell copied into its root. */
  function CopyInto(f: Tree, x: Cell): Tree
    requires f.Bin?
  {
    f.(cell := f.cell.(key := x.key, value := x.value))
  }

  // ---------------------------------------------------------------- unlinking

  lemma BlackUnlinkIsShort(f: Tree, c: Ctx)
    requires RedBlack(Plug(c, f)) && OneChild(f) && f.cell.color == BLACK
    ensures Short(c, BH(OnlyChild(f)))
  {
    PlugRedBlack(c, f);
  }

  /** The surroundings of the node on top of `f` when it is cut out: as they were if it is red,
      after the delete cases if it is black. */
  ghost function AroundUnlinked(f: Tree, c: Ctx): Ctx
    requires RedBlack(Plug(c, f)) && OneChild(f)
  {
    if f.cell.color == RED then c else
      BlackUnlinkIsShort(f, c);
      DeleteCase1(c, BH(OnlyChild(f)))
  }

  /** The whole tree after that, with a root that has been painted black. */
  ghost function Unlinked(f: Tree, c: Ctx): Tree
    requires RedBlack(Plug(c, f)) && OneChild(f)
  {
    var child, d := OnlyChild(f), AroundUnlinked(f, c);
    if d.Top? && child.Bin? then Paint(child, BLACK) else Plug(d, child)
  }

  lemma UnlinkRestores(f: Tree, c: Ctx)
    requires RedBlack(Plug(c, f)) && OneChild(f)
    ensures RedBlack(Unlinked(f, c))
  {
    PlugRedBlack(c, f);
    var child := OnlyChild(f);
    assert Even(child) && RedOk(child);
    if f.cell.color == RED {
      PlugRedBlack(c, child);
    } else {
      BlackUnlinkIsShort(f, c);
      DeleteRestores(c, BH(child));
      var c' := DeleteCase1(c, BH(child));
      if c'.Under? {
        PlugRedBlack(c', child);
      } else if child.Bin? {
        assert RedOk(Paint(child, BLACK)) && Even(Paint(child, BLACK));
      }
    }
  }

  lemma UnlinkOrder(f: Tree, c: Ctx)
    requires RedBlack(Plug(c, f)) && OneChild(f)
    ensures Inorder(Unlinked(f, c)) == Left(f, c) + Right(f, c)
  {
    var child := OnlyChild(f);
    assert Before(c) + Inorder(child) + After(c) == Left(f, c) + Right(f, c);
    PlugInorder(c, child);
    if f.cell.color == BLACK {
      BlackUnlinkIsShort(f, c);
      DeleteKeepsOrder(c, BH(child));
      DeleteRestores(c, BH(child));
      PlugInorder(DeleteCase1(c, BH(child)), child);
    }
  }

  /** Deleting a node with at most one child. */
  lemma DeleteHere(t: Tree, f: Tree, c: Ctx)
    requires Searchable(t) && Plug(c, f) == t && OneChild(f)
    ensures Searchable(Unlinked(f, c))
    ensures ContentsOf(Inorder(Unlinked(f, c))) == ContentsOf(Inorder(t)) - {Key32(f.cell.key)}
  {
    UnlinkRestores(f, c);
    UnlinkOrder(f, c);
    Split(f, c);
    EntryInside(Inorder(t), Left(f, c), EntryOf(f.cell), Right(f, c));
  }

  /** The predecessor of a node with two children, after its key and value have been copied upwards. */
  lemma Copied(f: Tree, c: Ctx, g: Tree, c': Ctx)
    requires RedBlack(Plug(c, f)) && f.Bin? && f.left.Bin? && g == MaxFocus(f.left)
    requires c' == MaxCtx(f.left, Under(c, L, CopyInto(f, g.cell).cell, f.right))
    ensures Plug(c', g) == Plug(c, CopyInto(f, g.cell)) && RedBlack(Plug(c', g))
    ensures Left(f, c) == Left(g, c') + [EntryOf(g.cell)]
    ensures Right(g, c') == [EntryOf(CopyInto(f, g.cell).cell)] + Right(f, c)
  {
    var f' := CopyInto(f, g.cell);
    MaxPlug(f.left, Under(c, L, f'.cell, f.right));
    PlugRedBlack(c, f);
    PlugRedBlack(c, f');
    Split(f', c);
    Split(g, c');
    var x := EntryOf(f'.cell);
    assert Right(g, c') == [x] + Right(f, c);
    SplitAgrees(Left(f, c), Left(g, c') + [EntryOf(g.cell)], x, Right(f, c));
  }

  /** Deleting a node with two children: its predecessor is copied into it and unlinked instead. */
  lemma DeletePredecessor(t: Tree, f: Tree, c: Ctx, g: Tree, c': Ctx)
    requires Searchable(t) && Plug(c, f) == t && f.Bin? && f.left.Bin? && g == MaxFocus(f.left)
    requires c' == MaxCtx(f.left, Under(c, L, CopyInto(f, g.cell).cell, f.right))
    requires RedBlack(Plug(c', g))
    ensures Searchable(Unlinked(g, c'))
    ensures ContentsOf(Inorder(Unlinked(g, c'))) == ContentsOf(Inorder(t)) - {Key32(f.cell.key)}
  {
    Copied(f, c, g, c');
    UnlinkRestores(g, c');
    UnlinkOrder(g, c');
    Split(f, c);
    EntryMovedUp(Inorder(t), Inorder(Unlinked(g, c')), Left(g, c'),
      EntryOf(g.cell), EntryOf(f.cell), EntryOf(CopyInto(f, g.cell).cell), Right(f, c));
  }
}
