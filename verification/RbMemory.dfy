/** When a piece of memory holds a given tree. Memory is a map from nodes to their fields, so that
    everything about pointers is settled here, away from the heap. */
module RbMemory {
  import opened RbShape
  import opened RbMap

  datatype Fields = Fields(key: Ptr, value: Ptr, left: Node?, right: Node?, parent: Node?, color: Color)

  type Memory = map<Node, Fields>

  ghost function Snapshot(s: set<Node>): (m: Memory)
    reads s
    ensures m.Keys == s
  {
    map n | n in s :: Fields(n.key, n.value, n.left, n.right, n.parent, n.color)
  }

  function RootOf(t: Tree): Node? {
    if t.Nil? then null else t.cell.node
  }

  function ParentOf(c: Ctx): Node? {
    if c.Top? then null else c.cell.node
  }

  /** The root pointer of a tree whose hole in `c` holds the pointer `n`. */
  function RootAt(c: Ctx, n: Node?): Node? {
    if c.Top? then n else RootAt(c.up, c.cell.node)
  }

  function FieldsOf(x: Cell, side: Side, near: Node?, far: Node?, parent: Node?): Fields {
    Fields(x.key, x.value, if side == L then near else far, if side == L then far else near, parent, x.color)
  }

  /** Memory `m` holds the tree `t` below the parent pointer `p`. */
  ghost predicate Holds(m: Memory, t: Tree, p: Node?) {
    match t
    case Nil => true
    case Bin(l, x, r) =>
      && x.node in m && m[x.node] == FieldsOf(x, L, RootOf(l), RootOf(r), p)
      && Holds(m, l, x.node) && Holds(m, r, x.node)
  }

  /** Memory `m` holds the surroundings `c` of the pointer `n`. */
  ghost predicate HoldsCtx(m: Memory, c: Ctx, n: Node?) {
    match c
    case Top => true
    case Under(up, side, x, sib) =>
      && x.node in m && m[x.node] == FieldsOf(x, side, n, RootOf(sib), ParentOf(up))
      && Holds(m, sib, x.node) && HoldsCtx(m, up, x.node)
  }

  ghost predicate HoldsZip(m: Memory, f: Tree, c: Ctx) {
    Holds(m, f, ParentOf(c)) && HoldsCtx(m, c, RootOf(f))
  }

  ghost predicate Agree(m: Memory, m': Memory, s: set<Node>) {
    forall n :: n in s && n in m ==> n in m' && m'[n] == m[n]
  }

  lemma {:induction false} Frame(m: Memory, m': Memory, t: Tree, p: Node?)
    requires Holds(m, t, p) && Agree(m, m', Nodes(t))
    ensures Holds(m', t, p)
  {
    if t.Bin? {
      Frame(m, m', t.left, t.cell.node);
      Frame(m, m', t.right, t.cell.node);
    }
  }

  lemma {:induction false} FrameCtx(m: Memory, m': Memory, c: Ctx, n: Node?)
    requires HoldsCtx(m, c, n) && Agree(m, m', CtxNodes(c))
    ensures HoldsCtx(m', c, n)
  {
    if c.Under? {
      Frame(m, m', c.sib, c.cell.node);
      FrameCtx(m, m', c.up, c.cell.node);
    }
  }

  lemma FrameZip(m: Memory, m': Memory, f: Tree, c: Ctx)
    requires HoldsZip(m, f, c) && Agree(m, m', Nodes(f) + CtxNodes(c))
    ensures HoldsZip(m', f, c)
  {
    Frame(m, m', f, ParentOf(c));
    FrameCtx(m, m', c, RootOf(f));
  }

  /** A subtree given a new parent. */
  lemma FrameReparented(m: Memory, m': Memory, t: Tree, p: Node?, p': Node?)
    requires Holds(m, t, p) && Distinct(t)
    requires t.Bin? ==> Agree(m, m', Nodes(t) - {t.cell.node})
    requires t.Bin? ==> t.cell.node in m' && m'[t.cell.node] == m[t.cell.node].(parent := p')
    ensures Holds(m', t, p')
  {
    if t.Bin? {
      Frame(m, m', t.left, t.cell.node);
      Frame(m, m', t.right, t.cell.node);
    }
  }

  // ---------------------------------------------------------------- node identities

  ghost predicate ZipDistinct(f: Tree, c: Ctx) {
    Distinct(f) && CtxDistinct(c) && Nodes(f) !! CtxNodes(c)
  }

  /** The nodes of a subtree about to be rotated, taken apart. */
  ghost predicate Apart(a: Tree, x: Cell, b: Tree, y: Cell, d: Tree, c: Ctx) {
    && Distinct(a) && Distinct(b) && Distinct(d) && CtxDistinct(c)
    && x.node != y.node
    && x.node !in Nodes(a) + Nodes(b) + Nodes(d) + CtxNodes(c)
    && y.node !in Nodes(a) + Nodes(b) + Nodes(d) + CtxNodes(c)
    && Nodes(a) !! Nodes(b) !! Nodes(d) !! CtxNodes(c)
  }

  lemma TakeApart(s: Side, a: Tree, x: Cell, b: Tree, y: Cell, d: Tree, c: Ctx)
    requires ZipDistinct(Mk(s, a, x, Mk(s, b, y, d)), c)
    ensures Apart(a, x, b, y, d, c)
    ensures Nodes(Mk(s, a, x, Mk(s, b, y, d))) == Nodes(a) + Nodes(b) + Nodes(d) + {x.node, y.node}
  {
    var t := Mk(s, b, y, d);
    assert Nodes(t) == Nodes(b) + {y.node} + Nodes(d);
    assert Distinct(t);
  }

  lemma PutTogether(s: Side, a: Tree, x: Cell, b: Tree, y: Cell, d: Tree, c: Ctx)
    requires Apart(a, x, b, y, d, c)
    ensures ZipDistinct(Mk(s, a, x, Mk(s, b, y, d)), c)
    ensures Nodes(Mk(s, a, x, Mk(s, b, y, d))) == Nodes(a) + Nodes(b) + Nodes(d) + {x.node, y.node}
  {
    var t := Mk(s, b, y, d);
    assert Nodes(t) == Nodes(b) + {y.node} + Nodes(d);
    assert Distinct(t) && x.node !in Nodes(t);
    assert Nodes(Mk(s, a, x, t)) == Nodes(a) + {x.node} + Nodes(t);
  }

  lemma SameUnion(a: set<Node>, b: set<Node>, d: set<Node>, x: Node, y: Node)
    ensures a + b + d + {x, y} == d + b + a + {y, x}
  {
  }

  lemma RotationKeepsDistinct(s: Side, a: Tree, x: Cell, b: Tree, y: Cell, d: Tree, c: Ctx)
    requires ZipDistinct(Mk(s, a, x, Mk(s, b, y, d)), c)
    ensures ZipDistinct(Mk(s, Mk(s, a, x, b), y, d), c)
    ensures Nodes(Mk(s, Mk(s, a, x, b), y, d)) == Nodes(Mk(s, a, x, Mk(s, b, y, d)))
  {
    TakeApart(s, a, x, b, y, d, c);
    PutTogether(Flip(s), d, y, b, x, a, c);
    SameUnion(Nodes(a), Nodes(b), Nodes(d), x.node, y.node);
    assert Mk(s, Mk(s, a, x, b), y, d) == Mk(Flip(s), d, y, Mk(Flip(s), b, x, a));
  }

  // ---------------------------------------------------------------- steps

  /** Moving the focus between a node and one of its children changes nothing in memory. */
  lemma Move(m: Memory, f: Tree, c: Ctx)
    requires c.Under?
    ensures HoldsZip(m, f, c) <==> HoldsZip(m, Mk(c.side, f, c.cell, c.sib), c.up)
    ensures ZipDistinct(f, c) <==> ZipDistinct(Mk(c.side, f, c.cell, c.sib), c.up)
    ensures Nodes(f) + CtxNodes(c) == Nodes(Mk(c.side, f, c.cell, c.sib)) + CtxNodes(c.up)
    ensures RootAt(c, RootOf(f)) == RootAt(c.up, c.cell.node)
  {
    assert Nodes(Mk(c.side, f, c.cell, c.sib)) == Nodes(f) + {c.cell.node} + Nodes(c.sib);
  }

  /** The surroundings after the pointer in their hole has been replaced. */
  ghost predicate Relinked(m: Memory, m': Memory, c: Ctx, n: Node?, n': Node?) {
    c.Under? ==>
      && c.cell.node in m && c.cell.node in m'
      && m'[c.cell.node] ==
         (if c.side == L then m[c.cell.node].(left := n') else m[c.cell.node].(right := n'))
  }

  lemma RelinkedHolds(m: Memory, m': Memory, c: Ctx, n: Node?, n': Node?)
    requires HoldsCtx(m, c, n) && CtxDistinct(c) && Relinked(m, m', c, n, n')
    requires c.Under? ==> Agree(m, m', CtxNodes(c) - {c.cell.node})
    ensures HoldsCtx(m', c, n')
  {
    if c.Under? {
      Frame(m, m', c.sib, c.cell.node);
      FrameCtx(m, m', c.up, c.cell.node);
    }
  }

  /** `replace_node`: the fields of `k` after `newn` has taken the place of `oldn` below its parent. */
  function FieldsReplaced(m: Memory, oldn: Node, newn: Node?, k: Node): Fields
    requires oldn in m && k in m
  {
    var p := m[oldn].parent;
    m[k].(parent := if k == newn then p else m[k].parent,
          left := if k == p && m[k].left == oldn then newn else m[k].left,
          right := if k == p && m[k].left != oldn then newn else m[k].right)
  }

  ghost predicate Replaced(m: Memory, m': Memory, oldn: Node, newn: Node?) {
    oldn in m && m'.Keys == m.Keys && forall k :: k in m ==> m'[k] == FieldsReplaced(m, oldn, newn, k)
  }

  /** `rotate_left` (side `L`) and `rotate_right` (side `R`): the child of `n` on the other side takes
      the place of `n`, `n` becomes its child, and the subtree between them changes parent. */
  ghost predicate Rotated(m: Memory, m': Memory, s: Side, n: Node) {
    && n in m && m'.Keys == m.Keys
    && var r := if s == L then m[n].right else m[n].left;
    && r in m
    && var moved := if s == L then m[r].left else m[r].right;
    && forall k :: k in m ==> m'[k] == FieldsRotated(m, s, n, r, moved, k)
  }

  /** `n` has taken over the near child of `r` and become that itself. */
  function FieldsSwung(m: Memory, s: Side, n: Node, r: Node, k: Node): Fields
    requires r in m && k in m
  {
    var moved := if s == L then m[r].left else m[r].right;
    var f := m[k].(parent := if k == n then r else if k == moved then n else m[k].parent);
    if s == L then f.(left := if k == r then n else f.left, right := if k == n then moved else f.right)
    else f.(right := if k == r then n else f.right, left := if k == n then moved else f.left)
  }

  ghost predicate Swung(m: Memory, m': Memory, s: Side, n: Node, r: Node) {
    r in m && m'.Keys == m.Keys && forall k :: k in m ==> m'[k] == FieldsSwung(m, s, n, r, k)
  }

  /** Together that is a rotation. */
  lemma SwingRotates(m: Memory, m1: Memory, m': Memory, s: Side, n: Node, r: Node)
    requires n in m && r in m && r == (if s == L then m[n].right else m[n].left)
    requires var p, moved := m[n].parent, if s == L then m[r].left else m[r].right;
      r != n && r != p && p != n && (moved != null ==> moved != n && moved != r && moved != p)
    requires Replaced(m, m1, n, r) && Swung(m1, m', s, n, r)
    ensures Rotated(m, m', s, n)
  {
    var moved := if s == L then m[r].left else m[r].right;
    forall k | k in m ensures m'[k] == FieldsRotated(m, s, n, r, moved, k) {
      assert m1[k] == FieldsReplaced(m, n, r, k) && m1[r] == FieldsReplaced(m, n, r, r);
    }
  }

  function FieldsRotated(m: Memory, s: Side, n: Node, r: Node, moved: Node?, k: Node): Fields
    requires n in m && k in m
  {
    if k == n then
      if s == L then m[k].(right := moved, parent := r) else m[k].(left := moved, parent := r)
    else if k == r then
      if s == L then m[k].(left := n, parent := m[n].parent) else m[k].(right := n, parent := m[n].parent)
    else if k == moved then
      m[k].(parent := n)
    else if k == m[n].parent then
      if m[k].left == n then m[k].(left := r) else m[k].(right := r)
    else
      m[k]
  }

  lemma RotatedLeavesRest(m: Memory, m': Memory, s: Side, a: Tree, x: Cell, b: Tree, y: Cell, d: Tree, c: Ctx)
    requires Apart(a, x, b, y, d, c)
    requires x.node in m && m[x.node].parent == ParentOf(c)
    requires y.node in m && y.node == if s == L then m[x.node].right else m[x.node].left
    requires RootOf(b) == if s == L then m[y.node].left else m[y.node].right
    requires Rotated(m, m', s, x.node)
    ensures Agree(m, m', Nodes(a)) && Agree(m, m', Nodes(d))
    ensures b.Bin? ==> Agree(m, m', Nodes(b) - {b.cell.node})
    ensures c.Under? ==> Agree(m, m', CtxNodes(c) - {c.cell.node})
  {
    var head := if c.Top? then {} else {c.cell.node};
    assert head <= CtxNodes(c);
    assert b.Bin? ==> b.cell.node in Nodes(b);
  }

  /** `rotate_left` (side `L`) or `rotate_right` (side `R`) of the node at the top of `f`. */
  function Rotate(s: Side, f: Tree): Tree
    requires f.Bin? && Far(s, f).Bin?
  {
    var g := Far(s, f);
    Mk(s, Mk(s, Near(s, f), f.cell, Near(s, g)), g.cell, Far(s, g))
  }

  /** The unmoved parts of a rotated tree, found again afterwards. */
  lemma RotatedParts(m: Memory, m': Memory, s: Side, a: Tree, x: Cell, b: Tree, y: Cell, d: Tree, c: Ctx)
    requires Apart(a, x, b, y, d, c) && HoldsZip(m, Mk(s, a, x, Mk(s, b, y, d)), c)
    requires Rotated(m, m', s, x.node)
    ensures Holds(m', a, x.node) && Holds(m', b, x.node) && Holds(m', d, y.node) && HoldsCtx(m', c, y.node)
  {
    assert Holds(m, Mk(s, b, y, d), x.node);
    RotatedLeavesRest(m, m', s, a, x, b, y, d, c);
    Frame(m, m', a, x.node);
    Frame(m, m', d, y.node);
    FrameReparented(m, m', b, y.node, x.node);
    RelinkedHolds(m, m', c, x.node, y.node);
  }

  /** A rotation in memory is a rotation of the picture. */
  lemma RotationHolds(m: Memory, m': Memory, s: Side, f: Tree, c: Ctx)
    requires f.Bin? && Far(s, f).Bin? && ZipDistinct(f, c) && HoldsZip(m, f, c)
    requires Rotated(m, m', s, f.cell.node)
    ensures HoldsZip(m', Rotate(s, f), c)
    ensures ZipDistinct(Rotate(s, f), c) && Nodes(Rotate(s, f)) == Nodes(f)
  {
    var g := Far(s, f);
    var a, x, b, y, d := Near(s, f), f.cell, Near(s, g), g.cell, Far(s, g);
    assert Holds(m, g, x.node);
    TakeApart(s, a, x, b, y, d, c);
    RotationKeepsDistinct(s, a, x, b, y, d, c);
    RotatedParts(m, m', s, a, x, b, y, d, c);
    assert Holds(m', Mk(s, a, x, b), y.node);
  }

  /** `t` with its child on side `s` repainted. */
  function PaintChild(s: Side, t: Tree, color: Color): Tree
    requires t.Bin? && Near(s, t).Bin?
  {
    Mk(s, Paint(Near(s, t), color), t.cell, Far(s, t))
  }

  /** The surroundings of the sibling of `f`. */
  function Across(f: Tree, c: Ctx): Ctx
    requires c.Under?
  {
    Under(c.up, Flip(c.side), c.cell, f)
  }

  /** New contents for the node in focus; its links stay. */
  lemma RefilledHolds(m: Memory, m': Memory, f: Tree, c: Ctx, x: Cell)
    requires f.Bin? && x.node == f.cell.node && ZipDistinct(f, c) && HoldsZip(m, f, c)
    requires Agree(m, m', m.Keys - {x.node})
    requires x.node in m && x.node in m'
    requires m'[x.node] == m[x.node].(key := x.key, value := x.value, color := x.color)
    ensures ZipDistinct(f.(cell := x), c) && HoldsZip(m', f.(cell := x), c)
    ensures Nodes(f.(cell := x)) == Nodes(f)
  {
    Frame(m, m', f.left, x.node);
    Frame(m, m', f.right, x.node);
    FrameCtx(m, m', c, x.node);
  }

  /** A new leaf in the hole of `c`. */
  lemma LeafHolds(m: Memory, m': Memory, c: Ctx, x: Cell)
    requires CtxDistinct(c) && HoldsCtx(m, c, x.node) && x.node !in CtxNodes(c)
    requires Agree(m, m', CtxNodes(c))
    requires x.node in m' && m'[x.node] == FieldsOf(x, L, null, null, ParentOf(c))
    ensures HoldsZip(m', Bin(Nil, x, Nil), c) && ZipDistinct(Bin(Nil, x, Nil), c)
    ensures Nodes(Bin(Nil, x, Nil)) == {x.node}
  {
    FrameCtx(m, m', c, x.node);
  }

  predicate OneChild(f: Tree) {
    f.Bin? && (f.left.Nil? || f.right.Nil?)
  }

  function OnlyChild(f: Tree): Tree
    requires OneChild(f)
  {
    if f.right.Nil? then f.left else f.right
  }

  lemma CutSite(m: Memory, f: Tree, c: Ctx)
    requires OneChild(f) && ZipDistinct(f, c) && HoldsZip(m, f, c)
    ensures var n, child := f.cell.node, RootOf(OnlyChild(f));
      && n in m && m[n].parent == ParentOf(c) && n != child && n != ParentOf(c)
      && (c.Under? ==> c.cell.node in m && c.cell.node != child)
      && (child != null ==> child in m)
    ensures Nodes(OnlyChild(f)) + CtxNodes(c) == Nodes(f) + CtxNodes(c) - {f.cell.node}
  {
    var t := OnlyChild(f);
    assert t.Bin? ==> t.cell.node in Nodes(t);
    assert Nodes(f) == Nodes(t) + {f.cell.node};
    assert Holds(m, t, f.cell.node);
  }

  /** A node with at most one child cut out of the picture. */
  lemma CutHolds(m: Memory, m': Memory, f: Tree, c: Ctx)
    requires OneChild(f) && ZipDistinct(f, c) && HoldsZip(m, f, c) && f.cell.node in m
    requires Replaced(m, m', f.cell.node, RootOf(OnlyChild(f)))
    ensures ZipDistinct(OnlyChild(f), c) && HoldsZip(m', OnlyChild(f), c)
  {
    var t, n := OnlyChild(f), f.cell.node;
    assert t.Bin? ==> t.cell.node in Nodes(t);
    assert c.Under? ==> c.cell.node in CtxNodes(c);
    assert Holds(m, t, n);
    FrameReparented(m, m', t, n, ParentOf(c));
    RelinkedHolds(m, m', c, n, RootOf(t));
  }

  /** Nothing has changed but the values of nodes with the key `k`. */
  ghost predicate OnlyValueAt(m: Memory, m': Memory, k: int) {
    m.Keys == m'.Keys &&
    forall n :: n in m ==> m'[n] == m[n] || (Key32(m[n].key) == k && m'[n] == m[n].(value := m'[n].value))
  }
}
