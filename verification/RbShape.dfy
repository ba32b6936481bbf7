/** The nodes of the tree as they lie in memory (`hextype_rbtree.h`), and the two ghost pictures of
    them used by every proof: a `Tree` for what hangs below a pointer, and a `Ctx` for everything
    around a position in the tree. */
module RbShape {

  /** A `void*` on a 64-bit target. */
  type Ptr = p: int | 0 <= p < 0x1_0000_0000_0000_0000

  const NULL: Ptr := 0

  datatype Color = RED | BLACK

  /** `struct rbtree_node_t`. */
  class Node {
    var key: Ptr
    var value: Ptr
    var left: Node?
    var right: Node?
    var parent: Node?
    var color: Color

    /** Memory as `malloc` hands it out: the fields hold anything. */
    constructor () {
    }
  }

  /** The contents of one node, links excepted. */
  datatype Cell = Cell(node: Node, color: Color, key: Ptr, value: Ptr)

  /** A cell without its colour: what recolouring and rotation must keep. */
  datatype Entry = Entry(node: Node, key: Ptr, value: Ptr)

  function EntryOf(x: Cell): Entry {
    Entry(x.node, x.key, x.value)
  }

  datatype Tree = Nil | Bin(left: Tree, cell: Cell, right: Tree)

  datatype Side = L | R

  function Flip(s: Side): Side {
    if s == L then R else L
  }

  /** The tree with a hole. `Under(up, side, cell, sib)`: the hole is the `side` child of `cell`,
      whose other child is `sib`, and `up` is what surrounds `cell`. */
  datatype Ctx = Top | Under(up: Ctx, side: Side, cell: Cell, sib: Tree)

  // Left-right symmetric access: `near` lies on the given side, `far` on the other.

  function Mk(side: Side, near: Tree, cell: Cell, far: Tree): Tree {
    if side == L then Bin(near, cell, far) else Bin(far, cell, near)
  }

  function Near(side: Side, t: Tree): Tree
    requires t.Bin?
  {
    if side == L then t.left else t.right
  }

  function Far(side: Side, t: Tree): Tree
    requires t.Bin?
  {
    if side == L then t.right else t.left
  }

  function Paint(t: Tree, color: Color): Tree
    requires t.Bin?
  {
    t.(cell := t.cell.(color := color))
  }

  /** Fill the hole of `c` with `f`. */
  function Plug(c: Ctx, f: Tree): Tree {
    match c
    case Top => f
    case Under(up, side, x, sib) => Plug(up, Mk(side, f, x, sib))
  }

  // ---------------------------------------------------------------- red-black shape

  /** `node_color`: a null pointer counts as black. */
  function ColorOf(t: Tree): Color {
    if t.Nil? then BLACK else t.cell.color
  }

  function Weight(x: Cell): nat {
    if x.color == BLACK then 1 else 0
  }

  /** Number of black nodes on the leftmost path. */
  function BH(t: Tree): nat {
    match t
    case Nil => 0
    case Bin(l, x, _) => BH(l) + Weight(x)
  }

  /** Every path from the root to a null pointer has the same number of black nodes. */
  predicate Even(t: Tree) {
    t.Bin? ==> Even(t.left) && Even(t.right) && BH(t.left) == BH(t.right)
  }

  /** No red node has a red child. */
  predicate RedOk(t: Tree) {
    t.Bin? ==>
      && RedOk(t.left) && RedOk(t.right)
      && (t.cell.color == RED ==> ColorOf(t.left) == BLACK && ColorOf(t.right) == BLACK)
  }

  predicate RedBlack(t: Tree) {
    ColorOf(t) == BLACK && RedOk(t) && Even(t)
  }

  /** `c` is balanced once its hole holds a subtree of black height `h`. */
  predicate CtxEven(c: Ctx, h: nat) {
    match c
    case Top => true
    case Under(up, _, x, sib) => Even(sib) && BH(sib) == h && CtxEven(up, h + Weight(x))
  }

  /** No red node of `c` has a red child or no parent; the hole is not looked at. */
  predicate CtxRedOk(c: Ctx) {
    match c
    case Top => true
    case Under(up, _, x, sib) =>
      && CtxRedOk(up) && RedOk(sib)
      && (x.color == RED ==> ColorOf(sib) == BLACK && BlackParent(up))
  }

  /** The hole of `c` has a parent, and it is black: a red node may go there. */
  predicate BlackParent(c: Ctx) {
    c.Under? && c.cell.color == BLACK
  }

  /** The zipper form of `RedBlack`. */
  predicate ZipRedBlack(f: Tree, c: Ctx) {
    && Even(f) && RedOk(f) && CtxEven(c, BH(f)) && CtxRedOk(c)
    && (ColorOf(f) == RED ==> BlackParent(c))
  }

  lemma {:induction false} PlugRedBlack(c: Ctx, f: Tree)
    ensures RedBlack(Plug(c, f)) <==> ZipRedBlack(f, c)
  {
    match c
    case Top =>
    case Under(up, side, x, sib) =>
      PlugRedBlack(up, Mk(side, f, x, sib));
      if !(Even(f) && Even(sib) && BH(sib) == BH(f)) {
        assert !Even(Mk(side, f, x, sib));
      }
  }

  // ---------------------------------------------------------------- contents in order

  function Inorder(t: Tree): seq<Entry> {
    match t
    case Nil => []
    case Bin(l, x, r) => Inorder(l) + [EntryOf(x)] + Inorder(r)
  }

  /** What precedes the hole of `c`, and what follows it. */
  function Before(c: Ctx): seq<Entry> {
    match c
    case Top => []
    case Under(up, side, x, sib) => if side == L then Before(up) else Before(up) + Inorder(sib) + [EntryOf(x)]
  }

  function After(c: Ctx): seq<Entry> {
    match c
    case Top => []
    case Under(up, side, x, sib) => if side == R then After(up) else [EntryOf(x)] + Inorder(sib) + After(up)
  }

  lemma Regroup<T>(a: seq<T>, b: seq<T>, x: seq<T>, d: seq<T>, e: seq<T>)
    ensures a + (b + x + d) + e == a + b + (x + d + e)
    ensures a + (b + x + d) + e == (a + b + x) + d + e
  {
  }

  lemma {:induction false} PlugInorder(c: Ctx, f: Tree)
    ensures Inorder(Plug(c, f)) == Before(c) + Inorder(f) + After(c)
  {
    match c
    case Top =>
    case Under(up, side, x, sib) =>
      PlugInorder(up, Mk(side, f, x, sib));
      if side == L {
        Regroup(Before(up), Inorder(f), [EntryOf(x)], Inorder(sib), After(up));
      } else {
        Regroup(Before(up), Inorder(sib), [EntryOf(x)], Inorder(f), After(up));
      }
  }

  // ---------------------------------------------------------------- node identities

  ghost function Nodes(t: Tree): set<Node> {
    match t
    case Nil => {}
    case Bin(l, x, r) => Nodes(l) + {x.node} + Nodes(r)
  }

  ghost function CtxNodes(c: Ctx): set<Node> {
    match c
    case Top => {}
    case Under(up, _, x, sib) => CtxNodes(up) + {x.node} + Nodes(sib)
  }

  /** No node occurs twice. */
  ghost predicate Distinct(t: Tree) {
    t.Bin? ==>
      && Distinct(t.left) && Distinct(t.right)
      && t.cell.node !in Nodes(t.left) && t.cell.node !in Nodes(t.right)
      && Nodes(t.left) !! Nodes(t.right)
  }

  ghost predicate CtxDistinct(c: Ctx) {
    c.Under? ==>
      && CtxDistinct(c.up) && Distinct(c.sib)
      && c.cell.node !in CtxNodes(c.up) && c.cell.node !in Nodes(c.sib)
      && Nodes(c.sib) !! CtxNodes(c.up)
  }
}
