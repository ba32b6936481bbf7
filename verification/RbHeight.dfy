/** How high a red-black tree can be. */
module RbHeight {
  import opened Arithmetic
  import opened RbShape

  function Max(a: nat, b: nat): nat {
    if a < b then b else a
  }

  function Height(t: Tree): nat {
    if t.Nil? then 0 else 1 + Max(Height(t.left), Height(t.right))
  }

  function Size(t: Tree): nat {
    if t.Nil? then 0 else Size(t.left) + 1 + Size(t.right)
  }

  lemma {:induction false} ManyNodes(t: Tree)
    requires Even(t)
    ensures Pow2(BH(t)) <= Size(t) + 1
  {
    if t.Bin? {
      ManyNodes(t.left);
      ManyNodes(t.right);
    }
  }

  lemma {:induction false} NoTwoReds(t: Tree)
    requires Even(t) && RedOk(t)
    ensures Height(t) <= 2 * BH(t) + if ColorOf(t) == RED then 1 else 0
  {
    if t.Bin? {
      NoTwoReds(t.left);
      NoTwoReds(t.right);
    }
  }

  /** Height is at most 2 * log2(n + 1). */
  lemma HeightBound(t: Tree)
    requires RedBlack(t)
    ensures Pow2(Height(t)) <= (Size(t) + 1) * (Size(t) + 1)
  {
    ManyNodes(t);
    NoTwoReds(t);
    Pow2Monotone(Height(t), BH(t) + BH(t));
    Pow2Add(BH(t), BH(t));
    Square(Pow2(BH(t)), Size(t) + 1);
  }

  lemma Square(a: nat, b: nat)
    requires a <= b
    ensures a * a <= b * b
  {
  }

  lemma {:induction false} SizeIsNodeCount(t: Tree)
    requires Distinct(t)
    ensures |Nodes(t)| == Size(t)
  {
    if t.Bin? {
      SizeIsNodeCount(t.left);
      SizeIsNodeCount(t.right);
      assert |Nodes(t.left) + {t.cell.node}| == Size(t.left) + 1;
      assert Nodes(t) == Nodes(t.left) + {t.cell.node} + Nodes(t.right);
    }
  }

  function Depth(c: Ctx): nat {
    if c.Top? then 0 else 1 + Depth(c.up)
  }

  lemma {:induction false} DepthPlusHeight(c: Ctx, f: Tree)
    ensures Depth(c) + Height(f) <= Height(Plug(c, f))
  {
    if c.Under? {
      DepthPlusHeight(c.up, Mk(c.side, f, c.cell, c.sib));
    }
  }
}
