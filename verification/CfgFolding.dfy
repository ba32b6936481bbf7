/** What constant folding saves, and which expressions have a value at all. */
module CfgFolding {
  import opened CfgLang
  import opened CfgMachine
  import opened CfgLowering
  import opened CfgCorrect
  import opened Options

  // ---------------------------------------------------------------- void expressions

  /** A void expression never yields a value: it throws, or something in it has thrown before. */
  lemma {:induction false} VoidRaises(w: World, e: Expr, tr: seq<nat>)
    requires !HasValue(e)
    ensures Eval(w, e, tr).out.Raised?
    decreases e
  {
    match e
    case Paren(a) => VoidRaises(w, a, tr);
    case Cond(c, a, b) =>
      var x := Eval(w, c, tr);
      if x.out.Val? {
        VoidRaises(w, if x.out.v != 0 then a else b, x.trace);
      }
    case _ =>
  }

  /** The emitter has a value for an expression exactly when the expression is not void, also where the arm that a
      folded condition selects is. */
  lemma {:induction false} ValueUnlessVoid(k: Oracles, w: World, g: Graph, e: Expr)
    requires Sound(k, w) && Ready(g)
    ensures Value(k, g, e).1.Some? <==> HasValue(e)
    decreases e, 1
  {
    match e
    case Paren(a) => ValueUnlessVoid(k, w, g, a);
    case Cond(c, a, b) =>
      if k.fold(c).Some? {
        ValueUnlessVoid(k, w, g, if k.fold(c).value != 0 then a else b);
      } else if k.cheap(a) && k.cheap(b) {
        SelectUnlessVoid(k, w, g, e, c, a, b);
      } else {
        DiamondUnlessVoid(k, w, g, e, c, a, b);
      }
    case _ =>
  }

  /** An arm that can be evaluated without effects is not void. */
  lemma SelectUnlessVoid(k: Oracles, w: World, g: Graph, e: Expr, c: Expr, a: Expr, b: Expr)
    requires Sound(k, w) && Ready(g) && c < e && a < e && b < e && k.cheap(a)
    ensures SelectValue(k, g, e, c, a, b).1.Some? && HasValue(a)
    decreases e, 0
  {
    var (g1, x) := Bool(k, g, c);
    assert Eval(w, a, []).out.Val?;
    if !HasValue(a) {
      VoidRaises(w, a, []);
    }
    ValueUnlessVoid(k, w, g1, a);
  }

  lemma DiamondUnlessVoid(k: Oracles, w: World, g: Graph, e: Expr, c: Expr, a: Expr, b: Expr)
    requires Sound(k, w) && Ready(g) && c < e && a < e && b < e
    ensures Diamond(k, g, e, c, a, b).1.Some? <==> HasValue(a) || HasValue(b)
    decreases e, 0
  {
    var p := EmitArms(k, g, e, c, a, b);
    FirstArmUnlessVoid(k, w, g, e, c, a, b, p);
    SecondArmUnlessVoid(k, w, g, e, c, a, b, p);
    JoinUnlessVoid(k, g, e, c, a, b, p);
  }

  lemma JoinUnlessVoid(k: Oracles, g: Graph, e: Expr, c: Expr, a: Expr, b: Expr, p: Arms)
    requires Ready(g) && c < e && a < e && b < e && p == EmitArms(k, g, e, c, a, b)
    ensures Diamond(k, g, e, c, a, b).1.Some? <==> p.x.Some? || p.y.Some?
  {
  }

  lemma FirstArmUnlessVoid(k: Oracles, w: World, g: Graph, e: Expr, c: Expr, a: Expr, b: Expr, p: Arms)
    requires Sound(k, w) && Ready(g) && c < e && a < e && b < e && p == EmitArms(k, g, e, c, a, b)
    ensures p.x.Some? <==> HasValue(a)
    decreases a, 7
  {
    var h1 := FirstArmStarts(g, p);
    ArmUnlessVoid(k, w, p.g1, |g.blocks|, a, p.x);
  }

  lemma SecondArmUnlessVoid(k: Oracles, w: World, g: Graph, e: Expr, c: Expr, a: Expr, b: Expr, p: Arms)
    requires Sound(k, w) && Ready(g) && c < e && a < e && b < e && p == EmitArms(k, g, e, c, a, b)
    ensures p.y.Some? <==> HasValue(b)
    decreases b, 7
  {
    var t2, h2 := SecondArmStarts(g, p);
    ArmUnlessVoid(k, w, t2, |g.blocks| + 1, b, p.y);
  }

  lemma ArmUnlessVoid(k: Oracles, w: World, g: Graph, b: nat, e: Expr, x: Result)
    requires Sound(k, w) && Wf(g) && Ready(Place(g, b)) && x == ValueIn(k, g, b, e).1
    ensures x.Some? <==> HasValue(e)
    decreases e, 6
  {
    ValueUnlessVoid(k, w, Place(g, b), e);
  }

  /** `true ? throw 1 : 5` has type `int`: its value is undefined, but it has one. */
  lemma FoldedThrow(k: Oracles, g: Graph, id: nat)
    requires Ready(g) && k.fold(Lit(1)) == Some(1)
    ensures Value(k, g, Cond(Lit(1), Throw(id), Lit(5))).1 == Some(Undef)
    ensures Value(k, g, Cond(Lit(1), Throw(id), Throw(id))).1 == None && Value(k, g, Throw(id)).1 == None
  {
    assert Value(k, g, Throw(id)).1 == None;
    assert HasValue(Lit(5)) && !HasValue(Throw(id));
  }

  // ---------------------------------------------------------------- no control flow

  /** All operators of a condition have an operand that folds and does not decide. */
  predicate OneOperand(k: Oracles, e: Expr) {
    match e
    case Paren(a) => OneOperand(k, a)
    case Not(a) => OneOperand(k, a)
    case And(a, b) =>
      if k.fold(a).Some? && k.fold(a).value != 0 then OneOperand(k, b)
      else k.fold(b).Some? && k.fold(b).value != 0 && OneOperand(k, a)
    case Or(a, b) =>
      if k.fold(a).Some? && k.fold(a).value == 0 then OneOperand(k, b)
      else k.fold(b).Some? && k.fold(b).value == 0 && OneOperand(k, a)
    case Cond(_, _, _) => false
    case _ => true
  }

  /** Branching on such a condition ends the insertion block and creates no other. */
  lemma {:induction false} NoBlockForCondition(k: Oracles, g: Graph, e: Expr, yes: nat, no: nat)
    requires Ready(g) && OneOperand(k, e)
    ensures |Branch(k, g, e, yes, no).blocks| == |g.blocks| && Branch(k, g, e, yes, no).cur == g.cur
    decreases e
  {
    match e
    case Paren(a) => NoBlockForCondition(k, g, a, yes, no);
    case Not(a) => NoBlockForCondition(k, g, a, no, yes);
    case And(a, b) =>
      NoBlockForCondition(k, g, if k.fold(a).Some? && k.fold(a).value != 0 then b else a, yes, no);
    case Or(a, b) =>
      NoBlockForCondition(k, g, if k.fold(a).Some? && k.fold(a).value == 0 then b else a, yes, no);
    case Lit(v) => NoBlockForBranch(k, g, e, yes, no);
    case Leaf(id) => NoBlockForBranch(k, g, e, yes, no);
    case Throw(_) =>
  }

  lemma NoBlockForBranch(k: Oracles, g: Graph, e: Expr, yes: nat, no: nat)
    requires Ready(g) && (e.Lit? || e.Leaf?)
    ensures |BranchOnValue(k, g, e, yes, no).blocks| == |g.blocks| && BranchOnValue(k, g, e, yes, no).cur == g.cur
  {
    assert |Value(k, g, e).0.blocks| == |g.blocks| && Value(k, g, e).0.cur == g.cur;
    assert |Bool(k, g, e).0.blocks| == |g.blocks| && Bool(k, g, e).0.cur == g.cur;
  }

  /** Every operator has a first operand that folds, or is a conditional whose arms are cheap. */
  predicate Straight(k: Oracles, e: Expr) {
    match e
    case Paren(a) => Straight(k, a)
    case Not(a) => Straight(k, a)
    case And(a, b) => k.fold(a).Some? && (k.fold(a).value == 0 || Straight(k, b))
    case Or(a, b) => k.fold(a).Some? && (k.fold(a).value != 0 || Straight(k, b))
    case Cond(c, a, b) =>
      if k.fold(c).Some? then Straight(k, if k.fold(c).value != 0 then a else b)
      else k.cheap(a) && k.cheap(b) && Straight(k, c) && Straight(k, a) && Straight(k, b)
    case Throw(_) => false
    case _ => true
  }

  /** The value of such an expression is emitted into one block. */
  lemma {:induction false} NoBlockForValue(k: Oracles, g: Graph, e: Expr)
    requires Ready(g) && Straight(k, e)
    ensures |Value(k, g, e).0.blocks| == |g.blocks| && Value(k, g, e).0.cur == g.cur
    decreases e
  {
    match e
    case Paren(a) => NoBlockForValue(k, g, a);
    case Not(a) => NoBlockForValue(k, g, a);
    case And(a, b) =>
      if k.fold(a).value != 0 {
        NoBlockForValue(k, g, b);
      }
    case Or(a, b) =>
      if k.fold(a).value == 0 {
        NoBlockForValue(k, g, b);
      }
    case Cond(c, a, b) =>
      if k.fold(c).Some? {
        NoBlockForValue(k, g, if k.fold(c).value != 0 then a else b);
      } else {
        NoBlockForSelect(k, g, e, c, a, b);
      }
    case _ =>
  }

  lemma NoBlockForSelect(k: Oracles, g: Graph, e: Expr, c: Expr, a: Expr, b: Expr)
    requires Ready(g) && c < e && a < e && b < e && Straight(k, c) && Straight(k, a) && Straight(k, b)
    ensures |SelectValue(k, g, e, c, a, b).0.blocks| == |g.blocks| && SelectValue(k, g, e, c, a, b).0.cur == g.cur
    decreases e, 0
  {
    var (g1, x) := Bool(k, g, c);
    var (g2, y) := Value(k, g1, a);
    NoBlockForValue(k, g, c);
    NoBlockForValue(k, g1, a);
    NoBlockForValue(k, g2, b);
  }
}
