/** Conditions as the language defines them: C++11 sections 5.3.1, 5.14, 5.15, 5.16 and 15.1. */
module CfgLang {

  import opened Options

  /** Scalar expressions that short-circuit. A `Leaf` is any other expression, with effects; a `Lit`
      is a constant. */
  datatype Expr =
    | Lit(v: int)
    | Leaf(id: nat)
    | Paren(sub: Expr)
    | Not(sub: Expr)
    | And(lhs: Expr, rhs: Expr)
    | Or(lhs: Expr, rhs: Expr)
    | Cond(c: Expr, yes: Expr, no: Expr)
    | Throw(id: nat)

  /** What a leaf does, given the leaves that have been evaluated before it. */
  datatype LeafResult = Yields(v: int) | Raises

  type World = (nat, seq<nat>) -> LeafResult

  datatype Outcome = Val(v: int) | Raised

  /** The outcome, and every effectful leaf evaluated so far, in order. */
  datatype Eff = Eff(out: Outcome, trace: seq<nat>)

  function Truth(b: bool): int {
    if b then 1 else 0
  }

  function Eval(w: World, e: Expr, tr: seq<nat>): Eff {
    match e
    case Lit(v) => Eff(Val(v), tr)
    case Leaf(id) =>
      (match w(id, tr)
       case Yields(v) => Eff(Val(v), tr + [id])
       case Raises => Eff(Raised, tr + [id]))
    case Paren(a) => Eval(w, a, tr)
    case Not(a) =>
      var x := Eval(w, a, tr);
      if x.out.Raised? then x else Eff(Val(Truth(x.out.v == 0)), x.trace)
    case And(a, b) =>
      var x := Eval(w, a, tr);
      if x.out.Raised? then x
      else if x.out.v == 0 then Eff(Val(0), x.trace)
      else AsBool(Eval(w, b, x.trace))
    case Or(a, b) =>
      var x := Eval(w, a, tr);
      if x.out.Raised? then x
      else if x.out.v != 0 then Eff(Val(1), x.trace)
      else AsBool(Eval(w, b, x.trace))
    case Cond(c, a, b) =>
      var x := Eval(w, c, tr);
      if x.out.Raised? then x
      else if x.out.v != 0 then Eval(w, a, x.trace)
      else Eval(w, b, x.trace)
    case Throw(id) => Eff(Raised, tr + [id])
  }

  function AsBool(x: Eff): Eff {
    if x.out.Raised? then x else Eff(Val(Truth(x.out.v != 0)), x.trace)
  }

  /** C++11 sections 5.3.1, 5.14 and 5.15: the operators are conditionals with a `bool` result. */
  lemma OperatorsAreConditionals(w: World, a: Expr, b: Expr, tr: seq<nat>)
    ensures Eval(w, And(a, b), tr) == Eval(w, Cond(a, Cond(b, Lit(1), Lit(0)), Lit(0)), tr)
    ensures Eval(w, Or(a, b), tr) == Eval(w, Cond(a, Lit(1), Cond(b, Lit(1), Lit(0))), tr)
    ensures Eval(w, Not(a), tr) == Eval(w, Cond(a, Lit(0), Lit(1)), tr)
    ensures Eval(w, Paren(a), tr) == Eval(w, a, tr)
  {
    if Eval(w, a, tr).out.Val? {
      var x := Eval(w, b, Eval(w, a, tr).trace);
      assert Eval(w, Cond(b, Lit(1), Lit(0)), Eval(w, a, tr).trace) == AsBool(x);
    }
  }

  /** Section 5.16: the condition comes first and once, and selects one arm; what throws ends the evaluation. */
  lemma ConditionalsSelect(w: World, c: Expr, x: Expr, y: Expr, a: Expr, b: Expr, v: int, id: nat, tr: seq<nat>)
    ensures Eval(w, Cond(Lit(v), a, b), tr) == Eval(w, if v != 0 then a else b, tr)
    ensures Eval(w, Cond(Cond(c, x, y), a, b), tr) == Eval(w, Cond(c, Cond(x, a, b), Cond(y, a, b)), tr)
    ensures Eval(w, Cond(Throw(id), a, b), tr) == Eff(Raised, tr + [id])
    ensures Eval(w, Cond(Leaf(id), Lit(v), Lit(v)), tr) ==
      if w(id, tr).Raises? then Eff(Raised, tr + [id]) else Eff(Val(v), tr + [id])
  {
    assert Eval(w, Cond(x, a, b), Eval(w, c, tr).trace) == Eval(w, Cond(x, a, b), Eval(w, c, tr).trace);
  }

  /** A throw-expression has type void, and so has a conditional between two of them. */
  predicate HasValue(e: Expr) {
    match e
    case Throw(_) => false
    case Paren(a) => HasValue(a)
    case Cond(_, a, b) => HasValue(a) || HasValue(b)
    case _ => true
  }

  /** What the constant evaluator answers: `fold` for `ConstantFoldsToSimpleInteger`, `cheap` for
      `isEvaluatable`. */
  datatype Oracles = Oracles(fold: Expr -> Option<int>, cheap: Expr -> bool)

  /** Whatever folds has that value and no effects; whatever is evaluatable has no effects. */
  ghost predicate Sound(k: Oracles, w: World) {
    && (forall e, tr :: k.fold(e).Some? ==> Eval(w, e, tr) == Eff(Val(k.fold(e).value), tr))
    && (forall e, tr :: k.cheap(e) ==> Eval(w, e, tr).out.Val? && Eval(w, e, tr).trace == tr)
  }
}
