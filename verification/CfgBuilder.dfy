/** Emission as the code generator does it: blocks are created, filled and terminated in place, and the
    insertion point moves. Each method builds the graph that `CfgLowering` describes. */
module CfgBuilder {
  import opened CfgLang
  import opened CfgMachine
  import opened CfgLowering
  import opened CfgCorrect
  import opened Options

  lemma AddTwo(g: Graph)
    ensures AddBlocks(AddBlocks(g, 1), 1) == AddBlocks(g, 2)
    ensures AddBlocks(AddBlocks(g, 2), 1) == AddBlocks(g, 3)
  {
    var e := Block([], Open);
    assert seq(1, _ => e) == [e] && seq(2, _ => e) == [e, e] && seq(3, _ => e) == [e, e, e];
    assert g.blocks + [e] + [e] == g.blocks + [e, e];
    assert g.blocks + [e, e] + [e] == g.blocks + [e, e, e];
  }

  lemma SameAppend(ps: seq<nat>, qs: seq<nat>, x: Operand)
    ensures Same(ps + qs, x) == Same(ps, x) + Same(qs, x)
  {
  }

  lemma SameNext(g: Graph, b: nat, p: nat, x: Operand, ins: seq<Incoming>, more: seq<Incoming>)
    requires p < |g.blocks| && ins == Same(PredsUpTo(g, b, p), x) && more == Same(Uses(g.blocks[p].term, b, p), x)
    ensures ins + more == Same(PredsUpTo(g, b, p + 1), x)
  {
    SameAppend(PredsUpTo(g, b, p), Uses(g.blocks[p].term, b, p), x);
  }

  class Builder {
    const k: Oracles
    var blocks: seq<Block>
    var nextReg: nat
    var cur: nat

    function G(): Graph
      reads this
    {
      Graph(blocks, nextReg, cur)
    }

    method CreateBasicBlock() returns (b: nat)
      modifies this`blocks
      ensures G() == AddBlocks(old(G()), 1) && b == |old(blocks)|
    {
      b := |blocks|;
      blocks := blocks + [Block([], Open)];
      assert seq(1, _ => Block([], Open)) == [Block([], Open)];
    }

    /** Terminates the insertion block, unless it is terminated already. */
    method CreateTerminator(t: Term)
      requires Wf(G())
      modifies this`blocks
      ensures G() == Terminate(old(G()), t)
    {
      if blocks[cur].term.Open? {
        blocks := blocks[cur := blocks[cur].(term := t)];
      }
    }

    method EmitBlock(b: nat)
      requires Wf(G())
      modifies this`blocks, this`cur
      ensures G() == Place(old(G()), b)
    {
      CreateTerminator(Br(b));
      cur := b;
    }

    /** Appends an instruction that defines the next register. */
    method Insert(i: Instr)
      requires Wf(G())
      modifies this`blocks, this`nextReg
      ensures G() == Define(old(G()), i)
    {
      blocks := blocks[cur := blocks[cur].(code := blocks[cur].code + [i])];
      nextReg := nextReg + 1;
    }

    /** One entry for each step that the iteration over predecessors makes in block `p`. */
    static method EntriesFrom(p: nat, t: Term, b: nat, x: Operand) returns (ins: seq<Incoming>)
      ensures ins == Same(Uses(t, b, p), x)
    {
      ins := [];
      match t
      case Br(dest) =>
        if dest == b {
          ins := [Incoming(p, x)];
        }
      case CondBr(_, yes, no) =>
        if yes == b {
          ins := [Incoming(p, x)];
        }
        if no == b {
          ins := ins + [Incoming(p, x)];
        }
      case _ =>
    }

    /** A PHI at the start of the empty block `b`, with the entry `x` for every edge that leads to it now. */
    method CreatePhiForPreds(b: nat, x: Operand)
      requires b < |blocks|
      modifies this`blocks, this`nextReg
      ensures G() == StartPhi(old(G()), b, x)
    {
      ghost var g := G();
      var ins := [];
      for p := 0 to |blocks|
        invariant G() == g && p <= |g.blocks| && ins == Same(PredsUpTo(g, b, p), x)
      {
        var more := EntriesFrom(p, blocks[p].term, b, x);
        SameNext(g, b, p, x, ins, more);
        ins := ins + more;
      }
      blocks := blocks[b := blocks[b].(code := [Phi(nextReg, ins)])];
      nextReg := nextReg + 1;
    }

    method AddIncomingTo(b: nat, x: Operand, from: nat)
      requires b < |blocks| && |blocks[b].code| > 0 && blocks[b].code[0].Phi?
      modifies this`blocks
      ensures G() == AddIncoming(old(G()), b, x, from)
    {
      var phi := blocks[b].code[0];
      var code := blocks[b].code[0 := phi.(ins := phi.ins + [Incoming(from, x)])];
      blocks := blocks[b := blocks[b].(code := code)];
    }

    method EmitBranchOnBoolExpr(e: Expr, yes: nat, no: nat)
      requires Ready(G())
      modifies this
      ensures G() == Branch(k, old(G()), e, yes, no)
      decreases e, 5
    {
      match e
      case Paren(a) => EmitBranchOnBoolExpr(a, yes, no);
      case And(a, b) =>
        var l, r := k.fold(a), k.fold(b);
        if l.Some? && l.value != 0 {
          EmitBranchOnBoolExpr(b, yes, no);
        } else if r.Some? && r.value != 0 {
          EmitBranchOnBoolExpr(a, yes, no);
        } else {
          EmitLAndBranch(e, a, b, yes, no);
        }
      case Or(a, b) =>
        var l, r := k.fold(a), k.fold(b);
        if l.Some? && l.value == 0 {
          EmitBranchOnBoolExpr(b, yes, no);
        } else if r.Some? && r.value == 0 {
          EmitBranchOnBoolExpr(a, yes, no);
        } else {
          EmitLOrBranch(e, a, b, yes, no);
        }
      case Not(a) => EmitBranchOnBoolExpr(a, no, yes);
      case Cond(c, a, b) => EmitConditionalBranch(e, c, a, b, yes, no);
      case Throw(id) => CreateTerminator(Unwind(id));
      case _ =>
        var x := EvaluateExprAsBool(e);
        CreateTerminator(CondBr(x, yes, no));
    }

    /** `X && Y` in a condition. */
    method EmitLAndBranch(e: Expr, a: Expr, b: Expr, yes: nat, no: nat)
      requires Ready(G()) && a < e && b < e
      modifies this
      ensures G() == Chain(k, old(G()), e, a, b, true, yes, no)
      decreases e, 4
    {
      ghost var g := G();
      var lhsTrue := CreateBasicBlock();
      EmitBranchOnBoolExpr(a, lhsTrue, no);
      assert G() == ChainFirst(k, g, e, a, true, yes, no);
      EmitBranchIn(lhsTrue, b, yes, no);
    }

    /** `X || Y` in a condition. */
    method EmitLOrBranch(e: Expr, a: Expr, b: Expr, yes: nat, no: nat)
      requires Ready(G()) && a < e && b < e
      modifies this
      ensures G() == Chain(k, old(G()), e, a, b, false, yes, no)
      decreases e, 4
    {
      ghost var g := G();
      var lhsFalse := CreateBasicBlock();
      EmitBranchOnBoolExpr(a, yes, lhsFalse);
      assert G() == ChainFirst(k, g, e, a, false, yes, no);
      EmitBranchIn(lhsFalse, b, yes, no);
    }

    /** `c ? X : Y` in a condition. */
    method EmitConditionalBranch(e: Expr, c: Expr, a: Expr, b: Expr, yes: nat, no: nat)
      requires Ready(G()) && c < e && a < e && b < e
      modifies this
      ensures G() == Fork(k, old(G()), e, c, a, b, yes, no)
      decreases e, 4
    {
      ghost var g := G();
      ghost var g1, h1, g2, h2, g' := ForkParts(k, g, e, c, a, b, yes, no);
      var lhs, rhs := CreateTwoBlocks();
      EmitBranchOnBoolExpr(c, lhs, rhs);
      assert G() == g1;
      EmitBranchIn(lhs, a, yes, no);
      assert G() == g2;
      EmitBranchIn(rhs, b, yes, no);
    }

    /** A condition, emitted into the block `b`. */
    method EmitBranchIn(b: nat, e: Expr, yes: nat, no: nat)
      requires Wf(G()) && Ready(Place(G(), b))
      modifies this
      ensures G() == BranchIn(k, old(G()), b, e, yes, no)
      decreases e, 6
    {
      EmitBlock(b);
      EmitBranchOnBoolExpr(e, yes, no);
    }

    method EvaluateExprAsBool(e: Expr) returns (x: Operand)
      requires Ready(G())
      modifies this
      ensures (G(), x) == Bool(k, old(G()), e)
      decreases e, 3
    {
      var y := Visit(e);
      x := Reg(nextReg);
      Insert(IsTrue(nextReg, OrUndef(y)));
    }

    method Visit(e: Expr) returns (x: Result)
      requires Ready(G())
      modifies this
      ensures (G(), x) == Value(k, old(G()), e)
      decreases e, 2
    {
      match e
      case Lit(v) => x := Some(Imm(v));
      case Leaf(id) =>
        x := Some(Reg(nextReg));
        Insert(Call(nextReg, id));
      case Paren(a) => x := Visit(a);
      case Not(a) =>
        var y := EvaluateExprAsBool(a);
        x := Some(Reg(nextReg));
        Insert(IsFalse(nextReg, y));
      case And(a, b) => x := VisitBinLAnd(e, a, b);
      case Or(a, b) => x := VisitBinLOr(e, a, b);
      case Cond(c, a, b) => x := VisitConditional(e, c, a, b);
      case Throw(id) =>
        CreateTerminator(Unwind(id));
        var cont := CreateBasicBlock();
        EmitBlock(cont);
        x := None;
    }

    method VisitBinLAnd(e: Expr, a: Expr, b: Expr) returns (x: Result)
      requires Ready(G()) && e == And(a, b)
      modifies this
      ensures (G(), x) == Value(k, old(G()), e)
      decreases e, 1
    {
      var l := k.fold(a);
      if l.Some? {
        if l.value != 0 {
          var y := EvaluateExprAsBool(b);
          return Some(y);
        }
        return Some(Imm(0));
      }
      x := EmitShortCircuit(e, a, b, false);
    }

    method VisitBinLOr(e: Expr, a: Expr, b: Expr) returns (x: Result)
      requires Ready(G()) && e == Or(a, b)
      modifies this
      ensures (G(), x) == Value(k, old(G()), e)
      decreases e, 1
    {
      var l := k.fold(a);
      if l.Some? {
        if l.value == 0 {
          var y := EvaluateExprAsBool(b);
          return Some(y);
        }
        return Some(Imm(1));
      }
      x := EmitShortCircuit(e, a, b, true);
    }

    /** `&&` and `||` with a join block: `stop` is the value of the first operand that decides. */
    method EmitShortCircuit(e: Expr, a: Expr, b: Expr, stop: bool) returns (x: Result)
      requires Ready(G()) && a < e && b < e
      modifies this
      ensures (G(), x) == ShortCircuit(k, old(G()), e, a, b, stop)
      decreases e, 0
    {
      var join, rhs := EmitFirstOperand(e, a, stop);
      x := EmitSecondOperand(b, join, rhs, Truth(stop));
    }

    /** The blocks and the first operand, which jumps to the join block if it decides. */
    method EmitFirstOperand(e: Expr, a: Expr, stop: bool) returns (join: nat, rhs: nat)
      requires Ready(G()) && a < e
      modifies this
      ensures G() == BranchShort(k, old(G()), e, a, stop) && join == |old(blocks)| && rhs == |old(blocks)| + 1
      ensures rhs < |blocks| && blocks[join] == Block([], Open) && blocks[rhs] == Block([], Open)
      decreases a, 8
    {
      join, rhs := CreateTwoBlocks();
      ghost var g1 := G();
      if stop {
        EmitBranchOnBoolExpr(a, join, rhs);
      } else {
        EmitBranchOnBoolExpr(a, rhs, join);
      }
      StillEmpty(g1, G(), join);
      StillEmpty(g1, G(), rhs);
    }

    /** After the first operand: the PHI with its constant, the second operand, and the join. */
    method EmitSecondOperand(b: Expr, join: nat, rhs: nat, c: int) returns (x: Result)
      requires Closed(G()) && join < |blocks| && rhs < |blocks| && join != rhs
      requires blocks[join] == Block([], Open) && blocks[rhs] == Block([], Open)
      modifies this
      ensures var h := Place(StartPhi(old(G()), join, Imm(c)), rhs);
        && Ready(h)
        && var (g4, y) := Bool(k, h, b);
        && join < |g4.blocks| && |Place(g4, join).blocks[join].code| > 0 && Place(g4, join).blocks[join].code[0].Phi?
        && G() == AddIncoming(Place(g4, join), join, y, g4.cur) && x == Some(Reg(old(nextReg)))
      decreases b, 8
    {
      var phi := nextReg;
      CreatePhiForPreds(join, Imm(c));
      EmitBlock(rhs);
      var y := EvaluateExprAsBool(b);
      var from := cur;
      EmitBlock(join);
      AddIncomingTo(join, y, from);
      x := Some(Reg(phi));
    }

    method VisitConditional(e: Expr, c: Expr, a: Expr, b: Expr) returns (x: Result)
      requires Ready(G()) && e == Cond(c, a, b)
      modifies this
      ensures (G(), x) == Value(k, old(G()), e)
      decreases e, 1
    {
      var f := k.fold(c);
      if f.Some? {
        x := Visit(if f.value != 0 then a else b);
        if x.None? && HasValue(e) {
          x := Some(Undef);
        }
        return;
      }
      if k.cheap(a) && k.cheap(b) {
        x := EmitSelect(e, c, a, b);
      } else {
        x := EmitDiamond(e, c, a, b);
      }
    }

    method EmitSelect(e: Expr, c: Expr, a: Expr, b: Expr) returns (x: Result)
      requires Ready(G()) && c < e && a < e && b < e
      modifies this
      ensures (G(), x) == SelectValue(k, old(G()), e, c, a, b)
      decreases e, 0
    {
      var v := EvaluateExprAsBool(c);
      var y := Visit(a);
      var z := Visit(b);
      x := EmitChoose(v, y, z);
    }

    method EmitChoose(v: Operand, y: Result, z: Result) returns (x: Result)
      requires Ready(G())
      modifies this
      ensures (G(), x) == Choose(old(G()), v, y, z)
    {
      if y.None? {
        return None;
      }
      x := Some(Reg(nextReg));
      Insert(Select(nextReg, v, y.value, OrUndef(z)));
    }

    /** The part of the conditional operator that needs a join block. */
    method EmitDiamond(e: Expr, c: Expr, a: Expr, b: Expr) returns (x: Result)
      requires Ready(G()) && c < e && a < e && b < e
      modifies this
      ensures (G(), x) == Diamond(k, old(G()), e, c, a, b)
      decreases e, 0, 2
    {
      ghost var p := EmitArms(k, G(), e, c, a, b);
      var y, z, lhs, rhs, join := EmitBothArms(e, c, a, b);
      EmitBlock(join);
      x := EmitJoin(y, lhs, z, rhs);
    }

    /** The condition and the arms, each in its own block; `lhs` and `rhs` are where the arms end. */
    method EmitBothArms(e: Expr, c: Expr, a: Expr, b: Expr)
      returns (y: Result, z: Result, lhs: nat, rhs: nat, join: nat)
      requires Ready(G()) && c < e && a < e && b < e
      modifies this
      ensures var p := EmitArms(k, old(G()), e, c, a, b);
        && G() == p.g4 && y == p.x && z == p.y && lhs == p.g2.cur && rhs == p.g4.cur
      ensures join == |old(blocks)| + 2
      decreases e, 0, 1
    {
      ghost var g := G();
      ghost var p := EmitArms(k, g, e, c, a, b);
      y, rhs, join := EmitFirstArm(e, c, a);
      lhs := cur;
      ghost var t2, h2 := SecondArmStarts(g, p);
      CreateTerminator(Br(join));
      z := VisitIn(rhs, b);
      rhs := cur;
    }

    /** The blocks, the condition, and the first arm. */
    method EmitFirstArm(e: Expr, c: Expr, a: Expr) returns (y: Result, rhs: nat, join: nat)
      requires Ready(G()) && c < e && a < e
      modifies this
      ensures Ready(Place(BranchToArms(k, old(G()), 3, c), |old(blocks)|))
      ensures (G(), y) == ValueIn(k, BranchToArms(k, old(G()), 3, c), |old(blocks)|, a)
      ensures rhs == |old(blocks)| + 1 && join == |old(blocks)| + 2
      decreases e, 0, 0
    {
      ghost var g1, h1 := ArmsStart(k, G(), 3, c);
      var lhs;
      lhs, rhs, join := CreateThreeBlocks();
      EmitBranchOnBoolExpr(c, lhs, rhs);
      assert G() == g1;
      y := VisitIn(lhs, a);
    }

    method CreateTwoBlocks() returns (b0: nat, b1: nat)
      modifies this`blocks
      ensures G() == AddBlocks(old(G()), 2) && b0 == |old(blocks)| && b1 == b0 + 1
    {
      AddTwo(G());
      b0 := CreateBasicBlock();
      b1 := CreateBasicBlock();
    }

    method CreateThreeBlocks() returns (b0: nat, b1: nat, b2: nat)
      modifies this`blocks
      ensures G() == AddBlocks(old(G()), 3) && b0 == |old(blocks)| && b1 == b0 + 1 && b2 == b0 + 2
    {
      AddTwo(G());
      b0 := CreateBasicBlock();
      b1 := CreateBasicBlock();
      b2 := CreateBasicBlock();
    }

    /** The value of `e`, emitted into the block `b`. */
    method VisitIn(b: nat, e: Expr) returns (x: Result)
      requires Wf(G()) && Ready(Place(G(), b))
      modifies this
      ensures (G(), x) == ValueIn(k, old(G()), b, e)
      decreases e, 6
    {
      EmitBlock(b);
      x := Visit(e);
    }

    method EmitJoin(y: Result, lhs: nat, z: Result, rhs: nat) returns (x: Result)
      requires Ready(G())
      modifies this
      ensures (G(), x) == Join(old(G()), y, lhs, z, rhs)
    {
      if y.None? {
        return z;
      }
      if z.None? {
        return y;
      }
      x := Some(Reg(nextReg));
      Insert(Phi(nextReg, [Incoming(lhs, y.value), Incoming(rhs, z.value)]));
    }
  }
}
