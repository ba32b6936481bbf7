/** Which jumps the lowering adds, and which jumps lead to the join block of `?:`. */
module CfgEdges {
  import opened CfgLang
  import opened CfgMachine
  import opened CfgLowering
  import opened CfgCorrect
  import opened Options

  /** The jumps of `g'` that `g` does not have lead to blocks of `extra` or to new blocks. */
  ghost predicate Edges(g: Graph, g': Graph, extra: set<nat>) {
    |g.blocks| <= |g'.blocks| &&
    forall p: nat, t: nat {:trigger Targets(g'.blocks[p].term, t)} :: p < |g'.blocks| && Targets(g'.blocks[p].term, t) ==>
      || |g.blocks| <= t < |g'.blocks|
      || t in extra
      || (p < |g.blocks| && Targets(g.blocks[p].term, t))
  }

  lemma EdgesTrans(g: Graph, g1: Graph, g2: Graph, e1: set<nat>, e2: set<nat>, extra: set<nat>)
    requires Edges(g, g1, e1) && Edges(g1, g2, e2)
    requires forall t :: t in e1 || t in e2 ==> t in extra || |g.blocks| <= t < |g2.blocks|
    ensures Edges(g, g2, extra)
  {
    forall p: nat, t: nat | p < |g2.blocks| && Targets(g2.blocks[p].term, t)
      ensures |g.blocks| <= t < |g2.blocks| || t in extra || (p < |g.blocks| && Targets(g.blocks[p].term, t))
    {
    }
  }

  lemma AddBlocksEdges(g: Graph, n: nat)
    ensures Edges(g, AddBlocks(g, n), {})
  {
  }

  lemma TerminateEdges(g: Graph, t: Term, extra: set<nat>)
    requires Wf(g) && forall b :: Targets(t, b) ==> b in extra
    ensures Edges(g, Terminate(g, t), extra)
  {
  }

  lemma PlaceEdges(g: Graph, b: nat)
    requires Wf(g)
    ensures Edges(g, Place(g, b), {b})
    ensures Closed(g) ==> Edges(g, Place(g, b), {})
  {
  }

  /** Two stages, the second in a new block. */
  lemma ThenIn(g: Graph, g1: Graph, b: nat, g2: Graph, e1: set<nat>, e2: set<nat>)
    requires Edges(g, g1, e1) && Wf(g1) && |g.blocks| <= b < |g1.blocks| && Edges(Place(g1, b), g2, e2)
    requires e1 <= e2
    ensures Edges(g, g2, e2)
  {
    PlaceEdges(g1, b);
    EdgesTrans(g, g1, Place(g1, b), e1, {b}, e1);
    EdgesTrans(g, Place(g1, b), g2, e1, e2, e2);
  }

  lemma DefineEdges(g: Graph, i: Instr)
    requires Wf(g)
    ensures Edges(g, Define(g, i), {})
  {
  }

  lemma {:induction false} BranchEdges(k: Oracles, g: Graph, e: Expr, yes: nat, no: nat)
    requires Ready(g)
    ensures Edges(g, Branch(k, g, e, yes, no), {yes, no})
    decreases e, 5
  {
    match e
    case Paren(a) => BranchEdges(k, g, a, yes, no);
    case And(a, b) =>
      if k.fold(a).Some? && k.fold(a).value != 0 {
        BranchEdges(k, g, b, yes, no);
      } else if k.fold(b).Some? && k.fold(b).value != 0 {
        BranchEdges(k, g, a, yes, no);
      } else {
        ChainEdges(k, g, e, a, b, true, yes, no);
      }
    case Or(a, b) =>
      if k.fold(a).Some? && k.fold(a).value == 0 {
        BranchEdges(k, g, b, yes, no);
      } else if k.fold(b).Some? && k.fold(b).value == 0 {
        BranchEdges(k, g, a, yes, no);
      } else {
        ChainEdges(k, g, e, a, b, false, yes, no);
      }
    case Not(a) =>
      BranchEdges(k, g, a, no, yes);
      assert {no, yes} == {yes, no};
    case Cond(c, a, b) => ForkEdges(k, g, e, c, a, b, yes, no);
    case Throw(id) => TerminateEdges(g, Unwind(id), {yes, no});
    case Lit(_) => BranchOnValueEdges(k, g, e, yes, no);
    case Leaf(_) => BranchOnValueEdges(k, g, e, yes, no);
  }

  lemma BranchOnValueEdges(k: Oracles, g: Graph, e: Expr, yes: nat, no: nat)
    requires Ready(g)
    ensures Edges(g, BranchOnValue(k, g, e, yes, no), {yes, no})
    decreases e, 4
  {
    var (g1, x) := Bool(k, g, e);
    BoolEdges(k, g, e);
    TerminateEdges(g1, CondBr(x, yes, no), {yes, no});
    EdgesTrans(g, g1, Terminate(g1, CondBr(x, yes, no)), {}, {yes, no}, {yes, no});
  }

  lemma ChainEdges(k: Oracles, g: Graph, e: Expr, a: Expr, b: Expr, on: bool, yes: nat, no: nat)
    requires Ready(g) && a < e && b < e
    ensures Edges(g, Chain(k, g, e, a, b, on, yes, no), {yes, no})
    decreases e, 4
  {
    var g1, h := ChainParts(k, g, e, a, b, on, yes, no);
    ChainFirstEdges(k, g, e, a, on, yes, no);
    ThenBranchEdges(k, g, g1, |g.blocks|, b, yes, no, {yes, no});
  }

  lemma ChainFirstEdges(k: Oracles, g: Graph, e: Expr, a: Expr, on: bool, yes: nat, no: nat)
    requires Ready(g) && a < e
    ensures Edges(g, ChainFirst(k, g, e, a, on, yes, no), {yes, no})
    decreases e, 3
  {
    var rhs, g0 := |g.blocks|, AddBlocks(g, 1);
    var u, v := if on then rhs else yes, if on then no else rhs;
    BranchEdges(k, g0, a, u, v);
    AddBlocksEdges(g, 1);
    NewBlockEdges(g, g0, ChainFirst(k, g, e, a, on, yes, no), u, v, yes, no);
  }

  lemma NewBlockEdges(g: Graph, g0: Graph, g1: Graph, u: nat, v: nat, yes: nat, no: nat)
    requires Edges(g, g0, {}) && Edges(g0, g1, {u, v}) && |g.blocks| < |g0.blocks|
    requires (u == |g.blocks| || u == yes) && (v == |g.blocks| || v == no)
    ensures Edges(g, g1, {yes, no})
  {
    EdgesTrans(g, g0, g1, {}, {u, v}, {yes, no});
  }

  lemma ForkEdges(k: Oracles, g: Graph, e: Expr, c: Expr, a: Expr, b: Expr, yes: nat, no: nat)
    requires Ready(g) && c < e && a < e && b < e
    ensures Edges(g, Fork(k, g, e, c, a, b, yes, no), {yes, no})
    decreases e, 4
  {
    var g1, h1, g2, h2, g' := ForkParts(k, g, e, c, a, b, yes, no);
    ToArmsEdges(k, g, 2, c);
    ThenBranchEdges(k, g, g1, |g.blocks|, a, yes, no, {});
    ThenBranchEdges(k, g, g2, |g.blocks| + 1, b, yes, no, {yes, no});
  }

  lemma ToArmsEdges(k: Oracles, g: Graph, n: nat, c: Expr)
    requires Ready(g) && n >= 2
    ensures Edges(g, BranchToArms(k, g, n, c), {})
    decreases c, 6
  {
    var l, r, g0 := |g.blocks|, |g.blocks| + 1, AddBlocks(g, n);
    AddBlocksEdges(g, n);
    BranchEdges(k, g0, c, l, r);
    EdgesTrans(g, g0, BranchToArms(k, g, n, c), {}, {l, r}, {});
  }

  /** A second condition, in a new block. */
  lemma ThenBranchEdges(k: Oracles, g: Graph, g1: Graph, b: nat, e: Expr, yes: nat, no: nat, e1: set<nat>)
    requires Edges(g, g1, e1) && e1 <= {yes, no} && Wf(g1) && |g.blocks| <= b < |g1.blocks| && Ready(Place(g1, b))
    ensures Edges(g, BranchIn(k, g1, b, e, yes, no), {yes, no})
    decreases e, 6
  {
    BranchEdges(k, Place(g1, b), e, yes, no);
    ThenIn(g, g1, b, BranchIn(k, g1, b, e, yes, no), e1, {yes, no});
  }

  /** A value, in a new block. */
  lemma ThenValueEdges(k: Oracles, g: Graph, g1: Graph, b: nat, e: Expr)
    requires Edges(g, g1, {}) && Wf(g1) && |g.blocks| <= b < |g1.blocks| && Ready(Place(g1, b))
    ensures Edges(g, ValueIn(k, g1, b, e).0, {})
    decreases e, 6
  {
    ValueEdges(k, Place(g1, b), e);
    ThenIn(g, g1, b, ValueIn(k, g1, b, e).0, {}, {});
  }

  lemma BoolEdges(k: Oracles, g: Graph, e: Expr)
    requires Ready(g)
    ensures Edges(g, Bool(k, g, e).0, {})
    decreases e, 3
  {
    var (g1, x) := Value(k, g, e);
    ValueEdges(k, g, e);
    DefineEdges(g1, IsTrue(g1.nextReg, OrUndef(x)));
    EdgesTrans(g, g1, Bool(k, g, e).0, {}, {}, {});
  }

  lemma {:induction false} ValueEdges(k: Oracles, g: Graph, e: Expr)
    requires Ready(g)
    ensures Edges(g, Value(k, g, e).0, {})
    decreases e, 2
  {
    match e
    case Lit(_) =>
    case Leaf(id) => DefineEdges(g, Call(g.nextReg, id));
    case Paren(a) => ValueEdges(k, g, a);
    case Not(a) =>
      var (g1, x) := Bool(k, g, a);
      BoolEdges(k, g, a);
      DefineEdges(g1, IsFalse(g1.nextReg, x));
      EdgesTrans(g, g1, Value(k, g, e).0, {}, {}, {});
    case And(a, b) =>
      if k.fold(a).None? {
        ShortCircuitEdges(k, g, e, a, b, false);
      } else if k.fold(a).value != 0 {
        BoolEdges(k, g, b);
      }
    case Or(a, b) =>
      if k.fold(a).None? {
        ShortCircuitEdges(k, g, e, a, b, true);
      } else if k.fold(a).value == 0 {
        BoolEdges(k, g, b);
      }
    case Cond(c, a, b) =>
      if k.fold(c).Some? {
        ValueEdges(k, g, if k.fold(c).value != 0 then a else b);
      } else if k.cheap(a) && k.cheap(b) {
        SelectEdges(k, g, e, c, a, b);
      } else {
        DiamondEdges(k, g, e, c, a, b);
      }
    case Throw(id) =>
      var g1 := Terminate(g, Unwind(id));
      var g2 := AddBlocks(g1, 1);
      TerminateEdges(g, Unwind(id), {});
      AddBlocksEdges(g1, 1);
      EdgesTrans(g, g1, g2, {}, {}, {});
      PlaceEdges(g2, |g.blocks|);
      EdgesTrans(g, g2, Place(g2, |g.blocks|), {}, {|g.blocks|}, {});
  }

  lemma SelectEdges(k: Oracles, g: Graph, e: Expr, c: Expr, a: Expr, b: Expr)
    requires Ready(g) && c < e && a < e && b < e
    ensures Edges(g, SelectValue(k, g, e, c, a, b).0, {})
    decreases e, 1
  {
    var (g1, x) := Bool(k, g, c);
    var (g2, y) := Value(k, g1, a);
    var (g3, z) := Value(k, g2, b);
    BoolEdges(k, g, c);
    ValueEdges(k, g1, a);
    EdgesTrans(g, g1, g2, {}, {}, {});
    ValueEdges(k, g2, b);
    EdgesTrans(g, g2, g3, {}, {}, {});
    var i := Select(g3.nextReg, x, OrUndef(y), OrUndef(z));
    DefineEdges(g3, i);
    EdgesTrans(g, g3, Define(g3, i), {}, {}, {});
  }

  lemma StartPhiEdges(g: Graph, b: nat, x: Operand)
    requires b < |g.blocks|
    ensures Edges(g, StartPhi(g, b, x), {})
  {
  }

  lemma BranchShortEdges(k: Oracles, g: Graph, e: Expr, a: Expr, stop: bool)
    requires Ready(g) && a < e
    ensures Edges(g, BranchShort(k, g, e, a, stop), {})
    decreases e, 0
  {
    var join, rhs, g0 := |g.blocks|, |g.blocks| + 1, AddBlocks(g, 2);
    var yes, no := if stop then join else rhs, if stop then rhs else join;
    AddBlocksEdges(g, 2);
    BranchEdges(k, g0, a, yes, no);
    EdgesTrans(g, g0, BranchShort(k, g, e, a, stop), {}, {yes, no}, {});
  }

  lemma JoinEdges(g: Graph, g4: Graph, join: nat)
    requires Edges(g, g4, {}) && Wf(g4) && |g.blocks| <= join < |g4.blocks|
    ensures Edges(g, Place(g4, join), {})
  {
    PlaceEdges(g4, join);
    EdgesTrans(g, g4, Place(g4, join), {}, {join}, {});
  }

  lemma ShortCircuitEdges(k: Oracles, g: Graph, e: Expr, a: Expr, b: Expr, stop: bool)
    requires Ready(g) && a < e && b < e
    ensures Edges(g, ShortCircuit(k, g, e, a, b, stop).0, {})
    decreases e, 1
  {
    var join, rhs, c := |g.blocks|, |g.blocks| + 1, Truth(stop);
    var g2 := BranchShort(k, g, e, a, stop);
    var g3 := StartPhi(g2, join, Imm(c));
    var (g4, x) := Bool(k, Place(g3, rhs), b);
    BranchShortEdges(k, g, e, a, stop);
    StartPhiEdges(g2, join, Imm(c));
    EdgesTrans(g, g2, g3, {}, {}, {});
    BoolEdges(k, Place(g3, rhs), b);
    ThenIn(g, g3, rhs, g4, {}, {});
    JoinEdges(g, g4, join);
  }

  lemma DiamondEdges(k: Oracles, g: Graph, e: Expr, c: Expr, a: Expr, b: Expr)
    requires Ready(g) && c < e && a < e && b < e
    ensures Edges(g, Diamond(k, g, e, c, a, b).0, {})
    decreases e, 1
  {
    var p, join := EmitArms(k, g, e, c, a, b), |g.blocks| + 2;
    var h1 := FirstArmStarts(g, p);
    ToArmsEdges(k, g, 3, c);
    ThenValueEdges(k, g, p.g1, |g.blocks|, a);
    var t2, h2 := SecondArmStarts(g, p);
    ToJoinEdges(g, p.g2, join);
    ThenValueEdges(k, g, t2, |g.blocks| + 1, b);
    JoinEdges(g, p.g4, join);
  }

  lemma ToJoinEdges(g: Graph, g2: Graph, join: nat)
    requires Edges(g, g2, {}) && Wf(g2) && |g.blocks| <= join < |g2.blocks|
    ensures Edges(g, Terminate(g2, Br(join)), {})
  {
    TerminateEdges(g2, Br(join), {join});
    EdgesTrans(g, g2, Terminate(g2, Br(join)), {}, {join}, {});
  }

  // ---------------------------------------------------------------- the join block of a conditional

  /** All jumps lead to blocks that have been created. */
  ghost predicate Linked(g: Graph) {
    forall p: nat, t: nat :: p < |g.blocks| && Targets(g.blocks[p].term, t) ==> t < |g.blocks|
  }

  /** Lowering a condition, or a value, keeps all jumps within the graph. */
  lemma StaysLinked(k: Oracles, g: Graph, e: Expr, yes: nat, no: nat)
    requires Ready(g) && Linked(g) && yes < |g.blocks| && no < |g.blocks|
    ensures Linked(Branch(k, g, e, yes, no)) && Linked(Value(k, g, e).0)
  {
    BranchEdges(k, g, e, yes, no);
    LinkedAfter(g, Branch(k, g, e, yes, no), {yes, no});
    ValueEdges(k, g, e);
    LinkedAfter(g, Value(k, g, e).0, {});
  }

  lemma LinkedAfter(g: Graph, g': Graph, extra: set<nat>)
    requires Linked(g) && Edges(g, g', extra) && forall t :: t in extra ==> t < |g.blocks|
    ensures Linked(g')
  {
    forall p: nat, t: nat | p < |g'.blocks| && Targets(g'.blocks[p].term, t) ensures t < |g'.blocks| {
    }
  }

  /** The PHI entries `ins` of block `b` name every predecessor of `b` once, and nothing else. */
  ghost predicate Complete(g: Graph, b: nat, ins: seq<Incoming>) {
    && (forall i, j :: 0 <= i < j < |ins| ==> ins[i].block != ins[j].block)
    && (forall i :: 0 <= i < |ins| ==> ins[i].block < |g.blocks| && Targets(g.blocks[ins[i].block].term, b))
    && (forall p: nat :: p < |g.blocks| && Targets(g.blocks[p].term, b) ==>
        exists i :: 0 <= i < |ins| && ins[i].block == p)
  }

  lemma CompleteSame(g: Graph, g': Graph, b: nat, ins: seq<Incoming>)
    requires Complete(g, b, ins) && |g.blocks| <= |g'.blocks|
    requires forall p :: 0 <= p < |g.blocks| ==> (Targets(g.blocks[p].term, b) <==> Targets(g'.blocks[p].term, b))
    requires forall p :: |g.blocks| <= p < |g'.blocks| ==> !Targets(g'.blocks[p].term, b)
    ensures Complete(g', b, ins)
  {
  }

  lemma DiamondJoinPreds(k: Oracles, g: Graph, e: Expr, c: Expr, a: Expr, b: Expr, p: Arms, t: nat)
    requires Ready(g) && Linked(g) && c < e && a < e && b < e && p == EmitArms(k, g, e, c, a, b)
    ensures var g', join := Place(p.g4, |g.blocks| + 2), |g.blocks| + 2;
      t < |g'.blocks| && Targets(g'.blocks[t].term, join) ==> t == p.g2.cur || t == p.g4.cur
  {
    var join := |g.blocks| + 2;
    var h1, h2 := ArmsEdges(k, g, e, c, a, b, p);
    NotYetJoined(g, p, h1, join, t);
    OnlyArmsJoin(g, p, h2, join, t);
  }

  /** The condition jumps to the arms only, and the arms jump within themselves. */
  lemma ArmsEdges(k: Oracles, g: Graph, e: Expr, c: Expr, a: Expr, b: Expr, p: Arms) returns (h1: Graph, h2: Graph)
    requires Ready(g) && c < e && a < e && b < e && p == EmitArms(k, g, e, c, a, b)
    ensures h1 == Place(p.g1, |g.blocks|) && h2 == Place(Terminate(p.g2, Br(|g.blocks| + 2)), |g.blocks| + 1)
    ensures Edges(AddBlocks(g, 3), p.g1, {|g.blocks|, |g.blocks| + 1}) && Edges(h1, p.g2, {}) && Edges(h2, p.g4, {})
  {
    h1 := FirstArmStarts(g, p);
    var t2;
    t2, h2 := SecondArmStarts(g, p);
    BranchEdges(k, AddBlocks(g, 3), c, |g.blocks|, |g.blocks| + 1);
    ValueEdges(k, h1, a);
    ValueEdges(k, h2, b);
  }

  lemma OnlyArmsJoin(g: Graph, p: Arms, h2: Graph, join: nat, t: nat)
    requires Ready(g) && Staged(g, p) && join == |g.blocks| + 2
    requires h2 == Place(Terminate(p.g2, Br(join)), |g.blocks| + 1) && Edges(h2, p.g4, {})
    requires t < |p.g2.blocks| ==> !Targets(p.g2.blocks[t].term, join)
    ensures t < |p.g4.blocks| && t != p.g4.cur && Targets(p.g4.blocks[t].term, join) ==> t == p.g2.cur
  {
    if t < |p.g4.blocks| && t != p.g4.cur && Targets(p.g4.blocks[t].term, join) {
      assert t < |h2.blocks| && Targets(h2.blocks[t].term, join);
    }
  }

  /** Neither the condition nor the first arm jumps to the join block. */
  lemma NotYetJoined(g: Graph, p: Arms, h1: Graph, join: nat, t: nat)
    requires Ready(g) && Linked(g) && Staged(g, p) && h1 == Place(p.g1, |g.blocks|) && join == |g.blocks| + 2
    requires Edges(AddBlocks(g, 3), p.g1, {|g.blocks|, |g.blocks| + 1}) && Edges(h1, p.g2, {})
    ensures t < |p.g2.blocks| ==> !Targets(p.g2.blocks[t].term, join)
  {
    if t < |h1.blocks| {
      assert h1.blocks[t].term == p.g1.blocks[t].term;
    }
  }

  /** The PHI of `?:` has exactly one entry for each of the two predecessors of the join block. */
  lemma DiamondPhiComplete(k: Oracles, g: Graph, e: Expr, c: Expr, a: Expr, b: Expr)
    requires Ready(g) && Linked(g) && c < e && a < e && b < e
    ensures var g', join := Diamond(k, g, e, c, a, b).0, |g.blocks| + 2;
      && g'.cur == join
      && (g'.blocks[join].code == [] ||
          (|g'.blocks[join].code| == 1 && g'.blocks[join].code[0].Phi?
           && Complete(g', join, g'.blocks[join].code[0].ins)))
  {
    var p := EmitArms(k, g, e, c, a, b);
    var (g', v) := Diamond(k, g, e, c, a, b);
    var h, join := Place(p.g4, |g.blocks| + 2), |g.blocks| + 2;
    DiamondShape(g, p, g', v);
    JoinKeepsTerms(h, p.x, p.g2.cur, p.y, p.g4.cur, g');
    forall t: nat | t < |g'.blocks| && Targets(g'.blocks[t].term, join) ensures t == p.g2.cur || t == p.g4.cur {
      DiamondJoinPreds(k, g, e, c, a, b, p, t);
    }
    JoinComplete(p, g', join);
  }

  lemma JoinKeepsTerms(g: Graph, x: Result, fromX: nat, y: Result, fromY: nat, g': Graph)
    requires Ready(g) && g' == Join(g, x, fromX, y, fromY).0
    ensures |g'.blocks| == |g.blocks| && forall p :: 0 <= p < |g.blocks| ==> g'.blocks[p].term == g.blocks[p].term
  {
  }

  lemma JoinComplete(p: Arms, g': Graph, join: nat)
    requires join < |g'.blocks| && p.g2.cur < |g'.blocks| && p.g4.cur < |g'.blocks| && p.g2.cur != p.g4.cur
    requires g'.blocks[p.g2.cur].term == Br(join) && g'.blocks[p.g4.cur].term == Br(join)
    requires forall t: nat :: t < |g'.blocks| && Targets(g'.blocks[t].term, join) ==> t == p.g2.cur || t == p.g4.cur
    requires g'.blocks[join].code == if p.x.Some? && p.y.Some? then [Phi(p.g4.nextReg, Incomings(p))] else []
    ensures g'.blocks[join].code == [] ||
            (|g'.blocks[join].code| == 1 && g'.blocks[join].code[0].Phi?
             && Complete(g', join, g'.blocks[join].code[0].ins))
  {
    if p.x.Some? && p.y.Some? {
      CompletePair(g', join, Incoming(p.g2.cur, p.x.value), Incoming(p.g4.cur, p.y.value));
    }
  }

  lemma CompletePair(g: Graph, b: nat, x: Incoming, y: Incoming)
    requires x.block != y.block && x.block < |g.blocks| && y.block < |g.blocks|
    requires Targets(g.blocks[x.block].term, b) && Targets(g.blocks[y.block].term, b)
    requires forall p: nat :: p < |g.blocks| && Targets(g.blocks[p].term, b) ==> p == x.block || p == y.block
    ensures Complete(g, b, [x, y])
  {
    var ins := [x, y];
    assert ins[0].block == x.block && ins[1].block == y.block;
  }
}
