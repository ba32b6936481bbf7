/** No block has two jumps to one target, and every PHI has exactly one entry for each edge that leads to its
    block: not only when the block is entered, but in every graph that the lowering builds afterwards. */
module CfgPhis {
  import opened CfgLang
  import opened CfgMachine
  import opened CfgLowering
  import opened CfgCorrect
  import opened CfgEdges
  import opened Options

  /** No block has two edges to one target. */
  ghost predicate Simple(g: Graph) {
    forall p :: 0 <= p < |g.blocks| && g.blocks[p].term.CondBr? ==> g.blocks[p].term.yes != g.blocks[p].term.no
  }

  ghost predicate PhiFree(g: Graph, b: nat) {
    b < |g.blocks| && forall i :: 0 <= i < |g.blocks[b].code| ==> !g.blocks[b].code[i].Phi?
  }

  /** Every PHI in the blocks from `n` on names each predecessor of its block once. */
  ghost predicate PhisComplete(g: Graph, n: nat) {
    forall b, i :: n <= b < |g.blocks| && 0 <= i < |g.blocks[b].code| && g.blocks[b].code[i].Phi?
      ==> Complete(g, b, g.blocks[b].code[i].ins)
  }

  /** The invariant of graphs under construction. */
  ghost predicate Good(g: Graph, n: nat) {
    Linked(g) && Simple(g) && PhisComplete(g, n)
  }

  /** The new graph is good, and blocks without a PHI have not got one. */
  ghost predicate Keeps(g: Graph, g': Graph, n: nat) {
    && Good(g', n) && |g.blocks| <= |g'.blocks|
    && forall b :: 0 <= b < |g.blocks| && PhiFree(g, b) ==> PhiFree(g', b)
  }

  /** The block `b` may get another predecessor. */
  ghost predicate MayJump(g: Graph, b: nat, n: nat) {
    b < |g.blocks| && (b >= n ==> PhiFree(g, b))
  }

  lemma KeepsTrans(g: Graph, g1: Graph, g2: Graph, n: nat)
    requires Keeps(g, g1, n) && Keeps(g1, g2, n)
    ensures Keeps(g, g2, n)
  {
  }

  lemma AddBlocksKeeps(g: Graph, m: nat, n: nat)
    requires Good(g, n)
    ensures Keeps(g, AddBlocks(g, m), n)
    ensures forall b :: |g.blocks| <= b < |g.blocks| + m ==> PhiFree(AddBlocks(g, m), b)
  {
    var g' := AddBlocks(g, m);
    forall b, i | n <= b < |g'.blocks| && 0 <= i < |g'.blocks[b].code| && g'.blocks[b].code[i].Phi?
      ensures Complete(g', b, g'.blocks[b].code[i].ins)
    {
      CompleteSame(g, g', b, g'.blocks[b].code[i].ins);
    }
  }

  /** Jumping to blocks without a PHI, and not twice to one block. */
  lemma TerminateKeeps(g: Graph, t: Term, n: nat)
    requires Ready(g) && Good(g, n) && (t.CondBr? ==> t.yes != t.no)
    requires forall b :: Targets(t, b) ==> MayJump(g, b, n)
    ensures Keeps(g, Terminate(g, t), n)
  {
    var g' := Terminate(g, t);
    forall b, i | n <= b < |g'.blocks| && 0 <= i < |g'.blocks[b].code| && g'.blocks[b].code[i].Phi?
      ensures Complete(g', b, g'.blocks[b].code[i].ins)
    {
      assert !PhiFree(g, b);
      CompleteSame(g, g', b, g'.blocks[b].code[i].ins);
    }
  }

  /** The insertion point is not part of the invariant. */
  lemma MoveKeeps(g: Graph, cur: nat, n: nat)
    requires Good(g, n)
    ensures Keeps(g, g.(cur := cur), n)
  {
    var g' := g.(cur := cur);
    forall b, i | n <= b < |g'.blocks| && 0 <= i < |g'.blocks[b].code| && g'.blocks[b].code[i].Phi?
      ensures Complete(g', b, g'.blocks[b].code[i].ins)
    {
      CompleteSame(g, g', b, g'.blocks[b].code[i].ins);
    }
  }

  lemma PlaceKeeps(g: Graph, b: nat, n: nat)
    requires Wf(g) && Good(g, n) && (Ready(g) ==> MayJump(g, b, n))
    ensures Keeps(g, Place(g, b), n)
  {
    var g1 := Terminate(g, Br(b));
    if Ready(g) {
      TerminateKeeps(g, Br(b), n);
      MoveKeeps(g1, b, n);
      KeepsTrans(g, g1, Place(g, b), n);
    } else {
      MoveKeeps(g, b, n);
    }
  }

  lemma DefineKeeps(g: Graph, i: Instr, n: nat)
    requires Ready(g) && Good(g, n) && !i.Phi?
    ensures Keeps(g, Define(g, i), n)
  {
    var g' := Define(g, i);
    forall b, j | n <= b < |g'.blocks| && 0 <= j < |g'.blocks[b].code| && g'.blocks[b].code[j].Phi?
      ensures Complete(g', b, g'.blocks[b].code[j].ins)
    {
      assert g'.blocks[b].code[j] == g.blocks[b].code[j];
      CompleteSame(g, g', b, g'.blocks[b].code[j].ins);
    }
  }

  /** A PHI whose entries are right once it is there. */
  lemma DefinePhiGood(g: Graph, i: Instr, n: nat)
    requires Ready(g) && Good(g, n) && i.Phi? && Complete(Define(g, i), g.cur, i.ins)
    ensures Good(Define(g, i), n)
  {
    var g' := Define(g, i);
    forall b, j | n <= b < |g'.blocks| && 0 <= j < |g'.blocks[b].code| && g'.blocks[b].code[j].Phi?
      ensures Complete(g', b, g'.blocks[b].code[j].ins)
    {
      if b != g.cur || j < |g.blocks[b].code| {
        assert g'.blocks[b].code[j] == g.blocks[b].code[j];
        CompleteSame(g, g', b, g'.blocks[b].code[j].ins);
      }
    }
  }

  // ---------------------------------------------------------------- the PHI of a short-circuit operator

  lemma {:induction false} PredsIncrease(g: Graph, b: nat, n: nat, ps: seq<nat>)
    requires n <= |g.blocks| && Simple(g) && ps == PredsUpTo(g, b, n)
    ensures Increasing(ps, n)
    decreases n
  {
    if n > 0 {
      var before := PredsUpTo(g, b, n - 1);
      PredsIncrease(g, b, n - 1, before);
      StillIncreases(before, n - 1, g.blocks[n - 1].term, b, ps);
    }
  }

  ghost predicate Increasing(s: seq<nat>, n: nat) {
    (forall i, j :: 0 <= i < j < |s| ==> s[i] < s[j]) && (forall i :: 0 <= i < |s| ==> s[i] < n)
  }

  lemma StillIncreases(s: seq<nat>, n: nat, t: Term, b: nat, ps: seq<nat>)
    requires Increasing(s, n) && (t.CondBr? ==> t.yes != t.no) && ps == s + Uses(t, b, n)
    ensures Increasing(ps, n + 1)
  {
  }

  /** A PHI started in an empty block has an entry for each edge so far. */
  lemma StartPhiComplete(g: Graph, b: nat, x: Operand)
    requires b < |g.blocks| && Simple(g)
    ensures Complete(g, b, Same(Preds(g, b), x))
  {
    var ps := Preds(g, b);
    var ins := Same(ps, x);
    PredsIncrease(g, b, |g.blocks|, ps);
    forall i | 0 <= i < |ins| ensures ins[i].block < |g.blocks| && Targets(g.blocks[ins[i].block].term, b) {
      assert ps[i] in ps;
      PredsComplete(g, b, ps[i]);
    }
    forall p: nat | p < |g.blocks| && Targets(g.blocks[p].term, b)
      ensures exists i :: 0 <= i < |ins| && ins[i].block == p
    {
      PredsComplete(g, b, p);
      var i :| 0 <= i < |ps| && ps[i] == p;
      assert ins[i].block == p;
    }
  }

  lemma StartPhiGood(g: Graph, b: nat, x: Operand, n: nat)
    requires b < |g.blocks| && Good(g, n)
    ensures Good(StartPhi(g, b, x), n)
  {
    var g' := StartPhi(g, b, x);
    StartPhiComplete(g, b, x);
    forall c, i | n <= c < |g'.blocks| && 0 <= i < |g'.blocks[c].code| && g'.blocks[c].code[i].Phi?
      ensures Complete(g', c, g'.blocks[c].code[i].ins)
    {
      if c == b {
        assert g'.blocks[c].code[i].ins == Same(Preds(g, b), x);
      }
      CompleteSame(g, g', c, g'.blocks[c].code[i].ins);
    }
  }

  /** The last block jumps to the join block, and the PHI there gets the entry for that edge. */
  lemma CloseJoinGood(g: Graph, join: nat, x: Operand, n: nat)
    requires Ready(g) && Good(g, n) && join < |g.blocks| && join != g.cur
    requires |g.blocks[join].code| == 1 && g.blocks[join].code[0].Phi?
    ensures Good(AddIncoming(Place(g, join), join, x, g.cur), n)
  {
    var g1 := Place(g, join);
    var g' := AddIncoming(g1, join, x, g.cur);
    var ins := g.blocks[join].code[0].ins;
    forall b, i | n <= b < |g'.blocks| && 0 <= i < |g'.blocks[b].code| && g'.blocks[b].code[i].Phi?
      ensures Complete(g', b, g'.blocks[b].code[i].ins)
    {
      if b == join {
        CompleteWithOne(g, g', join, ins, Incoming(g.cur, x));
      } else {
        assert g'.blocks[b].code[i] == g.blocks[b].code[i];
        CompleteSame(g, g', b, g'.blocks[b].code[i].ins);
      }
    }
  }

  lemma CompleteWithOne(g: Graph, g': Graph, b: nat, ins: seq<Incoming>, last: Incoming)
    requires Complete(g, b, ins) && |g.blocks| == |g'.blocks| && last.block < |g.blocks|
    requires forall p :: 0 <= p < |g.blocks| && p != last.block ==>
      (Targets(g.blocks[p].term, b) <==> Targets(g'.blocks[p].term, b))
    requires !Targets(g.blocks[last.block].term, b) && Targets(g'.blocks[last.block].term, b)
    ensures Complete(g', b, ins + [last])
  {
    var all := ins + [last];
    forall p: nat | p < |g'.blocks| && Targets(g'.blocks[p].term, b)
      ensures exists i :: 0 <= i < |all| && all[i].block == p
    {
      if p == last.block {
        assert all[|ins|].block == p;
      } else {
        var i :| 0 <= i < |ins| && ins[i].block == p;
        assert all[i].block == p;
      }
    }
  }

  // ---------------------------------------------------------------- the lowering keeps the invariant

  /** Two targets that a condition may be sent to. */
  ghost predicate MayBranch(g: Graph, yes: nat, no: nat, n: nat) {
    yes != no && MayJump(g, yes, n) && MayJump(g, no, n)
  }

  lemma MayBranchLater(g: Graph, g': Graph, yes: nat, no: nat, n: nat)
    requires MayBranch(g, yes, no, n) && Keeps(g, g', n)
    ensures MayBranch(g', yes, no, n)
  {
  }

  lemma {:induction false} BranchKeeps(k: Oracles, g: Graph, e: Expr, yes: nat, no: nat, n: nat)
    requires Ready(g) && Good(g, n) && MayBranch(g, yes, no, n)
    ensures Keeps(g, Branch(k, g, e, yes, no), n)
    decreases e, 5
  {
    match e
    case Paren(a) => BranchKeeps(k, g, a, yes, no, n);
    case And(a, b) =>
      if k.fold(a).Some? && k.fold(a).value != 0 {
        BranchKeeps(k, g, b, yes, no, n);
      } else if k.fold(b).Some? && k.fold(b).value != 0 {
        BranchKeeps(k, g, a, yes, no, n);
      } else {
        ChainKeeps(k, g, e, a, b, true, yes, no, n);
      }
    case Or(a, b) =>
      if k.fold(a).Some? && k.fold(a).value == 0 {
        BranchKeeps(k, g, b, yes, no, n);
      } else if k.fold(b).Some? && k.fold(b).value == 0 {
        BranchKeeps(k, g, a, yes, no, n);
      } else {
        ChainKeeps(k, g, e, a, b, false, yes, no, n);
      }
    case Not(a) => BranchKeeps(k, g, a, no, yes, n);
    case Cond(c, a, b) => ForkKeeps(k, g, e, c, a, b, yes, no, n);
    case Throw(id) => TerminateKeeps(g, Unwind(id), n);
    case Lit(_) => BranchOnValueKeeps(k, g, e, yes, no, n);
    case Leaf(_) => BranchOnValueKeeps(k, g, e, yes, no, n);
  }

  lemma BranchOnValueKeeps(k: Oracles, g: Graph, e: Expr, yes: nat, no: nat, n: nat)
    requires Ready(g) && Good(g, n) && MayBranch(g, yes, no, n)
    ensures Keeps(g, BranchOnValue(k, g, e, yes, no), n)
    decreases e, 4
  {
    var (g1, x) := Bool(k, g, e);
    BoolKeeps(k, g, e, n);
    MayBranchLater(g, g1, yes, no, n);
    TerminateKeeps(g1, CondBr(x, yes, no), n);
    KeepsTrans(g, g1, Terminate(g1, CondBr(x, yes, no)), n);
  }

  lemma ChainKeeps(k: Oracles, g: Graph, e: Expr, a: Expr, b: Expr, on: bool, yes: nat, no: nat, n: nat)
    requires Ready(g) && Good(g, n) && MayBranch(g, yes, no, n) && a < e && b < e
    ensures Keeps(g, Chain(k, g, e, a, b, on, yes, no), n)
    decreases e, 4
  {
    var g1, h := ChainParts(k, g, e, a, b, on, yes, no);
    ChainFirstKeeps(k, g, e, a, on, yes, no, n);
    ThenBranchKeeps(k, g, g1, |g.blocks|, b, yes, no, n);
  }

  lemma ChainFirstKeeps(k: Oracles, g: Graph, e: Expr, a: Expr, on: bool, yes: nat, no: nat, n: nat)
    requires Ready(g) && Good(g, n) && MayBranch(g, yes, no, n) && a < e
    ensures Keeps(g, ChainFirst(k, g, e, a, on, yes, no), n)
    decreases e, 3
  {
    var rhs, g0 := |g.blocks|, AddBlocks(g, 1);
    AddBlocksKeeps(g, 1, n);
    MayBranchLater(g, g0, yes, no, n);
    BranchKeeps(k, g0, a, if on then rhs else yes, if on then no else rhs, n);
    KeepsTrans(g, g0, ChainFirst(k, g, e, a, on, yes, no), n);
  }

  /** A second condition, in a block of its own. */
  lemma ThenBranchKeeps(k: Oracles, g: Graph, g1: Graph, b: nat, e: Expr, yes: nat, no: nat, n: nat)
    requires Keeps(g, g1, n) && MayBranch(g, yes, no, n) && Closed(g1) && Ready(Place(g1, b))
    ensures Keeps(g, BranchIn(k, g1, b, e, yes, no), n)
    decreases e, 6
  {
    PlaceKeeps(g1, b, n);
    KeepsTrans(g, g1, Place(g1, b), n);
    MayBranchLater(g, Place(g1, b), yes, no, n);
    BranchKeeps(k, Place(g1, b), e, yes, no, n);
    KeepsTrans(g, Place(g1, b), BranchIn(k, g1, b, e, yes, no), n);
  }

  lemma ForkKeeps(k: Oracles, g: Graph, e: Expr, c: Expr, a: Expr, b: Expr, yes: nat, no: nat, n: nat)
    requires Ready(g) && Good(g, n) && MayBranch(g, yes, no, n) && c < e && a < e && b < e
    ensures Keeps(g, Fork(k, g, e, c, a, b, yes, no), n)
    decreases e, 4
  {
    var g1, h1, g2, h2, g' := ForkParts(k, g, e, c, a, b, yes, no);
    ToArmsKeeps(k, g, 2, c, n);
    ThenBranchKeeps(k, g, g1, |g.blocks|, a, yes, no, n);
    ThenBranchKeeps(k, g, g2, |g.blocks| + 1, b, yes, no, n);
  }

  lemma ToArmsKeeps(k: Oracles, g: Graph, m: nat, c: Expr, n: nat)
    requires Ready(g) && Good(g, n) && m >= 2
    ensures Keeps(g, BranchToArms(k, g, m, c), n)
    ensures forall b :: |g.blocks| <= b < |g.blocks| + m ==> PhiFree(BranchToArms(k, g, m, c), b)
    decreases c, 6
  {
    var l, r, g0 := |g.blocks|, |g.blocks| + 1, AddBlocks(g, m);
    AddBlocksKeeps(g, m, n);
    BranchKeeps(k, g0, c, l, r, n);
    KeepsTrans(g, g0, BranchToArms(k, g, m, c), n);
  }

  lemma BoolKeeps(k: Oracles, g: Graph, e: Expr, n: nat)
    requires Ready(g) && Good(g, n)
    ensures Keeps(g, Bool(k, g, e).0, n)
    decreases e, 3
  {
    var (g1, x) := Value(k, g, e);
    ValueKeeps(k, g, e, n);
    DefineKeeps(g1, IsTrue(g1.nextReg, OrUndef(x)), n);
    KeepsTrans(g, g1, Bool(k, g, e).0, n);
  }

  lemma {:induction false} ValueKeeps(k: Oracles, g: Graph, e: Expr, n: nat)
    requires Ready(g) && Good(g, n)
    ensures Keeps(g, Value(k, g, e).0, n)
    decreases e, 2
  {
    match e
    case Lit(_) =>
    case Leaf(id) => DefineKeeps(g, Call(g.nextReg, id), n);
    case Paren(a) => ValueKeeps(k, g, a, n);
    case Not(a) =>
      var (g1, x) := Bool(k, g, a);
      BoolKeeps(k, g, a, n);
      DefineKeeps(g1, IsFalse(g1.nextReg, x), n);
      KeepsTrans(g, g1, Value(k, g, e).0, n);
    case And(a, b) =>
      if k.fold(a).None? {
        ShortCircuitKeeps(k, g, e, a, b, false, n);
      } else if k.fold(a).value != 0 {
        BoolKeeps(k, g, b, n);
      }
    case Or(a, b) =>
      if k.fold(a).None? {
        ShortCircuitKeeps(k, g, e, a, b, true, n);
      } else if k.fold(a).value == 0 {
        BoolKeeps(k, g, b, n);
      }
    case Cond(c, a, b) =>
      if k.fold(c).Some? {
        ValueKeeps(k, g, if k.fold(c).value != 0 then a else b, n);
      } else if k.cheap(a) && k.cheap(b) {
        SelectKeeps(k, g, e, c, a, b, n);
      } else {
        DiamondKeeps(k, g, e, c, a, b, n);
      }
    case Throw(id) => ThrowKeeps(g, id, n);
  }

  lemma ThrowKeeps(g: Graph, id: nat, n: nat)
    requires Ready(g) && Good(g, n)
    ensures Keeps(g, Place(AddBlocks(Terminate(g, Unwind(id)), 1), |g.blocks|), n)
  {
    var g1 := Terminate(g, Unwind(id));
    var g2 := AddBlocks(g1, 1);
    TerminateKeeps(g, Unwind(id), n);
    AddBlocksKeeps(g1, 1, n);
    KeepsTrans(g, g1, g2, n);
    PlaceKeeps(g2, |g.blocks|, n);
    KeepsTrans(g, g2, Place(g2, |g.blocks|), n);
  }

  lemma SelectKeeps(k: Oracles, g: Graph, e: Expr, c: Expr, a: Expr, b: Expr, n: nat)
    requires Ready(g) && Good(g, n) && c < e && a < e && b < e
    ensures Keeps(g, SelectValue(k, g, e, c, a, b).0, n)
    decreases e, 1
  {
    var (g1, x) := Bool(k, g, c);
    var (g2, y) := Value(k, g1, a);
    var (g3, z) := Value(k, g2, b);
    BoolKeeps(k, g, c, n);
    ValueKeeps(k, g1, a, n);
    KeepsTrans(g, g1, g2, n);
    ValueKeeps(k, g2, b, n);
    KeepsTrans(g, g2, g3, n);
    var i := Select(g3.nextReg, x, OrUndef(y), OrUndef(z));
    DefineKeeps(g3, i, n);
    KeepsTrans(g, g3, Define(g3, i), n);
  }

  /** The condition of a logical operator has been emitted, and its join block is as it was created. */
  lemma BranchShortKeeps(k: Oracles, g: Graph, e: Expr, a: Expr, stop: bool, n: nat)
    requires Ready(g) && Good(g, n) && a < e
    ensures Keeps(g, BranchShort(k, g, e, a, stop), n)
    decreases e, 0
  {
    var join, rhs, g0 := |g.blocks|, |g.blocks| + 1, AddBlocks(g, 2);
    AddBlocksKeeps(g, 2, n);
    BranchKeeps(k, g0, a, if stop then join else rhs, if stop then rhs else join, n);
    KeepsTrans(g, g0, BranchShort(k, g, e, a, stop), n);
  }

  lemma ShortCircuitKeeps(k: Oracles, g: Graph, e: Expr, a: Expr, b: Expr, stop: bool, n: nat)
    requires Ready(g) && Good(g, n) && a < e && b < e
    ensures Keeps(g, ShortCircuit(k, g, e, a, b, stop).0, n)
    decreases e, 1
  {
    var join, rhs, c := |g.blocks|, |g.blocks| + 1, Truth(stop);
    var g2 := BranchShort(k, g, e, a, stop);
    var g3 := StartPhi(g2, join, Imm(c));
    var h := Place(g3, rhs);
    var (g4, x) := Bool(k, h, b);
    BranchShortKeeps(k, g, e, a, stop, n);
    StartPhiGood(g2, join, Imm(c), n);
    PlaceKeeps(g3, rhs, n);
    BoolKeeps(k, h, b, n);
    CloseJoinGood(g4, join, x, n);
  }

  lemma DiamondKeeps(k: Oracles, g: Graph, e: Expr, c: Expr, a: Expr, b: Expr, n: nat)
    requires Ready(g) && Good(g, n) && c < e && a < e && b < e
    ensures Keeps(g, Diamond(k, g, e, c, a, b).0, n)
    decreases e, 1
  {
    var p, join := EmitArms(k, g, e, c, a, b), |g.blocks| + 2;
    var h1 := FirstArmStarts(g, p);
    ToArmsKeeps(k, g, 3, c, n);
    ThenValueKeeps(k, p.g1, |g.blocks|, a, n);
    KeepsTrans(g, p.g1, p.g2, n);
    var t2, h2 := SecondArmStarts(g, p);
    SecondArmKeeps(k, p.g2, join, |g.blocks| + 1, b, p.g4, n);
    KeepsTrans(g, p.g2, Place(p.g4, join), n);
    DiamondPhiComplete(k, g, e, c, a, b);
    var g5 := JoinIsNew(g, p);
    JoinKeeps(g, g5, p.x, p.g2.cur, p.y, p.g4.cur, Diamond(k, g, e, c, a, b).0, n);
  }

  /** A value, in a block that has just been jumped to. */
  lemma ThenValueKeeps(k: Oracles, g: Graph, b: nat, e: Expr, n: nat)
    requires Good(g, n) && Closed(g) && Ready(Place(g, b))
    ensures Keeps(g, ValueIn(k, g, b, e).0, n)
    decreases e, 6
  {
    PlaceKeeps(g, b, n);
    ValueKeeps(k, Place(g, b), e, n);
    KeepsTrans(g, Place(g, b), ValueIn(k, g, b, e).0, n);
  }

  /** The first arm ends with a jump to the join block, and so does the second. */
  lemma SecondArmKeeps(k: Oracles, g2: Graph, join: nat, r: nat, b: Expr, g4: Graph, n: nat)
    requires Good(g2, n) && Ready(g2) && PhiFree(g2, join) && Ready(Place(Terminate(g2, Br(join)), r))
    requires g4 == ValueIn(k, Terminate(g2, Br(join)), r, b).0
    ensures Keeps(g2, Place(g4, join), n)
    decreases b, 7
  {
    var t2 := Terminate(g2, Br(join));
    TerminateKeeps(g2, Br(join), n);
    ThenValueKeeps(k, t2, r, b, n);
    KeepsTrans(g2, t2, g4, n);
    PlaceKeeps(g4, join, n);
    KeepsTrans(g2, g4, Place(g4, join), n);
  }

  lemma JoinIsNew(g: Graph, p: Arms) returns (g5: Graph)
    requires Ready(g) && Staged(g, p)
    ensures g5 == Place(p.g4, |g.blocks| + 2) && Ready(g5) && g5.blocks[g5.cur].code == []
  {
    g5 := Place(p.g4, |g.blocks| + 2);
  }

  /** The value at the join block of a conditional. */
  lemma JoinKeeps(g0: Graph, g: Graph, x: Result, fromX: nat, y: Result, fromY: nat, g': Graph, n: nat)
    requires Keeps(g0, g, n) && Ready(g) && |g0.blocks| <= g.cur && g.blocks[g.cur].code == []
    requires g' == Join(g, x, fromX, y, fromY).0
    requires
      g'.blocks[g.cur].code == [] || (g'.blocks[g.cur].code[0].Phi? && Complete(g', g.cur, g'.blocks[g.cur].code[0].ins))
    ensures Keeps(g0, g', n)
  {
    if x.Some? && y.Some? {
      DefinePhiGood(g, Phi(g.nextReg, [Incoming(fromX, x.value), Incoming(fromY, y.value)]), n);
    }
  }

  // ---------------------------------------------------------------- what it is for

  /** In every graph that is built from a good one, all PHIs are complete and no block has two jumps to one target,
      whatever is lowered. */
  lemma LoweringKeepsPhisComplete(k: Oracles, g: Graph, e: Expr, yes: nat, no: nat)
    requires Ready(g) && Good(g, 0)
    ensures Good(Value(k, g, e).0, 0) && Good(Bool(k, g, e).0, 0)
    ensures yes != no && PhiFree(g, yes) && PhiFree(g, no) ==> Good(Branch(k, g, e, yes, no), 0)
  {
    ValueKeeps(k, g, e, 0);
    BoolKeeps(k, g, e, 0);
    if yes != no && PhiFree(g, yes) && PhiFree(g, no) {
      BranchKeeps(k, g, e, yes, no, 0);
    }
  }

  /** No block gets two edges to one target. */
  lemma StaysSimple(k: Oracles, g: Graph, e: Expr, yes: nat, no: nat)
    requires Ready(g) && Linked(g) && Simple(g) && yes != no && yes < |g.blocks| && no < |g.blocks|
    ensures Simple(Branch(k, g, e, yes, no)) && Simple(Value(k, g, e).0)
  {
    BranchKeeps(k, g, e, yes, no, |g.blocks|);
    ValueKeeps(k, g, e, |g.blocks|);
  }

  /** However many edges the condition lowering has made to the join block of `&&` or `||`, its PHI has exactly one
      entry for each of them. */
  lemma ShortCircuitPhiComplete(k: Oracles, g: Graph, e: Expr, a: Expr, b: Expr, stop: bool)
    requires Ready(g) && Linked(g) && Simple(g) && a < e && b < e
    ensures var g', join := ShortCircuit(k, g, e, a, b, stop).0, |g.blocks|;
      && g'.cur == join && |g'.blocks[join].code| == 1 && g'.blocks[join].code[0].Phi?
      && Complete(g', join, g'.blocks[join].code[0].ins)
      && multiset(Sources(g'.blocks[join].code[0].ins)) == multiset(Preds(g', join))
  {
    var join, rhs, c := |g.blocks|, |g.blocks| + 1, Truth(stop);
    var g2 := BranchShort(k, g, e, a, stop);
    var g3 := StartPhi(g2, join, Imm(c));
    var (g4, x) := Bool(k, Place(g3, rhs), b);
    var g' := ShortCircuit(k, g, e, a, b, stop).0;
    ShortShape(g2, g3, g4, x, g', join, rhs, c);
    ShortCircuitKeeps(k, g, e, a, b, stop, join);
    OneEntryPerEdge(g', join, g'.blocks[join].code[0].ins);
  }

  function Sources(ins: seq<Incoming>): (s: seq<nat>)
    ensures |s| == |ins| && forall i :: 0 <= i < |s| ==> s[i] == ins[i].block
  {
    seq(|ins|, i requires 0 <= i < |ins| => ins[i].block)
  }

  /** Where no block has two edges to one target, a complete PHI has as many entries for a block as that block has
      edges. */
  lemma OneEntryPerEdge(g: Graph, b: nat, ins: seq<Incoming>)
    requires Simple(g) && Complete(g, b, ins)
    ensures multiset(Sources(ins)) == multiset(Preds(g, b))
  {
    var s, ps := Sources(ins), Preds(g, b);
    PredsIncrease(g, b, |g.blocks|, ps);
    forall p ensures p in s <==> p in ps {
      PredsComplete(g, b, p);
      if p in ps {
        var i :| 0 <= i < |ins| && ins[i].block == p;
        assert s[i] == p;
      }
    }
    SameElements(s, ps);
  }

  lemma {:induction false} AtMostOnce(s: seq<nat>, p: nat)
    requires forall i, j :: 0 <= i < j < |s| ==> s[i] != s[j]
    ensures multiset(s)[p] == if p in s then 1 else 0
  {
    if s != [] {
      assert s == [s[0]] + s[1..];
      AtMostOnce(s[1..], p);
    }
  }

  lemma SameElements(s: seq<nat>, t: seq<nat>)
    requires forall i, j :: 0 <= i < j < |s| ==> s[i] != s[j]
    requires forall i, j :: 0 <= i < j < |t| ==> t[i] != t[j]
    requires forall p :: p in s <==> p in t
    ensures multiset(s) == multiset(t)
  {
    forall p ensures multiset(s)[p] == multiset(t)[p] {
      AtMostOnce(s, p);
      AtMostOnce(t, p);
    }
  }

  // ---------------------------------------------------------------- whole functions

  /** Every emission starts from a single empty block. */
  function Start(): Graph {
    Graph([Block([], Open)], 0, 0)
  }

  /** Expressions lowered one after the other, as the statements of a function are. */
  ghost function LowerAll(k: Oracles, g: Graph, es: seq<Expr>): (g': Graph)
    requires Ready(g)
    ensures Ready(g')
    decreases |es|
  {
    if es == [] then g else LowerAll(k, Value(k, g, es[0]).0, es[1..])
  }

  lemma {:induction false} LowerAllKeepsPhisComplete(k: Oracles, g: Graph, es: seq<Expr>)
    requires Ready(g) && Good(g, 0)
    ensures Good(LowerAll(k, g, es), 0)
    decreases |es|
  {
    if es != [] {
      ValueKeeps(k, g, es[0], 0);
      LowerAllKeepsPhisComplete(k, Value(k, g, es[0]).0, es[1..]);
    }
  }

  /** In a finished function, every PHI has exactly one entry for each edge that leads to its block, whatever has
      been lowered. */
  lemma EveryPhiMatchesItsEdges(k: Oracles, es: seq<Expr>, b: nat, i: nat)
    ensures var g := LowerAll(k, Start(), es);
      && Linked(g) && Simple(g)
      && (b < |g.blocks| && i < |g.blocks[b].code| && g.blocks[b].code[i].Phi? ==>
          multiset(Sources(g.blocks[b].code[i].ins)) == multiset(Preds(g, b)))
  {
    var g := LowerAll(k, Start(), es);
    LowerAllKeepsPhisComplete(k, Start(), es);
    if b < |g.blocks| && i < |g.blocks[b].code| && g.blocks[b].code[i].Phi? {
      OneEntryPerEdge(g, b, g.blocks[b].code[i].ins);
    }
  }
}
