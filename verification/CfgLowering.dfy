/** The graphs that `EmitBranchOnBoolExpr` and the scalar emitter build, as functions on graphs. */
module CfgLowering {
  import opened CfgLang
  import opened CfgMachine
  import opened Options

  predicate Wf(g: Graph) {
    g.cur < |g.blocks|
  }

  /** Code can be emitted into the insertion block. */
  predicate Ready(g: Graph) {
    Wf(g) && g.blocks[g.cur].term.Open?
  }

  predicate Closed(g: Graph) {
    Wf(g) && !g.blocks[g.cur].term.Open?
  }

  /** Of the blocks of `g`, only the insertion block has changed in `g'`, and only by growing. */
  ghost predicate Frame(g: Graph, g': Graph) {
    && Wf(g) && Wf(g') && |g.blocks| <= |g'.blocks| && g.nextReg <= g'.nextReg
    && (g'.cur == g.cur || g'.cur >= |g.blocks|)
    && (forall b :: 0 <= b < |g.blocks| && b != g.cur ==> g'.blocks[b] == g.blocks[b])
    && g.blocks[g.cur].code <= g'.blocks[g.cur].code
  }

  /** `createBasicBlock`, `n` times: the new blocks are `|g.blocks|` and up. */
  function AddBlocks(g: Graph, n: nat): (g': Graph)
    ensures g'.cur == g.cur && g'.nextReg == g.nextReg && |g'.blocks| == |g.blocks| + n
    ensures forall b :: 0 <= b < |g.blocks| ==> g'.blocks[b] == g.blocks[b]
    ensures forall b :: |g.blocks| <= b < |g.blocks| + n ==> g'.blocks[b] == Block([], Open)
  {
    g.(blocks := g.blocks + seq(n, _ => Block([], Open)))
  }

  /** End the insertion block, unless it has ended already. */
  function Terminate(g: Graph, t: Term): Graph
    requires Wf(g)
  {
    var b := g.blocks[g.cur];
    if b.term.Open? then g.(blocks := g.blocks[g.cur := b.(term := t)]) else g
  }

  /** `EmitBlock`: fall through to `b` and go on there. */
  function Place(g: Graph, b: nat): Graph
    requires Wf(g)
  {
    Terminate(g, Br(b)).(cur := b)
  }

  function Append(g: Graph, i: Instr): Graph
    requires Wf(g)
  {
    var b := g.blocks[g.cur];
    g.(blocks := g.blocks[g.cur := b.(code := b.code + [i])])
  }

  /** Append an instruction that defines a fresh register. */
  function Define(g: Graph, i: Instr): Graph
    requires Wf(g)
  {
    Append(g, i).(nextReg := g.nextReg + 1)
  }

  // ---------------------------------------------------------------- predecessors

  predicate Targets(t: Term, b: nat) {
    (t.Br? && t.dest == b) || (t.CondBr? && (t.yes == b || t.no == b))
  }

  /** Block `p`, once for each operand of its terminator that is the block `b`. */
  function Uses(t: Term, b: nat, p: nat): seq<nat> {
    match t
    case Br(dest) => if dest == b then [p] else []
    case CondBr(_, yes, no) => (if yes == b then [p] else []) + (if no == b then [p] else [])
    case _ => []
  }

  /** What `pred_iterator` visits among the first `n` blocks: one step for each edge to `b`. */
  function PredsUpTo(g: Graph, b: nat, n: nat): seq<nat>
    requires n <= |g.blocks|
  {
    if n == 0 then [] else PredsUpTo(g, b, n - 1) + Uses(g.blocks[n - 1].term, b, n - 1)
  }

  function Preds(g: Graph, b: nat): seq<nat> {
    PredsUpTo(g, b, |g.blocks|)
  }

  /** `PHINode::Create` at the start of the empty block `b`, with `x` for every edge to it so far. */
  function StartPhi(g: Graph, b: nat, x: Operand): Graph
    requires b < |g.blocks|
  {
    var ps := Preds(g, b);
    var phi := Phi(g.nextReg, seq(|ps|, i requires 0 <= i < |ps| => Incoming(ps[i], x)));
    g.(blocks := g.blocks[b := g.blocks[b].(code := [phi])], nextReg := g.nextReg + 1)
  }

  /** `addIncoming` on the PHI at the start of block `b`. */
  function AddIncoming(g: Graph, b: nat, x: Operand, from: nat): Graph
    requires b < |g.blocks| && |g.blocks[b].code| > 0 && g.blocks[b].code[0].Phi?
  {
    var phi := g.blocks[b].code[0];
    var code := g.blocks[b].code[0 := phi.(ins := phi.ins + [Incoming(from, x)])];
    g.(blocks := g.blocks[b := g.blocks[b].(code := code)])
  }

  // ---------------------------------------------------------------- conditions

  /** `EmitBranchOnBoolExpr`. */
  ghost function Branch(k: Oracles, g: Graph, e: Expr, yes: nat, no: nat): (g': Graph)
    requires Ready(g)
    ensures Closed(g') && Frame(g, g')
    decreases e, 5
  {
    match e
    case Paren(a) => Branch(k, g, a, yes, no)
    case And(a, b) =>
      if k.fold(a).Some? && k.fold(a).value != 0 then Branch(k, g, b, yes, no)
      else if k.fold(b).Some? && k.fold(b).value != 0 then Branch(k, g, a, yes, no)
      else Chain(k, g, e, a, b, true, yes, no)
    case Or(a, b) =>
      if k.fold(a).Some? && k.fold(a).value == 0 then Branch(k, g, b, yes, no)
      else if k.fold(b).Some? && k.fold(b).value == 0 then Branch(k, g, a, yes, no)
      else Chain(k, g, e, a, b, false, yes, no)
    case Not(a) => Branch(k, g, a, no, yes)
    case Cond(c, a, b) => Fork(k, g, e, c, a, b, yes, no)
    case Throw(id) => Terminate(g, Unwind(id))
    case Lit(_) => BranchOnValue(k, g, e, yes, no)
    case Leaf(_) => BranchOnValue(k, g, e, yes, no)
  }

  /** A condition, emitted into block `b`. */
  ghost function BranchIn(k: Oracles, g: Graph, b: nat, e: Expr, yes: nat, no: nat): (g': Graph)
    requires Wf(g) && Ready(Place(g, b))
    ensures Closed(g') && Frame(Place(g, b), g')
    decreases e, 6
  {
    Branch(k, Place(g, b), e, yes, no)
  }

  /** The condition `c` of a conditional with `n` new blocks, of which the first two are for the arms. */
  ghost function BranchToArms(k: Oracles, g: Graph, n: nat, c: Expr): (g1: Graph)
    requires Ready(g)
    ensures Closed(g1) && Frame(AddBlocks(g, n), g1)
    decreases c, 6
  {
    Branch(k, AddBlocks(g, n), c, |g.blocks|, |g.blocks| + 1)
  }

  /** `a && b` (`on` true) or `a || b` (`on` false): `b` is reached through a block of its own. */
  ghost function Chain(k: Oracles, g: Graph, e: Expr, a: Expr, b: Expr, on: bool, yes: nat, no: nat): (g': Graph)
    requires Ready(g) && a < e && b < e
    ensures Closed(g') && Frame(g, g')
    decreases e, 4
  {
    BranchIn(k, ChainFirst(k, g, e, a, on, yes, no), |g.blocks|, b, yes, no)
  }

  ghost function ChainFirst(k: Oracles, g: Graph, e: Expr, a: Expr, on: bool, yes: nat, no: nat): (g1: Graph)
    requires Ready(g) && a < e
    ensures Closed(g1) && Frame(AddBlocks(g, 1), g1)
    decreases e, 3
  {
    var rhs, g0 := |g.blocks|, AddBlocks(g, 1);
    Branch(k, g0, a, if on then rhs else yes, if on then no else rhs)
  }

  /** `c ? a : b`: one block for each arm. */
  ghost function Fork(k: Oracles, g: Graph, e: Expr, c: Expr, a: Expr, b: Expr, yes: nat, no: nat): (g': Graph)
    requires Ready(g) && c < e && a < e && b < e
    ensures Closed(g') && Frame(g, g')
    decreases e, 4
  {
    var g1 := BranchToArms(k, g, 2, c);
    var g2 := BranchIn(k, g1, |g.blocks|, a, yes, no);
    BranchIn(k, g2, |g.blocks| + 1, b, yes, no)
  }

  /** The general case: evaluate, then branch. */
  ghost function BranchOnValue(k: Oracles, g: Graph, e: Expr, yes: nat, no: nat): (g': Graph)
    requires Ready(g)
    ensures Closed(g') && Frame(g, g')
    decreases e, 4
  {
    var (g1, x) := Bool(k, g, e);
    Terminate(g1, CondBr(x, yes, no))
  }

  // ---------------------------------------------------------------- values

  /** The value of an expression, or none for a void one. */
  type Result = Option<Operand>

  /** `EvaluateExprAsBool`. */
  ghost function Bool(k: Oracles, g: Graph, e: Expr): (r: (Graph, Operand))
    requires Ready(g)
    ensures Ready(r.0) && Frame(g, r.0)
    decreases e, 3
  {
    var (g1, x) := Value(k, g, e);
    (Define(g1, IsTrue(g1.nextReg, OrUndef(x))), Reg(g1.nextReg))
  }

  function OrUndef(x: Result): Operand {
    if x.Some? then x.value else Undef
  }

  /** The scalar emitter's `Visit`. */
  ghost function Value(k: Oracles, g: Graph, e: Expr): (r: (Graph, Result))
    requires Ready(g)
    ensures Ready(r.0) && Frame(g, r.0)
    decreases e, 2
  {
    match e
    case Lit(v) => (g, Some(Imm(v)))
    case Leaf(id) => (Define(g, Call(g.nextReg, id)), Some(Reg(g.nextReg)))
    case Paren(a) => Value(k, g, a)
    case Not(a) =>
      var (g1, x) := Bool(k, g, a);
      (Define(g1, IsFalse(g1.nextReg, x)), Some(Reg(g1.nextReg)))
    case And(a, b) =>
      if k.fold(a).Some? then
        if k.fold(a).value != 0 then var (g1, x) := Bool(k, g, b); (g1, Some(x)) else (g, Some(Imm(0)))
      else
        ShortCircuit(k, g, e, a, b, false)
    case Or(a, b) =>
      if k.fold(a).Some? then
        if k.fold(a).value == 0 then var (g1, x) := Bool(k, g, b); (g1, Some(x)) else (g, Some(Imm(1)))
      else
        ShortCircuit(k, g, e, a, b, true)
    case Cond(c, a, b) =>
      if k.fold(c).Some? then
        var (g1, x) := Value(k, g, if k.fold(c).value != 0 then a else b);
        (g1, if x.None? && HasValue(e) then Some(Undef) else x)
      else if k.cheap(a) && k.cheap(b) then
        SelectValue(k, g, e, c, a, b)
      else
        Diamond(k, g, e, c, a, b)
    case Throw(id) =>
      var g1 := AddBlocks(Terminate(g, Unwind(id)), 1);
      (Place(g1, |g.blocks|), None)
  }

  /** The value of an expression, emitted into block `b`. */
  ghost function ValueIn(k: Oracles, g: Graph, b: nat, e: Expr): (r: (Graph, Result))
    requires Wf(g) && Ready(Place(g, b))
    ensures Ready(r.0) && Frame(Place(g, b), r.0)
    decreases e, 3
  {
    Value(k, Place(g, b), e)
  }

  /** `a && b` (`stop` false) or `a || b` (`stop` true) with a join block: `a` alone decides on every
      edge that the condition lowering sends to the join block. */
  ghost function ShortCircuit(k: Oracles, g: Graph, e: Expr, a: Expr, b: Expr, stop: bool): (r: (Graph, Result))
    requires Ready(g) && a < e && b < e
    ensures Ready(r.0) && Frame(g, r.0)
    decreases e, 1
  {
    var join, rhs := |g.blocks|, |g.blocks| + 1;
    var g2 := BranchShort(k, g, e, a, stop);
    var g3 := StartPhi(g2, join, Imm(Truth(stop)));
    var (g4, x) := Bool(k, Place(g3, rhs), b);
    (AddIncoming(Place(g4, join), join, x, g4.cur), Some(Reg(g2.nextReg)))
  }

  ghost function BranchShort(k: Oracles, g: Graph, e: Expr, a: Expr, stop: bool): (g2: Graph)
    requires Ready(g) && a < e
    ensures Closed(g2) && Frame(AddBlocks(g, 2), g2)
    decreases e, 0
  {
    var join, rhs := |g.blocks|, |g.blocks| + 1;
    var g1 := AddBlocks(g, 2);
    if stop then Branch(k, g1, a, join, rhs) else Branch(k, g1, a, rhs, join)
  }

  /** `c ? a : b` without control flow. */
  ghost function SelectValue(k: Oracles, g: Graph, e: Expr, c: Expr, a: Expr, b: Expr): (r: (Graph, Result))
    requires Ready(g) && c < e && a < e && b < e
    ensures Ready(r.0) && Frame(g, r.0)
    decreases e, 1
  {
    var (g1, x) := Bool(k, g, c);
    var (g2, y) := Value(k, g1, a);
    var (g3, z) := Value(k, g2, b);
    Choose(g3, x, y, z)
  }

  function Choose(g: Graph, x: Operand, y: Result, z: Result): (r: (Graph, Result))
    requires Ready(g)
    ensures Ready(r.0) && Frame(g, r.0)
  {
    if y.None? then (g, None)
    else (Define(g, Select(g.nextReg, x, y.value, OrUndef(z))), Some(Reg(g.nextReg)))
  }

  /** The graphs after the condition, after the first arm (with its value) and after the second. */
  datatype Arms = Arms(g1: Graph, g2: Graph, x: Result, g4: Graph, y: Result)

  /** What the lowering of `c ? a : b` relies on: the blocks for the arms and the join block are new
      and empty, and each arm is emitted into its own. */
  ghost predicate Staged(g: Graph, p: Arms) {
    var l, r, join := |g.blocks|, |g.blocks| + 1, |g.blocks| + 2;
    && Frame(AddBlocks(g, 3), p.g1) && Closed(p.g1)
    && p.g1.blocks[l] == p.g1.blocks[r] == p.g1.blocks[join] == Block([], Open)
    && Ready(p.g2) && Frame(Place(p.g1, l), p.g2)
    && Ready(p.g4) && Frame(Place(Terminate(p.g2, Br(join)), r), p.g4)
    && Ready(Place(p.g4, join))
  }

  ghost function EmitArms(k: Oracles, g: Graph, e: Expr, c: Expr, a: Expr, b: Expr): (p: Arms)
    requires Ready(g) && c < e && a < e && b < e
    ensures Staged(g, p)
    decreases e, 0, 0
  {
    var l, r, join := |g.blocks|, |g.blocks| + 1, |g.blocks| + 2;
    var g1 := BranchToArms(k, g, 3, c);
    var (g2, x) := ValueIn(k, g1, l, a);
    var (g4, y) := ValueIn(k, Terminate(g2, Br(join)), r, b);
    Arms(g1, g2, x, g4, y)
  }

  /** `c ? a : b` with a join block. */
  ghost function Diamond(k: Oracles, g: Graph, e: Expr, c: Expr, a: Expr, b: Expr): (r: (Graph, Result))
    requires Ready(g) && c < e && a < e && b < e
    ensures Ready(r.0) && Frame(g, r.0)
    decreases e, 0, 1
  {
    var p := EmitArms(k, g, e, c, a, b);
    Join(Place(p.g4, |g.blocks| + 2), p.x, p.g2.cur, p.y, p.g4.cur)
  }

  /** The value at the join block: a PHI, unless one of the arms is void. */
  function Join(g: Graph, x: Result, fromX: nat, y: Result, fromY: nat): (r: (Graph, Result))
    requires Ready(g)
    ensures Ready(r.0) && Frame(g, r.0)
  {
    if x.None? then (g, y)
    else if y.None? then (g, x)
    else (Define(g, Phi(g.nextReg, [Incoming(fromX, x.value), Incoming(fromY, y.value)])), Some(Reg(g.nextReg)))
  }
}
