/** Running the emitted blocks does what the expression means. */
module CfgCorrect {
  import opened CfgLang
  import opened CfgMachine
  import opened CfgLowering
  import opened Options

  // ---------------------------------------------------------------- graphs under construction grow

  lemma FrameGrows(g: Graph, g': Graph)
    requires Ready(g) && Frame(g, g')
    ensures Grows(g, g')
  {
  }

  lemma TerminateGrows(g: Graph, t: Term)
    requires Wf(g)
    ensures Grows(g, Terminate(g, t)) && Frame(g, Terminate(g, t))
  {
  }

  lemma PlaceGrows(g: Graph, b: nat)
    requires Wf(g)
    ensures Grows(g, Place(g, b))
  {
  }

  lemma DefineGrows(g: Graph, i: Instr)
    requires Ready(g)
    ensures Grows(g, Define(g, i)) && Frame(g, Define(g, i)) && Ready(Define(g, i))
  {
  }

  // ---------------------------------------------------------------- states

  /** Execution stands at the insertion point. */
  ghost predicate Here(g: Graph, s: State) {
    Wf(g) && s.At? && s.block == g.cur && s.pc == |g.blocks[g.cur].code|
  }

  /** Registers below `n` have kept their values. */
  ghost predicate Agrees(env: Env, env': Env, n: nat) {
    forall r :: 0 <= r < n ==> Read(env, Reg(r)) == Read(env', Reg(r))
  }

  ghost predicate Fresh(x: Operand, n: nat) {
    x.Reg? ==> x.r < n
  }

  lemma AgreesRead(env: Env, env': Env, n: nat, x: Operand)
    requires Agrees(env, env', n) && Fresh(x, n)
    ensures Read(env, x) == Read(env', x)
  {
  }

  /** From `s`, the graph `g'` has the effects of `x` and arrives at the start of the block that its truth value
      selects, by an edge of `g'`; or `x` raises. */
  ghost predicate Lands(w: World, g: Graph, x: Eff, yes: nat, no: nat, g': Graph, s: State, s': State) {
    && Reaches(g', w, s, s')
    && match x.out
       case Raised => s' == Unwinding(x.trace)
       case Val(v) => s'.At? && Arrived(g, g', s, s', if v != 0 then yes else no, x.trace)
  }

  ghost predicate Arrived(g: Graph, g': Graph, s: State, s': State, b: nat, tr: seq<nat>)
    requires s'.At?
  {
    && s.At? && s'.block == b && s'.pc == 0 && s'.trace == tr && Agrees(s.env, s'.env, g.nextReg)
    && s'.from < |g'.blocks| && Targets(g'.blocks[s'.from].term, b)
  }

  /** From `s`, the graph `g'` evaluates `e` and arrives at its insertion point with the value in `x`. */
  ghost predicate Computes(w: World, g: Graph, e: Eff, g': Graph, x: Result, s: State, s': State) {
    && Reaches(g', w, s, s')
    && match e.out
       case Raised => s' == Unwinding(e.trace)
       case Val(v) =>
         && s.At? && Here(g', s') && s'.trace == e.trace && Agrees(s.env, s'.env, g.nextReg)
         && x.Some? && Read(s'.env, x.value) == Some(v) && Fresh(x.value, g'.nextReg)
  }

  /** A graph that grows keeps what has been reached, edges included. */
  lemma LandsLater(w: World, g: Graph, x: Eff, yes: nat, no: nat, g1: Graph, g2: Graph, s: State, s': State)
    requires Lands(w, g, x, yes, no, g1, s, s') && Grows(g1, g2)
    ensures Lands(w, g, x, yes, no, g2, s, s')
  {
    ReachesGrows(g1, g2, w, s, s');
  }

  // ---------------------------------------------------------------- one instruction at the insertion point

  /** The last stage of a computation: define a register from operands already there. */
  lemma ThenDefine(w: World, g: Graph, e: Eff, g1: Graph, x: Result, s: State, s1: State, i: Instr, v: int)
    returns (s2: State)
    requires Ready(g1) && Computes(w, g, e, g1, x, s, s1) && e.out.Val? && g.nextReg <= g1.nextReg
    requires Exec(w, i, s1) == Some(s1.(pc := s1.pc + 1, env := s1.env[g1.nextReg := v]))
    ensures Computes(w, g, Eff(Val(v), e.trace), Define(g1, i), Some(Reg(g1.nextReg)), s, s2)
    ensures s2.At? && Agrees(s1.env, s2.env, g1.nextReg)
  {
    var g2 := Define(g1, i);
    DefineGrows(g1, i);
    ReachesGrows(g1, g2, w, s, s1);
    s2 := s1.(pc := s1.pc + 1, env := s1.env[g1.nextReg := v]);
    assert Step(g2, w, s1) == Some(s2);
    ReachesStep(g2, w, s1, s2);
    ReachesTrans(g2, w, s, s1, s2);
  }

  lemma RaisesLater(w: World, g: Graph, e: Eff, g1: Graph, x: Result, g2: Graph, y: Result, s: State, s1: State)
    requires Computes(w, g, e, g1, x, s, s1) && e.out.Raised? && Grows(g1, g2)
    ensures Computes(w, g, e, g2, y, s, s1)
  {
    ReachesGrows(g1, g2, w, s, s1);
  }

  // ---------------------------------------------------------------- conditions

  /** Branching on a condition runs its leaves in the order of the language, and arrives at the block
      for its truth value. */
  lemma {:induction false} BranchCorrect(k: Oracles, w: World, g: Graph, e: Expr, yes: nat, no: nat, s: State)
    returns (s': State)
    requires Sound(k, w) && Ready(g) && Here(g, s)
    ensures Lands(w, g, Eval(w, e, s.trace), yes, no, Branch(k, g, e, yes, no), s, s')
    decreases e, 5
  {
    match e
    case Paren(a) => s' := BranchCorrect(k, w, g, a, yes, no, s);
    case And(a, b) =>
      NeutralOperand(k, w, e, a, b, true, s.trace);
      if k.fold(a).Some? && k.fold(a).value != 0 {
        s' := BranchCorrect(k, w, g, b, yes, no, s);
      } else if k.fold(b).Some? && k.fold(b).value != 0 {
        s' := BranchCorrect(k, w, g, a, yes, no, s);
      } else {
        s' := ChainCorrect(k, w, g, e, a, b, true, yes, no, s);
      }
    case Or(a, b) =>
      NeutralOperand(k, w, e, a, b, false, s.trace);
      if k.fold(a).Some? && k.fold(a).value == 0 {
        s' := BranchCorrect(k, w, g, b, yes, no, s);
      } else if k.fold(b).Some? && k.fold(b).value == 0 {
        s' := BranchCorrect(k, w, g, a, yes, no, s);
      } else {
        s' := ChainCorrect(k, w, g, e, a, b, false, yes, no, s);
      }
    case Not(a) => s' := BranchCorrect(k, w, g, a, no, yes, s);
    case Cond(c, a, b) => s' := ForkCorrect(k, w, g, e, c, a, b, yes, no, s);
    case Throw(id) =>
      var g' := Branch(k, g, e, yes, no);
      s' := Unwinding(s.trace + [id]);
      ReachesStep(g', w, s, s');
    case Lit(_) => s' := BranchOnValueCorrect(k, w, g, e, yes, no, s);
    case Leaf(_) => s' := BranchOnValueCorrect(k, w, g, e, yes, no, s);
  }

  /** An operand that folds and does not decide leaves the other one's truth value. */
  lemma NeutralOperand(k: Oracles, w: World, e: Expr, a: Expr, b: Expr, on: bool, tr: seq<nat>)
    requires Sound(k, w) && e == if on then And(a, b) else Or(a, b)
    ensures k.fold(a).Some? && (k.fold(a).value != 0) == on ==> Eval(w, e, tr) == AsBool(Eval(w, b, tr))
    ensures k.fold(b).Some? && (k.fold(b).value != 0) == on ==> Eval(w, e, tr) == AsBool(Eval(w, a, tr))
  {
    if k.fold(a).Some? {
      assert Eval(w, a, tr) == Eff(Val(k.fold(a).value), tr);
    }
    if k.fold(b).Some? {
      assert Eval(w, b, Eval(w, a, tr).trace) == Eff(Val(k.fold(b).value), Eval(w, a, tr).trace);
    }
  }

  lemma BranchOnValueCorrect(k: Oracles, w: World, g: Graph, e: Expr, yes: nat, no: nat, s: State) returns (s': State)
    requires Sound(k, w) && Ready(g) && Here(g, s)
    ensures Lands(w, g, Eval(w, e, s.trace), yes, no, BranchOnValue(k, g, e, yes, no), s, s')
    decreases e, 4
  {
    var s1 := BoolCorrect(k, w, g, e, s);
    var (g1, x) := Bool(k, g, e);
    var t := CondBr(x, yes, no);
    var g2 := Terminate(g1, t);
    TerminateGrows(g1, t);
    ReachesGrows(g1, g2, w, s, s1);
    s' := s1;
    if Eval(w, e, s.trace).out.Val? {
      s' := Jump(s1, if Eval(w, e, s.trace).out.v != 0 then yes else no);
      ReachesStep(g2, w, s1, s');
      ReachesTrans(g2, w, s, s1, s');
    }
  }

  /** `h` goes on from `g` in the empty block `b`. */
  ghost predicate Into(g: Graph, b: nat, h: Graph) {
    Wf(g) && h == Place(g, b) && Ready(h) && h.blocks[b].code == []
  }

  /** A block that nothing has been emitted into can be placed. */
  lemma StillEmpty(g: Graph, g1: Graph, b: nat)
    requires Ready(g) && Closed(g1) && Frame(g, g1)
    requires b != g.cur && b < |g.blocks| && g.blocks[b] == Block([], Open)
    ensures g1.blocks[b] == Block([], Open) && Place(g1, b) == g1.(cur := b) && Into(g1, b, Place(g1, b))
  {
  }

  /** What is emitted into a block leaves everything before as it was. */
  lemma IntoGrows(g: Graph, b: nat, h: Graph, g': Graph)
    requires Into(g, b, h) && Frame(h, g')
    ensures Grows(g, g') && Grows(g', g') && h.nextReg == g.nextReg
  {
    PlaceGrows(g, b);
    FrameGrows(h, g');
    GrowsTrans(g, h, g');
  }

  lemma ChainCorrect(k: Oracles, w: World, g: Graph, e: Expr, a: Expr, b: Expr, on: bool, yes: nat, no: nat, s: State)
    returns (s': State)
    requires Sound(k, w) && Ready(g) && Here(g, s) && e == if on then And(a, b) else Or(a, b)
    ensures Lands(w, g, Eval(w, e, s.trace), yes, no, Chain(k, g, e, a, b, on, yes, no), s, s')
    decreases e, 4
  {
    var rhs, g' := |g.blocks|, Chain(k, g, e, a, b, on, yes, no);
    var g1, h := ChainParts(k, g, e, a, b, on, yes, no);
    var s1 := ChainFirstCorrect(k, w, g, e, a, on, yes, no, g1, g', s);
    var x := Eval(w, a, s.trace);
    s' := s1;
    if x.out.Val? && (x.out.v != 0) == on {
      s' := ArmLands(k, w, g, g1, rhs, h, b, g', g', yes, no, s, s1);
    }
  }

  lemma ChainParts(k: Oracles, g: Graph, e: Expr, a: Expr, b: Expr, on: bool, yes: nat, no: nat)
    returns (g1: Graph, h: Graph)
    requires Ready(g) && a < e && b < e
    ensures g1 == ChainFirst(k, g, e, a, on, yes, no) && Into(g1, |g.blocks|, h) && g.nextReg <= h.nextReg
    ensures var g' := Chain(k, g, e, a, b, on, yes, no);
      g' == BranchIn(k, g1, |g.blocks|, b, yes, no) && Grows(g1, g') && Grows(g', g')
  {
    g1 := ChainFirst(k, g, e, a, on, yes, no);
    StillEmpty(AddBlocks(g, 1), g1, |g.blocks|);
    h := Place(g1, |g.blocks|);
    IntoGrows(g1, |g.blocks|, h, BranchIn(k, g1, |g.blocks|, b, yes, no));
  }

  lemma ChainFirstCorrect(k: Oracles, w: World, g: Graph, e: Expr, a: Expr, on: bool, yes: nat, no: nat,
                          g1: Graph, g': Graph, s: State) returns (s': State)
    requires Sound(k, w) && Ready(g) && Here(g, s) && a < e
    requires g1 == ChainFirst(k, g, e, a, on, yes, no) && Grows(g1, g')
    ensures var yes1, no1 := if on then |g.blocks| else yes, if on then no else |g.blocks|;
      Lands(w, g, Eval(w, a, s.trace), yes1, no1, g', s, s')
    decreases e, 3
  {
    var yes1, no1 := if on then |g.blocks| else yes, if on then no else |g.blocks|;
    s' := BranchCorrect(k, w, AddBlocks(g, 1), a, yes1, no1, s);
    LandsLater(w, g, Eval(w, a, s.trace), yes1, no1, g1, g', s, s');
  }

  /** Execution has arrived at the block that `arm` is emitted into. */
  lemma ArmLands(k: Oracles, w: World, g: Graph, g1: Graph, b: nat, h: Graph, arm: Expr, g2: Graph, g': Graph,
                 yes: nat, no: nat, s: State, s1: State) returns (s': State)
    requires Sound(k, w) && Into(g1, b, h) && g.nextReg <= h.nextReg
    requires g2 == BranchIn(k, g1, b, arm, yes, no) && Grows(g2, g')
    requires s.At? && s1.At? && Agrees(s.env, s1.env, g.nextReg) && Reaches(g', w, s, s1) && s1.block == b && s1.pc == 0
    ensures Lands(w, g, Eval(w, arm, s1.trace), yes, no, g', s, s')
    decreases arm, 7
  {
    s' := BranchCorrect(k, w, h, arm, yes, no, s1);
    LandsLater(w, h, Eval(w, arm, s1.trace), yes, no, g2, g', s1, s');
    LandsAfter(w, g, Eval(w, arm, s1.trace), h, g', s, s1, yes, no, s');
  }

  /** Landing after something else has run. */
  lemma LandsAfter(w: World, g: Graph, x: Eff, h: Graph, g': Graph, s: State, s1: State, yes: nat, no: nat, s': State)
    requires s.At? && s1.At? && Agrees(s.env, s1.env, g.nextReg) && Reaches(g', w, s, s1)
    requires g.nextReg <= h.nextReg && Lands(w, h, x, yes, no, g', s1, s')
    ensures Lands(w, g, x, yes, no, g', s, s')
  {
    ReachesTrans(g', w, s, s1, s');
    if x.out.Val? {
      AgreesTrans(s.env, s1.env, s'.env, g.nextReg, h.nextReg);
    }
  }

  lemma AgreesTrans(a: Env, b: Env, c: Env, m: nat, n: nat)
    requires Agrees(a, b, m) && Agrees(b, c, n) && m <= n
    ensures Agrees(a, c, m)
  {
  }

  lemma ForkCorrect(k: Oracles, w: World, g: Graph, e: Expr, c: Expr, a: Expr, b: Expr, yes: nat, no: nat, s: State)
    returns (s': State)
    requires Sound(k, w) && Ready(g) && Here(g, s) && e == Cond(c, a, b)
    ensures Lands(w, g, Eval(w, e, s.trace), yes, no, Fork(k, g, e, c, a, b, yes, no), s, s')
    decreases e, 4
  {
    var l, r := |g.blocks|, |g.blocks| + 1;
    var g1, h1, g2, h2, g' := ForkParts(k, g, e, c, a, b, yes, no);
    var s1 := ToArmsCorrect(k, w, g, 2, c, g1, g', s);
    var x := Eval(w, c, s.trace);
    if x.out.Raised? {
      s' := s1;
    } else if x.out.v != 0 {
      s' := ArmLands(k, w, g, g1, l, h1, a, g2, g', yes, no, s, s1);
    } else {
      s' := ArmLands(k, w, g, g2, r, h2, b, g', g', yes, no, s, s1);
    }
  }

  /** The stages of a conditional in a condition. */
  lemma ForkParts(k: Oracles, g: Graph, e: Expr, c: Expr, a: Expr, b: Expr, yes: nat, no: nat)
    returns (g1: Graph, h1: Graph, g2: Graph, h2: Graph, g': Graph)
    requires Ready(g) && c < e && a < e && b < e
    ensures g1 == BranchToArms(k, g, 2, c) && Into(g1, |g.blocks|, h1) && g.nextReg <= h1.nextReg
    ensures g2 == BranchIn(k, g1, |g.blocks|, a, yes, no) && Into(g2, |g.blocks| + 1, h2) && g.nextReg <= h2.nextReg
    ensures g' == BranchIn(k, g2, |g.blocks| + 1, b, yes, no) && g' == Fork(k, g, e, c, a, b, yes, no)
    ensures Grows(g1, g') && Grows(g2, g') && Grows(g', g')
  {
    g1, h1 := ArmsStart(k, g, 2, c);
    g2 := BranchIn(k, g1, |g.blocks|, a, yes, no);
    StillEmpty(h1, g2, |g.blocks| + 1);
    h2 := Place(g2, |g.blocks| + 1);
    g' := BranchIn(k, g2, |g.blocks| + 1, b, yes, no);
    IntoGrows(g1, |g.blocks|, h1, g2);
    IntoGrows(g2, |g.blocks| + 1, h2, g');
    GrowsTrans(g1, g2, g');
  }

  /** After the condition of a conditional, the blocks for the arms are as they were created. */
  lemma ArmsStart(k: Oracles, g: Graph, n: nat, c: Expr) returns (g1: Graph, h1: Graph)
    requires Ready(g) && n >= 2
    ensures g1 == BranchToArms(k, g, n, c) && Into(g1, |g.blocks|, h1) && g.nextReg <= h1.nextReg
    ensures |g.blocks| + 1 < |h1.blocks| && h1.blocks[|g.blocks| + 1] == Block([], Open)
  {
    g1 := BranchToArms(k, g, n, c);
    StillEmpty(AddBlocks(g, n), g1, |g.blocks|);
    StillEmpty(AddBlocks(g, n), g1, |g.blocks| + 1);
    h1 := Place(g1, |g.blocks|);
  }

  /** The condition of a conditional arrives at the arm that it selects, also in the finished graph. */
  lemma ToArmsCorrect(k: Oracles, w: World, g: Graph, n: nat, c: Expr, g1: Graph, g': Graph, s: State) returns (s': State)
    requires Sound(k, w) && Ready(g) && Here(g, s) && g1 == BranchToArms(k, g, n, c) && Grows(g1, g')
    ensures Lands(w, g, Eval(w, c, s.trace), |g.blocks|, |g.blocks| + 1, g', s, s')
    decreases c, 6
  {
    s' := BranchCorrect(k, w, AddBlocks(g, n), c, |g.blocks|, |g.blocks| + 1, s);
    LandsLater(w, g, Eval(w, c, s.trace), |g.blocks|, |g.blocks| + 1, g1, g', s, s');
  }

  // ---------------------------------------------------------------- values

  lemma BoolCorrect(k: Oracles, w: World, g: Graph, e: Expr, s: State) returns (s': State)
    requires Sound(k, w) && Ready(g) && Here(g, s)
    ensures Computes(w, g, AsBool(Eval(w, e, s.trace)), Bool(k, g, e).0, Some(Bool(k, g, e).1), s, s')
    decreases e, 3
  {
    s' := ValueCorrect(k, w, g, e, s);
    var (g1, x) := Value(k, g, e);
    var v := Eval(w, e, s.trace);
    var i := IsTrue(g1.nextReg, OrUndef(x));
    if v.out.Raised? {
      DefineGrows(g1, i);
      RaisesLater(w, g, v, g1, x, Define(g1, i), Some(Reg(g1.nextReg)), s, s');
    } else {
      s' := ThenDefine(w, g, v, g1, x, s, s', i, Truth(v.out.v != 0));
    }
  }

  lemma {:induction false} ValueCorrect(k: Oracles, w: World, g: Graph, e: Expr, s: State) returns (s': State)
    requires Sound(k, w) && Ready(g) && Here(g, s)
    ensures Computes(w, g, Eval(w, e, s.trace), Value(k, g, e).0, Value(k, g, e).1, s, s')
    decreases e, 2
  {
    var v := Eval(w, e, s.trace);
    match e
    case Lit(_) =>
      s' := s;
      ReachesRefl(g, w, s);
    case Leaf(id) => s' := LeafCorrect(w, g, id, s);
    case Paren(a) => s' := ValueCorrect(k, w, g, a, s);
    case Not(a) => s' := NotCorrect(k, w, g, a, s);
    case And(a, b) =>
      if k.fold(a).Some? {
        s' := FoldedCorrect(k, w, g, e, a, b, false, s);
      } else {
        s' := ShortCircuitCorrect(k, w, g, e, a, b, false, s);
      }
    case Or(a, b) =>
      if k.fold(a).Some? {
        s' := FoldedCorrect(k, w, g, e, a, b, true, s);
      } else {
        s' := ShortCircuitCorrect(k, w, g, e, a, b, true, s);
      }
    case Cond(c, a, b) =>
      if k.fold(c).Some? {
        s' := ValueCorrect(k, w, g, if k.fold(c).value != 0 then a else b, s);
        assert Eval(w, c, s.trace) == Eff(Val(k.fold(c).value), s.trace);
      } else if k.cheap(a) && k.cheap(b) {
        s' := SelectCorrect(k, w, g, e, c, a, b, s);
      } else {
        s' := DiamondCorrect(k, w, g, e, c, a, b, s);
      }
    case Throw(id) =>
      s' := Unwinding(s.trace + [id]);
      ReachesStep(Value(k, g, e).0, w, s, s');
  }

  lemma FoldedCorrect(k: Oracles, w: World, g: Graph, e: Expr, a: Expr, b: Expr, stop: bool, s: State) returns (s': State)
    requires Sound(k, w) && Ready(g) && Here(g, s) && e == (if stop then Or(a, b) else And(a, b)) && k.fold(a).Some?
    ensures Computes(w, g, Eval(w, e, s.trace), Value(k, g, e).0, Value(k, g, e).1, s, s')
    decreases e, 1
  {
    assert Eval(w, a, s.trace) == Eff(Val(k.fold(a).value), s.trace);
    if (k.fold(a).value != 0) == stop {
      s' := s;
      ReachesRefl(g, w, s);
    } else {
      s' := BoolCorrect(k, w, g, b, s);
    }
  }

  lemma LeafCorrect(w: World, g: Graph, id: nat, s: State) returns (s': State)
    requires Ready(g) && Here(g, s)
    ensures Computes(w, g, Eval(w, Leaf(id), s.trace), Define(g, Call(g.nextReg, id)), Some(Reg(g.nextReg)), s, s')
  {
    var g1 := Define(g, Call(g.nextReg, id));
    s' := match w(id, s.trace)
          case Yields(y) => s.(pc := s.pc + 1, env := s.env[g.nextReg := y], trace := s.trace + [id])
          case Raises => Unwinding(s.trace + [id]);
    assert Step(g1, w, s) == Some(s');
    ReachesStep(g1, w, s, s');
  }

  lemma NotCorrect(k: Oracles, w: World, g: Graph, a: Expr, s: State) returns (s': State)
    requires Sound(k, w) && Ready(g) && Here(g, s)
    ensures Computes(w, g, Eval(w, Not(a), s.trace), Value(k, g, Not(a)).0, Value(k, g, Not(a)).1, s, s')
    decreases a, 4
  {
    s' := BoolCorrect(k, w, g, a, s);
    var (g1, x) := Bool(k, g, a);
    var y, i := AsBool(Eval(w, a, s.trace)), IsFalse(g1.nextReg, x);
    if y.out.Raised? {
      DefineGrows(g1, i);
      RaisesLater(w, g, y, g1, Some(x), Define(g1, i), Some(Reg(g1.nextReg)), s, s');
    } else {
      s' := ThenDefine(w, g, y, g1, Some(x), s, s', i, Truth(y.out.v == 0));
    }
  }

  lemma SelectCorrect(k: Oracles, w: World, g: Graph, e: Expr, c: Expr, a: Expr, b: Expr, s: State) returns (s': State)
    requires Sound(k, w) && Ready(g) && Here(g, s) && e == Cond(c, a, b) && k.cheap(a) && k.cheap(b)
    ensures Computes(w, g, Eval(w, e, s.trace), SelectValue(k, g, e, c, a, b).0, SelectValue(k, g, e, c, a, b).1, s, s')
    decreases e, 1
  {
    var (g1, x) := Bool(k, g, c);
    var (g2, y) := Value(k, g1, a);
    var (g3, z) := Value(k, g2, b);
    var i := Select(g3.nextReg, x, OrUndef(y), OrUndef(z));
    FrameGrows(g1, g2);
    FrameGrows(g2, g3);
    GrowsTrans(g1, g2, g3);
    DefineGrows(g3, i);
    s' := BoolCorrect(k, w, g, c, s);
    var v := Eval(w, c, s.trace);
    if v.out.Raised? {
      GrowsTrans(g1, g3, Define(g3, i));
      RaisesLater(w, g, v, g1, Some(x), if y.None? then g3 else Define(g3, i), SelectValue(k, g, e, c, a, b).1, s, s');
    } else {
      var s1 := s';
      var s2 := ValueCorrect(k, w, g1, a, s1);
      var s3 := ValueCorrect(k, w, g2, b, s2);
      Selects(w, g, v, Eval(w, a, v.trace), Eval(w, b, v.trace), g1, g2, g3, x, y, z, s, s1, s2, s3);
      s' := ThenDefine(w, g, Eff(Val(0), v.trace), g3, Some(Imm(0)), s, s3, i,
                       if v.out.v != 0 then Eval(w, a, v.trace).out.v else Eval(w, b, v.trace).out.v);
    }
  }

  /** The condition and both arms have been computed, one after the other. */
  lemma Selects(w: World, g: Graph, v: Eff, va: Eff, vb: Eff, g1: Graph, g2: Graph, g3: Graph,
                x: Operand, y: Result, z: Result, s: State, s1: State, s2: State, s3: State)
    requires v.out.Val? && va.out.Val? && vb.out.Val? && v.trace == va.trace == vb.trace
    requires Computes(w, g, AsBool(v), g1, Some(x), s, s1)
    requires Computes(w, g1, va, g2, y, s1, s2) && Computes(w, g2, vb, g3, z, s2, s3)
    requires Grows(g1, g3) && Grows(g2, g3) && g.nextReg <= g1.nextReg <= g2.nextReg <= g3.nextReg
    ensures Computes(w, g, Eff(Val(0), v.trace), g3, Some(Imm(0)), s, s3)
    ensures Read(s3.env, x) == Some(Truth(v.out.v != 0))
    ensures y.Some? && Read(s3.env, y.value) == Some(va.out.v) && z.Some? && Read(s3.env, z.value) == Some(vb.out.v)
  {
    ReachesGrows(g1, g3, w, s, s1);
    ReachesGrows(g2, g3, w, s1, s2);
    ReachesTrans(g3, w, s, s1, s2);
    ReachesTrans(g3, w, s, s2, s3);
    AgreesTrans(s.env, s1.env, s2.env, g.nextReg, g1.nextReg);
    AgreesTrans(s.env, s2.env, s3.env, g.nextReg, g2.nextReg);
    AgreesRead(s1.env, s2.env, g1.nextReg, x);
    AgreesRead(s2.env, s3.env, g2.nextReg, x);
    AgreesRead(s2.env, s3.env, g2.nextReg, y.value);
  }

  // ---------------------------------------------------------------- join blocks

  lemma InEither(s: seq<nat>, t: seq<nat>, p: nat)
    ensures p in s + t <==> p in s || p in t
  {
  }

  lemma UsesComplete(t: Term, b: nat, p: nat, q: nat)
    ensures q in Uses(t, b, p) <==> q == p && Targets(t, b)
  {
  }

  lemma {:induction false} PredsUpToComplete(g: Graph, b: nat, n: nat, ps: seq<nat>, p: nat)
    requires n <= |g.blocks| && ps == PredsUpTo(g, b, n)
    ensures p in ps <==> p < n && Targets(g.blocks[p].term, b)
    decreases n
  {
    if n > 0 {
      var before, uses := PredsUpTo(g, b, n - 1), Uses(g.blocks[n - 1].term, b, n - 1);
      PredsUpToComplete(g, b, n - 1, before, p);
      UsesComplete(g.blocks[n - 1].term, b, n - 1, p);
      InEither(before, uses, p);
      assert ps == before + uses;
    }
  }

  /** The predecessors of a block are the blocks that jump to it. */
  lemma PredsComplete(g: Graph, b: nat, p: nat)
    ensures p in Preds(g, b) <==> p < |g.blocks| && Targets(g.blocks[p].term, b)
  {
    PredsUpToComplete(g, b, |g.blocks|, Preds(g, b), p);
  }

  function Same(ps: seq<nat>, x: Operand): seq<Incoming> {
    seq(|ps|, i requires 0 <= i < |ps| => Incoming(ps[i], x))
  }

  lemma {:induction false} LookupSame(ps: seq<nat>, x: Operand, more: seq<Incoming>, p: nat)
    ensures p in ps ==> Lookup(Same(ps, x) + more, p) == x
    ensures p !in ps ==> Lookup(Same(ps, x) + more, p) == Lookup(more, p)
  {
    if ps == [] {
      assert Same(ps, x) + more == more;
    } else {
      assert (Same(ps, x) + more)[1..] == Same(ps[1..], x) + more;
      LookupSame(ps[1..], x, more, p);
    }
  }

  /** Entering a block whose only instruction is a PHI. */
  lemma Enter(w: World, g: Graph, join: nat, dst: nat, ins: seq<Incoming>, s: State, v: int) returns (s': State)
    requires join < |g.blocks| && g.blocks[join].code == [Phi(dst, ins)] && g.cur == join
    requires s.At? && s.block == join && s.pc == 0 && Read(s.env, Lookup(ins, s.from)) == Some(v)
    ensures Reaches(g, w, s, s') && s' == s.(pc := 1, env := s.env[dst := v]) && Here(g, s')
  {
    s' := s.(pc := 1, env := s.env[dst := v]);
    ReachesStep(g, w, s, s');
  }

  /** The stages of a short-circuit lowering, and what each leaves in the join block. */
  ghost predicate ShortStages(g2: Graph, g3: Graph, g4: Graph, x: Operand, g': Graph, join: nat, rhs: nat, c: int) {
    && Closed(g2) && join < |g2.blocks| && rhs < |g2.blocks| && join != rhs
    && g2.blocks[join] == Block([], Open) && g2.blocks[rhs] == Block([], Open)
    && g3 == StartPhi(g2, join, Imm(c)) && Ready(g4) && Frame(Place(g3, rhs), g4)
    && g' == AddIncoming(Place(g4, join), join, x, g4.cur)
  }

  lemma ShortShape(g2: Graph, g3: Graph, g4: Graph, x: Operand, g': Graph, join: nat, rhs: nat, c: int)
    requires join < |g2.blocks| && Wf(g4) && join < |g4.blocks|
    requires |Place(g4, join).blocks[join].code| > 0 && Place(g4, join).blocks[join].code[0].Phi?
    requires ShortStages(g2, g3, g4, x, g', join, rhs, c)
    ensures g'.cur == join && join < |g'.blocks| && g4.cur < |g'.blocks|
    ensures g'.blocks[join] == Block([Phi(g2.nextReg, Same(Preds(g2, join), Imm(c)) + [Incoming(g4.cur, x)])], Open)
    ensures g'.blocks[g4.cur] == g4.blocks[g4.cur].(term := Br(join))
    ensures g4.cur !in Preds(g2, join)
  {
    PredsComplete(g2, join, g4.cur);
  }

  lemma ShortGrows(g2: Graph, g3: Graph, g4: Graph, x: Operand, g': Graph, join: nat, rhs: nat, c: int)
    requires Wf(g4) && join < |g2.blocks| && join < |g4.blocks|
    requires |Place(g4, join).blocks[join].code| > 0 && Place(g4, join).blocks[join].code[0].Phi?
    requires ShortStages(g2, g3, g4, x, g', join, rhs, c)
    ensures Grows(g2, g') && Grows(g4, g')
  {
    ShortShape(g2, g3, g4, x, g', join, rhs, c);
    FrameGrows(Place(g3, rhs), g4);
    forall p | 0 <= p < |g2.blocks| ensures BlockGrows(g2.blocks[p], g'.blocks[p]) {
      if p != join && p != rhs {
        assert Place(g3, rhs).blocks[p] == g2.blocks[p] == g4.blocks[p];
      }
    }
    forall p | 0 <= p < |g4.blocks| ensures BlockGrows(g4.blocks[p], g'.blocks[p]) {
      if p == join {
        assert g4.blocks[p] == g3.blocks[p];
      }
    }
  }

  /** The first operand decides: the PHI takes the constant. */
  lemma ShortStops(w: World, g2: Graph, g': Graph, join: nat, c: int, more: seq<Incoming>, s1: State) returns (s': State)
    requires s1.At? && s1.block == join && s1.pc == 0 && s1.from in Preds(g2, join)
    requires join < |g'.blocks| && g'.cur == join
    requires g'.blocks[join].code == [Phi(g2.nextReg, Same(Preds(g2, join), Imm(c)) + more)]
    ensures Reaches(g', w, s1, s') && Here(g', s') && s' == s1.(pc := 1, env := s1.env[g2.nextReg := c])
  {
    LookupSame(Preds(g2, join), Imm(c), more, s1.from);
    s' := Enter(w, g', join, g2.nextReg, Same(Preds(g2, join), Imm(c)) + more, s1, c);
  }

  /** The second operand decides: its block falls through to the join block, and the PHI takes its value. */
  lemma ShortGoesOn(w: World, g2: Graph, g': Graph, join: nat, c: int, x: Operand, s4: State, v: int) returns (s': State)
    requires s4.At? && s4.block !in Preds(g2, join) && Read(s4.env, x) == Some(v)
    requires join < |g'.blocks| && g'.cur == join && s4.block < |g'.blocks|
    requires s4.pc == |g'.blocks[s4.block].code| && g'.blocks[s4.block].term == Br(join)
    requires g'.blocks[join].code == [Phi(g2.nextReg, Same(Preds(g2, join), Imm(c)) + [Incoming(s4.block, x)])]
    ensures Reaches(g', w, s4, s') && Here(g', s') && s'.env == s4.env[g2.nextReg := v] && s'.trace == s4.trace
  {
    var ins := Same(Preds(g2, join), Imm(c)) + [Incoming(s4.block, x)];
    LookupSame(Preds(g2, join), Imm(c), [Incoming(s4.block, x)], s4.block);
    var s5 := Jump(s4, join);
    ReachesStep(g', w, s4, s5);
    s' := Enter(w, g', join, g2.nextReg, ins, s5, v);
    ReachesTrans(g', w, s4, s5, s');
  }

  lemma ShortCircuitCorrect(k: Oracles, w: World, g: Graph, e: Expr, a: Expr, b: Expr, stop: bool, s: State)
    returns (s': State)
    requires Sound(k, w) && Ready(g) && Here(g, s) && e == if stop then Or(a, b) else And(a, b)
    ensures var (g', x) := ShortCircuit(k, g, e, a, b, stop);
      Computes(w, g, Eval(w, e, s.trace), g', x, s, s')
    decreases e, 1
  {
    var join, rhs := |g.blocks|, |g.blocks| + 1;
    ShortHasStages(k, g, e, a, b, stop);
    var g2 := BranchShort(k, g, e, a, stop);
    var g3 := StartPhi(g2, join, Imm(Truth(stop)));
    var (g4, x) := Bool(k, Place(g3, rhs), b);
    var g' := ShortCircuit(k, g, e, a, b, stop).0;
    var s1 := BranchShortCorrect(k, w, g, e, a, stop, g2, g', s);
    s' := ShortRuns(k, w, g, e, a, b, stop, g2, g3, g4, x, g', s, s1);
  }

  lemma BranchShortCorrect(k: Oracles, w: World, g: Graph, e: Expr, a: Expr, stop: bool, g2: Graph, g': Graph, s: State)
    returns (s': State)
    requires Sound(k, w) && Ready(g) && Here(g, s) && a < e && g2 == BranchShort(k, g, e, a, stop) && Grows(g2, g')
    ensures var join, rhs := |g.blocks|, |g.blocks| + 1;
      && Lands(w, g, Eval(w, a, s.trace), if stop then join else rhs, if stop then rhs else join, g2, s, s')
      && Reaches(g', w, s, s')
    decreases e, 0
  {
    var join, rhs := |g.blocks|, |g.blocks| + 1;
    s' := BranchCorrect(k, w, AddBlocks(g, 2), a, if stop then join else rhs, if stop then rhs else join, s);
    ReachesGrows(g2, g', w, s, s');
  }

  /** What the stages of a short-circuit lowering give for running it. */
  ghost predicate ShortStaged(g2: Graph, g3: Graph, g4: Graph, x: Operand, g': Graph, join: nat, rhs: nat, c: int) {
    && g2.nextReg < g4.nextReg && g2.nextReg <= g3.nextReg && g'.nextReg == g4.nextReg
    && Wf(g3) && rhs < |g3.blocks| && Ready(Place(g3, rhs)) && Place(g3, rhs).blocks[rhs].code == []
    && Grows(g2, g') && Grows(g4, g')
    && g'.cur == join && join < |g'.blocks| && g4.cur < |g'.blocks|
    && g'.blocks[join].code == [Phi(g2.nextReg, Same(Preds(g2, join), Imm(c)) + [Incoming(g4.cur, x)])]
    && g4.cur < |g4.blocks| && g'.blocks[g4.cur] == g4.blocks[g4.cur].(term := Br(join)) && g4.cur !in Preds(g2, join)
  }

  lemma StagesAreStaged(g2: Graph, g3: Graph, g4: Graph, x: Operand, g': Graph, join: nat, rhs: nat, c: int)
    requires join < |g2.blocks| && Wf(g4) && join < |g4.blocks|
    requires |Place(g4, join).blocks[join].code| > 0 && Place(g4, join).blocks[join].code[0].Phi?
    requires ShortStages(g2, g3, g4, x, g', join, rhs, c)
    ensures ShortStaged(g2, g3, g4, x, g', join, rhs, c)
  {
    ShortShape(g2, g3, g4, x, g', join, rhs, c);
    ShortGrows(g2, g3, g4, x, g', join, rhs, c);
  }

  lemma ShortHasStages(k: Oracles, g: Graph, e: Expr, a: Expr, b: Expr, stop: bool)
    requires Ready(g) && a < e && b < e
    ensures
      var join, rhs, c := |g.blocks|, |g.blocks| + 1, Truth(stop);
      var g2 := BranchShort(k, g, e, a, stop);
      var g3 := StartPhi(g2, join, Imm(c));
      var (g4, x) := Bool(k, Place(g3, rhs), b);
      ShortStaged(g2, g3, g4, x, ShortCircuit(k, g, e, a, b, stop).0, join, rhs, c)
  {
    var join, rhs, c := |g.blocks|, |g.blocks| + 1, Truth(stop);
    var g2 := BranchShort(k, g, e, a, stop);
    var g3 := StartPhi(g2, join, Imm(c));
    var (g4, x) := Bool(k, Place(g3, rhs), b);
    StagesAreStaged(g2, g3, g4, x, ShortCircuit(k, g, e, a, b, stop).0, join, rhs, c);
  }

  lemma ShortRuns(k: Oracles, w: World, g: Graph, e: Expr, a: Expr, b: Expr, stop: bool,
                  g2: Graph, g3: Graph, g4: Graph, x: Operand, g': Graph, s: State, s1: State) returns (s': State)
    requires Sound(k, w) && Here(g, s) && e == if stop then Or(a, b) else And(a, b)
    requires ShortStaged(g2, g3, g4, x, g', |g.blocks|, |g.blocks| + 1, Truth(stop)) && g.nextReg <= g2.nextReg
    requires Bool(k, Place(g3, |g.blocks| + 1), b) == (g4, x)
    requires var join, rhs := |g.blocks|, |g.blocks| + 1;
      && Lands(w, g, Eval(w, a, s.trace), if stop then join else rhs, if stop then rhs else join, g2, s, s1)
      && Reaches(g', w, s, s1)
    ensures Computes(w, g, Eval(w, e, s.trace), g', Some(Reg(g2.nextReg)), s, s')
    decreases e, 0
  {
    var v := Eval(w, a, s.trace);
    if v.out.Raised? {
      s' := s1;
    } else if (v.out.v != 0) == stop {
      s' := ShortDecided(w, g, stop, g2, g3, g4, x, g', s, s1);
    } else {
      s' := ShortUndecided(k, w, g, b, stop, g2, g3, g4, x, g', s, s1);
    }
  }

  /** The first operand has sent execution to the join block. */
  lemma ShortDecided(w: World, g: Graph, stop: bool, g2: Graph, g3: Graph, g4: Graph, x: Operand, g': Graph,
                     s: State, s1: State) returns (s': State)
    requires ShortStaged(g2, g3, g4, x, g', |g.blocks|, |g.blocks| + 1, Truth(stop)) && g.nextReg <= g2.nextReg
    requires s.At? && s1.At? && Arrived(g, g2, s, s1, |g.blocks|, s1.trace) && Reaches(g', w, s, s1)
    ensures Computes(w, g, Eff(Val(Truth(stop)), s1.trace), g', Some(Reg(g2.nextReg)), s, s')
  {
    PredsComplete(g2, |g.blocks|, s1.from);
    s' := ShortStops(w, g2, g', |g.blocks|, Truth(stop), [Incoming(g4.cur, x)], s1);
    ReachesTrans(g', w, s, s1, s');
  }

  /** The first operand has sent execution to the block of the second. */
  lemma ShortUndecided(k: Oracles, w: World, g: Graph, b: Expr, stop: bool, g2: Graph, g3: Graph, g4: Graph, x: Operand,
                       g': Graph, s: State, s1: State) returns (s': State)
    requires Sound(k, w) && ShortStaged(g2, g3, g4, x, g', |g.blocks|, |g.blocks| + 1, Truth(stop))
    requires g.nextReg <= g2.nextReg && Bool(k, Place(g3, |g.blocks| + 1), b) == (g4, x)
    requires s.At? && s1.At? && Arrived(g, g2, s, s1, |g.blocks| + 1, s1.trace) && Reaches(g', w, s, s1)
    ensures Computes(w, g, AsBool(Eval(w, b, s1.trace)), g', Some(Reg(g2.nextReg)), s, s')
    decreases b, 8
  {
    var u := AsBool(Eval(w, b, s1.trace));
    var s4 := BoolCorrect(k, w, Place(g3, |g.blocks| + 1), b, s1);
    ReachesGrows(g4, g', w, s1, s4);
    ReachesTrans(g', w, s, s1, s4);
    s' := s4;
    if u.out.Val? {
      s' := ShortGoesOn(w, g2, g', |g.blocks|, Truth(stop), x, s4, u.out.v);
      ReachesTrans(g', w, s, s4, s');
    }
  }

  lemma DiamondShape(g: Graph, p: Arms, g': Graph, v: Result)
    requires Ready(g) && Staged(g, p) && (g', v) == Join(Place(p.g4, |g.blocks| + 2), p.x, p.g2.cur, p.y, p.g4.cur)
    ensures var join := |g.blocks| + 2;
      && g'.cur == join && join < |g'.blocks| && p.g2.cur < |g'.blocks| && p.g4.cur < |g'.blocks| && p.g2.cur != p.g4.cur
      && g'.blocks[p.g2.cur] == p.g2.blocks[p.g2.cur].(term := Br(join))
      && g'.blocks[p.g4.cur] == p.g4.blocks[p.g4.cur].(term := Br(join))
      && g'.blocks[join].code == if p.x.Some? && p.y.Some?
        then [Phi(p.g4.nextReg, [Incoming(p.g2.cur, p.x.value), Incoming(p.g4.cur, p.y.value)])] else []
  {
  }

  lemma DiamondGrows(g: Graph, p: Arms, g': Graph, v: Result)
    requires Ready(g) && Staged(g, p) && (g', v) == Join(Place(p.g4, |g.blocks| + 2), p.x, p.g2.cur, p.y, p.g4.cur)
    ensures Grows(p.g1, g') && Grows(p.g2, g') && Grows(p.g4, g')
  {
    var l, r, join := |g.blocks|, |g.blocks| + 1, |g.blocks| + 2;
    var t2, g5 := Terminate(p.g2, Br(join)), Place(p.g4, join);
    PlaceGrows(p.g1, l);
    FrameGrows(Place(p.g1, l), p.g2);
    GrowsTrans(p.g1, Place(p.g1, l), p.g2);
    TerminateGrows(p.g2, Br(join));
    PlaceGrows(t2, r);
    FrameGrows(Place(t2, r), p.g4);
    GrowsTrans(p.g2, t2, Place(t2, r));
    GrowsTrans(p.g2, Place(t2, r), p.g4);
    PlaceGrows(p.g4, join);
    FrameGrows(g5, g');
    GrowsTrans(p.g4, g5, g');
    GrowsTrans(p.g2, p.g4, g');
    GrowsTrans(p.g1, p.g2, g');
  }

  /** The graph `ga` of an arm that starts in `h` and has the value `x` ends with a jump to the join block of `g'`, where
      the value is `v`: the same, or the PHI `dst`. */
  ghost predicate Joins(g: Graph, h: Graph, ga: Graph, x: Result, g': Graph, join: nat, v: Result,
                        dst: nat, ins: seq<Incoming>) {
    && g.nextReg <= h.nextReg && g.nextReg <= dst && ga.nextReg <= g'.nextReg
    && Grows(ga, g') && join < |g'.blocks| && g'.cur == join
    && Wf(ga) && ga.cur < |g'.blocks| && g'.blocks[ga.cur] == ga.blocks[ga.cur].(term := Br(join))
    && (x.Some? && v.Some? ==>
      || (g'.blocks[join].code == [] && v == x)
      || (g'.blocks[join].code == [Phi(dst, ins)] && v == Some(Reg(dst)) && dst < g'.nextReg
          && Lookup(ins, ga.cur) == x.value))
    && (x.Some? ==> v.Some?)
  }

  /** An arm has been computed; its block jumps to the join block, where the value is found again. */
  lemma ArmJoins(w: World, g: Graph, e: Eff, h: Graph, ga: Graph, x: Result, g': Graph, join: nat, v: Result,
                 dst: nat, ins: seq<Incoming>, s: State, s1: State, s2: State) returns (s': State)
    requires s.At? && s1.At? && Agrees(s.env, s1.env, g.nextReg) && Reaches(g', w, s, s1)
    requires Computes(w, h, e, ga, x, s1, s2) && Joins(g, h, ga, x, g', join, v, dst, ins)
    ensures Computes(w, g, e, g', v, s, s')
  {
    ReachesGrows(ga, g', w, s1, s2);
    ReachesTrans(g', w, s, s1, s2);
    s' := s2;
    if e.out.Val? {
      AgreesTrans(s.env, s1.env, s2.env, g.nextReg, h.nextReg);
      s' := Jump(s2, join);
      ReachesStep(g', w, s2, s');
      ReachesTrans(g', w, s, s2, s');
      if g'.blocks[join].code != [] {
        var s3 := s';
        s' := Enter(w, g', join, dst, ins, s3, e.out.v);
        ReachesTrans(g', w, s, s3, s');
      }
    }
  }

  /** The value of `arm` is emitted into the empty block `b`, and joins. */
  ghost predicate ArmFits(k: Oracles, g: Graph, gi: Graph, b: nat, h: Graph, arm: Expr, ga: Graph, x: Result,
                          g': Graph, join: nat, v: Result, dst: nat, ins: seq<Incoming>) {
    Into(gi, b, h) && ValueIn(k, gi, b, arm) == (ga, x) && Joins(g, h, ga, x, g', join, v, dst, ins)
  }

  lemma DiamondCorrect(k: Oracles, w: World, g: Graph, e: Expr, c: Expr, a: Expr, b: Expr, s: State) returns (s': State)
    requires Sound(k, w) && Ready(g) && Here(g, s) && e == Cond(c, a, b)
    ensures Computes(w, g, Eval(w, e, s.trace), Diamond(k, g, e, c, a, b).0, Diamond(k, g, e, c, a, b).1, s, s')
    decreases e, 1
  {
    var l, r, join := |g.blocks|, |g.blocks| + 1, |g.blocks| + 2;
    var p, h1, t2, h2, g', v := DiamondParts(k, g, e, c, a, b);
    var s1 := ToArmsCorrect(k, w, g, 3, c, p.g1, g', s);
    var z := Eval(w, c, s.trace);
    if z.out.Raised? {
      s' := s1;
    } else if z.out.v != 0 {
      s' := ArmRuns(k, w, g, p.g1, l, h1, a, p.g2, p.x, g', join, v, p.g4.nextReg, Incomings(p), s, s1);
    } else {
      s' := ArmRuns(k, w, g, t2, r, h2, b, p.g4, p.y, g', join, v, p.g4.nextReg, Incomings(p), s, s1);
    }
  }

  /** The stages of a conditional with a join block. */
  lemma DiamondParts(k: Oracles, g: Graph, e: Expr, c: Expr, a: Expr, b: Expr)
    returns (p: Arms, h1: Graph, t2: Graph, h2: Graph, g': Graph, v: Result)
    requires Ready(g) && c < e && a < e && b < e
    ensures (g', v) == Diamond(k, g, e, c, a, b) && p.g1 == BranchToArms(k, g, 3, c) && Grows(p.g1, g')
    ensures ArmFits(k, g, p.g1, |g.blocks|, h1, a, p.g2, p.x, g', |g.blocks| + 2, v, p.g4.nextReg, Incomings(p))
    ensures ArmFits(k, g, t2, |g.blocks| + 1, h2, b, p.g4, p.y, g', |g.blocks| + 2, v, p.g4.nextReg, Incomings(p))
  {
    p := EmitArms(k, g, e, c, a, b);
    g', v := Diamond(k, g, e, c, a, b).0, Diamond(k, g, e, c, a, b).1;
    h1 := FirstArmStarts(g, p);
    FirstArmEnds(g, p, g', v, h1);
    t2, h2 := SecondArmStarts(g, p);
    SecondArmEnds(g, p, g', v, h2);
    DiamondGrows(g, p, g', v);
  }

  /** Execution has arrived at the block of an arm: its value is computed, and found again at the join block. */
  lemma ArmRuns(k: Oracles, w: World, g: Graph, gi: Graph, b: nat, h: Graph, arm: Expr, ga: Graph, x: Result,
                g': Graph, join: nat, v: Result, dst: nat, ins: seq<Incoming>, s: State, s1: State) returns (s': State)
    requires Sound(k, w) && ArmFits(k, g, gi, b, h, arm, ga, x, g', join, v, dst, ins)
    requires s.At? && s1.At? && Agrees(s.env, s1.env, g.nextReg) && Reaches(g', w, s, s1) && s1.block == b && s1.pc == 0
    ensures Computes(w, g, Eval(w, arm, s1.trace), g', v, s, s')
    decreases arm, 7
  {
    var s2 := ValueCorrect(k, w, h, arm, s1);
    s' := ArmJoins(w, g, Eval(w, arm, s1.trace), h, ga, x, g', join, v, dst, ins, s, s1, s2);
  }

  lemma FirstArmStarts(g: Graph, p: Arms) returns (h: Graph)
    requires Ready(g) && Staged(g, p)
    ensures h == Place(p.g1, |g.blocks|) && Into(p.g1, |g.blocks|, h)
  {
    h := Place(p.g1, |g.blocks|);
  }

  lemma SecondArmStarts(g: Graph, p: Arms) returns (t2: Graph, h: Graph)
    requires Ready(g) && Staged(g, p)
    ensures t2 == Terminate(p.g2, Br(|g.blocks| + 2)) && h == Place(t2, |g.blocks| + 1) && Into(t2, |g.blocks| + 1, h)
  {
    t2 := Terminate(p.g2, Br(|g.blocks| + 2));
    StillEmpty(Place(p.g1, |g.blocks|), t2, |g.blocks| + 1);
    h := Place(t2, |g.blocks| + 1);
  }

  function Incomings(p: Arms): seq<Incoming> {
    if p.x.Some? && p.y.Some? then [Incoming(p.g2.cur, p.x.value), Incoming(p.g4.cur, p.y.value)] else []
  }

  lemma FirstArmEnds(g: Graph, p: Arms, g': Graph, v: Result, h: Graph)
    requires Ready(g) && Staged(g, p) && (g', v) == Join(Place(p.g4, |g.blocks| + 2), p.x, p.g2.cur, p.y, p.g4.cur)
    requires h == Place(p.g1, |g.blocks|)
    ensures Joins(g, h, p.g2, p.x, g', |g.blocks| + 2, v, p.g4.nextReg, Incomings(p))
  {
    DiamondShape(g, p, g', v);
    DiamondGrows(g, p, g', v);
    StageNumbers(g, p);
    JoinedValue(Place(p.g4, |g.blocks| + 2), p, g', v);
    FirstJoins(g, h, p, g', |g.blocks| + 2, v);
  }

  lemma StageNumbers(g: Graph, p: Arms)
    requires Ready(g) && Staged(g, p)
    ensures Wf(p.g2) && Wf(p.g4) && g.nextReg <= p.g1.nextReg <= p.g2.nextReg <= p.g4.nextReg
  {
  }

  /** The value at the join block is that of the only arm that has one, or that of the PHI. */
  lemma JoinedValue(g5: Graph, p: Arms, g': Graph, v: Result)
    requires Ready(g5) && (g', v) == Join(g5, p.x, p.g2.cur, p.y, p.g4.cur)
    ensures g5.nextReg <= g'.nextReg
    ensures if p.x.None? then v == p.y else if p.y.None? then v == p.x
            else v == Some(Reg(g5.nextReg)) && g5.nextReg < g'.nextReg
  {
  }

  lemma FirstJoins(g: Graph, h: Graph, p: Arms, g': Graph, join: nat, v: Result)
    requires g.nextReg <= h.nextReg <= p.g2.nextReg <= p.g4.nextReg <= g'.nextReg && Grows(p.g2, g')
    requires Wf(p.g2) && join < |g'.blocks| && g'.cur == join
    requires p.g2.cur < |g'.blocks| && g'.blocks[p.g2.cur] == p.g2.blocks[p.g2.cur].(term := Br(join))
    requires g'.blocks[join].code == if p.x.Some? && p.y.Some? then [Phi(p.g4.nextReg, Incomings(p))] else []
    requires if p.x.None? then v == p.y else if p.y.None? then v == p.x
             else v == Some(Reg(p.g4.nextReg)) && p.g4.nextReg < g'.nextReg
    ensures Joins(g, h, p.g2, p.x, g', join, v, p.g4.nextReg, Incomings(p))
  {
  }

  lemma SecondArmEnds(g: Graph, p: Arms, g': Graph, v: Result, h: Graph)
    requires Ready(g) && Staged(g, p) && (g', v) == Join(Place(p.g4, |g.blocks| + 2), p.x, p.g2.cur, p.y, p.g4.cur)
    requires h == Place(Terminate(p.g2, Br(|g.blocks| + 2)), |g.blocks| + 1)
    ensures Joins(g, h, p.g4, p.y, g', |g.blocks| + 2, v, p.g4.nextReg, Incomings(p))
  {
    DiamondShape(g, p, g', v);
    DiamondGrows(g, p, g', v);
    LookupSecond(p);
  }

  lemma LookupSecond(p: Arms)
    requires p.g2.cur != p.g4.cur
    ensures p.x.Some? && p.y.Some? ==> Lookup(Incomings(p), p.g4.cur) == p.y.value
  {
    if p.x.Some? && p.y.Some? {
      assert Incomings(p)[1..] == [Incoming(p.g4.cur, p.y.value)];
      assert Lookup(Incomings(p)[1..], p.g4.cur) == p.y.value;
    }
  }
}
