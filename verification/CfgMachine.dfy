/** Control-flow graphs under construction, and how they run. */
module CfgMachine {
  import opened CfgLang
  import opened Options

  datatype Operand = Imm(v: int) | Reg(r: nat) | Undef

  datatype Instr =
    | Call(dst: nat, leaf: nat)                        // evaluate a leaf
    | IsTrue(dst: nat, x: Operand)                     // conversion to bool
    | IsFalse(dst: nat, x: Operand)                    // conversion to bool, and `not`
    | Select(dst: nat, c: Operand, a: Operand, b: Operand)
    | Phi(dst: nat, ins: seq<Incoming>)

  datatype Incoming = Incoming(block: nat, x: Operand)

  datatype Term = Open | Br(dest: nat) | CondBr(c: Operand, yes: nat, no: nat) | Unwind(id: nat)

  datatype Block = Block(code: seq<Instr>, term: Term)

  /** All blocks created so far, the next unused register, and the insertion block. */
  datatype Graph = Graph(blocks: seq<Block>, nextReg: nat, cur: nat)

  // ---------------------------------------------------------------- running

  type Env = map<nat, int>

  /** In block `block`, entered from `from`, at instruction `pc`; or unwinding. */
  datatype State =
    | At(block: nat, pc: nat, env: Env, from: nat, trace: seq<nat>)
    | Unwinding(trace: seq<nat>)

  function Read(env: Env, x: Operand): Option<int> {
    match x
    case Imm(v) => Some(v)
    case Reg(r) => if r in env then Some(env[r]) else None
    case Undef => None
  }

  /** The operand that a PHI has for the predecessor `from`. */
  function Lookup(ins: seq<Incoming>, from: nat): Operand {
    if ins == [] then Undef
    else if ins[0].block == from then ins[0].x
    else Lookup(ins[1..], from)
  }

  function Assign(s: State, dst: nat, v: Option<int>): Option<State>
    requires s.At?
  {
    if v.None? then None else Some(s.(pc := s.pc + 1, env := s.env[dst := v.value]))
  }

  function Exec(w: World, i: Instr, s: State): Option<State>
    requires s.At?
  {
    match i
    case Call(dst, leaf) =>
      (match w(leaf, s.trace)
       case Yields(v) => Some(s.(pc := s.pc + 1, env := s.env[dst := v], trace := s.trace + [leaf]))
       case Raises => Some(Unwinding(s.trace + [leaf])))
    case IsTrue(dst, x) => Assign(s, dst, Map(Read(s.env, x), v => Truth(v != 0)))
    case IsFalse(dst, x) => Assign(s, dst, Map(Read(s.env, x), v => Truth(v == 0)))
    case Select(dst, c, a, b) =>
      var v := Read(s.env, c);
      if v.None? || Read(s.env, a).None? || Read(s.env, b).None? then None
      else Assign(s, dst, Read(s.env, if v.value != 0 then a else b))
    case Phi(dst, ins) => Assign(s, dst, Read(s.env, Lookup(ins, s.from)))
  }

  function Map(x: Option<int>, f: int -> int): Option<int> {
    if x.None? then None else Some(f(x.value))
  }

  function Jump(s: State, dest: nat): State
    requires s.At?
  {
    At(dest, 0, s.env, s.block, s.trace)
  }

  /** One step; `None` if the machine is stuck or at the open end of a block. */
  function Step(g: Graph, w: World, s: State): Option<State> {
    if s.Unwinding? || s.block >= |g.blocks| then None
    else
      var b := g.blocks[s.block];
      if s.pc < |b.code| then Exec(w, b.code[s.pc], s)
      else
        match b.term
        case Open => None
        case Br(dest) => Some(Jump(s, dest))
        case CondBr(c, yes, no) =>
          var v := Read(s.env, c);
          if v.None? then None else Some(Jump(s, if v.value != 0 then yes else no))
        case Unwind(id) => Some(Unwinding(s.trace + [id]))
  }

  function Steps(g: Graph, w: World, s: State, n: nat): Option<State>
    decreases n
  {
    if n == 0 then Some(s)
    else
      var t := Step(g, w, s);
      if t.None? then None else Steps(g, w, t.value, n - 1)
  }

  ghost predicate Reaches(g: Graph, w: World, s: State, t: State) {
    exists n: nat :: Steps(g, w, s, n) == Some(t)
  }

  lemma ReachesRefl(g: Graph, w: World, s: State)
    ensures Reaches(g, w, s, s)
  {
    assert Steps(g, w, s, 0) == Some(s);
  }

  lemma ReachesStep(g: Graph, w: World, s: State, t: State)
    requires Step(g, w, s) == Some(t)
    ensures Reaches(g, w, s, t)
  {
    assert Steps(g, w, t, 0) == Some(t);
    assert Steps(g, w, s, 1) == Some(t);
  }

  lemma {:induction false} StepsAdd(g: Graph, w: World, s: State, m: nat, n: nat)
    requires Steps(g, w, s, m).Some?
    ensures Steps(g, w, s, m + n) == Steps(g, w, Steps(g, w, s, m).value, n)
    decreases m
  {
    if m > 0 {
      StepsAdd(g, w, Step(g, w, s).value, m - 1, n);
    }
  }

  lemma ReachesTrans(g: Graph, w: World, s: State, t: State, u: State)
    requires Reaches(g, w, s, t) && Reaches(g, w, t, u)
    ensures Reaches(g, w, s, u)
  {
    var m: nat :| Steps(g, w, s, m) == Some(t);
    var n: nat :| Steps(g, w, t, n) == Some(u);
    StepsAdd(g, w, s, m, n);
    assert Steps(g, w, s, m + n) == Some(u);
  }

  // ---------------------------------------------------------------- growing

  ghost predicate InstrGrows(i: Instr, j: Instr) {
    i == j || (i.Phi? && j.Phi? && i.dst == j.dst && i.ins <= j.ins)
  }

  ghost predicate BlockGrows(a: Block, b: Block) {
    && |a.code| <= |b.code|
    && (forall i :: 0 <= i < |a.code| ==> InstrGrows(a.code[i], b.code[i]))
    && (!a.term.Open? ==> b.term == a.term && |b.code| == |a.code|)
  }

  /** Later graphs extend open blocks, add PHI entries and add blocks, and change nothing else. */
  ghost predicate Grows(g: Graph, g': Graph) {
    |g.blocks| <= |g'.blocks| && forall b :: 0 <= b < |g.blocks| ==> BlockGrows(g.blocks[b], g'.blocks[b])
  }

  lemma GrowsTrans(g: Graph, g1: Graph, g2: Graph)
    requires Grows(g, g1) && Grows(g1, g2)
    ensures Grows(g, g2)
  {
    forall b | 0 <= b < |g.blocks| ensures BlockGrows(g.blocks[b], g2.blocks[b]) {
      assert BlockGrows(g.blocks[b], g1.blocks[b]) && BlockGrows(g1.blocks[b], g2.blocks[b]);
      forall i | 0 <= i < |g.blocks[b].code|
        ensures InstrGrows(g.blocks[b].code[i], g2.blocks[b].code[i])
      {
        assert InstrGrows(g.blocks[b].code[i], g1.blocks[b].code[i]);
        assert InstrGrows(g1.blocks[b].code[i], g2.blocks[b].code[i]);
      }
    }
  }

  lemma {:induction false} LookupGrows(ins: seq<Incoming>, more: seq<Incoming>, from: nat)
    requires ins <= more && Lookup(ins, from) != Undef
    ensures Lookup(more, from) == Lookup(ins, from)
  {
    if ins[0].block != from {
      LookupGrows(ins[1..], more[1..], from);
    }
  }

  lemma StepGrows(g: Graph, g': Graph, w: World, s: State)
    requires Grows(g, g') && Step(g, w, s).Some?
    ensures Step(g', w, s) == Step(g, w, s)
  {
    var a, b := g.blocks[s.block], g'.blocks[s.block];
    assert BlockGrows(a, b);
    if s.pc < |a.code| {
      assert InstrGrows(a.code[s.pc], b.code[s.pc]);
      if a.code[s.pc].Phi? {
        LookupGrows(a.code[s.pc].ins, b.code[s.pc].ins, s.from);
      }
    }
  }

  lemma {:induction false} StepsGrow(g: Graph, g': Graph, w: World, s: State, n: nat)
    requires Grows(g, g') && Steps(g, w, s, n).Some?
    ensures Steps(g', w, s, n) == Steps(g, w, s, n)
    decreases n
  {
    if n > 0 {
      StepGrows(g, g', w, s);
      StepsGrow(g, g', w, Step(g, w, s).value, n - 1);
    }
  }

  /** What a graph does, every later graph does. */
  lemma ReachesGrows(g: Graph, g': Graph, w: World, s: State, t: State)
    requires Grows(g, g') && Reaches(g, w, s, t)
    ensures Reaches(g', w, s, t)
  {
    var n: nat :| Steps(g, w, s, n) == Some(t);
    StepsGrow(g, g', w, s, n);
    assert Steps(g', w, s, n) == Some(t);
  }
}
