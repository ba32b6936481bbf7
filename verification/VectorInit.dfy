/** Vector initializer lists (`ScalarExprEmitter::VisitInitListExpr`): scalars, vectors and swizzles are
    strung together into one vector, and the shuffles that swizzles stand for are folded into the
    shuffles that build the result. The builder folds instructions on constants, so that a value the
    code takes for a shuffle may be a constant: then the emission fails. */
module VectorInit {
  import opened Options

  /** One element of a vector value. */
  datatype Lane = Undef | Known(value: int)

  /** An element of a shuffle mask: no choice, or an index into the two operands laid side by side. */
  datatype Index = Anything | At(n: nat)

  /** Vectors: any value computed elsewhere, a constant, `shufflevector` and `insertelement`. */
  datatype Value =
    | Given(lanes: seq<Lane>)
    | Const(lanes: seq<Lane>)
    | Shuffle(lhs: Value, rhs: Value, mask: seq<Index>)
    | Insert(into: Value, lane: Lane, at: nat)

  function Width(v: Value): nat {
    match v
    case Given(lanes) => |lanes|
    case Const(lanes) => |lanes|
    case Shuffle(_, _, mask) => |mask|
    case Insert(into, _, _) => Width(into)
  }

  /** The operands of a shuffle have one width, and indices stay inside their vectors. */
  predicate WellTyped(v: Value) {
    match v
    case Given(_) => true
    case Const(_) => true
    case Shuffle(lhs, rhs, mask) => WellTyped(lhs) && WellTyped(rhs) && MaskFits(lhs, rhs, mask)
    case Insert(into, _, at) => WellTyped(into) && at < Width(into)
  }

  predicate MaskFits(lhs: Value, rhs: Value, mask: seq<Index>) {
    && Width(lhs) == Width(rhs)
    && forall j :: 0 <= j < |mask| && mask[j].At? ==> mask[j].n < 2 * Width(lhs)
  }

  /** What lane `j` of `v` holds when the instructions run. */
  function LaneOf(v: Value, j: nat): Lane
    requires WellTyped(v) && j < Width(v)
  {
    match v
    case Given(lanes) => lanes[j]
    case Const(lanes) => lanes[j]
    case Shuffle(lhs, rhs, mask) =>
      if mask[j].Anything? then Undef
      else if mask[j].n < Width(lhs) then LaneOf(lhs, mask[j].n)
      else LaneOf(rhs, mask[j].n - Width(lhs))
    case Insert(into, lane, at) => if j == at then lane else LaneOf(into, j)
  }

  function Lanes(v: Value): (s: seq<Lane>)
    requires WellTyped(v)
    ensures |s| == Width(v) && forall j :: 0 <= j < |s| ==> s[j] == LaneOf(v, j)
  {
    seq(Width(v), j requires 0 <= j < Width(v) => LaneOf(v, j))
  }

  /** `isa<UndefValue>`: a constant without any known lane is `undef`. */
  predicate IsUndef(v: Value) {
    v.Const? && forall j :: 0 <= j < |v.lanes| ==> v.lanes[j].Undef?
  }

  function UndefVector(width: nat): (v: Value)
    ensures WellTyped(v) && Width(v) == width && IsUndef(v)
  {
    Const(seq(width, _ => Undef))
  }

  // ---------------------------------------------------------------- the folding builder

  /** `CreateShuffleVector` */
  function CreateShuffle(lhs: Value, rhs: Value, mask: seq<Index>): (v: Value)
    requires WellTyped(lhs) && WellTyped(rhs) && MaskFits(lhs, rhs, mask)
    ensures WellTyped(v) && Lanes(v) == Lanes(Shuffle(lhs, rhs, mask))
    ensures if lhs.Const? && rhs.Const? then v.Const? else v == Shuffle(lhs, rhs, mask)
  {
    var v := Shuffle(lhs, rhs, mask);
    if lhs.Const? && rhs.Const? then Const(Lanes(v)) else v
  }

  /** `CreateInsertElement`; `constant` says whether the element is a constant. */
  function CreateInsert(into: Value, lane: Lane, constant: bool, at: nat): (v: Value)
    requires WellTyped(into) && at < Width(into)
    ensures WellTyped(v) && Lanes(v) == Lanes(into)[at := lane]
    ensures v.Const? <==> into.Const? && constant
  {
    if into.Const? && constant then Const(into.lanes[at := lane]) else Insert(into, lane, at)
  }

  // ---------------------------------------------------------------- initializers

  /** One initializer, as it has been emitted: a scalar, a single component of a vector (an
      `extractelement`), a vector, or a swizzle (a shuffle with `undef`). Components and swizzles are taken
      from vectors that have just been loaded. */
  datatype Init =
    | Scalar(lane: Lane, constant: bool)
    | Component(loaded: seq<Lane>, index: nat)
    | Vector(v: Value)
    | Swizzle(loaded: seq<Lane>, indices: seq<nat>)

  predicate WellTypedInit(e: Init) {
    match e
    case Scalar(_, _) => true
    case Component(loaded, index) => index < |loaded|
    case Vector(v) => WellTyped(v) && Width(v) > 0
    case Swizzle(loaded, indices) =>
      |indices| > 0 && forall j :: 0 <= j < |indices| ==> indices[j] < |loaded|
  }

  predicate IsConstant(e: Init) {
    match e
    case Scalar(_, constant) => constant
    case Vector(v) => v.Const?
    case _ => false
  }

  /** The lanes an initializer stands for in the source language. */
  function Contribution(e: Init): (s: seq<Lane>)
    requires WellTypedInit(e)
    ensures |s| > 0
  {
    match e
    case Scalar(lane, _) => [lane]
    case Component(loaded, index) => [loaded[index]]
    case Vector(v) => Lanes(v)
    case Swizzle(loaded, indices) => seq(|indices|, j requires 0 <= j < |indices| => loaded[indices[j]])
  }

  function Listed(inits: seq<Init>): seq<Lane>
    requires forall i :: 0 <= i < |inits| ==> WellTypedInit(inits[i])
  {
    if inits == [] then []
    else Listed(inits[..|inits| - 1]) + Contribution(inits[|inits| - 1])
  }

  function Zeros(n: nat): seq<Lane> {
    seq(n, _ => Known(0))
  }

  /** A component or swizzle of a vector as wide as the result. */
  predicate FullWidth(e: Init, width: nat) {
    (e.Component? || e.Swizzle?) && |e.loaded| == width
  }

  /** The value is flagged as a shuffle with `undef` after `i` initializers. */
  predicate Flagged(inits: seq<Init>, i: nat, width: nat)
    requires i <= |inits|
  {
    i > 0 &&
    match inits[i - 1]
    case Scalar(_, _) => false
    case Component(loaded, _) => i == 1 && |loaded| == width
    case Vector(v) => i == 1 || IsUndef(v)
    case Swizzle(_, _) => i == 1
  }

  /** Initializer `i` makes the code treat a constant as a shuffle: it is a full-width component or swizzle, there
      are only constants before it, and right before it comes a vector that is the first initializer or `undef`. */
  predicate FailsAt(inits: seq<Init>, i: nat, width: nat)
    requires i < |inits|
  {
    && i > 0 && FullWidth(inits[i], width)
    && (forall k :: 0 <= k < i ==> IsConstant(inits[k]))
    && inits[i - 1].Vector? && (i == 1 || IsUndef(inits[i - 1].v))
  }

  predicate CastFails(inits: seq<Init>, width: nat) {
    exists i :: 0 <= i < |inits| && FailsAt(inits, i, width)
  }

  // ---------------------------------------------------------------- what has been built

  /** A lane that the language leaves undefined may hold anything, unless `exact` is asked for. */
  predicate Free(wanted: Lane, exact: bool) {
    wanted.Undef? && !exact
  }

  predicate Fits(lane: Lane, wanted: Lane, exact: bool) {
    lane == wanted || Free(wanted, exact)
  }

  predicate AllFit(lanes: seq<Lane>, wanted: seq<Lane>, exact: bool) {
    |lanes| == |wanted| && forall j :: 0 <= j < |lanes| ==> Fits(lanes[j], wanted[j], exact)
  }

  /** The value built so far has `done` in its first lanes. When it is flagged as a shuffle with `undef`, it has been
      folded, or those lanes choose from the first operand only, which has the width of the result: that is what
      allows the second operand to be replaced. */
  ghost predicate Built(v: Value, isUndefShuffle: bool, done: seq<Lane>, width: nat, exact: bool) {
    && WellTyped(v) && Width(v) == width && |done| <= width
    && (forall j :: 0 <= j < |done| ==> Fits(LaneOf(v, j), done[j], exact))
    && (isUndefShuffle && !v.Const? ==>
        && v.Shuffle? && Width(v.lhs) == width
        && forall j :: 0 <= j < |done| ==> v.mask[j].At? && (v.mask[j].n < width || Free(done[j], exact)))
  }

  /** `resize` with `undef`. */
  function Resized(args: seq<Index>, n: nat): (r: seq<Index>)
    requires |args| <= n
    ensures |r| == n && forall j :: 0 <= j < n ==> r[j] == if j < |args| then args[j] else Anything
  {
    args + seq(n - |args|, _ => Anything)
  }

  /** The numbers `from`, `from + 1`, ... as mask elements. */
  function Counting(from: nat, n: nat): (r: seq<Index>)
    ensures |r| == n && forall j :: 0 <= j < n ==> r[j] == At(from + j)
  {
    seq(n, j requires 0 <= j < n => At(from + j))
  }

  /** `getMaskElt` for the elements of a swizzle. */
  function Shifted(indices: seq<nat>, offset: nat): (r: seq<Index>)
    ensures |r| == |indices| && forall j :: 0 <= j < |indices| ==> r[j] == At(offset + indices[j])
  {
    seq(|indices|, j requires 0 <= j < |indices| => At(offset + indices[j]))
  }

  lemma InsertBuilt(v: Value, flag: bool, done: seq<Lane>, lane: Lane, constant: bool, width: nat, exact: bool)
    requires Built(v, flag, done, width, exact) && |done| < width
    ensures Built(CreateInsert(v, lane, constant, |done|), false, done + [lane], width, exact)
  {
    var r := CreateInsert(v, lane, constant, |done|);
    assert forall j :: 0 <= j < width ==> LaneOf(r, j) == Lanes(r)[j] == if j == |done| then lane else LaneOf(v, j);
  }

  /** Lane `n` of two operands laid side by side. */
  function Picked(lhs: Value, rhs: Value, n: nat, width: nat): Lane
    requires WellTyped(lhs) && WellTyped(rhs) && Width(lhs) == Width(rhs) == width && n < 2 * width
  {
    if n < width then LaneOf(lhs, n) else LaneOf(rhs, n - width)
  }

  /** The mask elements `args` pick the lanes `done` out of two operands of one width. */
  ghost predicate Picks(lhs: Value, rhs: Value, args: seq<Index>, done: seq<Lane>, width: nat, exact: bool) {
    && WellTyped(lhs) && WellTyped(rhs) && Width(lhs) == Width(rhs) == width
    && |args| == |done| <= width
    && forall j :: 0 <= j < |args| ==>
      && args[j].At? && args[j].n < 2 * width
      && Fits(Picked(lhs, rhs, args[j].n, width), done[j], exact)
  }

  /** A shuffle is flagged when its second operand is `undef`. */
  lemma ShuffleBuilt(lhs: Value, rhs: Value, args: seq<Index>, done: seq<Lane>, width: nat, exact: bool)
    requires Picks(lhs, rhs, args, done, width, exact)
    requires IsUndef(rhs) && exact ==> forall j :: 0 <= j < |args| ==> args[j].n < width
    ensures MaskFits(lhs, rhs, Resized(args, width))
    ensures Built(CreateShuffle(lhs, rhs, Resized(args, width)), IsUndef(rhs), done, width, exact)
  {
    var mask := Resized(args, width);
    var s, r := Shuffle(lhs, rhs, mask), CreateShuffle(lhs, rhs, mask);
    forall j | 0 <= j < |done| ensures Fits(LaneOf(r, j), done[j], exact) {
      assert LaneOf(r, j) == Lanes(r)[j] == LaneOf(s, j);
    }
  }

  lemma PicksAppend(lhs: Value, rhs: Value, args: seq<Index>, done: seq<Lane>, more: seq<Index>, next: seq<Lane>,
                    width: nat, exact: bool)
    requires Picks(lhs, rhs, args, done, width, exact) && Picks(lhs, rhs, more, next, width, exact)
    requires |done| + |next| <= width
    ensures Picks(lhs, rhs, args + more, done + next, width, exact)
  {
  }

  // ---------------------------------------------------------------- the emitter

  /** A scalar goes into the next lane, by a shuffle when it is a component of a vector of the same width and nothing
      but such a shuffle has been built yet. The cast of the value so far to a shuffle fails if it was folded. */
  method PlaceScalar(v: Value, isUndefShuffle: bool, ghost done: seq<Lane>, curIdx: nat, e: Init, width: nat,
                     ghost exact: bool) returns (r: Option<Value>, flag: bool)
    requires Built(v, isUndefShuffle, done, width, exact) && |done| == curIdx < width
    requires (e.Scalar? || e.Component?) && WellTypedInit(e)
    ensures r.None? <==> FullWidth(e, width) && curIdx != 0 && isUndefShuffle && v.Const?
    ensures r.Some? ==> Built(r.value, flag, done + Contribution(e), width, exact)
    ensures r.Some? ==> (r.value.Const? <==> v.Const? && IsConstant(e)) && (flag <==> curIdx == 0 && FullWidth(e, width))
    ensures r.Some? && FullWidth(e, width) && curIdx == 0 ==> r.value.Shuffle? && r.value.lhs == Given(e.loaded)
    ensures r.Some? && FullWidth(e, width) && curIdx > 0 && isUndefShuffle ==>
      v.Shuffle? && r.value.Shuffle? && r.value.lhs == v.lhs && r.value.rhs == Given(e.loaded)
  {
    if e.Component? && |e.loaded| == width {
      if curIdx == 0 {
        var args := Resized([At(e.index)], width);
        return Some(CreateShuffle(Given(e.loaded), v, args)), true;
      } else if isUndefShuffle {
        if !v.Shuffle? {
          return None, true;
        }
        var args := v.mask[..curIdx] + [At(width + e.index)];
        r, flag := Some(CreateShuffle(v.lhs, Given(e.loaded), Resized(args, width))), false;
        ComponentPicks(v, done, e, width, exact);
        ShuffleBuilt(v.lhs, Given(e.loaded), args, done + Contribution(e), width, exact);
        return;
      }
    }
    var lane := if e.Scalar? then e.lane else e.loaded[e.index];
    InsertBuilt(v, isUndefShuffle, done, lane, IsConstant(e), width, exact);
    r, flag := Some(CreateInsert(v, lane, IsConstant(e), curIdx)), false;
  }

  /** Replacing the second operand of a flagged shuffle. */
  lemma FlaggedPicks(v: Value, done: seq<Lane>, rhs: Value, width: nat, exact: bool)
    requires Built(v, true, done, width, exact) && !v.Const? && WellTyped(rhs) && Width(rhs) == width
    ensures Picks(v.lhs, rhs, v.mask[..|done|], done, width, exact)
  {
  }

  lemma ComponentPicks(v: Value, done: seq<Lane>, e: Init, width: nat, exact: bool)
    requires Built(v, true, done, width, exact) && !v.Const? && |done| < width
    requires e.Component? && WellTypedInit(e) && |e.loaded| == width
    ensures Picks(v.lhs, Given(e.loaded), v.mask[..|done|] + [At(width + e.index)], done + Contribution(e), width, exact)
  {
    FlaggedPicks(v, done, Given(e.loaded), width, exact);
    PicksAppend(v.lhs, Given(e.loaded), v.mask[..|done|], done, [At(width + e.index)], Contribution(e), width, exact);
  }

  /** The mask for a swizzle of a vector as wide as the result: the lanes built so far, taken straight from the first
      operand of the value so far when that is a shuffle with `undef`, then the swizzle's own mask. */
  method MergeSwizzle(v0: Value, isUndefShuffle: bool, ghost done: seq<Lane>, curIdx: nat, e: Init, width: nat,
                      ghost exact: bool) returns (v: Option<Value>, args: seq<Index>)
    requires Built(v0, isUndefShuffle, done, width, exact) && |done| == curIdx
    requires e.Swizzle? && WellTypedInit(e) && |e.loaded| == width && curIdx + |e.indices| <= width
    requires curIdx == 0 ==> !isUndefShuffle
    ensures v.None? <==> isUndefShuffle && v0.Const?
    ensures v.Some? ==> if isUndefShuffle then v0.Shuffle? && v.value == v0.lhs else v.value == v0
    ensures curIdx == 0 ==> v == Some(v0) && Picks(Given(e.loaded), v0, args, done + Contribution(e), width, exact)
    ensures curIdx == 0 ==> forall j :: 0 <= j < |args| ==> args[j].At? && args[j].n < width
    ensures v.Some? && curIdx > 0 ==> Picks(v.value, Given(e.loaded), args, done + Contribution(e), width, exact)
  {
    v, args := LanesSoFar(v0, isUndefShuffle, done, curIdx, Given(e.loaded), width, exact);
    if v.None? {
      return;
    }
    var indices := Shifted(e.indices, if curIdx == 0 then 0 else width);
    if curIdx == 0 {
      SwizzleFirst(e, v.value, width, exact);
      assert args + indices == indices && done + Contribution(e) == Contribution(e);
    } else {
      SwizzleSecond(v.value, e, width, exact);
      PicksAppend(v.value, Given(e.loaded), args, done, indices, Contribution(e), width, exact);
    }
    args := args + indices;
  }

  /** The operand and the mask for the lanes that have been built, when `rhs` becomes the second operand. */
  method LanesSoFar(v0: Value, isUndefShuffle: bool, ghost done: seq<Lane>, curIdx: nat, ghost rhs: Value, width: nat,
                    ghost exact: bool) returns (v: Option<Value>, args: seq<Index>)
    requires Built(v0, isUndefShuffle, done, width, exact) && |done| == curIdx
    requires WellTyped(rhs) && Width(rhs) == width
    ensures v.None? <==> isUndefShuffle && v0.Const?
    ensures v.Some? ==> if isUndefShuffle then v0.Shuffle? && v.value == v0.lhs else v.value == v0
    ensures v.Some? ==> Picks(v.value, rhs, args, done, width, exact)
  {
    if isUndefShuffle {
      if !v0.Shuffle? {
        return None, [];
      }
      FlaggedPicks(v0, done, rhs, width, exact);
      v, args := Some(v0.lhs), v0.mask[..curIdx];
    } else {
      v, args := Some(v0), Counting(0, curIdx);
    }
  }

  /** The lanes of a swizzle, picked from the first operand or from the second. */
  lemma SwizzleFirst(e: Init, rhs: Value, width: nat, exact: bool)
    requires e.Swizzle? && WellTypedInit(e) && |e.indices| <= |e.loaded| == width && WellTyped(rhs) && Width(rhs) == width
    ensures Picks(Given(e.loaded), rhs, Shifted(e.indices, 0), Contribution(e), width, exact)
  {
  }

  lemma SwizzleSecond(lhs: Value, e: Init, width: nat, exact: bool)
    requires e.Swizzle? && WellTypedInit(e) && |e.indices| <= |e.loaded| == width && WellTyped(lhs) && Width(lhs) == width
    ensures Picks(lhs, Given(e.loaded), Shifted(e.indices, width), Contribution(e), width, exact)
  {
    forall j | 0 <= j < |e.indices|
      ensures Picked(lhs, Given(e.loaded), width + e.indices[j], width) == e.loaded[e.indices[j]]
    {
      PickedRight(lhs, Given(e.loaded), width + e.indices[j], e.indices[j], width);
    }
  }

  /** The instruction for the initializer itself. */
  function EmitVector(e: Init): (v: Value)
    requires (e.Vector? || e.Swizzle?) && WellTypedInit(e)
    ensures WellTyped(v) && Lanes(v) == Contribution(e)
    ensures v.Const? <==> IsConstant(e)
    ensures IsUndef(v) <==> e.Vector? && IsUndef(e.v)
  {
    if e.Vector? then e.v
    else
      var from, none, mask := Given(e.loaded), UndefVector(|e.loaded|), Shifted(e.indices, 0);
      var v := CreateShuffle(from, none, mask);
      assert v == Shuffle(from, none, mask);
      assert forall j :: 0 <= j < |e.indices| ==> LaneOf(v, j) == LaneOf(from, e.indices[j]);
      v
  }

  /** Any other vector is first widened to the width of the result. */
  method Widen(v: Value, ghost done: seq<Lane>, curIdx: nat, e: Value, width: nat, ghost exact: bool)
      returns (init: Value, args: seq<Index>)
    requires Built(v, false, done, width, exact) && |done| == curIdx
    requires WellTyped(e) && curIdx + Width(e) <= width
    ensures (init.Const? <==> e.Const?) && (IsUndef(init) <==> IsUndef(e))
    ensures curIdx == 0 ==> Picks(init, v, args, done + Lanes(e), width, exact)
    ensures curIdx == 0 ==> forall j :: 0 <= j < |args| ==> args[j].At? && args[j].n < width
    ensures curIdx > 0 ==> Picks(v, init, args, done + Lanes(e), width, exact)
  {
    init := Widened(e, width);
    args := Counting(0, curIdx);
    var indices := Counting(if curIdx == 0 then 0 else width, Width(e));
    if curIdx == 0 {
      FirstPicks(init, v, Lanes(e), width, exact);
      PicksAppend(init, v, args, done, indices, Lanes(e), width, exact);
    } else {
      DonePicks(v, init, done, width, exact);
      SecondPicks(v, init, Lanes(e), width, exact);
      PicksAppend(v, init, args, done, indices, Lanes(e), width, exact);
    }
    args := args + indices;
  }

  /** The lanes built so far, picked by their own numbers. */
  lemma DonePicks(v: Value, rhs: Value, done: seq<Lane>, width: nat, exact: bool)
    requires Built(v, false, done, width, exact) && WellTyped(rhs) && Width(rhs) == width
    ensures Picks(v, rhs, Counting(0, |done|), done, width, exact)
  {
  }

  /** The first lanes of the one operand, or of the other. */
  lemma FirstPicks(lhs: Value, rhs: Value, next: seq<Lane>, width: nat, exact: bool)
    requires WellTyped(lhs) && WellTyped(rhs) && |next| <= width == Width(lhs) == Width(rhs)
    requires forall j :: 0 <= j < |next| ==> LaneOf(lhs, j) == next[j]
    ensures Picks(lhs, rhs, Counting(0, |next|), next, width, exact)
  {
  }

  lemma SecondPicks(lhs: Value, rhs: Value, next: seq<Lane>, width: nat, exact: bool)
    requires WellTyped(lhs) && WellTyped(rhs) && |next| <= width == Width(lhs) == Width(rhs)
    requires forall j :: 0 <= j < |next| ==> LaneOf(rhs, j) == next[j]
    ensures Picks(lhs, rhs, Counting(width, |next|), next, width, exact)
  {
    var args := Counting(width, |next|);
    forall j | 0 <= j < |args|
      ensures args[j].At? && args[j].n < 2 * width && Fits(Picked(lhs, rhs, args[j].n, width), next[j], exact)
    {
      PickedRight(lhs, rhs, args[j].n, j, width);
    }
  }

  lemma PickedRight(lhs: Value, rhs: Value, n: nat, j: nat, width: nat)
    requires WellTyped(lhs) && WellTyped(rhs) && Width(lhs) == Width(rhs) == width && j < width && n == width + j
    ensures Picked(lhs, rhs, n, width) == LaneOf(rhs, j)
  {
    assert n - width == j;
  }

  function Widened(e: Value, width: nat): (r: Value)
    requires WellTyped(e) && Width(e) <= width
    ensures WellTyped(r) && Width(r) == width && forall j :: 0 <= j < Width(e) ==> LaneOf(r, j) == LaneOf(e, j)
    ensures (r.Const? <==> e.Const?) && (IsUndef(r) <==> IsUndef(e))
  {
    var none, mask := UndefVector(Width(e)), Resized(Counting(0, Width(e)), width);
    var s, r := Shuffle(e, none, mask), CreateShuffle(e, none, mask);
    assert forall j :: 0 <= j < width ==>
      LaneOf(r, j) == Lanes(r)[j] == LaneOf(s, j) == if j < Width(e) then LaneOf(e, j) else Undef;
    assert e.Const? ==> forall j :: 0 <= j < Width(e) ==> r.lanes[j] == LaneOf(r, j) == LaneOf(e, j) == e.lanes[j];
    assert e.Const? ==> forall j :: Width(e) <= j < width ==> r.lanes[j] == LaneOf(r, j) == Undef;
    r
  }

  /** A vector goes into the next lanes. A swizzle of a vector as wide as the result is not emitted as a value of its
      own: its mask becomes part of the mask that places it, unless the value so far was folded. */
  method PlaceVector(v0: Value, isUndefShuffle: bool, ghost done: seq<Lane>, curIdx: nat, e: Init, width: nat,
                     ghost exact: bool) returns (r: Option<Value>, flag: bool)
    requires Built(v0, isUndefShuffle, done, width, exact) && |done| == curIdx
    requires (e.Vector? || e.Swizzle?) && WellTypedInit(e) && curIdx + |Contribution(e)| <= width
    requires curIdx == 0 ==> IsUndef(v0) && !isUndefShuffle
    requires exact && e.Vector? && IsUndef(e.v) ==> curIdx == 0
    ensures r.None? <==> FullWidth(e, width) && isUndefShuffle && v0.Const?
    ensures r.Some? ==> Built(r.value, flag, done + Contribution(e), width, exact)
    ensures r.Some? ==> (r.value.Const? <==> v0.Const? && IsConstant(e))
    ensures r.Some? ==> (flag <==> curIdx == 0 || (e.Vector? && IsUndef(e.v)))
    ensures r.Some? && FullWidth(e, width) && curIdx == 0 ==> r.value.Shuffle? && r.value.lhs == Given(e.loaded)
    ensures r.Some? && FullWidth(e, width) && curIdx > 0 ==>
      && r.value.Shuffle? && r.value.rhs == Given(e.loaded)
      && if isUndefShuffle then v0.Shuffle? && r.value.lhs == v0.lhs else r.value.lhs == v0
  {
    var v, args, init := v0, [], Given([]);
    if e.Swizzle? && |e.loaded| == width {
      init := Given(e.loaded);
      var first;
      first, args := MergeSwizzle(v, isUndefShuffle, done, curIdx, e, width, exact);
      if first.None? {
        return None, true;
      }
      v := first.value;
    } else {
      init, args := Widen(v, done, curIdx, EmitVector(e), width, exact);
    }
    if curIdx == 0 {
      v, init := init, v;
    }
    ShuffleBuilt(v, init, args, done + Contribution(e), width, exact);
    r := Some(CreateShuffle(v, init, Resized(args, width)));
    flag := IsUndef(init);
  }

  /** The lanes that have no initializer. */
  method PadZeros(v0: Value, ghost isUndefShuffle: bool, ghost listed: seq<Lane>, n: nat, width: nat, ghost exact: bool)
      returns (v: Value)
    requires Built(v0, isUndefShuffle, listed, width, exact) && n == |listed|
    ensures WellTyped(v) && AllFit(Lanes(v), listed + Zeros(width - n), exact)
    ensures Width(v) == width && forall j :: n <= j < width ==> LaneOf(v, j) == Known(0)
  {
    v := v0;
    var curIdx := n;
    while curIdx < width
      invariant n <= curIdx <= width
      invariant Built(v, false, listed + Zeros(curIdx - n), width, exact)
    {
      InsertBuilt(v, false, listed + Zeros(curIdx - n), Known(0), true, width, exact);
      assert listed + Zeros(curIdx - n) + [Known(0)] == listed + Zeros(curIdx + 1 - n);
      v := CreateInsert(v, Known(0), true, curIdx);
      curIdx := curIdx + 1;
    }
    PaddingIsZero(v, listed, width, exact);
  }

  lemma PaddingIsZero(v: Value, listed: seq<Lane>, width: nat, exact: bool)
    requires |listed| <= width && WellTyped(v) && AllFit(Lanes(v), listed + Zeros(width - |listed|), exact)
    ensures Width(v) == width && forall j :: |listed| <= j < width ==> LaneOf(v, j) == Known(0)
  {
    forall j | |listed| <= j < width ensures LaneOf(v, j) == Known(0) {
      assert Fits(Lanes(v)[j], (listed + Zeros(width - |listed|))[j], exact);
    }
  }

  /** No initializer but the first is the constant `undef`. */
  predicate NoLaterUndef(inits: seq<Init>) {
    forall i :: 0 < i < |inits| && inits[i].Vector? ==> !IsUndef(inits[i].v)
  }

  /** The state of the loop before initializer `i`, if it has got that far. */
  ghost predicate Reached(inits: seq<Init>, i: nat, v: Value, isUndefShuffle: bool, curIdx: nat, width: nat)
    requires i <= |inits| && forall k :: 0 <= k < |inits| ==> WellTypedInit(inits[k])
  {
    && curIdx == |Listed(inits[..i])| && (curIdx == 0 <==> i == 0) && (i == 0 ==> IsUndef(v))
    && Built(v, isUndefShuffle, Listed(inits[..i]), width, NoLaterUndef(inits))
    && (v.Const? <==> forall k :: 0 <= k < i ==> IsConstant(inits[k]))
    && (isUndefShuffle <==> Flagged(inits, i, width))
  }

  lemma ReachedFirst(inits: seq<Init>, width: nat)
    requires forall k :: 0 <= k < |inits| ==> WellTypedInit(inits[k])
    ensures Reached(inits, 0, UndefVector(width), false, 0, width)
  {
    assert inits[..0] == [];
  }

  lemma NextFits(inits: seq<Init>, i: nat, width: nat)
    requires i < |inits| && (forall k :: 0 <= k < |inits| ==> WellTypedInit(inits[k])) && |Listed(inits)| <= width
    ensures Listed(inits[..i + 1]) == Listed(inits[..i]) + Contribution(inits[i])
    ensures |Listed(inits[..i])| + |Contribution(inits[i])| <= width
  {
    assert inits[..i + 1][..i] == inits[..i];
    ListedGrows(inits, i + 1);
  }

  /** The loop body. */
  method PlaceNext(inits: seq<Init>, i: nat, v: Value, isUndefShuffle: bool, curIdx: nat, width: nat)
      returns (next: Option<Value>, flag: bool, nextIdx: nat)
    requires i < |inits| && forall k :: 0 <= k < |inits| ==> WellTypedInit(inits[k])
    requires |Listed(inits)| <= width && Reached(inits, i, v, isUndefShuffle, curIdx, width)
    ensures next.None? <==> FailsAt(inits, i, width)
    ensures next.Some? ==> Reached(inits, i + 1, next.value, flag, nextIdx, width)
  {
    var e := inits[i];
    ghost var done, exact := Listed(inits[..i]), NoLaterUndef(inits);
    NextFits(inits, i, width);
    FailsNow(inits, i, v, isUndefShuffle, curIdx, width);
    if e.Scalar? || e.Component? {
      next, flag := PlaceScalar(v, isUndefShuffle, done, curIdx, e, width, exact);
      nextIdx := curIdx + 1;
    } else {
      next, flag := PlaceVector(v, isUndefShuffle, done, curIdx, e, width, exact);
      nextIdx := curIdx + if e.Vector? then Width(e.v) else |e.indices|;
    }
    if next.Some? {
      ReachedNext(inits, i, v, isUndefShuffle, curIdx, width, next.value, flag, nextIdx);
    }
  }

  /** The cast fails here exactly when `FailsAt` says so. */
  lemma FailsNow(inits: seq<Init>, i: nat, v: Value, isUndefShuffle: bool, curIdx: nat, width: nat)
    requires i < |inits| && (forall k :: 0 <= k < |inits| ==> WellTypedInit(inits[k]))
    requires Reached(inits, i, v, isUndefShuffle, curIdx, width)
    ensures FailsAt(inits, i, width) <==> FullWidth(inits[i], width) && curIdx != 0 && isUndefShuffle && v.Const?
    ensures curIdx == 0 ==> !isUndefShuffle && IsUndef(v)
    ensures NoLaterUndef(inits) && inits[i].Vector? && IsUndef(inits[i].v) ==> curIdx == 0
  {
    if i > 0 && v.Const? {
      assert IsConstant(inits[i - 1]);
    }
  }

  lemma ReachedNext(inits: seq<Init>, i: nat, v: Value, isUndefShuffle: bool, curIdx: nat, width: nat,
                    next: Value, flag: bool, nextIdx: nat)
    requires i < |inits| && (forall k :: 0 <= k < |inits| ==> WellTypedInit(inits[k]))
    requires Reached(inits, i, v, isUndefShuffle, curIdx, width)
    requires Built(next, flag, Listed(inits[..i + 1]), width, NoLaterUndef(inits))
    requires nextIdx == |Listed(inits[..i + 1])| && nextIdx > 0
    requires next.Const? <==> v.Const? && IsConstant(inits[i])
    requires flag <==>
      match inits[i]
      case Scalar(_, _) => false
      case Component(_, _) => curIdx == 0 && FullWidth(inits[i], width)
      case Vector(w) => curIdx == 0 || IsUndef(w)
      case Swizzle(_, _) => curIdx == 0
    ensures Reached(inits, i + 1, next, flag, nextIdx, width)
  {
  }

  /** After the loop. */
  method PadRest(ghost inits: seq<Init>, v0: Value, ghost isUndefShuffle: bool, curIdx: nat, width: nat)
      returns (v: Value)
    requires forall i :: 0 <= i < |inits| ==> WellTypedInit(inits[i])
    requires Reached(inits, |inits|, v0, isUndefShuffle, curIdx, width) && curIdx <= width
    ensures |Listed(inits)| <= width && WellTyped(v)
    ensures AllFit(Lanes(v), Listed(inits) + Zeros(width - |Listed(inits)|), NoLaterUndef(inits))
    ensures forall k :: 0 <= k < |inits| ==> InPlace(inits, k, v, width)
    ensures Width(v) == width && forall j :: |Listed(inits)| <= j < width ==> LaneOf(v, j) == Known(0)
  {
    assert inits[..|inits|] == inits;
    v := PadZeros(v0, isUndefShuffle, Listed(inits), curIdx, width, NoLaterUndef(inits));
    forall k | 0 <= k < |inits| ensures InPlace(inits, k, v, width) {
      AllHold(inits, v, width, k);
    }
  }

  /** How many lanes an initializer fills. */
  function LaneCount(e: Init): nat {
    match e
    case Vector(v) => Width(v)
    case Swizzle(_, indices) => |indices|
    case _ => 1
  }

  /** From lane `at` on, `v` holds what `e` says: a scalar, a component, the lanes of a vector, or those that a swizzle
      selects. */
  ghost predicate Holds(v: Value, at: nat, e: Init, exact: bool)
    requires WellTyped(v) && WellTypedInit(e) && at + LaneCount(e) <= Width(v)
  {
    match e
    case Scalar(lane, _) => LaneOf(v, at) == lane || (lane == Undef && !exact)
    case Component(loaded, index) => LaneOf(v, at) == loaded[index] || (loaded[index] == Undef && !exact)
    case Vector(w) =>
      forall j :: 0 <= j < Width(w) ==> LaneOf(v, at + j) == LaneOf(w, j) || (LaneOf(w, j) == Undef && !exact)
    case Swizzle(loaded, indices) =>
      forall j :: 0 <= j < |indices| ==>
        LaneOf(v, at + j) == loaded[indices[j]] || (loaded[indices[j]] == Undef && !exact)
  }

  /** Where each initializer starts. */
  lemma StartsAfter(inits: seq<Init>, k: nat)
    requires k < |inits| && forall i :: 0 <= i < |inits| ==> WellTypedInit(inits[i])
    ensures Listed(inits[..0]) == [] && |Listed(inits[..k + 1])| == |Listed(inits[..k])| + LaneCount(inits[k])
    ensures Listed(inits[..k]) + Contribution(inits[k]) <= Listed(inits)
  {
    NextFits(inits, k, |Listed(inits)|);
    ListedGrows(inits, k + 1);
  }

  /** Lanes `at` and up of `v` are `s`. */
  ghost predicate LanesAt(v: Value, at: nat, s: seq<Lane>, exact: bool)
    requires WellTyped(v) && at + |s| <= Width(v)
  {
    forall i :: at <= i < at + |s| ==> LaneOf(v, i) == s[i - at] || (s[i - at] == Undef && !exact)
  }

  lemma LanesFit(v: Value, wanted: seq<Lane>, front: seq<Lane>, s: seq<Lane>, exact: bool)
    requires WellTyped(v) && front + s <= wanted && AllFit(Lanes(v), wanted, exact)
    ensures |front| + |s| <= Width(v) && LanesAt(v, |front|, s, exact)
  {
    assert |front + s| <= |wanted| == Width(v);
    forall i | |front| <= i < |front| + |s|
      ensures LaneOf(v, i) == s[i - |front|] || (s[i - |front|] == Undef && !exact)
    {
      assert (front + s)[i] == s[i - |front|] && Fits(Lanes(v)[i], wanted[i], exact);
    }
  }

  lemma HoldsLanes(v: Value, at: nat, e: Init, s: seq<Lane>, exact: bool)
    requires WellTyped(v) && WellTypedInit(e) && s == Contribution(e) && at + |s| <= Width(v) && LanesAt(v, at, s, exact)
    ensures at + LaneCount(e) <= Width(v) && Holds(v, at, e, exact)
  {
    assert |s| == LaneCount(e);
    assert LaneOf(v, at) == s[at - at] || (s[at - at] == Undef && !exact);
    forall j | 0 <= j < |s| ensures LaneOf(v, at + j) == s[j] || (s[j] == Undef && !exact) {
      assert s[at + j - at] == s[j];
    }
    if e.Swizzle? {
      assert forall j :: 0 <= j < |s| ==> s[j] == e.loaded[e.indices[j]];
    }
  }

  lemma AllHold(inits: seq<Init>, v: Value, width: nat, k: nat)
    requires k < |inits| && forall i :: 0 <= i < |inits| ==> WellTypedInit(inits[i])
    requires |Listed(inits)| <= width && WellTyped(v)
    requires AllFit(Lanes(v), Listed(inits) + Zeros(width - |Listed(inits)|), NoLaterUndef(inits))
    ensures InPlace(inits, k, v, width)
  {
    var listed, zeros, exact := Listed(inits), Zeros(width - |Listed(inits)|), NoLaterUndef(inits);
    StartsAfter(inits, k);
    PrefixOfMore(Listed(inits[..k]) + Contribution(inits[k]), listed, zeros);
    LanesFit(v, listed + zeros, Listed(inits[..k]), Contribution(inits[k]), exact);
    HoldsLanes(v, |Listed(inits[..k])|, inits[k], Contribution(inits[k]), exact);
  }

  lemma PrefixOfMore(s: seq<Lane>, t: seq<Lane>, more: seq<Lane>)
    requires s <= t
    ensures s <= t + more
  {
  }

  /** Initializer `k` fills its lanes of the vector `v`, those after the lanes of the initializers before it. */
  ghost predicate InPlace(inits: seq<Init>, k: nat, v: Value, width: nat)
    requires k < |inits| && (forall i :: 0 <= i < |inits| ==> WellTypedInit(inits[i])) && WellTyped(v)
  {
    && |Listed(inits[..k])| + LaneCount(inits[k]) <= width == Width(v)
    && Holds(v, |Listed(inits[..k])|, inits[k], NoLaterUndef(inits))
  }

  /** The whole vector. The emission fails exactly for `CastFails`; otherwise every lane that an initializer defines
      has its value, in order, with zeros after them. All other lanes are `undef`, unless `undef` itself is an
      initializer: then they may hold anything. */
  method VisitInitList(inits: seq<Init>, width: nat) returns (result: Option<Value>)
    requires forall i :: 0 <= i < |inits| ==> WellTypedInit(inits[i])
    requires |Listed(inits)| <= width
    ensures result.None? <==> CastFails(inits, width)
    ensures result.Some? ==>
      && WellTyped(result.value)
      && AllFit(Lanes(result.value), Listed(inits) + Zeros(width - |Listed(inits)|), NoLaterUndef(inits))
    ensures result.Some? ==> forall k :: 0 <= k < |inits| ==> InPlace(inits, k, result.value, width)
    ensures result.Some? ==>
      && Width(result.value) == width
      && forall j :: |Listed(inits)| <= j < width ==> LaneOf(result.value, j) == Known(0)
  {
    var v, isUndefShuffle, curIdx := PlaceInits(inits, width);
    if v.None? {
      return None;
    }
    var all := PadRest(inits, v.value, isUndefShuffle, curIdx, width);
    result := Some(all);
  }

  /** The loop over the initializers. */
  method PlaceInits(inits: seq<Init>, width: nat) returns (result: Option<Value>, isUndefShuffle: bool, curIdx: nat)
    requires forall i :: 0 <= i < |inits| ==> WellTypedInit(inits[i])
    requires |Listed(inits)| <= width
    ensures result.None? <==> CastFails(inits, width)
    ensures result.Some? ==> Reached(inits, |inits|, result.value, isUndefShuffle, curIdx, width) && curIdx <= width
  {
    curIdx, isUndefShuffle := 0, false;
    var v := UndefVector(width);
    var i := 0;
    ReachedFirst(inits, width);
    while i != |inits|
      invariant 0 <= i <= |inits| && Reached(inits, i, v, isUndefShuffle, curIdx, width)
      invariant forall k :: 0 <= k < i ==> !FailsAt(inits, k, width)
    {
      var next;
      next, isUndefShuffle, curIdx := PlaceNext(inits, i, v, isUndefShuffle, curIdx, width);
      if next.None? {
        return None, false, 0;
      }
      v := next.value;
      i := i + 1;
    }
    result := Some(v);
  }

  lemma {:induction false} ListedGrows(inits: seq<Init>, i: nat)
    requires i <= |inits| && forall k :: 0 <= k < |inits| ==> WellTypedInit(inits[k])
    ensures Listed(inits[..i]) <= Listed(inits)
    decreases |inits|
  {
    if i < |inits| {
      var shorter := inits[..|inits| - 1];
      ListedGrows(shorter, i);
      assert shorter[..i] == inits[..i];
    } else {
      assert inits[..i] == inits;
    }
  }

  /** It does fail: `(float4){ (float2)1.0f, (a + b).xy }` for two vectors of four elements. */
  lemma ConstantThenSwizzleFails(sum: seq<Lane>)
    requires |sum| == 4
    ensures var inits := [Vector(Const([Known(1), Known(1)])), Swizzle(sum, [0, 1])];
      && (forall i :: 0 <= i < |inits| ==> WellTypedInit(inits[i]))
      && |Listed(inits)| == 4 && CastFails(inits, 4)
  {
    var inits := [Vector(Const([Known(1), Known(1)])), Swizzle(sum, [0, 1])];
    assert inits[..1] == [inits[0]] && inits[..1][..0] == [];
    assert |Listed(inits[..1])| == 2;
    assert FailsAt(inits, 1, 4);
  }
}
