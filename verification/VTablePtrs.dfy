/** Which vtable pointers a constructor initializes, and where (`getVTablePointers`,
    `InitializeVTablePointer`). */
module VTablePtrs {
  import opened Options

  /** A direct base: its class, whether it is virtual, and its offset in the layout of the derived class
      (not used for a virtual base). */
  datatype Base = Base(decl: nat, isVirtual: bool, offset: nat)

  datatype Class = Class(bases: seq<Base>, dynamic: bool, primary: Option<nat>)

  /** Classes are numbered in the order of their definitions. */
  type Hierarchy = h: seq<Class> | forall c, i :: 0 <= c < |h| && 0 <= i < |h[c].bases| ==> h[c].bases[i].decl < c
    witness []

  /** Where the virtual bases are in an object whose complete class is the one being constructed. */
  type VBaseOffsets = nat -> int

  /** A base subobject, found by way of its nearest virtual base: the class, that virtual base, the offset from
      it, and whether its vtable pointer is that of the class it is a primary base of. */
  datatype Subobject = Subobject(decl: nat, nearest: Option<nat>, offset: int, sharesVPtr: bool)

  /** The subobject for the `i`-th base of `s`. */
  function Direct(h: Hierarchy, s: Subobject, i: nat): Subobject
    requires s.decl < |h| && i < |h[s.decl].bases|
  {
    var b := h[s.decl].bases[i];
    if b.isVirtual then Subobject(b.decl, Some(b.decl), 0, false)
    else Subobject(b.decl, s.nearest, s.offset + b.offset, h[s.decl].primary == Some(b.decl))
  }

  /** `t` is reached from `s` by taking the bases with the numbers in `path`, all of them with a vtable. */
  predicate Reaches(h: Hierarchy, s: Subobject, path: seq<nat>, t: Subobject)
    requires s.decl < |h|
    decreases |path|
  {
    if path == [] then s == t
    else
      && path[0] < |h[s.decl].bases| && h[Direct(h, s, path[0]).decl].dynamic
      && Reaches(h, Direct(h, s, path[0]), path[1..], t)
  }

  ghost predicate Within(h: Hierarchy, s: Subobject, t: Subobject)
    requires s.decl < |h|
  {
    exists path :: Reaches(h, s, path, t)
  }

  /** A vtable pointer: the class and the offset of the subobject, its nearest virtual base and its offset from
      that. */
  datatype VPtr = VPtr(decl: nat, baseOffset: int, nearest: Option<nat>, offsetFromNearest: int)

  function NearestOffset(nearest: Option<nat>, vbases: VBaseOffsets): int {
    if nearest.None? then 0 else vbases(nearest.value)
  }

  function VPtrOf(s: Subobject, vbases: VBaseOffsets): VPtr {
    VPtr(s.decl, NearestOffset(s.nearest, vbases) + s.offset, s.nearest, s.offset)
  }

  function Whole(c: nat): Subobject {
    Subobject(c, None, 0, false)
  }

  function VBase(v: nat): Subobject {
    Subobject(v, Some(v), 0, false)
  }

  /** Everything below `s` that has a vtable pointer of its own has been collected. */
  ghost predicate Covered(h: Hierarchy, s: Subobject, vptrs: seq<VPtr>, vbases: VBaseOffsets)
    requires s.decl < |h|
  {
    forall t :: Within(h, s, t) && !t.sharesVPtr ==> VPtrOf(t, vbases) in vptrs
  }

  ghost predicate BaseCovered(h: Hierarchy, s: Subobject, i: nat, vptrs: seq<VPtr>, vbases: VBaseOffsets)
    requires s.decl < |h| && i < |h[s.decl].bases|
  {
    h[Direct(h, s, i).decl].dynamic ==> Covered(h, Direct(h, s, i), vptrs, vbases)
  }

  /** Everything collected is the vtable pointer of a subobject of the class. */
  ghost predicate Genuine(h: Hierarchy, c: nat, vptrs: seq<VPtr>, vbases: VBaseOffsets)
    requires c < |h|
  {
    forall p :: p in vptrs ==> exists t :: Within(h, Whole(c), t) && !t.sharesVPtr && p == VPtrOf(t, vbases)
  }

  lemma {:induction false} ReachesFurther(h: Hierarchy, s: Subobject, path: seq<nat>, t: Subobject, i: nat)
    requires s.decl < |h| && Reaches(h, s, path, t)
    ensures t.decl < |h|
    ensures i < |h[t.decl].bases| && h[Direct(h, t, i).decl].dynamic ==> Reaches(h, s, path + [i], Direct(h, t, i))
    decreases |path|
  {
    if path == [] {
      assert [i][1..] == [];
      if i < |h[t.decl].bases| && h[Direct(h, t, i).decl].dynamic {
        assert Reaches(h, Direct(h, t, i), [], Direct(h, t, i));
      }
    } else {
      ReachesFurther(h, Direct(h, s, path[0]), path[1..], t, i);
      assert (path + [i])[1..] == path[1..] + [i];
    }
  }

  lemma WithinFurther(h: Hierarchy, s: Subobject, t: Subobject, i: nat)
    requires s.decl < |h| && Within(h, s, t)
    ensures t.decl < |h|
    ensures i < |h[t.decl].bases| && h[Direct(h, t, i).decl].dynamic ==> Within(h, s, Direct(h, t, i))
  {
    var path :| Reaches(h, s, path, t);
    ReachesFurther(h, s, path, t, i);
  }

  /** A subobject is covered once its own pointer and those below all its bases are there. */
  lemma CoveredByParts(h: Hierarchy, s: Subobject, vptrs: seq<VPtr>, vbases: VBaseOffsets)
    requires s.decl < |h| && (!s.sharesVPtr ==> VPtrOf(s, vbases) in vptrs)
    requires forall i :: 0 <= i < |h[s.decl].bases| ==> BaseCovered(h, s, i, vptrs, vbases)
    ensures Covered(h, s, vptrs, vbases)
  {
    forall t | Within(h, s, t) && !t.sharesVPtr ensures VPtrOf(t, vbases) in vptrs {
      var path :| Reaches(h, s, path, t);
      if path != [] {
        assert BaseCovered(h, s, path[0], vptrs, vbases);
        assert Reaches(h, Direct(h, s, path[0]), path[1..], t);
      }
    }
  }

  lemma CoveredByMore(h: Hierarchy, s: Subobject, some: seq<VPtr>, more: seq<VPtr>, vbases: VBaseOffsets)
    requires s.decl < |h| && some <= more && Covered(h, s, some, vbases)
    ensures Covered(h, s, more, vbases)
  {
    forall t | Within(h, s, t) && !t.sharesVPtr ensures VPtrOf(t, vbases) in more {
      assert VPtrOf(t, vbases) in some;
    }
  }

  lemma BasesByMore(h: Hierarchy, s: Subobject, n: nat, some: seq<VPtr>, more: seq<VPtr>, vbases: VBaseOffsets)
    requires s.decl < |h| && n <= |h[s.decl].bases| && some <= more
    requires forall i :: 0 <= i < n ==> BaseCovered(h, s, i, some, vbases)
    ensures forall i :: 0 <= i < n ==> BaseCovered(h, s, i, more, vbases)
  {
    forall i | 0 <= i < n ensures BaseCovered(h, s, i, more, vbases) {
      assert BaseCovered(h, s, i, some, vbases);
      if h[Direct(h, s, i).decl].dynamic {
        CoveredByMore(h, Direct(h, s, i), some, more, vbases);
      }
    }
  }

  predicate NoDuplicates(s: seq<nat>) {
    forall i, j :: 0 <= i < j < |s| ==> s[i] != s[j]
  }

  /** The pointer of a virtual base is there at most once, and only if that base has been visited. */
  ghost predicate VirtualOnce(vptrs: seq<VPtr>, visited: set<nat>) {
    && (forall p :: p in vptrs && p.nearest == Some(p.decl) ==> p.decl in visited)
    && forall i, j :: 0 <= i < j < |vptrs| && vptrs[i].nearest == Some(vptrs[i].decl) ==>
      vptrs[j].decl != vptrs[i].decl || vptrs[j].nearest != vptrs[i].nearest
  }

  lemma VirtualOnceAppend(vptrs: seq<VPtr>, visited: set<nat>, p: VPtr)
    requires VirtualOnce(vptrs, visited)
    requires p.nearest == Some(p.decl) ==> p.decl in visited && NotYet(vptrs, p.decl)
    ensures VirtualOnce(vptrs + [p], visited)
  {
  }

  ghost predicate NotYet(vptrs: seq<VPtr>, v: nat) {
    forall p :: p in vptrs && p.decl == v ==> p.nearest != Some(v)
  }

  /** The recursion and what it fills by reference. */
  class Collector {
    const h: Hierarchy
    const c: nat
    const vbases: VBaseOffsets
    var visited: set<nat>
    var vptrs: seq<VPtr>
    ghost var descents: seq<nat>

    constructor (h: Hierarchy, c: nat, vbases: VBaseOffsets)
      requires c < |h|
      ensures this.h == h && this.c == c && this.vbases == vbases && Sound() && visited == {} && vptrs == []
    {
      this.h, this.c, this.vbases := h, c, vbases;
      visited, vptrs, descents := {}, [], [];
    }

    /** What has been collected is right, and no virtual base has been descended into twice. */
    ghost predicate Sound()
      reads this
    {
      && c < |h| && Genuine(h, c, vptrs, vbases) && VirtualOnce(vptrs, visited)
      && NoDuplicates(descents) && (forall v :: v in visited <==> v in descents)
    }

    /** The virtual bases seen so far that can occur below the class `limit` are done. */
    ghost predicate Settled(limit: nat)
      reads this
    {
      limit <= |h| && forall v :: v in visited && v < limit ==> Covered(h, VBase(v), vptrs, vbases)
    }

    ghost predicate Progress(limit: nat, visited0: set<nat>, vptrs0: seq<VPtr>)
      reads this
    {
      vptrs0 <= vptrs && visited0 <= visited && forall v :: v in visited && v >= limit ==> v in visited0
    }

    lemma StaysSettled(limit: nat, visited0: set<nat>, vptrs0: seq<VPtr>, b: nat)
      requires b < limit <= |h| && Settled(b) && vptrs0 <= vptrs && visited0 <= visited
      requires forall v :: v in visited && v > b ==> v in visited0
      requires forall v :: v in visited0 && v < limit ==> Covered(h, VBase(v), vptrs0, vbases)
      requires b in visited && b !in visited0 ==> Covered(h, VBase(b), vptrs, vbases)
      ensures Settled(limit)
    {
      forall v | v in visited && v < limit ensures Covered(h, VBase(v), vptrs, vbases) {
        if v in visited0 {
          CoveredByMore(h, VBase(v), vptrs0, vptrs, vbases);
        }
      }
    }

    /** A vtable pointer of its own is recorded. */
    method AddVPtr(decl: nat, baseOffset: int, nearest: Option<nat>, offsetFromNearest: int)
      requires Sound() && decl <= |h| && Settled(decl)
      requires Within(h, Whole(c), Subobject(decl, nearest, offsetFromNearest, false))
      requires baseOffset == NearestOffset(nearest, vbases) + offsetFromNearest
      requires nearest == Some(decl) ==> decl in visited && NotYet(vptrs, decl)
      modifies this`vptrs
      ensures Sound() && Settled(decl) && Progress(decl, visited, old(vptrs))
      ensures vptrs == old(vptrs) + [VPtrOf(Subobject(decl, nearest, offsetFromNearest, false), vbases)]
    {
      var p := VPtr(decl, baseOffset, nearest, offsetFromNearest);
      assert p == VPtrOf(Subobject(decl, nearest, offsetFromNearest, false), vbases);
      ghost var vptrs0 := vptrs;
      VirtualOnceAppend(vptrs, visited, p);
      vptrs := vptrs + [p];
      forall v | v in visited && v < decl ensures Covered(h, VBase(v), vptrs, vbases) {
        CoveredByMore(h, VBase(v), vptrs0, vptrs, vbases);
      }
    }

    method GetVTablePointers(decl: nat, baseOffset: int, nearest: Option<nat>, offsetFromNearest: int, sharesVPtr: bool)
      requires Sound() && decl < |h| && Settled(decl)
      requires Within(h, Whole(c), Subobject(decl, nearest, offsetFromNearest, sharesVPtr))
      requires baseOffset == NearestOffset(nearest, vbases) + offsetFromNearest
      requires nearest.Some? ==> decl <= nearest.value
      requires nearest == Some(decl) ==> decl in visited && NotYet(vptrs, decl)
      modifies this
      ensures Sound() && Settled(decl) && Progress(decl, old(visited), old(vptrs))
      ensures Covered(h, Subobject(decl, nearest, offsetFromNearest, sharesVPtr), vptrs, vbases)
      ensures !sharesVPtr ==>
        old(vptrs) + [VPtrOf(Subobject(decl, nearest, offsetFromNearest, sharesVPtr), vbases)] <= vptrs
      decreases decl, 1
    {
      ghost var s := Subobject(decl, nearest, offsetFromNearest, sharesVPtr);
      if !sharesVPtr {
        AddVPtr(decl, baseOffset, nearest, offsetFromNearest);
      }
      for i := 0 to |h[decl].bases|
        invariant Sound() && Settled(decl) && Progress(decl, old(visited), old(vptrs))
        invariant !sharesVPtr ==> old(vptrs) + [VPtrOf(s, vbases)] <= vptrs
        invariant forall j :: 0 <= j < i ==> BaseCovered(h, s, j, vptrs, vbases)
      {
        ghost var vptrs0 := vptrs;
        NextBase(decl, baseOffset, nearest, offsetFromNearest, i, sharesVPtr);
        BasesByMore(h, s, i, vptrs0, vptrs, vbases);
      }
      assert !sharesVPtr ==> VPtrOf(s, vbases) == vptrs[|old(vptrs)|];
      CoveredByParts(h, s, vptrs, vbases);
    }

    /** The loop body. A base without a vtable is skipped, and a virtual base that has been visited. */
    method NextBase(decl: nat, baseOffset: int, nearest: Option<nat>, offsetFromNearest: int, i: nat,
                    ghost sharesVPtr: bool)
      requires Sound() && decl < |h| && Settled(decl) && i < |h[decl].bases|
      requires Within(h, Whole(c), Subobject(decl, nearest, offsetFromNearest, sharesVPtr))
      requires baseOffset == NearestOffset(nearest, vbases) + offsetFromNearest
      requires nearest.Some? ==> decl <= nearest.value
      modifies this
      ensures Sound() && Settled(decl) && Progress(decl, old(visited), old(vptrs))
      ensures BaseCovered(h, Subobject(decl, nearest, offsetFromNearest, sharesVPtr), i, vptrs, vbases)
      decreases decl, 0
    {
      ghost var s := Subobject(decl, nearest, offsetFromNearest, sharesVPtr);
      var base := h[decl].bases[i];
      if !h[base.decl].dynamic {
        return;
      }
      WithinFurther(h, Whole(c), s, i);
      if base.isVirtual {
        if base.decl in visited {
          return;
        }
        Visit(base.decl);
        GetVTablePointers(base.decl, vbases(base.decl), Some(base.decl), 0, false);
      } else {
        GetVTablePointers(base.decl, baseOffset + base.offset, nearest, offsetFromNearest + base.offset,
                          h[decl].primary == Some(base.decl));
      }
      StaysSettled(decl, old(visited), old(vptrs), base.decl);
    }

    method Visit(b: nat)
      requires Sound() && b !in visited
      modifies this`visited, this`descents
      ensures Sound() && visited == old(visited) + {b} && NotYet(vptrs, b)
    {
      visited := visited + {b};
      descents := descents + [b];
    }
  }

  // ---------------------------------------------------------------- which pointers there are

  /** A way down from the class `c`: each step is a base of the class before it, and leads to a class with a vtable. */
  predicate Trail(h: Hierarchy, c: nat, steps: seq<Base>) {
    && c < |h|
    && (steps != [] ==>
      && steps[0] in h[c].bases && steps[0].decl < |h| && h[steps[0].decl].dynamic
      && Trail(h, steps[0].decl, steps[1..]))
  }

  /** The steps before number `j` end with the last virtual one. */
  predicate LastVirtual(steps: seq<Base>, j: nat) {
    j <= |steps| && (j > 0 ==> steps[j - 1].isVirtual) && forall k :: j <= k < |steps| ==> !steps[k].isVirtual
  }

  function Total(steps: seq<Base>): int {
    if steps == [] then 0 else steps[0].offset + Total(steps[1..])
  }

  /** The class after the first `n` steps. */
  function ClassAfter(c: nat, steps: seq<Base>, n: nat): nat
    requires n <= |steps|
  {
    if n == 0 then c else steps[n - 1].decl
  }

  /** An object of class `c` has a subobject of class `decl`, or is one itself, at `offset` from its nearest virtual
      base, and its vtable pointer is not shared with a class of which it is the non-virtual primary base. */
  ghost predicate HasVPtr(h: Hierarchy, c: nat, decl: nat, nearest: Option<nat>, offset: int) {
    exists steps: seq<Base>, j: nat :: OwnsAfter(h, c, steps, j, decl, nearest, offset)
  }

  predicate OwnsAfter(h: Hierarchy, c: nat, steps: seq<Base>, j: nat, decl: nat, nearest: Option<nat>, offset: int) {
    && Trail(h, c, steps) && LastVirtual(steps, j)
    && decl == ClassAfter(c, steps, |steps|)
    && nearest == (if j == 0 then None else Some(steps[j - 1].decl))
    && offset == Total(steps[j..])
    && (steps != [] ==>
      || steps[|steps| - 1].isVirtual
      || (var d := ClassAfter(c, steps, |steps| - 1); d < |h| && h[d].primary != Some(decl)))
  }

  /** Taking the steps from `s` ends at `t`. */
  predicate LeadsTo(h: Hierarchy, s: Subobject, steps: seq<Base>, j: nat, t: Subobject) {
    && Trail(h, s.decl, steps) && LastVirtual(steps, j)
    && t.decl == ClassAfter(s.decl, steps, |steps|)
    && t.nearest == (if j == 0 then s.nearest else Some(steps[j - 1].decl))
    && t.offset == (if j == 0 then s.offset else 0) + Total(steps[j..])
    && t.sharesVPtr == if steps == [] then s.sharesVPtr else SharesVPtr(h, s.decl, steps)
  }

  predicate SharesVPtr(h: Hierarchy, c: nat, steps: seq<Base>)
    requires steps != []
  {
    var n, d := |steps| - 1, ClassAfter(c, steps, |steps| - 1);
    !steps[n].isVirtual && (d < |h| ==> h[d].primary == Some(steps[n].decl))
  }

  lemma {:induction false} TrailClasses(h: Hierarchy, c: nat, steps: seq<Base>, n: nat)
    requires Trail(h, c, steps) && n <= |steps|
    ensures ClassAfter(c, steps, n) < |h|
    decreases |steps|
  {
    if n > 0 {
      TrailClasses(h, steps[0].decl, steps[1..], n - 1);
    }
  }

  /** Where counting starts when the step `b` is put before the others. */
  function Later(b: Base, j: nat): nat {
    if j > 0 then j + 1 else if b.isVirtual then 1 else 0
  }

  lemma LastVirtualNext(b: Base, steps: seq<Base>, all: seq<Base>, j: nat)
    requires j <= |steps| && all == [b] + steps
    ensures Later(b, j) <= |all| && all[1..] == steps
    ensures LastVirtual(steps, j) <==> LastVirtual(all, Later(b, j))
    ensures Total(all[Later(b, j)..]) == Total(steps[j..]) + if j == 0 && !b.isVirtual then b.offset else 0
  {
    assert all[1..] == steps;
    if Later(b, j) > 0 {
      assert all[Later(b, j)..] == steps[j..];
    } else {
      assert all[0..] == all && steps[0..] == steps;
    }
    assert LastVirtual(steps, j) ==> forall k :: Later(b, j) <= k < |all| && k > 0 ==> all[k] == steps[k - 1];
    assert forall k :: j <= k < |steps| ==> steps[k] == all[1 + k];
  }

  /** One step before a way down. */
  lemma LeadsToNext(h: Hierarchy, s: Subobject, i: nat, steps: seq<Base>, j: nat, all: seq<Base>, t: Subobject)
    requires s.decl < |h| && i < |h[s.decl].bases| && h[Direct(h, s, i).decl].dynamic && j <= |steps|
    requires all == [h[s.decl].bases[i]] + steps
    ensures LeadsTo(h, Direct(h, s, i), steps, j, t) <==> LeadsTo(h, s, all, Later(h[s.decl].bases[i], j), t)
  {
    LastVirtualNext(h[s.decl].bases[i], steps, all, j);
  }

  lemma {:induction false} ReachesLeadsTo(h: Hierarchy, s: Subobject, path: seq<nat>, t: Subobject)
      returns (steps: seq<Base>, j: nat)
    requires s.decl < |h| && Reaches(h, s, path, t)
    ensures LeadsTo(h, s, steps, j, t)
    decreases |path|
  {
    if path == [] {
      steps, j := [], 0;
    } else {
      var rest, j0 := ReachesLeadsTo(h, Direct(h, s, path[0]), path[1..], t);
      var b := h[s.decl].bases[path[0]];
      steps, j := [b] + rest, Later(b, j0);
      LeadsToNext(h, s, path[0], rest, j0, steps, t);
    }
  }

  lemma {:induction false} LeadsToReaches(h: Hierarchy, s: Subobject, steps: seq<Base>, j: nat, t: Subobject)
      returns (path: seq<nat>)
    requires LeadsTo(h, s, steps, j, t)
    ensures Reaches(h, s, path, t)
    decreases |steps|
  {
    if steps == [] {
      path := [];
    } else {
      var i :| 0 <= i < |h[s.decl].bases| && h[s.decl].bases[i] == steps[0];
      var j0 := if j > 0 then j - 1 else 0;
      LeadsToNext(h, s, i, steps[1..], j0, steps, t);
      var rest := LeadsToReaches(h, Direct(h, s, i), steps[1..], j0, t);
      path := [i] + rest;
      assert path[1..] == rest;
    }
  }

  /** The recursion's subobjects are those of the ways down. */
  lemma WithinIsTrail(h: Hierarchy, c: nat, decl: nat, nearest: Option<nat>, offset: int)
    requires c < |h|
    ensures Within(h, Whole(c), Subobject(decl, nearest, offset, false)) <==> HasVPtr(h, c, decl, nearest, offset)
  {
    var t := Subobject(decl, nearest, offset, false);
    if Within(h, Whole(c), t) {
      var path :| Reaches(h, Whole(c), path, t);
      var steps, j := ReachesLeadsTo(h, Whole(c), path, t);
      TrailClasses(h, c, steps, if steps == [] then 0 else |steps| - 1);
      assert OwnsAfter(h, c, steps, j, decl, nearest, offset);
    }
    if HasVPtr(h, c, decl, nearest, offset) {
      var steps, j :| OwnsAfter(h, c, steps, j, decl, nearest, offset);
      var path := LeadsToReaches(h, Whole(c), steps, j, t);
    }
  }

  /** Apart from the pointer of the whole object, only a virtual base, or one that is not the primary base of the class
      before it, has its own. */
  lemma OwnPointers(h: Hierarchy, c: nat, decl: nat, nearest: Option<nat>, offset: int)
    requires HasVPtr(h, c, decl, nearest, offset)
    ensures (decl == c && nearest == None && offset == 0) ||
      exists d: nat, i: nat :: d < |h| && i < |h[d].bases| && h[d].bases[i].decl == decl
        && (h[d].bases[i].isVirtual || h[d].primary != Some(decl))
  {
    var steps, j :| OwnsAfter(h, c, steps, j, decl, nearest, offset);
    if steps != [] {
      var d := LastClass(h, c, steps);
      var i :| 0 <= i < |h[d].bases| && h[d].bases[i] == steps[|steps| - 1];
    }
  }

  lemma {:induction false} LastClass(h: Hierarchy, c: nat, steps: seq<Base>) returns (d: nat)
    requires Trail(h, c, steps) && steps != []
    ensures d == ClassAfter(c, steps, |steps| - 1) && d < |h| && steps[|steps| - 1] in h[d].bases
    decreases |steps|
  {
    if |steps| == 1 {
      d := c;
    } else {
      d := LastClass(h, steps[0].decl, steps[1..]);
    }
  }

  /** A direct base with a vtable has its own pointer if it is virtual or not the primary base. */
  lemma DirectPointers(h: Hierarchy, c: nat, b: Base)
    requires c < |h| && b in h[c].bases && h[b.decl].dynamic
    ensures b.isVirtual ==> HasVPtr(h, c, b.decl, Some(b.decl), 0)
    ensures !b.isVirtual && h[c].primary != Some(b.decl) ==> HasVPtr(h, c, b.decl, None, b.offset)
  {
    assert [b][1..] == [] && Trail(h, c, [b]);
    if b.isVirtual {
      assert OwnsAfter(h, c, [b], 1, b.decl, Some(b.decl), 0);
    } else if h[c].primary != Some(b.decl) {
      assert [b][0..] == [b] && Total([b]) == b.offset;
      assert OwnsAfter(h, c, [b], 0, b.decl, None, b.offset);
    }
  }

  /** The collected pointers are those of all base subobjects that have one, that of the whole object first, and that of
      a virtual base once. The offset of a virtual base is the one in an object of the class. */
  method CollectVTablePointers(h: Hierarchy, c: nat, vbases: VBaseOffsets) returns (vptrs: seq<VPtr>)
    requires c < |h|
    ensures forall p :: p in vptrs <==>
      && HasVPtr(h, c, p.decl, p.nearest, p.offsetFromNearest)
      && p.baseOffset == (if p.nearest.None? then 0 else vbases(p.nearest.value)) + p.offsetFromNearest
    ensures vptrs != [] && vptrs[0] == VPtr(c, 0, None, 0)
    ensures forall i, j :: 0 <= i < j < |vptrs| && vptrs[i].nearest == Some(vptrs[i].decl) ==> vptrs[i] != vptrs[j]
  {
    var collector := new Collector(h, c, vbases);
    assert Reaches(h, Whole(c), [], Whole(c));
    collector.GetVTablePointers(c, 0, None, 0, false);
    vptrs := collector.vptrs;
    forall p: VPtr
      ensures p in vptrs <==>
        && HasVPtr(h, c, p.decl, p.nearest, p.offsetFromNearest)
        && p.baseOffset == (if p.nearest.None? then 0 else vbases(p.nearest.value)) + p.offsetFromNearest
    {
      WithinIsTrail(h, c, p.decl, p.nearest, p.offsetFromNearest);
      var own := Subobject(p.decl, p.nearest, p.offsetFromNearest, false);
      if p in vptrs {
        var t :| Within(h, Whole(c), t) && !t.sharesVPtr && p == VPtrOf(t, vbases);
        assert t == own;
      }
      if Within(h, Whole(c), own) {
        assert VPtrOf(own, vbases) in vptrs;
      }
    }
  }

  /** Where `InitializeVTablePointer` stores the address point. `actual` gives the virtual base offsets that are
      found at run time, which are used when the constructor gets a table of them (`needsVTT`). */
  method VTableField(self: int, p: VPtr, needsVTT: bool, actual: VBaseOffsets) returns (field: int)
    ensures p.nearest.Some? && needsVTT ==> field == self + NearestOffset(p.nearest, actual) + p.offsetFromNearest
    ensures p.nearest.None? || !needsVTT ==> field == self + p.baseOffset
  {
    var virtualOffset: Option<int> := None;
    var nonVirtualOffset := 0;
    if p.nearest.Some? && needsVTT {
      virtualOffset := Some(actual(p.nearest.value));
      nonVirtualOffset := p.offsetFromNearest;
    } else {
      nonVirtualOffset := p.baseOffset;
    }
    field := self;
    if nonVirtualOffset != 0 || virtualOffset.Some? {
      var baseOffset: int;
      if nonVirtualOffset != 0 {
        baseOffset := nonVirtualOffset;
        if virtualOffset.Some? {
          baseOffset := virtualOffset.value + baseOffset;
        }
      } else {
        baseOffset := virtualOffset.value;
      }
      field := field + baseOffset;
    }
  }

  /** The address point for `vptr` is stored at `field`. */
  datatype Store = Store(field: int, vptr: VPtr)

  /** The loop over the collected pointers. */
  method StoreAddressPoints(self: int, vptrs: seq<VPtr>, needsVTT: bool, vbases: VBaseOffsets, actual: VBaseOffsets)
      returns (stores: seq<Store>)
    requires !needsVTT ==> forall v :: actual(v) == vbases(v)
    requires forall p :: p in vptrs ==> p.baseOffset == NearestOffset(p.nearest, vbases) + p.offsetFromNearest
    ensures |stores| == |vptrs|
    ensures forall j :: 0 <= j < |vptrs| ==> stores[j].vptr == vptrs[j]
    ensures forall j :: 0 <= j < |vptrs| ==>
      stores[j].field == self + NearestOffset(vptrs[j].nearest, actual) + vptrs[j].offsetFromNearest
  {
    stores := [];
    for i := 0 to |vptrs|
      invariant |stores| == i
      invariant forall j :: 0 <= j < i ==> stores[j].vptr == vptrs[j]
      invariant forall j :: 0 <= j < i ==>
        stores[j].field == self + NearestOffset(vptrs[j].nearest, actual) + vptrs[j].offsetFromNearest
    {
      assert vptrs[i] in vptrs;
      var field := VTableField(self, vptrs[i], needsVTT, actual);
      stores := stores + [Store(field, vptrs[i])];
    }
  }

  /** Every vtable pointer of the object under construction is initialized, at the place where it really is, and
      nothing else is written. The pointer at the start of the object comes first: the offsets in `actual` are found
      through it. Without a table of offsets, the object must be laid out as a complete one. */
  method InitializeVTablePointers(h: Hierarchy, c: nat, vbases: VBaseOffsets, self: int, needsVTT: bool,
                                  actual: VBaseOffsets) returns (stores: seq<Store>)
    requires c < |h| && (!needsVTT ==> forall v :: actual(v) == vbases(v))
    ensures !h[c].dynamic ==> stores == []
    ensures h[c].dynamic ==> stores != [] && stores[0] == Store(self, VPtr(c, 0, None, 0))
    ensures h[c].dynamic ==> forall p: VPtr, a: int :: Store(a, p) in stores <==>
      && HasVPtr(h, c, p.decl, p.nearest, p.offsetFromNearest)
      && p.baseOffset == (if p.nearest.None? then 0 else vbases(p.nearest.value)) + p.offsetFromNearest
      && a == self + (if p.nearest.None? then 0 else actual(p.nearest.value)) + p.offsetFromNearest
  {
    stores := [];
    if !h[c].dynamic {
      return;
    }
    var vptrs := CollectVTablePointers(h, c, vbases);
    stores := StoreAddressPoints(self, vptrs, needsVTT, vbases, actual);
    forall p: VPtr, a: int
      ensures Store(a, p) in stores <==>
        p in vptrs && a == self + (if p.nearest.None? then 0 else actual(p.nearest.value)) + p.offsetFromNearest
    {
      if p in vptrs {
        var j :| 0 <= j < |vptrs| && vptrs[j] == p;
        assert stores[j].vptr == p;
      }
    }
  }
}
