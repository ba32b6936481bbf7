/** Conversions between classes and their bases (`GetAddressOfBaseClass`, `GetAddressOfDerivedClass`) and
    the check that HexType attaches to a downcast. Addresses are machine words; null is 0. */
module BasePaths {
  import opened Arithmetic

  /** One step of a cast path: to the base `decl`. */
  datatype Step = Step(decl: nat, isVirtual: bool)

  /** The offset of a non-virtual base in the layout of a class, and of a virtual base in a complete object. */
  datatype Layouts = Layouts(base: (nat, nat) -> nat, vbase: (nat, nat) -> nat)

  predicate NonVirtual(path: seq<Step>) {
    forall i :: 0 <= i < |path| ==> !path[i].isVirtual
  }

  /** The class at the end of a path. */
  function End(c: nat, path: seq<Step>): nat {
    if path == [] then c else path[|path| - 1].decl
  }

  /** Following a path step by step. */
  function Offset(l: Layouts, c: nat, path: seq<Step>): nat
    decreases |path|
  {
    if path == [] then 0
    else l.base(c, path[0].decl) + Offset(l, path[0].decl, path[1..])
  }

  /** Offsets add up when paths are joined. */
  lemma {:induction false} OffsetsAdd(l: Layouts, c: nat, p: seq<Step>, q: seq<Step>)
    ensures Offset(l, c, p + q) == Offset(l, c, p) + Offset(l, End(c, p), q)
    decreases |p|
  {
    if p == [] {
      assert p + q == q;
    } else {
      OffsetsAdd(l, p[0].decl, p[1..], q);
      assert (p + q)[1..] == p[1..] + q;
      assert End(c, p) == End(p[0].decl, p[1..]);
    }
  }

  /** Each further step adds the offset of its base in the layout of the class reached so far. */
  lemma OffsetExtends(l: Layouts, c: nat, path: seq<Step>, s: Step)
    ensures Offset(l, c, []) == 0
    ensures Offset(l, c, path + [s]) ==
      Offset(l, c, path) + l.base(if path == [] then c else path[|path| - 1].decl, s.decl)
  {
    OffsetsAdd(l, c, path, [s]);
    assert Offset(l, s.decl, [s][1..]) == 0;
  }

  lemma OffsetNext(l: Layouts, c: nat, path: seq<Step>, i: nat)
    requires i < |path|
    ensures Offset(l, c, path[..i + 1]) == Offset(l, c, path[..i]) + l.base(End(c, path[..i]), path[i].decl)
  {
    assert path[..i + 1] == path[..i] + [path[i]];
    OffsetExtends(l, c, path[..i], path[i]);
  }

  method ComputeNonVirtualBaseClassOffset(l: Layouts, derived: nat, path: seq<Step>) returns (offset: nat)
    requires NonVirtual(path)
    ensures offset == Offset(l, derived, path)
  {
    offset := 0;
    var rd := derived;
    for i := 0 to |path|
      invariant offset == Offset(l, derived, path[..i]) && rd == End(derived, path[..i])
    {
      OffsetNext(l, derived, path, i);
      offset := offset + l.base(rd, path[i].decl);
      rd := path[i].decl;
    }
    assert path[..|path|] == path;
  }

  /** Pointer arithmetic in words below `m`. */
  function Moved(p: nat, delta: int, m: nat): (r: nat)
    requires m > 0
    ensures r < m
  {
    (p + delta) % m
  }

  /** The address of a base subobject of an object at `value` whose class is `derived`, or null. The offset of a
      virtual base is read from the object (`actual`), unless `derived` is final: then the layout is known. */
  method GetAddressOfBaseClass(l: Layouts, value: nat, derived: nat, isFinal: bool, path: seq<Step>, nullCheck: bool,
                               actual: nat -> nat, m: nat) returns (result: nat)
    requires path != [] && NonVirtual(path[1..]) && value < m
    requires isFinal && path[0].isVirtual ==> actual(path[0].decl) == l.vbase(derived, path[0].decl)
    ensures !path[0].isVirtual ==> result == BaseAddress(l, value, derived, path, nullCheck, m)
    ensures path[0].isVirtual ==>
      result == if value == 0 && nullCheck then 0
                else Moved(value, actual(path[0].decl) + Offset(l, path[0].decl, path[1..]), m)
  {
    var start, from := path, derived;
    var vbase := path[0].isVirtual;
    if vbase {
      start, from := path[1..], path[0].decl;
    }
    var offset := ComputeNonVirtualBaseClassOffset(l, from, start);
    if vbase && isFinal {
      offset := offset + l.vbase(derived, path[0].decl);
      vbase := false;
    }
    if offset == 0 && !vbase {
      SmallMod(value, m);
      return value;
    }
    if nullCheck && value == 0 {
      return 0;
    }
    var delta := offset;
    if vbase {
      delta := actual(path[0].decl) + offset;
    }
    result := Moved(value, delta, m);
  }

  /** The address of the object whose base subobject is at `base`, or null. */
  method GetAddressOfDerivedClass(l: Layouts, base: nat, derived: nat, path: seq<Step>, nullCheck: bool, m: nat)
      returns (result: nat)
    requires path != [] && NonVirtual(path) && base < m
    ensures result == DerivedAddress(l, base, derived, path, nullCheck, m)
  {
    var offset := ComputeNonVirtualBaseClassOffset(l, derived, path);
    if offset == 0 {
      SmallMod(base, m);
      return base;
    }
    if nullCheck && base == 0 {
      return 0;
    }
    var delta: int := offset;
    result := Moved(base, -delta, m);
  }

  function BaseAddress(l: Layouts, value: nat, derived: nat, path: seq<Step>, nullCheck: bool, m: nat): nat
    requires m > 0
  {
    if value == 0 && nullCheck then 0 else Moved(value, Offset(l, derived, path), m)
  }

  function DerivedAddress(l: Layouts, base: nat, derived: nat, path: seq<Step>, nullCheck: bool, m: nat): nat
    requires m > 0
  {
    if base == 0 && nullCheck then 0 else Moved(base, 0 - Offset(l, derived, path), m)
  }

  lemma MovedBack(p: nat, delta: nat, m: nat)
    requires p < m && delta < m
    ensures Moved(Moved(p, delta, m), 0 - delta, m) == p
    ensures Moved(p, delta, m) == if p + delta < m then p + delta else p + delta - m
    ensures Moved(p, 0 - delta, m) == if p >= delta then p - delta else p - delta + m
  {
    if p + delta < m {
      SmallMod(p + delta, m);
      SmallMod(p, m);
    } else {
      ModUnique(p + delta, m, 1, p + delta - m);
    }
    NegativeMod(p - delta, m);
    NegativeMod(Moved(p, delta, m) - delta, m);
  }

  lemma MovedForth(p: nat, delta: nat, m: nat)
    requires p < m && delta < m
    ensures Moved(Moved(p, 0 - delta, m), delta, m) == p
  {
    MovedBack(p, delta, m);
    MovedBack(Moved(p, 0 - delta, m), delta, m);
  }

  lemma NegativeMod(x: int, m: nat)
    requires 0 - m < x < m
    ensures x % m == if x >= 0 then x else x + m
  {
    if x >= 0 {
      SmallMod(x, m);
    } else {
      var d := x / m;
      assert x == d * m + x % m;
      MulAtLeast(d + 1, m);
    }
  }

  /** To a base and back. With a non-zero offset inside the address space this is the identity exactly when the
      two null checks do not disagree about the pointer: a null that was kept must be kept again, and an object
      must not have its base at address 0. */
  lemma ThereAndBack(l: Layouts, p: nat, derived: nat, path: seq<Step>, checkDown: bool, checkUp: bool, m: nat)
    requires p < m && 0 < Offset(l, derived, path) < m
    ensures
      var base := BaseAddress(l, p, derived, path, checkDown, m);
      DerivedAddress(l, base, derived, path, checkUp, m) == p <==>
        if p == 0 then checkDown ==> checkUp else checkUp ==> p + Offset(l, derived, path) != m
  {
    MovedBack(p, Offset(l, derived, path), m);
    MovedBack(0, Offset(l, derived, path), m);
  }

  lemma ThereAndBackInPlace(l: Layouts, p: nat, derived: nat, path: seq<Step>, checkDown: bool, checkUp: bool, m: nat)
    requires p < m && Offset(l, derived, path) == 0
    ensures BaseAddress(l, p, derived, path, checkDown, m) == p
    ensures DerivedAddress(l, p, derived, path, checkUp, m) == p
  {
    SmallMod(p, m);
  }

  /** What decides about the null check of a class cast: whether it is an unchecked conversion to a base, its
      operand is `this`, it is implicit, and it gives a glvalue. */
  datatype Cast = Cast(unchecked: bool, ofThis: bool, implicit: bool, glvalue: bool)

  /** `ShouldNullCheckClassCastValue`. An unchecked conversion, a cast of `this` and an implicit glvalue conversion are
      never of a null pointer. */
  predicate ShouldNullCheck(c: Cast) {
    if c.unchecked then false
    else if c.ofThis then false
    else !(c.implicit && c.glvalue)
  }

  /** A cast from a base: explicit, of pointer type, and of something that is not `this`. */
  predicate IsBaseToDerived(c: Cast) {
    !c.unchecked && !c.implicit && !c.ofThis
  }

  /** Any conversion of a pointer to a base, and the cast of its result back, give the pointer, and null for null,
      for all objects that do not wrap around the address space. */
  lemma PointersComeBack(l: Layouts, p: nat, derived: nat, path: seq<Step>, down: Cast, up: Cast, m: nat)
    requires p + Offset(l, derived, path) < m && IsBaseToDerived(up)
    ensures var base := BaseAddress(l, p, derived, path, ShouldNullCheck(down), m);
      && DerivedAddress(l, base, derived, path, ShouldNullCheck(up), m) == p
      && (p == 0 && !down.unchecked && !down.ofThis && !(down.implicit && down.glvalue) ==> base == 0)
      && (p != 0 || down.unchecked || down.ofThis || (down.implicit && down.glvalue) ==>
          base == p + Offset(l, derived, path))
  {
    if Offset(l, derived, path) == 0 {
      ThereAndBackInPlace(l, p, derived, path, ShouldNullCheck(down), ShouldNullCheck(up), m);
    } else {
      ThereAndBack(l, p, derived, path, ShouldNullCheck(down), ShouldNullCheck(up), m);
      SmallMod(p + Offset(l, derived, path), m);
    }
  }

  /** References are never checked for null, and come back wherever the object is. */
  lemma ReferencesComeBack(l: Layouts, p: nat, derived: nat, path: seq<Step>, m: nat)
    requires p < m && Offset(l, derived, path) < m
    ensures DerivedAddress(l, BaseAddress(l, p, derived, path, false, m), derived, path, false, m) == p
  {
    MovedBack(p, Offset(l, derived, path), m);
  }

  /** The two forms of HexType's check: with the address before the cast only, or with both. */
  datatype Check = SameAddress(p: nat) | ChangedAddress(before: nat, after: nat)

  function CheckFor(l: Layouts, base: nat, derived: nat, path: seq<Step>, result: nat): Check {
    if Offset(l, derived, path) == 0 then SameAddress(base) else ChangedAddress(base, result)
  }

  /** A null pointer is kept, with a check for two addresses that are the same: the base is at offset 8. */
  lemma KeptNullHasTwoAddresses() returns (l: Layouts, path: seq<Step>)
    ensures NonVirtual(path) && Offset(l, 0, path) == 8 && DerivedAddress(l, 0, 0, path, true, Pow2(64)) == 0
    ensures CheckFor(l, 0, 0, path, 0) == ChangedAddress(0, 0)
  {
    l, path := Layouts((c, b) => 8, (c, b) => 0), [Step(1, false)];
    assert Offset(l, 1, path[1..]) == 0;
  }

  /** The `CK_BaseToDerived` case with HexType enabled. A check for one address is used exactly when the cast does
      not move the pointer, apart from a null pointer that is kept although objects would move. */
  method BaseToDerived(l: Layouts, base: nat, derived: nat, path: seq<Step>, nullCheck: bool, m: nat)
      returns (result: nat, check: Check)
    requires path != [] && NonVirtual(path) && base < m && Offset(l, derived, path) < m
    ensures result == DerivedAddress(l, base, derived, path, nullCheck, m)
    ensures check == CheckFor(l, base, derived, path, result)
    ensures check.SameAddress? ==> check.p == base
    ensures check.ChangedAddress? ==> check.before == base && check.after == result
    ensures check.ChangedAddress? && !(base == 0 && nullCheck) ==>
      check.before == Moved(check.after, Offset(l, derived, path), m) && check.before != check.after
    ensures result == base <==> check.SameAddress? || (base == 0 && nullCheck)
  {
    result := GetAddressOfDerivedClass(l, base, derived, path, nullCheck, m);
    var offset := ComputeNonVirtualBaseClassOffset(l, derived, path);
    MovedBack(base, offset, m);
    MovedForth(base, offset, m);
    check := if offset == 0 then SameAddress(base) else ChangedAddress(base, result);
  }
}
