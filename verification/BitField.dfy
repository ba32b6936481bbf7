/** Loads and stores of bit-fields (`EmitLoadOfBitfieldLValue`, `EmitStoreThroughBitfieldLValue`): shifts
    and masks on a storage unit. Machine integers are sequences of bits, the lowest first. */
module BitField {
  import opened Arithmetic

  type Bits = seq<bool>

  function Shl(v: Bits, k: nat): Bits {
    seq(|v|, i requires 0 <= i < |v| => i >= k && v[i - k])
  }

  function LShr(v: Bits, k: nat): Bits {
    seq(|v|, i requires 0 <= i < |v| => i + k < |v| && v[i + k])
  }

  /** The sign bit moves in. */
  function AShr(v: Bits, k: nat): Bits {
    seq(|v|, i requires 0 <= i < |v| => if i + k < |v| then v[i + k] else v[|v| - 1])
  }

  function And(v: Bits, w: Bits): Bits
    requires |v| == |w|
  {
    seq(|v|, i requires 0 <= i < |v| => v[i] && w[i])
  }

  function Or(v: Bits, w: Bits): Bits
    requires |v| == |w|
  {
    seq(|v|, i requires 0 <= i < |v| => v[i] || w[i])
  }

  function Not(v: Bits): Bits {
    seq(|v|, i requires 0 <= i < |v| => !v[i])
  }

  /** `APInt::getBitsSet` */
  function BitsSet(width: nat, lo: nat, hi: nat): Bits {
    seq(width, i => lo <= i < hi)
  }

  /** `CreateIntCast`: truncation, or extension with zeros or the sign. */
  function Cast(v: Bits, width: nat, isSigned: bool): (r: Bits)
    ensures |r| == width
  {
    if width <= |v| then v[..width]
    else v + seq(width - |v|, _ => isSigned && v != [] && v[|v| - 1])
  }

  /** `CGBitFieldInfo` */
  datatype Info = Info(offset: nat, size: nat, storageSize: nat, isSigned: bool)

  predicate Valid(f: Info) {
    f.size > 0 && f.offset + f.size <= f.storageSize
  }

  /** The declared type: the widths of its values and of its values in memory, which differ for `bool`. */
  datatype Type = Type(width: nat, memoryWidth: nat, boolean: bool)

  predicate Declares(t: Type, f: Info) {
    if t.boolean then t.width == 1 <= t.memoryWidth && !f.isSigned else t.width == t.memoryWidth
  }

  predicate Disjoint(f: Info, g: Info) {
    f.offset + f.size <= g.offset || g.offset + g.size <= f.offset
  }

  /** The bits that make up the field. */
  function Field(unit: Bits, f: Info): (r: Bits)
    requires Valid(f) && |unit| == f.storageSize
    ensures |r| == f.size
  {
    unit[f.offset..f.offset + f.size]
  }

  /** What the field means as a value of its declared type. */
  function Meaning(field: Bits, f: Info, t: Type): Bits {
    Cast(field, t.width, f.isSigned)
  }

  lemma ShiftByZero(v: Bits)
    ensures Shl(v, 0) == v && LShr(v, 0) == v && AShr(v, 0) == v
  {
  }

  lemma SignedField(unit: Bits, f: Info)
    requires Valid(f) && |unit| == f.storageSize
    ensures var high := f.storageSize - f.offset - f.size;
      AShr(Shl(unit, high), f.offset + high) == Cast(Field(unit, f), f.storageSize, true)
  {
  }

  lemma UnsignedField(unit: Bits, f: Info)
    requires Valid(f) && |unit| == f.storageSize
    ensures And(LShr(unit, f.offset), BitsSet(f.storageSize, 0, f.size)) == Cast(Field(unit, f), f.storageSize, false)
    ensures f.offset + f.size == f.storageSize ==> LShr(unit, f.offset) == Cast(Field(unit, f), f.storageSize, false)
  {
  }

  /** Masking in the width of the storage unit truncates to the width of the field. A boolean needs no mask. */
  lemma MaskedValue(src: Bits, f: Info)
    requires Valid(f)
    ensures And(Cast(src, f.storageSize, false), BitsSet(f.storageSize, 0, f.size))
      == Cast(Cast(src, f.size, false), f.storageSize, false)
    ensures |src| == 1 ==> Cast(src, f.storageSize, false) == Cast(Cast(src, f.size, false), f.storageSize, false)
  {
  }

  /** The unit with the field replaced. */
  function Replaced(unit: Bits, f: Info, field: Bits): (r: Bits)
    requires Valid(f) && |unit| == f.storageSize && |field| == f.size
    ensures |r| == f.storageSize
  {
    unit[..f.offset] + field + unit[f.offset + f.size..]
  }

  lemma MergedUnit(unit: Bits, f: Info, field: Bits)
    requires Valid(f) && |unit| == f.storageSize && |field| == f.size
    ensures Or(And(unit, Not(BitsSet(f.storageSize, f.offset, f.offset + f.size))),
               Shl(Cast(field, f.storageSize, false), f.offset)) == Replaced(unit, f, field)
  {
  }

  lemma SignExtended(field: Bits, f: Info)
    requires Valid(f) && |field| == f.size
    ensures var high := f.storageSize - f.size;
      AShr(Shl(Cast(field, f.storageSize, false), high), high) == Cast(field, f.storageSize, true)
  {
  }

  /** Extending in two steps is extending at once. */
  lemma CastTwice(v: Bits, w: nat, x: nat, isSigned: bool)
    requires 0 < |v| <= w
    ensures Cast(Cast(v, w, isSigned), x, isSigned) == Cast(v, x, isSigned)
  {
  }

  /** A boolean is widened to its memory width and truncated back. */
  lemma CastThrough(v: Bits, w: nat, x: nat)
    requires |v| > 0 && 1 == x <= w
    ensures Cast(Cast(v, w, false), x, false) == Cast(v, x, false)
  {
  }

  /** Loading after a store gives the value truncated to the width of the field. */
  lemma StoredIsLoaded(unit: Bits, f: Info, field: Bits)
    requires Valid(f) && |unit| == f.storageSize && |field| == f.size
    ensures Field(Replaced(unit, f, field), f) == field
  {
  }

  /** Every other field of the unit keeps its bits. */
  lemma OthersKeepTheirs(unit: Bits, f: Info, g: Info, field: Bits)
    requires Valid(f) && Valid(g) && f.storageSize == g.storageSize == |unit| && |field| == f.size && Disjoint(f, g)
    ensures Field(Replaced(unit, f, field), g) == Field(unit, g)
  {
  }

  /** Bit by bit: the field's own bits, then its sign or zeros. */
  lemma MeaningBits(unit: Bits, f: Info, t: Type, r: Bits)
    requires Valid(f) && |unit| == f.storageSize && r == Meaning(Field(unit, f), f, t)
    ensures |r| == t.width
    ensures forall i :: 0 <= i < |r| ==>
      r[i] == if i < f.size then unit[f.offset + i] else f.isSigned && unit[f.offset + f.size - 1]
  {
  }

  lemma ReplacedBits(unit: Bits, f: Info, src: Bits, r: Bits)
    requires Valid(f) && |unit| == f.storageSize && r == Replaced(unit, f, Cast(src, f.size, false))
    ensures |r| == f.storageSize
    ensures forall i :: 0 <= i < |r| ==>
      r[i] == if f.offset <= i < f.offset + f.size then i - f.offset < |src| && src[i - f.offset] else unit[i]
  {
  }

  /** A storage unit in memory. */
  class Unit {
    var bits: Bits

    constructor (bits: Bits)
      ensures this.bits == bits
    {
      this.bits := bits;
    }

    /** A load gives the bits of the field, extended by its sign or with zeros. */
    method Load(f: Info, t: Type) returns (r: Bits)
      requires Valid(f) && |bits| == f.storageSize
      ensures r == Meaning(Field(bits, f), f, t) && |r| == t.width
      ensures forall i :: 0 <= i < |r| ==>
        r[i] == if i < f.size then bits[f.offset + i] else f.isSigned && bits[f.offset + f.size - 1]
    {
      r := LoadBits(f, t);
      MeaningBits(bits, f, t, r);
    }

    method LoadBits(f: Info, t: Type) returns (r: Bits)
      requires Valid(f) && |bits| == f.storageSize
      ensures r == Meaning(Field(bits, f), f, t)
    {
      ShiftByZero(bits);
      var val := bits;
      ghost var field := Field(bits, f);
      if f.isSigned {
        SignedField(bits, f);
        var highBits := f.storageSize - f.offset - f.size;
        if highBits != 0 {
          val := Shl(val, highBits);
        }
        if f.offset + highBits != 0 {
          val := AShr(val, f.offset + highBits);
        }
        assert val == Cast(field, f.storageSize, true);
      } else {
        UnsignedField(bits, f);
        if f.offset != 0 {
          val := LShr(val, f.offset);
        }
        if f.offset + f.size < f.storageSize {
          val := And(val, BitsSet(f.storageSize, 0, f.size));
        }
        assert val == Cast(field, f.storageSize, false);
      }
      CastTwice(field, f.storageSize, t.width, f.isSigned);
      r := Cast(val, t.width, f.isSigned);
    }

    /** A store replaces the bits of the field and nothing else, and its result is what a load would give. */
    method Store(f: Info, t: Type, src: Bits) returns (result: Bits)
      requires Valid(f) && Declares(t, f) && |bits| == f.storageSize && |src| == t.width
      modifies this
      ensures bits == Replaced(old(bits), f, Cast(src, f.size, false)) && |bits| == f.storageSize
      ensures forall i :: 0 <= i < |bits| ==>
        bits[i] == if f.offset <= i < f.offset + f.size then i - f.offset < |src| && src[i - f.offset] else old(bits)[i]
      ensures result == Meaning(Field(bits, f), f, t)
    {
      ghost var unit := bits;
      result := StoreBits(f, t, src);
      ReplacedBits(unit, f, src, bits);
    }

    method StoreBits(f: Info, t: Type, src: Bits) returns (result: Bits)
      requires Valid(f) && Declares(t, f) && |bits| == f.storageSize && |src| == t.width
      modifies this
      ensures bits == Replaced(old(bits), f, Cast(src, f.size, false))
      ensures result == Meaning(Field(bits, f), f, t)
    {
      ghost var field := Cast(src, f.size, false);
      MaskedValue(src, f);
      MergedUnit(bits, f, field);
      StoredIsLoaded(bits, f, field);
      var srcVal := Cast(src, f.storageSize, false);
      var maskedVal := srcVal;
      if f.storageSize != f.size {
        var val := bits;
        if !t.boolean {
          srcVal := And(srcVal, BitsSet(f.storageSize, 0, f.size));
        }
        maskedVal := srcVal;
        if f.offset != 0 {
          srcVal := Shl(srcVal, f.offset);
        } else {
          ShiftByZero(srcVal);
        }
        val := And(val, Not(BitsSet(f.storageSize, f.offset, f.offset + f.size)));
        srcVal := Or(val, srcVal);
      }
      bits := srcVal;
      result := StoreResult(f, t, maskedVal, field);
    }

    method StoreResult(f: Info, t: Type, maskedVal: Bits, ghost field: Bits) returns (result: Bits)
      requires Valid(f) && Declares(t, f) && |field| == f.size && maskedVal == Cast(field, f.storageSize, false)
      ensures result == Meaning(field, f, t)
    {
      SignExtended(field, f);
      CastTwice(field, f.storageSize, t.memoryWidth, f.isSigned);
      var resultVal := maskedVal;
      if f.isSigned {
        var highBits := f.storageSize - f.size;
        if highBits != 0 {
          resultVal := Shl(resultVal, highBits);
          resultVal := AShr(resultVal, highBits);
        }
      }
      resultVal := Cast(resultVal, t.memoryWidth, f.isSigned);
      if t.boolean {
        CastThrough(field, t.memoryWidth, t.width);
        resultVal := Cast(resultVal, t.width, false);
      }
      result := resultVal;
    }
  }

  // ---------------------------------------------------------------- as numbers

  function Unsigned(v: Bits): nat {
    if v == [] then 0 else Unsigned(v[..|v| - 1]) + if v[|v| - 1] then Pow2(|v| - 1) else 0
  }

  function Signed(v: Bits): int {
    if v != [] && v[|v| - 1] then Unsigned(v) - Pow2(|v|) else Unsigned(v)
  }

  /** The number a bit pattern stands for under either reading. */
  function Number(v: Bits, isSigned: bool): int {
    if isSigned then Signed(v) else Unsigned(v)
  }

  lemma {:induction false} UnsignedRange(v: Bits)
    ensures Unsigned(v) < Pow2(|v|)
  {
    if v != [] {
      UnsignedRange(v[..|v| - 1]);
    }
  }

  /** Extension keeps the number, under the reading that it extends for. */
  lemma {:induction false} ExtensionKeepsNumber(v: Bits, w: nat, isSigned: bool)
    requires |v| <= w
    ensures Number(Cast(v, w, isSigned), isSigned) == Number(v, isSigned)
    decreases w
  {
    if |v| == w {
      assert Cast(v, w, isSigned) == v;
    } else {
      ExtensionKeepsNumber(v, w - 1, isSigned);
      var r := Cast(v, w, isSigned);
      assert r[..w - 1] == Cast(v, w - 1, isSigned);
    }
  }

  /** Truncation to `n` bits is the remainder modulo 2 to the `n`. */
  lemma {:induction false} TruncationIsRemainder(v: Bits, n: nat)
    requires n <= |v|
    ensures Unsigned(Cast(v, n, false)) == Unsigned(v) % Pow2(n)
    decreases |v|
  {
    if n == |v| {
      UnsignedRange(v);
      assert Cast(v, n, false) == v;
      SmallMod(Unsigned(v), Pow2(n));
    } else {
      var front := v[..|v| - 1];
      TruncationIsRemainder(front, n);
      assert v[..n] == front[..n];
      if v[|v| - 1] {
        var q := Pow2Divides(n, |v| - 1);
        ModAddMultiple(Unsigned(front), q, Pow2(n));
      }
    }
  }

  /** In numbers: what is loaded from a field after `x` has been stored there is `x` reduced modulo 2 to the
      size of the field, and for a signed field the number with that residue that the size can hold. A field as
      wide as its type, or wider as a `bool` field may be, loses nothing. */
  lemma LoadedNumber(src: Bits, f: Info, t: Type)
    requires Valid(f) && t.width == |src| && (f.size <= t.width || !f.isSigned)
    ensures Number(Meaning(Cast(src, f.size, false), f, t), f.isSigned) ==
      var r := Unsigned(src) % Pow2(f.size);
      if f.isSigned && r >= Pow2(f.size - 1) then r - Pow2(f.size) else r
    ensures f.size >= t.width ==> Meaning(Cast(src, f.size, false), f, t) == src
  {
    var field := Cast(src, f.size, false);
    if f.size <= t.width {
      ExtensionKeepsNumber(field, t.width, f.isSigned);
      TruncationIsRemainder(src, f.size);
      UnsignedRange(field[..f.size - 1]);
    } else {
      ExtensionKeepsNumber(src, f.size, false);
      UnsignedRange(field);
      SmallMod(Unsigned(src), Pow2(f.size));
    }
  }
}
