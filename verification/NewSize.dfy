/** The size that an array new-expression asks for (`EmitCXXNewAllocSize`), computed at compile time or
    by emitted code, and the size that sized array delete recomputes. Machine integers are naturals
    below a power of two; what they mean is said by `Signed`. */
module NewSize {
  import opened Arithmetic

  /** The number that `bits` stands for in a type of width `w`. */
  function Signed(bits: nat, w: nat, isSigned: bool): int
    requires w > 0 && bits < Pow2(w)
  {
    if isSigned && bits >= Pow2(w - 1) then bits - Pow2(w) else bits
  }

  /** Two's complement: the number has the bits, up to a multiple of 2 to the width, and lies in the range of the
      type. */
  lemma SignedRange(bits: nat, w: nat, isSigned: bool)
    requires w > 0 && bits < Pow2(w)
    ensures var v := Signed(bits, w, isSigned);
      && (v == bits || v == bits - Pow2(w))
      && if isSigned then 0 - Pow2(w - 1) <= v < Pow2(w - 1) else 0 <= v < Pow2(w)
  {
  }

  /** The allocated type: nested constant-size arrays of an element of `size` bytes. */
  datatype Type = Element(size: nat) | Array(n: nat, of: Type)

  function ElementSize(t: Type): nat {
    match t
    case Element(size) => size
    case Array(_, of) => ElementSize(of)
  }

  /** How many elements one value of type `t` holds. */
  function Elements(t: Type): nat {
    match t
    case Element(_) => 1
    case Array(n, of) => n * Elements(of)
  }

  function SizeOf(t: Type): nat {
    ElementSize(t) * Elements(t)
  }

  /** The subscripts of one innermost element: one for each dimension, and below it. */
  predicate Subscripts(t: Type, ix: seq<nat>) {
    match t
    case Element(_) => ix == []
    case Array(n, of) => ix != [] && ix[0] < n && Subscripts(of, ix[1..])
  }

  /** There are as many elements as ways to subscript them. */
  lemma {:induction false} ElementsAreSubscripts(t: Type) returns (all: set<seq<nat>>)
    ensures forall ix :: ix in all <==> Subscripts(t, ix)
    ensures |all| == Elements(t)
    decreases t
  {
    match t
    case Element(_) => all := {[]};
    case Array(n, of) =>
      var rest := ElementsAreSubscripts(of);
      all := Subscripted(n, rest);
  }

  /** Each of the tuples in `rest`, after each number below `n`. */
  lemma {:induction false} Subscripted(n: nat, rest: set<seq<nat>>) returns (all: set<seq<nat>>)
    ensures forall ix :: ix in all <==> ix != [] && ix[0] < n && ix[1..] in rest
    ensures |all| == n * |rest|
    decreases n
  {
    if n == 0 {
      all := {};
    } else {
      var before := Subscripted(n - 1, rest);
      var last := StartingWith(n - 1, rest);
      assert before !! last;
      all := before + last;
      assert (n - 1) * |rest| + |rest| == n * |rest|;
    }
  }

  lemma {:induction false} StartingWith(i: nat, rest: set<seq<nat>>) returns (all: set<seq<nat>>)
    ensures forall ix :: ix in all <==> ix != [] && ix[0] == i && ix[1..] in rest
    ensures |all| == |rest|
    decreases |rest|
  {
    if rest == {} {
      all := {};
    } else {
      var one :| one in rest;
      var others := StartingWith(i, rest - {one});
      all := others + {[i] + one};
      assert [i] + one !in others;
      forall ix | ix != [] && ix[0] == i && ix[1..] in rest ensures ix in all {
        assert ix == [i] + ix[1..];
      }
    }
  }

  /** C++11 section 5.3.3: the size of an array of `n` elements is `n` times the size of an element. */
  lemma ArraySizes(size: nat, n: nat, of: Type)
    ensures SizeOf(Element(size)) == size && SizeOf(Array(n, of)) == n * SizeOf(of)
  {
    assert ElementSize(of) * (n * Elements(of)) == n * (ElementSize(of) * Elements(of));
  }

  /** What C++11 section 5.3.4 asks for: an erroneous count or a total that does not fit is reported
      by the largest `size_t`, which no allocation function can satisfy. */
  function Requested(count: int, size: nat, cookie: nat, minElements: nat, s: nat): nat {
    if count < 0 || count < minElements || count * size + cookie >= Pow2(s) then Pow2(s) - 1
    else count * size + cookie
  }

  /** All inputs of `EmitCXXNewAllocSize`: the count as bits of its own type, and the rest. */
  datatype Input = Input(bits: nat, width: nat, isSigned: bool, t: Type, cookie: nat, minElements: nat, sizeWidth: nat)

  /** The widths are real, the values fit their types, the type has a size that fits `size_t`, and
      `minElements` is not negative as a signed `size_t`. */
  ghost predicate Sensible(i: Input) {
    && i.width > 0 && i.sizeWidth > 0
    && i.bits < Pow2(i.width) && i.cookie < Pow2(i.sizeWidth) && i.minElements < Pow2(i.sizeWidth - 1)
    && SizeOf(i.t) < Pow2(i.sizeWidth)
  }

  function Count(i: Input): int
    requires i.width > 0 && i.bits < Pow2(i.width)
  {
    Signed(i.bits, i.width, i.isSigned)
  }

  ghost function Expected(i: Input): nat
    requires Sensible(i)
  {
    Requested(Count(i), SizeOf(i.t), i.cookie, i.minElements, i.sizeWidth)
  }

  // ---------------------------------------------------------------- machine arithmetic

  function UMulOv(a: nat, b: nat, m: nat): (nat, bool)
    requires m > 0
  {
    (a * b % m, a * b >= m)
  }

  function UAddOv(a: nat, b: nat, m: nat): (nat, bool)
    requires m > 0
  {
    ((a + b) % m, a + b >= m)
  }

  /** `countLeadingZeros` in a type of width `w`. */
  function Clz(bits: nat, w: nat): nat {
    if w == 0 || bits >= Pow2(w - 1) then 0 else 1 + Clz(bits, w - 1)
  }

  lemma {:induction false} ClzSays(bits: nat, w: nat, s: nat)
    requires s < w && bits < Pow2(w)
    ensures w - s > Clz(bits, w) <==> bits >= Pow2(s)
    decreases w
  {
    if bits >= Pow2(w - 1) {
      Pow2Monotone(s, w - 1);
    } else if s < w - 1 {
      ClzSays(bits, w - 1, s);
    }
  }

  /** `signext` from width `w` to width `s`. */
  function SExt(bits: nat, w: nat, s: nat): int
    requires w > 0 && bits < Pow2(w)
  {
    if bits >= Pow2(w - 1) then bits + Pow2(s) - Pow2(w) else bits
  }

  lemma MulMonotone(a: nat, b: nat, c: nat)
    requires a <= b
    ensures a * c <= b * c
  {
  }

  /** Reducing a factor does not change a product. */
  lemma ModMul(x: nat, c: nat, m: nat)
    requires m > 0
    ensures (x % m) * c % m == x * c % m
  {
    var q, r := x / m, x % m;
    ScaledSum(x, q, m, r, c);
    ModAddMultiple(r * c, q * c, m);
  }

  lemma ScaledSum(x: nat, q: nat, m: nat, r: nat, c: nat)
    requires x == q * m + r
    ensures x * c == q * c * m + r * c
  {
    assert x * c == (q * m) * c + r * c;
    assert (q * m) * c == (q * c) * m;
  }

  lemma MulAssoc(a: nat, b: nat, c: nat)
    ensures a * (b * c) == a * b * c
  {
  }

  /** The loop over nested array types: the element type, and the product of the dimensions as it
      comes out in `size_t`. */
  method FlattenType(t0: Type, s: nat) returns (t: Type, multiplier: nat)
    requires s > 0
    ensures t == Element(ElementSize(t0)) && multiplier == Elements(t0) % Pow2(s)
  {
    t, multiplier := t0, 1;
    while t.Array?
      invariant multiplier < Pow2(s)
      invariant multiplier * Elements(t) % Pow2(s) == Elements(t0) % Pow2(s) && ElementSize(t) == ElementSize(t0)
      decreases t
    {
      MulAssoc(multiplier, t.n, Elements(t.of));
      ModMul(multiplier * t.n, Elements(t.of), Pow2(s));
      multiplier := multiplier * t.n % Pow2(s);
      t := t.of;
    }
    SmallMod(multiplier, Pow2(s));
  }

  // ---------------------------------------------------------------- the two branches

  /** The type as the arithmetic sees it: the product of the dimensions, and the size of one whole
      value of the type. The second is exact, because the size of the type fits. */
  method Multipliers(i: Input) returns (elementSize: nat, dimensions: nat, multiplier: nat)
    requires Sensible(i)
    ensures elementSize == ElementSize(i.t) && dimensions == Elements(i.t) % Pow2(i.sizeWidth)
    ensures multiplier == SizeOf(i.t)
  {
    var m := Pow2(i.sizeWidth);
    var element, d := FlattenType(i.t, i.sizeWidth);
    elementSize, dimensions := element.size, d;
    multiplier := elementSize % m * dimensions % m;
    ReducedProduct(elementSize, Elements(i.t), m);
    SmallMod(SizeOf(i.t), m);
  }

  lemma ReducedProduct(a: nat, b: nat, m: nat)
    requires m > 0
    ensures (a % m) * (b % m) % m == a * b % m
  {
    ModMul(a, b % m, m);
    ModMul(b, a, m);
    assert b * a == a * b && b % m * a == a * (b % m);
  }

  /** The type of the new-expression has size zero and its count is beyond `size_t`: the total is just
      the cookie, but the range check on the count already reports an overflow. */
  ghost predicate NothingTooOften(i: Input)
    requires Sensible(i)
  {
    SizeOf(i.t) == 0 && Count(i) >= Pow2(i.sizeWidth) && i.cookie < Pow2(i.sizeWidth) - 1
  }

  /** The type has size zero and the count is negative: only a multiplication by a non-zero size would
      have noticed. */
  ghost predicate NothingNegative(i: Input)
    requires Sensible(i)
  {
    SizeOf(i.t) == 0 && Count(i) < 0 && i.width <= i.sizeWidth && i.cookie < Pow2(i.sizeWidth) - 1
  }

  ghost predicate Fits(i: Input)
    requires Sensible(i)
  {
    Count(i) >= i.minElements && Count(i) * SizeOf(i.t) + i.cookie < Pow2(i.sizeWidth)
  }

  /** The outputs besides the size, when the allocation is not refused: the number of innermost elements
      to construct, whose sizes add up to the size before the cookie. */
  ghost predicate Flattened(i: Input, numElements: nat, sizeWithoutCookie: nat)
    requires Sensible(i)
  {
    && sizeWithoutCookie == Count(i) * SizeOf(i.t)
    && numElements * ElementSize(i.t) == sizeWithoutCookie
    && (ElementSize(i.t) > 0 ==> numElements == Count(i) * Elements(i.t))
  }

  /** An adjusted count `n` together with a verdict about the count, before any multiplication: either
      the verdict is false and `n` is the count, or the allocation must be refused. */
  lemma Scaled(n: nat, size: nat, cookie: nat, m: nat)
    requires cookie < m
    ensures n * size < m ==> UMulOv(n, size, m) == (n * size, false)
    ensures UMulOv(n, size, m).1 <==> n * size >= m
    ensures n * size < m ==> UAddOv(n * size, cookie, m).1 == (n * size + cookie >= m)
    ensures n * size + cookie < m ==> UAddOv(n * size, cookie, m).0 == n * size + cookie
  {
    if n * size < m {
      SmallMod(n * size, m);
    }
    if n * size + cookie < m {
      SmallMod(n * size + cookie, m);
    }
  }

  /** Scaling the number of elements by the dimensions, modulo `m`, gives the flattened count whenever
      the total fits. */
  lemma ScaledElements(n: nat, elementSize: nat, elements: nat, m: nat)
    requires m > 0 && n * (elementSize * elements) < m
    ensures elementSize > 0 ==> n * (elements % m) % m == n * elements
    ensures (n * (elements % m) % m) * elementSize == n * (elementSize * elements)
  {
    assert n * (elementSize * elements) == (n * elements) * elementSize;
    if elementSize > 0 {
      ReducedFactor(n, elements, m);
      Bounded(n * elements, elementSize, m);
      SmallMod(n * elements, m);
    }
  }

  lemma ReducedFactor(n: nat, e: nat, m: nat)
    requires m > 0
    ensures n * (e % m) % m == n * e % m
  {
    ModMul(e, n, m);
    assert e * n == n * e && e % m * n == n * (e % m);
  }

  lemma Bounded(p: nat, c: nat, m: nat)
    requires c > 0 && p * c < m
    ensures p < m
  {
    MulMonotone(1, c, p);
  }

  lemma AtLeast(n: nat, size: nat, m: nat, k: nat)
    requires size >= k && n * k >= m
    ensures n * size >= m
  {
    assert n * (size - k) >= 0;
  }

  /** What a run of either branch has computed: `n` is the count as a `size_t`, `refused` says whether
      some check on the count alone failed. The check may have missed a negative count, as long as the
      multiplication catches it. */
  ghost predicate Checked(i: Input, n: nat, refused: bool)
    requires Sensible(i)
  {
    var m := Pow2(i.sizeWidth);
    && n < m
    && (refused ==> Count(i) < i.minElements || Count(i) >= m)
    && (!refused && Count(i) >= 0 ==> n == Count(i) && n >= i.minElements)
    && (!refused && Count(i) < 0 ==> i.width <= i.sizeWidth && SizeOf(i.t) != 1 && 2 * n >= m)
  }

  /** What is passed to the allocation function after that. */
  function Outcome(n: nat, refused: bool, size: nat, cookie: nat, m: nat): nat
    requires m > 0
  {
    if refused || n * size + cookie >= m then m - 1 else n * size + cookie
  }

  lemma TimesZero(n: int, size: int)
    requires n == 0 || size == 0
    ensures n * size == 0
  {
  }

  lemma Judged(i: Input, n: nat, refused: bool)
    requires Sensible(i) && Checked(i, n, refused)
    ensures Outcome(n, refused, SizeOf(i.t), i.cookie, Pow2(i.sizeWidth)) == Expected(i)
       <==> !(refused && NothingTooOften(i)) && !(!refused && NothingNegative(i))
  {
    var m, size := Pow2(i.sizeWidth), SizeOf(i.t);
    if size == 0 {
      TimesZero(n, size);
      TimesZero(Count(i), size);
    } else {
      if Count(i) >= m {
        AtLeast(Count(i), size, m, 1);
      }
      if Count(i) < 0 && size > 1 && !refused {
        AtLeast(n, size, m, 2);
      }
    }
  }

  /** An allocation that goes through, or whose exact total fits, multiplies the count itself, unless the product
      is zero anyway. */
  lemma AcceptedCount(i: Input, n: nat, refused: bool)
    requires Sensible(i) && Checked(i, n, refused)
    requires GoesThrough(i, n, refused)
    ensures !refused && n * SizeOf(i.t) + i.cookie < Pow2(i.sizeWidth) && (SizeOf(i.t) == 0 || n == Count(i))
  {
    if Count(i) < 0 && SizeOf(i.t) > 0 && !refused {
      AtLeast(n, SizeOf(i.t), Pow2(i.sizeWidth), 2);
    }
  }

  /** Either what is passed on is not all ones, or the total of a count that is a `size_t` fits. */
  ghost predicate GoesThrough(i: Input, n: nat, refused: bool)
    requires Sensible(i)
  {
    var m := Pow2(i.sizeWidth);
    Outcome(n, refused, SizeOf(i.t), i.cookie, m) < m - 1 || (Fits(i) && Count(i) < m)
  }

  lemma Accepted(i: Input, n: nat, refused: bool, numElements: nat, sizeWithoutCookie: nat)
    requires Sensible(i) && Checked(i, n, refused) && GoesThrough(i, n, refused)
    requires numElements == n * (Elements(i.t) % Pow2(i.sizeWidth)) % Pow2(i.sizeWidth)
    requires sizeWithoutCookie == n * SizeOf(i.t)
    ensures Flattened(i, numElements, sizeWithoutCookie)
  {
    AcceptedCount(i, n, refused);
    Products(n, Count(i), ElementSize(i.t), Elements(i.t), Pow2(i.sizeWidth), numElements, sizeWithoutCookie);
  }

  lemma Products(n: nat, count: int, e: nat, d: nat, m: nat, numElements: nat, p: nat)
    requires m > 0 && p == n * (e * d) < m && (e * d == 0 || n == count) && numElements == n * (d % m) % m
    ensures p == count * (e * d) && numElements * e == p && (e > 0 ==> numElements == count * d)
  {
    SameProducts(n, count, e, d);
    ScaledElements(n, e, d, m);
  }

  lemma SameProducts(n: int, count: int, e: nat, d: nat)
    requires n == count || e * d == 0
    ensures n * (e * d) == count * (e * d)
    ensures e > 0 ==> n * d == count * d
  {
    if e * d == 0 && e > 0 {
      Bounded(d, e, 1);
    }
  }

  lemma TruncatedCount(i: Input)
    requires Sensible(i) && 0 <= Count(i) < Pow2(i.sizeWidth)
    ensures i.bits % Pow2(i.sizeWidth) == Count(i)
  {
    SmallMod(Count(i), Pow2(i.sizeWidth));
  }

  /** The checks on a constant count. */
  method AdjustConstant(i: Input) returns (adjusted: nat, hasAnyOverflow: bool)
    requires Sensible(i)
    ensures Checked(i, adjusted, hasAnyOverflow)
    ensures hasAnyOverflow <==> Count(i) < i.minElements || Count(i) >= Pow2(i.sizeWidth)
  {
    hasAnyOverflow := false;
    if i.isSigned && i.bits >= Pow2(i.width - 1) {
      hasAnyOverflow := true;
    } else if i.width > i.sizeWidth {
      ClzSays(i.bits, i.width, i.sizeWidth);
      if i.width - i.sizeWidth > Clz(i.bits, i.width) {
        hasAnyOverflow := true;
      }
    } else {
      Pow2Monotone(i.width, i.sizeWidth);
    }
    if !hasAnyOverflow {
      TruncatedCount(i);
    }
    adjusted := i.bits % Pow2(i.sizeWidth);
    if adjusted < i.minElements {
      hasAnyOverflow := true;
    }
  }

  /** The constant folding that follows: an overflow anywhere makes the size all ones. */
  method ScaleConstant(adjusted: nat, refused: bool, dimensions: nat, multiplier: nat, cookie: nat, m: nat)
      returns (size: nat, numElements: nat, sizeWithoutCookie: nat)
    requires cookie < m
    ensures size == Outcome(adjusted, refused, multiplier, cookie, m)
    ensures numElements == adjusted * dimensions % m
    ensures !refused && adjusted * multiplier + cookie < m ==> sizeWithoutCookie == adjusted * multiplier
  {
    var hasAnyOverflow := refused;
    Scaled(adjusted, multiplier, cookie, m);
    numElements := adjusted * dimensions % m;
    var (scaled, overflow) := UMulOv(adjusted, multiplier, m);
    var allocationSize := scaled;
    hasAnyOverflow := hasAnyOverflow || overflow;
    if cookie != 0 {
      sizeWithoutCookie := allocationSize;
      var (total, tooLarge) := UAddOv(allocationSize, cookie, m);
      allocationSize := total;
      hasAnyOverflow := hasAnyOverflow || tooLarge;
    }
    size := if hasAnyOverflow then m - 1 else allocationSize;
    if cookie == 0 {
      sizeWithoutCookie := size;
    }
  }

  /** The count is a compile-time constant. The size is the one asked for, except that `new T[n]` for an
      empty `T` is refused when `n` alone does not fit `size_t`. */
  method ConstantSize(i: Input) returns (size: nat, numElements: nat, sizeWithoutCookie: nat)
    requires Sensible(i)
    ensures size == Expected(i) <==> !NothingTooOften(i)
    ensures size < Pow2(i.sizeWidth) - 1 ==> Flattened(i, numElements, sizeWithoutCookie)
    ensures Fits(i) && Count(i) < Pow2(i.sizeWidth) ==> Flattened(i, numElements, sizeWithoutCookie)
  {
    var m := Pow2(i.sizeWidth);
    var elementSize, dimensions, multiplier := Multipliers(i);
    var adjusted, hasAnyOverflow := AdjustConstant(i);
    size, numElements, sizeWithoutCookie := ScaleConstant(adjusted, hasAnyOverflow, dimensions, multiplier, i.cookie, m);
    Judged(i, adjusted, hasAnyOverflow);
    if GoesThrough(i, adjusted, hasAnyOverflow) {
      AcceptedCount(i, adjusted, hasAnyOverflow);
      Accepted(i, adjusted, hasAnyOverflow, numElements, sizeWithoutCookie);
    }
  }

  // ---------------------------------------------------------------- emitted code

  /** `hasOverflow` in the emitted code: no condition so far, or what the condition evaluates to. */
  datatype Flag = NoFlag | Flag(value: bool)

  function Or(f: Flag, v: bool): Flag {
    Flag(v || (f.Flag? && f.value))
  }

  /** `icmp slt` at width `w`. */
  predicate SLess(a: nat, b: nat, w: nat)
    requires w > 0 && a < Pow2(w) && b < Pow2(w)
  {
    Signed(a, w, true) < Signed(b, w, true)
  }

  /** The conversion of a run-time count to `size_t`, and the comparisons emitted for it. */
  method AdjustDynamic(i: Input, multiplier: nat) returns (numElements: nat, hasOverflow: Flag)
    requires Sensible(i) && multiplier == SizeOf(i.t)
    ensures Checked(i, numElements, hasOverflow.Flag? && hasOverflow.value)
    ensures i.width <= i.sizeWidth && Count(i) < 0 && SizeOf(i.t) != 1 ==> !(hasOverflow.Flag? && hasOverflow.value)
    ensures Count(i) >= Pow2(i.sizeWidth) ==> hasOverflow.Flag? && hasOverflow.value
  {
    hasOverflow := NoFlag;
    numElements := i.bits;
    if i.width > i.sizeWidth {
      hasOverflow := Flag(numElements >= Pow2(i.sizeWidth));
      Pow2Monotone(i.sizeWidth, i.width - 1);
      numElements := numElements % Pow2(i.sizeWidth);
      if i.bits < Pow2(i.sizeWidth) {
        TruncatedCount(i);
      }
    } else {
      Pow2Monotone(i.width, i.sizeWidth);
      Pow2Monotone(i.width - 1, i.sizeWidth - 1);
      if i.isSigned {
        if i.width < i.sizeWidth {
          numElements := SExt(numElements, i.width, i.sizeWidth);
        }
        if multiplier == 1 {
          hasOverflow := Flag(SLess(numElements, i.minElements, i.sizeWidth));
        }
      }
    }
    if i.minElements != 0 {
      if hasOverflow == NoFlag {
        hasOverflow := Flag(numElements < i.minElements);
      } else if i.width > i.sizeWidth {
        hasOverflow := Or(hasOverflow, numElements < i.minElements);
      }
    }
  }

  lemma UnitSizes(elementSize: nat, elements: nat, m: nat)
    requires elementSize * elements < m
    ensures elementSize == 1 ==> elements % m == elementSize * elements
    ensures elementSize * elements == 1 ==> elements == 1 && elements % m == 1
  {
    if elementSize == 1 {
      SmallMod(elements, m);
    } else if elementSize > 1 && elements > 0 {
      AtLeast(elements, elementSize, 2, 2);
    }
  }

  /** The multiplications of the emitted code: the size, and the flattened number of elements. */
  method ScaleDynamic(n: nat, hasOverflow0: Flag, elementSize: nat, dimensions: nat, multiplier: nat, m: nat)
      returns (size: nat, numElements: nat, hasOverflow: Flag)
    requires n < m && dimensions < m && multiplier < m
    requires multiplier == 1 ==> dimensions == 1
    requires elementSize == 1 ==> dimensions == multiplier
    ensures size == n * multiplier % m && numElements == n * dimensions % m
    ensures (hasOverflow.Flag? && hasOverflow.value)
       <==> (hasOverflow0.Flag? && hasOverflow0.value) || n * multiplier >= m
  {
    size, numElements, hasOverflow := n, n, hasOverflow0;
    SmallMod(n, m);
    if multiplier != 1 {
      var (scaled, overflowed) := UMulOv(size, multiplier, m);
      hasOverflow := Or(hasOverflow, overflowed);
      size := scaled;
      if dimensions != 1 {
        if elementSize == 1 {
          numElements := size;
        } else {
          numElements := numElements * dimensions % m;
        }
      }
    }
  }

  /** The count is known only at run time. The size is the one asked for, except for an empty `T`: there
      a negative count goes unnoticed as well. */
  method DynamicSize(i: Input) returns (size: nat, numElements: nat, sizeWithoutCookie: nat)
    requires Sensible(i)
    ensures size == Expected(i) <==> !NothingTooOften(i) && !NothingNegative(i)
    ensures size < Pow2(i.sizeWidth) - 1 ==> Flattened(i, numElements, sizeWithoutCookie)
    ensures Fits(i) && Count(i) < Pow2(i.sizeWidth) ==> Flattened(i, numElements, sizeWithoutCookie)
  {
    var m := Pow2(i.sizeWidth);
    var elementSize, dimensions, multiplier := Multipliers(i);
    var n, hasOverflow := AdjustDynamic(i, multiplier);
    ghost var refused := hasOverflow.Flag? && hasOverflow.value;
    UnitSizes(elementSize, Elements(i.t), m);
    size, numElements, hasOverflow := ScaleDynamic(n, hasOverflow, elementSize, dimensions, multiplier, m);
    Scaled(n, multiplier, i.cookie, m);
    if i.cookie != 0 {
      sizeWithoutCookie := size;
      var (total, overflowed) := UAddOv(size, i.cookie, m);
      hasOverflow := Or(hasOverflow, overflowed);
      size := total;
    }
    if hasOverflow.Flag? {
      size := if hasOverflow.value then m - 1 else size;
    }
    if i.cookie == 0 {
      sizeWithoutCookie := size;
    }
    Judged(i, n, refused);
    if GoesThrough(i, n, refused) {
      AcceptedCount(i, n, refused);
      Accepted(i, n, refused, numElements, sizeWithoutCookie);
    }
  }

  /** The size passed to a sized `operator delete[]`, from the stored element count. */
  function DeletedSize(elementSize: nat, numElements: nat, cookie: nat, sizeWidth: nat): nat {
    (elementSize * numElements % Pow2(sizeWidth) + cookie) % Pow2(sizeWidth)
  }

  /** Sized delete gives back exactly what new asked for, whenever new went through. */
  lemma DeleteMatchesNew(i: Input, numElements: nat, sizeWithoutCookie: nat)
    requires Sensible(i) && Fits(i) && Flattened(i, numElements, sizeWithoutCookie)
    ensures DeletedSize(ElementSize(i.t), numElements, i.cookie, i.sizeWidth) == Expected(i)
    ensures sizeWithoutCookie + i.cookie == Expected(i)
  {
    Commutes(numElements, ElementSize(i.t));
    Resized(sizeWithoutCookie, i.cookie, Pow2(i.sizeWidth));
  }

  lemma Commutes(a: nat, b: nat)
    ensures a * b == b * a
  {
  }

  lemma Resized(p: nat, cookie: nat, m: nat)
    requires p + cookie < m
    ensures (p % m + cookie) % m == p + cookie
  {
    SmallMod(p, m);
    SmallMod(p + cookie, m);
  }

  /** Both exceptions exist where `size_t` has 64 bits and `T` is empty: `new T[n]` for an `int` of -1, and for an
      `unsigned __int128` of 2^64. */
  lemma EmptyTypesAreExceptional()
    ensures var i := Input(0xFFFF_FFFF, 32, true, Element(0), 0, 0, 64);
      Sensible(i) && Count(i) == -1 && NothingNegative(i) && Expected(i) == 0xFFFF_FFFF_FFFF_FFFF
    ensures var i := Input(0x1_0000_0000_0000_0000, 128, false, Element(0), 0, 0, 64);
      Sensible(i) && NothingTooOften(i) && Expected(i) == 0
  {
    Pow2Values();
    assert Pow2(32) == 2 * Pow2(31);
    Pow2Monotone(65, 128);
    assert Pow2(65) == 2 * Pow2(64);
  }

  /** `new int[5][3]` asks for 60 bytes, and constructs 15 elements. */
  lemma NestedArrays(numElements: nat, sizeWithoutCookie: nat)
    ensures var i := Input(5, 32, true, Array(3, Element(4)), 0, 0, 64);
      && Sensible(i) && Expected(i) == 60
      && (Flattened(i, numElements, sizeWithoutCookie) ==> numElements == 15 && sizeWithoutCookie == 60)
  {
    Pow2Values();
    assert Pow2(32) == 2 * Pow2(31);
    assert Elements(Array(3, Element(4))) == 3;
  }

  lemma Pow2Values()
    ensures Pow2(32) == 0x1_0000_0000 && Pow2(64) == 0x1_0000_0000_0000_0000
  {
    assert Pow2(8) == 256 by {
      assert Pow2(4) == 16;
    }
    Pow2Add(8, 8);
    assert Pow2(16) == 0x1_0000;
    Pow2Add(16, 16);
    assert Pow2(32) == 0x1_0000_0000;
    Pow2Add(32, 32);
  }
}
