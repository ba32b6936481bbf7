/** The aggregation of member copies in a defaulted copy constructor (`FieldMemcpyizer` and
    `ConstructorMemcpyizer`): runs of members that may be copied as bytes become one `memcpy`.
    Bit-fields are not part of the model. */
module FieldMemcpy {
  import opened Options

  /** A member: its number in the class, its place in bits, whether its initializer is equivalent to
      copying bytes, and whether it is volatile or has an Objective-C lifetime. */
  datatype Member = Member(index: nat, offset: nat, size: nat, trivial: bool, qualified: bool)

  /** A constructor with one initializer for each of the members of its class: whether it is a defaulted
      copy or move constructor, and whether padding is poisoned. */
  datatype Ctor = Ctor(copying: bool, sanitizePadding: bool, members: seq<Member>)

  /** Members are whole bytes, numbered in order, and lie one after the other. */
  ghost predicate Ordered(c: Ctor) {
    InOrder(c, |c.members|)
  }

  ghost predicate InOrder(c: Ctor, n: nat)
    requires n <= |c.members|
  {
    n > 0 ==>
      && InOrder(c, n - 1)
      && c.members[n - 1].offset % 8 == 0 && c.members[n - 1].size % 8 == 0
      && (n > 1 ==>
        && c.members[n - 2].index < c.members[n - 1].index
        && c.members[n - 2].offset + c.members[n - 2].size <= c.members[n - 1].offset)
  }

  lemma {:induction false} OrderedUpTo(c: Ctor, k: nat, n: nat)
    requires k <= n <= |c.members| && InOrder(c, n)
    ensures InOrder(c, k)
    decreases n
  {
    if k < n {
      OrderedUpTo(c, k, n - 1);
    }
  }

  lemma {:induction false} OrderedPair(c: Ctor, i: nat, j: nat)
    requires i < j < |c.members| && Ordered(c)
    ensures c.members[i].index < c.members[j].index
    ensures c.members[i].offset + c.members[i].size <= c.members[j].offset && Last(c, i) <= First(c, j)
    ensures c.members[i].offset % 8 == c.members[i].size % 8 == 0
    ensures c.members[j].offset % 8 == c.members[j].size % 8 == 0
    decreases j
  {
    OrderedUpTo(c, j + 1, |c.members|);
    OrderedUpTo(c, j, |c.members|);
    if i < j - 1 {
      OrderedPair(c, i, j - 1);
    }
  }

  /** `isMemberInitMemcpyable` */
  predicate Memcpyable(c: Ctor, k: nat)
    requires k < |c.members|
  {
    c.copying && c.members[k].trivial && !c.sanitizePadding && !c.members[k].qualified
  }

  /** The bytes of member `k`: from `First` up to `Last`. */
  function First(c: Ctor, k: nat): nat
    requires k < |c.members|
  {
    c.members[k].offset / 8
  }

  function Last(c: Ctor, k: nat): nat
    requires k < |c.members|
  {
    (c.members[k].offset + c.members[k].size) / 8
  }

  /** What is emitted: the initializer of a member, or a `memcpy` of `size` bytes at byte `at` of the
      source to byte `at` of the object. */
  datatype Instr = Init(k: nat) | Memcpy(at: nat, size: nat)

  // ---------------------------------------------------------------- running the code

  type Object = seq<int>

  /** The bytes of member `k`; none if the object is too short. */
  ghost function Slice(c: Ctor, o: Object, k: nat): seq<int>
    requires k < |c.members|
  {
    if First(c, k) <= Last(c, k) <= |o| then o[First(c, k)..Last(c, k)] else []
  }

  /** The bytes of the first `n` members. */
  ghost function View(c: Ctor, o: Object, n: nat): (v: seq<seq<int>>)
    requires n <= |c.members|
    ensures |v| == n && forall j :: 0 <= j < n ==> v[j] == Slice(c, o, j)
  {
    seq(n, j requires 0 <= j < n => Slice(c, o, j))
  }

  /** How initializers that are not byte copies compute byte `b` of member `k`: from the members that have
      been initialized before. */
  type Own = (nat, seq<seq<int>>, nat) -> int

  ghost function Exec(c: Ctor, own: Own, i: Instr, src: Object, o: Object): (r: Object)
    requires |src| == |o| && (i.Init? ==> i.k < |c.members|)
    ensures |r| == |o|
  {
    match i
    case Init(k) =>
      var before := View(c, o, k);
      seq(|o|, b requires 0 <= b < |o| =>
        if First(c, k) <= b < Last(c, k)
        then if c.copying && c.members[k].trivial then src[b] else own(k, before, b - First(c, k))
        else o[b])
    case Memcpy(at, size) =>
      seq(|o|, b requires 0 <= b < |o| => if at <= b < at + size then src[b] else o[b])
  }

  ghost predicate Sane(c: Ctor, code: seq<Instr>) {
    forall i :: 0 <= i < |code| && code[i].Init? ==> code[i].k < |c.members|
  }

  ghost function Run(c: Ctor, own: Own, code: seq<Instr>, src: Object, o: Object): (r: Object)
    requires |src| == |o| && Sane(c, code)
    ensures |r| == |o|
  {
    if code == [] then o
    else Exec(c, own, code[|code| - 1], src, Run(c, own, code[..|code| - 1], src, o))
  }

  // ---------------------------------------------------------------- what is emitted

  /** `getMemcpySize` keeps the size of a member, in bits, in an `unsigned`. */
  function Counted(c: Ctor, k: nat): (n: nat)
    requires k < |c.members|
    ensures n <= c.members[k].size && (n < c.members[k].size <==> c.members[k].size >= 0x1_0000_0000)
    ensures c.members[k].size % 8 == 0 ==> n % 8 == 0
  {
    c.members[k].size % 0x1_0000_0000
  }

  /** Where a `memcpy` for the members from `k` up to `n` ends: after the last member that has an offset of its
      own, as far as its size is counted. */
  function RunEnd(c: Ctor, k: nat, n: nat): nat
    requires k < n <= |c.members|
  {
    if n - k >= 2 && First(c, n - 2) == First(c, n - 1) then First(c, n - 1)
    else (c.members[n - 1].offset + Counted(c, n - 1)) / 8
  }

  /** The code for a run of members that may be copied as bytes: nothing is gained for a single one. */
  function Flushed(c: Ctor, k: nat, n: nat): seq<Instr>
    requires k <= n <= |c.members| && Ordered(c)
  {
    if k == n then []
    else if k + 1 == n then [Init(k)]
    else OrderedPair(c, k, n - 1); [Memcpy(First(c, k), RunEnd(c, k, n) - First(c, k))]
  }

  /** The start of the run that is open after `n` members. */
  function RunStart(c: Ctor, n: nat): (k: nat)
    requires n <= |c.members|
    ensures k <= n && forall j :: k <= j < n ==> Memcpyable(c, j)
    ensures k > 0 ==> !Memcpyable(c, k - 1)
  {
    if n == 0 || !Memcpyable(c, n - 1) then n else RunStart(c, n - 1)
  }

  /** The code emitted after `n` members, not counting the open run. */
  function Emitted(c: Ctor, n: nat): (code: seq<Instr>)
    requires n <= |c.members| && Ordered(c)
  {
    if n == 0 then []
    else if Memcpyable(c, n - 1) then Emitted(c, n - 1)
    else Emitted(c, n - 1) + Flushed(c, RunStart(c, n - 1), n - 1) + [Init(n - 1)]
  }

  function Complete(c: Ctor): seq<Instr>
    requires Ordered(c)
  {
    var n := |c.members|;
    Emitted(c, n) + Flushed(c, RunStart(c, n), n)
  }

  // ---------------------------------------------------------------- the emitter

  /** The members `k`, `k + 1`, ... up to `n`. */
  function Span(k: nat, n: nat): (s: seq<nat>)
    requires k <= n
    ensures |s| == n - k && forall j :: 0 <= j < |s| ==> s[j] == k + j
  {
    seq(n - k, j requires 0 <= j < n - k => k + j)
  }

  /** `ConstructorMemcpyizer`, with the fields it inherits from `FieldMemcpyizer`; `code` is what the builder
      has received. */
  class ConstructorMemcpyizer {
    const c: Ctor
    var firstField: Option<nat>
    var lastField: nat
    var firstFieldOffset: nat
    var lastFieldOffset: nat
    var lastAddedFieldIndex: nat
    var aggregatedInits: seq<nat>
    var code: seq<Instr>

    constructor (c: Ctor)
      requires Ordered(c)
      ensures this.c == c && Added(0)
    {
      this.c := c;
      firstField, lastField, firstFieldOffset, lastFieldOffset := None, 0, 0, 0;
      lastAddedFieldIndex, aggregatedInits, code := 0, [], [];
    }

    /** The fields describe the run of the members from `k` up to `n`. */
    ghost predicate Open(k: nat, n: nat)
      reads this
    {
      && k < n <= |c.members| && firstField == Some(k) && firstFieldOffset == c.members[k].offset
      && k <= lastField < n && lastFieldOffset == c.members[lastField].offset == c.members[n - 1].offset
      && (forall j :: k <= j < lastField ==> c.members[j].offset < lastFieldOffset)
      && lastAddedFieldIndex == c.members[n - 1].index
    }

    ghost predicate Pending(k: nat, n: nat)
      reads this
    {
      && k <= n <= |c.members| && aggregatedInits == Span(k, n)
      && if k == n then firstField == None else Open(k, n)
    }

    /** The first `n` members have been added. */
    ghost predicate Added(n: nat)
      reads this
    {
      Ordered(c) && n <= |c.members| && code == Emitted(c, n) && Pending(RunStart(c, n), n)
    }

    method AddInitialField(f: nat)
      requires f < |c.members| && firstField == None
      modifies this`firstField, this`lastField, this`firstFieldOffset, this`lastFieldOffset, this`lastAddedFieldIndex
      ensures Open(f, f + 1)
    {
      firstField, lastField := Some(f), f;
      firstFieldOffset := c.members[f].offset;
      lastFieldOffset := firstFieldOffset;
      lastAddedFieldIndex := c.members[f].index;
    }

    /** Only bit-fields can have a smaller offset than a member added before. */
    method AddNextField(f: nat, ghost k: nat)
      requires Ordered(c) && f < |c.members| && Open(k, f)
      modifies this`firstField, this`lastField, this`firstFieldOffset, this`lastFieldOffset, this`lastAddedFieldIndex
      ensures Open(k, f + 1)
    {
      OrderedPair(c, f - 1, f);
      OrderedPair(c, k, f);
      assert c.members[f].index >= lastAddedFieldIndex + 1;
      lastAddedFieldIndex := c.members[f].index;
      var offset := c.members[f].offset;
      if offset < firstFieldOffset {
        assert false;
      } else if offset > lastFieldOffset {
        forall j | k <= j < f - 1 ensures c.members[j].offset <= lastFieldOffset {
          OrderedPair(c, j, f - 1);
        }
        lastField, lastFieldOffset := f, offset;
      }
    }

    method AddMemcpyableField(f: nat, ghost k: nat)
      requires Ordered(c) && f < |c.members| && k <= f
      requires if k == f then firstField == None else Open(k, f)
      modifies this`firstField, this`lastField, this`firstFieldOffset, this`lastFieldOffset, this`lastAddedFieldIndex
      ensures Open(k, f + 1)
    {
      if firstField == None {
        AddInitialField(f);
      } else {
        AddNextField(f, k);
      }
    }

    /** `getMemcpySize`, in bytes. */
    function MemcpySize(firstByteOffset: nat): int
      requires lastField < |c.members|
      reads this
    {
      (lastFieldOffset + Counted(c, lastField) - firstByteOffset + 7) / 8
    }

    /** The last member with an offset of its own decides where the copy ends. */
    lemma CopyEnd(k: nat, n: nat)
      requires Ordered(c) && Open(k, n) && n - k >= 2
      ensures lastFieldOffset + Counted(c, lastField) == 8 * RunEnd(c, k, n)
      ensures firstFieldOffset == 8 * First(c, k) <= 8 * RunEnd(c, k, n)
    {
      OrderedPair(c, k, n - 1);
      OrderedPair(c, n - 2, n - 1);
      if lastField < n - 1 {
        LastHasNoSize(n);
      }
    }

    /** Only empty members share an offset with the next one. */
    lemma LastHasNoSize(n: nat)
      requires Ordered(c) && lastField < n - 1 < |c.members| && c.members[lastField].offset == c.members[n - 1].offset
      ensures c.members[lastField].size == 0 && c.members[n - 2].offset == c.members[n - 1].offset
    {
      OrderedPair(c, lastField, n - 1);
      OrderedPair(c, n - 2, n - 1);
      if lastField < n - 2 {
        OrderedPair(c, lastField, n - 2);
      }
    }

    method EmitMemcpy(ghost k: nat, ghost n: nat)
      requires Ordered(c) && Open(k, n) && n - k >= 2
      modifies this`code, this`firstField
      ensures code == old(code) + Flushed(c, k, n) && firstField == None
    {
      if firstField == None {
        return;
      }
      CopyEnd(k, n);
      code := code + [Memcpy(c.members[firstField.value].offset / 8, MemcpySize(firstFieldOffset))];
      firstField := None;
    }

    method EmitAggregatedInits(ghost k: nat, ghost n: nat)
      requires Ordered(c) && Pending(k, n)
      modifies this`code, this`firstField, this`aggregatedInits
      ensures code == old(code) + Flushed(c, k, n) && Pending(n, n)
    {
      if |aggregatedInits| <= 1 {
        if aggregatedInits != [] {
          code := code + [Init(aggregatedInits[0])];
          aggregatedInits := [];
        }
        firstField := None;
        return;
      }
      EmitMemcpy(k, n);
      aggregatedInits := [];
    }

    method AddMemberInitializer(m: nat)
      requires Added(m) && m < |c.members|
      modifies this
      ensures Added(m + 1)
    {
      if Memcpyable(c, m) {
        aggregatedInits := aggregatedInits + [m];
        AddMemcpyableField(m, RunStart(c, m));
      } else {
        EmitAggregatedInits(RunStart(c, m), m);
        code := code + [Init(m)];
      }
    }

    method Finish()
      requires Added(|c.members|)
      modifies this
      ensures code == Complete(c)
    {
      EmitAggregatedInits(RunStart(c, |c.members|), |c.members|);
    }
  }

  /** The last loop of `EmitCtorPrologue`. */
  method EmitMembers(c: Ctor) returns (code: seq<Instr>)
    requires Ordered(c)
    ensures code == Complete(c)
  {
    var cm := new ConstructorMemcpyizer(c);
    for m := 0 to |c.members|
      invariant cm.c == c && cm.Added(m)
    {
      cm.AddMemberInitializer(m);
    }
    cm.Finish();
    code := cm.code;
  }

  // ---------------------------------------------------------------- what the code does

  /** `code` performs the first `n` initializers, each exactly once and in order. A `memcpy` stands for a run
      of at least two of them, starts at the first and does not leave the run. */
  ghost predicate Accounts(c: Ctor, code: seq<Instr>, n: nat)
    requires n <= |c.members|
  {
    if code == [] then n == 0
    else
      var front, last := code[..|code| - 1], code[|code| - 1];
      match last
      case Init(k) => n == k + 1 && Accounts(c, front, k)
      case Memcpy(at, size) =>
        exists k ::
          && 0 <= k <= n - 2 && c.copying && !c.sanitizePadding
          && (forall j :: k <= j < n ==> c.members[j].trivial && !c.members[j].qualified)
          && at == First(c, k) && at + size <= Last(c, n - 1) && Accounts(c, front, k)
  }

  lemma InitAccounts(c: Ctor, code: seq<Instr>, k: nat)
    requires k < |c.members| && Accounts(c, code, k)
    ensures Accounts(c, code + [Init(k)], k + 1)
  {
    assert (code + [Init(k)])[..|code|] == code;
  }

  lemma FlushAccounts(c: Ctor, code: seq<Instr>, k: nat, n: nat)
    requires Ordered(c) && k <= n <= |c.members| && (forall j :: k <= j < n ==> Memcpyable(c, j)) && Accounts(c, code, k)
    ensures Accounts(c, code + Flushed(c, k, n), n)
  {
    var more := Flushed(c, k, n);
    if more == [] {
      assert code + more == code;
    } else {
      assert Memcpyable(c, k);
      forall j | k <= j < n ensures c.members[j].trivial && !c.members[j].qualified {
        assert Memcpyable(c, j);
      }
      assert (code + more)[..|code|] == code;
    }
  }

  lemma InitAfterRunAccounts(c: Ctor, code: seq<Instr>, k: nat, n: nat)
    requires Ordered(c) && k <= n < |c.members| && (forall j :: k <= j < n ==> Memcpyable(c, j)) && Accounts(c, code, k)
    ensures Accounts(c, code + Flushed(c, k, n) + [Init(n)], n + 1)
  {
    FlushAccounts(c, code, k, n);
    InitAccounts(c, code + Flushed(c, k, n), n);
  }

  lemma {:induction false} EmittedAccounts(c: Ctor, n: nat, code: seq<Instr>, k: nat)
    requires Ordered(c) && n <= |c.members| && code == Emitted(c, n) && k == RunStart(c, n)
    ensures Accounts(c, code, k)
    decreases n
  {
    if n > 0 {
      var before, j := Emitted(c, n - 1), RunStart(c, n - 1);
      EmittedAccounts(c, n - 1, before, j);
      if !Memcpyable(c, n - 1) {
        InitAfterRunAccounts(c, before, j, n - 1);
      }
    }
  }

  /** Every initializer is performed exactly once, in order, and no `memcpy` leaves its run. */
  lemma EachMemberOnce(c: Ctor)
    requires Ordered(c)
    ensures Accounts(c, Complete(c), |c.members|)
  {
    EmittedAccounts(c, |c.members|, Emitted(c, |c.members|), RunStart(c, |c.members|));
    FlushAccounts(c, Emitted(c, |c.members|), RunStart(c, |c.members|), |c.members|);
  }

  /** Which member initializers are performed one by one: those that may not be rolled into a `memcpy`, and those
      without a neighbour that may. */
  ghost predicate Alone(bytewise: seq<bool>, k: nat)
    requires k < |bytewise|
  {
    !bytewise[k] || (!(k > 0 && bytewise[k - 1]) && !(k + 1 < |bytewise| && bytewise[k + 1]))
  }

  lemma FlushedInits(c: Ctor, a: nat, n: nat, k: nat)
    requires Ordered(c) && a <= n <= |c.members|
    ensures Init(k) in Flushed(c, a, n) <==> a + 1 == n && k == a
  {
  }

  lemma InAny(code: seq<Instr>, more: seq<Instr>, i: Instr)
    ensures i in code + more <==> i in code || i in more
  {
  }

  lemma NextInits(c: Ctor, n: nat, k: nat)
    requires Ordered(c) && 0 < n <= |c.members| && !Memcpyable(c, n - 1)
    ensures Init(k) in Emitted(c, n) <==>
      Init(k) in Emitted(c, n - 1) || (RunStart(c, n - 1) + 1 == n - 1 && k == n - 2) || k == n - 1
  {
    var a := RunStart(c, n - 1);
    FlushedInits(c, a, n - 1, k);
    InAny(Emitted(c, n - 1), Flushed(c, a, n - 1), Init(k));
    InAny(Emitted(c, n - 1) + Flushed(c, a, n - 1), [Init(n - 1)], Init(k));
  }

  lemma {:induction false} EmittedInits(c: Ctor, n: nat, k: nat, bytewise: seq<bool>)
    requires Ordered(c) && k < |c.members| == |bytewise| && n <= |c.members|
    requires forall j :: 0 <= j < |bytewise| ==> bytewise[j] == Memcpyable(c, j)
    ensures Init(k) in Emitted(c, n) <==> k < RunStart(c, n) && Alone(bytewise, k)
    decreases n
  {
    if n > 0 {
      EmittedInits(c, n - 1, k, bytewise);
      if !Memcpyable(c, n - 1) {
        NextInits(c, n, k);
        if RunStart(c, n - 1) <= k < n - 1 {
          RunIsNotAlone(c, RunStart(c, n - 1), n - 1, k, bytewise);
        }
      }
    }
  }

  /** Of a maximal run, a member is alone only if it is the whole run. */
  lemma RunIsNotAlone(c: Ctor, a: nat, n: nat, k: nat, bytewise: seq<bool>)
    requires a <= k < n <= |c.members| == |bytewise| && (forall j :: a <= j < n ==> bytewise[j])
    requires (a > 0 ==> !bytewise[a - 1]) && (n < |bytewise| ==> !bytewise[n])
    ensures Alone(bytewise, k) <==> a + 1 == n
  {
    if a < k {
      assert bytewise[k - 1];
    } else if k + 1 < n {
      assert bytewise[k + 1];
    }
  }

  /** A member is initialized by itself exactly when nothing is gained by a `memcpy`: the constructor is not a defaulted
      copy, padding is poisoned, the member is not copied as bytes or is volatile, or that holds for both neighbours. */
  lemma InitializedAlone(c: Ctor, k: nat, bytewise: seq<bool>)
    requires Ordered(c) && k < |c.members| == |bytewise|
    requires forall j :: 0 <= j < |bytewise| ==>
      bytewise[j] == (c.copying && !c.sanitizePadding && c.members[j].trivial && !c.members[j].qualified)
    ensures Init(k) in Complete(c) <==> Alone(bytewise, k)
  {
    var n, a := |c.members|, RunStart(c, |c.members|);
    BytewiseIsMemcpyable(c, bytewise, a);
    EmittedInits(c, n, k, bytewise);
    FlushedInits(c, a, n, k);
    InAny(Emitted(c, n), Flushed(c, a, n), Init(k));
    if a <= k {
      RunIsNotAlone(c, a, n, k, bytewise);
    }
  }

  lemma BytewiseIsMemcpyable(c: Ctor, bytewise: seq<bool>, a: nat)
    requires |c.members| == |bytewise| && a == RunStart(c, |c.members|)
    requires forall j :: 0 <= j < |bytewise| ==>
      bytewise[j] == (c.copying && !c.sanitizePadding && c.members[j].trivial && !c.members[j].qualified)
    ensures forall j :: 0 <= j < |bytewise| ==> bytewise[j] == Memcpyable(c, j)
    ensures (forall j :: a <= j < |bytewise| ==> bytewise[j]) && (a > 0 ==> !bytewise[a - 1])
  {
    forall j | 0 <= j < |bytewise| ensures bytewise[j] == Memcpyable(c, j) {
    }
  }

  /** The last member of a run of two or more is not copied to its end: either it has no offset of its own (its
      predecessor is empty, such as an array of length zero), or its size in bits does not fit an `unsigned`. */
  predicate CutShort(c: Ctor, k: nat)
    requires k < |c.members|
  {
    && k > 0 && Memcpyable(c, k - 1) && Memcpyable(c, k)
    && (k + 1 < |c.members| ==> !Memcpyable(c, k + 1))
    && First(c, k) < Last(c, k)
    && (First(c, k - 1) == First(c, k) || c.members[k].size >= 0x1_0000_0000)
  }

  /** What one instruction does to the bytes of a member. */
  lemma InitSlice(c: Ctor, own: Own, k: nat, src: Object, o: Object, j: nat)
    requires Ordered(c) && |src| == |o| && k < |c.members| && j < |c.members|
    ensures j != k ==> Slice(c, Exec(c, own, Init(k), src, o), j) == Slice(c, o, j)
    ensures j == k && Memcpyable(c, k) ==> Slice(c, Exec(c, own, Init(k), src, o), j) == Slice(c, src, j)
  {
    if j < k {
      OrderedPair(c, j, k);
    } else if k < j {
      OrderedPair(c, k, j);
    }
    var r, a, z := Exec(c, own, Init(k), src, o), First(c, j), Last(c, j);
    if z <= |o| {
      if j != k {
        assert r[a..z] == o[a..z];
      } else if Memcpyable(c, k) {
        assert r[a..z] == src[a..z];
      }
    }
  }

  lemma MemcpySlice(c: Ctor, own: Own, at: nat, size: nat, src: Object, o: Object, j: nat)
    requires |src| == |o| && j < |c.members|
    ensures Last(c, j) <= at || at + size <= First(c, j)
      ==> Slice(c, Exec(c, own, Memcpy(at, size), src, o), j) == Slice(c, o, j)
    ensures at <= First(c, j) && Last(c, j) <= at + size
      ==> Slice(c, Exec(c, own, Memcpy(at, size), src, o), j) == Slice(c, src, j)
  {
    var r, a, z := Exec(c, own, Memcpy(at, size), src, o), First(c, j), Last(c, j);
    if z <= |o| {
      if z <= at || at + size <= a {
        assert r[a..z] == o[a..z];
      }
      if at <= a && z <= at + size {
        assert r[a..z] == src[a..z];
      }
    }
  }

  /** One initializer keeps objects alike. */
  lemma InitKeepsAgreement(c: Ctor, own: Own, k: nat, src: Object, o1: Object, o2: Object)
    requires Ordered(c) && |src| == |o1| == |o2| && k < |c.members|
    requires View(c, o1, k) == View(c, o2, k)
    ensures View(c, Exec(c, own, Init(k), src, o1), k + 1) == View(c, Exec(c, own, Init(k), src, o2), k + 1)
  {
    var r1, r2 := Exec(c, own, Init(k), src, o1), Exec(c, own, Init(k), src, o2);
    forall j | 0 <= j < k + 1 ensures Slice(c, r1, j) == Slice(c, r2, j) {
      if j < k {
        assert View(c, o1, k)[j] == View(c, o2, k)[j];
        InitSlice(c, own, k, src, o1, j);
        InitSlice(c, own, k, src, o2, j);
      }
    }
  }

  lemma RunAppend(c: Ctor, own: Own, code: seq<Instr>, i: Instr, src: Object, o: Object)
    requires |src| == |o| && Sane(c, code) && (i.Init? ==> i.k < |c.members|)
    ensures Sane(c, code + [i]) && Run(c, own, code + [i], src, o) == Exec(c, own, i, src, Run(c, own, code, src, o))
  {
    assert (code + [i])[..|code|] == code;
  }

  /** The object after the first `n` initializers. */
  ghost function Memberwise(c: Ctor, own: Own, n: nat, src: Object, o: Object): (r: Object)
    requires |src| == |o| && n <= |c.members|
    ensures |r| == |o|
  {
    if n == 0 then o else Exec(c, own, Init(n - 1), src, Memberwise(c, own, n - 1, src, o))
  }

  /** Bytes of the first `n` members: those of `o` before member `k`, those of `src` from there on. */
  ghost predicate CopiedFrom(c: Ctor, r: Object, o: Object, src: Object, k: nat, n: nat)
    requires k <= n <= |c.members|
  {
    && (forall j :: 0 <= j < k ==> Slice(c, r, j) == Slice(c, o, j))
    && (forall j :: k <= j < n ==> Slice(c, r, j) == Slice(c, src, j))
  }

  /** From `before`, after `k` initializers, to `after`, after `n` of them. */
  lemma {:induction false} CopiedOneByOne(c: Ctor, own: Own, k: nat, n: nat, src: Object, o: Object,
                                          before: Object, after: Object)
    requires Ordered(c) && |src| == |o| && k <= n <= |c.members|
    requires forall j :: k <= j < n ==> Memcpyable(c, j)
    requires before == Memberwise(c, own, k, src, o) && after == Memberwise(c, own, n, src, o)
    ensures CopiedFrom(c, after, before, src, k, n)
    decreases n
  {
    if k < n {
      var last := Memberwise(c, own, n - 1, src, o);
      CopiedOneByOne(c, own, k, n - 1, src, o, before, last);
      CopiedNext(c, own, k, n, src, last, before);
      assert after == Exec(c, own, Init(n - 1), src, last);
    }
  }

  lemma CopiedNext(c: Ctor, own: Own, k: nat, n: nat, src: Object, r: Object, o: Object)
    requires Ordered(c) && |src| == |r| && k < n <= |c.members| && Memcpyable(c, n - 1)
    requires CopiedFrom(c, r, o, src, k, n - 1)
    ensures CopiedFrom(c, Exec(c, own, Init(n - 1), src, r), o, src, k, n)
  {
    forall j | 0 <= j < n
      ensures Slice(c, Exec(c, own, Init(n - 1), src, r), j) == if j < n - 1 then Slice(c, r, j) else Slice(c, src, j)
    {
      InitSlice(c, own, n - 1, src, r, j);
    }
  }

  lemma InsideRun(c: Ctor, k: nat, j: nat, n: nat)
    requires Ordered(c) && k < n <= |c.members| && j < n
    ensures First(c, k) <= Last(c, n - 1)
    ensures if j < k then Last(c, j) <= First(c, k) else First(c, k) <= First(c, j) && Last(c, j) <= Last(c, n - 1)
  {
    if k < n - 1 {
      OrderedPair(c, k, n - 1);
    }
    if j < k {
      OrderedPair(c, j, k);
    } else {
      if k < j {
        OrderedPair(c, k, j);
      }
      if j < n - 1 {
        OrderedPair(c, j, n - 1);
      }
    }
  }

  lemma CopiedAtOnce(c: Ctor, own: Own, k: nat, n: nat, src: Object, o: Object)
    requires Ordered(c) && |src| == |o| && k < n <= |c.members|
    ensures First(c, k) <= Last(c, n - 1)
    ensures CopiedFrom(c, Exec(c, own, Memcpy(First(c, k), Last(c, n - 1) - First(c, k)), src, o), o, src, k, n)
  {
    InsideRun(c, k, k, n);
    var at, size := First(c, k), Last(c, n - 1) - First(c, k);
    var r := Exec(c, own, Memcpy(at, size), src, o);
    forall j | 0 <= j < n ensures Slice(c, r, j) == if j < k then Slice(c, o, j) else Slice(c, src, j) {
      SliceCopied(c, own, k, n, src, o, j);
    }
  }

  lemma SliceCopied(c: Ctor, own: Own, k: nat, n: nat, src: Object, o: Object, j: nat)
    requires Ordered(c) && |src| == |o| && k < n <= |c.members| && j < n && First(c, k) <= Last(c, n - 1)
    ensures Slice(c, Exec(c, own, Memcpy(First(c, k), Last(c, n - 1) - First(c, k)), src, o), j) ==
      if j < k then Slice(c, o, j) else Slice(c, src, j)
  {
    InsideRun(c, k, j, n);
    MemcpySlice(c, own, First(c, k), Last(c, n - 1) - First(c, k), src, o, j);
  }

  /** `code` leaves the first `n` members as the initializers do, one by one. */
  ghost predicate Agrees(c: Ctor, own: Own, code: seq<Instr>, n: nat, src: Object, o: Object)
    requires |src| == |o| && n <= |c.members|
  {
    Sane(c, code) && View(c, Run(c, own, code, src, o), n) == View(c, Memberwise(c, own, n, src, o), n)
  }

  lemma InitAgrees(c: Ctor, own: Own, code: seq<Instr>, k: nat, src: Object, o: Object)
    requires Ordered(c) && |src| == |o| && k < |c.members| && Agrees(c, own, code, k, src, o)
    ensures Agrees(c, own, code + [Init(k)], k + 1, src, o)
  {
    RunAppend(c, own, code, Init(k), src, o);
    InitKeepsAgreement(c, own, k, src, Run(c, own, code, src, o), Memberwise(c, own, k, src, o));
  }

  lemma ViewsMeet(c: Ctor, r1: Object, o1: Object, r2: Object, o2: Object, src: Object, k: nat, n: nat)
    requires k <= n <= |c.members| && CopiedFrom(c, r1, o1, src, k, n) && CopiedFrom(c, r2, o2, src, k, n)
    requires View(c, o1, k) == View(c, o2, k)
    ensures View(c, r1, n) == View(c, r2, n)
  {
    forall j | 0 <= j < n ensures Slice(c, r1, j) == Slice(c, r2, j) {
      if j < k {
        assert View(c, o1, k)[j] == View(c, o2, k)[j];
      }
    }
  }

  lemma MemcpyAgrees(c: Ctor, own: Own, code: seq<Instr>, k: nat, n: nat, src: Object, o: Object)
    requires Ordered(c) && |src| == |o| && k + 2 <= n <= |c.members|
    requires (forall j :: k <= j < n ==> Memcpyable(c, j)) && RunEnd(c, k, n) == Last(c, n - 1)
    requires Agrees(c, own, code, k, src, o)
    ensures Agrees(c, own, code + Flushed(c, k, n), n, src, o)
  {
    var before := Run(c, own, code, src, o);
    CopiedAtOnce(c, own, k, n, src, before);
    var i := Memcpy(First(c, k), Last(c, n - 1) - First(c, k));
    assert Flushed(c, k, n) == [i];
    RunAppend(c, own, code, i, src, o);
    var after, w, w1 := Exec(c, own, i, src, before), Memberwise(c, own, k, src, o), Memberwise(c, own, n, src, o);
    CopiedOneByOne(c, own, k, n, src, o, w, w1);
    ViewsMeet(c, after, before, w1, w, src, k, n);
    assert after == Run(c, own, code + [i], src, o);
  }

  lemma FlushAgrees(c: Ctor, own: Own, code: seq<Instr>, k: nat, n: nat, src: Object, o: Object)
    requires Ordered(c) && |src| == |o| && k <= n <= |c.members|
    requires (forall j :: k <= j < n ==> Memcpyable(c, j)) && (n - k >= 2 ==> RunEnd(c, k, n) == Last(c, n - 1))
    requires Agrees(c, own, code, k, src, o)
    ensures Agrees(c, own, code + Flushed(c, k, n), n, src, o)
  {
    if k == n {
      assert code + Flushed(c, k, n) == code;
    } else if k + 1 == n {
      InitAgrees(c, own, code, k, src, o);
    } else {
      MemcpyAgrees(c, own, code, k, n, src, o);
    }
  }

  lemma RunEndsRight(c: Ctor, k: nat, n: nat)
    requires Ordered(c) && k <= n <= |c.members| && (forall j :: k <= j < n ==> Memcpyable(c, j))
    requires n > 0 ==> !CutShort(c, n - 1)
    requires n < |c.members| ==> !Memcpyable(c, n)
    ensures n - k >= 2 ==> RunEnd(c, k, n) == Last(c, n - 1)
  {
    if n - k >= 2 {
      assert Memcpyable(c, n - 2) && Memcpyable(c, n - 1);
    }
  }

  lemma {:induction false} EmittedAgrees(c: Ctor, own: Own, n: nat, src: Object, o: Object)
    requires Ordered(c) && |src| == |o| && n <= |c.members|
    requires forall k :: 0 <= k < |c.members| ==> !CutShort(c, k)
    ensures Agrees(c, own, Emitted(c, n), RunStart(c, n), src, o)
  {
    if n > 0 {
      EmittedAgrees(c, own, n - 1, src, o);
      if !Memcpyable(c, n - 1) {
        var k := RunStart(c, n - 1);
        RunEndsRight(c, k, n - 1);
        FlushAgrees(c, own, Emitted(c, n - 1), k, n - 1, src, o);
        InitAgrees(c, own, Emitted(c, n - 1) + Flushed(c, k, n - 1), n - 1, src, o);
      }
    }
  }

  lemma AggregationAgrees(c: Ctor, own: Own, src: Object, o: Object)
    requires Ordered(c) && |src| == |o|
    requires forall k :: 0 <= k < |c.members| ==> !CutShort(c, k)
    ensures Agrees(c, own, Complete(c), |c.members|, src, o)
  {
    var n := |c.members|;
    EmittedAgrees(c, own, n, src, o);
    RunEndsRight(c, RunStart(c, n), n);
    FlushAgrees(c, own, Emitted(c, n), RunStart(c, n), n, src, o);
  }

  /** No instruction writes to byte `b`, the last one of member `k`. */
  ghost predicate Leaves(c: Ctor, code: seq<Instr>, k: nat, b: nat)
    requires k < |c.members|
  {
    forall i :: 0 <= i < |code| ==>
      match code[i]
      case Init(j) => j < |c.members| && j != k
      case Memcpy(at, size) => at + size <= b || Last(c, k) <= at
  }

  lemma {:induction false} LeftAlone(c: Ctor, own: Own, code: seq<Instr>, k: nat, b: nat, src: Object, o: Object)
    requires Ordered(c) && |src| == |o| && k < |c.members| && Leaves(c, code, k, b)
    requires First(c, k) <= b && b + 1 == Last(c, k) <= |o|
    ensures Sane(c, code) && Run(c, own, code, src, o)[b] == o[b]
    decreases |code|
  {
    if code != [] {
      var front, last := code[..|code| - 1], code[|code| - 1];
      LeftAlone(c, own, front, k, b, src, o);
      if last.Init? {
        if last.k < k {
          OrderedPair(c, last.k, k);
        } else {
          OrderedPair(c, k, last.k);
        }
      }
    }
  }

  lemma FlushedLeaves(c: Ctor, k: nat, b: nat, a: nat, n: nat)
    requires Ordered(c) && k < |c.members| && CutShort(c, k) && First(c, k) <= b && b + 1 == Last(c, k)
    requires a <= n <= |c.members|
    requires (forall j :: a <= j < n ==> Memcpyable(c, j)) && (a > 0 ==> !Memcpyable(c, a - 1))
    requires n < |c.members| ==> !Memcpyable(c, n)
    ensures Leaves(c, Flushed(c, a, n), k, b)
  {
    if k < a < |c.members| {
      OrderedPair(c, k, a);
    } else if n <= k {
      if 0 < n {
        OrderedPair(c, n - 1, k);
      }
    } else if a <= k {
      assert a < k && n == k + 1;
      OrderedPair(c, a, k);
    }
  }

  lemma {:induction false} EmittedLeaves(c: Ctor, k: nat, b: nat, n: nat)
    requires Ordered(c) && k < |c.members| && CutShort(c, k) && First(c, k) <= b && b + 1 == Last(c, k)
    requires n <= |c.members|
    ensures Leaves(c, Emitted(c, n), k, b)
    decreases n
  {
    if n > 0 {
      EmittedLeaves(c, k, b, n - 1);
      if !Memcpyable(c, n - 1) {
        FlushedLeaves(c, k, b, RunStart(c, n - 1), n - 1);
      }
    }
  }

  lemma {:induction false} MemberIsCopied(c: Ctor, own: Own, k: nat, n: nat, src: Object, o: Object)
    requires Ordered(c) && |src| == |o| && k < n <= |c.members| && Memcpyable(c, k)
    ensures Slice(c, Memberwise(c, own, n, src, o), k) == Slice(c, src, k)
    decreases n
  {
    InitSlice(c, own, n - 1, src, Memberwise(c, own, n - 1, src, o), k);
    if k < n - 1 {
      MemberIsCopied(c, own, k, n - 1, src, o);
    }
  }

  /** The last byte of a member that is cut short is never copied. */
  lemma CutShortIsLost(c: Ctor, own: Own, k: nat, b: nat, src: Object, o: Object)
    requires Ordered(c) && |src| == |o| && k < |c.members| && CutShort(c, k) && b + 1 == Last(c, k) <= |o|
    requires src[b] != o[b]
    ensures !Agrees(c, own, Complete(c), |c.members|, src, o)
  {
    var n := |c.members|;
    EmittedLeaves(c, k, b, n);
    FlushedLeaves(c, k, b, RunStart(c, n), n);
    LeftAlone(c, own, Complete(c), k, b, src, o);
    MemberIsCopied(c, own, k, n, src, o);
    var v, w := Run(c, own, Complete(c), src, o), Memberwise(c, own, n, src, o);
    LastByte(c, v, w, src, k, b);
    assert View(c, v, n)[k] != View(c, w, n)[k];
  }

  lemma LastByte(c: Ctor, v: Object, w: Object, src: Object, k: nat, b: nat)
    requires k < |c.members| && First(c, k) <= b && b + 1 == Last(c, k) <= |v| && |v| == |w| == |src|
    requires Slice(c, w, k) == Slice(c, src, k) && v[b] != src[b]
    ensures Slice(c, v, k) != Slice(c, w, k)
  {
    var i := b - First(c, k);
    assert Slice(c, v, k)[i] == v[b] && Slice(c, src, k)[i] == src[b];
  }

  /** The emitted code leaves every member as its own initializer would, whatever the objects contain, exactly
      when no member is cut short. */
  lemma AggregationIsMemberwise(c: Ctor, own: Own)
    requires Ordered(c)
    ensures (forall k :: 0 <= k < |c.members| ==> !CutShort(c, k)) <==>
      forall src: Object, o: Object :: |src| == |o| ==> Agrees(c, own, Complete(c), |c.members|, src, o)
  {
    if forall k :: 0 <= k < |c.members| ==> !CutShort(c, k) {
      forall src: Object, o: Object | |src| == |o| ensures Agrees(c, own, Complete(c), |c.members|, src, o) {
        AggregationAgrees(c, own, src, o);
      }
    } else {
      var k :| 0 <= k < |c.members| && CutShort(c, k);
      var b := Last(c, k) - 1;
      CutShortIsLost(c, own, k, b, seq(b + 1, _ => 1), seq(b + 1, _ => 0));
    }
  }

  /** Both happen in classes whose implicit copy constructor is not trivial. With `struct E { E(const E &); };`
      and `struct Z { int z[0]; };`, which has size zero, they are `struct A : E { Z z; int i; };` and
      `struct B : E { int i; char a[0x20000000]; };`. */
  lemma SomeMembersAreCutShort()
    ensures
      var c := Ctor(true, false, [Member(0, 0, 0, true, false), Member(1, 0, 32, true, false)]);
      Ordered(c) && CutShort(c, 1) && Complete(c) == [Memcpy(0, 0)]
    ensures
      var c := Ctor(true, false, [Member(0, 0, 32, true, false), Member(1, 32, 0x1_0000_0000, true, false)]);
      Ordered(c) && CutShort(c, 1) && Complete(c) == [Memcpy(0, 4)]
  {
    OneRunOfTwo(Member(0, 0, 0, true, false), Member(1, 0, 32, true, false));
    OneRunOfTwo(Member(0, 0, 32, true, false), Member(1, 32, 0x1_0000_0000, true, false));
  }

  lemma OneRunOfTwo(m0: Member, m1: Member)
    requires m0.trivial && !m0.qualified && m1.trivial && !m1.qualified
    requires m0.index < m1.index && m0.offset % 8 == m0.size % 8 == m1.offset % 8 == m1.size % 8 == 0
    requires m0.offset + m0.size <= m1.offset
    ensures var c := Ctor(true, false, [m0, m1]); Ordered(c) && Complete(c) == Flushed(c, 0, 2)
  {
    var c := Ctor(true, false, [m0, m1]);
    assert InOrder(c, 0) && InOrder(c, 1) && InOrder(c, 2);
    assert RunStart(c, 0) == 0 && RunStart(c, 1) == 0 && RunStart(c, 2) == 0;
    assert Emitted(c, 0) == [] && Emitted(c, 1) == [] && Emitted(c, 2) == [];
  }
}
