/** The type relations that HexType records for a class (`getTypeRelationInfo`): who derives from whom,
    and which related classes have the same data size and so may be cast into each other. */
module TypeRelation {
  import opened Options

  /** A class as the recursion sees it. A base whose type is not a class is `None`. */
  datatype Class = Class(hash: nat, complete: bool, anonymous: bool, dataSize: nat, bases: seq<Option<nat>>)

  /** Classes are numbered in the order of their definitions, so that the bases of a class, which must be
      complete where it is defined, have smaller numbers. */
  type Hierarchy = h: seq<Class> | forall c, i :: 0 <= c < |h| && 0 <= i < |h[c].bases| && h[c].bases[i].Some? ==>
    h[c].bases[i].value < c witness []

  /** The test of the recursion, on the first class and on every base. */
  predicate Good(h: Hierarchy, c: nat) {
    c < |h| && h[c].complete && !h[c].anonymous
  }

  /** A chain of inheritance: each class is followed by one of its direct bases, which is complete and named. */
  predicate Chain(h: Hierarchy, path: seq<nat>) {
    |path| < 2 ||
    (&& path[0] < |h| && path[1] < |h| && Some(path[1]) in h[path[0]].bases
     && h[path[1]].complete && !h[path[1]].anonymous && Chain(h, path[1..]))
  }

  /** `b` is a proper transitive base of `c`: a chain of at least one inheritance step joins them. */
  ghost predicate ProperBase(h: Hierarchy, c: nat, b: nat) {
    exists path :: Chain(h, path) && |path| > 1 && path[0] == c && path[|path| - 1] == b
  }

  ghost predicate IsOrHasBase(h: Hierarchy, c: nat, b: nat) {
    c == b || ProperBase(h, c, b)
  }

  lemma ProperBaseStep(h: Hierarchy, c: nat, m: nat, b: nat)
    requires c < |h| && Some(m) in h[c].bases && Good(h, m) && IsOrHasBase(h, m, b)
    ensures ProperBase(h, c, b)
  {
    if m == b {
      assert [c, b][1..] == [b] && Chain(h, [c, b]);
    } else {
      var path :| Chain(h, path) && |path| > 1 && path[0] == m && path[|path| - 1] == b;
      assert ([c] + path)[1..] == path && Chain(h, [c] + path);
    }
  }

  lemma FirstStep(h: Hierarchy, c: nat, b: nat) returns (m: nat)
    requires ProperBase(h, c, b)
    ensures c < |h| && Some(m) in h[c].bases && Good(h, m) && IsOrHasBase(h, m, b) && m < c
  {
    var path :| Chain(h, path) && |path| > 1 && path[0] == c && path[|path| - 1] == b;
    m := path[1];
    if m != b {
      assert Chain(h, path[1..]);
    }
  }

  lemma {:induction false} BasesAreEarlier(h: Hierarchy, c: nat, b: nat)
    requires ProperBase(h, c, b)
    ensures b < c
    decreases c
  {
    var m := FirstStep(h, c, b);
    if m != b {
      BasesAreEarlier(h, m, b);
    }
  }

  predicate Inside(h: Hierarchy, pairs: set<(nat, nat)>) {
    forall r :: r in pairs ==> r.0 < |h| && r.1 < |h|
  }

  /** The pairs of classes the recursion reaches from `(target, parent)`. */
  function Reached(h: Hierarchy, target: nat, parent: nat): (pairs: set<(nat, nat)>)
    requires target < |h| && parent < |h|
    ensures Inside(h, pairs)
    decreases parent, |h[parent].bases| + 1
  {
    (if target != parent then {(target, parent)} else {}) + ReachedByBases(h, target, parent, |h[parent].bases|)
  }

  /** Those of them found before the bases with number `n` and up are looked at. */
  function ReachedSoFar(h: Hierarchy, target: nat, parent: nat, n: nat): (pairs: set<(nat, nat)>)
    requires target < |h| && parent < |h| && n <= |h[parent].bases|
    ensures Inside(h, pairs)
  {
    (if target != parent then {(target, parent)} else {}) + ReachedByBases(h, target, parent, n)
  }

  function ReachedByBases(h: Hierarchy, target: nat, parent: nat, n: nat): (pairs: set<(nat, nat)>)
    requires target < |h| && parent < |h| && n <= |h[parent].bases|
    ensures Inside(h, pairs)
    decreases parent, n
  {
    if n == 0 then {}
    else
      var base := h[parent].bases[n - 1];
      ReachedByBases(h, target, parent, n - 1)
      + if base.Some? && Good(h, base.value) then Reached(h, target, base.value) + Reached(h, parent, base.value) else {}
  }

  /** What the pair `(p, q)` owes to the `i`-th base of `parent`. */
  ghost predicate Via(h: Hierarchy, target: nat, parent: nat, i: nat, p: nat, q: nat)
    requires parent < |h| && i < |h[parent].bases|
  {
    var base := h[parent].bases[i];
    && base.Some? && Good(h, base.value)
    && ( || ((p == target || p == parent) && IsOrHasBase(h, base.value, q))
         || (IsOrHasBase(h, base.value, p) && ProperBase(h, p, q)))
  }

  /** The recursion reaches exactly the pairs of `target` with `parent` and its transitive bases, and all
      pairs related by inheritance at or below `parent`. */
  lemma {:induction false} ReachedExactly(h: Hierarchy, target: nat, parent: nat, p: nat, q: nat)
    requires parent <= target < |h|
    ensures (p, q) in Reached(h, target, parent) <==>
      || (p == target && q != target && IsOrHasBase(h, parent, q))
      || (IsOrHasBase(h, parent, p) && ProperBase(h, p, q))
    decreases parent, |h[parent].bases| + 1
  {
    var n := |h[parent].bases|;
    ReachedByBasesExactly(h, target, parent, n, p, q);
    if i :| 0 <= i < n && Via(h, target, parent, i, p, q) {
      var b := h[parent].bases[i].value;
      if p == target || p == parent {
        if IsOrHasBase(h, b, q) {
          ProperBaseStep(h, parent, b, q);
          BasesAreEarlier(h, parent, q);
        }
      }
      if IsOrHasBase(h, b, p) {
        ProperBaseStep(h, parent, b, p);
      }
    }
    if p == target && ProperBase(h, parent, q) {
      ViaSome(h, target, parent, p, q, q);
    }
    if ProperBase(h, p, q) {
      if p == parent {
        ViaSome(h, target, parent, p, q, q);
      } else if ProperBase(h, parent, p) {
        ViaSome(h, target, parent, p, q, p);
      }
    }
  }

  /** A transitive base is reached through some direct base. */
  lemma ViaSome(h: Hierarchy, target: nat, parent: nat, p: nat, q: nat, r: nat)
    requires parent < |h| && ProperBase(h, parent, r)
    requires (r == q && (p == target || p == parent)) || (r == p && ProperBase(h, p, q))
    ensures exists i :: 0 <= i < |h[parent].bases| && Via(h, target, parent, i, p, q)
  {
    var m := FirstStep(h, parent, r);
    var i :| 0 <= i < |h[parent].bases| && h[parent].bases[i] == Some(m);
    assert Via(h, target, parent, i, p, q);
  }

  lemma {:induction false} ReachedByBasesExactly(h: Hierarchy, target: nat, parent: nat, n: nat, p: nat, q: nat)
    requires parent <= target < |h| && n <= |h[parent].bases|
    ensures (p, q) in ReachedByBases(h, target, parent, n) <==>
      exists i :: 0 <= i < n && Via(h, target, parent, i, p, q)
    decreases parent, n
  {
    if n > 0 {
      ReachedByBasesExactly(h, target, parent, n - 1, p, q);
      var base := h[parent].bases[n - 1];
      if base.Some? && Good(h, base.value) {
        ReachedExactly(h, target, base.value, p, q);
        ReachedExactly(h, parent, base.value, p, q);
        if IsOrHasBase(h, base.value, q) && q != base.value {
          BasesAreEarlier(h, base.value, q);
        }
        assert (p, q) in Reached(h, target, base.value) + Reached(h, parent, base.value)
          <==> Via(h, target, parent, n - 1, p, q);
      }
    }
  }

  /** Started on one class, it reaches the inheritance closure below that class. */
  lemma ReachedIsClosure(h: Hierarchy, c: nat, p: nat, q: nat)
    requires c < |h|
    ensures (p, q) in Reached(h, c, c) <==> IsOrHasBase(h, c, p) && ProperBase(h, p, q)
  {
    ReachedExactly(h, c, c, p, q);
    if p == c && ProperBase(h, c, q) {
      BasesAreEarlier(h, c, q);
    }
  }

  // ---------------------------------------------------------------- what is recorded

  /** The hashes of a pair, if both are usable. */
  function ParentPairs(h: Hierarchy, pairs: set<(nat, nat)>): set<(nat, nat)>
    requires Inside(h, pairs)
  {
    set r | r in pairs && h[r.0].hash != 0 && h[r.1].hash != 0 :: (h[r.0].hash, h[r.1].hash)
  }

  /** Both orientations of the pairs whose classes have the same data size. */
  function PhantomPairs(h: Hierarchy, pairs: set<(nat, nat)>): set<(nat, nat)>
    requires Inside(h, pairs)
  {
    var same := set r | r in pairs && h[r.0].dataSize == h[r.1].dataSize;
    ParentPairs(h, same) + set r | r in ParentPairs(h, same) :: (r.1, r.0)
  }

  predicate Symmetric(pairs: set<(nat, nat)>) {
    forall r :: r in pairs ==> (r.1, r.0) in pairs
  }

  /** Recording keeps the phantom relation symmetric. */
  lemma PhantomsStaySymmetric(h: Hierarchy, before: set<(nat, nat)>, pairs: set<(nat, nat)>)
    requires Symmetric(before) && Inside(h, pairs)
    ensures Symmetric(before + PhantomPairs(h, pairs))
  {
  }

  /** The keys and values the parent relation ends up with, said without the recursion. */
  lemma ParentsAreClosure(h: Hierarchy, c: nat, a: nat, b: nat)
    requires c < |h|
    ensures (a, b) in ParentPairs(h, Reached(h, c, c)) <==>
      exists p: nat, q: nat ::
        && IsOrHasBase(h, c, p) && ProperBase(h, p, q) && p < |h| && q < |h|
        && a == h[p].hash != 0 && b == h[q].hash != 0
  {
    if (a, b) in ParentPairs(h, Reached(h, c, c)) {
      var r :| r in Reached(h, c, c) && a == h[r.0].hash != 0 && b == h[r.1].hash != 0;
      ReachedIsClosure(h, c, r.0, r.1);
    }
    forall p: nat, q: nat | IsOrHasBase(h, c, p) && ProperBase(h, p, q) ensures (p, q) in Reached(h, c, c) {
      ReachedIsClosure(h, c, p, q);
    }
  }

  lemma PhantomsAreSameSize(h: Hierarchy, c: nat, a: nat, b: nat)
    requires c < |h|
    ensures (a, b) in PhantomPairs(h, Reached(h, c, c)) <==>
      exists p: nat, q: nat ::
        && IsOrHasBase(h, c, p) && ProperBase(h, p, q) && p < |h| && q < |h| && h[p].dataSize == h[q].dataSize
        && h[p].hash != 0 && h[q].hash != 0 && (a, b) in {(h[p].hash, h[q].hash), (h[q].hash, h[p].hash)}
  {
    if (a, b) in PhantomPairs(h, Reached(h, c, c)) {
      var r :| r in Reached(h, c, c) && h[r.0].dataSize == h[r.1].dataSize && h[r.0].hash != 0 && h[r.1].hash != 0
        && (a, b) in {(h[r.0].hash, h[r.1].hash), (h[r.1].hash, h[r.0].hash)};
      ReachedIsClosure(h, c, r.0, r.1);
    }
    forall p: nat, q: nat | IsOrHasBase(h, c, p) && ProperBase(h, p, q) ensures (p, q) in Reached(h, c, c) {
      ReachedIsClosure(h, c, p, q);
    }
  }

  /** A class records its base, and both as castable into each other if their data sizes are equal. */
  lemma OneBase(derived: Class, base: Class)
    requires derived.bases == [Some(0)] && base.bases == [] && base.complete && !base.anonymous
    requires derived.hash != 0 && base.hash != 0
    ensures ParentPairs([base, derived], Reached([base, derived], 1, 1)) == {(derived.hash, base.hash)}
    ensures PhantomPairs([base, derived], Reached([base, derived], 1, 1)) ==
      if derived.dataSize == base.dataSize then {(derived.hash, base.hash), (base.hash, derived.hash)} else {}
  {
    var h: Hierarchy := [base, derived];
    assert Reached(h, 1, 0) == {(1, 0)};
    assert ReachedByBases(h, 1, 1, 0) == {};
    assert Reached(h, 1, 1) == {(1, 0)};
    RecordedAlone(h, 1, 0);
  }

  lemma RecordedTogether(h: Hierarchy, some: set<(nat, nat)>, more: set<(nat, nat)>)
    requires Inside(h, some) && Inside(h, more)
    ensures ParentPairs(h, some + more) == ParentPairs(h, some) + ParentPairs(h, more)
    ensures PhantomPairs(h, some + more) == PhantomPairs(h, some) + PhantomPairs(h, more)
  {
  }

  lemma RecordedNext(h: Hierarchy, target: nat, parent: nat, i: nat, b: nat)
    requires target < |h| && parent < |h| && i < |h[parent].bases| && h[parent].bases[i] == Some(b) && Good(h, b)
    ensures ParentPairs(h, ReachedSoFar(h, target, parent, i + 1)) ==
      ParentPairs(h, ReachedSoFar(h, target, parent, i))
        + (ParentPairs(h, Reached(h, target, b)) + ParentPairs(h, Reached(h, parent, b)))
    ensures PhantomPairs(h, ReachedSoFar(h, target, parent, i + 1)) ==
      PhantomPairs(h, ReachedSoFar(h, target, parent, i))
        + (PhantomPairs(h, Reached(h, target, b)) + PhantomPairs(h, Reached(h, parent, b)))
  {
    var before, some, more := ReachedSoFar(h, target, parent, i), Reached(h, target, b), Reached(h, parent, b);
    assert ReachedSoFar(h, target, parent, i + 1) == before + some + more;
    RecordedTogether(h, before, some);
    RecordedTogether(h, before + some, more);
  }

  lemma RecordedAlone(h: Hierarchy, p: nat, q: nat)
    requires p < |h| && q < |h|
    ensures ParentPairs(h, {(p, q)}) == if h[p].hash != 0 && h[q].hash != 0 then {(h[p].hash, h[q].hash)} else {}
    ensures PhantomPairs(h, {(p, q)}) ==
      if h[p].hash != 0 && h[q].hash != 0 && h[p].dataSize == h[q].dataSize
      then {(h[p].hash, h[q].hash)} + {(h[q].hash, h[p].hash)} else {}
  {
    var pairs := {(p, q)};
    assert (p, q) in pairs;
    if h[p].dataSize == h[q].dataSize {
      assert (set r | r in pairs && h[r.0].dataSize == h[r.1].dataSize) == pairs;
    } else {
      assert (set r | r in pairs && h[r.0].dataSize == h[r.1].dataSize) == {};
    }
  }

  /** A set of hash values on the heap. */
  class HashSet {
    var elements: set<nat>

    constructor ()
      ensures elements == {}
    {
      elements := {};
    }

    method Insert(x: nat)
      modifies this
      ensures elements == old(elements) + {x}
    {
      elements := elements + {x};
    }
  }

  /** A map from hash values to heap-allocated sets, and the relation that is stored this way. */
  class Storage {
    var table: map<nat, HashSet>
    ghost var pairs: set<(nat, nat)>
    ghost var sets: set<HashSet>

    constructor ()
      ensures Valid() && pairs == {} && sets == {}
    {
      table, pairs, sets := map[], {}, {};
    }

    /** No two keys share a set. */
    ghost predicate Valid()
      reads this, sets
    {
      && (forall a :: a in table ==> table[a] in sets)
      && (forall a, b :: a in table && b in table && a != b ==> table[a] != table[b])
      && forall a, b :: (a, b) in pairs <==> a in table && b in table[a].elements
    }

    /** `insertTypeRelationInfo` */
    method Insert(key: nat, value: nat)
      requires Valid()
      modifies this, sets
      ensures Valid() && fresh(sets - old(sets))
      ensures pairs == old(pairs) + {(key, value)}
      ensures forall a, b :: a in table && b in table[a].elements <==>
        (a == key && b == value) || (a in old(table) && b in old(table[a].elements))
    {
      var target: HashSet;
      var isExist := key in table;
      if isExist {
        target := table[key];
      } else {
        target := new HashSet();
        sets := sets + {target};
      }
      target.Insert(value);
      if !isExist {
        table := table[key := target];
      }
      pairs := pairs + {(key, value)};
    }
  }

  lemma Joined(first: set<(nat, nat)>, some: set<(nat, nat)>, before: set<(nat, nat)>, more: set<(nat, nat)>,
               after: set<(nat, nat)>)
    requires before == first + some && after == before + more
    ensures after == first + (some + more)
  {
  }

  lemma ParentsNext(h: Hierarchy, target: nat, parent: nat, i: nat, b: nat,
                    first: set<(nat, nat)>, before: set<(nat, nat)>, after: set<(nat, nat)>)
    requires target < |h| && parent < |h| && i < |h[parent].bases| && h[parent].bases[i] == Some(b) && Good(h, b)
    requires before == first + ParentPairs(h, ReachedSoFar(h, target, parent, i))
    requires after == before + (ParentPairs(h, Reached(h, target, b)) + ParentPairs(h, Reached(h, parent, b)))
    ensures after == first + ParentPairs(h, ReachedSoFar(h, target, parent, i + 1))
  {
    RecordedNext(h, target, parent, i, b);
    Joined(first, ParentPairs(h, ReachedSoFar(h, target, parent, i)), before,
           ParentPairs(h, Reached(h, target, b)) + ParentPairs(h, Reached(h, parent, b)), after);
  }

  lemma PhantomsNext(h: Hierarchy, target: nat, parent: nat, i: nat, b: nat,
                     first: set<(nat, nat)>, before: set<(nat, nat)>, after: set<(nat, nat)>)
    requires target < |h| && parent < |h| && i < |h[parent].bases| && h[parent].bases[i] == Some(b) && Good(h, b)
    requires before == first + PhantomPairs(h, ReachedSoFar(h, target, parent, i))
    requires after == before + (PhantomPairs(h, Reached(h, target, b)) + PhantomPairs(h, Reached(h, parent, b)))
    ensures after == first + PhantomPairs(h, ReachedSoFar(h, target, parent, i + 1))
  {
    RecordedNext(h, target, parent, i, b);
    Joined(first, PhantomPairs(h, ReachedSoFar(h, target, parent, i)), before,
           PhantomPairs(h, Reached(h, target, b)) + PhantomPairs(h, Reached(h, parent, b)), after);
  }

  /** The two relations of the code generator. */
  class Relations {
    const parents: Storage
    const phantoms: Storage
    ghost var repr: set<object>

    constructor ()
      ensures Valid() && fresh(repr) && parents.pairs == {} && phantoms.pairs == {}
    {
      parents := new Storage();
      phantoms := new Storage();
      repr := {this, parents, phantoms};
    }

    ghost predicate Valid()
      reads this, repr
    {
      && this in repr && parents in repr && phantoms in repr && parents.sets <= repr && phantoms.sets <= repr
      && parents != phantoms && parents.Valid() && phantoms.Valid() && parents.sets !! phantoms.sets
    }

    method AddParent(key: nat, value: nat)
      requires Valid()
      modifies repr
      ensures Valid() && fresh(repr - old(repr)) && old(repr) <= repr
      ensures parents.pairs == old(parents.pairs) + {(key, value)} && phantoms.pairs == old(phantoms.pairs)
    {
      parents.Insert(key, value);
      repr := repr + parents.sets;
    }

    method AddPhantom(a: nat, b: nat)
      requires Valid()
      modifies repr
      ensures Valid() && fresh(repr - old(repr)) && old(repr) <= repr
      ensures phantoms.pairs == old(phantoms.pairs) + ({(a, b)} + {(b, a)}) && parents.pairs == old(parents.pairs)
    {
      phantoms.Insert(a, b);
      phantoms.Insert(b, a);
      repr := repr + phantoms.sets;
    }

    method Record(h: Hierarchy, target: nat, parent: nat)
      requires Valid() && target < |h| && parent < |h|
      modifies repr
      ensures Valid() && fresh(repr - old(repr)) && old(repr) <= repr
      ensures parents.pairs == old(parents.pairs) + ParentPairs(h, {(target, parent)})
      ensures phantoms.pairs == old(phantoms.pairs) + PhantomPairs(h, {(target, parent)})
    {
      RecordedAlone(h, target, parent);
      if h[target].hash != 0 && h[parent].hash != 0 {
        if h[target].dataSize == h[parent].dataSize {
          AddPhantom(h[target].hash, h[parent].hash);
        }
        AddParent(h[target].hash, h[parent].hash);
      }
    }

    /** Since the relations were `parents0` and `phantoms0`, exactly the class pairs in `reached` were recorded. */
    ghost predicate Progress(h: Hierarchy, reached: set<(nat, nat)>,
                             parents0: set<(nat, nat)>, phantoms0: set<(nat, nat)>)
      requires Inside(h, reached)
      reads this, parents`pairs, phantoms`pairs
    {
      && parents.pairs == parents0 + ParentPairs(h, reached)
      && phantoms.pairs == phantoms0 + PhantomPairs(h, reached)
    }

    /** The loop body: a base that is not a complete, named class is skipped. */
    method NextBase(h: Hierarchy, target: nat, parent: nat, i: nat,
                    ghost parents0: set<(nat, nat)>, ghost phantoms0: set<(nat, nat)>)
      requires Valid() && target < |h| && parent < |h| && i < |h[parent].bases| && Good(h, target) && Good(h, parent)
      requires Progress(h, ReachedSoFar(h, target, parent, i), parents0, phantoms0)
      modifies repr
      ensures Valid() && fresh(repr - old(repr)) && old(repr) <= repr
      ensures Progress(h, ReachedSoFar(h, target, parent, i + 1), parents0, phantoms0)
      decreases parent, 0
    {
      var base := h[parent].bases[i];
      if base.Some? && Good(h, base.value) {
        var b := base.value;
        Descend(h, target, parent, b);
        ParentsNext(h, target, parent, i, b, parents0, old(parents.pairs), parents.pairs);
        PhantomsNext(h, target, parent, i, b, phantoms0, old(phantoms.pairs), phantoms.pairs);
      } else {
        assert ReachedSoFar(h, target, parent, i + 1) == ReachedSoFar(h, target, parent, i);
      }
    }

    /** The two recursive calls for one base. */
    method Descend(h: Hierarchy, target: nat, parent: nat, b: nat)
      requires Valid() && target < |h| && b < parent < |h| && Good(h, target) && Good(h, parent) && Good(h, b)
      modifies repr
      ensures Valid() && fresh(repr - old(repr)) && old(repr) <= repr
      ensures parents.pairs == old(parents.pairs)
        + (ParentPairs(h, Reached(h, target, b)) + ParentPairs(h, Reached(h, parent, b)))
      ensures phantoms.pairs == old(phantoms.pairs)
        + (PhantomPairs(h, Reached(h, target, b)) + PhantomPairs(h, Reached(h, parent, b)))
      decreases b, 3
    {
      GetTypeRelationInfo(h, target, b);
      GetTypeRelationInfo(h, parent, b);
    }

    /** `getTypeRelationInfo` */
    method GetTypeRelationInfo(h: Hierarchy, target: nat, parent: nat)
      requires Valid() && target < |h| && parent < |h|
      requires h[target].complete && !h[target].anonymous ==> h[parent].complete && !h[parent].anonymous
      modifies repr
      ensures Valid() && fresh(repr - old(repr)) && old(repr) <= repr
      ensures parents.pairs == old(parents.pairs)
        + if h[target].complete && !h[target].anonymous then ParentPairs(h, Reached(h, target, parent)) else {}
      ensures phantoms.pairs == old(phantoms.pairs)
        + if h[target].complete && !h[target].anonymous then PhantomPairs(h, Reached(h, target, parent)) else {}
      decreases parent, 2
    {
      if !Good(h, target) {
        return;
      }
      Begin(h, target, parent);
      AllBases(h, target, parent, old(parents.pairs), old(phantoms.pairs));
    }

    /** The pair itself, unless it is a class with itself. */
    method Begin(h: Hierarchy, target: nat, parent: nat)
      requires Valid() && target < |h| && parent < |h|
      modifies repr
      ensures Valid() && fresh(repr - old(repr)) && old(repr) <= repr
      ensures Progress(h, ReachedSoFar(h, target, parent, 0), old(parents.pairs), old(phantoms.pairs))
    {
      if target != parent {
        Record(h, target, parent);
        assert ReachedSoFar(h, target, parent, 0) == {(target, parent)};
      }
    }

    /** The loop over the bases. */
    method AllBases(h: Hierarchy, target: nat, parent: nat,
                    ghost parents0: set<(nat, nat)>, ghost phantoms0: set<(nat, nat)>)
      requires Valid() && target < |h| && parent < |h| && Good(h, target) && Good(h, parent)
      requires Progress(h, ReachedSoFar(h, target, parent, 0), parents0, phantoms0)
      modifies repr
      ensures Valid() && fresh(repr - old(repr)) && old(repr) <= repr
      ensures Progress(h, ReachedSoFar(h, target, parent, |h[parent].bases|), parents0, phantoms0)
      decreases parent, 1
    {
      for i := 0 to |h[parent].bases|
        invariant Valid() && fresh(repr - old(repr)) && old(repr) <= repr
        invariant Progress(h, ReachedSoFar(h, target, parent, i), parents0, phantoms0)
      {
        NextBase(h, target, parent, i, parents0, phantoms0);
      }
    }
  }
}
