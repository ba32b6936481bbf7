/** Keys as `compare` sees them, and the finite map that a sorted tree stands for. */
module RbMap {
  import opened RbShape

  /** `(int)(size_t)p`: the low 32 bits, read as a two's complement number. */
  function Key32(p: Ptr): (k: int)
    ensures -0x8000_0000 <= k < 0x8000_0000
    ensures (p - k) % 0x1_0000_0000 == 0
  {
    var low := p % 0x1_0000_0000;
    if low < 0x8000_0000 then low else low - 0x1_0000_0000
  }

  /** Two pointers are one key exactly when they agree on their low 32 bits. */
  lemma SameKey(p: Ptr, q: Ptr)
    ensures Key32(p) == Key32(q) <==> (p - q) % 0x1_0000_0000 == 0
  {
    var k, l, m, n := Key32(p), Key32(q), p / 0x1_0000_0000, q / 0x1_0000_0000;
    if (p - q) % 0x1_0000_0000 == 0 {
      var d := (p - q) / 0x1_0000_0000;
      assert p % 0x1_0000_0000 - q % 0x1_0000_0000 == 0x1_0000_0000 * (d - m + n);
    }
  }

  /** `compare`. */
  function Compare(left: Ptr, right: Ptr): (r: int)
    ensures r < 0 <==> Key32(left) < Key32(right)
    ensures r > 0 <==> Key32(left) > Key32(right)
  {
    if Key32(left) < Key32(right) then -1 else if Key32(left) > Key32(right) then 1 else 0
  }

  type Contents = map<int, Ptr>

  /** Search order: strictly increasing under `compare`. */
  ghost predicate Sorted(s: seq<Entry>) {
    forall i, j :: 0 <= i < j < |s| ==> Key32(s[i].key) < Key32(s[j].key)
  }

  ghost predicate AllBelow(s: seq<Entry>, k: int) {
    forall e :: e in s ==> Key32(e.key) < k
  }

  ghost predicate AllAbove(k: int, s: seq<Entry>) {
    forall e :: e in s ==> k < Key32(e.key)
  }

  ghost function ContentsOf(s: seq<Entry>): Contents {
    if s == [] then map[] else
      var last := s[|s| - 1];
      ContentsOf(s[..|s| - 1])[Key32(last.key) := last.value]
  }

  lemma {:induction false} ContentsAppend(a: seq<Entry>, b: seq<Entry>)
    ensures ContentsOf(a + b) == ContentsOf(a) + ContentsOf(b)
  {
    if b == [] {
      assert a + b == a;
    } else {
      var last := b[|b| - 1];
      assert (a + b)[..|a + b| - 1] == a + b[..|b| - 1];
      ContentsAppend(a, b[..|b| - 1]);
    }
  }

  lemma {:induction false} ContentsDomain(s: seq<Entry>, k: int)
    ensures AllBelow(s, k) || AllAbove(k, s) ==> k !in ContentsOf(s)
  {
    if s != [] {
      ContentsDomain(s[..|s| - 1], k);
      assert forall e :: e in s[..|s| - 1] ==> e in s;
    }
  }

  lemma SortedAround(a: seq<Entry>, e: Entry, b: seq<Entry>)
    ensures Sorted(a + [e] + b) <==>
      Sorted(a + b) && AllBelow(a, Key32(e.key)) && AllAbove(Key32(e.key), b)
  {
    var s, k := a + [e] + b, Key32(e.key);
    if Sorted(s) {
      forall i, j | 0 <= i < j < |a + b|
        ensures Key32((a + b)[i].key) < Key32((a + b)[j].key)
      {
        var i', j' := if i < |a| then i else i + 1, if j < |a| then j else j + 1;
        assert s[i'] == (a + b)[i] && s[j'] == (a + b)[j];
      }
      assert s[|a|] == e;
      forall x | x in a ensures Key32(x.key) < k {
        var i :| 0 <= i < |a| && a[i] == x;
        assert s[i] == x;
      }
      forall x | x in b ensures k < Key32(x.key) {
        var i :| 0 <= i < |b| && b[i] == x;
        assert s[|a| + 1 + i] == x;
      }
    }
    if Sorted(a + b) && AllBelow(a, k) && AllAbove(k, b) {
      forall i, j | 0 <= i < j < |s|
        ensures Key32(s[i].key) < Key32(s[j].key)
      {
        if i != |a| && j != |a| {
          var i', j' := if i < |a| then i else i - 1, if j < |a| then j else j - 1;
          assert s[i] == (a + b)[i'] && s[j] == (a + b)[j'];
        } else if i == |a| {
          assert s[j] in b;
        } else {
          assert s[i] in a;
        }
      }
    }
  }

  lemma ContentsSingle(e: Entry)
    ensures ContentsOf([e]) == map[Key32(e.key) := e.value]
  {
    assert [e][..0] == [];
  }

  lemma MissingKey(a: seq<Entry>, b: seq<Entry>, k: int)
    requires AllBelow(a, k) && AllAbove(k, b)
    ensures k !in ContentsOf(a + b)
  {
    ContentsAppend(a, b);
    ContentsDomain(a, k);
    ContentsDomain(b, k);
  }

  /** Adding, replacing and removing one entry of a sorted sequence, read as operations on the map. */
  lemma ContentsAround(a: seq<Entry>, e: Entry, b: seq<Entry>)
    requires AllBelow(a, Key32(e.key)) && AllAbove(Key32(e.key), b)
    ensures ContentsOf(a + [e] + b) == ContentsOf(a + b)[Key32(e.key) := e.value]
    ensures Key32(e.key) !in ContentsOf(a + b)
  {
    MissingKey(a, b, Key32(e.key));
    ContentsAppend(a + [e], b);
    ContentsAppend(a, [e]);
    ContentsAppend(a, b);
    ContentsSingle(e);
    ContentsDomain(b, Key32(e.key));
  }

  /** The same, for an entry that is known to stand in a sorted sequence. */
  lemma EntryInside(s: seq<Entry>, a: seq<Entry>, e: Entry, b: seq<Entry>)
    requires s == a + [e] + b && Sorted(s)
    ensures AllBelow(a, Key32(e.key)) && AllAbove(Key32(e.key), b) && Sorted(a + b)
    ensures ContentsOf(s) == ContentsOf(a + b)[Key32(e.key) := e.value]
    ensures ContentsOf(a + b) == ContentsOf(s) - {Key32(e.key)}
  {
    SortedAround(a, e, b);
    ContentsAround(a, e, b);
  }

  /** Another entry with the same key in its place. */
  lemma EntryReplaced(s: seq<Entry>, s': seq<Entry>, a: seq<Entry>, e: Entry, e': Entry, b: seq<Entry>)
    requires s == a + [e] + b && s' == a + [e'] + b && Sorted(s) && Key32(e.key) == Key32(e'.key)
    ensures Sorted(s') && ContentsOf(s') == ContentsOf(s)[Key32(e.key) := e'.value]
  {
    EntryInside(s, a, e, b);
    SortedAround(a, e', b);
    ContentsAround(a, e', b);
  }

  /** A new entry where its key belongs. */
  lemma EntryAdded(s: seq<Entry>, s': seq<Entry>, a: seq<Entry>, e: Entry, b: seq<Entry>)
    requires s == a + b && s' == a + [e] + b && Sorted(s)
    requires AllBelow(a, Key32(e.key)) && AllAbove(Key32(e.key), b)
    ensures Sorted(s') && ContentsOf(s') == ContentsOf(s)[Key32(e.key) := e.value]
  {
    SortedAround(a, e, b);
    ContentsAround(a, e, b);
  }

  /** An entry taken over by another node, which then holds it instead of its own. */
  lemma EntryMovedUp(s: seq<Entry>, s': seq<Entry>, a: seq<Entry>, e: Entry, x: Entry, x': Entry, b: seq<Entry>)
    requires s == (a + [e]) + [x] + b && s' == a + ([x'] + b) && Sorted(s)
    requires x'.key == e.key && x'.value == e.value
    ensures Sorted(s') && ContentsOf(s') == ContentsOf(s) - {Key32(x.key)}
  {
    EntryInside(s, a + [e], x, b);
    var t := a + [e] + b;
    EntryInside(t, a, e, b);
    assert a + ([x'] + b) == a + [x'] + b;
    EntryReplaced(t, s', a, e, x', b);
  }

  lemma SplitAgrees(a: seq<Entry>, b: seq<Entry>, x: Entry, c: seq<Entry>)
    requires a + [x] + c == b + ([x] + c)
    ensures a == b
  {
    assert |a| == |b|;
    assert a == (a + [x] + c)[..|a|];
    assert b == (b + ([x] + c))[..|b|];
  }
}
