/** Whole runs: any finite sequence of operations on a fresh tree, answered from the history alone. */
module RbHistory {
  import opened RbShape
  import opened RbMap
  import RbTree

  /** A call of the public interface; `mallocOk` says whether `malloc` succeeds during it. */
  datatype Op = Insert(key: Ptr, value: Ptr, mallocOk: bool) | Delete(key: Ptr) | Lookup(key: Ptr)

  datatype Answer = Done | Deleted(r: int) | Found(value: Ptr)

  /** The last operation in `history` that concerned the key `k` and took effect was an insertion. */
  predicate Present(history: seq<Op>, k: int) {
    if history == [] then false else
      var op := history[|history| - 1];
      if op.Insert? && op.mallocOk && Key32(op.key) == k then true
      else if op.Delete? && Key32(op.key) == k then false
      else Present(history[..|history| - 1], k)
  }

  /** The value of the last insertion for the key `k`, if nothing has deleted it since. */
  function Recall(history: seq<Op>, k: int): Ptr {
    if history == [] then NULL else
      var op := history[|history| - 1];
      if op.Insert? && op.mallocOk && Key32(op.key) == k then op.value
      else if op.Delete? && Key32(op.key) == k then NULL
      else Recall(history[..|history| - 1], k)
  }

  function Expected(history: seq<Op>, op: Op): Answer {
    match op
    case Insert(_, _, _) => Done
    case Delete(key) => Deleted(if Present(history, Key32(key)) then 1 else 0)
    case Lookup(key) => Found(Recall(history, Key32(key)))
  }

  /** The last operation that took effect on a key, or one with the same low 32 bits, decides. */
  lemma {:induction false} LastOneDecides(history: seq<Op>, i: nat, key: Ptr)
    requires i < |history| && history[i].key % 0x1_0000_0000 == key % 0x1_0000_0000
    requires (history[i].Insert? && history[i].mallocOk) || history[i].Delete?
    requires forall j :: i < j < |history| && history[j].key % 0x1_0000_0000 == key % 0x1_0000_0000 ==>
      history[j].Lookup? || (history[j].Insert? && !history[j].mallocOk)
    ensures Expected(history, Lookup(key)) == Found(if history[i].Insert? then history[i].value else NULL)
    ensures Expected(history, Delete(key)) == Deleted(if history[i].Insert? then 1 else 0)
    decreases |history|
  {
    var last := history[|history| - 1];
    SameKey(last.key, key);
    if i < |history| - 1 {
      LastOneDecides(history[..|history| - 1], i, key);
    }
  }

  lemma {:induction false} NeverInserted(history: seq<Op>, key: Ptr)
    requires forall j :: 0 <= j < |history| && history[j].key % 0x1_0000_0000 == key % 0x1_0000_0000 ==>
      history[j].Lookup? || history[j].Delete? || !history[j].mallocOk
    ensures Expected(history, Lookup(key)) == Found(NULL) && Expected(history, Delete(key)) == Deleted(0)
  {
    if history != [] {
      SameKey(history[|history| - 1].key, key);
      NeverInserted(history[..|history| - 1], key);
    }
  }

  ghost predicate Remembers(m: Contents, history: seq<Op>) {
    && (forall k :: k in m <==> Present(history, k))
    && (forall k :: Recall(history, k) == if k in m then m[k] else NULL)
  }

  lemma RemembersNext(m: Contents, history: seq<Op>, op: Op)
    requires Remembers(m, history)
    ensures op.Insert? && op.mallocOk ==> Remembers(m[Key32(op.key) := op.value], history + [op])
    ensures op.Delete? ==> Remembers(m - {Key32(op.key)}, history + [op])
    ensures op.Lookup? || (op.Insert? && !op.mallocOk) ==> Remembers(m, history + [op])
  {
    assert (history + [op])[..|history + [op]| - 1] == history;
  }

  /** One call. */
  method Perform(t: RbTree.RbTree, op: Op, ghost history: seq<Op>) returns (answer: Answer)
    requires t.Valid() && Remembers(t.Contents(), history)
    modifies t, t.nodes
    ensures t.Valid() && fresh(t.nodes - old(t.nodes))
    ensures Remembers(t.Contents(), history + [op])
    ensures answer == Expected(history, op)
  {
    RemembersNext(t.Contents(), history, op);
    ghost var node, steps;
    match op
    case Insert(key, value, mallocOk) =>
      node, steps := t.Insert(key, value, mallocOk);
      answer := Done;
    case Delete(key) =>
      var r;
      r, node, steps := t.Delete(key);
      answer := Deleted(r);
    case Lookup(key) =>
      var value;
      value, steps := t.Lookup(key);
      answer := Found(value);
  }

  /** The first `n` answers are as they should be. */
  ghost predicate Answered(ops: seq<Op>, answers: seq<Answer>, n: nat) {
    n == |answers| <= |ops| && forall j :: 0 <= j < n ==> answers[j] == Expected(ops[..j], ops[j])
  }

  lemma AnsweredNext(ops: seq<Op>, answers: seq<Answer>, n: nat, answer: Answer)
    requires Answered(ops, answers, n) && n < |ops| && answer == Expected(ops[..n], ops[n])
    ensures Answered(ops, answers + [answer], n + 1)
    ensures ops[..n + 1] == ops[..n] + [ops[n]]
  {
  }

  /** Every run answers as its history demands; all the `assert`s of the source hold on the way. */
  method Run(ops: seq<Op>) returns (answers: seq<Answer>)
    ensures |answers| == |ops|
    ensures forall i :: 0 <= i < |ops| ==> answers[i] == Expected(ops[..i], ops[i])
  {
    var t := new RbTree.RbTree();
    answers := [];
    for i := 0 to |ops|
      invariant t.Valid() && fresh(t) && fresh(t.nodes)
      invariant Answered(ops, answers, i) && Remembers(t.Contents(), ops[..i])
    {
      var answer := Perform(t, ops[i], ops[..i]);
      AnsweredNext(ops, answers, i, answer);
      answers := answers + [answer];
    }
  }
}
