/** Whole runs of the red-black tree against a plain set of values. */
module RBRuns {
  import opened Orders
  import opened Powers
  import opened RBShape
  import opened RBTree

  datatype Op<T> = Insert(v: T) | Find(v: T) | Delete(v: T) | Clear

  datatype Reply<T> = Answer(b: bool) | Stored(v: T) | Nothing

  /** What one operation does to a set that keeps one value of each equivalence class, the first. */
  ghost predicate SpecStep<T(!new)>(cmp: (T, T) -> bool, s: set<T>, op: Op<T>, s': set<T>, reply: Reply<T>) {
    match op
    case Insert(v) =>
      if exists e :: e in s && Equivalent(cmp, e, v) then s' == s && reply == Answer(false)
      else s' == s + {v} && reply == Answer(true)
    case Find(v) =>
      s' == s && (if exists e :: e in s && Equivalent(cmp, e, v)
                  then reply.Stored? && reply.v in s && Equivalent(cmp, reply.v, v)
                  else reply == Nothing)
    case Delete(v) =>
      && s' == (set e | e in s && !Equivalent(cmp, e, v))
      && reply == Answer(exists e :: e in s && Equivalent(cmp, e, v))
    case Clear => s' == {} && reply == Nothing
  }

  ghost predicate SpecRun<T(!new)>(cmp: (T, T) -> bool, states: seq<set<T>>, ops: seq<Op<T>>, replies: seq<Reply<T>>) {
    && |states| == |ops| + 1 && |replies| == |ops|
    && forall i :: 0 <= i < |ops| ==> SpecStep(cmp, states[i], ops[i], states[i + 1], replies[i])
  }

  method Apply<T(!new)>(tree: RBTree<T>, op: Op<T>) returns (reply: Reply<T>)
    requires tree.Valid()
    modifies tree, tree.cells.Keys
    ensures tree.Valid() && tree.cmp == old(tree.cmp) && fresh(tree.made - old(tree.made)) && tree.freed >= old(tree.freed)
    ensures SpecStep(tree.cmp, old(tree.Elements()), op, tree.Elements(), reply)
    ensures tree.rotations <= old(tree.rotations) + 3
  {
    match op {
      case Insert(v) =>
        var b := tree.Insert(v);
        reply := Answer(b);
      case Find(v) =>
        var r, _ := tree.Find(v);
        reply := if r == null then Nothing else Stored(r.value);
      case Delete(v) =>
        var b := tree.Delete(v);
        reply := Answer(b);
      case Clear =>
        tree.Clear();
        reply := Nothing;
    }
  }

  /** Any run from an empty tree answers as the plain set does, keeps the tree valid, and rotates at most three times an operation. */
  method Run<T(!new)>(cmp: (T, T) -> bool, ops: seq<Op<T>>)
    returns (tree: RBTree<T>, replies: seq<Reply<T>>, ghost states: seq<set<T>>)
    requires StrictWeakOrder(cmp)
    ensures tree.Valid() && tree.cmp == cmp && SpecRun(cmp, states, ops, replies)
    ensures states[0] == {} && tree.Elements() == states[|ops|]
    ensures tree.rotations <= 3 * |ops|
    ensures Pow2(Height(tree.shape)) <= (tree.size + 1) * (tree.size + 1)
  {
    tree := new RBTree(cmp);
    replies, states := [], [{}];
    for i := 0 to |ops|
      invariant fresh(tree) && fresh(tree.cells.Keys) && tree.Valid() && tree.cmp == cmp
      invariant SpecRun(cmp, states, ops[..i], replies) && states[0] == {} && tree.Elements() == states[i]
      invariant tree.rotations <= 3 * i
    {
      var reply := Apply(tree, ops[i]);
      ghost var after := tree.Elements();
      SpecRunExtend(cmp, states, ops, replies, i, after, reply);
      replies, states := replies + [reply], states + [after];
    }
    assert ops[..|ops|] == ops;
    LogarithmicHeight(tree.shape);
  }

  lemma SpecRunExtend<T(!new)>(cmp: (T, T) -> bool, states: seq<set<T>>, ops: seq<Op<T>>, replies: seq<Reply<T>>,
                               i: nat, s: set<T>, reply: Reply<T>)
    requires i < |ops| && SpecRun(cmp, states, ops[..i], replies) && SpecStep(cmp, states[i], ops[i], s, reply)
    ensures SpecRun(cmp, states + [s], ops[..i + 1], replies + [reply])
  {
    var states', done, replies' := states + [s], ops[..i + 1], replies + [reply];
    forall k | 0 <= k < |done| ensures SpecStep(cmp, states'[k], done[k], states'[k + 1], replies'[k]) {
      if k < i { assert SpecStep(cmp, states[k], ops[..i][k], states[k + 1], replies[k]); }
    }
  }
}
