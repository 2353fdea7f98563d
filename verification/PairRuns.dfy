/** Whole runs over several pairing heaps: what they contain, and what they cost. */
module PairRuns {
  import opened Orders
  import opened PairShape
  import opened PairPotential
  import opened PairingHeap

  datatype Op<T> = Add(i: nat, v: T) | Pop(i: nat) | Meld(i: nat, j: nat) | Clear(i: nat) | Move(i: nat, j: nat)

  predicate InRange<T>(op: Op<T>, k: nat) {
    op.i < k && ((op.Meld? || op.Move?) ==> op.j < k)
  }

  // ------------------------------------------------- priority queues, plainly

  /** What one operation does to `k` multisets of values. */
  ghost predicate SpecStep<T(!new)>(cmp: (T, T) -> bool, s: seq<multiset<T>>, op: Op<T>, s': seq<multiset<T>>, out: Option<T>)
    requires InRange(op, |s|)
  {
    match op
    case Add(i, v) => s' == s[i := s[i] + multiset{v}] && out == None
    case Pop(i) =>
      if s[i] == multiset{} then s' == s && out == None
      else out.Some? && First(cmp, out.value, s[i]) && s' == s[i := s[i] - multiset{out.value}]
    case Meld(i, j) => s' == (if i == j then s else s[i := s[i] + s[j]][j := multiset{}]) && out == None
    case Clear(i) => s' == s[i := multiset{}] && out == None
    case Move(i, j) => s' == (if i == j then s else s[i := s[j]][j := multiset{}]) && out == None
  }

  // ------------------------------------------------------- the same on shapes

  /** `r` is `t` joined with one new node, which is now the root or its leftmost child. */
  ghost predicate Added<T>(cmp: (T, T) -> bool, t: Heap<T>, v: T, r: Heap<T>) {
    r.Tree? && (JoinedWith(cmp, t, r.node, v, r) || (r.child.Tree? && JoinedWith(cmp, t, r.child.node, v, r)))
  }

  ghost predicate JoinedWith<T>(cmp: (T, T) -> bool, t: Heap<T>, z: Node<T>, v: T, r: Heap<T>) {
    z.value == v && r == Joined(cmp, t, Tree(z, Leaf, Leaf))
  }

  ghost predicate ShapeStep<T(!new)>(cmp: (T, T) -> bool, s: seq<Heap<T>>, op: Op<T>, s': seq<Heap<T>>, out: Option<T>, links: nat)
    requires InRange(op, |s|)
  {
    match op
    case Add(i, v) =>
      && links == (if s[i].Tree? then 1 else 0) && out == None
      && |s'| == |s| && s' == s[i := s'[i]] && Added(cmp, s[i], v, s'[i])
    case Pop(i) =>
      if s[i].Leaf? then s' == s && links == 0 && out == None
      else s' == s[i := TwoPass(cmp, s[i].child)] && links == PopLinks(s[i]) && out == Some(s[i].node.value)
    case Meld(i, j) =>
      && links == (if i != j && s[i].Tree? && s[j].Tree? then 1 else 0) && out == None
      && s' == (if i == j then s else s[i := Joined(cmp, s[i], s[j])][j := Leaf])
    case Clear(i) => s' == s[i := Leaf] && links == 0 && out == None
    case Move(i, j) => links == 0 && out == None && s' == (if i == j then s else s[i := s[j]][j := Leaf])
  }

  ghost predicate AllOrderedHeaps<T(!new)>(cmp: (T, T) -> bool, s: seq<Heap<T>>) {
    forall i :: 0 <= i < |s| ==> IsOrdered(cmp, s[i], Size(s[i]))
  }

  ghost function Abstract<T>(s: seq<Heap<T>>): seq<multiset<T>> {
    seq(|s|, i requires 0 <= i < |s| => Values(s[i]))
  }

  lemma JoinedIsAdded<T>(cmp: (T, T) -> bool, t: Heap<T>, z: Node<T>, v: T, r: Heap<T>)
    requires JoinedWith(cmp, t, z, v, r)
    ensures Added(cmp, t, v, r)
  {
  }

  lemma AddedNode<T>(cmp: (T, T) -> bool, t: Heap<T>, v: T, r: Heap<T>) returns (z: Node<T>)
    requires Added(cmp, t, v, r)
    ensures JoinedWith(cmp, t, z, v, r)
  {
    z := if JoinedWith(cmp, t, r.node, v, r) then r.node else r.child.node;
  }

  lemma AddedFacts<T(!new)>(cmp: (T, T) -> bool, t: Heap<T>, v: T, r: Heap<T>)
    requires IsOrdered(cmp, t, Size(t)) && Added(cmp, t, v, r)
    ensures IsOrdered(cmp, r, Size(t) + 1) && Values(r) == Values(t) + multiset{v}
  {
    var z := AddedNode(cmp, t, v, r);
    PairingHeap.AddFacts(cmp, t, z, Size(t));
  }

  lemma Replaced<T(!new)>(cmp: (T, T) -> bool, s: seq<Heap<T>>, i: nat, t: Heap<T>)
    requires i < |s| && AllOrderedHeaps(cmp, s) && IsOrdered(cmp, t, Size(t))
    ensures AllOrderedHeaps(cmp, s[i := t])
    ensures Abstract(s[i := t]) == Abstract(s)[i := Values(t)]
  {
    var r := s[i := t];
    forall k | 0 <= k < |r| ensures IsOrdered(cmp, r[k], Size(r[k])) {
      assert r[k] == if k == i then t else s[k];
    }
  }

  lemma LeafOrdered<T(!new)>(cmp: (T, T) -> bool)
    requires StrictWeakOrder(cmp)
    ensures IsOrdered(cmp, Leaf, 0) && Values<T>(Leaf) == multiset{}
  {
  }

  /** Every operation on the shapes is the plain operation on the multisets they hold. */
  lemma ShapeRefines<T(!new)>(cmp: (T, T) -> bool, s: seq<Heap<T>>, op: Op<T>, s': seq<Heap<T>>, out: Option<T>, links: nat)
    requires InRange(op, |s|) && AllOrderedHeaps(cmp, s) && ShapeStep(cmp, s, op, s', out, links)
    ensures AllOrderedHeaps(cmp, s') && |s'| == |s|
    ensures SpecStep(cmp, Abstract(s), op, Abstract(s'), out)
  {
    var i := op.i;
    assert IsOrdered(cmp, s[i], Size(s[i]));
    match op {
      case Add(_, v) =>
        AddedFacts(cmp, s[i], v, s'[i]);
        Replaced(cmp, s, i, s'[i]);
      case Pop(_) => PopRefines(cmp, s, i, s', out, links);
      case Meld(_, j) => MeldRefines(cmp, s, i, j, s', out, links);
      case Clear(_) =>
        LeafOrdered(cmp);
        Replaced(cmp, s, i, Leaf);
      case Move(_, j) =>
        LeafOrdered(cmp);
        if i != j {
          Replaced(cmp, s, i, s[j]);
          Replaced(cmp, s[i := s[j]], j, Leaf);
        }
    }
  }

  lemma PopRefines<T(!new)>(cmp: (T, T) -> bool, s: seq<Heap<T>>, i: nat, s': seq<Heap<T>>, out: Option<T>, links: nat)
    requires i < |s| && AllOrderedHeaps(cmp, s) && ShapeStep(cmp, s, Pop(i), s', out, links)
    ensures AllOrderedHeaps(cmp, s') && |s'| == |s|
    ensures SpecStep(cmp, Abstract(s), Pop(i), Abstract(s'), out)
  {
    var t := s[i];
    assert IsOrdered(cmp, t, Size(t));
    assert Abstract(s)[i] == Values(t);
    if t.Tree? {
      PairingHeap.PopFacts(cmp, t, Size(t));
      assert t.node.value in Values(t);
      TwoPassValues(cmp, t.child);
      Replaced(cmp, s, i, TwoPass(cmp, t.child));
    }
  }

  lemma MeldRefines<T(!new)>(cmp: (T, T) -> bool, s: seq<Heap<T>>, i: nat, j: nat, s': seq<Heap<T>>, out: Option<T>, links: nat)
    requires i < |s| && j < |s| && AllOrderedHeaps(cmp, s) && ShapeStep(cmp, s, Meld(i, j), s', out, links)
    ensures AllOrderedHeaps(cmp, s') && |s'| == |s|
    ensures SpecStep(cmp, Abstract(s), Meld(i, j), Abstract(s'), out)
  {
    if i != j {
      PairingHeap.MeldFacts(cmp, s[i], s[j], Size(s[i]), Size(s[j]));
      var r := Joined(cmp, s[i], s[j]);
      LeafOrdered(cmp);
      Replaced(cmp, s, i, r);
      Replaced(cmp, s[i := r], j, Leaf);
    }
  }
}
