/** The pointer heaps perform the runs of PairRuns and PairCredit. */
module PairPool {
  import opened Orders
  import opened Powers
  import opened PairShape
  import opened PairingHeap
  import opened PairRuns
  import opened PairCredit

  ghost predicate AllApart<X>(ms: seq<set<X>>) {
    forall i, j :: 0 <= i < j < |ms| ==> ms[i] !! ms[j]
  }

  lemma ApartAt<X>(ms: seq<set<X>>, i: nat, j: nat)
    requires AllApart(ms) && i < |ms| && j < |ms| && i != j
    ensures ms[i] !! ms[j]
  {
  }

  ghost function Union<X>(ms: seq<set<X>>): set<X> {
    set m, x | m in ms && x in m :: x
  }

  /** Heap `i` keeps its nodes or takes some of heap `j`; heap `j` keeps what is left. */
  lemma ApartMoved<X>(ms: seq<set<X>>, i: nat, j: nat, a: set<X>, b: set<X>)
    requires AllApart(ms) && i < |ms| && j < |ms| && i != j
    requires a <= ms[i] + ms[j] && b <= ms[j] && a !! b
    ensures AllApart(ms[i := a][j := b]) && Union(ms[i := a][j := b]) <= Union(ms)
  {
    var r := ms[i := a][j := b];
    assert ms[i] in ms && ms[j] in ms;
    forall k, l | 0 <= k < l < |r| ensures r[k] !! r[l] {
      if k != i && k != j { ApartAt(ms, k, i); ApartAt(ms, k, j); }
      if l != i && l != j { ApartAt(ms, l, i); ApartAt(ms, l, j); }
    }
  }

  ghost predicate PoolValid<T(!new)>(cmp: (T, T) -> bool, hs: seq<PairingHeap<T>>)
    reads hs, PoolCells(hs)
  {
    && (forall i :: 0 <= i < |hs| ==> hs[i].Valid() && hs[i].cmp == cmp)
    && (forall i, j :: 0 <= i < j < |hs| ==> hs[i] != hs[j])
    && AllApart(Mades(hs))
  }

  /** The nodes each heap has ever owned. */
  ghost function Mades<T(!new)>(hs: seq<PairingHeap<T>>): seq<set<Node<T>>>
    reads hs
  {
    seq(|hs|, i requires 0 <= i < |hs| reads hs => hs[i].made)
  }

  /** All nodes ever owned. */
  ghost function AllMade<T(!new)>(hs: seq<PairingHeap<T>>): set<Node<T>>
    reads hs
  {
    Union(Mades(hs))
  }

  ghost function Shapes<T(!new)>(hs: seq<PairingHeap<T>>): seq<Heap<T>>
    reads hs
  {
    seq(|hs|, i requires 0 <= i < |hs| reads hs => hs[i].shape)
  }

  lemma OthersApart<T(!new)>(cmp: (T, T) -> bool, hs: seq<PairingHeap<T>>, i: nat)
    requires PoolValid(cmp, hs) && i < |hs|
    ensures forall k :: 0 <= k < |hs| && k != i ==> hs[k] != hs[i] && hs[k].cells.Keys !! hs[i].cells.Keys
    ensures forall k :: 0 <= k < |hs| && k != i ==> hs[k].made !! hs[i].made
  {
    forall k | 0 <= k < |hs| && k != i
      ensures hs[k] != hs[i] && hs[k].cells.Keys !! hs[i].cells.Keys && hs[k].made !! hs[i].made
    {
      ApartAt(Mades(hs), k, i);
      assert hs[k].Valid() && hs[i].Valid();
      if k < i { assert hs[k] != hs[i]; } else { assert hs[i] != hs[k]; }
    }
  }

  lemma OneUpdated<X>(s: seq<X>, r: seq<X>, i: nat)
    requires i < |s| == |r| && forall k :: 0 <= k < |s| && k != i ==> r[k] == s[k]
    ensures r == s[i := r[i]]
  {
  }

  lemma TwoUpdated<X>(s: seq<X>, r: seq<X>, i: nat, j: nat)
    requires i < |s| && j < |s| && i != j && |r| == |s|
    requires forall k :: 0 <= k < |s| && k != i && k != j ==> r[k] == s[k]
    ensures r == s[i := r[i]][j := r[j]]
  {
  }

  lemma ApartReplaced<X>(ms: seq<set<X>>, i: nat, a: set<X>)
    requires AllApart(ms) && i < |ms|
    requires forall k :: 0 <= k < |ms| && k != i ==> ms[k] !! a
    ensures AllApart(ms[i := a])
  {
  }

  method ApplyAdd<T(!new)>(cmp: (T, T) -> bool, hs: seq<PairingHeap<T>>, i: nat, v: T) returns (ghost links: nat)
    requires PoolValid(cmp, hs) && i < |hs|
    modifies hs[i], hs[i].cells.Keys
    ensures PoolValid(cmp, hs)
    ensures ShapeStep(cmp, old(Shapes(hs)), Add(i, v), Shapes(hs), None, links)
    ensures fresh(AllMade(hs) - old(AllMade(hs)))
  {
    ghost var t, ms := hs[i].shape, Mades(hs);
    ghost var z;
    z, links := AddOne(cmp, hs, i, v);
    JoinedIsAdded(cmp, t, z, v, Joined(cmp, t, Tree(z, Leaf, Leaf)));
    UnionGrown(ms, i, z);
  }

  method AddOne<T(!new)>(cmp: (T, T) -> bool, hs: seq<PairingHeap<T>>, i: nat, v: T) returns (ghost z: Node<T>, ghost links: nat)
    requires PoolValid(cmp, hs) && i < |hs|
    modifies hs[i], hs[i].cells.Keys
    ensures PoolValid(cmp, hs)
    ensures fresh(z) && z.value == v && Mades(hs) == old(Mades(hs))[i := old(hs[i].made) + {z}]
    ensures Shapes(hs) == old(Shapes(hs))[i := Joined(cmp, old(hs[i].shape), Tree(z, Leaf, Leaf))]
    ensures links == LinksOf(old(hs[i].shape), Tree(z, Leaf, Leaf))
  {
    var h := hs[i];
    ghost var before, s, ms := h.links, Shapes(hs), Mades(hs);
    OthersApart(cmp, hs, i);
    z := h.Add(v);
    links := h.links - before;
    forall k | 0 <= k < |hs| && k != i ensures hs[k].Valid() && hs[k].cmp == cmp && hs[k].shape == s[k] && hs[k].made == ms[k] {
      assert hs[k] != h;
    }
    OneUpdated(s, Shapes(hs), i);
    OneUpdated(ms, Mades(hs), i);
    ApartReplaced(ms, i, h.made);
  }

  lemma UnionGrown<X>(ms: seq<set<X>>, i: nat, z: X)
    requires i < |ms|
    ensures Union(ms[i := ms[i] + {z}]) - Union(ms) <= {z}
  {
    assert ms[i] in ms;
  }

  method ApplyPop<T(!new)>(cmp: (T, T) -> bool, hs: seq<PairingHeap<T>>, i: nat) returns (out: Option<T>, ghost links: nat)
    requires PoolValid(cmp, hs) && i < |hs|
    modifies hs[i], hs[i].cells.Keys
    ensures PoolValid(cmp, hs)
    ensures ShapeStep(cmp, old(Shapes(hs)), Pop(i), Shapes(hs), out, links)
    ensures AllMade(hs) <= old(AllMade(hs))
  {
    var h := hs[i];
    ghost var before, s, ms := h.links, Shapes(hs), Mades(hs);
    OthersApart(cmp, hs, i);
    out := h.Pop();
    links := h.links - before;
    forall k | 0 <= k < |hs| && k != i ensures hs[k].Valid() && hs[k].cmp == cmp && hs[k].shape == s[k] && hs[k].made == ms[k] {
      assert hs[k] != h;
    }
    OneUpdated(s, Shapes(hs), i);
    OneUpdated(ms, Mades(hs), i);
    assert Mades(hs) == ms;
  }

  method ApplyMeld<T(!new)>(cmp: (T, T) -> bool, hs: seq<PairingHeap<T>>, i: nat, j: nat) returns (ghost links: nat)
    requires PoolValid(cmp, hs) && i < |hs| && j < |hs|
    modifies hs[i], hs[i].cells.Keys, hs[j], hs[j].cells.Keys
    ensures PoolValid(cmp, hs)
    ensures ShapeStep(cmp, old(Shapes(hs)), Meld(i, j), Shapes(hs), None, links)
    ensures AllMade(hs) <= old(AllMade(hs))
  {
    if i == j {
      MeldSelf(cmp, hs, i);
      links := 0;
    } else {
      links := MeldTwo(cmp, hs, i, j);
    }
  }

  method MeldSelf<T(!new)>(cmp: (T, T) -> bool, hs: seq<PairingHeap<T>>, i: nat)
    requires PoolValid(cmp, hs) && i < |hs|
    modifies hs[i], hs[i].cells.Keys
    ensures PoolValid(cmp, hs)
    ensures Shapes(hs) == old(Shapes(hs)) && Mades(hs) == old(Mades(hs)) && hs[i].links == old(hs[i].links)
  {
    var h := hs[i];
    ghost var s, ms := Shapes(hs), Mades(hs);
    h.Meld(h);
    assert Shapes(hs) == s && Mades(hs) == ms;
  }

  method MeldPair<T(!new)>(g: PairingHeap<T>, h: PairingHeap<T>)
    requires g.Valid() && h.Valid() && g.cmp == h.cmp && g != h && g.made !! h.made
    modifies g`root, g`size, g`shape, g`cells, g`made, g`links, h`root, h`size, h`shape, h`cells, h`made
    modifies g.cells.Keys, h.cells.Keys
    ensures g.Valid()
    ensures h.Valid()
    ensures g.shape == Joined(g.cmp, old(g.shape), old(h.shape)) && h.shape == Leaf
    ensures g.made + h.made == old(g.made) + old(h.made) && g.made !! h.made
    ensures h.made <= old(h.made)
    ensures g.links == old(g.links) + LinksOf(old(g.shape), old(h.shape))
  {
    g.Meld(h);
  }

  method MeldTwo<T(!new)>(cmp: (T, T) -> bool, hs: seq<PairingHeap<T>>, i: nat, j: nat) returns (ghost links: nat)
    requires PoolValid(cmp, hs) && i < |hs| && j < |hs| && i != j
    modifies hs[i], hs[i].cells.Keys, hs[j], hs[j].cells.Keys
    ensures PoolValid(cmp, hs)
    ensures Shapes(hs) == old(Shapes(hs))[i := Joined(cmp, old(hs[i].shape), old(hs[j].shape))][j := Leaf]
    ensures links == LinksOf(old(hs[i].shape), old(hs[j].shape))
    ensures AllMade(hs) <= old(AllMade(hs))
  {
    var g, h := hs[i], hs[j];
    ghost var before, s, ms := g.links, Shapes(hs), Mades(hs);
    OthersApart(cmp, hs, i);
    OthersApart(cmp, hs, j);
    MeldPair(g, h);
    links := g.links - before;
    forall k | 0 <= k < |hs| && k != i && k != j
      ensures hs[k].Valid() && hs[k].cmp == cmp && hs[k].shape == s[k] && hs[k].made == ms[k]
    {
      assert hs[k] != g && hs[k] != h;
    }
    TwoUpdated(s, Shapes(hs), i, j);
    TwoUpdated(ms, Mades(hs), i, j);
    ApartMoved(ms, i, j, g.made, h.made);
  }

  method ApplyClear<T(!new)>(cmp: (T, T) -> bool, hs: seq<PairingHeap<T>>, i: nat)
    requires PoolValid(cmp, hs) && i < |hs|
    modifies hs[i]
    ensures PoolValid(cmp, hs)
    ensures ShapeStep(cmp, old(Shapes(hs)), Clear(i), Shapes(hs), None, 0)
    ensures AllMade(hs) <= old(AllMade(hs))
  {
    var h := hs[i];
    ghost var s, ms := Shapes(hs), Mades(hs);
    h.Clear();
    assert Shapes(hs) == s[i := h.shape] && Mades(hs) == ms;
  }

  method ApplyMove<T(!new)>(cmp: (T, T) -> bool, hs: seq<PairingHeap<T>>, i: nat, j: nat)
    requires PoolValid(cmp, hs) && i < |hs| && j < |hs|
    modifies hs[i], hs[j]
    ensures PoolValid(cmp, hs)
    ensures ShapeStep(cmp, old(Shapes(hs)), Move(i, j), Shapes(hs), None, 0)
    ensures AllMade(hs) <= old(AllMade(hs))
  {
    if i == j {
      var g := hs[i];
      ghost var s, ms := Shapes(hs), Mades(hs);
      g.MoveFrom(g);
      assert Shapes(hs) == s && Mades(hs) == ms;
    } else {
      MoveTwo(cmp, hs, i, j);
    }
  }

  method MoveTwo<T(!new)>(cmp: (T, T) -> bool, hs: seq<PairingHeap<T>>, i: nat, j: nat)
    requires PoolValid(cmp, hs) && i < |hs| && j < |hs| && i != j
    modifies hs[i], hs[j]
    ensures PoolValid(cmp, hs)
    ensures Shapes(hs) == old(Shapes(hs))[i := old(hs[j].shape)][j := Leaf]
    ensures AllMade(hs) <= old(AllMade(hs))
  {
    var g, h := hs[i], hs[j];
    ghost var s, ms := Shapes(hs), Mades(hs);
    ApartAt(ms, i, j);
    g.MoveFrom(h);
    assert Shapes(hs) == s[i := g.shape][j := h.shape];
    assert Mades(hs) == ms[i := g.made][j := h.made];
    ApartMoved(ms, i, j, g.made, h.made);
  }

  ghost function PoolCells<T(!new)>(hs: seq<PairingHeap<T>>): set<Node<T>>
    reads hs
  {
    set h, n | h in hs && n in h.cells :: n
  }

  method Apply<T(!new)>(cmp: (T, T) -> bool, hs: seq<PairingHeap<T>>, op: Op<T>) returns (out: Option<T>, ghost links: nat)
    requires PoolValid(cmp, hs) && InRange(op, |hs|)
    modifies hs, PoolCells(hs)
    ensures PoolValid(cmp, hs)
    ensures ShapeStep(cmp, old(Shapes(hs)), op, Shapes(hs), out, links)
    ensures fresh(AllMade(hs) - old(AllMade(hs)))
  {
    out, links := None, 0;
    assert hs[op.i] in hs;
    match op {
      case Add(i, v) => links := ApplyAdd(cmp, hs, i, v);
      case Pop(i) => out, links := ApplyPop(cmp, hs, i);
      case Meld(i, j) =>
        assert hs[j] in hs;
        links := ApplyMeld(cmp, hs, i, j);
      case Clear(i) => ApplyClear(cmp, hs, i);
      case Move(i, j) =>
        assert hs[j] in hs;
        ApplyMove(cmp, hs, i, j);
    }
  }

  method NewPool<T(!new)>(cmp: (T, T) -> bool, k: nat) returns (hs: seq<PairingHeap<T>>)
    requires StrictWeakOrder(cmp)
    ensures PoolValid(cmp, hs) && |hs| == k && fresh(hs) && AllMade(hs) == {}
    ensures forall i :: 0 <= i < k ==> Shapes(hs)[i] == Leaf
  {
    hs := [];
    while |hs| < k
      invariant |hs| <= k && fresh(hs)
      invariant forall i :: 0 <= i < |hs| ==> hs[i].Valid() && hs[i].cmp == cmp && hs[i].shape == Leaf && hs[i].made == {}
      invariant forall i, j :: 0 <= i < j < |hs| ==> hs[i] != hs[j]
    {
      var h := new PairingHeap(cmp);
      hs := hs + [h];
    }
  }

  /** One more operation; `owned` holds all nodes the heaps have ever owned. */
  method Advance<T(!new)>(cmp: (T, T) -> bool, hs: seq<PairingHeap<T>>, op: Op<T>, outs: seq<Option<T>>,
                          ghost st: seq<seq<Heap<T>>>, ghost ops: seq<Op<T>>, ghost ls: seq<nat>, ghost owned: set<Node<T>>)
    returns (outs': seq<Option<T>>, ghost st': seq<seq<Heap<T>>>, ghost ls': seq<nat>, ghost owned': set<Node<T>>)
    requires PoolValid(cmp, hs) && InRange(op, |hs|) && ShapeRun(cmp, |hs|, st, ops, outs, ls) && st[|ops|] == Shapes(hs)
    requires AllMade(hs) <= owned
    modifies hs, PoolCells(hs)
    ensures PoolValid(cmp, hs)
    ensures AllMade(hs) <= owned' && PoolCells(hs) <= owned' && fresh(owned' - owned)
    ensures ShapeRun(cmp, |hs|, st', ops + [op], outs', ls')
    ensures st'[|ops| + 1] == Shapes(hs)
    ensures st'[0] == st[0]
  {
    var out;
    ghost var n;
    ghost var before := AllMade(hs);
    out, n := Apply(cmp, hs, op);
    RunExtend(cmp, |hs|, st, ops, outs, ls, op, Shapes(hs), out, n);
    outs', st', ls' := outs + [out], st + [Shapes(hs)], ls + [n];
    owned' := owned + (AllMade(hs) - before);
    PoolCellsMade(cmp, hs);
  }

  /** The operations `rest` after `done`: the pointers do what the shapes do, step by step. */
  method RunRest<T(!new)>(cmp: (T, T) -> bool, hs: seq<PairingHeap<T>>, rest: seq<Op<T>>, outs: seq<Option<T>>,
                          ghost st: seq<seq<Heap<T>>>, ghost done: seq<Op<T>>, ghost ls: seq<nat>, ghost owned: set<Node<T>>)
    returns (outs': seq<Option<T>>, ghost st': seq<seq<Heap<T>>>, ghost ls': seq<nat>)
    requires PoolValid(cmp, hs) && forall h :: 0 <= h < |rest| ==> InRange(rest[h], |hs|)
    requires ShapeRun(cmp, |hs|, st, done, outs, ls) && st[|done|] == Shapes(hs)
    requires AllMade(hs) <= owned && PoolCells(hs) <= owned
    modifies hs, owned
    ensures PoolValid(cmp, hs)
    ensures ShapeRun(cmp, |hs|, st', done + rest, outs', ls') && st'[|done + rest|] == Shapes(hs)
    ensures st'[0] == st[0]
    decreases rest
  {
    if rest == [] {
      assert done + rest == done;
      return outs, st, ls;
    }
    assert done + rest == done + [rest[0]] + rest[1..];
    ghost var owned';
    outs', st', ls', owned' := Advance(cmp, hs, rest[0], outs, st, done, ls, owned);
    outs', st', ls' := RunRest(cmp, hs, rest[1..], outs', st', done + [rest[0]], ls', owned');
  }

  method RunShapes<T(!new)>(cmp: (T, T) -> bool, k: nat, ops: seq<Op<T>>)
    returns (hs: seq<PairingHeap<T>>, outs: seq<Option<T>>, ghost st: seq<seq<Heap<T>>>, ghost ls: seq<nat>)
    requires StrictWeakOrder(cmp) && forall h :: 0 <= h < |ops| ==> InRange(ops[h], k)
    ensures |hs| == k && PoolValid(cmp, hs) && ShapeRun(cmp, k, st, ops, outs, ls)
    ensures st[|ops|] == Shapes(hs) && forall i :: 0 <= i < k ==> st[0][i] == Leaf
  {
    hs := NewPool(cmp, k);
    PoolCellsMade(cmp, hs);
    assert [] + ops == ops;
    outs, st, ls := RunRest(cmp, hs, ops, [], [Shapes(hs)], [], [], {});
  }

  /**
   Any run on `k` fresh heaps is a run of the multiset priority queues, and its
   links are bounded by the size and the number of the operations.
   */
  method Run<T(!new)>(cmp: (T, T) -> bool, k: nat, ops: seq<Op<T>>)
    returns (hs: seq<PairingHeap<T>>, outs: seq<Option<T>>, ghost st: seq<seq<Heap<T>>>, ghost ls: seq<nat>)
    requires StrictWeakOrder(cmp) && forall h :: 0 <= h < |ops| ==> InRange(ops[h], k)
    ensures |hs| == k && PoolValid(cmp, hs) && ShapeRun(cmp, k, st, ops, outs, ls)
    ensures st[|ops|] == Shapes(hs) && forall i :: 0 <= i < k ==> st[0][i] == Leaf
    ensures forall h :: 0 <= h < |ops| ==> SpecStep(cmp, Abstract(st[h]), ops[h], Abstract(st[h + 1]), outs[h])
    ensures Pow2(Sum(ls)) <= Factors(k, st, ops)
    ensures forall n: nat :: (forall h :: 0 <= h < |st| ==> AtMost(st[h], n)) ==>
      Pow2(Sum(ls)) <= Power(2 * (n * n), |ops|)
  {
    hs, outs, st, ls := RunShapes(cmp, k, ops);
    RunSteps(cmp, k, st, ops, outs, ls);
    RunBound(cmp, k, st, ops, outs, ls);
  }

  lemma RunSteps<T(!new)>(cmp: (T, T) -> bool, k: nat, st: seq<seq<Heap<T>>>, ops: seq<Op<T>>, outs: seq<Option<T>>, ls: seq<nat>)
    requires StrictWeakOrder(cmp) && ShapeRun(cmp, k, st, ops, outs, ls) && forall i :: 0 <= i < k ==> st[0][i] == Leaf
    requires forall h :: 0 <= h < |ops| ==> InRange(ops[h], k)
    ensures forall h :: 0 <= h < |ops| ==> SpecStep(cmp, Abstract(st[h]), ops[h], Abstract(st[h + 1]), outs[h])
  {
    LeafOrdered(cmp);
    assert AllOrderedHeaps(cmp, st[0]);
    forall h | 0 <= h < |ops| ensures SpecStep(cmp, Abstract(st[h]), ops[h], Abstract(st[h + 1]), outs[h]) {
      RunRefines(cmp, k, st, ops, outs, ls, h);
    }
  }

  lemma RunBound<T(!new)>(cmp: (T, T) -> bool, k: nat, st: seq<seq<Heap<T>>>, ops: seq<Op<T>>, outs: seq<Option<T>>, ls: seq<nat>)
    requires StrictWeakOrder(cmp) && ShapeRun(cmp, k, st, ops, outs, ls) && forall i :: 0 <= i < k ==> st[0][i] == Leaf
    requires forall h :: 0 <= h < |ops| ==> InRange(ops[h], k)
    ensures Pow2(Sum(ls)) <= Factors(k, st, ops)
    ensures forall n: nat :: (forall h :: 0 <= h < |st| ==> AtMost(st[h], n)) ==>
      Pow2(Sum(ls)) <= Power(2 * (n * n), |ops|)
  {
    AmortisedLinks(cmp, k, st, ops, outs, ls);
    forall n: nat | forall h :: 0 <= h < |st| ==> AtMost(st[h], n)
      ensures Pow2(Sum(ls)) <= Power(2 * (n * n), |ops|)
    {
      FactorsAtMost(k, st, ops, n);
    }
  }

  lemma PoolCellsMade<T(!new)>(cmp: (T, T) -> bool, hs: seq<PairingHeap<T>>)
    requires PoolValid(cmp, hs)
    ensures PoolCells(hs) <= AllMade(hs)
  {
    forall h, n | h in hs && n in h.cells ensures n in AllMade(hs) {
      var i :| 0 <= i < |hs| && hs[i] == h;
      assert hs[i].Valid() && Mades(hs)[i] in Mades(hs);
    }
  }

  lemma RunExtend<T(!new)>(cmp: (T, T) -> bool, k: nat, st: seq<seq<Heap<T>>>, ops: seq<Op<T>>, outs: seq<Option<T>>, ls: seq<nat>,
                           op: Op<T>, s: seq<Heap<T>>, out: Option<T>, n: nat)
    requires ShapeRun(cmp, k, st, ops, outs, ls) && InRange(op, k) && |s| == k
    requires ShapeStep(cmp, st[|ops|], op, s, out, n)
    ensures ShapeRun(cmp, k, st + [s], ops + [op], outs + [out], ls + [n])
  {
    var st', ops', outs', ls' := st + [s], ops + [op], outs + [out], ls + [n];
    forall h | 0 <= h < |ops'| ensures StepAt(cmp, k, st', ops', outs', ls', h) {
      if h < |ops| { assert StepAt(cmp, k, st, ops, outs, ls, h); }
    }
  }
}
