/** The amortised bound, carried over whole runs on several heaps. */
module PairCredit {
  import opened Orders
  import opened Powers
  import opened PairShape
  import opened PairPotential
  import opened PairingHeap
  import opened PairRuns

  /** The product of the potentials of all heaps. */
  function Credit<N>(s: seq<Tree<N>>): (c: nat)
    ensures c > 0
  {
    if s == [] then 1 else
      Positive(Potential(s[0]), Credit(s[1..]));
      Potential(s[0]) * Credit(s[1..])
  }

  /** The same without the heap at `i`. */
  function Others<N>(s: seq<Tree<N>>, i: nat): (c: nat)
    requires i < |s|
    ensures c > 0
  {
    if i == 0 then Credit(s[1..]) else
      Positive(Potential(s[0]), Others(s[1..], i - 1));
      Potential(s[0]) * Others(s[1..], i - 1)
  }

  lemma {:induction false} CreditSplit<N>(s: seq<Tree<N>>, i: nat, t: Tree<N>)
    requires i < |s|
    ensures Credit(s) == Potential(s[i]) * Others(s, i)
    ensures Credit(s[i := t]) == Potential(t) * Others(s, i)
    decreases i
  {
    var r := s[i := t];
    if i == 0 {
      assert r[1..] == s[1..];
    } else {
      CreditSplit(s[1..], i - 1, t);
      assert r[1..] == s[1..][i - 1 := t];
      Swap(Potential(s[0]), Potential(s[i]), Others(s[1..], i - 1));
      Swap(Potential(s[0]), Potential(t), Others(s[1..], i - 1));
    }
  }

  lemma Swap(a: nat, b: nat, c: nat)
    ensures a * (b * c) == b * (a * c)
  {
  }

  // ------------------------------------------------------------- one step

  lemma Scale(l: nat, p': nat, p: nat, o: nat, f: nat)
    requires l * p' <= f * p
    ensures l * (p' * o) <= f * (p * o)
  {
    MulLe(o, l * p', f * p);
    Regroup(l, p', o);
    Regroup(f, p, o);
  }

  lemma Regroup(a: nat, b: nat, c: nat)
    ensures a * (b * c) == c * (a * b)
  {
  }

  lemma Pow2Small(l: nat)
    requires l <= 1
    ensures 0 < Pow2(l) <= 2
  {
    assert Pow2(1) == 2 * Pow2(0) == 2;
  }

  /** What an operation multiplies the credit by at most: twice the size for an add, twice its square for a pop or meld. */
  function Factor<T>(s: seq<Heap<T>>, op: Op<T>, s': seq<Heap<T>>): nat
    requires InRange(op, |s|) && |s'| == |s|
  {
    match op
    case Add(i, _) => 2 * Size(s'[i])
    case Pop(i) => if s[i].Leaf? then 1 else 2 * (Size(s[i]) * Size(s[i]))
    case Meld(i, j) => if i == j || LinksOf(s[i], s[j]) == 0 then 1 else 2 * (Size(s'[i]) * Size(s'[i]))
    case Clear(_) => 1
    case Move(_, _) => 1
  }

  lemma AddCosts<T>(cmp: (T, T) -> bool, t: Heap<T>, v: T, r: Heap<T>, links: nat)
    requires (t.Tree? ==> Single(t)) && Added(cmp, t, v, r) && links <= 1
    ensures Pow2(links) * Potential(r) <= (2 * Size(r)) * Potential(t)
  {
    var z := AddedNode(cmp, t, v, r);
    AddCredit(cmp, t, z);
    Pow2Small(links);
    LinkArithmetic(Pow2(links), Potential(r), Size(r), Potential(t));
  }

  lemma LinkArithmetic(l: nat, r: nat, f: nat, p: nat)
    requires l <= 2 && r <= f * p
    ensures l * r <= (2 * f) * p
  {
    MulLe(r, l, 2);
    Commute(r, l);
    assert 2 * (f * p) == (2 * f) * p;
  }

  lemma MeldCosts<T>(cmp: (T, T) -> bool, a: Heap<T>, b: Heap<T>)
    requires Single(a) && Single(b)
    ensures var r := Joined(cmp, a, b);
      Pow2(1) * Potential(r) <= (2 * (Size(r) * Size(r))) * (Potential(a) * Potential(b))
  {
    var r := Joined(cmp, a, b);
    MeldCredit(cmp, a, b);
    Pow2Small(1);
    LinkArithmetic(Pow2(1), Potential(r), Size(r) * Size(r), Potential(a) * Potential(b));
  }

  /** A single heap replaced: what it costs there, it costs the pool. */
  lemma ReplaceCosts<N>(s: seq<Tree<N>>, i: nat, r: Tree<N>, links: nat, f: nat)
    requires i < |s| && Pow2(links) * Potential(r) <= f * Potential(s[i])
    ensures Pow2(links) * Credit(s[i := r]) <= f * Credit(s)
  {
    CreditSplit(s, i, r);
    Scale(Pow2(links), Potential(r), Potential(s[i]), Others(s, i), f);
  }

  /** Heap `j` emptied into what becomes heap `i`. */
  lemma MergeCosts<N>(s: seq<Tree<N>>, i: nat, j: nat, r: Tree<N>, links: nat, f: nat)
    requires i < |s| && j < |s| && i != j
    requires Pow2(links) * Potential(r) <= f * (Potential(s[i]) * Potential(s[j]))
    ensures Pow2(links) * Credit(s[i := r][j := Leaf]) <= f * Credit(s)
  {
    var o := MergeSplit(s, i, j, r);
    MergeScaled(Credit(s[i := r][j := Leaf]), Credit(s), Pow2(links), Potential(r), Potential(s[i]), Potential(s[j]), o, f);
  }

  lemma MergeSplit<N>(s: seq<Tree<N>>, i: nat, j: nat, r: Tree<N>) returns (o: nat)
    requires i < |s| && j < |s| && i != j
    ensures Credit(s[i := r][j := Leaf]) == Potential(r) * o
    ensures Credit(s) == Potential(s[j]) * (Potential(s[i]) * o)
  {
    var u := s[j := Leaf];
    assert s[i := r][j := Leaf] == u[i := r] && u[i] == s[i];
    CreditSplit(s, j, Leaf);
    CreditSplit(u, i, r);
    o := Others(u, i);
  }

  lemma MergeScaled(after: nat, before: nat, l: nat, r: nat, p: nat, q: nat, o: nat, f: nat)
    requires after == r * o && before == q * (p * o) && l * r <= f * (p * q)
    ensures l * after <= f * before
  {
    Scale(l, r, p * q, o, f);
    Merge3(p, q, o);
  }

  lemma Merge3(p: nat, q: nat, o: nat)
    ensures (p * q) * o == q * (p * o)
  {
  }

  /** The links of one operation, against the credit before and after it. */
  lemma StepCosts<T(!new)>(cmp: (T, T) -> bool, s: seq<Heap<T>>, op: Op<T>, s': seq<Heap<T>>, out: Option<T>, links: nat)
    requires InRange(op, |s|) && AllOrderedHeaps(cmp, s) && ShapeStep(cmp, s, op, s', out, links) && |s'| == |s|
    ensures Pow2(links) * Credit(s') <= Factor(s, op, s') * Credit(s)
  {
    var i := op.i;
    assert IsOrdered(cmp, s[i], Size(s[i]));
    match op {
      case Add(_, v) => AddStepCosts(cmp, s, i, v, s'[i], links);
      case Pop(_) => if s[i].Tree? { PopStepCosts(cmp, s, i); }
      case Meld(_, j) => MeldStepCosts(cmp, s, i, j, s', links);
      case Clear(_) => ReplaceCosts(s, i, Leaf, 0, 1);
      case Move(_, j) => MoveStepCosts(s, i, j);
    }
  }

  lemma AddStepCosts<T>(cmp: (T, T) -> bool, s: seq<Heap<T>>, i: nat, v: T, r: Heap<T>, links: nat)
    requires i < |s| && (s[i].Tree? ==> Single(s[i])) && Added(cmp, s[i], v, r) && links <= 1
    ensures Pow2(links) * Credit(s[i := r]) <= (2 * Size(r)) * Credit(s)
  {
    AddCosts(cmp, s[i], v, r, links);
    ReplaceCosts(s, i, r, links, 2 * Size(r));
  }

  lemma PopStepCosts<T>(cmp: (T, T) -> bool, s: seq<Heap<T>>, i: nat)
    requires i < |s| && Single(s[i])
    ensures Pow2(PopLinks(s[i])) * Credit(s[i := TwoPass(cmp, s[i].child)]) <= (2 * (Size(s[i]) * Size(s[i]))) * Credit(s)
  {
    PopPotential(cmp, s[i]);
    ReplaceCosts(s, i, TwoPass(cmp, s[i].child), PopLinks(s[i]), 2 * (Size(s[i]) * Size(s[i])));
  }

  lemma MeldStepCosts<T(!new)>(cmp: (T, T) -> bool, s: seq<Heap<T>>, i: nat, j: nat, s': seq<Heap<T>>, links: nat)
    requires i < |s| && j < |s| && AllOrderedHeaps(cmp, s) && ShapeStep(cmp, s, Meld(i, j), s', None, links) && |s'| == |s|
    ensures Pow2(links) * Credit(s') <= Factor(s, Meld(i, j), s') * Credit(s)
  {
    if i != j {
      assert IsOrdered(cmp, s[i], Size(s[i])) && IsOrdered(cmp, s[j], Size(s[j]));
      assert s'[i] == Joined(cmp, s[i], s[j]);
      if s[i].Tree? && s[j].Tree? { MeldBothCosts(cmp, s, i, j); } else { MeldOneCosts(cmp, s, i, j); }
    }
  }

  lemma MeldBothCosts<T>(cmp: (T, T) -> bool, s: seq<Heap<T>>, i: nat, j: nat)
    requires i < |s| && j < |s| && i != j && Single(s[i]) && Single(s[j])
    ensures var r := Joined(cmp, s[i], s[j]);
      Pow2(1) * Credit(s[i := r][j := Leaf]) <= (2 * (Size(r) * Size(r))) * Credit(s)
  {
    var r := Joined(cmp, s[i], s[j]);
    MeldCosts(cmp, s[i], s[j]);
    MergeCosts(s, i, j, r, 1, 2 * (Size(r) * Size(r)));
  }

  lemma MeldOneCosts<T>(cmp: (T, T) -> bool, s: seq<Heap<T>>, i: nat, j: nat)
    requires i < |s| && j < |s| && i != j && (s[i].Leaf? || s[j].Leaf?)
    ensures Pow2(0) * Credit(s[i := Joined(cmp, s[i], s[j])][j := Leaf]) <= 1 * Credit(s)
  {
    MergeCosts(s, i, j, Joined(cmp, s[i], s[j]), 0, 1);
  }

  lemma MoveStepCosts<N>(s: seq<Tree<N>>, i: nat, j: nat)
    requires i < |s| && j < |s|
    ensures Pow2(0) * Credit(if i == j then s else s[i := s[j]][j := Leaf]) <= 1 * Credit(s)
  {
    if i != j {
      MulLe(Potential(s[j]), 1, Potential(s[i]));
      Commute(Potential(s[j]), Potential(s[i]));
      MergeCosts(s, i, j, s[j], 0, 1);
    }
  }

  // ------------------------------------------------------------ whole runs

  function Sum(ls: seq<nat>): nat {
    if ls == [] then 0 else Sum(ls[..|ls| - 1]) + ls[|ls| - 1]
  }

  function Power(b: nat, k: nat): nat {
    if k == 0 then 1 else b * Power(b, k - 1)
  }

  /** A run of the pool: shapes before, between and after the operations, with what each cost and returned. */
  ghost predicate ShapeRun<T(!new)>(cmp: (T, T) -> bool, k: nat, st: seq<seq<Heap<T>>>, ops: seq<Op<T>>, outs: seq<Option<T>>, ls: seq<nat>) {
    && |st| == |ops| + 1 && |outs| == |ops| == |ls|
    && (forall h :: 0 <= h < |st| ==> |st[h]| == k)
    && (forall h :: 0 <= h < |ops| ==> StepAt(cmp, k, st, ops, outs, ls, h))
  }

  ghost predicate StepAt<T(!new)>(cmp: (T, T) -> bool, k: nat, st: seq<seq<Heap<T>>>, ops: seq<Op<T>>, outs: seq<Option<T>>, ls: seq<nat>, h: nat)
    requires |st| == |ops| + 1 && |outs| == |ops| == |ls| && h < |ops|
    requires forall h :: 0 <= h < |st| ==> |st[h]| == k
  {
    InRange(ops[h], k) && ShapeStep(cmp, st[h], ops[h], st[h + 1], outs[h], ls[h])
  }

  lemma RunPrefix<T(!new)>(cmp: (T, T) -> bool, k: nat, st: seq<seq<Heap<T>>>, ops: seq<Op<T>>, outs: seq<Option<T>>, ls: seq<nat>)
    requires ShapeRun(cmp, k, st, ops, outs, ls) && |ops| > 0
    ensures var m := |ops| - 1; ShapeRun(cmp, k, st[..m + 1], ops[..m], outs[..m], ls[..m])
  {
    var m := |ops| - 1;
    var st', ops', outs', ls' := st[..m + 1], ops[..m], outs[..m], ls[..m];
    forall h | 0 <= h < m ensures StepAt(cmp, k, st', ops', outs', ls', h) {
      assert StepAt(cmp, k, st, ops, outs, ls, h);
    }
  }

  /** Every heap of a run is ordered at every point, and every step of it is the plain multiset step. */
  lemma {:induction false} RunRefines<T(!new)>(cmp: (T, T) -> bool, k: nat, st: seq<seq<Heap<T>>>, ops: seq<Op<T>>, outs: seq<Option<T>>, ls: seq<nat>, h: nat)
    requires ShapeRun(cmp, k, st, ops, outs, ls) && AllOrderedHeaps(cmp, st[0]) && h <= |ops|
    ensures AllOrderedHeaps(cmp, st[h])
    ensures h < |ops| ==> InRange(ops[h], k) && SpecStep(cmp, Abstract(st[h]), ops[h], Abstract(st[h + 1]), outs[h])
    decreases h
  {
    if h > 0 {
      RunRefines(cmp, k, st, ops, outs, ls, h - 1);
      assert StepAt(cmp, k, st, ops, outs, ls, h - 1);
      ShapeRefines(cmp, st[h - 1], ops[h - 1], st[h], outs[h - 1], ls[h - 1]);
    }
    if h < |ops| {
      assert StepAt(cmp, k, st, ops, outs, ls, h);
      ShapeRefines(cmp, st[h], ops[h], st[h + 1], outs[h], ls[h]);
    }
  }

  /** The product of the factors of all operations. */
  function Factors<T>(k: nat, st: seq<seq<Heap<T>>>, ops: seq<Op<T>>): nat
    requires |st| == |ops| + 1 && (forall h :: 0 <= h < |st| ==> |st[h]| == k) && (forall h :: 0 <= h < |ops| ==> InRange(ops[h], k))
  {
    if ops == [] then 1 else
      var m := |ops| - 1;
      Factor(st[m], ops[m], st[m + 1]) * Factors(k, st[..m + 1], ops[..m])
  }

  /** Over any run: two to the number of links, times the credit left, is at most the product of the factors. */
  lemma {:induction false} RunCosts<T(!new)>(cmp: (T, T) -> bool, k: nat, st: seq<seq<Heap<T>>>, ops: seq<Op<T>>, outs: seq<Option<T>>, ls: seq<nat>)
    requires ShapeRun(cmp, k, st, ops, outs, ls) && AllOrderedHeaps(cmp, st[0])
    requires forall h :: 0 <= h < |ops| ==> InRange(ops[h], k)
    ensures Pow2(Sum(ls)) * Credit(st[|ops|]) <= Factors(k, st, ops) * Credit(st[0])
    decreases |ops|
  {
    if |ops| > 0 {
      var m := |ops| - 1;
      var f := Factor(st[m], ops[m], st[m + 1]);
      RunPrefix(cmp, k, st, ops, outs, ls);
      RunCosts(cmp, k, st[..m + 1], ops[..m], outs[..m], ls[..m]);
      RunRefines(cmp, k, st, ops, outs, ls, m);
      assert StepAt(cmp, k, st, ops, outs, ls, m);
      StepCosts(cmp, st[m], ops[m], st[m + 1], outs[m], ls[m]);
      Pow2Sum(Sum(ls[..m]), ls[m]);
      Chain(Pow2(Sum(ls[..m])), Pow2(ls[m]), Credit(st[m + 1]), Credit(st[m]), Credit(st[0]), f, Factors(k, st[..m + 1], ops[..m]));
    }
  }

  lemma Chain(a: nat, b: nat, c2: nat, c1: nat, c0: nat, f: nat, p: nat)
    requires a * c1 <= p * c0 && b * c2 <= f * c1
    ensures (a * b) * c2 <= (f * p) * c0
  {
    calc {
      (a * b) * c2;
    == { Assoc3(a, b, c2); }
      a * (b * c2);
    <= { MulLe(a, b * c2, f * c1); }
      a * (f * c1);
    == { Swap(a, f, c1); }
      f * (a * c1);
    <= { MulLe(f, a * c1, p * c0); }
      f * (p * c0);
    == { Assoc3(f, p, c0); }
      (f * p) * c0;
    }
  }

  lemma Assoc3(a: nat, b: nat, c: nat)
    ensures (a * b) * c == a * (b * c)
  {
  }

  lemma {:induction false} EmptyCredit<N>(s: seq<Tree<N>>)
    requires forall i :: 0 <= i < |s| ==> s[i] == Leaf
    ensures Credit(s) == 1
  {
    if s != [] { EmptyCredit(s[1..]); }
  }

  /** From empty heaps: the links of a run are at most the sum of the logarithms of the factors of its operations. */
  lemma AmortisedLinks<T(!new)>(cmp: (T, T) -> bool, k: nat, st: seq<seq<Heap<T>>>, ops: seq<Op<T>>, outs: seq<Option<T>>, ls: seq<nat>)
    requires StrictWeakOrder(cmp) && ShapeRun(cmp, k, st, ops, outs, ls)
    requires forall i :: 0 <= i < k ==> st[0][i] == Leaf
    requires forall h :: 0 <= h < |ops| ==> InRange(ops[h], k)
    ensures Pow2(Sum(ls)) <= Factors(k, st, ops)
  {
    LeafOrdered(cmp);
    EmptyCredit(st[0]);
    RunCosts(cmp, k, st, ops, outs, ls);
    MulLe(Pow2(Sum(ls)), 1, Credit(st[|ops|]));
  }

  // ------------------------------------------------------- heaps of bounded size

  /** No heap of the pool holds more than `n` values. */
  ghost predicate AtMost<N>(s: seq<Tree<N>>, n: nat) {
    n > 0 && forall i :: 0 <= i < |s| ==> Size(s[i]) <= n
  }

  lemma FactorAtMost<T>(s: seq<Heap<T>>, op: Op<T>, s': seq<Heap<T>>, n: nat)
    requires InRange(op, |s|) && |s'| == |s| && AtMost(s, n) && AtMost(s', n)
    ensures Factor(s, op, s') <= 2 * (n * n)
  {
    MulLe(n, 1, n);
    SquareLe(Size(s[op.i]), n);
    SquareLe(Size(s'[op.i]), n);
  }

  lemma SquareLe(a: nat, n: nat)
    requires a <= n
    ensures a * a <= n * n
  {
    MulLe(a, a, n);
    MulLe(n, a, n);
    Commute(a, n);
  }

  lemma {:induction false} FactorsAtMost<T>(k: nat, st: seq<seq<Heap<T>>>, ops: seq<Op<T>>, n: nat)
    requires |st| == |ops| + 1 && (forall h :: 0 <= h < |st| ==> |st[h]| == k) && (forall h :: 0 <= h < |ops| ==> InRange(ops[h], k))
    requires forall h :: 0 <= h < |st| ==> AtMost(st[h], n)
    ensures Factors(k, st, ops) <= Power(2 * (n * n), |ops|)
    decreases |ops|
  {
    if ops != [] {
      var m, f := |ops| - 1, 2 * (n * n);
      assert AtMost(st[m], n) && AtMost(st[m + 1], n);
      FactorAtMost(st[m], ops[m], st[m + 1], n);
      FactorsAtMost(k, st[..m + 1], ops[..m], n);
      ProductLe(Factor(st[m], ops[m], st[m + 1]), f, Factors(k, st[..m + 1], ops[..m]), Power(f, m));
    }
  }

  lemma ProductLe(a: nat, b: nat, c: nat, d: nat)
    requires a <= b && c <= d
    ensures a * c <= b * d
  {
    MulLe(a, c, d);
    MulLe(d, a, b);
    Commute(d, a);
    Commute(d, b);
  }
}
