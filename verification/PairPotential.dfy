/**
 The amortised cost of the two-pass pairing.  The usual potential, the sum of
 the logarithms of all subtree sizes in the child/sibling binary view, is kept
 here without logarithms: as the product of those sizes.
 */
module PairPotential {
  import opened PairShape
  import opened Powers

  function Potential<N>(t: Tree<N>): (p: nat)
    ensures p > 0
  {
    if t.Leaf? then 1 else
      Positive(Potential(t.child), Potential(t.sibling));
      Positive(Size(t), Potential(t.child) * Potential(t.sibling));
      Size(t) * (Potential(t.child) * Potential(t.sibling))
  }

  lemma Positive(a: nat, b: nat)
    requires a > 0 && b > 0
    ensures a * b > 0
  {
  }

  lemma MulLe(k: nat, a: nat, b: nat)
    requires a <= b
    ensures k * a <= k * b
  {
  }

  lemma SinglePotential<N>(t: Tree<N>)
    requires Single(t)
    ensures Potential(t) == Size(t) * Potential(t.child)
  {
  }

  // -------------------------------------------- lists of single trees

  function ListSize<N>(ss: seq<Tree<N>>): nat {
    if ss == [] then 0 else Size(ss[0]) + ListSize(ss[1..])
  }

  /** The potential of the list with its trees chained as siblings. */
  ghost function ListPotential<N>(ss: seq<Tree<N>>): nat
    requires AllSingle(ss)
  {
    if ss == [] then 1 else ListSize(ss) * (Potential(ss[0].child) * ListPotential(ss[1..]))
  }

  lemma {:induction false} SinglesPotential<N>(t: Tree<N>)
    ensures ListSize(Singles(t)) == Size(t) && ListPotential(Singles(t)) == Potential(t)
  {
    if t.Tree? {
      SinglesPotential(t.sibling);
      var ss := Singles(t);
      assert ss[0] == Tree(t.node, t.child, Leaf) && ss[1..] == Singles(t.sibling);
      assert ListSize(ss) == Size(ss[0]) + ListSize(ss[1..]) == Size(t);
    }
  }

  /** What melding two trees makes of size and potential, whichever of them wins. */
  lemma MeldPotential<T>(cmp: (T, T) -> bool, a: Heap<T>, b: Heap<T>)
    requires Single(a) && Single(b)
    ensures var r := Joined(cmp, a, b);
      && Single(r) && Size(r) == Size(a) + Size(b) && Size(r.child) == Size(r) - 1
      && Potential(r.child) == Size(r.child) * (Potential(a.child) * Potential(b.child))
  {
    Commute(Potential(a.child), Potential(b.child));
  }

  lemma {:induction false} PairUpSize<T>(cmp: (T, T) -> bool, ss: seq<Heap<T>>)
    requires AllSingle(ss)
    ensures AllSingle(PairUp(cmp, ss)) && ListSize(PairUp(cmp, ss)) == ListSize(ss)
    decreases |ss|
  {
    if |ss| >= 2 {
      MeldPotential(cmp, ss[0], ss[1]);
      PairUpSize(cmp, ss[2..]);
      assert ss[1..][1..] == ss[2..];
      assert PairUp(cmp, ss)[1..] == PairUp(cmp, ss[2..]);
    }
  }

  // ------------------------------------------------------- the first pass

  lemma PairArithmetic(s: nat, c: nat, n: nat)
    requires s + c <= n
    ensures 4 * s * c <= n * n
  {
    var d := s - c;
    assert (s + c) * (s + c) == 4 * s * c + d * d;
    assert d * d >= 0;
    assert (s + c) * (s + c) <= n * n by {
      MulLe(s + c, s + c, n);
      MulLe(n, s + c, n);
    }
  }

  lemma PairStepCore(x: nat, rest: nat, s: nat, c: nat, d: nat, n: nat)
    requires x <= (c * c) * rest && s + c <= n && c <= d
    ensures (4 * s) * x <= (n * n) * (d * rest)
  {
    calc {
      (4 * s) * x;
    <= { MulLe(4 * s, x, (c * c) * rest); }
      (4 * s) * ((c * c) * rest);
    == { Shuffle1(s, c, rest); }
      (c * rest) * (4 * s * c);
    <= { PairArithmetic(s, c, n); MulLe(c * rest, 4 * s * c, n * n); }
      (c * rest) * (n * n);
    == { Commute(c * rest, n * n); }
      (n * n) * (c * rest);
    <= { MulLe(rest, c, d); Commute(rest, c); Commute(rest, d); MulLe(n * n, c * rest, d * rest); }
      (n * n) * (d * rest);
    }
  }

  lemma Commute(a: nat, b: nat)
    ensures a * b == b * a
  {
  }

  lemma Shuffle1(s: nat, c: nat, rest: nat)
    ensures (4 * s) * ((c * c) * rest) == (c * rest) * (4 * s * c)
  {
  }

  /** Linking a pair in front of a rest of size `c >= 1` pays for itself up to the ratio of the squared sizes. */
  lemma PairStep(q: nat, rest': nat, rest: nat, s: nat, c: nat, d: nat, n: nat, k: nat, after: nat, before: nat)
    requires q * rest' <= (c * c) * rest && s + c <= n && c <= d
    requires after == n * (s * k * rest') && before == n * (d * k * rest)
    ensures (4 * q) * after <= (n * n) * before
  {
    PairStepCore(q * rest', rest, s, c, d, n);
    MulLe(n * k, (4 * s) * (q * rest'), (n * n) * (d * rest));
    Shuffle2(q, n, s, k, rest');
    Shuffle3(n, d, k, rest);
  }

  lemma Shuffle2(q: nat, n: nat, s: nat, k: nat, r: nat)
    ensures (4 * q) * (n * (s * k * r)) == (n * k) * ((4 * s) * (q * r))
  {
  }

  lemma Shuffle3(n: nat, d: nat, k: nat, r: nat)
    ensures (n * n) * (n * (d * k * r)) == (n * k) * ((n * n) * (d * r))
  {
  }

  /** Two trees in front of a list, measured before and after melding them. */
  lemma PairMeasured<T>(cmp: (T, T) -> bool, ss: seq<Heap<T>>)
    requires AllSingle(ss) && |ss| >= 2
    ensures AllSingle(PairUp(cmp, ss[2..])) && AllSingle(PairUp(cmp, ss)) && Single(Joined(cmp, ss[0], ss[1]))
    ensures ListSize(ss) == Size(ss[0]) + Size(ss[1]) + ListSize(ss[2..])
    ensures ListSize(ss[1..]) == Size(ss[1]) + ListSize(ss[2..])
    ensures Size(Joined(cmp, ss[0], ss[1]).child) == Size(ss[0]) + Size(ss[1]) - 1
    ensures var k := Potential(ss[0].child) * Potential(ss[1].child);
      && ListPotential(ss) == ListSize(ss) * (ListSize(ss[1..]) * k * ListPotential(ss[2..]))
      && ListPotential(PairUp(cmp, ss)) ==
         ListSize(ss) * (Size(Joined(cmp, ss[0], ss[1]).child) * k * ListPotential(PairUp(cmp, ss[2..])))
  {
    var rest := ss[2..];
    assert ss[1..][1..] == rest;
    assert ss[1..][0] == ss[1];
    Shuffle4(Potential(ss[0].child), ListSize(ss[1..]), Potential(ss[1].child), ListPotential(rest));
    PairUpSize(cmp, ss);
    PairUpSize(cmp, rest);
    MeldPotential(cmp, ss[0], ss[1]);
    var ps := PairUp(cmp, ss);
    assert ps[0] == Joined(cmp, ss[0], ss[1]) && ps[1..] == PairUp(cmp, rest);
  }

  lemma Shuffle4(p: nat, d: nat, q: nat, r: nat)
    ensures p * (d * (q * r)) == d * (p * q) * r
  {
  }

  /** The first pass: every two trees linked double the credit twice, at the price of the squared size of the list. */
  lemma {:induction false} PairUpPotential<T>(cmp: (T, T) -> bool, ss: seq<Heap<T>>)
    requires AllSingle(ss) && |ss| > 0
    ensures AllSingle(PairUp(cmp, ss))
    ensures Pow2(2 * ((|ss| - 1) / 2)) * ListPotential(PairUp(cmp, ss))
         <= (ListSize(ss) * ListSize(ss)) * ListPotential(ss)
    decreases |ss|
  {
    PairUpSize(cmp, ss);
    if |ss| == 1 {
      AloneArithmetic(ListSize(ss), ListPotential(ss));
    } else {
      PairMeasured(cmp, ss);
      var rest := ss[2..];
      var k := Potential(ss[0].child) * Potential(ss[1].child);
      var s, d, n := Size(Joined(cmp, ss[0], ss[1]).child), ListSize(ss[1..]), ListSize(ss);
      if rest == [] {
        LastPair(s, d, n, k, ListPotential(PairUp(cmp, ss)), ListPotential(ss));
      } else {
        PairUpPotential(cmp, rest);
        TwoMore(|rest|);
        PairStep(Pow2(2 * ((|rest| - 1) / 2)), ListPotential(PairUp(cmp, rest)), ListPotential(rest),
          s, ListSize(rest), d, n, k, ListPotential(PairUp(cmp, ss)), ListPotential(ss));
      }
    }
  }

  lemma AloneArithmetic(n: nat, x: nat)
    requires n >= 1
    ensures 1 * x <= (n * n) * x
  {
    MulLe(n, 1, n);
    MulLe(x, 1, n * n);
    Commute(x, n * n);
  }

  lemma TwoMore(k: nat)
    requires k > 0
    ensures Pow2(2 * ((k + 2 - 1) / 2)) == 4 * Pow2(2 * ((k - 1) / 2))
  {
    assert (k + 2 - 1) / 2 == (k - 1) / 2 + 1;
  }

  lemma LastPair(s: nat, d: nat, n: nat, k: nat, after: nat, before: nat)
    requires s <= n && d >= 1 && after == n * (s * k * 1) && before == n * (d * k * 1)
    ensures 1 * after <= (n * n) * before
  {
    MulLe(k, s, n);
    Commute(k, s);
    Commute(k, n);
    MulLe(k, 1, d);
    Commute(k, d);
    MulLe(n, k, d * k);
    MulLe(n, s * k, n * (d * k));
    if n > 0 { MulLe(n * before, 1, n); }
    Shuffle7(n, before);
    Commute(n * before, n);
  }

  // ------------------------------------------------------ the second pass

  /** Melding a whole list costs no credit beyond the factor for the new root. */
  lemma {:induction false} MeldAllPotential<T>(cmp: (T, T) -> bool, ss: seq<Heap<T>>)
    requires AllSingle(ss) && |ss| > 0
    ensures var r := MeldAll(cmp, ss);
      Single(r) && Size(r) == ListSize(ss) && Potential(r.child) <= ListPotential(ss)
  {
    var n := ListSize(ss);
    if |ss| == 1 {
      assert ss[1..] == [];
      assert ListPotential(ss) == n * (Potential(ss[0].child) * 1);
      MulLe(Potential(ss[0].child), 1, n);
      Commute(Potential(ss[0].child), n);
    } else {
      var rest := ss[1..];
      MeldAllPotential(cmp, rest);
      var r := MeldAll(cmp, rest);
      MeldPotential(cmp, ss[0], r);
      RaiseArithmetic(n, Size(MeldAll(cmp, ss).child), Potential(ss[0].child), Potential(r.child), ListPotential(rest));
    }
  }

  lemma RaiseArithmetic(n: nat, s: nat, p: nat, q: nat, rest: nat)
    requires s <= n && q <= rest
    ensures s * (p * q) <= n * (p * rest)
  {
    MulLe(p, q, rest);
    MulLe(s, p * q, p * rest);
    MulLe(p * rest, s, n);
    Commute(p * rest, s);
    Commute(p * rest, n);
  }

  // --------------------------------------------------------- operations

  function Children<N>(t: Tree<N>): nat {
    if t.Leaf? then 0 else |Singles(t.child)|
  }

  /** The number of links a pop performs: one less than the root has children. */
  function PopLinks<N>(t: Tree<N>): nat {
    if Children(t) == 0 then 0 else Children(t) - 1
  }

  /** Links of the whole pop, against the credit before and after. */
  lemma PopPotential<T>(cmp: (T, T) -> bool, t: Heap<T>)
    requires Single(t)
    ensures Size(TwoPass(cmp, t.child)) == Size(t) - 1
    ensures Pow2(PopLinks(t)) * Potential(TwoPass(cmp, t.child)) <= 2 * (Size(t) * Size(t)) * Potential(t)
  {
    if t.child.Leaf? {
      PopOnly(t);
    } else {
      PopMany(cmp, t);
    }
  }

  lemma PopOnly<N>(t: Tree<N>)
    requires t.Tree? && t.child.Leaf? && t.sibling.Leaf?
    ensures Size(t) == 1 && PopLinks(t) == 0 && Potential(t) == 1
  {
    assert Singles(t.child) == [];
  }

  /** Both passes together, for a list of `k` trees. */
  lemma PassesPotential<T>(cmp: (T, T) -> bool, t: Heap<T>)
    requires t.Tree?
    ensures var r := TwoPass(cmp, t);
      && Single(r) && Size(r) == Size(t)
      && Pow2(2 * ((|Singles(t)| - 1) / 2)) * Potential(r.child) <= (Size(t) * Size(t)) * Potential(t)
  {
    var ss := Singles(t);
    var ps := PairUp(cmp, ss);
    SinglesPotential(t);
    PairUpSize(cmp, ss);
    PairUpPotential(cmp, ss);
    MeldAllPotential(cmp, ps);
    MulLe(Pow2(2 * ((|ss| - 1) / 2)), Potential(MeldAll(cmp, ps).child), ListPotential(ps));
  }

  lemma PopMany<T>(cmp: (T, T) -> bool, t: Heap<T>)
    requires Single(t) && t.child.Tree?
    ensures Size(TwoPass(cmp, t.child)) == Size(t) - 1
    ensures Pow2(PopLinks(t)) * Potential(TwoPass(cmp, t.child)) <= 2 * (Size(t) * Size(t)) * Potential(t)
  {
    var q, x := PassesNumbers(cmp, t.child);
    SinglePotential(t);
    PopArithmetic(Pow2(PopLinks(t)), q, Size(t.child), Size(t), x, Potential(t.child),
      Potential(TwoPass(cmp, t.child)), Potential(t));
  }

  lemma PassesNumbers<T>(cmp: (T, T) -> bool, t: Heap<T>) returns (q: nat, x: nat)
    requires t.Tree?
    ensures Size(TwoPass(cmp, t)) == Size(t) && Potential(TwoPass(cmp, t)) == Size(t) * x
    ensures |Singles(t)| > 0 && Pow2(|Singles(t)| - 1) <= 2 * q && q * x <= (Size(t) * Size(t)) * Potential(t)
  {
    PassesPotential(cmp, t);
    LinksPower(|Singles(t)|);
    SinglePotential(TwoPass(cmp, t));
    q, x := Pow2(2 * ((|Singles(t)| - 1) / 2)), Potential(TwoPass(cmp, t).child);
  }

  lemma LinksPower(k: nat)
    requires k > 0
    ensures Pow2(k - 1) <= 2 * Pow2(2 * ((k - 1) / 2))
  {
    Pow2Monotone(k - 1, 2 * ((k - 1) / 2) + 1);
  }

  lemma PopArithmetic(l: nat, q: nat, m: nat, n: nat, r: nat, t: nat, after: nat, before: nat)
    requires l <= 2 * q && m <= n && q * r <= (m * m) * t && after == m * r && before == n * t
    ensures l * after <= 2 * (n * n) * before
  {
    calc {
      l * (m * r);
    <= { MulLe(m * r, l, 2 * q); Commute(m * r, l); Commute(m * r, 2 * q); }
      (2 * q) * (m * r);
    == { Shuffle5(q, m, r); }
      (2 * m) * (q * r);
    <= { MulLe(2 * m, q * r, (m * m) * t); }
      (2 * m) * ((m * m) * t);
    <= { MulLe(m, m, n); MulLe(n, m, n); Commute(m, n); MulLe(t, m * m, n * n); Commute(t, m * m); Commute(t, n * n);
         MulLe(2 * m, (m * m) * t, (n * n) * t); }
      (2 * m) * ((n * n) * t);
    <= { MulLe((n * n) * t, 2 * m, 2 * n); Commute((n * n) * t, 2 * m); Commute((n * n) * t, 2 * n); }
      (2 * n) * ((n * n) * t);
    == { Shuffle6(n, t); }
      2 * (n * n) * (n * t);
    }
  }

  lemma Shuffle5(q: nat, m: nat, p: nat)
    ensures (2 * q) * (m * p) == (2 * m) * (q * p)
  {
  }

  lemma Shuffle6(n: nat, t: nat)
    ensures (2 * n) * ((n * n) * t) == 2 * (n * n) * (n * t)
  {
  }

  /** Melding two heaps multiplies the credit by less than the squared size. */
  lemma MeldCredit<T>(cmp: (T, T) -> bool, a: Heap<T>, b: Heap<T>)
    requires Single(a) && Single(b)
    ensures var r := Joined(cmp, a, b);
      Size(r) == Size(a) + Size(b) && Potential(r) <= (Size(r) * Size(r)) * (Potential(a) * Potential(b))
  {
    MeldPotential(cmp, a, b);
    var r := Joined(cmp, a, b);
    SinglePotential(a);
    SinglePotential(b);
    SinglePotential(r);
    CreditArithmetic(Size(r), Size(r.child), Size(a), Size(b), Potential(a.child), Potential(b.child),
      Potential(a), Potential(b), Potential(r.child), Potential(r));
  }

  lemma CreditArithmetic(n: nat, m: nat, x: nat, y: nat, p: nat, q: nat, a: nat, b: nat, c: nat, r: nat)
    requires m <= n && x >= 1 && y >= 1 && a == x * p && b == y * q && c == m * (p * q) && r == n * c
    ensures r <= (n * n) * (a * b)
  {
    MulLe(p, 1, x);
    Commute(p, x);
    MulLe(q, 1, y);
    Commute(q, y);
    MulLe(p, q, b);
    MulLe(b, p, a);
    Commute(b, p);
    Commute(b, a);
    MulLe(m, p * q, a * b);
    MulLe(a * b, m, n);
    Commute(a * b, m);
    Commute(a * b, n);
    MulLe(n, c, n * (a * b));
    Shuffle7(n, a * b);
  }

  lemma Shuffle7(n: nat, x: nat)
    ensures n * (n * x) == (n * n) * x
  {
  }

  /** Adding one value multiplies the credit by exactly the new size. */
  lemma AddCredit<T>(cmp: (T, T) -> bool, a: Heap<T>, z: Node<T>)
    requires a.Tree? ==> Single(a)
    ensures var r := Joined(cmp, a, Tree(z, Leaf, Leaf));
      Size(r) == Size(a) + 1 && Potential(r) == Size(r) * Potential(a)
  {
    var b := Tree(z, Leaf, Leaf);
    if a.Tree? {
      MeldPotential(cmp, a, b);
      var r := Joined(cmp, a, b);
      assert Potential(r) == Size(r) * (Potential(r.child) * 1);
      assert Potential(a) == Size(a) * (Potential(a.child) * 1);
    }
  }
}
