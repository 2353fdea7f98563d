/** Array heaps: the index arithmetic, the order, and the heights of the implicit complete tree. */
module HeapShape {
  import opened Orders
  import opened Powers

  function Parent(i: nat): nat
    requires i > 0
  {
    (i - 1) / 2
  }

  function Left(i: nat): nat { 2 * i + 1 }

  function Right(i: nat): nat { 2 * i + 2 }

  /** The edge above `i` is in order: `i` does not precede its parent. */
  predicate EdgeOk<T>(cmp: (T, T) -> bool, s: seq<T>, i: nat)
    requires 0 < i < |s|
  {
    !cmp(s[i], s[Parent(i)])
  }

  /** Every edge below a position from `lo` on is in order. */
  ghost predicate HeapFrom<T>(cmp: (T, T) -> bool, s: seq<T>, lo: nat) {
    forall i :: 0 < i < |s| && Parent(i) >= lo ==> EdgeOk(cmp, s, i)
  }

  ghost predicate IsHeap<T>(cmp: (T, T) -> bool, s: seq<T>) {
    HeapFrom(cmp, s, 0)
  }

  /** As `HeapFrom`, but `k` may be too far up: it may come after its children, which respect its parent. */
  ghost predicate HeapButDown<T>(cmp: (T, T) -> bool, s: seq<T>, lo: nat, k: nat) {
    && (forall i :: 0 < i < |s| && Parent(i) >= lo && Parent(i) != k ==> EdgeOk(cmp, s, i))
    && (forall i :: 0 < i < |s| && Parent(i) == k && k > 0 && Parent(k) >= lo ==> !cmp(s[i], s[Parent(k)]))
  }

  /** A heap, but `k` may be too far down: it may precede its parent, which its children respect. */
  ghost predicate HeapButUp<T>(cmp: (T, T) -> bool, s: seq<T>, k: nat) {
    && (forall i :: 0 < i < |s| && i != k ==> EdgeOk(cmp, s, i))
    && (forall i :: 0 < i < |s| && Parent(i) == k && 0 < k < |s| ==> !cmp(s[i], s[Parent(k)]))
  }

  /** A heap whose root was exchanged, and which may have been cut short, is a heap but for its root. */
  lemma RootChanged<T>(cmp: (T, T) -> bool, s: seq<T>, r: seq<T>)
    requires IsHeap(cmp, s) && |r| <= |s| && forall k :: 0 < k < |r| ==> r[k] == s[k]
    ensures HeapButDown(cmp, r, 0, 0)
  {
    forall i | 0 < i < |r| && Parent(i) > 0 ensures EdgeOk(cmp, r, i) {
      assert EdgeOk(cmp, s, i);
    }
  }

  function Swapped<T>(s: seq<T>, i: nat, j: nat): (r: seq<T>)
    requires i < |s| && j < |s|
  {
    s[i := s[j]][j := s[i]]
  }

  /** `r` results from `s` by exchanges, each moving a value up from a position in `es` over its parent's, which it precedes. */
  ghost predicate Moved<T>(cmp: (T, T) -> bool, s: seq<T>, r: seq<T>, es: seq<nat>)
    decreases |es|
  {
    if es == [] then r == s
    else
      var n := |es| - 1;
      var i := es[n];
      0 < i < |r| && cmp(r[Parent(i)], r[i]) && Moved(cmp, s, Swapped(r, i, Parent(i)), es[..n])
  }

  /** `r` results from `s` by `n` such exchanges. */
  ghost predicate Exchanged<T>(cmp: (T, T) -> bool, s: seq<T>, r: seq<T>, n: nat) {
    exists es: seq<nat> :: |es| == n && Moved(cmp, s, r, es)
  }

  lemma MoveOne<T>(cmp: (T, T) -> bool, s: seq<T>, q: seq<T>, es: seq<nat>, i: nat)
    requires Moved(cmp, s, q, es) && 0 < i < |q| && cmp(q[i], q[Parent(i)])
    ensures Moved(cmp, s, Swapped(q, i, Parent(i)), es + [i])
    ensures Swapped(q, Parent(i), i) == Swapped(q, i, Parent(i))
  {
    var r, fs := Swapped(q, i, Parent(i)), es + [i];
    assert Swapped(r, i, Parent(i)) == q && fs[..|fs| - 1] == es;
  }

  lemma {:induction false} MoveOn<T>(cmp: (T, T) -> bool, s: seq<T>, q: seq<T>, r: seq<T>, es: seq<nat>, fs: seq<nat>)
    requires Moved(cmp, s, q, es) && Moved(cmp, q, r, fs)
    ensures Moved(cmp, s, r, es + fs)
    decreases |fs|
  {
    if fs == [] {
      assert es + fs == es;
    } else {
      var n := |fs| - 1;
      var i := fs[n];
      MoveOn(cmp, s, q, Swapped(r, i, Parent(i)), es, fs[..n]);
      assert (es + fs)[..|es + fs| - 1] == es + fs[..n];
    }
  }

  lemma SwappedSame<T>(s: seq<T>, i: nat, j: nat)
    requires i < |s| && j < |s|
    ensures multiset(Swapped(s, i, j)) == multiset(s)
  {
  }

  /** The root of a heap is first. */
  lemma {:induction false} RootBefore<T(!new)>(cmp: (T, T) -> bool, s: seq<T>, i: nat)
    requires StrictWeakOrder(cmp) && IsHeap(cmp, s) && i < |s|
    ensures !cmp(s[i], s[0])
    decreases i
  {
    if i > 0 {
      assert EdgeOk(cmp, s, i);
      RootBefore(cmp, s, Parent(i));
    }
  }

  lemma RootIsFirst<T(!new)>(cmp: (T, T) -> bool, s: seq<T>)
    requires StrictWeakOrder(cmp) && IsHeap(cmp, s) && s != []
    ensures First(cmp, s[0], multiset(s))
  {
    assert s[0] in s;
    forall x | x in multiset(s) ensures !cmp(x, s[0]) {
      var i :| 0 <= i < |s| && s[i] == x;
      RootBefore(cmp, s, i);
    }
  }

  // ---------------------------------------------------------------- sifting

  /** One step up: the fault moves to the parent. */
  lemma StepUp<T(!new)>(cmp: (T, T) -> bool, s: seq<T>, k: nat)
    requires StrictWeakOrder(cmp) && 0 < k < |s| && HeapButUp(cmp, s, k) && cmp(s[k], s[Parent(k)])
    ensures HeapButUp(cmp, Swapped(s, k, Parent(k)), Parent(k))
  {
    var p, r := Parent(k), Swapped(s, k, Parent(k));
    forall i | 0 < i < |r| && i != p ensures EdgeOk(cmp, r, i) {
      assert i != k ==> EdgeOk(cmp, s, i);
    }
    forall i | 0 < i < |r| && Parent(i) == p && 0 < p < |r| ensures !cmp(r[i], r[Parent(p)]) {
      assert EdgeOk(cmp, s, p);
      assert i != k ==> EdgeOk(cmp, s, i);
    }
  }

  /** One step down, exchanging `k` with a child `b` that no child precedes: the fault moves to `b`. */
  lemma StepDown<T(!new)>(cmp: (T, T) -> bool, s: seq<T>, lo: nat, k: nat, b: nat)
    requires StrictWeakOrder(cmp) && lo <= k < b < |s| && Parent(b) == k && HeapButDown(cmp, s, lo, k)
    requires cmp(s[b], s[k])
    requires forall i :: 0 < i < |s| && Parent(i) == k ==> !cmp(s[i], s[b])
    ensures HeapButDown(cmp, Swapped(s, k, b), lo, b)
  {
    var r := Swapped(s, k, b);
    forall i | 0 < i < |r| && Parent(i) >= lo && Parent(i) != b ensures EdgeOk(cmp, r, i) {
      if Parent(i) != k { assert EdgeOk(cmp, s, i); }
    }
    forall i | 0 < i < |r| && Parent(i) == b ensures !cmp(r[i], r[Parent(b)]) {
      assert EdgeOk(cmp, s, i);
    }
  }

  lemma SiftedDown<T(!new)>(cmp: (T, T) -> bool, s: seq<T>, lo: nat, k: nat)
    requires HeapButDown(cmp, s, lo, k)
    requires forall i :: 0 < i < |s| && Parent(i) == k ==> !cmp(s[i], s[k])
    ensures HeapFrom(cmp, s, lo)
  {
    forall i | 0 < i < |s| && Parent(i) >= lo ensures EdgeOk(cmp, s, i) {
      if Parent(i) != k { assert EdgeOk(cmp, s, i); }
    }
  }

  // ---------------------------------------------------------------- heights

  /** The number of steps from `i` up to the root. */
  function Depth(i: nat): nat {
    if i == 0 then 0 else 1 + Depth(Parent(i))
  }

  lemma {:induction false} DepthLog(i: nat)
    ensures Pow2(Depth(i)) <= i + 1
  {
    if i > 0 { DepthLog(Parent(i)); }
  }

  lemma UpCost(k: nat, i: nat)
    requires k <= Depth(i)
    ensures Pow2(k) <= i + 1
  {
    DepthLog(i);
    Pow2Monotone(k, Depth(i));
  }

  /** The height of position `i` in the complete tree of `n` positions. */
  function Height(n: nat, i: nat): nat
    decreases n - i
  {
    if Left(i) < n then 1 + Height(n, Left(i)) else 0
  }

  lemma {:induction false} HeightMonotone(n: nat, i: nat, j: nat)
    requires i <= j
    ensures Height(n, j) <= Height(n, i)
    decreases n - j
  {
    if Left(j) < n { HeightMonotone(n, Left(i), Left(j)); }
  }

  lemma {:induction false} HeightLog(n: nat, i: nat)
    requires i < n
    ensures Pow2(Height(n, i)) * (i + 1) <= n
    decreases n - i
  {
    if Left(i) < n {
      HeightLog(n, Left(i));
      var h := Pow2(Height(n, Left(i)));
      assert (2 * h) * (i + 1) == h * (Left(i) + 1);
    }
  }

  lemma DownCost(k: nat, n: nat)
    requires n > 0 && k <= Height(n, 0)
    ensures Pow2(k) <= n
  {
    HeightLog(n, 0);
    Pow2Monotone(k, Height(n, 0));
  }

  lemma {:induction false} HeightHalf(n: nat, i: nat)
    ensures Height(n, Left(i)) == Height(n / 2, i)
    decreases n - i
  {
    if Left(i) < n / 2 { HeightHalf(n, Left(i)); }
  }

  function SumHeights(n: nat, k: nat): nat {
    if k == 0 then 0 else SumHeights(n, k - 1) + Height(n, k - 1)
  }

  /** The number of ones in the binary representation. */
  function Ones(n: nat): nat {
    if n == 0 then 0 else n % 2 + Ones(n / 2)
  }

  lemma {:induction false} OnesPositive(n: nat)
    requires n > 0
    ensures 1 <= Ones(n) <= n
  {
    if n > 1 { OnesPositive(n / 2); }
  }

  lemma {:induction false} SumHeightsHalf(n: nat, k: nat)
    requires k <= n / 2
    ensures SumHeights(n, k) == k + SumHeights(n / 2, k)
    decreases k
  {
    if k > 0 {
      SumHeightsHalf(n, k - 1);
      HeightHalf(n, k - 1);
    }
  }

  lemma {:induction false} SumLeaves(n: nat, k: nat)
    requires n / 2 <= k
    ensures SumHeights(n, k) == SumHeights(n, n / 2)
    decreases k
  {
    if k > n / 2 { SumLeaves(n, k - 1); }
  }

  /** The heights of all positions add up to `n` less the number of ones in `n`. */
  lemma {:induction false} SumOfHeights(n: nat)
    ensures SumHeights(n, n / 2) + Ones(n) == n
  {
    if n > 0 {
      SumHeightsHalf(n, n / 2);
      SumOfHeights(n / 2);
      SumLeaves(n / 2, n / 2);
    }
  }
}
