/** The array-backed binary heap. */
module BinaryHeap {
  import opened Orders
  import opened Powers
  import opened HeapShape

  class BinaryHeap<T(!new)> {
    var data: seq<T>
    const cmp: (T, T) -> bool
    ghost var swaps: nat   // exchanges performed so far

    ghost predicate Valid()
      reads this
    {
      StrictWeakOrder(cmp) && IsHeap(cmp, data)
    }

    ghost function Contents(): multiset<T>
      reads this`data
    {
      multiset(data)
    }

    constructor (cmp: (T, T) -> bool)
      requires StrictWeakOrder(cmp)
      ensures Valid() && data == [] && this.cmp == cmp && swaps == 0
    {
      this.cmp := cmp;
      data, swaps := [], 0;
    }

    /** Exchanges position `i` with its parent, after the exchanges `es` since the values were `s`. */
    method Exchange(i: nat, ghost s: seq<T>, ghost es: seq<nat>)
      requires 0 < i < |data| && cmp(data[i], data[Parent(i)]) && Moved(cmp, s, data, es)
      modifies this`data, this`swaps
      ensures data == Swapped(old(data), i, Parent(i)) == Swapped(old(data), Parent(i), i) && swaps == old(swaps) + 1
      ensures multiset(data) == old(multiset(data)) && Moved(cmp, s, data, es + [i])
    {
      MoveOne(cmp, s, data, es, i);
      SwappedSame(data, i, Parent(i));
      data := Swapped(data, i, Parent(i));
      swaps := swaps + 1;
    }

    /** Repairs a heap in which only `i0` may be too far down, in at most log2(i0 + 1) exchanges. */
    method SiftUp(i0: nat) returns (ghost es: seq<nat>)
      requires StrictWeakOrder(cmp) && i0 < |data| && HeapButUp(cmp, data, i0)
      modifies this`data, this`swaps
      ensures IsHeap(cmp, data)
      ensures multiset(data) == old(multiset(data))
      ensures swaps == old(swaps) + |es| && Pow2(|es|) <= i0 + 1 && Moved(cmp, old(data), data, es)
    {
      var i := i0;
      es := [];
      while i > 0
        invariant 0 <= i < |data| && HeapButUp(cmp, data, i)
        invariant multiset(data) == old(multiset(data))
        invariant swaps == old(swaps) + |es| && |es| + Depth(i) <= Depth(i0) && Moved(cmp, old(data), data, es)
      {
        var p := Parent(i);
        if !cmp(data[i], data[p]) {
          UpDone(i);
          break;
        }
        StepUp(cmp, data, i);
        Exchange(i, old(data), es);
        i, es := p, es + [i];
      }
      UpCost(|es|, i0);
    }

    lemma UpDone(i: nat)
      requires 0 < i < |data| && HeapButUp(cmp, data, i) && !cmp(data[i], data[Parent(i)])
      ensures IsHeap(cmp, data)
    {
      forall k | 0 < k < |data| ensures EdgeOk(cmp, data, k) {
        if k != i { assert EdgeOk(cmp, data, k); }
      }
    }

    /** The position `i` or the child of it whose value comes first. */
    method FirstBelow(i: nat) returns (best: nat)
      requires StrictWeakOrder(cmp) && i < |data|
      ensures best < |data| && (best != i ==> i < best && Parent(best) == i && cmp(data[best], data[i]))
      ensures forall k :: 0 < k < |data| && Parent(k) == i ==> !cmp(data[k], data[best])
    {
      var l, r, n := Left(i), Right(i), |data|;
      best := i;
      if l < n && cmp(data[l], data[best]) {
        best := l;
      }
      if r < n && cmp(data[r], data[best]) {
        best := r;
      }
      ChildrenAfter(cmp, data, i, best);
    }

    static lemma HeightBelow(n: nat, i: nat, best: nat)
      requires i < best < n && Parent(best) == i
      ensures Height(n, best) < Height(n, i)
    {
      HeightMonotone(n, Left(i), best);
    }

    /** Repairs a heap in which only `i0` may be too far up, in at most as many exchanges as `i0` is high. */
    method SiftDown(i0: nat, ghost lo: nat) returns (ghost es: seq<nat>)
      requires StrictWeakOrder(cmp) && lo <= i0 < |data| && HeapButDown(cmp, data, lo, i0)
      modifies this`data, this`swaps
      ensures HeapFrom(cmp, data, lo) && |data| == old(|data|)
      ensures multiset(data) == old(multiset(data))
      ensures swaps == old(swaps) + |es| && |es| <= Height(|data|, i0) && Moved(cmp, old(data), data, es)
    {
      var i := i0;
      var n := |data|;
      es := [];
      while true
        invariant lo <= i < n == |data| && HeapButDown(cmp, data, lo, i)
        invariant multiset(data) == old(multiset(data))
        invariant swaps == old(swaps) + |es| && |es| + Height(n, i) <= Height(n, i0) && Moved(cmp, old(data), data, es)
        decreases n - i
      {
        var best := SinkOne(i, lo, old(data), es);
        if best == i {
          break;
        }
        i, es := best, es + [best];
      }
    }

    /** Exchanges `i` with the child that comes first, unless no child precedes it. */
    method SinkOne(i: nat, ghost lo: nat, ghost s: seq<T>, ghost es: seq<nat>) returns (best: nat)
      requires StrictWeakOrder(cmp) && lo <= i < |data| && HeapButDown(cmp, data, lo, i) && Moved(cmp, s, data, es)
      modifies this`data, this`swaps
      ensures |data| == old(|data|) && multiset(data) == old(multiset(data))
      ensures best == i ==> HeapFrom(cmp, data, lo) && data == old(data) && swaps == old(swaps)
      ensures best != i ==> i < best < |data| && HeapButDown(cmp, data, lo, best) && Height(|data|, best) < Height(|data|, i)
      ensures best != i ==> swaps == old(swaps) + 1 && Moved(cmp, s, data, es + [best])
    {
      best := FirstBelow(i);
      if best == i {
        SiftedDown(cmp, data, lo, i);
      } else {
        StepDown(cmp, data, lo, i, best);
        HeightBelow(|data|, i, best);
        Exchange(best, s, es);
      }
    }

    /** What the two comparisons pick: no child precedes it. */
    static lemma ChildrenAfter(cmp: (T, T) -> bool, s: seq<T>, i: nat, best: nat)
      requires StrictWeakOrder(cmp) && i < |s|
      requires best == (var b := if Left(i) < |s| && cmp(s[Left(i)], s[i]) then Left(i) else i;
                        if Right(i) < |s| && cmp(s[Right(i)], s[b]) then Right(i) else b)
      ensures best < |s| && (best != i ==> Parent(best) == i && cmp(s[best], s[i]))
      ensures forall k :: 0 < k < |s| && Parent(k) == i ==> !cmp(s[k], s[best])
    {
      forall k | 0 < k < |s| && Parent(k) == i ensures !cmp(s[k], s[best]) {
        assert k == Left(i) || k == Right(i);
      }
    }

    method Add(value: T)
      requires Valid()
      modifies this`data, this`swaps
      ensures Valid() && Contents() == old(Contents()) + multiset{value}
      ensures |data| == old(|data|) + 1
      ensures swaps >= old(swaps) && Pow2(swaps - old(swaps)) <= |data|
      ensures Exchanged(cmp, old(data) + [value], data, swaps - old(swaps))
    {
      ghost var s := data;
      data := data + [value];
      forall i | 0 < i < |data| && i != |s| ensures EdgeOk(cmp, data, i) {
        assert EdgeOk(cmp, s, i);
      }
      ghost var es := SiftUp(|data| - 1);
      assert |multiset(data)| == |data|;
    }

    method Top() returns (v: T)
      requires Valid() && data != []
      ensures First(cmp, v, Contents())
    {
      v := data[0];
      RootIsFirst(cmp, data);
    }

    method Pop() returns (out: Option<T>)
      requires Valid()
      modifies this`data, this`swaps
      ensures Valid() && (out.None? <==> old(data) == [])
      ensures out.None? ==> data == old(data) && swaps == old(swaps)
      ensures out.Some? ==> First(cmp, out.value, old(Contents()))
      ensures out.Some? ==> Contents() == old(Contents()) - multiset{out.value}
      ensures out.Some? ==> |data| == old(|data|) - 1
      ensures swaps >= old(swaps) && (data != [] ==> Pow2(swaps - old(swaps)) <= |data|)
      ensures data != [] ==>
        var n := |data|; Exchanged(cmp, old(data)[0 := old(data)[n]][..n], data, swaps - old(swaps))
    {
      if data == [] {
        return None;
      }
      RootIsFirst(cmp, data);
      out := Some(data[0]);
      if |data| == 1 {
        data := [];
        return;
      }
      ghost var s := data;
      data := data[0 := data[|data| - 1]];
      data := data[..|data| - 1];
      LastToRoot(s, data);
      RootChanged(cmp, s, data);
      SiftRoot();
    }

    /** Repairs a heap in which only the root may be too far up. */
    method SiftRoot()
      requires StrictWeakOrder(cmp) && data != [] && HeapButDown(cmp, data, 0, 0)
      modifies this`data, this`swaps
      ensures IsHeap(cmp, data) && |data| == old(|data|) && multiset(data) == old(multiset(data))
      ensures swaps >= old(swaps) && Pow2(swaps - old(swaps)) <= |data|
      ensures Exchanged(cmp, old(data), data, swaps - old(swaps))
    {
      ghost var es := SiftDown(0, 0);
      DownCost(|es|, |data|);
    }

    static lemma LastToRoot(s: seq<T>, r: seq<T>)
      requires |s| > 1 && r == s[0 := s[|s| - 1]][..|s| - 1]
      ensures multiset(r) == multiset(s) - multiset{s[0]}
    {
      var n := |s| - 1;
      assert s == [s[0]] + s[1..n] + [s[n]];
      assert r == [s[n]] + s[1..n];
    }

    /** Exchanges the first value for `value`; does nothing on an empty heap. */
    method ReplaceTop(value: T) returns (ok: bool)
      requires Valid()
      modifies this`data, this`swaps
      ensures Valid() && (ok <==> old(data) != []) && |data| == old(|data|)
      ensures !ok ==> data == old(data) && swaps == old(swaps)
      ensures ok ==> First(cmp, old(data)[0], old(Contents()))
      ensures ok ==> Contents() == old(Contents()) - multiset{old(data)[0]} + multiset{value}
      ensures swaps >= old(swaps) && (ok ==> Pow2(swaps - old(swaps)) <= |data|)
      ensures ok ==> Exchanged(cmp, old(data)[0 := value], data, swaps - old(swaps))
    {
      if data == [] {
        return false;
      }
      RootIsFirst(cmp, data);
      ghost var s := data;
      data := data[0 := value];
      RootChanged(cmp, s, data);
      RootReplaced(s, value);
      SiftRoot();
      ok := true;
    }

    static lemma RootReplaced(s: seq<T>, value: T)
      requires s != []
      ensures multiset(s[0 := value]) == multiset(s) - multiset{s[0]} + multiset{value}
    {
      assert s == [s[0]] + s[1..] && s[0 := value] == [value] + s[1..];
    }

    /** Replaces the contents by `values`, in fewer exchanges than there are values. */
    method Build(values: seq<T>)
      requires StrictWeakOrder(cmp)
      modifies this`data, this`swaps
      ensures Valid() && Contents() == multiset(values) && |data| == |values|
      ensures old(swaps) <= swaps && swaps - old(swaps) + Ones(|values|) <= |values|
      ensures values != [] ==> swaps - old(swaps) < |values|
      ensures Exchanged(cmp, values, data, swaps - old(swaps))
    {
      data := [];
      for i := 0 to |values|
        invariant data == values[..i] && swaps == old(swaps)
      {
        data := data + [values[i]];
      }
      assert data == values;
      ghost var es := Heapify();
      if values != [] { OnesPositive(|values|); }
    }

    /** Sifts down every inner position, the last one first. */
    method Heapify() returns (ghost es: seq<nat>)
      requires StrictWeakOrder(cmp)
      modifies this`data, this`swaps
      ensures IsHeap(cmp, data) && multiset(data) == old(multiset(data)) && |data| == old(|data|)
      ensures swaps == old(swaps) + |es| && |es| + Ones(|data|) <= |data| && Moved(cmp, old(data), data, es)
    {
      es := [];
      if data == [] {
        return;
      }
      var n := |data|;
      var i := n / 2;
      ghost var most := SumHeights(n, i);
      SumOfHeights(n);
      while i > 0
        invariant 0 <= i < n == |data| && HeapFrom(cmp, data, i)
        invariant multiset(data) == old(multiset(data))
        invariant swaps == old(swaps) + |es| && |es| + SumHeights(n, i) <= most && Moved(cmp, old(data), data, es)
      {
        i := i - 1;
        es := SiftNext(i, old(data), es);
      }
    }

    /** Sifts down position `i`, all later ones being in order, after the exchanges `es` since the values were `s`. */
    method SiftNext(i: nat, ghost s: seq<T>, ghost es: seq<nat>) returns (ghost es': seq<nat>)
      requires StrictWeakOrder(cmp) && i < |data| && HeapFrom(cmp, data, i + 1) && Moved(cmp, s, data, es)
      modifies this`data, this`swaps
      ensures HeapFrom(cmp, data, i) && multiset(data) == old(multiset(data)) && |data| == old(|data|)
      ensures swaps == old(swaps) + |es'| - |es| && |es'| <= |es| + Height(|data|, i) && Moved(cmp, s, data, es')
    {
      ghost var fs := SiftDown(i, i);
      MoveOn(cmp, s, old(data), data, es, fs);
      es' := es + fs;
    }
  }
}
