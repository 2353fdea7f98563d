/** Search order: where a value can be in a strictly ascending tree. */
module RBSearch {
  import opened Orders
  import opened Seqs
  import opened RBShape
  import opened RBLinks

  function Values<T>(ns: seq<Node<T>>): seq<T> {
    seq(|ns|, i requires 0 <= i < |ns| => ns[i].value)
  }

  ghost predicate Ascending<T>(cmp: (T, T) -> bool, ns: seq<Node<T>>) {
    forall i, j :: 0 <= i < j < |ns| ==> cmp(ns[i].value, ns[j].value)
  }

  /** How many nodes a search for `v` compares it with. */
  function Visited<T>(cmp: (T, T) -> bool, t: Tree<Node<T>>, v: T): nat {
    match t
    case Leaf => 0
    case Tree(n, _, l, r) =>
      1 + if cmp(v, n.value) then Visited(cmp, l, v) else if cmp(n.value, v) then Visited(cmp, r, v) else 0
  }

  /** `v` belongs into the hole of `c`: after everything before it, before everything after it. */
  ghost predicate Belongs<T>(cmp: (T, T) -> bool, c: Ctx<Node<T>>, v: T) {
    && (forall n :: n in Before(c) ==> cmp(n.value, v))
    && (forall n :: n in After(c) ==> cmp(v, n.value))
  }

  lemma StepLeft<T(!new)>(cmp: (T, T) -> bool, c: Ctx<Node<T>>, t: Tree<Node<T>>, v: T)
    requires StrictWeakOrder(cmp) && Ascending(cmp, InOrder(Plug(c, t))) && Belongs(cmp, c, v)
    requires t.Tree? && cmp(v, t.node.value)
    ensures Belongs(cmp, InLeft(t.node, t.color, t.right, c), v)
  {
    InOrderPlug(c, t);
    var all := Before(c) + (InOrder(t.left) + [t.node] + InOrder(t.right)) + After(c);
    var k := |Before(c)| + |InOrder(t.left)|;
    assert all[k] == t.node;
    forall n | n in InOrder(t.right) ensures cmp(v, n.value) {
      var i :| 0 <= i < |InOrder(t.right)| && InOrder(t.right)[i] == n;
      assert all[k + 1 + i] == n;
    }
  }

  lemma StepRight<T(!new)>(cmp: (T, T) -> bool, c: Ctx<Node<T>>, t: Tree<Node<T>>, v: T)
    requires StrictWeakOrder(cmp) && Ascending(cmp, InOrder(Plug(c, t))) && Belongs(cmp, c, v)
    requires t.Tree? && cmp(t.node.value, v)
    ensures Belongs(cmp, InRight(t.node, t.color, t.left, c), v)
  {
    InOrderPlug(c, t);
    var all := Before(c) + (InOrder(t.left) + [t.node] + InOrder(t.right)) + After(c);
    var k := |Before(c)| + |InOrder(t.left)|;
    assert all[k] == t.node;
    forall n | n in InOrder(t.left) ensures cmp(n.value, v) {
      var i :| 0 <= i < |InOrder(t.left)| && InOrder(t.left)[i] == n;
      assert all[|Before(c)| + i] == n;
    }
  }

  /** The comparison that tells a new node which side of its parent it goes to. */
  lemma SideToHang<T(!new)>(cmp: (T, T) -> bool, c: Ctx<Node<T>>, v: T)
    requires StrictWeakOrder(cmp) && Belongs(cmp, c, v)
    ensures c.InLeft? ==> cmp(v, c.node.value)
    ensures c.InRight? ==> !cmp(v, c.node.value)
  {
    assert c.InLeft? ==> c.node in After(c);
    assert c.InRight? ==> c.node in Before(c);
  }

  /** An empty hole where `v` belongs: nothing in the tree is equivalent to `v`. */
  lemma NotFound<T>(cmp: (T, T) -> bool, c: Ctx<Node<T>>, v: T)
    requires Belongs(cmp, c, v)
    ensures forall n :: n in InOrder(Plug(c, Leaf)) ==> !Equivalent(cmp, n.value, v)
  {
    InOrderPlug(c, Leaf);
  }

  /** The listing with a node of value `v` put into the hole is still ascending. */
  lemma AscendingInserted<T>(cmp: (T, T) -> bool, c: Ctx<Node<T>>, z: Node<T>, col: Color)
    requires Belongs(cmp, c, z.value) && Ascending(cmp, InOrder(Plug(c, Leaf)))
    ensures InOrder(Plug(c, Leaf)) == Before(c) + After(c)
    ensures InOrder(Plug(c, Tree(z, col, Leaf, Leaf))) == Before(c) + [z] + After(c)
    ensures Ascending(cmp, Before(c) + [z] + After(c))
  {
    InOrderPlug(c, Leaf);
    assert Before(c) + [] + After(c) == Before(c) + After(c);
    InOrderPlug(c, Tree(z, col, Leaf, Leaf));
    assert [] + [z] + [] == [z];
    AscendingWith(cmp, Before(c), z, After(c));
  }

  lemma AscendingWith<T>(cmp: (T, T) -> bool, p: seq<Node<T>>, z: Node<T>, q: seq<Node<T>>)
    requires Ascending(cmp, p + q)
    requires forall n :: n in p ==> cmp(n.value, z.value)
    requires forall n :: n in q ==> cmp(z.value, n.value)
    ensures Ascending(cmp, p + [z] + q)
  {
    var s := p + [z] + q;
    forall i, j | 0 <= i < j < |s| ensures cmp(s[i].value, s[j].value) {
      var i', j' := if i <= |p| then i else i - 1, if j <= |p| then j else j - 1;
      if i != |p| && j != |p| {
        assert (p + q)[i'] == s[i] && (p + q)[j'] == s[j];
      } else if i == |p| {
        assert s[j] == q[j - |p| - 1];
      } else {
        assert s[i] == p[i];
      }
    }
  }

  lemma AscendingWithout<T>(cmp: (T, T) -> bool, p: seq<Node<T>>, z: Node<T>, q: seq<Node<T>>)
    requires Ascending(cmp, p + [z] + q)
    ensures Ascending(cmp, p + q)
    ensures forall n :: n in p ==> cmp(n.value, z.value)
    ensures forall n :: n in q ==> cmp(z.value, n.value)
  {
    var s := p + [z] + q;
    assert s[|p|] == z;
    forall i, j | 0 <= i < j < |p + q| ensures cmp((p + q)[i].value, (p + q)[j].value) {
      var i', j' := if i < |p| then i else i + 1, if j < |p| then j else j + 1;
      assert s[i'] == (p + q)[i] && s[j'] == (p + q)[j];
    }
    forall n | n in q ensures cmp(z.value, n.value) {
      var i :| 0 <= i < |q| && q[i] == n;
      assert s[|p| + 1 + i] == n;
    }
    forall n | n in p ensures cmp(n.value, z.value) {
      var i :| 0 <= i < |p| && p[i] == n;
      assert s[i] == n;
    }
  }

  lemma SomeMember<T(!new)>(t: seq<T>)
    ensures t == [] || exists x :: x in t
  {
    if t != [] { assert t[0] in t; }
  }

  /** A set of values has at most one strictly ascending listing. */
  lemma {:induction false} ListingUnique<T(!new)>(cmp: (T, T) -> bool, s: seq<T>, t: seq<T>)
    requires StrictWeakOrder(cmp) && StrictlyAscending(cmp, s) && StrictlyAscending(cmp, t)
    requires forall x :: x in s <==> x in t
    ensures s == t
    decreases |s|
  {
    if s == [] {
      SomeMember(t);
    } else {
      assert s[0] in t && t[0] in s;
      FirstIsLeast(cmp, s, t[0]);
      FirstIsLeast(cmp, t, s[0]);
      assert s[0] == t[0];
      TailMembers(cmp, s);
      TailMembers(cmp, t);
      ListingUnique(cmp, s[1..], t[1..]);
      assert s == [s[0]] + s[1..] && t == [t[0]] + t[1..];
    }
  }

  lemma FirstIsLeast<T>(cmp: (T, T) -> bool, s: seq<T>, x: T)
    requires StrictlyAscending(cmp, s) && x in s
    ensures x == s[0] || cmp(s[0], x)
  {
  }

  lemma TailMembers<T(!new)>(cmp: (T, T) -> bool, s: seq<T>)
    requires StrictWeakOrder(cmp) && StrictlyAscending(cmp, s) && s != []
    ensures forall x :: x in s[1..] <==> x in s && x != s[0]
    ensures StrictlyAscending(cmp, s[1..])
  {
    forall x ensures x in s[1..] <==> x in s && x != s[0] {
      if x in s[1..] {
        var i :| 0 <= i < |s[1..]| && s[1..][i] == x;
        assert cmp(s[0], s[i + 1]);
      }
    }
  }

  /** Exactly one stored value is equivalent to `v` when one is. */
  lemma OthersDiffer<T(!new)>(cmp: (T, T) -> bool, p: seq<Node<T>>, z: Node<T>, q: seq<Node<T>>, v: T)
    requires StrictWeakOrder(cmp) && Ascending(cmp, p + [z] + q) && Equivalent(cmp, z.value, v)
    ensures forall n :: n in p + q ==> !Equivalent(cmp, n.value, v)
  {
    AscendingWithout(cmp, p, z, q);
    forall n | n in p + q ensures !Equivalent(cmp, n.value, v) {
      if n in p { assert cmp(n.value, z.value); } else { assert cmp(z.value, n.value); }
    }
  }

  function Reversed<X>(s: seq<X>): seq<X> {
    if s == [] then [] else Reversed(s[1..]) + [s[0]]
  }

  lemma {:induction false} ReversedConcat<X>(a: seq<X>, b: seq<X>)
    ensures Reversed(a + b) == Reversed(b) + Reversed(a)
    decreases a
  {
    if a == [] {
      assert [] + b == b;
    } else {
      assert (a + b)[1..] == a[1..] + b;
      ReversedConcat(a[1..], b);
    }
  }

  lemma {:induction false} ReversedTwice<X>(s: seq<X>)
    ensures Reversed(Reversed(s)) == s
    ensures |Reversed(s)| == |s|
    ensures forall x :: x in Reversed(s) <==> x in s
    decreases s
  {
    if s != [] {
      ReversedTwice(s[1..]);
      ReversedConcat(Reversed(s[1..]), [s[0]]);
      assert Reversed([s[0]]) == [s[0]];
      assert s == [s[0]] + s[1..];
    }
  }

  lemma ListedParts<T>(l: seq<Node<T>>, n: Node<T>, r: seq<Node<T>>)
    ensures Values(l + [n] + r) == Values(l) + [n.value] + Values(r)
    ensures Reversed(Values(l + [n] + r)) == Reversed(Values(r)) + [n.value] + Reversed(Values(l))
  {
    assert Values(l + [n] + r) == Values(l) + [n.value] + Values(r);
    ReversedConcat(Values(l) + [n.value], Values(r));
    ReversedConcat(Values(l), [n.value]);
    assert Reversed([n.value]) == [n.value];
    Assoc(Reversed(Values(r)), [n.value], Reversed(Values(l)));
  }
}
