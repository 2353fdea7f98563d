/** Regrouping of concatenations, stated once so that proofs elsewhere stay small. */
module Seqs {
  lemma Assoc<X>(a: seq<X>, b: seq<X>, c: seq<X>)
    ensures a + b + c == a + (b + c)
  {
  }

  lemma Assoc4<X>(a: seq<X>, b: seq<X>, c: seq<X>, d: seq<X>)
    ensures a + b + c + d == a + (b + c + d)
  {
  }

  lemma Inner2<X>(a: seq<X>, b: seq<X>, c: seq<X>, d: seq<X>)
    ensures a + (b + c) + d == (a + b) + (c + d)
  {
  }

  lemma Inner3<X>(a: seq<X>, b: seq<X>, c: seq<X>, d: seq<X>, e: seq<X>)
    ensures a + (b + c + d) + e == (a + b) + c + (d + e)
    ensures a + (b + c + d) + e == a + b + (c + d + e) == a + b + c + d + e
  {
  }

  lemma Rotation<X>(a: seq<X>, x: seq<X>, b: seq<X>, y: seq<X>, d: seq<X>)
    ensures (a + x + b) + y + d == a + x + (b + y + d)
  {
  }

  lemma LastAlone<X>(a: seq<X>, b: seq<X>)
    requires |b| == 1
    ensures a + b == a + [b[0]] && a + [b[0]] + [] == a + b
  {
  }

  lemma TakeTwo<X>(s: seq<X>)
    requires |s| >= 2
    ensures s == [s[0], s[1]] + s[2..]
  {
  }

  lemma LastTwo<X>(s: seq<X>, i: nat, x: X)
    requires i < |s|
    ensures s[..i + 1] + [x] == s[..i] + [s[i], x] + [] && s[i..][1..] == s[i + 1..]
  {
  }

  lemma Padded<X>(s: seq<X>)
    ensures s + [] == s
  {
  }

  /** The sequence lists each member of the set once. */
  ghost predicate Once<X>(d: seq<X>, f: set<X>) {
    if d == [] then f == {} else
    var n := |d| - 1;
    d[n] in f && Once(d[..n], f - {d[n]})
  }

  lemma OnceMore<X>(d: seq<X>, f: set<X>, x: X)
    requires Once(d, f) && x !in f
    ensures Once(d + [x], f + {x})
  {
    var e := d + [x];
    assert e[..|e| - 1] == d && f + {x} - {x} == f;
  }

  lemma {:induction false} OnceAll<X>(d: seq<X>, f: set<X>, e: seq<X>, g: set<X>)
    requires Once(d, f) && Once(e, g) && f !! g
    ensures Once(d + e, f + g)
    decreases |e|
  {
    if e == [] {
      assert d + e == d && f + g == f;
    } else {
      var n := |e| - 1;
      var x := e[n];
      OnceAll(d, f, e[..n], g - {x});
      OnceMore(d + e[..n], f + (g - {x}), x);
      assert d + e[..n] + [x] == d + e && f + (g - {x}) + {x} == f + g;
    }
  }

  lemma {:induction false} OnceMeans<X>(d: seq<X>, f: set<X>)
    requires Once(d, f)
    ensures f == (set x | x in d) && forall i, j :: 0 <= i < j < |d| ==> d[i] != d[j]
    decreases |d|
  {
    if d != [] {
      var n := |d| - 1;
      OnceMeans(d[..n], f - {d[n]});
      assert d == d[..n] + [d[n]];
      assert f == (f - {d[n]}) + {d[n]};
      forall i, j | 0 <= i < j < |d| ensures d[i] != d[j] {
        assert d[..n][i] == d[i] && d[i] in f - {d[n]};
        assert j < n ==> d[..n][j] == d[j];
      }
    }
  }
}
