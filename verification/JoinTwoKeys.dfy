/**
 Joins on two integer keys: which rows are taken for a match by their mixed
 hashes, and when the join is exact all the same.
 */
module JoinTwoKeys {
  import opened Orders
  import opened HashKeys
  import opened HashMix
  import opened JoinSpec
  import opened JoinTruth
  import opened JoinExact
  import opened JoinOneKey

  datatype TwoKeys = TwoKeys(a: Option<int>, b: Option<int>)

  function Keys<R>(f: R -> TwoKeys): R -> seq<Option<int>> {
    r => [f(r).a, f(r).b]
  }

  function TwoKeyPlan<O, I>(kind: Kind, outerKeys: O -> TwoKeys, innerKeys: I -> TwoKeys, qual: (O, I) -> bool): Plan<O, I> {
    KeyPlan(kind, Keys(outerKeys), Keys(innerKeys), WordHash, qual)
  }

  ghost function TwoKeyEquality<O, I>(outerKeys: O -> TwoKeys, innerKeys: I -> TwoKeys, qual: (O, I) -> bool): (O, I) -> bool {
    KeyEquality(Equal, Keys(outerKeys), Keys(innerKeys), qual)
  }

  predicate IsInt64(x: Option<int>) {
    x.Some? ==> -0x8000_0000_0000_0000 <= x.value < 0x8000_0000_0000_0000
  }

  ghost predicate BothInt64<R>(f: R -> TwoKeys, rs: seq<R>) {
    forall k :: 0 <= k < |rs| ==> IsInt64(f(rs[k]).a) && IsInt64(f(rs[k]).b)
  }

  predicate Whole(x: TwoKeys) {
    x.a.Some? && x.b.Some?
  }

  // ------------------------------------------------------- hashes of two keys

  function Salted(d: int): nat { (d + SALT) % WORD }

  /** The hash an inner row is filed under: of both keys, of the one that is not NULL, or 0. */
  function Filed(y: TwoKeys): nat {
    if Whole(y) then Mix(Salted(y.a.value), WordHash(y.b.value))
    else if y.a.Some? then Salted(y.a.value)
    else if y.b.Some? then Salted(y.b.value)
    else 0
  }

  function Signed(w: nat): int {
    if w < 0x8000_0000_0000_0000 then w else w - WORD
  }

  lemma SignedWord(d: int, w: nat)
    requires IsInt64(Some(d)) && w < WORD
    ensures WordHash(d) == w <==> d == Signed(w)
  {
  }

  lemma SaltedWord(d: int)
    ensures (WordHash(d) + SALT) % WORD == Salted(d)
  {
  }

  lemma SaltedHash(x: Option<int>)
    ensures BuildHash(WordHash, [x]) == if x.None? then 0 else Salted(x.value)
  {
    OneKeyHash(WordHash, x);
    if x.Some? { SaltedWord(x.value); }
  }

  lemma AddKey(x: Option<int>, y: Option<int>)
    ensures BuildHash(WordHash, [x, y]) ==
      if y.None? then BuildHash(WordHash, [x]) else Mix(BuildHash(WordHash, [x]), WordHash(y.value))
  {
    assert [x, y][..1] == [x];
  }

  /** The one second key that, beside the first key `d`, is looked up where `y` is filed. */
  function Rival(d: int, y: TwoKeys): int {
    Signed(Unmix(Salted(d), Filed(y)))
  }

  lemma FiledHash(y: TwoKeys)
    ensures BuildHash(WordHash, [y.a, y.b]) == Filed(y) < WORD
  {
    BuildWord(WordHash, [y.a, y.b]);
    AddKey(y.a, y.b);
    SaltedHash(y.a);
    if y.a.None? && y.b.Some? {
      FirstMix(WordHash(y.b.value));
      SaltedWord(y.b.value);
    }
  }

  lemma ProbedHash(x: TwoKeys)
    ensures ProbeHash(WordHash, [x.a, x.b]) == if Whole(x) then Some(Filed(x)) else None
  {
    var keys := [x.a, x.b];
    HashesAgree(WordHash, keys);
    FiledHash(x);
    assert Whole(x) <==> !AnyNull(keys) by { assert keys[0] == x.a && keys[1] == x.b; }
  }

  /** A row is looked up where another is filed exactly when its second key is the rival. */
  lemma RivalHash(x: TwoKeys, y: TwoKeys)
    requires Whole(x) && IsInt64(x.b)
    ensures Filed(x) == Filed(y) <==> x.b.value == Rival(x.a.value, y)
  {
    var h, d := Salted(x.a.value), WordHash(x.b.value);
    FiledHash(y);
    UnmixMix(h, d);
    MixUnmix(h, Filed(y));
    SignedWord(x.b.value, Unmix(h, Filed(y)));
  }

  /** Beside the same first key, only the same second key is. */
  lemma RivalOfOwn(y: TwoKeys)
    requires Whole(y) && IsInt64(y.b)
    ensures Rival(y.a.value, y) == y.b.value
  {
    RivalHash(y, y);
  }

  // ------------------------------------------------------- the exact condition

  /** An inner row filed in a later batch is lost when it has a NULL key. */
  predicate Kept(n: nat, y: TwoKeys) {
    Whole(y) || BatchOf(n, Filed(y)) == 0
  }

  predicate Taken(x: TwoKeys, y: TwoKeys) {
    Whole(x) && x.b.value == Rival(x.a.value, y)
  }

  /** A match by hash of keys that differ, in the first key or in being NULL. */
  predicate Mistaken(n: nat, x: TwoKeys, y: TwoKeys) {
    Kept(n, y) && Taken(x, y) && !(x.a == y.a && y.b.Some?)
  }

  ghost predicate MistakenFor<O, I>(
      outerKeys: O -> TwoKeys, innerKeys: I -> TwoKeys, qual: (O, I) -> bool, n: nat, o: O, inner: seq<I>)
  {
    exists k :: 0 <= k < |inner| && Mistaken(n, outerKeys(o), innerKeys(inner[k])) && qual(o, inner[k])
  }

  ghost predicate TakenBySome<O, I>(outerKeys: O -> TwoKeys, innerKeys: I -> TwoKeys, outer: seq<O>, i: I) {
    exists j :: 0 <= j < |outer| && Taken(outerKeys(outer[j]), innerKeys(i))
  }

  /** The keys are the same and none is NULL. */
  predicate Agrees<O, I>(outerKeys: O -> TwoKeys, innerKeys: I -> TwoKeys, qual: (O, I) -> bool, o: O, i: I) {
    outerKeys(o) == innerKeys(i) && Whole(innerKeys(i)) && qual(o, i)
  }

  /**
   What it takes with two integer keys.  Pairs: no row is mistaken for another
   with which it passes the condition.  Semi and anti joins: one that is agrees
   with some row too.  Right and full joins: an inner row that agrees with no
   outer row is kept, and no outer row is taken to match it.
   */
  ghost predicate TwoKeyExact<O, I>(
      kind: Kind, outerKeys: O -> TwoKeys, innerKeys: I -> TwoKeys, qual: (O, I) -> bool, n: nat, outer: seq<O>, inner: seq<I>)
  {
    && (forall j :: 0 <= j < |outer| && MistakenFor(outerKeys, innerKeys, qual, n, outer[j], inner) ==>
          !PairsUp(kind) && exists k :: 0 <= k < |inner| && Agrees(outerKeys, innerKeys, qual, outer[j], inner[k]))
    && (KeepsInner(kind) ==> forall k :: 0 <= k < |inner| ==>
          || (Kept(n, innerKeys(inner[k])) && !TakenBySome(outerKeys, innerKeys, outer, inner[k]))
          || exists j :: 0 <= j < |outer| && Agrees(outerKeys, innerKeys, qual, outer[j], inner[k]))
  }

  lemma TwoKeyRelated<O, I>(outerKeys: O -> TwoKeys, innerKeys: I -> TwoKeys, qual: (O, I) -> bool, o: O, i: I)
    ensures TwoKeyEquality(outerKeys, innerKeys, qual)(o, i) <==> Agrees(outerKeys, innerKeys, qual, o, i)
  {
    var a, b := Keys(outerKeys)(o), Keys(innerKeys)(i);
    var x, y := outerKeys(o), innerKeys(i);
    assert a == [x.a, x.b] && b == [y.a, y.b];
    assert KeysEqual(Equal, a, b) <==> SameKey(Equal, a[0], b[0]) && SameKey(Equal, a[1], b[1]);
  }

  lemma TwoKeyMatch<O, I>(kind: Kind, outerKeys: O -> TwoKeys, innerKeys: I -> TwoKeys, qual: (O, I) -> bool, n: nat, o: O, i: I)
    requires IsInt64(outerKeys(o).b)
    ensures var p := TwoKeyPlan(kind, outerKeys, innerKeys, qual);
      && (p.outerHash(o) == Some(p.innerHash(i)) <==> Taken(outerKeys(o), innerKeys(i)))
      && (Survives(p, n, i) <==> Kept(n, innerKeys(i)))
  {
    var p, x, y := TwoKeyPlan(kind, outerKeys, innerKeys, qual), outerKeys(o), innerKeys(i);
    FiledHash(y);
    ProbedHash(x);
    ProbedHash(y);
    assert p.outerHash(o) == ProbeHash(WordHash, [x.a, x.b]) && p.innerHash(i) == BuildHash(WordHash, [y.a, y.b]);
    assert p.innerRehash(i) == ProbeHash(WordHash, [y.a, y.b]);
    if Whole(x) { RivalHash(x, y); }
  }

  /** What is taken for a match is one, or a mistake. */
  lemma TakenOrMistaken(n: nat, x: TwoKeys, y: TwoKeys)
    requires IsInt64(y.b)
    ensures Kept(n, y) && Taken(x, y) <==> Mistaken(n, x, y) || (x == y && Whole(y))
    ensures !(Mistaken(n, x, y) && x == y && Whole(y))
  {
    if Whole(y) { RivalOfOwn(y); }
  }

  lemma TwoKeyOuter<O, I>(
      kind: Kind, outerKeys: O -> TwoKeys, innerKeys: I -> TwoKeys, qual: (O, I) -> bool, n: nat, o: O, inner: seq<I>)
    requires IsInt64(outerKeys(o).b) && BothInt64(innerKeys, inner)
    ensures OuterUnmistaken(TwoKeyPlan(kind, outerKeys, innerKeys, qual), TwoKeyEquality(outerKeys, innerKeys, qual), n, inner, o)
      <==> (MistakenFor(outerKeys, innerKeys, qual, n, o, inner) ==>
              !PairsUp(kind) && exists k :: 0 <= k < |inner| && Agrees(outerKeys, innerKeys, qual, o, inner[k]))
  {
    var p, eq := TwoKeyPlan(kind, outerKeys, innerKeys, qual), TwoKeyEquality(outerKeys, innerKeys, qual);
    forall k | 0 <= k < |inner|
      ensures eq(o, inner[k]) <==> Agrees(outerKeys, innerKeys, qual, o, inner[k])
      ensures Meets(p, n, o, inner[k]) <==>
        Agrees(outerKeys, innerKeys, qual, o, inner[k]) || (Mistaken(n, outerKeys(o), innerKeys(inner[k])) && qual(o, inner[k]))
      ensures !(eq(o, inner[k]) && Mistaken(n, outerKeys(o), innerKeys(inner[k])))
    {
      TwoKeyRelated(outerKeys, innerKeys, qual, o, inner[k]);
      TwoKeyMatch(kind, outerKeys, innerKeys, qual, n, o, inner[k]);
      TakenOrMistaken(n, outerKeys(o), innerKeys(inner[k]));
    }
    MeetsSome(p, n, o, inner);
  }

  lemma MeetsSome<O, I>(p: Plan<O, I>, n: nat, o: O, inner: seq<I>)
    ensures MatchesSome(p, o, Survivors(p, n, inner)) <==> exists k :: 0 <= k < |inner| && Meets(p, n, o, inner[k])
  {
    var left := Survivors(p, n, inner);
    if MatchesSome(p, o, left) {
      var l :| 0 <= l < |left| && Matches(p, o, left[l]);
      InSurvivors(p, n, inner, left[l]);
      var k :| 0 <= k < |inner| && inner[k] == left[l];
      assert Meets(p, n, o, inner[k]);
    }
    if k :| 0 <= k < |inner| && Meets(p, n, o, inner[k]) {
      InSurvivors(p, n, inner, inner[k]);
      var l :| 0 <= l < |left| && left[l] == inner[k];
      assert Matches(p, o, left[l]);
    }
  }

  lemma TwoKeyInner<O, I>(
      kind: Kind, outerKeys: O -> TwoKeys, innerKeys: I -> TwoKeys, qual: (O, I) -> bool, n: nat, outer: seq<O>, i: I)
    requires BothInt64(outerKeys, outer)
    ensures var p, eq := TwoKeyPlan(kind, outerKeys, innerKeys, qual), TwoKeyEquality(outerKeys, innerKeys, qual);
      && (LeftAlone(p, n, outer, i) <==> Kept(n, innerKeys(i)) && !TakenBySome(outerKeys, innerKeys, outer, i))
      && (RelatedBySome(eq, outer, i) <==> exists j :: 0 <= j < |outer| && Agrees(outerKeys, innerKeys, qual, outer[j], i))
  {
    var p, eq := TwoKeyPlan(kind, outerKeys, innerKeys, qual), TwoKeyEquality(outerKeys, innerKeys, qual);
    forall j | 0 <= j < |outer|
      ensures eq(outer[j], i) <==> Agrees(outerKeys, innerKeys, qual, outer[j], i)
      ensures p.outerHash(outer[j]) == Some(p.innerHash(i)) <==> Taken(outerKeys(outer[j]), innerKeys(i))
    {
      TwoKeyRelated(outerKeys, innerKeys, qual, outer[j], i);
      TwoKeyMatch(kind, outerKeys, innerKeys, qual, n, outer[j], i);
    }
    TwoKeyKept(kind, outerKeys, innerKeys, qual, n, i);
  }

  lemma TwoKeyKept<O, I>(kind: Kind, outerKeys: O -> TwoKeys, innerKeys: I -> TwoKeys, qual: (O, I) -> bool, n: nat, i: I)
    ensures Survives(TwoKeyPlan(kind, outerKeys, innerKeys, qual), n, i) <==> Kept(n, innerKeys(i))
  {
    var p, y := TwoKeyPlan(kind, outerKeys, innerKeys, qual), innerKeys(i);
    FiledHash(y);
    ProbedHash(y);
    assert p.innerHash(i) == BuildHash(WordHash, [y.a, y.b]) && p.innerRehash(i) == ProbeHash(WordHash, [y.a, y.b]);
  }

  lemma TwoKeyCondition<O, I>(
      kind: Kind, outerKeys: O -> TwoKeys, innerKeys: I -> TwoKeys, qual: (O, I) -> bool, n: nat, outer: seq<O>, inner: seq<I>)
    requires BothInt64(outerKeys, outer) && BothInt64(innerKeys, inner)
    ensures Unmistaken(TwoKeyPlan(kind, outerKeys, innerKeys, qual), TwoKeyEquality(outerKeys, innerKeys, qual), n, outer, inner)
      <==> TwoKeyExact(kind, outerKeys, innerKeys, qual, n, outer, inner)
  {
    var p, eq := TwoKeyPlan(kind, outerKeys, innerKeys, qual), TwoKeyEquality(outerKeys, innerKeys, qual);
    forall j | 0 <= j < |outer|
      ensures OuterUnmistaken(p, eq, n, inner, outer[j])
        <==> (MistakenFor(outerKeys, innerKeys, qual, n, outer[j], inner) ==>
                !PairsUp(kind) && exists k :: 0 <= k < |inner| && Agrees(outerKeys, innerKeys, qual, outer[j], inner[k]))
    {
      TwoKeyOuter(kind, outerKeys, innerKeys, qual, n, outer[j], inner);
    }
    forall k | 0 <= k < |inner|
      ensures LeftAlone(p, n, outer, inner[k])
        <==> Kept(n, innerKeys(inner[k])) && !TakenBySome(outerKeys, innerKeys, outer, inner[k])
      ensures RelatedBySome(eq, outer, inner[k])
        <==> exists j :: 0 <= j < |outer| && Agrees(outerKeys, innerKeys, qual, outer[j], inner[k])
    {
      TwoKeyInner(kind, outerKeys, innerKeys, qual, n, outer, inner[k]);
    }
  }

  /** A join on two 64-bit integer keys is the join on both keys exactly when rivals do it no harm, for every kind and memory. */
  lemma TwoKeyJoinExact<O, I>(
      kind: Kind, outerKeys: O -> TwoKeys, innerKeys: I -> TwoKeys, qual: (O, I) -> bool, n: nat, outer: seq<O>, inner: seq<I>)
    requires BothInt64(outerKeys, outer) && BothInt64(innerKeys, inner)
    ensures var p := TwoKeyPlan(kind, outerKeys, innerKeys, qual);
      JoinRows(p, Survivors(p, n, inner), outer) == Intended(kind, TwoKeyEquality(outerKeys, innerKeys, qual), outer, inner)
      <==> TwoKeyExact(kind, outerKeys, innerKeys, qual, n, outer, inner)
  {
    RespectingJoinExact(kind, Keys(outerKeys), Keys(innerKeys), WordHash, qual, Equal, n, outer, inner);
    TwoKeyCondition(kind, outerKeys, innerKeys, qual, n, outer, inner);
  }

  // ----------------------------------------------------------------- examples

  function Own2(x: TwoKeys): TwoKeys { x }
  function Both(a: int, b: int): TwoKeys { TwoKeys(Some(a), Some(b)) }

  /** One row against one row, on two keys that are not NULL. */
  lemma OneAgainstOther(n: nat, x: TwoKeys, y: TwoKeys)
    requires Whole(x) && Whole(y) && IsInt64(x.b)
    ensures var p := TwoKeyPlan(Inner, Own2, Own2, Always);
      JoinRows(p, Survivors(p, n, [y]), [x]) == if Filed(x) == Filed(y) then multiset{Pair(x, y)} else multiset{}
    ensures Intended(Inner, TwoKeyEquality(Own2, Own2, Always), [x], [y]) == if x == y then multiset{Pair(x, y)} else multiset{}
  {
    var p := TwoKeyPlan(Inner, Own2, Own2, Always);
    TwoKeyMatch(Inner, Own2, Own2, Always, n, x, y);
    RivalHash(x, y);
    assert [y][1..] == [] && Survivors(p, n, [y]) == [y];
    OneMatch(p, x, y);
    TwoKeyRelated(Own2, Own2, Always, x, y);
    OneRelated(TwoKeyEquality(Own2, Own2, Always), x, y);
  }

  /** Beside every other first key there is a second key with which a row is joined by mistake. */
  lemma RivalJoined(n: nat, d: int, y: TwoKeys)
    requires Whole(y) && y.a.value != d
    ensures var p, x := TwoKeyPlan(Inner, Own2, Own2, Always), Both(d, Rival(d, y));
      && IsInt64(x.b)
      && JoinRows(p, Survivors(p, n, [y]), [x]) == multiset{Pair(x, y)}
      && Intended(Inner, TwoKeyEquality(Own2, Own2, Always), [x], [y]) == multiset{}
  {
    var x := Both(d, Rival(d, y));
    RivalHash(x, y);
    OneAgainstOther(n, x, y);
  }

  lemma FiveAdded()
    ensures Salted(1) == 0x9e3779ba && Added(0x9e3779ba, 5) == 0x2853a3c6ac
    ensures Salted(2) == 0x9e3779bb && Added(0x9e3779bb, 5) == 0x2853a3c6ec
  {
  }

  lemma FiveFiled()
    ensures Filed(Both(1, 5)) % 2 == 0 && Filed(Both(2, 5)) % 2 == 1
  {
    FiveAdded();
    XorParity(Salted(1), Added(Salted(1), 5));
    XorParity(Salted(2), Added(Salted(2), 5));
  }

  /** The first key counts: (1, 5) is not joined with (2, 5). */
  lemma FirstKeyCounts(n: nat)
    ensures var p := TwoKeyPlan(Inner, Own2, Own2, Always);
      JoinRows(p, Survivors(p, n, [Both(2, 5)]), [Both(1, 5)]) == multiset{}
  {
    FiveFiled();
    OneAgainstOther(n, Both(1, 5), Both(2, 5));
  }
}
