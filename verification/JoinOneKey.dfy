/**
 Joins on a single key: when they are exact, in terms of the keys alone, and
 inputs at which they are not.
 */
module JoinOneKey {
  import opened Orders
  import opened HashKeys
  import opened JoinSpec
  import opened JoinTruth
  import opened JoinExact

  function OneKey<R, D>(f: R -> Option<D>): R -> seq<Option<D>> {
    r => [f(r)]
  }

  function OneKeyPlan<O, I, D>(
      kind: Kind, outerKey: O -> Option<D>, innerKey: I -> Option<D>, datumHash: D -> nat, qual: (O, I) -> bool): Plan<O, I>
  {
    KeyPlan(kind, OneKey(outerKey), OneKey(innerKey), datumHash, qual)
  }

  ghost function OneKeyEquality<O, I, D>(
      same: (D, D) -> bool, outerKey: O -> Option<D>, innerKey: I -> Option<D>, qual: (O, I) -> bool): (O, I) -> bool
  {
    KeyEquality(same, OneKey(outerKey), OneKey(innerKey), qual)
  }

  // -------------------------------------------------------- hashes of one key

  /** Key hashes are 64-bit words. */
  ghost predicate Words<R, D>(datumHash: D -> nat, f: R -> Option<D>, rs: seq<R>) {
    forall k :: 0 <= k < |rs| && f(rs[k]).Some? ==> datumHash(f(rs[k]).value) < WORD
  }

  /** A NULL inner key hashes like the outer key whose hash is 0. */
  predicate HashesAlike<D>(datumHash: D -> nat, x: Option<D>, y: Option<D>) {
    x.Some? && datumHash(x.value) == if y.Some? then datumHash(y.value) else WORD - SALT
  }

  lemma SaltedWords(d: nat, e: nat)
    requires d < WORD && e < WORD
    ensures (d + SALT) % WORD == (e + SALT) % WORD <==> d == e
    ensures (d + SALT) % WORD == 0 <==> d == WORD - SALT
  {
  }

  lemma FirstMix(d: nat)
    ensures Mix(0, d) == (d + SALT) % WORD
  {
  }

  lemma OneKeyHash<D>(datumHash: D -> nat, x: Option<D>)
    ensures ProbeHash(datumHash, [x]) == if x.None? then None else Some((datumHash(x.value) + SALT) % WORD)
    ensures BuildHash(datumHash, [x]) == if x.None? then 0 else (datumHash(x.value) + SALT) % WORD
  {
    assert [x][..0] == [];
    if x.Some? { FirstMix(datumHash(x.value)); }
  }

  lemma OneKeyMatch<O, I, D>(
      kind: Kind, outerKey: O -> Option<D>, innerKey: I -> Option<D>, datumHash: D -> nat, qual: (O, I) -> bool, o: O, i: I)
    requires Words(datumHash, outerKey, [o]) && Words(datumHash, innerKey, [i])
    ensures var p := OneKeyPlan(kind, outerKey, innerKey, datumHash, qual);
      p.outerHash(o) == Some(p.innerHash(i)) <==> HashesAlike(datumHash, outerKey(o), innerKey(i))
  {
    var p := OneKeyPlan(kind, outerKey, innerKey, datumHash, qual);
    var x, y := outerKey(o), innerKey(i);
    assert [o][0] == o && [i][0] == i;
    OneKeyHash(datumHash, x);
    OneKeyHash(datumHash, y);
    assert p.outerHash(o) == ProbeHash(datumHash, [x]) && p.innerHash(i) == BuildHash(datumHash, [y]);
    if x.Some? { SaltedWords(datumHash(x.value), if y.Some? then datumHash(y.value) else 0); }
  }

  // ------------------------------------------------------- the exact condition

  predicate SameKey<D>(same: (D, D) -> bool, x: Option<D>, y: Option<D>) {
    x.Some? && y.Some? && same(x.value, y.value)
  }

  ghost predicate FindsAlike<O, I, D>(
      outerKey: O -> Option<D>, innerKey: I -> Option<D>, datumHash: D -> nat, qual: (O, I) -> bool, o: O, inner: seq<I>)
  {
    exists k :: 0 <= k < |inner| && HashesAlike(datumHash, outerKey(o), innerKey(inner[k])) && qual(o, inner[k])
  }

  ghost predicate FindsSame<O, I, D>(
      outerKey: O -> Option<D>, innerKey: I -> Option<D>, same: (D, D) -> bool, qual: (O, I) -> bool, o: O, inner: seq<I>)
  {
    exists k :: 0 <= k < |inner| && SameKey(same, outerKey(o), innerKey(inner[k])) && qual(o, inner[k])
  }

  ghost predicate AlikeToSome<O, I, D>(
      outerKey: O -> Option<D>, innerKey: I -> Option<D>, datumHash: D -> nat, outer: seq<O>, i: I)
  {
    exists j :: 0 <= j < |outer| && HashesAlike(datumHash, outerKey(outer[j]), innerKey(i))
  }

  ghost predicate SameAsSome<O, I, D>(
      outerKey: O -> Option<D>, innerKey: I -> Option<D>, same: (D, D) -> bool, qual: (O, I) -> bool, outer: seq<O>, i: I)
  {
    exists j :: 0 <= j < |outer| && SameKey(same, outerKey(outer[j]), innerKey(i)) && qual(outer[j], i)
  }

  /** For pairs: of the rows that pass the condition, those with the same key are those that hash alike. */
  ghost predicate PairsExact<O, I, D>(
      outerKey: O -> Option<D>, innerKey: I -> Option<D>, datumHash: D -> nat, qual: (O, I) -> bool, same: (D, D) -> bool,
      o: O, inner: seq<I>)
  {
    forall k :: 0 <= k < |inner| && qual(o, inner[k]) ==>
      (HashesAlike(datumHash, outerKey(o), innerKey(inner[k])) <==> SameKey(same, outerKey(o), innerKey(inner[k])))
  }

  /** The same for one match among many, and for an inner row left over. */
  ghost predicate OneKeyExact<O, I, D>(
      kind: Kind, outerKey: O -> Option<D>, innerKey: I -> Option<D>, datumHash: D -> nat, qual: (O, I) -> bool,
      same: (D, D) -> bool, outer: seq<O>, inner: seq<I>)
  {
    && (forall j :: 0 <= j < |outer| ==>
          if PairsUp(kind) then PairsExact(outerKey, innerKey, datumHash, qual, same, outer[j], inner)
          else FindsAlike(outerKey, innerKey, datumHash, qual, outer[j], inner)
               <==> FindsSame(outerKey, innerKey, same, qual, outer[j], inner))
    && (KeepsInner(kind) ==> forall k :: 0 <= k < |inner| ==>
          (AlikeToSome(outerKey, innerKey, datumHash, outer, inner[k])
           <==> SameAsSome(outerKey, innerKey, same, qual, outer, inner[k])))
  }

  lemma OneKeyRelated<O, I, D>(
      outerKey: O -> Option<D>, innerKey: I -> Option<D>, qual: (O, I) -> bool, same: (D, D) -> bool, o: O, i: I)
    ensures OneKeyEquality(same, outerKey, innerKey, qual)(o, i) <==> SameKey(same, outerKey(o), innerKey(i)) && qual(o, i)
  {
    var a, b := [outerKey(o)], [innerKey(i)];
    assert OneKey(outerKey)(o) == a && OneKey(innerKey)(i) == b;
    assert KeysEqual(same, a, b) <==> SameKey(same, a[0], b[0]);
  }

  lemma OneKeyKept<O, I, D>(
      kind: Kind, outerKey: O -> Option<D>, innerKey: I -> Option<D>, datumHash: D -> nat, qual: (O, I) -> bool,
      n: nat, inner: seq<I>)
    ensures var p := OneKeyPlan(kind, outerKey, innerKey, datumHash, qual);
      Survivors(p, n, inner) == inner && forall k :: 0 <= k < |inner| ==> Survives(p, n, inner[k])
  {
    var p := OneKeyPlan(kind, outerKey, innerKey, datumHash, qual);
    OneKeySurvives(kind, OneKey(outerKey), OneKey(innerKey), datumHash, qual, n, inner);
    forall k | 0 <= k < |inner| ensures Survives(p, n, inner[k]) {
      InSurvivors(p, n, inner, inner[k]);
    }
  }

  lemma OneKeyOuter<O, I, D>(
      kind: Kind, outerKey: O -> Option<D>, innerKey: I -> Option<D>, datumHash: D -> nat, qual: (O, I) -> bool,
      same: (D, D) -> bool, n: nat, o: O, inner: seq<I>)
    requires Words(datumHash, outerKey, [o]) && Words(datumHash, innerKey, inner)
    ensures var p := OneKeyPlan(kind, outerKey, innerKey, datumHash, qual);
      OuterExact(p, OneKeyEquality(same, outerKey, innerKey, qual), n, inner, o) <==>
        if PairsUp(kind) then PairsExact(outerKey, innerKey, datumHash, qual, same, o, inner)
        else FindsAlike(outerKey, innerKey, datumHash, qual, o, inner) <==> FindsSame(outerKey, innerKey, same, qual, o, inner)
  {
    var p := OneKeyPlan(kind, outerKey, innerKey, datumHash, qual);
    var eq := OneKeyEquality(same, outerKey, innerKey, qual);
    OneKeyKept(kind, outerKey, innerKey, datumHash, qual, n, inner);
    forall k | 0 <= k < |inner|
      ensures eq(o, inner[k]) <==> SameKey(same, outerKey(o), innerKey(inner[k])) && qual(o, inner[k])
      ensures Matches(p, o, inner[k]) <==> HashesAlike(datumHash, outerKey(o), innerKey(inner[k])) && qual(o, inner[k])
    {
      OneKeyRelated(outerKey, innerKey, qual, same, o, inner[k]);
      OneKeyMatch(kind, outerKey, innerKey, datumHash, qual, o, inner[k]);
    }
  }

  lemma OneKeyInner<O, I, D>(
      kind: Kind, outerKey: O -> Option<D>, innerKey: I -> Option<D>, datumHash: D -> nat, qual: (O, I) -> bool,
      same: (D, D) -> bool, n: nat, outer: seq<O>, i: I)
    requires Words(datumHash, outerKey, outer) && Words(datumHash, innerKey, [i])
    requires Survives(OneKeyPlan(kind, outerKey, innerKey, datumHash, qual), n, i)
    ensures var p := OneKeyPlan(kind, outerKey, innerKey, datumHash, qual);
      InnerExact(p, OneKeyEquality(same, outerKey, innerKey, qual), n, outer, i) <==>
        (AlikeToSome(outerKey, innerKey, datumHash, outer, i) <==> SameAsSome(outerKey, innerKey, same, qual, outer, i))
  {
    var p := OneKeyPlan(kind, outerKey, innerKey, datumHash, qual);
    var eq := OneKeyEquality(same, outerKey, innerKey, qual);
    forall j | 0 <= j < |outer|
      ensures eq(outer[j], i) <==> SameKey(same, outerKey(outer[j]), innerKey(i)) && qual(outer[j], i)
      ensures p.outerHash(outer[j]) == Some(p.innerHash(i)) <==> HashesAlike(datumHash, outerKey(outer[j]), innerKey(i))
    {
      OneKeyRelated(outerKey, innerKey, qual, same, outer[j], i);
      OneKeyMatch(kind, outerKey, innerKey, datumHash, qual, outer[j], i);
    }
  }

  lemma OneKeyCondition<O, I, D>(
      kind: Kind, outerKey: O -> Option<D>, innerKey: I -> Option<D>, datumHash: D -> nat, qual: (O, I) -> bool,
      same: (D, D) -> bool, n: nat, outer: seq<O>, inner: seq<I>)
    requires Words(datumHash, outerKey, outer) && Words(datumHash, innerKey, inner)
    ensures Exact(OneKeyPlan(kind, outerKey, innerKey, datumHash, qual), OneKeyEquality(same, outerKey, innerKey, qual), n, outer, inner)
      <==> OneKeyExact(kind, outerKey, innerKey, datumHash, qual, same, outer, inner)
  {
    var p := OneKeyPlan(kind, outerKey, innerKey, datumHash, qual);
    var eq := OneKeyEquality(same, outerKey, innerKey, qual);
    OneKeyKept(kind, outerKey, innerKey, datumHash, qual, n, inner);
    forall j | 0 <= j < |outer|
      ensures OuterExact(p, eq, n, inner, outer[j]) <==>
        if PairsUp(kind) then PairsExact(outerKey, innerKey, datumHash, qual, same, outer[j], inner)
        else FindsAlike(outerKey, innerKey, datumHash, qual, outer[j], inner)
             <==> FindsSame(outerKey, innerKey, same, qual, outer[j], inner)
    {
      OneKeyOuter(kind, outerKey, innerKey, datumHash, qual, same, n, outer[j], inner);
    }
    forall k | 0 <= k < |inner|
      ensures InnerExact(p, eq, n, outer, inner[k]) <==>
        (AlikeToSome(outerKey, innerKey, datumHash, outer, inner[k])
         <==> SameAsSome(outerKey, innerKey, same, qual, outer, inner[k]))
    {
      OneKeyInner(kind, outerKey, innerKey, datumHash, qual, same, n, outer, inner[k]);
    }
  }

  /** A join on one key is the join meant exactly when keys hash alike just where they are the same, for every kind and memory. */
  lemma OneKeyJoinExact<O, I, D>(
      kind: Kind, outerKey: O -> Option<D>, innerKey: I -> Option<D>, datumHash: D -> nat, qual: (O, I) -> bool,
      same: (D, D) -> bool, n: nat, outer: seq<O>, inner: seq<I>)
    requires Words(datumHash, outerKey, outer) && Words(datumHash, innerKey, inner)
    ensures var p := OneKeyPlan(kind, outerKey, innerKey, datumHash, qual);
      JoinRows(p, Survivors(p, n, inner), outer) == Intended(kind, OneKeyEquality(same, outerKey, innerKey, qual), outer, inner)
      <==> OneKeyExact(kind, outerKey, innerKey, datumHash, qual, same, outer, inner)
  {
    HashJoinExact(OneKeyPlan(kind, outerKey, innerKey, datumHash, qual), OneKeyEquality(same, outerKey, innerKey, qual), n, outer, inner);
    OneKeyCondition(kind, outerKey, innerKey, datumHash, qual, same, n, outer, inner);
  }

  // ------------------------------------------------------- one integer key

  // 64-bit integers are hashed as unsigned words.
  function WordHash(d: int): nat { d % WORD }
  function Equal(x: int, y: int): bool { x == y }

  ghost predicate Int64<R>(f: R -> Option<int>, rs: seq<R>) {
    forall k :: 0 <= k < |rs| && f(rs[k]).Some? ==> -0x8000_0000_0000_0000 <= f(rs[k]).value < 0x8000_0000_0000_0000
  }

  lemma IntAlike(x: Option<int>, y: Option<int>)
    requires x.Some? ==> -0x8000_0000_0000_0000 <= x.value < 0x8000_0000_0000_0000
    requires y.Some? ==> -0x8000_0000_0000_0000 <= y.value < 0x8000_0000_0000_0000
    ensures HashesAlike(WordHash, x, y) <==> x.Some? && (x == y || (y.None? && x.value == -SALT))
  {
  }

  /**
   What it takes with one integer key.  Pairs: no outer row with the key -SALT
   passes the condition with a NULL inner key.  Semi and anti joins: one that
   does has a proper match too.  Right and full joins: beside a NULL inner key
   no outer row has the key -SALT, and an inner key found among the outer keys
   is found there in a row that passes the condition.
   */
  ghost predicate IntExact<O, I>(
      kind: Kind, outerKey: O -> Option<int>, innerKey: I -> Option<int>, qual: (O, I) -> bool, outer: seq<O>, inner: seq<I>)
  {
    && (forall j :: 0 <= j < |outer| && outerKey(outer[j]) == Some(-SALT) && PassesNull(innerKey, qual, outer[j], inner) ==>
          !PairsUp(kind) && FindsSame(outerKey, innerKey, Equal, qual, outer[j], inner))
    && (KeepsInner(kind) ==> forall k :: 0 <= k < |inner| ==>
          if innerKey(inner[k]).None? then !HasKey(outerKey, outer, -SALT)
          else HasKey(outerKey, outer, innerKey(inner[k]).value) ==> SameAsSome(outerKey, innerKey, Equal, qual, outer, inner[k]))
  }

  ghost predicate PassesNull<O, I>(innerKey: I -> Option<int>, qual: (O, I) -> bool, o: O, inner: seq<I>) {
    exists k :: 0 <= k < |inner| && innerKey(inner[k]).None? && qual(o, inner[k])
  }

  ghost predicate HasKey<O>(outerKey: O -> Option<int>, outer: seq<O>, d: int) {
    exists j :: 0 <= j < |outer| && outerKey(outer[j]) == Some(d)
  }

  lemma IntOuter<O, I>(outerKey: O -> Option<int>, innerKey: I -> Option<int>, qual: (O, I) -> bool, o: O, inner: seq<I>)
    requires Int64(outerKey, [o]) && Int64(innerKey, inner)
    ensures var bad := outerKey(o) == Some(-SALT) && PassesNull(innerKey, qual, o, inner);
      && (PairsExact(outerKey, innerKey, WordHash, qual, Equal, o, inner) <==> !bad)
      && (FindsAlike(outerKey, innerKey, WordHash, qual, o, inner) <==>
            bad || FindsSame(outerKey, innerKey, Equal, qual, o, inner))
  {
    assert [o][0] == o;
    forall k | 0 <= k < |inner|
      ensures HashesAlike(WordHash, outerKey(o), innerKey(inner[k])) <==>
        SameKey(Equal, outerKey(o), innerKey(inner[k])) || (outerKey(o) == Some(-SALT) && innerKey(inner[k]).None?)
    {
      IntAlike(outerKey(o), innerKey(inner[k]));
    }
  }

  lemma IntInner<O, I>(outerKey: O -> Option<int>, innerKey: I -> Option<int>, qual: (O, I) -> bool, outer: seq<O>, i: I)
    requires Int64(outerKey, outer) && Int64(innerKey, [i])
    ensures AlikeToSome(outerKey, innerKey, WordHash, outer, i) <==>
      HasKey(outerKey, outer, if innerKey(i).None? then -SALT else innerKey(i).value)
    ensures SameAsSome(outerKey, innerKey, Equal, qual, outer, i) ==>
      innerKey(i).Some? && HasKey(outerKey, outer, innerKey(i).value)
  {
    assert [i][0] == i;
    forall j | 0 <= j < |outer|
      ensures HashesAlike(WordHash, outerKey(outer[j]), innerKey(i)) <==>
        outerKey(outer[j]) == Some(if innerKey(i).None? then -SALT else innerKey(i).value)
    {
      IntAlike(outerKey(outer[j]), innerKey(i));
    }
  }

  lemma IntCondition<O, I>(
      kind: Kind, outerKey: O -> Option<int>, innerKey: I -> Option<int>, qual: (O, I) -> bool, outer: seq<O>, inner: seq<I>)
    requires Int64(outerKey, outer) && Int64(innerKey, inner)
    ensures OneKeyExact(kind, outerKey, innerKey, WordHash, qual, Equal, outer, inner)
      <==> IntExact(kind, outerKey, innerKey, qual, outer, inner)
  {
    forall j | 0 <= j < |outer|
      ensures var bad := outerKey(outer[j]) == Some(-SALT) && PassesNull(innerKey, qual, outer[j], inner);
        && (PairsExact(outerKey, innerKey, WordHash, qual, Equal, outer[j], inner) <==> !bad)
        && (FindsAlike(outerKey, innerKey, WordHash, qual, outer[j], inner) <==>
              bad || FindsSame(outerKey, innerKey, Equal, qual, outer[j], inner))
    {
      IntOuter(outerKey, innerKey, qual, outer[j], inner);
    }
    forall k | 0 <= k < |inner|
      ensures AlikeToSome(outerKey, innerKey, WordHash, outer, inner[k]) <==>
        HasKey(outerKey, outer, if innerKey(inner[k]).None? then -SALT else innerKey(inner[k]).value)
      ensures SameAsSome(outerKey, innerKey, Equal, qual, outer, inner[k]) ==>
        innerKey(inner[k]).Some? && HasKey(outerKey, outer, innerKey(inner[k]).value)
    {
      IntInner(outerKey, innerKey, qual, outer, inner[k]);
    }
  }

  /** A join on one 64-bit integer key goes wrong only at the key -SALT, or through the extra condition of a right or full join. */
  lemma IntJoinExact<O, I>(
      kind: Kind, outerKey: O -> Option<int>, innerKey: I -> Option<int>, qual: (O, I) -> bool, n: nat, outer: seq<O>, inner: seq<I>)
    requires Int64(outerKey, outer) && Int64(innerKey, inner)
    ensures var p := OneKeyPlan(kind, outerKey, innerKey, WordHash, qual);
      JoinRows(p, Survivors(p, n, inner), outer) == Intended(kind, OneKeyEquality(Equal, outerKey, innerKey, qual), outer, inner)
      <==> IntExact(kind, outerKey, innerKey, qual, outer, inner)
  {
    OneKeyJoinExact(kind, outerKey, innerKey, WordHash, qual, Equal, n, outer, inner);
    IntCondition(kind, outerKey, innerKey, qual, outer, inner);
  }

  // ----------------------------------------------------------------- examples

  lemma OneMatch<O, I>(p: Plan<O, I>, o: O, i: I)
    requires p.kind.Inner?
    ensures JoinRows(p, [i], [o]) == if Matches(p, o, i) then multiset{Pair(o, i)} else multiset{}
  {
    var outer, inner := [o], [i];
    assert outer[1..] == [] && inner[1..] == [];
    OneBucket(p, o, i);
    assert AllOuter(p, inner, outer) == OfOuter(p, inner, o);
    assert AllInner(p, outer, inner) == OfInner(p, outer, i) == multiset{};
  }

  lemma OneBucket<O, I>(p: Plan<O, I>, o: O, i: I)
    requires p.kind.Inner?
    ensures OfOuter(p, [i], o) == if Matches(p, o, i) then multiset{Pair(o, i)} else multiset{}
  {
    var inner := [i];
    assert inner[1..] == [];
    match p.outerHash(o)
    case None =>
    case Some(h) =>
      if h == p.innerHash(i) {
        assert Bucket(p, inner, h) == inner;
        assert ProbeRows(p, o, inner[1..], true) == ProbeRows(p, o, inner[1..], false) == multiset{};
      } else {
        assert Bucket(p, inner, h) == [];
      }
  }

  lemma OneRelated<O, I>(eq: (O, I) -> bool, o: O, i: I)
    ensures Intended(Inner, eq, [o], [i]) == if eq(o, i) then multiset{Pair(o, i)} else multiset{}
  {
    var outer, inner := [o], [i];
    assert outer[1..] == [] && inner[1..] == [];
    OnePair(eq, o, i);
    assert AllMeant(Inner, eq, outer, inner) == Meant(Inner, eq, o, inner);
    assert InnerMeant(Inner, eq, outer, inner[1..]) == multiset{};
  }

  lemma OnePair<O, I>(eq: (O, I) -> bool, o: O, i: I)
    ensures Meant(Inner, eq, o, [i]) == if eq(o, i) then multiset{Pair(o, i)} else multiset{}
  {
    assert [i][1..] == [];
    assert PairsOf(eq, o, [i][1..]) == multiset{};
  }

  function Always<O, I>(o: O, i: I): bool { true }

  /** One row against one row, both on one key, without an extra condition. */
  lemma OneAgainstOne<R, D>(f: R -> Option<D>, g: R -> Option<D>, datumHash: D -> nat, same: (D, D) -> bool, n: nat, o: R, i: R)
    requires Words(datumHash, f, [o]) && Words(datumHash, g, [i])
    ensures var p := OneKeyPlan(Inner, f, g, datumHash, Always);
      JoinRows(p, Survivors(p, n, [i]), [o]) == if HashesAlike(datumHash, f(o), g(i)) then multiset{Pair(o, i)} else multiset{}
    ensures Intended(Inner, OneKeyEquality(same, f, g, Always), [o], [i]) ==
      if SameKey(same, f(o), g(i)) then multiset{Pair(o, i)} else multiset{}
  {
    var p := OneKeyPlan(Inner, f, g, datumHash, Always);
    OneKeyKept(Inner, f, g, datumHash, Always, n, [i]);
    OneKeyMatch(Inner, f, g, datumHash, Always, o, i);
    OneMatch(p, o, i);
    OneKeyRelated(f, g, Always, same, o, i);
    OneRelated(OneKeyEquality(same, f, g, Always), o, i);
  }

  function Own<D>(d: D): Option<D> { Some(d) }
  function Null<D>(d: D): Option<D> { None }

  /** An inner join on one integer key pairs a row whose key is NULL with the outer key whose hash is 0. */
  lemma NullKeyMatches(n: nat, i: int)
    ensures var p := OneKeyPlan(Inner, Own<int>, Null<int>, WordHash, Always);
      && JoinRows(p, Survivors(p, n, [i]), [-SALT]) == multiset{Pair(-SALT, i)}
      && Intended(Inner, OneKeyEquality(Equal, Own<int>, Null<int>, Always), [-SALT], [i]) == multiset{}
  {
    WordOfSalt();
    OneAgainstOne(Own<int>, Null<int>, WordHash, Equal, n, -SALT, i);
  }

  lemma WordOfSalt()
    ensures WordHash(-SALT) == WORD - SALT
  {
  }

  // Floating-point numbers by their 64 bits: hashed as they are, compared by value.
  const SIGN: nat := 0x8000_0000_0000_0000
  const ZERO: nat := 0
  function BitsHash(bits: nat): nat { bits }
  predicate NotANumber(bits: nat) { bits % SIGN > 0x7ff0_0000_0000_0000 }
  predicate FloatEqual(x: nat, y: nat) {
    !NotANumber(x) && !NotANumber(y) && (x == y || (x % SIGN == 0 && y % SIGN == 0))
  }

  /** An inner join on one floating-point key loses the pair of 0.0 and -0.0. */
  lemma FloatZeroLost(n: nat)
    ensures var p := OneKeyPlan(Inner, Own<nat>, Own<nat>, BitsHash, Always);
      && JoinRows(p, Survivors(p, n, [SIGN]), [ZERO]) == multiset{}
      && Intended(Inner, OneKeyEquality(FloatEqual, Own<nat>, Own<nat>, Always), [ZERO], [SIGN]) == multiset{Pair(ZERO, SIGN)}
  {
    OneAgainstOne(Own<nat>, Own<nat>, BitsHash, FloatEqual, n, ZERO, SIGN);
  }

  /** It joins what is not a number with itself. */
  lemma NotANumberJoined(n: nat, nan: nat)
    requires nan < WORD && NotANumber(nan)
    ensures var p := OneKeyPlan(Inner, Own<nat>, Own<nat>, BitsHash, Always);
      && JoinRows(p, Survivors(p, n, [nan]), [nan]) == multiset{Pair(nan, nan)}
      && Intended(Inner, OneKeyEquality(FloatEqual, Own<nat>, Own<nat>, Always), [nan], [nan]) == multiset{}
  {
    OneAgainstOne(Own<nat>, Own<nat>, BitsHash, FloatEqual, n, nan, nan);
  }

  // Values passed by reference: hashed by where they are, compared by what they are.
  datatype Referenced = Referenced(address: nat, content: seq<nat>)
  function AddressHash(r: Referenced): nat { r.address }
  predicate ContentEqual(x: Referenced, y: Referenced) { x.content == y.content }

  /** An inner join on a key of a type hashed by its address loses every pair of equal values kept in two places. */
  lemma ReferencedKeysLost(n: nat, x: Referenced, y: Referenced)
    requires x.address < WORD && y.address < WORD && x.address != y.address && x.content == y.content
    ensures var p := OneKeyPlan(Inner, Own<Referenced>, Own<Referenced>, AddressHash, Always);
      && JoinRows(p, Survivors(p, n, [y]), [x]) == multiset{}
      && Intended(Inner, OneKeyEquality(ContentEqual, Own<Referenced>, Own<Referenced>, Always), [x], [y]) == multiset{Pair(x, y)}
  {
    OneAgainstOne(Own<Referenced>, Own<Referenced>, AddressHash, ContentEqual, n, x, y);
  }

  function Never<O, I>(o: O, i: I): bool { false }

  /** A right join loses an inner row that matches nothing when its hash is hit. */
  lemma RightLosesUnmatched(n: nat, o: int)
    ensures var p := OneKeyPlan(Right, Own<int>, Own<int>, WordHash, Never);
      InnerOnly(o) !in JoinRows(p, Survivors(p, n, [o]), [o])
      && InnerOnly(o) in Intended(Right, OneKeyEquality(Equal, Own<int>, Own<int>, Never), [o], [o])
  {
    var p := OneKeyPlan(Right, Own<int>, Own<int>, WordHash, Never);
    var eq := OneKeyEquality(Equal, Own<int>, Own<int>, Never);
    OneKeyKept(Right, Own<int>, Own<int>, WordHash, Never, n, [o]);
    OneKeyMatch(Right, Own<int>, Own<int>, WordHash, Never, o, o);
    assert [o][0] == o;
    AloneJoined(p, [o], [o], o);
    OneKeyRelated(Own<int>, Own<int>, Never, Equal, o, o);
    IntendedHas(Right, eq, [o], [o], InnerOnly(o));
  }
}
