/** What mixing keeps: each key hash can be taken out again, NULL keys are passed over. */
module HashMix {
  import opened Orders
  import opened Powers
  import opened HashKeys

  // ------------------------------------------------------------ exclusive or

  predicate Bit(n: nat, k: nat) {
    if k == 0 then n % 2 == 1 else Bit(n / 2, k - 1)
  }

  lemma {:induction false} NoBits(k: nat)
    ensures !Bit(0, k)
  {
    if k > 0 { NoBits(k - 1); }
  }

  /** Each bit of the exclusive or is set when just one of the two bits is. */
  lemma {:induction false} XorBits(a: nat, b: nat, k: nat)
    ensures Bit(Xor(a, b), k) <==> (Bit(a, k) != Bit(b, k))
    decreases k
  {
    NoBits(k);
    if k > 0 && a != 0 && b != 0 { XorBits(a / 2, b / 2, k - 1); }
  }

  /** Numbers with the same bits are the same. */
  lemma {:induction false} SameBits(a: nat, b: nat)
    requires forall k: nat :: Bit(a, k) <==> Bit(b, k)
    ensures a == b
    decreases a + b
  {
    if a + b > 0 {
      assert Bit(a, 0) <==> Bit(b, 0);
      forall k: nat ensures Bit(a / 2, k) <==> Bit(b / 2, k) { assert Bit(a, k + 1) <==> Bit(b, k + 1); }
      SameBits(a / 2, b / 2);
    }
  }

  lemma XorTwice(a: nat, b: nat)
    ensures Xor(a, Xor(a, b)) == b
  {
    forall k: nat ensures Bit(Xor(a, Xor(a, b)), k) <==> Bit(b, k) {
      XorBits(a, Xor(a, b), k);
      XorBits(a, b, k);
    }
    SameBits(Xor(a, Xor(a, b)), b);
  }

  lemma {:induction false} XorBelow(a: nat, b: nat, k: nat)
    requires a < Pow2(k) && b < Pow2(k)
    ensures Xor(a, b) < Pow2(k)
    decreases k
  {
    if k > 0 && a != 0 && b != 0 { XorBelow(a / 2, b / 2, k - 1); }
  }

  lemma XorParity(a: nat, b: nat)
    ensures Xor(a, b) % 2 == (a + b) % 2
  {
  }

  lemma WordPower()
    ensures Pow2(64) == WORD
  {
    assert Pow2(4) == 16;
    assert Pow2(8) == 256 by { Pow2Sum(4, 4); }
    assert Pow2(16) == 0x1_0000 by { Pow2Sum(8, 8); }
    assert Pow2(32) == 0x1_0000_0000 by { Pow2Sum(16, 16); }
    Pow2Sum(32, 32);
  }

  lemma XorWord(a: nat, b: nat)
    requires a < WORD && b < WORD
    ensures Xor(a, b) < WORD
  {
    WordPower();
    XorBelow(a, b, 64);
  }

  // ------------------------------------------------------------- taking apart

  /** The key hash that adds `x` to `h`. */
  function Removed(h: nat, x: nat): (d: nat)
    ensures d < WORD
  {
    (x - SALT - (h * 64) % WORD - h / 4) % WORD
  }

  lemma AddRemove(h: nat, x: nat)
    requires x < WORD
    ensures Removed(h, Added(h, x)) == x && Added(h, Removed(h, x)) == x
  {
  }

  /** The key hash that, mixed into `h`, gives `m`. */
  function Unmix(h: nat, m: nat): (d: nat)
    ensures d < WORD
  {
    Removed(h, Xor(h, m))
  }

  lemma MixWord(h: nat, d: nat)
    requires h < WORD
    ensures Mix(h, d) < WORD
  {
    XorWord(h, Added(h, d));
  }

  /** The last key hash can be told from the hash before it and the hash after it ... */
  lemma UnmixMix(h: nat, d: nat)
    requires d < WORD
    ensures Unmix(h, Mix(h, d)) == d
  {
    XorTwice(h, Added(h, d));
    AddRemove(h, d);
  }

  /** ... and whatever the hash before, there is one that leads to any hash after. */
  lemma MixUnmix(h: nat, m: nat)
    requires h < WORD && m < WORD
    ensures Mix(h, Unmix(h, m)) == m
  {
    XorWord(h, m);
    AddRemove(h, Xor(h, m));
    XorTwice(h, m);
  }

  // -------------------------------------------------------------- many keys

  /** The keys that are not NULL, in order. */
  function Present<D>(keys: seq<Option<D>>): seq<D> {
    if keys == [] then [] else (if keys[0].None? then [] else [keys[0].value]) + Present(keys[1..])
  }

  /** Mixes the hashes of `ds` into `h`, one after the other. */
  function MixAll<D>(f: D -> nat, h: nat, ds: seq<D>): nat
    decreases ds
  {
    if ds == [] then h else MixAll(f, Mix(h, f(ds[0])), ds[1..])
  }

  function Given<D>(ds: seq<D>): seq<Option<D>> {
    seq(|ds|, k requires 0 <= k < |ds| => Some(ds[k]))
  }

  lemma {:induction false} PresentAppend<D>(keys: seq<Option<D>>, x: Option<D>)
    ensures Present(keys + [x]) == Present(keys) + if x.None? then [] else [x.value]
    decreases keys
  {
    if keys == [] {
      assert keys + [x] == [x] && [x][1..] == [];
    } else {
      PresentAppend(keys[1..], x);
      assert (keys + [x])[1..] == keys[1..] + [x];
    }
  }

  lemma {:induction false} MixAppend<D>(f: D -> nat, h: nat, ds: seq<D>, d: D)
    ensures MixAll(f, h, ds + [d]) == Mix(MixAll(f, h, ds), f(d))
    decreases ds
  {
    if ds == [] {
      assert ds + [d] == [d] && [d][1..] == [];
    } else {
      MixAppend(f, Mix(h, f(ds[0])), ds[1..], d);
      assert (ds + [d])[1..] == ds[1..] + [d];
    }
  }

  /** The build hash mixes the keys that are not NULL, in order, starting from 0. */
  lemma {:induction false} BuildMixes<D>(f: D -> nat, keys: seq<Option<D>>)
    ensures BuildHash(f, keys) == MixAll(f, 0, Present(keys))
    decreases |keys|
  {
    if keys != [] {
      var n := |keys| - 1;
      BuildMixes(f, keys[..n]);
      PresentAppend(keys[..n], keys[n]);
      assert keys == keys[..n] + [keys[n]];
      if keys[n].Some? {
        MixAppend(f, 0, Present(keys[..n]), keys[n].value);
      } else {
        assert Present(keys[..n]) + [] == Present(keys[..n]);
      }
    }
  }

  lemma {:induction false} PresentGiven<D>(ds: seq<D>)
    ensures Present(Given(ds)) == ds
    decreases ds
  {
    if ds != [] {
      PresentGiven(ds[1..]);
      assert Given(ds)[1..] == Given(ds[1..]);
    }
  }

  /** NULL keys leave no trace in the build hash, wherever they stand. */
  lemma NullsPassedOver<D>(f: D -> nat, keys: seq<Option<D>>)
    ensures BuildHash(f, keys) == BuildHash(f, Given(Present(keys)))
  {
    BuildMixes(f, keys);
    BuildMixes(f, Given(Present(keys)));
    PresentGiven(Present(keys));
  }

  lemma {:induction false} BuildWord<D>(f: D -> nat, keys: seq<Option<D>>)
    ensures BuildHash(f, keys) < WORD
    decreases |keys|
  {
    if keys != [] {
      var n := |keys| - 1;
      BuildWord(f, keys[..n]);
      if keys[n].Some? { MixWord(BuildHash(f, keys[..n]), f(keys[n].value)); }
    }
  }

  /**
   Beside any keys there is one last key hash with which an outer row is looked
   up under a given hash: the one taken out of it.
   */
  lemma LastKeyDecides<D>(f: D -> nat, keys: seq<Option<D>>, d: D, m: nat)
    requires !AnyNull(keys) && f(d) < WORD && m < WORD
    ensures ProbeHash(f, keys + [Some(d)]) == Some(m) <==> f(d) == Unmix(BuildHash(f, keys), m)
  {
    var all, h := keys + [Some(d)], BuildHash(f, keys);
    assert all[..|all| - 1] == keys;
    HashesAgree(f, keys);
    BuildWord(f, keys);
    UnmixMix(h, f(d));
    MixUnmix(h, m);
  }
}
