/** Hashes of join keys and the batch a hash is routed to. */
module HashKeys {
  import opened Orders
  import opened Powers

  const WORD := 0x1_0000_0000_0000_0000   // 2^64
  const SALT := 0x9e3779b9

  /** Bitwise AND and XOR of unsigned integers. */
  function And(a: nat, b: nat): nat {
    if a == 0 || b == 0 then 0 else (if a % 2 == 1 && b % 2 == 1 then 1 else 0) + 2 * And(a / 2, b / 2)
  }

  function Xor(a: nat, b: nat): nat
    decreases a + b
  {
    if a == 0 then b else if b == 0 then a else (a + b) % 2 + 2 * Xor(a / 2, b / 2)
  }

  /** What one more key hash `d` adds to the hash `h` so far, in 64-bit arithmetic. */
  function Added(h: nat, d: nat): nat {
    (d + SALT + (h * 64) % WORD + h / 4) % WORD
  }

  /** Mixes one more key hash into `h`. */
  function Mix(h: nat, d: nat): nat {
    Xor(h, Added(h, d))
  }

  /** The hash the build phase computes: NULL keys are left out. */
  function BuildHash<D>(f: D -> nat, keys: seq<Option<D>>): nat {
    if keys == [] then 0
    else
      var n := |keys| - 1;
      var h := BuildHash(f, keys[..n]);
      if keys[n].None? then h else Mix(h, f(keys[n].value))
  }

  /** The hash the probe phase and batch reloading compute: none when some key is NULL. */
  function ProbeHash<D>(f: D -> nat, keys: seq<Option<D>>): Option<nat> {
    if keys == [] then Some(0)
    else
      var n := |keys| - 1;
      var h := ProbeHash(f, keys[..n]);
      if h.None? || keys[n].None? then None else Some(Mix(h.value, f(keys[n].value)))
  }

  predicate AnyNull<D>(keys: seq<Option<D>>) {
    exists i :: 0 <= i < |keys| && keys[i].None?
  }

  /** Without NULL keys both phases agree; a NULL key is what the probe hash reports. */
  lemma {:induction false} HashesAgree<D>(f: D -> nat, keys: seq<Option<D>>)
    ensures ProbeHash(f, keys).None? <==> AnyNull(keys)
    ensures !AnyNull(keys) ==> ProbeHash(f, keys) == Some(BuildHash(f, keys))
    decreases |keys|
  {
    if keys != [] {
      var n := |keys| - 1;
      HashesAgree(f, keys[..n]);
      assert keys == keys[..n] + [keys[n]];
      assert AnyNull(keys) <==> AnyNull(keys[..n]) || keys[n].None?;
    }
  }

  // ---------------------------------------------------------------- batches

  /** The batch of a hash, 0 when nothing is spilled. */
  function BatchOf(n: nat, hash: nat): nat {
    if n <= 1 then 0 else And(hash, n - 1)
  }

  lemma {:induction false} AndMask(h: nat, k: nat)
    ensures And(h, Pow2(k) - 1) == h % Pow2(k)
    decreases k
  {
    if k > 0 {
      AndMask(h / 2, k - 1);
      var m := Pow2(k - 1);
      assert (2 * m - 1) / 2 == m - 1 && (2 * m - 1) % 2 == 1;
      HalfMod(h, m);
    }
  }

  lemma HalfMod(h: nat, m: nat)
    requires m > 0
    ensures h % (2 * m) == h % 2 + 2 * ((h / 2) % m)
  {
    var q, r := (h / 2) / m, (h / 2) % m;
    assert h / 2 == q * m + r;
    assert h == 2 * (q * m + r) + h % 2;
    assert 2 * (q * m) == q * (2 * m);
    var s := h % 2 + 2 * r;
    assert 0 <= s < 2 * m;
    DivModUnique(h, 2 * m, q, s);
  }

  lemma MulAtLeast(x: nat, d: nat)
    requires x >= 1
    ensures x * d >= d
  {
  }

  lemma Distribute(a: int, b: int, d: int)
    ensures (a - b) * d == a * d - b * d
  {
  }

  lemma DivModUnique(a: nat, d: nat, q: nat, r: nat)
    requires d > 0 && r < d && a == q * d + r
    ensures a % d == r
  {
    var q' := a / d;
    QuotientRemainder(a, d);
    Distribute(q', q, d);
    Distribute(q, q', d);
    if q < q' {
      MulAtLeast(q' - q, d);
    } else if q' < q {
      MulAtLeast(q - q', d);
    }
  }

  lemma QuotientRemainder(a: nat, d: nat)
    requires d > 0
    ensures a == (a / d) * d + a % d && 0 <= a % d < d
  {
  }

  /** With a power of two of batches, the batch is the remainder, and in range. */
  lemma BatchIsRemainder(k: nat, hash: nat)
    ensures BatchOf(Pow2(k), hash) == hash % Pow2(k) < Pow2(k)
  {
    AndMask(hash, k);
    if Pow2(k) <= 1 { assert hash % 1 == 0; }
  }

  /** Doubling the number of batches keeps a hash in its batch or moves it forward by the old number. */
  lemma BatchDoubling(k: nat, hash: nat)
    ensures var b, b' := BatchOf(Pow2(k), hash), BatchOf(Pow2(k + 1), hash);
      b' == b || b' == b + Pow2(k)
  {
    AndDoubled(hash, k);
    if Pow2(k) <= 1 { assert And(hash, 0) == 0; }
  }

  lemma {:induction false} AndDoubled(h: nat, k: nat)
    ensures var b, b' := And(h, Pow2(k) - 1), And(h, Pow2(k + 1) - 1);
      b' == b || b' == b + Pow2(k)
    decreases k
  {
    MaskStep(h, k);
    if k > 0 {
      MaskStep(h, k - 1);
      AndDoubled(h / 2, k - 1);
    }
  }

  lemma MaskStep(h: nat, k: nat)
    ensures And(h, Pow2(k + 1) - 1) == h % 2 + 2 * And(h / 2, Pow2(k) - 1)
  {
    var m := Pow2(k);
    assert (2 * m - 1) / 2 == m - 1 && (2 * m - 1) % 2 == 1;
  }

  /** Over any series of doublings no hash moves to an earlier batch. */
  lemma {:induction false} BatchesOnlyAdvance(j: nat, k: nat, hash: nat)
    requires j <= k
    ensures BatchOf(Pow2(j), hash) <= BatchOf(Pow2(k), hash)
    decreases k
  {
    if j < k {
      BatchesOnlyAdvance(j, k - 1, hash);
      BatchDoubling(k - 1, hash);
    }
  }
}
