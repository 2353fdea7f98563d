/** How many batches a hash join is split into when its inner rows outgrow the memory given. */
module Batches {
  import opened Powers
  import opened HashKeys

  /** The conversion of an unsigned 64-bit number to a signed 32-bit one. */
  function ToInt32(x: nat): (r: int)
    ensures -0x8000_0000 <= r < 0x8000_0000 && (x - r) % 0x1_0000_0000 == 0
  {
    var m := x % 0x1_0000_0000;
    if m < 0x8000_0000 then m else m - 0x1_0000_0000
  }

  function Doubled(n: nat, ratio: nat): nat
    requires n > 0
    decreases 1024 - n
  {
    if n < ToInt32(ratio) && n < 1024 then Doubled(2 * n, ratio) else n
  }

  /** How many times the memory allowed is in use. */
  function Ratio(memUsed: nat, workMem: nat): nat
    requires workMem > 0
  {
    memUsed / workMem
  }

  /**
   The number of batches for `memUsed` bytes: a power of two from 2 to 1024; the
   least one with which the bytes make up fewer than one more share of `workMem`
   than there are batches, if there is one.  The quotient counts as the source
   sees it, through a conversion to 32 bits.
   */
  ghost predicate Chosen(n: nat, memUsed: nat, workMem: nat)
    requires workMem > 0
  {
    && n in {2, 4, 8, 16, 32, 64, 128, 256, 512, 1024}
    && (memUsed / workMem < 0x8000_0000 ==>
          && (n == 1024 || memUsed < (n + 1) * workMem)
          && (n == 2 || (n / 2 + 1) * workMem <= memUsed))
    && (n == 1024 || ToInt32(memUsed / workMem) <= n)
    && (n == 2 || n / 2 < ToInt32(memUsed / workMem))
  }

  method ChooseBatches(memUsed: nat, workMem: nat) returns (n: nat)
    requires workMem > 0
    ensures n == Doubled(2, Ratio(memUsed, workMem)) && Chosen(n, memUsed, workMem)
  {
    ChosenMeaning(memUsed, workMem);
    var ratio := Ratio(memUsed, workMem);
    if ratio < 1 { ratio := 1; }
    n := 2;
    while n < ToInt32(ratio) && n < 1024
      invariant n >= 2 && Doubled(n, ratio) == Doubled(2, ratio)
      decreases 1024 - n
    {
      n := 2 * n;
    }
  }

  /** The chosen number is the least power of two from 2 to 1024 that reaches the ratio, or 1024. */
  lemma {:induction false} DoubledMeaning(k: nat, ratio: nat) returns (j: nat)
    requires 1 <= k <= 10 && (k == 1 || Pow2(k - 1) < ToInt32(ratio))
    ensures k <= j <= 10 && Doubled(Pow2(k), ratio) == Pow2(j)
    ensures j == 10 || ToInt32(ratio) <= Pow2(j)
    ensures j == 1 || Pow2(j - 1) < ToInt32(ratio)
    decreases 10 - k
  {
    Pow2Monotone(k, 10);
    assert Pow2(10) == 1024 by { Pow2Ten(); }
    if Pow2(k) < ToInt32(ratio) && Pow2(k) < 1024 {
      j := DoubledMeaning(k + 1, ratio);
    } else {
      j := k;
      if k < 10 { Pow2Monotone(k, 9); assert Pow2(9) == 512 by { Pow2Ten(); } }
    }
  }

  lemma Shares(memUsed: nat, workMem: nat, m: nat)
    requires workMem > 0
    ensures memUsed / workMem <= m <==> memUsed < (m + 1) * workMem
  {
    var q := memUsed / workMem;
    QuotientRemainder(memUsed, workMem);
    Distribute(q, m, workMem);
    Distribute(m, q, workMem);
    assert (m + 1) * workMem == m * workMem + workMem;
    if q <= m {
      assert 0 <= (m - q) * workMem;
    } else {
      MulAtLeast(q - m, workMem);
    }
  }

  lemma SmallPowers(j: nat)
    requires 1 <= j <= 10
    ensures Pow2(j) in {2, 4, 8, 16, 32, 64, 128, 256, 512, 1024}
    ensures (Pow2(j) == 1024 <==> j == 10) && (Pow2(j) == 2 <==> j == 1) && Pow2(j) / 2 == Pow2(j - 1)
  {
    assert Pow2(2) == 4 && Pow2(4) == 16 && Pow2(6) == 64 && Pow2(8) == 256;
  }

  lemma ChosenMeaning(memUsed: nat, workMem: nat)
    requires workMem > 0
    ensures Chosen(Doubled(2, Ratio(memUsed, workMem)), memUsed, workMem)
  {
    var ratio := Ratio(memUsed, workMem);
    assert Pow2(1) == 2;
    var j := DoubledMeaning(1, ratio);
    SmallPowers(j);
    Shares(memUsed, workMem, Pow2(j));
    Shares(memUsed, workMem, Pow2(j - 1));
  }

  /** There is one such number. */
  lemma ChosenOnce(n: nat, n': nat, memUsed: nat, workMem: nat)
    requires workMem > 0 && Chosen(n, memUsed, workMem) && Chosen(n', memUsed, workMem)
    ensures n == n'
  {
  }

  lemma Pow2Ten()
    ensures Pow2(9) == 512 && Pow2(10) == 1024
  {
    assert Pow2(3) == 8;
    assert Pow2(6) == 64;
    assert Pow2(9) == 512;
  }

  ghost predicate BatchesInRange(n: nat) {
    n > 0 && forall h: nat :: BatchOf(n, h) < n
  }

  lemma PowersInRange(k: nat)
    ensures BatchesInRange(Pow2(k))
  {
    forall h: nat ensures BatchOf(Pow2(k), h) < Pow2(k) { BatchIsRemainder(k, h); }
  }

  lemma ChosenInRange(ratio: nat)
    ensures BatchesInRange(Doubled(2, ratio)) && Doubled(2, ratio) >= 2
  {
    assert Pow2(1) == 2;
    var j := DoubledMeaning(1, ratio);
    PowersInRange(j);
    Pow2Monotone(1, j);
  }

  /** The number of batches after the rest `rs` of the inner rows, `mem` bytes being in use. */
  ghost function Planned<I>(bytes: I -> nat, workMem: nat, rs: seq<I>, mem: nat): nat
    requires workMem > 0
    decreases rs
  {
    if rs == [] then 1
    else
      var now := mem + bytes(rs[0]);
      if now > workMem then Doubled(2, Ratio(now, workMem)) else Planned(bytes, workMem, rs[1..], now)
  }

  function TotalBytes<I>(bytes: I -> nat, rs: seq<I>): nat {
    if rs == [] then 0 else bytes(rs[0]) + TotalBytes(bytes, rs[1..])
  }

  lemma {:induction false} TotalAppend<I>(bytes: I -> nat, rs: seq<I>, i: I)
    ensures TotalBytes(bytes, rs + [i]) == TotalBytes(bytes, rs) + bytes(i)
    decreases rs
  {
    if rs == [] {
      assert rs + [i] == [i] && [i][1..] == [];
    } else {
      TotalAppend(bytes, rs[1..], i);
      assert (rs + [i])[1..] == rs[1..] + [i];
    }
  }

  /** Row `k - 1` is the first with which the rows no longer fit into `workMem`, and `n` is chosen for the first `k`. */
  ghost predicate Outgrown<I>(bytes: I -> nat, workMem: nat, rs: seq<I>, mem: nat, n: nat, k: nat)
    requires workMem > 0
  {
    && 0 < k <= |rs|
    && mem + TotalBytes(bytes, rs[..k - 1]) <= workMem < mem + TotalBytes(bytes, rs[..k])
    && Chosen(n, mem + TotalBytes(bytes, rs[..k]), workMem)
  }

  lemma OutgrownFirst<I>(bytes: I -> nat, workMem: nat, rs: seq<I>, mem: nat, n: nat)
    requires rs != [] && 0 < workMem && mem <= workMem < mem + bytes(rs[0]) && Chosen(n, mem + bytes(rs[0]), workMem)
    ensures Outgrown(bytes, workMem, rs, mem, n, 1)
  {
    assert rs[..0] == [] && rs[..1] == [rs[0]] && [rs[0]][1..] == [];
    assert TotalBytes(bytes, [rs[0]]) == bytes(rs[0]);
  }

  lemma TotalFirst<I>(bytes: I -> nat, rs: seq<I>, k: nat)
    requires 0 < k <= |rs|
    ensures TotalBytes(bytes, rs[..k]) == bytes(rs[0]) + TotalBytes(bytes, rs[1..][..k - 1])
  {
    assert rs[..k][1..] == rs[1..][..k - 1];
  }

  lemma OutgrownLater<I>(bytes: I -> nat, workMem: nat, rs: seq<I>, mem: nat, n: nat, k: nat)
    requires rs != [] && 0 < workMem && Outgrown(bytes, workMem, rs[1..], mem + bytes(rs[0]), n, k)
    ensures Outgrown(bytes, workMem, rs, mem, n, k + 1)
  {
    TotalFirst(bytes, rs, k);
    TotalFirst(bytes, rs, k + 1);
  }

  /** One batch exactly when all rows fit into the memory allowed; else the number for the first rows that do not. */
  lemma {:induction false} PlannedMeaning<I>(bytes: I -> nat, workMem: nat, rs: seq<I>, mem: nat)
    requires 0 < workMem && mem <= workMem
    ensures Planned(bytes, workMem, rs, mem) == 1 <==> mem + TotalBytes(bytes, rs) <= workMem
    ensures mem + TotalBytes(bytes, rs) > workMem ==>
      exists k :: Outgrown(bytes, workMem, rs, mem, Planned(bytes, workMem, rs, mem), k)
    decreases rs
  {
    if rs != [] {
      var now, n := mem + bytes(rs[0]), Planned(bytes, workMem, rs, mem);
      if now > workMem {
        ChosenMeaning(now, workMem);
        OutgrownFirst(bytes, workMem, rs, mem, n);
      } else {
        PlannedMeaning(bytes, workMem, rs[1..], now);
        if now + TotalBytes(bytes, rs[1..]) > workMem {
          var k :| Outgrown(bytes, workMem, rs[1..], now, n, k);
          OutgrownLater(bytes, workMem, rs, mem, n, k);
        }
      }
    }
  }

  lemma {:induction false} PlannedInRange<I>(bytes: I -> nat, workMem: nat, rs: seq<I>, mem: nat)
    requires workMem > 0
    ensures BatchesInRange(Planned(bytes, workMem, rs, mem))
    decreases rs
  {
    if rs == [] {
      assert Pow2(0) == 1;
      PowersInRange(0);
    } else {
      var now := mem + bytes(rs[0]);
      if now > workMem { ChosenInRange(Ratio(now, workMem)); } else { PlannedInRange(bytes, workMem, rs[1..], now); }
    }
  }
}
