/**
 The hash join node: it builds the hash table from the inner rows, spilling
 to batches when memory runs out, and hands out the joined rows one by one.
 */
module HashJoins {
  import opened Orders
  import opened HashKeys
  import opened Batches
  import opened JoinSpec
  import opened JoinSteps
  import opened JoinWhole
  import opened JoinBuild
  import opened JoinMachine
  import opened JoinExact

  class HashJoin<O, I> {
    const p: Plan<O, I>
    const inner: seq<I>           // what the inner child returns
    const outer: seq<O>           // what the outer child returns
    const workMem: nat
    const bytes: I -> nat         // the memory an entry takes
    const entryBytes: nat         // the estimate of that used after spilling

    var phase: Phase
    var table: seq<Entry<I>>
    var numBatches: nat
    var innerBatches: seq<seq<I>>
    var outerBatches: seq<seq<O>>
    var memUsed: nat
    var curBatch: nat
    var outerPos: nat             // how far the outer child, or the current outer batch, has been read
    var current: Option<O>
    var needNewOuter: bool
    var matchedOuter: bool
    var hasBucket: bool
    var bucket: seq<nat>          // positions of the entries still to be visited
    var scanStarted: bool
    var scanPos: nat

    ghost function Job(): Input<O, I>
      requires workMem > 0
    {
      Input(p, inner, outer, Planned(bytes, workMem, inner, 0))
    }

    ghost function View(): State<O, I>
      reads this
    {
      State(phase, table, numBatches, innerBatches, outerBatches, curBatch, outerPos,
            if hasBucket && current.Some? then Some(Opened(current.value, bucket, matchedOuter)) else None,
            if scanStarted then scanPos else 0)
    }

    ghost predicate Valid()
      reads this
    {
      && workMem > 0 && Rehashes(p, inner)
      && Sane(Job(), View())
      && (hasBucket ==> current.Some? && !needNewOuter)
      && (phase.Build? ==> Empty())
    }

    ghost predicate Empty()
      reads this
    {
      && table == [] && numBatches == 1 && innerBatches == [] && outerBatches == []
      && memUsed == 0 && curBatch == 0 && outerPos == 0 && !hasBucket && !scanStarted
    }

    /** The rows this join has still to hand out. */
    ghost function Remaining(): multiset<Row<O, I>>
      requires Valid()
      reads this
    {
      ToCome(Job(), View())
    }

    constructor (p: Plan<O, I>, inner: seq<I>, outer: seq<O>, workMem: nat, bytes: I -> nat, entryBytes: nat)
      requires workMem > 0 && Rehashes(p, inner)
      ensures Valid() && phase.Build?
      ensures this.p == p && this.inner == inner && this.outer == outer
      ensures this.workMem == workMem && this.bytes == bytes && this.entryBytes == entryBytes
    {
      this.p, this.inner, this.outer := p, inner, outer;
      this.workMem, this.bytes, this.entryBytes := workMem, bytes, entryBytes;
      phase, table, numBatches, innerBatches, outerBatches := Build, [], 1, [], [];
      memUsed, curBatch, outerPos, needNewOuter, hasBucket, scanStarted := 0, 0, 0, true, false, false;
      current, matchedOuter, bucket, scanPos := None, false, [], 0;
      new;
      PlannedInRange(bytes, workMem, inner, 0);
    }

    // ------------------------------------------------------------- building

    /** Splits the table into `n` batches: batch 0 stays, the others are spilled. */
    method ExpandBatches(n: nat, ghost rs: seq<I>)
      requires n > 1 && BatchesInRange(n) && table == Fresh(p, rs)
      modifies `table, `innerBatches, `outerBatches, `numBatches, `memUsed
      ensures Held(p, n, rs, table, innerBatches)
      ensures outerBatches == seq(n - 1, _ => []) && numBatches == n && memUsed == |table| * entryBytes
    {
      var kept: seq<Entry<I>>, spilled: seq<seq<I>> := [], seq(n - 1, _ => []);
      for j := 0 to |table|
        modifies {}
        invariant Held(p, n, rs[..j], kept, spilled)
      {
        var e := table[j];
        var batch := BatchOf(n, e.hash);
        HoldOne(p, n, rs[..j], kept, spilled, e.row);
        assert rs[..j + 1] == rs[..j] + [e.row];
        if batch == 0 {
          kept := kept + [e];
        } else {
          spilled := spilled[batch - 1 := spilled[batch - 1] + [e.row]];
        }
      }
      assert rs[..|table|] == rs;
      table, innerBatches, outerBatches, numBatches := kept, spilled, seq(n - 1, _ => []), n;
      memUsed := |table| * entryBytes;
    }

    /** The first `k` inner rows are in place. */
    ghost predicate Built(k: nat)
      reads `table, `numBatches, `innerBatches, `outerBatches, `memUsed
    {
      && workMem > 0 && k <= |inner| && BatchesInRange(numBatches)
      && Held(p, numBatches, inner[..k], table, innerBatches)
      && outerBatches == seq(numBatches - 1, _ => [])
      && (numBatches == 1 ==> memUsed == TotalBytes(bytes, inner[..k]) <= workMem)
      && Planned(bytes, workMem, inner, 0) ==
           if numBatches == 1 then Planned(bytes, workMem, inner[k..], memUsed) else numBatches
    }

    /** Too much memory is in use: chooses a number of batches and splits the table. */
    method SplitUp(k: nat)
      requires workMem > 0 && k <= |inner| && numBatches == 1 && Held(p, 1, inner[..k], table, innerBatches)
      requires Planned(bytes, workMem, inner, 0) == Doubled(2, Ratio(memUsed, workMem))
      modifies `table, `innerBatches, `outerBatches, `numBatches, `memUsed
      ensures Built(k)
    {
      var n := ChooseBatches(memUsed, workMem);
      ChosenInRange(Ratio(memUsed, workMem));
      ghost var rows := inner[..k];
      OneBatch(p, rows);
      assert n > 1 && n == Planned(bytes, workMem, inner, 0) && table == Fresh(p, rows);
      ExpandBatches(n, rows);
    }

    /** Puts inner row `k` into the table or its batch. */
    method AddInner(k: nat)
      requires k < |inner| && Built(k)
      modifies `table, `innerBatches, `outerBatches, `numBatches, `memUsed
      ensures Built(k + 1)
    {
      var i := inner[k];
      var hash := p.innerHash(i);
      assert inner[..k + 1] == inner[..k] + [i] && inner[k..][1..] == inner[k + 1..];
      HoldOne(p, numBatches, inner[..k], table, innerBatches, i);
      TotalAppend(bytes, inner[..k], i);
      var batch := BatchOf(numBatches, hash);
      if batch == 0 {
        table, memUsed := table + [Entry(hash, i, false)], memUsed + bytes(i);
        if numBatches == 1 && memUsed > workMem {
          SplitUp(k + 1);
        }
      } else {
        innerBatches := innerBatches[batch - 1 := innerBatches[batch - 1] + [i]];
      }
    }

    /** Reads all inner rows. */
    method BuildHashTable()
      requires Valid() && phase.Build?
      modifies `table, `innerBatches, `outerBatches, `numBatches, `memUsed
      ensures Built(|inner|)
      ensures numBatches == 1 <==> TotalBytes(bytes, inner) <= workMem
      ensures numBatches != 1 ==> exists k :: Outgrown(bytes, workMem, inner, 0, numBatches, k)
    {
      PlannedInRange(bytes, workMem, [], 0);
      PlannedMeaning(bytes, workMem, inner, 0);
      assert inner[0..] == inner;
      for k := 0 to |inner|
        invariant Built(k)
      {
        AddInner(k);
      }
    }

    // ------------------------------------------------------------- probing

    /** Visits the next entry of the open bucket. */
    method VisitEntry() returns (r: Option<Row<O, I>>)
      requires hasBucket && current.Some? && bucket != [] && bucket[0] < |table|
      modifies `table, `bucket, `matchedOuter, `hasBucket, `needNewOuter
      ensures Step(r, View()) == Visit(p, old(View()))
      ensures hasBucket ==> needNewOuter == old(needNewOuter)
    {
      var k, o := bucket[0], current.value;
      var i := table[k].row;
      table := table[k := table[k].(matched := true)];
      bucket := bucket[1..];
      r := None;
      if p.qual(o, i) {
        matchedOuter := true;
        match p.kind
        case Semi =>
          hasBucket, needNewOuter := false, true;
          r := Some(SemiRow(o));
        case Anti =>
          hasBucket, needNewOuter := false, true;
        case _ =>
          r := Some(Pair(o, i));
      }
    }

    /** Closes the exhausted bucket of the current outer row. */
    method SettleOuter() returns (r: Option<Row<O, I>>)
      requires hasBucket && current.Some? && !needNewOuter
      modifies `hasBucket, `needNewOuter
      ensures Step(r, View()) == Settle(p, old(View())) && !hasBucket
    {
      hasBucket, needNewOuter := false, true;
      if p.kind.Anti? && !matchedOuter {
        r := Some(OuterOnly(current.value));
      } else if (p.kind.Left? || p.kind.Full?) && !matchedOuter {
        r := Some(OuterOnly(current.value));
      } else {
        r := None;
      }
    }

    /** Looks up the outer row just read, or sets it aside for its batch. */
    method PlaceOuter(o: O) returns (r: Option<Row<O, I>>)
      requires BatchesInRange(numBatches) && numBatches == |outerBatches| + 1
      requires !hasBucket
      modifies `current, `needNewOuter, `matchedOuter, `outerBatches, `hasBucket, `bucket
      ensures Step(r, View()) == Place(p, old(View()), o)
      ensures hasBucket ==> current.Some? && !needNewOuter
    {
      current, needNewOuter, matchedOuter := Some(o), false, false;
      r := None;
      match p.outerHash(o)
      case None =>
        needNewOuter := true;
        if p.kind.Left? || p.kind.Full? || p.kind.Anti? { r := Some(OuterOnly(o)); }
      case Some(h) =>
        var batch := BatchOf(numBatches, h);
        if batch != curBatch {
          if batch > 0 {
            outerBatches := outerBatches[batch - 1 := outerBatches[batch - 1] + [o]];
          }
          needNewOuter := true;
        } else {
          bucket, hasBucket := Positions(table, h, 0), true;
        }
    }

    /** Reads the next outer row of the current batch. */
    method FetchOuter() returns (r: Option<Row<O, I>>)
      requires BatchesInRange(numBatches) && numBatches == |outerBatches| + 1 && curBatch < numBatches
      requires workMem > 0 && !hasBucket && outerPos < |Source(Job(), View())|
      modifies `outerPos, `current, `needNewOuter, `matchedOuter, `outerBatches, `hasBucket, `bucket
      ensures Step(r, View()) == Fetch(Job(), old(View()))
      ensures hasBucket ==> current.Some? && !needNewOuter
    {
      var o := if curBatch == 0 then outer[outerPos] else outerBatches[curBatch - 1][outerPos];
      outerPos := outerPos + 1;
      r := PlaceOuter(o);
    }

    // ----------------------------------------------------- the other batches

    /** The table of a spilled batch; rows with a NULL key are skipped. */
    method ReadBack(store: seq<I>) returns (entries: seq<Entry<I>>)
      requires Rehashes(p, store)
      ensures entries == Fresh(p, NotNull(p, store))
    {
      entries := [];
      for k := 0 to |store|
        invariant entries == Fresh(p, NotNull(p, store[..k]))
      {
        var i := store[k];
        NotNullAppend(p, store[..k], i);
        FreshAppend(p, NotNull(p, store[..k]), i);
        assert store[..k + 1] == store[..k] + [i];
        match p.innerRehash(i)
        case None =>
        case Some(hash) =>
          entries := entries + [Entry(hash, i, false)];
      }
      assert store[..|store|] == store;
    }

    /** Moves to the next batch and reads its inner rows back, if there is one. */
    method LoadNextBatch() returns (more: bool)
      requires |innerBatches| == numBatches - 1
      requires curBatch < |innerBatches| ==> Rehashes(p, innerBatches[curBatch])
      modifies `curBatch, `table, `memUsed, `outerPos, `needNewOuter, `hasBucket, `scanStarted
      ensures View() == Load(p, old(View())).(phase := phase)
      ensures more <==> curBatch < numBatches
      ensures hasBucket ==> old(hasBucket) && needNewOuter == old(needNewOuter)
    {
      curBatch := curBatch + 1;
      if curBatch >= numBatches { return false; }
      table, memUsed := [], 0;
      table := ReadBack(innerBatches[curBatch - 1]);
      outerPos, needNewOuter, hasBucket, scanStarted := 0, true, false, false;
      return true;
    }

    /** Finds the next entry that was never matched. */
    method ScanUnmatched() returns (r: Option<Row<O, I>>)
      requires scanStarted ==> scanPos <= |table|
      modifies `scanStarted, `scanPos
      ensures Step(r, View()) == ScanOn(old(View()))
    {
      if !scanStarted {
        scanPos, scanStarted := 0, true;
      }
      while scanPos < |table|
        invariant scanPos <= |table| && scanStarted
        invariant ScanOn(View()) == ScanOn(old(View()))
      {
        var e := table[scanPos];
        scanPos := scanPos + 1;
        if !e.matched {
          return Some(InnerOnly(e.row));
        }
      }
      r := None;
    }

    /** The end of a batch: the next batch, or the end of the join. */
    method NextBatch()
      requires |innerBatches| == numBatches - 1
      requires curBatch < |innerBatches| ==> Rehashes(p, innerBatches[curBatch])
      modifies `curBatch, `table, `memUsed, `outerPos, `needNewOuter, `hasBucket, `scanStarted, `phase
      ensures View() == Load(p, old(View()))
      ensures hasBucket ==> old(hasBucket) && needNewOuter == old(needNewOuter)
    {
      var more := LoadNextBatch();
      phase := if more then Probe else Done;
    }

    // ---------------------------------------------------------- row by row

    method ScanOrNextBatch() returns (r: Option<Row<O, I>>)
      requires scanStarted ==> scanPos <= |table|
      requires |innerBatches| == numBatches - 1
      requires curBatch < |innerBatches| ==> Rehashes(p, innerBatches[curBatch])
      modifies `curBatch, `table, `memUsed, `outerPos, `needNewOuter, `hasBucket, `scanStarted, `scanPos, `phase
      ensures Step(r, View()) == ScanOrLoad(p, old(View()))
      ensures hasBucket ==> old(hasBucket) && needNewOuter == old(needNewOuter)
    {
      r := ScanUnmatched();
      if r.None? {
        NextBatch();
      }
    }

    method ScanRound() returns (r: Option<Row<O, I>>)
      requires Valid() && phase.Scan?
      modifies this
      ensures Valid() && !phase.Build?
      ensures Advances(Job(), old(View()), Step(r, View()))
    {
      SpreadRehashes(p, numBatches, inner, innerBatches);
      ScanOrLoadAdvances(Job(), View());
      r := ScanOrNextBatch();
    }

    method VisitRound() returns (r: Option<Row<O, I>>)
      requires Valid() && phase.Probe? && hasBucket && bucket != []
      modifies this
      ensures Valid() && !phase.Build?
      ensures Advances(Job(), old(View()), Step(r, View()))
    {
      VisitAdvances(Job(), View());
      r := VisitEntry();
    }

    method SettleRound() returns (r: Option<Row<O, I>>)
      requires Valid() && phase.Probe? && hasBucket && bucket == []
      modifies this
      ensures Valid() && !phase.Build?
      ensures Advances(Job(), old(View()), Step(r, View()))
    {
      SettleAdvances(Job(), View());
      r := SettleOuter();
    }

    method FetchRound() returns (r: Option<Row<O, I>>)
      requires Valid() && phase.Probe? && !hasBucket && outerPos < |Source(Job(), View())|
      modifies this
      ensures Valid() && !phase.Build?
      ensures Advances(Job(), old(View()), Step(r, View()))
    {
      FetchAdvances(Job(), View());
      r := FetchOuter();
    }

    method EndRound()
      requires Valid() && phase.Probe? && !hasBucket && outerPos == |Source(Job(), View())|
      modifies this
      ensures Valid() && !phase.Build?
      ensures Advances(Job(), old(View()), Step(None, View()))
    {
      if p.kind.Right? || p.kind.Full? {
        ScanStartAdvances(Job(), View());
        phase, scanStarted := Scan, false;
      } else {
        SpreadRehashes(p, numBatches, inner, innerBatches);
        LoadAdvances(Job(), View());
        NextBatch();
      }
    }

    /** One round of the executor loop after the build phase. */
    method Advance() returns (r: Option<Row<O, I>>)
      requires Valid() && (phase.Probe? || phase.Scan?)
      modifies this
      ensures Valid() && !phase.Build?
      ensures Advances(Job(), old(View()), Step(r, View()))
    {
      if phase.Scan? {
        r := ScanRound();
      } else if hasBucket && bucket != [] {
        r := VisitRound();
      } else if hasBucket {
        r := SettleRound();
      } else if outerPos < (if curBatch == 0 then |outer| else |outerBatches[curBatch - 1]|) {
        r := FetchRound();
      } else {
        EndRound();
        r := None;
      }
    }

    /** The build phase. */
    method Start()
      requires Valid() && phase.Build?
      modifies this
      ensures Valid() && phase.Probe?
      ensures Conserves(Job(), old(View()), Step(None, View()))
    {
      BuildAndSwitch();
      StartConserves(Job(), old(View()), innerBatches);
    }

    method BuildAndSwitch()
      requires Valid() && phase.Build?
      modifies `table, `innerBatches, `outerBatches, `numBatches, `memUsed, `phase, `needNewOuter, `curBatch
      ensures Job().n > 0 && View() == Started(Job(), innerBatches) && !hasBucket
      ensures Spread(p, Job().n, inner, innerBatches)
    {
      BuildHashTable();
      assert inner[..|inner|] == inner && inner[|inner|..] == [];
      phase, needNewOuter, curBatch := Probe, true, 0;
    }

    /** The next joined row, or none when there are no more. */
    method Next() returns (r: Option<Row<O, I>>)
      requires Valid()
      modifies this
      ensures Valid()
      ensures old(Remaining()) == Emitted(r) + Remaining()
      ensures r.None? ==> Remaining() == multiset{}
    {
      r := None;
      if phase.Build? {
        Start();
      }
      while !phase.Done?
        invariant Valid() && !phase.Build?
        invariant r.None? && Remaining() == old(Remaining())
        decreases BatchesLeft(View()), PhaseLeft(View()), RowsLeft(Job(), View()), BucketLeft(View())
      {
        r := Advance();
        if r.Some? {
          return;
        }
      }
    }

    /** Starts all over, wherever the join stands. */
    method Rescan()
      requires Valid()
      modifies this
      ensures Valid() && phase.Build?
      ensures Remaining() == JoinRows(p, Survivors(p, Planned(bytes, workMem, inner, 0), inner), outer)
    {
      table, innerBatches, outerBatches, numBatches, memUsed := [], [], [], 1, 0;
      phase, needNewOuter, hasBucket, curBatch, scanStarted := Build, true, false, 0, false;
      outerPos := 0;
      PlannedInRange(bytes, workMem, inner, 0);
    }
  }

  lemma CollectOne<R>(rows: seq<R>, r: R, rest: multiset<R>)
    ensures multiset(rows) + (multiset{r} + rest) == multiset(rows + [r]) + rest
  {
  }

  /** A join run to its end. */
  method Collect<O, I>(
      p: Plan<O, I>, inner: seq<I>, outer: seq<O>, workMem: nat, bytes: I -> nat, entryBytes: nat) returns (rows: seq<Row<O, I>>)
    requires workMem > 0 && Rehashes(p, inner)
    ensures multiset(rows) == JoinRows(p, Survivors(p, Planned(bytes, workMem, inner, 0), inner), outer)
  {
    var join := new HashJoin(p, inner, outer, workMem, bytes, entryBytes);
    ghost var all := join.Remaining();
    rows := [];
    var r := join.Next();
    while r.Some?
      invariant join.Valid() && fresh(join)
      invariant multiset(rows) + (Emitted(r) + join.Remaining()) == all
      invariant r.None? ==> join.Remaining() == multiset{}
      decreases r.Some?, |join.Remaining()|
    {
      CollectOne(rows, r.value, join.Remaining());
      rows := rows + [r.value];
      r := join.Next();
    }
  }

  lemma ExactForAll<O, I>(p: Plan<O, I>, n: nat, outer: seq<O>, inner: seq<I>, all: multiset<Row<O, I>>)
    requires all == JoinRows(p, Survivors(p, n, inner), outer)
    ensures forall eq: (O, I) -> bool :: all == Intended(p.kind, eq, outer, inner) <==> Exact(p, eq, n, outer, inner)
  {
    forall eq: (O, I) -> bool ensures all == Intended(p.kind, eq, outer, inner) <==> Exact(p, eq, n, outer, inner) {
      HashJoinExact(p, eq, n, outer, inner);
    }
  }

  /**
   A join on keys, run to its end: the rows of the join of the surviving inner
   rows, and no others; for any relation, the join on it exactly when the
   condition holds.
   */
  method Join<O, I, D>(
      kind: Kind, outerKeys: O -> seq<Option<D>>, innerKeys: I -> seq<Option<D>>, datumHash: D -> nat,
      qual: (O, I) -> bool, inner: seq<I>, outer: seq<O>, workMem: nat, bytes: I -> nat, entryBytes: nat)
      returns (rows: seq<Row<O, I>>)
    requires workMem > 0
    ensures var p := KeyPlan(kind, outerKeys, innerKeys, datumHash, qual);
      multiset(rows) == JoinRows(p, Survivors(p, Planned(bytes, workMem, inner, 0), inner), outer)
    ensures forall eq: (O, I) -> bool ::
      multiset(rows) == Intended(kind, eq, outer, inner) <==>
        Exact(KeyPlan(kind, outerKeys, innerKeys, datumHash, qual), eq, Planned(bytes, workMem, inner, 0), outer, inner)
  {
    var p := KeyPlan(kind, outerKeys, innerKeys, datumHash, qual);
    KeyPlanRehashes(kind, outerKeys, innerKeys, datumHash, qual, inner);
    rows := Collect(p, inner, outer, workMem, bytes, entryBytes);
    ExactForAll(p, Planned(bytes, workMem, inner, 0), outer, inner, multiset(rows));
  }
}
