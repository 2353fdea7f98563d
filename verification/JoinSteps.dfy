/**
 What a hash join in progress still has to emit, as a function of its state,
 and how the single steps of the join change it.
 */
module JoinSteps {
  import opened Orders
  import opened HashKeys
  import opened Batches
  import opened JoinSpec

  /** An entry of the hash table. */
  datatype Entry<I> = Entry(hash: nat, row: I, matched: bool)

  function Fresh<O, I>(p: Plan<O, I>, rs: seq<I>): (es: seq<Entry<I>>)
    ensures |es| == |rs|
    ensures forall j :: 0 <= j < |rs| ==> es[j] == Entry(p.innerHash(rs[j]), rs[j], false)
  {
    seq(|rs|, j requires 0 <= j < |rs| => Entry(p.innerHash(rs[j]), rs[j], false))
  }

  function Rows<I>(table: seq<Entry<I>>): (rs: seq<I>)
    ensures |rs| == |table| && forall j :: 0 <= j < |rs| ==> rs[j] == table[j].row
  {
    seq(|table|, j requires 0 <= j < |table| => table[j].row)
  }

  /** Entries carry the hash of their row, and belong to batch `b`. */
  ghost predicate Filed<O, I>(p: Plan<O, I>, n: nat, b: nat, table: seq<Entry<I>>) {
    forall j :: 0 <= j < |table| ==> table[j].hash == p.innerHash(table[j].row) && BatchOf(n, table[j].hash) == b
  }

  predicate Within(bucket: seq<nat>, size: nat) {
    forall j :: 0 <= j < |bucket| ==> bucket[j] < size
  }

  /** The positions from `j` on of the entries with hash `h`. */
  function Positions<I>(table: seq<Entry<I>>, h: nat, j: nat): (ps: seq<nat>)
    requires j <= |table|
    ensures forall x :: x in ps <==> j <= x < |table| && table[x].hash == h
    decreases |table| - j
  {
    if j == |table| then []
    else (if table[j].hash == h then [j] else []) + Positions(table, h, j + 1)
  }

  function RowsAt<I>(table: seq<Entry<I>>, ps: seq<nat>): seq<I>
    requires Within(ps, |table|)
  {
    if ps == [] then [] else [table[ps[0]].row] + RowsAt(table, ps[1..])
  }

  // ------------------------------------------------------ what is still to come

  /** What the outer rows `os` yield while batch `b`, with inner rows `rs`, is current. */
  ghost function OuterRows<O, I>(p: Plan<O, I>, n: nat, b: nat, rs: seq<I>, os: seq<O>): multiset<Row<O, I>> {
    if os == [] then multiset{} else OuterRow(p, n, b, rs, os[0]) + OuterRows(p, n, b, rs, os[1..])
  }

  ghost function OuterRow<O, I>(p: Plan<O, I>, n: nat, b: nat, rs: seq<I>, o: O): multiset<Row<O, I>> {
    match p.outerHash(o)
    case None => NullRows(p, o)
    case Some(h) => if BatchOf(n, h) == b then ProbeRows(p, o, Bucket(p, rs, h), false) else multiset{}
  }

  /** The entries from `j` on that no one hits: not yet matched, not pending, not to be hit by `os`. */
  ghost function ScanRows<O, I>(p: Plan<O, I>, table: seq<Entry<I>>, pending: seq<nat>, os: seq<O>, j: nat)
    : multiset<Row<O, I>>
    requires j <= |table|
    decreases |table| - j
  {
    if j == |table| then multiset{} else ScanRow(p, table[j], j in pending, os) + ScanRows(p, table, pending, os, j + 1)
  }

  ghost function ScanRow<O, I>(p: Plan<O, I>, e: Entry<I>, pending: bool, os: seq<O>): multiset<Row<O, I>> {
    if KeepsInner(p.kind) && !e.matched && !pending && !HashHit(p, e.hash, os) then multiset{InnerOnly(e.row)}
    else multiset{}
  }

  /** An outer row of another batch is set aside for that batch; it is lost if that batch is 0. */
  function Aside<O, I>(p: Plan<O, I>, n: nat, b: nat, batches: seq<seq<O>>, o: O): (r: seq<seq<O>>)
    requires BatchesInRange(n) && |batches| == n - 1
    ensures |r| == n - 1
  {
    match p.outerHash(o)
    case None => batches
    case Some(h) =>
      var k := BatchOf(n, h);
      if k == b || k == 0 then batches else batches[k - 1 := batches[k - 1] + [o]]
  }

  function AllAside<O, I>(p: Plan<O, I>, n: nat, b: nat, batches: seq<seq<O>>, os: seq<O>): (r: seq<seq<O>>)
    requires BatchesInRange(n) && |batches| == n - 1
    ensures |r| == n - 1
    decreases |os|
  {
    if os == [] then batches else AllAside(p, n, b, Aside(p, n, b, batches, os[0]), os[1..])
  }

  /** What the batches from `b` on yield. */
  ghost function Later<O, I>(p: Plan<O, I>, n: nat, b: nat, inners: seq<seq<I>>, outers: seq<seq<O>>)
    : multiset<Row<O, I>>
    requires BatchesInRange(n) && |inners| == |outers| == n - 1 && b > 0
    decreases n - b
  {
    if b >= n then multiset{} else
      var rs, os := NotNull(p, inners[b - 1]), outers[b - 1];
      BatchRows(p, n, b, Fresh(p, rs), [], os) + Later(p, n, b + 1, inners, AllAside(p, n, b, outers, os))
  }

  /** What the current batch yields, besides the rest of the current bucket. */
  ghost function BatchRows<O, I>(p: Plan<O, I>, n: nat, b: nat, table: seq<Entry<I>>, pending: seq<nat>, os: seq<O>)
    : multiset<Row<O, I>>
  {
    OuterRows(p, n, b, Rows(table), os) + ScanRows(p, table, pending, os, 0)
  }

  // ------------------------------------------------------------- single steps

  lemma {:induction false} NoScan<O, I>(p: Plan<O, I>, table: seq<Entry<I>>, pending: seq<nat>, os: seq<O>, j: nat)
    requires j <= |table| && !KeepsInner(p.kind)
    ensures ScanRows(p, table, pending, os, j) == multiset{}
    decreases |table| - j
  {
    if j < |table| { NoScan(p, table, pending, os, j + 1); }
  }

  /** Marking the next entry of the bucket takes it off the pending ones. */
  lemma {:induction false} ScanVisit<O, I>(p: Plan<O, I>, table: seq<Entry<I>>, bucket: seq<nat>, os: seq<O>, j: nat)
    requires j <= |table| && bucket != [] && bucket[0] < |table|
    ensures var k := bucket[0];
      ScanRows(p, table[k := table[k].(matched := true)], bucket[1..], os, j) == ScanRows(p, table, bucket, os, j)
    decreases |table| - j
  {
    if j < |table| {
      assert bucket == [bucket[0]] + bucket[1..];
      ScanVisit(p, table, bucket, os, j + 1);
    }
  }

  lemma HitTail<O, I>(p: Plan<O, I>, h: nat, os: seq<O>)
    requires os != []
    ensures HashHit(p, h, os) <==> p.outerHash(os[0]) == Some(h) || HashHit(p, h, os[1..])
  {
    assert os == [os[0]] + os[1..];
    HitCons(p, h, os[0], os[1..]);
  }

  /** Fetching an outer row makes the entries with its hash pending. */
  lemma {:induction false} ScanFetch<O, I>(p: Plan<O, I>, table: seq<Entry<I>>, os: seq<O>, h: nat, j: nat)
    requires j <= |table| && os != [] && p.outerHash(os[0]) == Some(h)
    ensures ScanRows(p, table, Positions(table, h, 0), os[1..], j) == ScanRows(p, table, [], os, j)
    decreases |table| - j
  {
    if j < |table| {
      HitTail(p, table[j].hash, os);
      ScanFetch(p, table, os, h, j + 1);
    }
  }

  /** An outer row without hash, or of another batch, hits nothing here. */
  lemma {:induction false} ScanSkip<O, I>(p: Plan<O, I>, n: nat, b: nat, table: seq<Entry<I>>, os: seq<O>, j: nat)
    requires j <= |table| && Filed(p, n, b, table) && os != []
    requires p.outerHash(os[0]).Some? ==> BatchOf(n, p.outerHash(os[0]).value) != b
    ensures ScanRows(p, table, [], os[1..], j) == ScanRows(p, table, [], os, j)
    decreases |table| - j
  {
    if j < |table| {
      HitTail(p, table[j].hash, os);
      assert ScanRow(p, table[j], false, os[1..]) == ScanRow(p, table[j], false, os);
      ScanSkip(p, n, b, table, os, j + 1);
    }
  }

  /** The bucket of positions holds the bucket of rows. */
  lemma {:induction false} BucketRows<O, I>(p: Plan<O, I>, n: nat, b: nat, table: seq<Entry<I>>, h: nat, j: nat)
    requires j <= |table| && Filed(p, n, b, table)
    ensures Within(Positions(table, h, j), |table|)
    ensures RowsAt(table, Positions(table, h, j)) == Bucket(p, Rows(table)[j..], h)
    decreases |table| - j
  {
    var ps := Positions(table, h, j);
    forall x | 0 <= x < |ps| ensures ps[x] < |table| { assert ps[x] in ps; }
    if j < |table| {
      BucketRows(p, n, b, table, h, j + 1);
      var rs := Rows(table);
      assert rs[j..][0] == rs[j] && rs[j..][1..] == rs[j + 1..];
      var rest := Positions(table, h, j + 1);
      if table[j].hash == h { assert ps[1..] == rest; } else { assert [] + rest == rest; }
    }
  }

  /** Marking entries changes no row. */
  lemma {:induction false} RowsAtMarked<I>(table: seq<Entry<I>>, k: nat, ps: seq<nat>)
    requires k < |table| && Within(ps, |table|)
    ensures RowsAt(table[k := table[k].(matched := true)], ps) == RowsAt(table, ps)
    decreases |ps|
  {
    if ps != [] { RowsAtMarked(table, k, ps[1..]); }
  }

  lemma RowsMarked<I>(table: seq<Entry<I>>, k: nat)
    requires k < |table|
    ensures Rows(table[k := table[k].(matched := true)]) == Rows(table)
  {
  }

  /** Visiting an entry: what the current batch yields besides the current bucket stays the same. */
  lemma VisitRows<O, I>(p: Plan<O, I>, n: nat, b: nat, table: seq<Entry<I>>, bucket: seq<nat>, os: seq<O>)
    requires bucket != [] && Within(bucket, |table|)
    ensures var k := bucket[0];
      var marked := table[k := table[k].(matched := true)];
      && BatchRows(p, n, b, marked, bucket[1..], os) == BatchRows(p, n, b, table, bucket, os)
      && RowsAt(table, bucket) == [table[k].row] + RowsAt(marked, bucket[1..])
  {
    RowsMarked(table, bucket[0]);
    ScanVisit(p, table, bucket, os, 0);
    RowsAtMarked(table, bucket[0], bucket[1..]);
  }

  /** Fetching an outer row of the current batch: its bucket is opened. */
  lemma FetchRows<O, I>(p: Plan<O, I>, n: nat, b: nat, table: seq<Entry<I>>, os: seq<O>, h: nat)
    requires Filed(p, n, b, table) && os != [] && p.outerHash(os[0]) == Some(h) && BatchOf(n, h) == b
    ensures var ps := Positions(table, h, 0);
      && Within(ps, |table|)
      && BatchRows(p, n, b, table, [], os) ==
           ProbeRows(p, os[0], RowsAt(table, ps), false) + BatchRows(p, n, b, table, ps, os[1..])
  {
    BucketRows(p, n, b, table, h, 0);
    assert Rows(table)[0..] == Rows(table);
    ScanFetch(p, table, os, h, 0);
  }

  /** Fetching any other outer row. */
  lemma SkipRows<O, I>(p: Plan<O, I>, n: nat, b: nat, table: seq<Entry<I>>, os: seq<O>)
    requires Filed(p, n, b, table) && os != []
    requires p.outerHash(os[0]).Some? ==> BatchOf(n, p.outerHash(os[0]).value) != b
    ensures BatchRows(p, n, b, table, [], os) ==
      (if p.outerHash(os[0]).None? then NullRows(p, os[0]) else multiset{}) + BatchRows(p, n, b, table, [], os[1..])
  {
    ScanSkip(p, n, b, table, os, 0);
  }
}
