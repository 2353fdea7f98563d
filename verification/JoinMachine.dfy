/**
 A hash join as a state machine: its states, its steps, what a state has still
 to hand out, and that every step hands out exactly what it takes off that.
 */
module JoinMachine {
  import opened Orders
  import opened HashKeys
  import opened Batches
  import opened JoinSpec
  import opened JoinSteps
  import opened JoinWhole

  datatype Phase = Build | Probe | Scan | Done

  /** An outer row being matched: the positions still to be visited, and whether it matched before. */
  datatype Opened<O> = Opened(o: O, rest: seq<nat>, matched: bool)

  datatype State<O, I> = State(
    phase: Phase,
    table: seq<Entry<I>>,
    n: nat,                       // number of batches
    inners: seq<seq<I>>,          // spilled inner rows of batches 1, 2, ...
    outers: seq<seq<O>>,          // spilled outer rows of batches 1, 2, ...
    b: nat,                       // current batch
    pos: nat,                     // outer rows of this batch read so far
    open: Option<Opened<O>>,
    scan: nat)                    // entries scanned for missing matches

  /** What the join reads: the plan, both inputs, and the number of batches the inner input will need. */
  datatype Input<!O, !I> = Input(p: Plan<O, I>, inner: seq<I>, outer: seq<O>, n: nat)

  /** The outer rows of the current batch. */
  function Source<O, I>(x: Input<O, I>, s: State<O, I>): seq<O>
    requires s.b == 0 || s.b <= |s.outers|
  {
    if s.b == 0 then x.outer else s.outers[s.b - 1]
  }

  function Ahead<O, I>(x: Input<O, I>, s: State<O, I>): seq<O>
    requires s.b == 0 || s.b <= |s.outers|
    requires s.pos <= |Source(x, s)|
  {
    Source(x, s)[s.pos..]
  }

  function Pending<O, I>(s: State<O, I>): seq<nat> {
    if s.open.Some? then s.open.value.rest else []
  }

  ghost predicate InBatch<O, I>(x: Input<O, I>, s: State<O, I>) {
    && s.b < s.n && s.n == |s.outers| + 1
    && Filed(x.p, s.n, s.b, s.table)
    && s.pos <= |Source(x, s)|
    && Within(Pending(s), |s.table|)
  }

  ghost predicate Sane<O, I>(x: Input<O, I>, s: State<O, I>) {
    && BatchesInRange(x.n)
    && (!s.phase.Build? ==> s.n == x.n && Spread(x.p, s.n, x.inner, s.inners) && |s.outers| == s.n - 1)
    && (s.phase.Probe? ==> InBatch(x, s))
    && (s.phase.Scan? ==> InBatch(x, s) && KeepsInner(x.p.kind) && s.scan <= |s.table|)
  }

  /** What the open bucket yields. */
  ghost function OpenRows<O, I>(x: Input<O, I>, s: State<O, I>): multiset<Row<O, I>>
    requires Within(Pending(s), |s.table|)
  {
    if s.open.None? then multiset{}
    else ProbeRows(x.p, s.open.value.o, RowsAt(s.table, s.open.value.rest), s.open.value.matched)
  }

  /** What is left of the current batch when `os` are still to be read, and then `later` follows. */
  ghost function ProbeLeft<O, I>(x: Input<O, I>, s: State<O, I>, os: seq<O>, later: multiset<Row<O, I>>)
    : multiset<Row<O, I>>
    requires Within(Pending(s), |s.table|)
  {
    OpenRows(x, s) + (BatchRows(x.p, s.n, s.b, s.table, Pending(s), os) + later)
  }

  /** What is left of the scan from entry `j` on, when `later` follows. */
  ghost function ScanLeft<O, I>(p: Plan<O, I>, table: seq<Entry<I>>, j: nat, later: multiset<Row<O, I>>)
    : multiset<Row<O, I>>
    requires j <= |table|
  {
    ScanRows(p, table, [], [], j) + later
  }

  /** What the later batches yield, the outer rows `os` being still to be read. */
  ghost function AfterBatch<O, I>(
      p: Plan<O, I>, n: nat, b: nat, inners: seq<seq<I>>, outers: seq<seq<O>>, os: seq<O>): multiset<Row<O, I>>
    requires BatchesInRange(n) && |inners| == |outers| == n - 1
  {
    Later(p, n, b + 1, inners, AllAside(p, n, b, outers, os))
  }

  /** The rows a state has still to hand out. */
  ghost function ToCome<O, I>(x: Input<O, I>, s: State<O, I>): multiset<Row<O, I>>
    requires Sane(x, s)
  {
    match s.phase
    case Build => JoinRows(x.p, Survivors(x.p, x.n, x.inner), x.outer)
    case Probe =>
      ProbeLeft(x, s, Ahead(x, s), AfterBatch(x.p, s.n, s.b, s.inners, s.outers, Ahead(x, s)))
    case Scan =>
      ScanLeft(x.p, s.table, s.scan, Later(x.p, s.n, s.b + 1, s.inners, s.outers))
    case Done => multiset{}
  }

  ghost function Emitted<R>(r: Option<R>): multiset<R> {
    if r.None? then multiset{} else multiset{r.value}
  }

  // -------------------------------------------------------------------- steps

  datatype Step<O, I> = Step(row: Option<Row<O, I>>, next: State<O, I>)

  /** Visiting the next entry of the open bucket marks it, and hands out what it yields. */
  function Visit<O, I>(p: Plan<O, I>, s: State<O, I>): Step<O, I>
    requires s.open.Some? && s.open.value.rest != [] && s.open.value.rest[0] < |s.table|
  {
    var Opened(o, rest, matched) := s.open.value;
    var i := s.table[rest[0]].row;
    var marked := s.(table := s.table[rest[0] := s.table[rest[0]].(matched := true)]);
    if !p.qual(o, i) then Step(None, marked.(open := Some(Opened(o, rest[1..], matched))))
    else match p.kind
      case Semi => Step(Some(SemiRow(o)), marked.(open := None))
      case Anti => Step(None, marked.(open := None))
      case _ => Step(Some(Pair(o, i)), marked.(open := Some(Opened(o, rest[1..], true))))
  }

  /** At the end of its bucket an outer row without match may be handed out alone. */
  function Settle<O, I>(p: Plan<O, I>, s: State<O, I>): Step<O, I>
    requires s.open.Some?
  {
    var alone := !s.open.value.matched && (KeepsOuter(p.kind) || p.kind.Anti?);
    Step(if alone then Some(OuterOnly(s.open.value.o)) else None, s.(open := None))
  }

  /** An outer row opens its bucket, or is set aside, or has a NULL key. */
  function Place<O, I>(p: Plan<O, I>, s: State<O, I>, o: O): Step<O, I>
    requires BatchesInRange(s.n) && s.n == |s.outers| + 1
  {
    match p.outerHash(o)
    case None => Step(if KeepsOuter(p.kind) || p.kind.Anti? then Some(OuterOnly(o)) else None, s)
    case Some(h) =>
      if BatchOf(s.n, h) == s.b then Step(None, s.(open := Some(Opened(o, Positions(s.table, h, 0), false))))
      else Step(None, s.(outers := Aside(p, s.n, s.b, s.outers, o)))
  }

  /** Reading the next outer row. */
  function Fetch<O, I>(x: Input<O, I>, s: State<O, I>): Step<O, I>
    requires BatchesInRange(s.n) && s.n == |s.outers| + 1 && s.b < s.n
    requires s.pos < |Source(x, s)|
  {
    Place(x.p, s.(pos := s.pos + 1), Source(x, s)[s.pos])
  }

  /** Moving to the next batch, or to the end. */
  function Load<O, I>(p: Plan<O, I>, s: State<O, I>): State<O, I>
    requires |s.inners| == s.n - 1
  {
    if s.b + 1 >= s.n then s.(phase := Done, b := s.b + 1)
    else s.(phase := Probe, b := s.b + 1, table := Fresh(p, NotNull(p, s.inners[s.b])), pos := 0, open := None, scan := 0)
  }

  /** Looking at the next entry for one that was never matched. */
  function ScanNext<O, I>(s: State<O, I>): Step<O, I>
    requires s.scan < |s.table|
  {
    var e := s.table[s.scan];
    Step(if e.matched then None else Some(InnerOnly(e.row)), s.(scan := s.scan + 1))
  }

  /** Looking on to the first one that was never matched. */
  function ScanOn<O, I>(s: State<O, I>): (t: Step<O, I>)
    requires s.scan <= |s.table|
    ensures t.next == s.(scan := t.next.scan)
    decreases |s.table| - s.scan
  {
    if s.scan == |s.table| then Step(None, s)
    else if s.table[s.scan].matched then ScanOn(ScanNext(s).next) else ScanNext(s)
  }

  /** A step hands out exactly what it takes off. */
  ghost predicate Conserves<O, I>(x: Input<O, I>, s: State<O, I>, step: Step<O, I>) {
    && Sane(x, s) && Sane(x, step.next)
    && ToCome(x, s) == Emitted(step.row) + ToCome(x, step.next)
  }

  lemma TakeOff<R>(a: multiset<R>, e: multiset<R>, a': multiset<R>, c: multiset<R>)
    requires a == e + a'
    ensures a + c == e + (a' + c)
  {
  }

  lemma AddUp<R>(a: multiset<R>, b: multiset<R>, e: multiset<R>, a': multiset<R>, b': multiset<R>, c: multiset<R>)
    requires a + b == e + (a' + b')
    ensures a + (b + c) == e + (a' + (b' + c))
  {
    assert (a + b) + c == a + (b + c);
    assert (e + (a' + b')) + c == e + (a' + (b' + c));
  }

  // --------------------------------------------------------------- visiting

  lemma VisitOpen<O, I>(x: Input<O, I>, s: State<O, I>)
    requires s.open.Some? && s.open.value.rest != [] && Within(Pending(s), |s.table|)
    ensures Within(Pending(Visit(x.p, s).next), |s.table|)
    ensures OpenRows(x, s) == Emitted(Visit(x.p, s).row) + OpenRows(x, Visit(x.p, s).next)
  {
    var Opened(o, rest, matched) := s.open.value;
    var es := RowsAt(s.table, rest);
    RowsAtMarked(s.table, rest[0], rest[1..]);
    assert es[0] == s.table[rest[0]].row && es[1..] == RowsAt(s.table, rest[1..]);
  }

  lemma VisitBatch<O, I>(p: Plan<O, I>, s: State<O, I>, os: seq<O>)
    requires s.open.Some? && s.open.value.rest != [] && Within(Pending(s), |s.table|)
    ensures var t := Visit(p, s).next;
      BatchRows(p, s.n, s.b, t.table, Pending(t), os) == BatchRows(p, s.n, s.b, s.table, Pending(s), os)
  {
    var t := Visit(p, s).next;
    VisitRows(p, s.n, s.b, s.table, s.open.value.rest, os);
    if t.open.None? { PendingIgnored(p, s.n, s.b, t.table, s.open.value.rest[1..], os); }
  }

  lemma PendingIgnored<O, I>(p: Plan<O, I>, n: nat, b: nat, table: seq<Entry<I>>, bucket: seq<nat>, os: seq<O>)
    requires !KeepsInner(p.kind)
    ensures BatchRows(p, n, b, table, [], os) == BatchRows(p, n, b, table, bucket, os)
  {
    NoScan(p, table, bucket, os, 0);
    NoScan(p, table, [], os, 0);
  }

  lemma OpenWithin<O, I>(
      x: Input<O, I>, s: State<O, I>, row: Option<Row<O, I>>, t: State<O, I>, os: seq<O>, later: multiset<Row<O, I>>)
    requires Within(Pending(s), |s.table|) && Within(Pending(t), |t.table|) && t.n == s.n && t.b == s.b
    requires OpenRows(x, s) == Emitted(row) + OpenRows(x, t)
    requires BatchRows(x.p, s.n, s.b, t.table, Pending(t), os) == BatchRows(x.p, s.n, s.b, s.table, Pending(s), os)
    ensures ProbeLeft(x, s, os, later) == Emitted(row) + ProbeLeft(x, t, os, later)
  {
    TakeOff(OpenRows(x, s), Emitted(row), OpenRows(x, t), BatchRows(x.p, s.n, s.b, s.table, Pending(s), os) + later);
  }

  lemma VisitSum<O, I>(x: Input<O, I>, s: State<O, I>, os: seq<O>, later: multiset<Row<O, I>>)
    requires s.open.Some? && s.open.value.rest != [] && Within(Pending(s), |s.table|)
    ensures Within(Pending(Visit(x.p, s).next), |s.table|)
    ensures var t := Visit(x.p, s);
      ProbeLeft(x, s, os, later) == Emitted(t.row) + ProbeLeft(x, t.next, os, later)
  {
    VisitOpen(x, s);
    VisitBatch(x.p, s, os);
    OpenWithin(x, s, Visit(x.p, s).row, Visit(x.p, s).next, os, later);
  }

  lemma VisitSane<O, I>(x: Input<O, I>, s: State<O, I>)
    requires Sane(x, s) && s.phase.Probe? && s.open.Some? && s.open.value.rest != []
    ensures var t := Visit(x.p, s).next;
      && Sane(x, t) && SameBatch(s, t) && t.outers == s.outers && t.pos == s.pos && Ahead(x, t) == Ahead(x, s)
  {
    assert Filed(x.p, s.n, s.b, Visit(x.p, s).next.table);
  }

  ghost predicate SameBatch<O, I>(s: State<O, I>, t: State<O, I>) {
    s.phase.Probe? && t.phase.Probe? && t.n == s.n && t.b == s.b && t.inners == s.inners
  }

  /** A step within a batch conserves when it does so whatever the later batches yield. */
  lemma StepWithin<O, I>(x: Input<O, I>, s: State<O, I>, step: Step<O, I>)
    requires Sane(x, s) && Sane(x, step.next) && SameBatch(s, step.next)
    requires AfterBatch(x.p, s.n, s.b, s.inners, s.outers, Ahead(x, s))
          == AfterBatch(x.p, s.n, s.b, s.inners, step.next.outers, Ahead(x, step.next))
    requires forall later ::
      ProbeLeft(x, s, Ahead(x, s), later) == Emitted(step.row) + ProbeLeft(x, step.next, Ahead(x, step.next), later)
    ensures Conserves(x, s, step)
  {
    var t := step.next;
    var later := AfterBatch(x.p, s.n, s.b, s.inners, s.outers, Ahead(x, s));
    assert ToCome(x, s) == ProbeLeft(x, s, Ahead(x, s), later);
    assert ToCome(x, t) == ProbeLeft(x, t, Ahead(x, t), later);
  }

  lemma VisitConserves<O, I>(x: Input<O, I>, s: State<O, I>)
    requires Sane(x, s) && s.phase.Probe? && s.open.Some? && s.open.value.rest != []
    ensures Conserves(x, s, Visit(x.p, s))
  {
    VisitSane(x, s);
    forall later { VisitSum(x, s, Ahead(x, s), later); }
    StepWithin(x, s, Visit(x.p, s));
  }

  lemma SettleConserves<O, I>(x: Input<O, I>, s: State<O, I>)
    requires Sane(x, s) && s.phase.Probe? && s.open.Some? && s.open.value.rest == []
    ensures Conserves(x, s, Settle(x.p, s))
  {
    var t := Settle(x.p, s);
    assert Sane(x, t.next);
    forall later { SettleSum(x, s, Ahead(x, s), later); }
    StepWithin(x, s, t);
  }

  lemma SettleSum<O, I>(x: Input<O, I>, s: State<O, I>, os: seq<O>, later: multiset<Row<O, I>>)
    requires s.open.Some? && s.open.value.rest == []
    ensures ProbeLeft(x, s, os, later) ==
      Emitted(Settle(x.p, s).row) + ProbeLeft(x, Settle(x.p, s).next, os, later)
  {
    assert OpenRows(x, s) == Emitted(Settle(x.p, s).row);
  }

  // --------------------------------------------------------------- fetching

  lemma AsideElsewhere<O, I>(p: Plan<O, I>, n: nat, b: nat, batches: seq<seq<O>>, o: O)
    requires BatchesInRange(n) && |batches| == n - 1 && b < n
    ensures b > 0 ==> Aside(p, n, b, batches, o)[b - 1] == batches[b - 1]
  {
  }

  lemma FetchSane<O, I>(x: Input<O, I>, s: State<O, I>)
    requires Sane(x, s) && s.phase.Probe? && s.open.None? && s.pos < |Source(x, s)|
    ensures var t := Fetch(x, s).next;
      && Sane(x, t) && SameBatch(s, t)
      && t.outers == Aside(x.p, s.n, s.b, s.outers, Ahead(x, s)[0])
      && t.table == s.table && Ahead(x, t) == Ahead(x, s)[1..]
  {
    var o, t := Source(x, s)[s.pos], Fetch(x, s).next;
    assert t.outers == Aside(x.p, s.n, s.b, s.outers, o);
    AsideElsewhere(x.p, s.n, s.b, s.outers, o);
    assert Source(x, t) == Source(x, s);
    PlaceWithin(x.p, s.(pos := s.pos + 1), o);
  }

  lemma PlaceWithin<O, I>(p: Plan<O, I>, s: State<O, I>, o: O)
    requires BatchesInRange(s.n) && s.n == |s.outers| + 1 && s.open.None? && Filed(p, s.n, s.b, s.table)
    ensures Within(Pending(Place(p, s, o).next), |s.table|)
  {
    var h := p.outerHash(o);
    if h.Some? && BatchOf(s.n, h.value) == s.b { BucketRows(p, s.n, s.b, s.table, h.value, 0); }
  }

  lemma FetchSum<O, I>(x: Input<O, I>, s: State<O, I>, later: multiset<Row<O, I>>)
    requires Sane(x, s) && s.phase.Probe? && s.open.None? && s.pos < |Source(x, s)|
    requires Within(Pending(Fetch(x, s).next), |s.table|)
    ensures var t := Fetch(x, s);
      ProbeLeft(x, s, Ahead(x, s), later) == Emitted(t.row) + ProbeLeft(x, t.next, Ahead(x, s)[1..], later)
  {
    var t, os := Fetch(x, s), Ahead(x, s);
    var h := x.p.outerHash(os[0]);
    if h.Some? && BatchOf(s.n, h.value) == s.b {
      FetchRows(x.p, s.n, s.b, s.table, os, h.value);
    } else {
      SkipRows(x.p, s.n, s.b, s.table, os);
    }
    AddUp(OpenRows(x, s), BatchRows(x.p, s.n, s.b, s.table, [], os),
      Emitted(t.row), OpenRows(x, t.next), BatchRows(x.p, s.n, s.b, s.table, Pending(t.next), os[1..]), later);
  }

  lemma FetchConserves<O, I>(x: Input<O, I>, s: State<O, I>)
    requires Sane(x, s) && s.phase.Probe? && s.open.None? && s.pos < |Source(x, s)|
    ensures Conserves(x, s, Fetch(x, s))
  {
    FetchSane(x, s);
    forall later { FetchSum(x, s, later); }
    StepWithin(x, s, Fetch(x, s));
  }

  // ------------------------------------------------------ the end of a batch

  lemma ScanStarts<O, I>(x: Input<O, I>, s: State<O, I>)
    requires Sane(x, s) && s.phase.Probe? && s.open.None? && s.pos == |Source(x, s)|
    requires KeepsInner(x.p.kind)
    ensures Conserves(x, s, Step(None, s.(phase := Scan, scan := 0)))
  {
    var t := s.(phase := Scan, scan := 0);
    assert Sane(x, t);
    ScanBegun(x, s, t);
  }

  lemma ScanBegun<O, I>(x: Input<O, I>, s: State<O, I>, t: State<O, I>)
    requires Sane(x, s) && s.phase.Probe? && s.open.None? && s.pos == |Source(x, s)|
    requires Sane(x, t) && t.phase.Scan? && t.scan == 0
    requires t.table == s.table && t.n == s.n && t.b == s.b && t.inners == s.inners && t.outers == s.outers
    ensures Conserves(x, s, Step(None, t))
  {
    var later := Later(x.p, s.n, s.b + 1, s.inners, s.outers);
    AllRead(x, s);
    Unchanged(ToCome(x, s), ScanLeft(x.p, s.table, 0, later), ToCome(x, t));
  }

  /** When all outer rows are read, the scan is what is left of the batch. */
  lemma AllRead<O, I>(x: Input<O, I>, s: State<O, I>)
    requires Sane(x, s) && s.phase.Probe? && s.open.None? && s.pos == |Source(x, s)|
    ensures ToCome(x, s) == ScanLeft(x.p, s.table, 0, Later(x.p, s.n, s.b + 1, s.inners, s.outers))
  {
    assert Ahead(x, s) == [];
    OnlyScan(x, s, Later(x.p, s.n, s.b + 1, s.inners, s.outers));
  }

  lemma OnlyScan<O, I>(x: Input<O, I>, s: State<O, I>, later: multiset<Row<O, I>>)
    requires s.open.None?
    ensures ProbeLeft(x, s, [], later) == ScanLeft(x.p, s.table, 0, later)
  {
  }

  lemma ScanConserves<O, I>(x: Input<O, I>, s: State<O, I>)
    requires Sane(x, s) && s.phase.Scan? && s.scan < |s.table|
    ensures Conserves(x, s, ScanNext(s))
  {
    forall later { ScanSum(x.p, s, later); }
    ScanWithin(x, s, ScanNext(s));
  }

  lemma ScanSum<O, I>(p: Plan<O, I>, s: State<O, I>, later: multiset<Row<O, I>>)
    requires KeepsInner(p.kind) && s.scan < |s.table|
    ensures ScanLeft(p, s.table, s.scan, later) == Emitted(ScanNext(s).row) + ScanLeft(p, s.table, s.scan + 1, later)
  {
    TakeOff(ScanRows(p, s.table, [], [], s.scan), Emitted(ScanNext(s).row), ScanRows(p, s.table, [], [], s.scan + 1), later);
  }

  lemma {:induction false} ScanOnConserves<O, I>(x: Input<O, I>, s: State<O, I>)
    requires Sane(x, s) && s.phase.Scan?
    ensures Conserves(x, s, ScanOn(s))
    ensures s.scan <= ScanOn(s).next.scan
    ensures if ScanOn(s).row.None? then ScanOn(s).next.scan == |s.table| else s.scan < ScanOn(s).next.scan
    decreases |s.table| - s.scan
  {
    if s.scan < |s.table| {
      ScanConserves(x, s);
      if s.table[s.scan].matched { ScanOnConserves(x, ScanNext(s).next); }
    }
  }

  lemma ScanWithin<O, I>(x: Input<O, I>, s: State<O, I>, step: Step<O, I>)
    requires var t := step.next;
      && Sane(x, s) && Sane(x, t) && s.phase.Scan? && t.phase.Scan?
      && t.table == s.table && t.n == s.n && t.b == s.b && t.inners == s.inners && t.outers == s.outers
    requires forall later ::
      ScanLeft(x.p, s.table, s.scan, later) == Emitted(step.row) + ScanLeft(x.p, s.table, step.next.scan, later)
    ensures Conserves(x, s, step)
  {
    var later := Later(x.p, s.n, s.b + 1, s.inners, s.outers);
    assert ToCome(x, s) == ScanLeft(x.p, s.table, s.scan, later);
    assert ToCome(x, step.next) == ScanLeft(x.p, s.table, step.next.scan, later);
  }

  /** What is left at the end of a batch is what the later batches yield. */
  ghost predicate BatchDone<O, I>(x: Input<O, I>, s: State<O, I>) {
    && Sane(x, s)
    && (s.phase.Scan? ==> s.scan == |s.table|)
    && (s.phase.Probe? ==> s.open.None? && s.pos == |Source(x, s)| && !KeepsInner(x.p.kind))
    && (s.phase.Scan? || s.phase.Probe?)
  }

  lemma LeftLater<O, I>(x: Input<O, I>, s: State<O, I>)
    requires BatchDone(x, s)
    ensures ToCome(x, s) == Later(x.p, s.n, s.b + 1, s.inners, s.outers)
  {
    if s.phase.Probe? {
      AllRead(x, s);
      NoScan(x.p, s.table, [], [], 0);
    }
  }

  lemma NothingOpen<O, I>(x: Input<O, I>, s: State<O, I>, os: seq<O>, later: multiset<Row<O, I>>)
    requires s.open.None?
    ensures ProbeLeft(x, s, os, later) == BatchRows(x.p, s.n, s.b, s.table, [], os) + later
  {
  }

  lemma LoadSane<O, I>(x: Input<O, I>, s: State<O, I>)
    requires BatchDone(x, s)
    ensures Sane(x, Load(x.p, s))
  {
    var t := Load(x.p, s);
    if t.phase.Probe? {
      assert t.table == Fresh(x.p, NotNull(x.p, Route(x.p, s.n, x.inner, t.b)));
      LoadedFiled(x.p, s.n, x.inner, t.b);
    }
  }

  lemma LoadedFiled<O, I>(p: Plan<O, I>, n: nat, inner: seq<I>, b: nat)
    requires b > 0
    ensures Filed(p, n, b, Fresh(p, NotNull(p, Route(p, n, inner, b))))
  {
    var rs := NotNull(p, Route(p, n, inner, b));
    LoadedIsSurviving(p, n, inner, b);
    forall j | 0 <= j < |rs| ensures BatchOf(n, p.innerHash(rs[j])) == b {
      RouteHome(p, n, Survivors(p, n, inner), b, rs[j]);
    }
  }

  /** A batch just loaded, and what follows it. */
  lemma LoadedLeft<O, I>(x: Input<O, I>, s: State<O, I>, t: State<O, I>)
    requires Sane(x, s) && !s.phase.Build? && s.b + 1 < s.n && Sane(x, t) && t == Load(x.p, s)
    ensures ToCome(x, t) == Later(x.p, s.n, s.b + 1, s.inners, s.outers)
  {
    var os := s.outers[s.b];
    assert Ahead(x, t) == os;
    NothingOpen(x, t, os, AfterBatch(x.p, t.n, t.b, t.inners, t.outers, os));
  }

  lemma LoadConserves<O, I>(x: Input<O, I>, s: State<O, I>)
    requires BatchDone(x, s)
    ensures Conserves(x, s, Step(None, Load(x.p, s)))
  {
    LoadSane(x, s);
    LeftLater(x, s);
    var t := Load(x.p, s);
    if s.b + 1 < s.n { LoadedLeft(x, s, t); } else { DoneLeft(x, s, t); }
    Unchanged(ToCome(x, s), Later(x.p, s.n, s.b + 1, s.inners, s.outers), ToCome(x, t));
  }

  lemma DoneLeft<O, I>(x: Input<O, I>, s: State<O, I>, t: State<O, I>)
    requires Sane(x, s) && !s.phase.Build? && Sane(x, t) && t.phase.Done? && s.b + 1 >= s.n
    ensures ToCome(x, t) == Later(x.p, s.n, s.b + 1, s.inners, s.outers)
  {
  }

  lemma Unchanged<R>(a: multiset<R>, b: multiset<R>, c: multiset<R>)
    requires a == b == c
    ensures a == Emitted(None) + c
  {
  }

  // ----------------------------------------------------------------- the start

  /** The state after the build phase. */
  ghost function Started<O, I>(x: Input<O, I>, inners: seq<seq<I>>): State<O, I>
    requires x.n > 0
  {
    State(Probe, Fresh(x.p, Route(x.p, x.n, x.inner, 0)), x.n, inners, seq(x.n - 1, _ => []), 0, 0, None, 0)
  }

  lemma StartConserves<O, I>(x: Input<O, I>, s: State<O, I>, inners: seq<seq<I>>)
    requires Sane(x, s) && s.phase.Build? && Spread(x.p, x.n, x.inner, inners)
    ensures Conserves(x, s, Step(None, Started(x, inners)))
  {
    var t := Started(x, inners);
    var rs := Route(x.p, x.n, x.inner, 0);
    forall j | 0 <= j < |rs| ensures BatchOf(x.n, x.p.innerHash(rs[j])) == 0 {
      RouteHome(x.p, x.n, x.inner, 0, rs[j]);
    }
    assert Ahead(x, t) == x.outer;
    WholeJoin(x.p, x.n, x.inner, x.outer, inners);
  }

  // ------------------------------------------------------------------ progress

  function BatchesLeft<O, I>(s: State<O, I>): nat {
    if s.b < s.n then s.n - s.b else 0
  }

  function PhaseLeft<O, I>(s: State<O, I>): nat {
    match s.phase
    case Build => 3
    case Probe => 2
    case Scan => 1
    case Done => 0
  }

  /** Rows of this batch still to be read or scanned. */
  ghost function RowsLeft<O, I>(x: Input<O, I>, s: State<O, I>): nat
    requires Sane(x, s)
  {
    match s.phase
    case Probe => |Source(x, s)| - s.pos
    case Scan => |s.table| - s.scan
    case _ => 0
  }

  function BucketLeft<O, I>(s: State<O, I>): nat {
    if s.open.Some? then |s.open.value.rest| + 1 else 0
  }

  ghost predicate Lower<O, I>(x: Input<O, I>, t: State<O, I>, s: State<O, I>)
    requires Sane(x, t) && Sane(x, s)
  {
    || BatchesLeft(t) < BatchesLeft(s)
    || (BatchesLeft(t) == BatchesLeft(s) && PhaseLeft(t) < PhaseLeft(s))
    || (BatchesLeft(t) == BatchesLeft(s) && PhaseLeft(t) == PhaseLeft(s) && RowsLeft(x, t) < RowsLeft(x, s))
    || (BatchesLeft(t) == BatchesLeft(s) && PhaseLeft(t) == PhaseLeft(s) && RowsLeft(x, t) == RowsLeft(x, s)
        && BucketLeft(t) < BucketLeft(s))
  }

  /** A step hands out exactly what it takes off, and gets nearer to the end when it hands out nothing. */
  ghost predicate Advances<O, I>(x: Input<O, I>, s: State<O, I>, step: Step<O, I>) {
    Conserves(x, s, step) && (step.row.None? ==> Lower(x, step.next, s))
  }

  lemma VisitAdvances<O, I>(x: Input<O, I>, s: State<O, I>)
    requires Sane(x, s) && s.phase.Probe? && s.open.Some? && s.open.value.rest != []
    ensures Advances(x, s, Visit(x.p, s))
  {
    VisitConserves(x, s);
    VisitLower(x, s);
  }

  lemma VisitLower<O, I>(x: Input<O, I>, s: State<O, I>)
    requires Sane(x, s) && s.phase.Probe? && s.open.Some? && s.open.value.rest != []
    ensures Sane(x, Visit(x.p, s).next) && Lower(x, Visit(x.p, s).next, s)
  {
    VisitSane(x, s);
  }

  lemma SettleAdvances<O, I>(x: Input<O, I>, s: State<O, I>)
    requires Sane(x, s) && s.phase.Probe? && s.open.Some? && s.open.value.rest == []
    ensures Advances(x, s, Settle(x.p, s))
  {
    SettleConserves(x, s);
    SettleLower(x, s);
  }

  lemma SettleLower<O, I>(x: Input<O, I>, s: State<O, I>)
    requires Sane(x, s) && s.phase.Probe? && s.open.Some?
    ensures Sane(x, Settle(x.p, s).next) && Lower(x, Settle(x.p, s).next, s)
  {
  }

  lemma FetchAdvances<O, I>(x: Input<O, I>, s: State<O, I>)
    requires Sane(x, s) && s.phase.Probe? && s.open.None? && s.pos < |Source(x, s)|
    ensures Advances(x, s, Fetch(x, s))
  {
    FetchConserves(x, s);
    FetchLower(x, s);
  }

  lemma FetchLower<O, I>(x: Input<O, I>, s: State<O, I>)
    requires Sane(x, s) && s.phase.Probe? && s.open.None? && s.pos < |Source(x, s)|
    ensures Sane(x, Fetch(x, s).next) && Lower(x, Fetch(x, s).next, s)
  {
    FetchSane(x, s);
    assert |Ahead(x, s)| == RowsLeft(x, s) && |Ahead(x, Fetch(x, s).next)| == RowsLeft(x, Fetch(x, s).next);
  }

  lemma ScanStartAdvances<O, I>(x: Input<O, I>, s: State<O, I>)
    requires Sane(x, s) && s.phase.Probe? && s.open.None? && s.pos == |Source(x, s)|
    requires KeepsInner(x.p.kind)
    ensures Advances(x, s, Step(None, s.(phase := Scan, scan := 0)))
  {
    ScanStarts(x, s);
  }

  lemma LoadAdvances<O, I>(x: Input<O, I>, s: State<O, I>)
    requires BatchDone(x, s)
    ensures Advances(x, s, Step(None, Load(x.p, s)))
  {
    LoadConserves(x, s);
  }

  /** Scanning on, and when that finds no one, moving to the next batch. */
  function ScanOrLoad<O, I>(p: Plan<O, I>, s: State<O, I>): Step<O, I>
    requires s.scan <= |s.table| && |s.inners| == s.n - 1
  {
    if ScanOn(s).row.Some? then ScanOn(s) else Step(None, Load(p, ScanOn(s).next))
  }

  lemma ScanOrLoadAdvances<O, I>(x: Input<O, I>, s: State<O, I>)
    requires Sane(x, s) && s.phase.Scan?
    ensures Advances(x, s, ScanOrLoad(x.p, s))
  {
    ScanOnConserves(x, s);
    if ScanOn(s).row.None? { LoadAdvances(x, ScanOn(s).next); }
  }
}
