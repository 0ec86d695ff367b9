/** What the consumer-group machine guarantees about scores (pkg/ingest/group.go:12-23): best boards
    converge, increments count each application, exactly-once needs undisturbed sections, and order
    is not guaranteed. */
module Delivery {
  import opened Basics
  import opened Boards
  import opened Groups
  import opened Ingest
  import opened Keys
  import opened Ordering
  import opened Policies
  import opened Readback
  import opened Store

  // ---------------------------------------------------------------- the log as ticks

  /** Every action of the log, in append order. */
  function AllTicks(reg: Registry, entries: seq<Record>): seq<Tick> {
    if entries == [] then []
    else AllTicks(reg, entries[..|entries| - 1]) + TicksOf(reg, |entries| - 1, Last(entries))
  }

  lemma {:induction false} RunTicksConcat(reg: Registry, db: Db, a: seq<Tick>, b: seq<Tick>)
    ensures RunTicks(reg, db, a + b) == RunTicks(reg, RunTicks(reg, db, a), b)
  {
    hide RunTick, TickScores;
    if b == [] {
      assert a + b == a;
    } else {
      assert (a + b)[..|a + b| - 1] == a + b[..|b| - 1];
      RunTicksConcat(reg, db, a, b[..|b| - 1]);
    }
  }

  lemma {:induction false} RecordPrefix(reg: Registry, db: Db, id: nat, rec: Record, n: nat)
    requires Resolve(reg, rec).Some? && !rec.tombstone && n <= ActionCount(reg, rec)
    ensures RunTicks(reg, db, TicksOf(reg, id, rec)[..n]) == RunOps(db, OpsOf(Resolve(reg, rec).value, rec)[..n])
    decreases n
  {
    hide OpsOf, ApplyOp;
    if n > 0 {
      RecordPrefix(reg, db, id, rec, n - 1);
      var ops := OpsOf(Resolve(reg, rec).value, rec);
      assert TicksOf(reg, id, rec)[..n][..n - 1] == TicksOf(reg, id, rec)[..n - 1];
      assert ops[..n][..n - 1] == ops[..n - 1];
    }
  }

  lemma RecordIsTicks(reg: Registry, db: Db, id: nat, rec: Record)
    ensures RunTicks(reg, db, TicksOf(reg, id, rec)) == ApplyRecord(reg, db, rec)
  {
    hide OpsOf, ApplyOp, RunOps, RemoveAll;
    var ts := TicksOf(reg, id, rec);
    match Resolve(reg, rec)
    case None =>
    case Some(lb) =>
      if rec.tombstone {
        assert ts == [Tick(id, rec, 0)];
        assert ts[..0] == [];
      } else {
        RecordPrefix(reg, db, id, rec, |ts|);
        assert ts[..|ts|] == ts && OpsOf(lb, rec)[..|ts|] == OpsOf(lb, rec);
      }
  }

  /** The replay of the log is its ticks in append order. */
  lemma {:induction false} ReplayIsTicks(reg: Registry, db: Db, entries: seq<Record>)
    ensures Replay(reg, db, entries) == RunTicks(reg, db, AllTicks(reg, entries))
  {
    hide ApplyRecord, TicksOf, RunTick, TickScores;
    if entries != [] {
      var front := entries[..|entries| - 1];
      ReplayIsTicks(reg, db, front);
      var ts := TicksOf(reg, |entries| - 1, Last(entries));
      RunTicksConcat(reg, db, AllTicks(reg, front), ts);
      RecordIsTicks(reg, RunTicks(reg, db, AllTicks(reg, front)), |entries| - 1, Last(entries));
    }
  }

  lemma {:induction false} AllTicksMember(reg: Registry, entries: seq<Record>)
    ensures forall t :: t in AllTicks(reg, entries) <==> t.id < |entries| && t in TicksOf(reg, t.id, entries[t.id])
    ensures Distinct(AllTicks(reg, entries))
  {
    hide ActionCount;
    if entries != [] {
      var front := entries[..|entries| - 1];
      AllTicksMember(reg, front);
      TickIds(reg, |front|, Last(entries));
      assert forall id :: 0 <= id < |front| ==> entries[id] == front[id];
    }
  }

  // ---------------------------------------------------------------- ticks on one cell

  predicate SubmitTick(reg: Registry, t: Tick) { ValidTick(reg, t) && !t.rec.tombstone }

  function OpOf(reg: Registry, t: Tick): SubmitOp
    requires SubmitTick(reg, t)
  {
    OpsOf(Resolve(reg, t.rec).value, t.rec)[t.j]
  }

  /** The submits among a sequence of ticks. */
  function TraceOps(reg: Registry, ts: seq<Tick>): seq<SubmitOp> {
    if ts == [] then []
    else
      var front := TraceOps(reg, ts[..|ts| - 1]);
      if SubmitTick(reg, Last(ts)) then front + [OpOf(reg, Last(ts))] else front
  }

  /** No removal of owner o among the ticks. */
  ghost predicate NoRemoval(ts: seq<Tick>, o: Owner) {
    forall t :: t in ts ==> !(t.rec.tombstone && OwnerOf(t.rec) == o)
  }

  /** A removal, or the part of one, that is about cell c if its owner is. */
  predicate Reaches(t: Tick, c: Cell) { t.part.None? || t.part == Some(c) }

  lemma TickCell(reg: Registry, db: Db, t: Tick, c: Cell)
    requires ValidRegistry(reg) && ValidKey(c.key)
    ensures SubmitTick(reg, t) ==> Lookup(RunTick(reg, db, t).z, c) == CellOp(OpOf(reg, t), c, Lookup(db.z, c))
    ensures !SubmitTick(reg, t) && !(ValidTick(reg, t) && t.rec.tombstone && OwnerOf(t.rec) == CellOwner(c) && Reaches(t, c)) ==>
              Lookup(RunTick(reg, db, t).z, c) == Lookup(db.z, c)
    ensures ValidTick(reg, t) && t.rec.tombstone && OwnerOf(t.rec) == CellOwner(c) && Reaches(t, c) ==>
              Lookup(RunTick(reg, db, t).z, c) == None
  {
    hide OpsOf, NewValue, Moved, CheckOp, Glob, ScanPattern, ZKey, ValidKey, RemoveAll, Vacated;
    if ValidTick(reg, t) && t.rec.tombstone && t.part.None? {
      var lb := Resolve(reg, t.rec).value;
      RemoveAllCell(db, lb.app, lb.board, lb.cfg, t.rec.member, c);
      ScanExact(lb.app, lb.board, c.key);
    }
  }

  /** Without a removal, a cell is the fold of the submits in the ticks. */
  lemma {:induction false} TicksCell(reg: Registry, db: Db, ts: seq<Tick>, c: Cell)
    requires ValidRegistry(reg) && ValidKey(c.key) && NoRemoval(ts, CellOwner(c))
    ensures Lookup(RunTicks(reg, db, ts).z, c) == CellOps(TraceOps(reg, ts), c, Lookup(db.z, c))
  {
    hide SubmitTick, OpOf, CellOp, ValidRegistry, ValidKey, RunTick, TickScores;
    if ts != [] {
      var front := ts[..|ts| - 1];
      TicksCell(reg, db, front, c);
      TickCell(reg, RunTicks(reg, db, front), Last(ts), c);
      var ops := TraceOps(reg, front);
      if SubmitTick(reg, Last(ts)) {
        assert (ops + [OpOf(reg, Last(ts))])[..|ops|] == ops;
      }
    }
  }

  lemma {:induction false} TraceOpsMember(reg: Registry, ts: seq<Tick>)
    ensures forall op :: op in TraceOps(reg, ts) <==> exists t :: t in ts && SubmitTick(reg, t) && OpOf(reg, t) == op
  {
    hide SubmitTick, OpOf;
    if ts != [] {
      var front := ts[..|ts| - 1];
      TraceOpsMember(reg, front);
      assert ts == front + [Last(ts)];
      forall op
        ensures op in TraceOps(reg, ts) <==> exists t :: t in ts && SubmitTick(reg, t) && OpOf(reg, t) == op
      {
        if op in TraceOps(reg, ts) {
          if op in TraceOps(reg, front) {
            var t :| t in front && SubmitTick(reg, t) && OpOf(reg, t) == op;
            assert t in ts;
          } else {
            assert Last(ts) in ts;
          }
        }
      }
    }
  }

  /** Ticks with the same submits submit the same values to every cell. */
  lemma SameValues(reg: Registry, a: seq<Tick>, b: seq<Tick>, c: Cell)
    requires forall t :: SubmitTick(reg, t) ==> (t in a <==> t in b)
    ensures Values(TraceOps(reg, a), c) == Values(TraceOps(reg, b), c)
  {
    hide SubmitTick, OpOf, Hits, TraceOps;
    TraceOpsMember(reg, a);
    TraceOpsMember(reg, b);
    var x, y := TraceOps(reg, a), TraceOps(reg, b);
    forall op
      ensures op in x <==> op in y
    {
    }
    ValuesByMember(x, y, c);
  }

  lemma ValuesByMember(x: seq<SubmitOp>, y: seq<SubmitOp>, c: Cell)
    requires forall op :: op in x <==> op in y
    ensures Values(x, c) == Values(y, c)
  {
    hide CheckOp, CellOf;
    forall v
      ensures v in Values(x, c) <==> v in Values(y, c)
    {
      if v in Values(x, c) {
        var i :| 0 <= i < |x| && Hits(x[i], c) && ValueOf(x[i]) == v;
        assert x[i] in y;
        var j :| 0 <= j < |y| && y[j] == x[i];
      }
      if v in Values(y, c) {
        var i :| 0 <= i < |y| && Hits(y[i], c) && ValueOf(y[i]) == v;
        assert y[i] in x;
        var j :| 0 <= j < |x| && x[j] == y[i];
      }
    }
  }

  /** All submits to a cell carry its board's registered config. */
  lemma TraceUniform(reg: Registry, ts: seq<Tick>, c: Cell)
    requires ValidRegistry(reg) && (c.key.app, c.key.board) in reg
    ensures Uniform(TraceOps(reg, ts), c, reg[(c.key.app, c.key.board)].cfg)
  {
    hide OpsOf, CheckOp, TraceOps;
    TraceOpsMember(reg, ts);
    var ops := TraceOps(reg, ts);
    forall i | 0 <= i < |ops| && Hits(ops[i], c)
      ensures ops[i].cfg == reg[(c.key.app, c.key.board)].cfg
    {
      assert ops[i] in ops;
      var t :| t in ts && SubmitTick(reg, t) && OpOf(reg, t) == ops[i];
      OpsOfMember(Resolve(reg, t.rec).value, t.rec, t.j);
    }
  }

  // ---------------------------------------------------------------- best boards

  ghost predicate AllAcked(st: State) { forall id: nat :: id < |st.entries| ==> id in st.acked }

  ghost predicate NeverRemoved(st: State, o: Owner) {
    forall i :: 0 <= i < |st.entries| ==> !(st.entries[i].tombstone && OwnerOf(st.entries[i]) == o)
  }

  /** Once everything is acknowledged the trace holds every action of the log, and nothing else but
      single boards of the log's removals. */
  lemma TraceCoversLog(sys: Sys, steps: seq<Groups.Step>)
    requires Run(sys, steps).Some? && AllAcked(Run(sys, steps).value)
    ensures var st := Run(sys, steps).value;
            && (forall t :: t in AllTicks(sys.reg, st.entries) ==> t in st.trace)
            && (forall t :: t in st.trace ==> Whole(t) in AllTicks(sys.reg, st.entries) && (t.part.Some? ==> t.rec.tombstone))
  {
    hide Run, TicksOf, AllTicks;
    var st := Run(sys, steps).value;
    AtLeastOnce(sys, steps);
    AllTicksMember(sys.reg, st.entries);
    forall t | t in AllTicks(sys.reg, st.entries)
      ensures t in st.trace
    {
      assert t.id in st.acked;
      assert Complete(sys, st, t.id);
    }
  }

  /** So trace and log submit alike. */
  lemma SameSubmits(sys: Sys, steps: seq<Groups.Step>)
    requires Run(sys, steps).Some? && AllAcked(Run(sys, steps).value)
    ensures var st := Run(sys, steps).value;
            forall t :: SubmitTick(sys.reg, t) ==> (t in st.trace <==> t in AllTicks(sys.reg, st.entries))
  {
    hide Run, AllTicks;
    TraceCoversLog(sys, steps);
  }

  lemma NoRemovalInTrace(sys: Sys, steps: seq<Groups.Step>, o: Owner)
    requires Run(sys, steps).Some? && NeverRemoved(Run(sys, steps).value, o)
    ensures var st := Run(sys, steps).value;
            NoRemoval(st.trace, o) && NoRemoval(AllTicks(sys.reg, st.entries), o)
  {
    hide Run, TicksOf, AllTicks;
    var st := Run(sys, steps).value;
    AtLeastOnce(sys, steps);
    AllTicksMember(sys.reg, st.entries);
    forall t | t in st.trace || t in AllTicks(sys.reg, st.entries)
      ensures !(t.rec.tombstone && OwnerOf(t.rec) == o)
    {
      TickIds(sys.reg, t.id, st.entries[t.id]);
      assert Whole(t).rec == t.rec;
    }
  }

  lemma EmptyLookup(c: Cell)
    ensures Lookup(EMPTY.z, c) == None
  {
  }

  lemma LogHolds(reg: Registry, entries: seq<Record>, c: Cell)
    requires ValidRegistry(reg) && ValidKey(c.key) && (c.key.app, c.key.board) in reg
    ensures Holds(reg[(c.key.app, c.key.board)], entries, c, Lookup(Replay(reg, EMPTY, entries).z, c))
  {
    hide Replay, Holds, ValidKey, ValidRegistry;
    ReplayHolds(reg, entries);
  }

  /** Best boards converge: in every run, however entries are redelivered, overlapped or reordered,
      once all are acknowledged each score is what the in-order replay of the log gives: the best of
      the logged records that count towards it. */
  lemma BestConverges(sys: Sys, steps: seq<Groups.Step>, c: Cell)
    requires ValidRegistry(sys.reg) && ValidKey(c.key) && (c.key.app, c.key.board) in sys.reg
    requires WithDefaults(sys.reg[(c.key.app, c.key.board)].cfg).policy.Best?
    requires Run(sys, steps).Some? && AllAcked(Run(sys, steps).value)
    requires NeverRemoved(Run(sys, steps).value, CellOwner(c))
    ensures var st := Run(sys, steps).value;
            && Lookup(st.z, c) == Lookup(Replay(sys.reg, EMPTY, st.entries).z, c)
            && IsBest(IsAsc(sys.reg[(c.key.app, c.key.board)].cfg), Lookup(st.z, c),
                      Values(TraceOps(sys.reg, AllTicks(sys.reg, st.entries)), c))
            && Holds(sys.reg[(c.key.app, c.key.board)], st.entries, c, Lookup(st.z, c))
  {
    hide Holds, Replay, Run, AllTicks, TraceOps, RunTicks, Values, CellOps, ValidKey, ValidRegistry, Uniform, NoRemoval, AllAcked, NeverRemoved, EMPTY, IsBest;
    var st := Run(sys, steps).value;
    var cfg := sys.reg[(c.key.app, c.key.board)].cfg;
    var all := AllTicks(sys.reg, st.entries);
    EmptyLookup(c);
    AtLeastOnce(sys, steps);
    SameSubmits(sys, steps);
    NoRemovalInTrace(sys, steps, CellOwner(c));
    TicksCell(sys.reg, EMPTY, st.trace, c);
    TicksCell(sys.reg, EMPTY, all, c);
    ReplayIsTicks(sys.reg, EMPTY, st.entries);
    SameValues(sys.reg, st.trace, all, c);
    TraceUniform(sys.reg, st.trace, c);
    TraceUniform(sys.reg, all, c);
    LogHolds(sys.reg, st.entries, c);
    BestOrderFree(TraceOps(sys.reg, st.trace), TraceOps(sys.reg, all), c, cfg);
    BestFold(TraceOps(sys.reg, st.trace), c, cfg);
  }

  // ---------------------------------------------------------------- increment boards

  /** What one application of a tick adds to a cell of an increment board. */
  function Weight(reg: Registry, t: Tick, c: Cell): real {
    if SubmitTick(reg, t) && Hits(OpOf(reg, t), c) then OpOf(reg, t).score else 0.0
  }

  /** The sum over the given ticks of weight times number of applications. */
  ghost function Weighted(reg: Registry, all: seq<Tick>, applied: multiset<Tick>, c: Cell): real {
    if all == [] then 0.0
    else Weighted(reg, all[..|all| - 1], applied, c) + Times(applied[Last(all)], Weight(reg, Last(all), c))
  }

  lemma WeightedOne(reg: Registry, all: seq<Tick>, last: Tick, m: multiset<Tick>, c: Cell)
    ensures Weighted(reg, all + [last], m, c) == Weighted(reg, all, m, c) + Times(m[last], Weight(reg, last, c))
  {
    hide Weight, Times;
    assert (all + [last])[..|all|] == all;
  }

  lemma {:induction false} WeightedStep(reg: Registry, all: seq<Tick>, m: multiset<Tick>, t: Tick, c: Cell)
    requires Distinct(all)
    ensures Weighted(reg, all, m + multiset{t}, c) == Weighted(reg, all, m, c) + (if t in all then Weight(reg, t, c) else 0.0)
  {
    hide Weight, Times;
    if all != [] {
      hide Weighted;
      var front, last := all[..|all| - 1], Last(all);
      assert all == front + [last];
      WeightedStep(reg, front, m, t, c);
      WeightedOne(reg, front, last, m, c);
      WeightedOne(reg, front, last, m + multiset{t}, c);
      if t == last {
        assert t !in front;
        OneMore(m[last], Weight(reg, last, c));
      }
    }
  }

  lemma {:induction false} WeightedNone(reg: Registry, all: seq<Tick>, c: Cell)
    ensures Weighted(reg, all, multiset{}, c) == 0.0
  {
    if all != [] {
      WeightedNone(reg, all[..|all| - 1], c);
    }
  }

  /** The scores a trace adds up to are the log's, each counted as often as it was applied. */
  lemma {:induction false} TraceSum(reg: Registry, ts: seq<Tick>, all: seq<Tick>, c: Cell)
    requires Distinct(all) && forall t :: t in ts && SubmitTick(reg, t) ==> t in all
    ensures ScoreSum(TraceOps(reg, ts), c) == Weighted(reg, all, multiset(ts), c)
  {
    hide Hits, SubmitTick, OpOf, Distinct;
    if ts == [] {
      WeightedNone(reg, all, c);
    } else {
      var front := ts[..|ts| - 1];
      TraceSum(reg, front, all, c);
      assert ts == front + [Last(ts)];
      assert multiset(ts) == multiset(front) + multiset{Last(ts)};
      WeightedStep(reg, all, multiset(front), Last(ts), c);
      assert Last(ts) in ts;
      var ops := TraceOps(reg, front);
      if SubmitTick(reg, Last(ts)) {
        assert (ops + [OpOf(reg, Last(ts))])[..|ops|] == ops;
      }
    }
  }

  /** On an increment board a score is the sum of score times apply count over the log's entries. */
  lemma IncrementCounts(sys: Sys, steps: seq<Groups.Step>, c: Cell)
    requires ValidRegistry(sys.reg) && ValidKey(c.key) && (c.key.app, c.key.board) in sys.reg
    requires WithDefaults(sys.reg[(c.key.app, c.key.board)].cfg).policy.Increment?
    requires Run(sys, steps).Some? && NeverRemoved(Run(sys, steps).value, CellOwner(c))
    ensures var st := Run(sys, steps).value;
            Lookup(st.z, c) == if Values(TraceOps(sys.reg, st.trace), c) == {} then None
                                  else Some(Weighted(sys.reg, AllTicks(sys.reg, st.entries), multiset(st.trace), c))
  {
    hide Run, AllTicks, TraceOps, RunTicks, Values, CellOps, ValidKey, ValidRegistry, Uniform, NoRemoval, NeverRemoved, EMPTY, Weighted, ScoreSum, TicksOf, Distinct;
    var st := Run(sys, steps).value;
    var cfg := sys.reg[(c.key.app, c.key.board)].cfg;
    var all := AllTicks(sys.reg, st.entries);
    EmptyLookup(c);
    AtLeastOnce(sys, steps);
    AllTicksMember(sys.reg, st.entries);
    NoRemovalInTrace(sys, steps, CellOwner(c));
    TicksCell(sys.reg, EMPTY, st.trace, c);
    TraceUniform(sys.reg, st.trace, c);
    IncrementFold(TraceOps(sys.reg, st.trace), c, cfg);
    TraceSubmits(sys, steps);
    TraceSum(sys.reg, st.trace, all, c);
  }

  lemma TraceSubmits(sys: Sys, steps: seq<Groups.Step>)
    requires Run(sys, steps).Some?
    ensures var st := Run(sys, steps).value;
            forall t :: t in st.trace && SubmitTick(sys.reg, t) ==> t in AllTicks(sys.reg, st.entries)
  {
    hide Run, AllTicks, TicksOf;
    AtLeastOnce(sys, steps);
    AllTicksMember(sys.reg, Run(sys, steps).value.entries);
  }

  // ---------------------------------------------------------------- undisturbed sections

  /** No crash cuts a check-apply-mark section short, and no section starts on entries another
      worker's open section has not marked yet. */
  ghost predicate Undisturbed(st: State, step: Groups.Step) {
    match step
    case Crash(w) => PhaseOf(st, w).Working? ==> PhaseOf(st, w).todo == [] && PhaseOf(st, w).unmarked == []
    case Check(w) =>
      PhaseOf(st, w).Holding? ==>
        forall v, id :: v != w && PhaseOf(st, v).Working? && id in PhaseOf(st, w).msgs ==> id !in PhaseOf(st, v).unmarked
    case _ => true
  }

  ghost predicate UndisturbedRun(sys: Sys, steps: seq<Groups.Step>) {
    steps != [] ==>
      && UndisturbedRun(sys, steps[..|steps| - 1])
      && (Run(sys, steps[..|steps| - 1]).Some? ==> Undisturbed(Run(sys, steps[..|steps| - 1]).value, Last(steps)))
  }

  ghost predicate PhaseClean(ph: Phase) {
    match ph
    case Idle => true
    case Holding(msgs) => Increasing(msgs)
    case Working(msgs, todo, unmarked) => Increasing(unmarked) && forall t :: t in todo ==> t.id in unmarked
  }

  /** Where the open sections stand: they are apart from each other and from what is marked. */
  ghost predicate Sections(st: State) {
    && (forall w :: PhaseClean(PhaseOf(st, w)))
    && (forall w, id :: PhaseOf(st, w).Working? && id in PhaseOf(st, w).unmarked ==> id !in st.marked)
    && (forall v, w, id | v != w && PhaseOf(st, v).Working? && PhaseOf(st, w).Working? ::
          id in PhaseOf(st, v).unmarked ==> id !in PhaseOf(st, w).unmarked)
  }

  /** An action is applied at most once when its entry is marked, is shared out between trace and todo
      while the section on it is open, and is untouched otherwise. */
  ghost predicate AppliedOnce(st: State, t: Tick) {
    && (t.id in st.marked ==> multiset(st.trace)[t] <= 1)
    && (forall w | PhaseOf(st, w).Working? ::
          t.id in PhaseOf(st, w).unmarked ==> multiset(st.trace)[t] + multiset(PhaseOf(st, w).todo)[t] <= 1)
    && (t.id !in st.marked && Closed(st, t.id) ==> multiset(st.trace)[t] == 0)
  }

  ghost predicate SectionInv(st: State) {
    Sections(st) && forall t: Tick | t.part.None? :: AppliedOnce(st, t)
  }

  ghost predicate Closed(st: State, id: nat) {
    forall w :: PhaseOf(st, w).Working? ==> id !in PhaseOf(st, w).unmarked
  }

  lemma SectionInit()
    ensures SectionInv(INIT)
  {
  }

  lemma {:induction false} TicksOnce(sys: Sys, entries: seq<Record>, ids: seq<nat>, t: Tick)
    requires Increasing(ids)
    ensures multiset(TicksFor(sys, entries, ids))[t] <= 1
  {
    hide ActionCount, TicksOf;
    if ids != [] {
      var front := ids[..|ids| - 1];
      assert Increasing(front);
      TicksOnce(sys, entries, front, t);
      TicksForMember(sys, entries, front);
      if Last(ids) < |entries| {
        var last := TicksOf(sys.reg, Last(ids), entries[Last(ids)]);
        TickIds(sys.reg, Last(ids), entries[Last(ids)]);
        OwnTicksOnce(sys.reg, Last(ids), entries[Last(ids)], t);
        assert multiset(TicksFor(sys, entries, ids)) == multiset(TicksFor(sys, entries, front)) + multiset(last);
        if t in last {
          assert t.id == Last(ids);
          assert t.id !in front;
          assert t !in TicksFor(sys, entries, front);
        } else {
          assert multiset(last)[t] == 0;
        }
      }
    }
  }

  lemma OwnTicksOnce(reg: Registry, id: nat, rec: Record, t: Tick)
    ensures multiset(TicksOf(reg, id, rec))[t] <= 1
  {
    hide ActionCount;
    assert Distinct(TicksOf(reg, id, rec));
    DistinctCount(TicksOf(reg, id, rec), t);
  }

  lemma SectionStep(sys: Sys, st: State, step: Groups.Step)
    requires SectionInv(st) && Enabled(sys, st, step) && Undisturbed(st, step)
    ensures SectionInv(Do(sys, st, step))
  {
    hide SectionInv, TickScores, Fresh, TicksFor;
    match step
    case Append(rec) => SameSections(st, Do(sys, st, step));
    case ReadNew(w, p, ids) => SectionLeave(st, Do(sys, st, step), w);
    case Claim(w, p, ids) => SectionLeave(st, Do(sys, st, step), w);
    case Check(w) => SectionCheck(sys, st, w);
    case RemovePart(w, c) =>
      CountPart(st.trace, PhaseOf(st, w).todo[0].(part := Some(c)));
      SameSections(st, Do(sys, st, step));
    case ApplyHead(w) => SectionApply(sys, st, w);
    case MarkHead(w) => SectionMark(sys, st, w);
    case Ack(w) => SectionLeave(st, Do(sys, st, step), w);
    case Crash(w) => SectionLeave(st, Do(sys, st, step), w);
  }

  lemma CountPart(trace: seq<Tick>, part: Tick)
    requires part.part.Some?
    ensures forall t: Tick | t.part.None? :: multiset(trace + [part])[t] == multiset(trace)[t]
  {
    assert multiset(trace + [part]) == multiset(trace) + multiset{part};
  }

  lemma SameSections(st: State, next: State)
    requires SectionInv(st) && next.workers == st.workers && next.marked == st.marked
    requires forall t: Tick | t.part.None? :: multiset(next.trace)[t] == multiset(st.trace)[t]
    ensures SectionInv(next)
  {
    hide PhaseClean;
    assert forall w :: PhaseOf(next, w) == PhaseOf(st, w);
    forall t: Tick | t.part.None?
      ensures AppliedOnce(next, t)
    {
      assert AppliedOnce(st, t);
      assert Closed(next, t.id) ==> Closed(st, t.id);
    }
  }

  /** A worker outside an open section changes to a phase outside one. */
  lemma SectionLeave(st: State, next: State, w: nat)
    requires SectionInv(st) && next.trace == st.trace && next.marked == st.marked
    requires PhaseOf(st, w).Working? ==> PhaseOf(st, w).todo == [] && PhaseOf(st, w).unmarked == []
    requires forall v :: v != w ==> PhaseOf(next, v) == PhaseOf(st, v)
    requires !PhaseOf(next, w).Working? && PhaseClean(PhaseOf(next, w))
    ensures SectionInv(next)
  {
    hide PhaseClean, PhaseOf;
    forall t: Tick | t.part.None?
      ensures AppliedOnce(next, t)
    {
      assert AppliedOnce(st, t);
      assert Closed(next, t.id) ==> Closed(st, t.id);
    }
  }

  lemma SectionCheck(sys: Sys, st: State, w: nat)
    requires SectionInv(st) && Enabled(sys, st, Check(w)) && Undisturbed(st, Check(w))
    ensures SectionInv(Do(sys, st, Check(w)))
  {
    hide TicksFor, Fresh;
    var next := Do(sys, st, Check(w));
    var msgs := PhaseOf(st, w).msgs;
    var unseen := Fresh(sys, st, msgs);
    var todo := TicksFor(sys, st.entries, unseen);
    FreshIds(sys, st, msgs);
    TicksForMember(sys, st.entries, unseen);
    assert PhaseOf(next, w) == Working(msgs, todo, unseen);
    assert forall v :: v != w ==> PhaseOf(next, v) == PhaseOf(st, v);
    assert PhaseClean(PhaseOf(st, w));
    forall t: Tick | t.part.None?
      ensures AppliedOnce(next, t)
    {
      assert AppliedOnce(st, t);
      assert Closed(next, t.id) ==> Closed(st, t.id);
      if t.id in unseen {
        TicksOnce(sys, st.entries, unseen, t);
        assert Closed(st, t.id);
      }
    }
  }

  lemma SectionApply(sys: Sys, st: State, w: nat)
    requires SectionInv(st) && Enabled(sys, st, ApplyHead(w))
    ensures SectionInv(Do(sys, st, ApplyHead(w)))
  {
    hide TickScores, AppliedOnce;
    var next := Do(sys, st, ApplyHead(w));
    var ph := PhaseOf(st, w);
    assert PhaseClean(ph);
    assert PhaseOf(next, w) == ph.(todo := ph.todo[1..]);
    assert forall t :: t in ph.todo[1..] ==> t in ph.todo;
    assert forall v :: v != w ==> PhaseOf(next, v) == PhaseOf(st, v);
    forall t: Tick | t.part.None?
      ensures AppliedOnce(next, t)
    {
      HeadMoves(sys, st, w, t);
    }
  }

  lemma HeadMoves(sys: Sys, st: State, w: nat, t: Tick)
    requires Sections(st) && AppliedOnce(st, t) && Enabled(sys, st, ApplyHead(w))
    ensures AppliedOnce(Do(sys, st, ApplyHead(w)), t)
  {
    hide TickScores;
    var next := Do(sys, st, ApplyHead(w));
    var ph := PhaseOf(st, w);
    var h, rest := ph.todo[0], ph.todo[1..];
    assert PhaseClean(ph) && h in ph.todo;
    assert ph.todo == [h] + rest;
    assert multiset(ph.todo)[t] == multiset(rest)[t] + (if t == h then 1 else 0);
    assert multiset(next.trace)[t] == multiset(st.trace)[t] + (if t == h then 1 else 0);
    assert PhaseOf(next, w) == ph.(todo := rest);
    assert forall v :: v != w ==> PhaseOf(next, v) == PhaseOf(st, v);
    assert Closed(next, t.id) <==> Closed(st, t.id);
  }

  lemma SectionMark(sys: Sys, st: State, w: nat)
    requires SectionInv(st) && Enabled(sys, st, MarkHead(w))
    ensures SectionInv(Do(sys, st, MarkHead(w)))
  {
    hide TickScores, AppliedOnce;
    var next := Do(sys, st, MarkHead(w));
    var ph := PhaseOf(st, w);
    var id := ph.unmarked[0];
    assert PhaseClean(ph);
    assert id in ph.unmarked;
    assert ph.unmarked == [id] + ph.unmarked[1..];
    assert id !in ph.unmarked[1..];
    assert PhaseOf(next, w) == ph.(unmarked := ph.unmarked[1..]);
    assert Increasing(ph.unmarked[1..]);
    assert forall v :: v != w ==> PhaseOf(next, v) == PhaseOf(st, v);
    forall t: Tick | t.part.None?
      ensures AppliedOnce(next, t)
    {
      MarkMoves(sys, st, w, t);
    }
  }

  lemma MarkMoves(sys: Sys, st: State, w: nat, t: Tick)
    requires Sections(st) && AppliedOnce(st, t) && Enabled(sys, st, MarkHead(w))
    ensures AppliedOnce(Do(sys, st, MarkHead(w)), t)
  {
    hide TickScores;
    var next := Do(sys, st, MarkHead(w));
    var ph := PhaseOf(st, w);
    var id := ph.unmarked[0];
    assert PhaseClean(ph) && id in ph.unmarked;
    assert ph.unmarked == [id] + ph.unmarked[1..];
    assert PhaseOf(next, w) == ph.(unmarked := ph.unmarked[1..]);
    assert forall v :: v != w ==> PhaseOf(next, v) == PhaseOf(st, v);
    if t.id != id {
      assert Closed(next, t.id) ==> Closed(st, t.id);
    }
  }

  lemma {:induction false} UndisturbedInv(sys: Sys, steps: seq<Groups.Step>)
    requires Run(sys, steps).Some? && UndisturbedRun(sys, steps)
    ensures SectionInv(Run(sys, steps).value)
  {
    hide SectionInv, Enabled, Do, Undisturbed;
    if steps == [] {
      SectionInit();
    } else {
      UndisturbedInv(sys, steps[..|steps| - 1]);
      SectionStep(sys, Run(sys, steps[..|steps| - 1]).value, Last(steps));
    }
  }

  lemma AtMostOnce(st: State, t: Tick)
    requires SectionInv(st) && t.part.None?
    ensures multiset(st.trace)[t] <= 1
  {
    hide PhaseClean;
    assert AppliedOnce(st, t);
    if t.id !in st.marked && !Closed(st, t.id) {
      var w :| PhaseOf(st, w).Working? && t.id in PhaseOf(st, w).unmarked;
      assert multiset(st.trace)[t] + multiset(PhaseOf(st, w).todo)[t] <= 1;
    }
  }

  /** In a run whose sections are undisturbed, every action of an acknowledged entry is completed
      exactly once; an increment board then holds exactly the log's sums. */
  lemma ExactlyOnce(sys: Sys, steps: seq<Groups.Step>)
    requires Run(sys, steps).Some? && UndisturbedRun(sys, steps) && AllAcked(Run(sys, steps).value)
    ensures var st := Run(sys, steps).value;
            forall t: Tick | t.part.None? :: multiset(st.trace)[t] == multiset(AllTicks(sys.reg, st.entries))[t]
  {
    hide Run, UndisturbedRun, AllTicks, SectionInv;
    var st := Run(sys, steps).value;
    var all := AllTicks(sys.reg, st.entries);
    TraceCoversLog(sys, steps);
    UndisturbedInv(sys, steps);
    AllTicksMember(sys.reg, st.entries);
    forall t: Tick | t.part.None?
      ensures multiset(st.trace)[t] == multiset(all)[t]
    {
      AtMostOnce(st, t);
      DistinctCount(all, t);
      assert t in st.trace <==> t in all;
    }
  }

  lemma {:induction false} WeightedSame(reg: Registry, all: seq<Tick>, a: multiset<Tick>, b: multiset<Tick>, c: Cell)
    requires forall t :: t in all ==> a[t] == b[t]
    ensures Weighted(reg, all, a, c) == Weighted(reg, all, b, c)
  {
    hide Weight, Times;
    if all != [] {
      WeightedSame(reg, all[..|all| - 1], a, b, c);
      assert Last(all) in all;
    }
  }

  lemma LogIsWhole(reg: Registry, entries: seq<Record>)
    ensures forall t :: t in AllTicks(reg, entries) ==> t.part.None?
  {
    hide AllTicks;
    AllTicksMember(reg, entries);
  }

  lemma IncrementExact(sys: Sys, steps: seq<Groups.Step>, c: Cell)
    requires ValidRegistry(sys.reg) && ValidKey(c.key) && (c.key.app, c.key.board) in sys.reg
    requires WithDefaults(sys.reg[(c.key.app, c.key.board)].cfg).policy.Increment?
    requires Run(sys, steps).Some? && UndisturbedRun(sys, steps) && AllAcked(Run(sys, steps).value)
    requires NeverRemoved(Run(sys, steps).value, CellOwner(c))
    ensures var st := Run(sys, steps).value;
            && Lookup(st.z, c) == Lookup(Replay(sys.reg, EMPTY, st.entries).z, c)
            && Holds(sys.reg[(c.key.app, c.key.board)], st.entries, c, Lookup(st.z, c))
  {
    hide Holds, Replay, Run, AllTicks, TraceOps, RunTicks, Values, CellOps, ValidKey, ValidRegistry, Uniform, NoRemoval, NeverRemoved, EMPTY, Weighted, ScoreSum, TicksOf, Distinct, AllAcked, UndisturbedRun;
    var st := Run(sys, steps).value;
    var cfg := sys.reg[(c.key.app, c.key.board)].cfg;
    var all := AllTicks(sys.reg, st.entries);
    EmptyLookup(c);
    LogHolds(sys.reg, st.entries, c);
    IncrementCounts(sys, steps, c);
    ExactlyOnce(sys, steps);
    SameSubmits(sys, steps);
    SameValues(sys.reg, st.trace, all, c);
    LogIsWhole(sys.reg, st.entries);
    WeightedSame(sys.reg, all, multiset(st.trace), multiset(all), c);
    NoRemovalInTrace(sys, steps, CellOwner(c));
    AllTicksMember(sys.reg, st.entries);
    TicksCell(sys.reg, EMPTY, all, c);
    ReplayIsTicks(sys.reg, EMPTY, st.entries);
    TraceUniform(sys.reg, all, c);
    IncrementFold(TraceOps(sys.reg, all), c, cfg);
    TraceSum(sys.reg, all, all, c);
  }
}
