/** Order in the consumer-group path (pkg/ingest/group.go:253-298, pkg/api/moderation.go:16-22): one
    crash before the check is enough for a later entry to be applied first, and the code reads new
    entries before it reclaims old ones. */
module Reordering {
  import opened Basics
  import opened Boards
  import opened Delivery
  import opened Groups
  import opened Ingest
  import opened Keys
  import opened Policies
  import opened Store

  // ---------------------------------------------------------------- a cell sees its owner's ticks

  function FoldTick(reg: Registry, t: Tick, c: Cell, v: Option<real>): Option<real> {
    if SubmitTick(reg, t) then CellOp(OpOf(reg, t), c, v)
    else if ValidTick(reg, t) && OwnerOf(t.rec) == CellOwner(c) && Reaches(t, c) then None
    else v
  }

  function FoldTicks(reg: Registry, ts: seq<Tick>, c: Cell, v: Option<real>): Option<real> {
    if ts == [] then v else FoldTick(reg, Last(ts), c, FoldTicks(reg, ts[..|ts| - 1], c, v))
  }

  lemma {:induction false} RunTicksFold(reg: Registry, db: Db, ts: seq<Tick>, c: Cell)
    requires ValidRegistry(reg) && ValidKey(c.key)
    ensures Lookup(RunTicks(reg, db, ts).z, c) == FoldTicks(reg, ts, c, Lookup(db.z, c))
  {
    hide OpOf, CellOp, RunTick, TickScores, ValidRegistry, ValidKey;
    if ts != [] {
      RunTicksFold(reg, db, ts[..|ts| - 1], c);
      TickCell(reg, RunTicks(reg, db, ts[..|ts| - 1]), Last(ts), c);
    }
  }

  /** The ticks of one owner, in order. */
  function Own(ts: seq<Tick>, o: Owner): seq<Tick> {
    if ts == [] then []
    else
      var front := Own(ts[..|ts| - 1], o);
      if OwnerOf(Last(ts).rec) == o then front + [Last(ts)] else front
  }

  lemma {:induction false} OwnConcat(a: seq<Tick>, b: seq<Tick>, o: Owner)
    ensures Own(a + b, o) == Own(a, o) + Own(b, o)
  {
    if b == [] {
      assert a + b == a;
    } else {
      assert (a + b)[..|a + b| - 1] == a + b[..|b| - 1];
      OwnConcat(a, b[..|b| - 1], o);
    }
  }

  lemma {:induction false} OwnNone(ts: seq<Tick>, o: Owner)
    requires forall t :: t in ts ==> OwnerOf(t.rec) != o
    ensures Own(ts, o) == []
  {
    if ts != [] {
      assert Last(ts) in ts;
      OwnNone(ts[..|ts| - 1], o);
    }
  }

  lemma ForeignTick(reg: Registry, t: Tick, c: Cell, v: Option<real>)
    requires ValidRegistry(reg) && OwnerOf(t.rec) != CellOwner(c)
    ensures FoldTick(reg, t, c, v) == v
  {
    hide OpsOf, CheckOp, NewValue;
    if SubmitTick(reg, t) {
      OpsOfMember(Resolve(reg, t.rec).value, t.rec, t.j);
    }
  }

  lemma {:induction false} FoldOwn(reg: Registry, ts: seq<Tick>, c: Cell, v: Option<real>)
    requires ValidRegistry(reg)
    ensures FoldTicks(reg, ts, c, v) == FoldTicks(reg, Own(ts, CellOwner(c)), c, v)
  {
    hide FoldTick, ValidRegistry;
    if ts != [] {
      var front := ts[..|ts| - 1];
      FoldOwn(reg, front, c, v);
      var own := Own(front, CellOwner(c));
      if OwnerOf(Last(ts).rec) == CellOwner(c) {
        assert (own + [Last(ts)])[..|own|] == own;
      } else {
        ForeignTick(reg, Last(ts), c, FoldTicks(reg, front, c, v));
      }
    }
  }

  /** Only what was applied after the last tombstone counts: the cell is absent exactly when none of its
      submits is. */
  lemma AfterTombstone(reg: Registry, before: seq<Tick>, t: Tick, after: seq<Tick>, c: Cell)
    requires ValidRegistry(reg) && ValidKey(c.key)
    requires ValidTick(reg, t) && t.rec.tombstone && OwnerOf(t.rec) == CellOwner(c) && Reaches(t, c)
    requires NoRemoval(after, CellOwner(c))
    ensures Lookup(RunTicks(reg, EMPTY, before + [t] + after).z, c) == CellOps(TraceOps(reg, after), c, None)
    ensures Lookup(RunTicks(reg, EMPTY, before + [t] + after).z, c) == None <==> Values(TraceOps(reg, after), c) == {}
  {
    hide Values, RunTick, TickScores, TraceOps, CellOps, ValidRegistry, ValidKey, SubmitTick, EMPTY;
    RunTicksConcat(reg, EMPTY, before + [t], after);
    var d := RunTicks(reg, EMPTY, before + [t]);
    assert (before + [t])[..|before|] == before;
    TickCell(reg, RunTicks(reg, EMPTY, before), t, c);
    TicksCell(reg, d, after, c);
    AbsentIff(TraceOps(reg, after), c);
  }

  // ---------------------------------------------------------------- the reordering run

  lemma {:induction false} RunFromConcat(sys: Sys, st: State, a: seq<Groups.Step>, b: seq<Groups.Step>)
    requires RunFrom(sys, st, a).Some?
    ensures RunFrom(sys, st, a + b) == RunFrom(sys, RunFrom(sys, st, a).value, b)
  {
    hide Enabled, Do;
    if b == [] {
      assert a + b == a;
    } else {
      assert (a + b)[..|a + b| - 1] == a + b[..|b| - 1];
      RunFromConcat(sys, st, a, b[..|b| - 1]);
    }
  }

  lemma RunFromOne(sys: Sys, st: State, s: Groups.Step)
    requires Enabled(sys, st, s)
    ensures RunFrom(sys, st, [s]) == Some(Do(sys, st, s))
  {
    assert [s][..0] == [];
    assert RunFrom(sys, st, []) == Some(st);
  }

  const SECTION: seq<Groups.Step> := [Check(0), ApplyHead(0), MarkHead(0), Ack(0)]

  lemma OneFresh(sys: Sys, st: State, id: nat)
    requires id < |st.entries| && id !in st.marked
    requires Resolve(sys.reg, st.entries[id]).Some? && ActionCount(sys.reg, st.entries[id]) == 1
    ensures Fresh(sys, st, [id]) == [id] && TicksFor(sys, st.entries, [id]) == [Tick(id, st.entries[id], 0)]
  {
    hide ActionCount, Resolve;
    assert [id][..0] == [];
    assert TicksOf(sys.reg, id, st.entries[id]) == [Tick(id, st.entries[id], 0)];
  }

  /** A worker holding one unmarked single-action entry checks, applies, marks and acknowledges it. */
  lemma OneSection(sys: Sys, st: State, id: nat)
    requires PhaseOf(st, 0) == Holding([id]) && id < |st.entries| && id !in st.marked
    requires Resolve(sys.reg, st.entries[id]).Some? && ActionCount(sys.reg, st.entries[id]) == 1
    ensures var t := Tick(id, st.entries[id], 0);
            RunFrom(sys, st, SECTION) == Some(st.(workers := st.workers[0 := Idle], marked := st.marked + {id},
              acked := st.acked + {id}, trace := st.trace + [t], z := TickScores(sys.reg, st.z, t)))
  {
    hide RunTick, TickScores, ActionCount, Resolve, RunFrom, Fresh, TicksFor;
    var t := Tick(id, st.entries[id], 0);
    var s1 := Do(sys, st, Check(0));
    OneFresh(sys, st, id);
    assert PhaseOf(s1, 0) == Working([id], [t], [id]);
    var s2 := Do(sys, s1, ApplyHead(0));
    assert PhaseOf(s2, 0) == Working([id], [], [id]);
    var s3 := Do(sys, s2, MarkHead(0));
    assert PhaseOf(s3, 0) == Working([id], [], []);
    var s4 := Do(sys, s3, Ack(0));
    RunFromOne(sys, st, Check(0));
    RunFromOne(sys, s1, ApplyHead(0));
    RunFromOne(sys, s2, MarkHead(0));
    RunFromOne(sys, s3, Ack(0));
    assert [Check(0)] + [ApplyHead(0)] == [Check(0), ApplyHead(0)];
    assert [Check(0), ApplyHead(0)] + [MarkHead(0)] == [Check(0), ApplyHead(0), MarkHead(0)];
    assert [Check(0), ApplyHead(0), MarkHead(0)] + [Ack(0)] == SECTION;
    RunFromConcat(sys, st, [Check(0)], [ApplyHead(0)]);
    RunFromConcat(sys, st, [Check(0), ApplyHead(0)], [MarkHead(0)]);
    RunFromConcat(sys, st, [Check(0), ApplyHead(0), MarkHead(0)], [Ack(0)]);
    assert Elems([id]) == {id};
    assert s4.workers == st.workers[0 := Idle];
  }

  /** Read the first of two entries, crash before the check, handle the second, reclaim the first. */
  function CrashFirst(r0: Record, r1: Record, p: nat): seq<Groups.Step> {
    [Append(r0), Append(r1), ReadNew(0, p, [0]), Crash(0), ReadNew(0, p, [1])] + SECTION + [Claim(0, p, [0])] + SECTION
  }

  ghost predicate TwoEntries(sys: Sys, r0: Record, r1: Record) {
    && OwnerOf(r0) == OwnerOf(r1)
    && Resolve(sys.reg, r0).Some? && ActionCount(sys.reg, r0) == 1 && ActionCount(sys.reg, r1) == 1
  }

  /** The run is possible, acknowledges both entries, and applies the second before the first. */
  lemma CrashFirstRun(sys: Sys, r0: Record, r1: Record)
    requires TwoEntries(sys, r0, r1)
    ensures var st := Run(sys, CrashFirst(r0, r1, sys.part(OwnerOf(r0))));
            && st.Some? && st.value.entries == [r0, r1] && AllAcked(st.value)
            && st.value.trace == [Tick(1, r1, 0), Tick(0, r0, 0)]
            && st.value.z == RunTicks(sys.reg, EMPTY, st.value.trace).z
  {
    hide RunTick, TickScores, ActionCount, RunFrom, SECTION;
    var p := sys.part(OwnerOf(r0));
    var start := [Append(r0), Append(r1), ReadNew(0, p, [0]), Crash(0), ReadNew(0, p, [1])];
    CrashFirstStart(sys, r0, r1);
    var s5 := RunFrom(sys, INIT, start).value;
    OneSection(sys, s5, 1);
    RunFromConcat(sys, INIT, start, SECTION);
    var s9 := RunFrom(sys, INIT, start + SECTION).value;
    assert Enabled(sys, s9, Claim(0, p, [0]));
    var s10 := Do(sys, s9, Claim(0, p, [0]));
    RunFromOne(sys, s9, Claim(0, p, [0]));
    RunFromConcat(sys, INIT, start + SECTION, [Claim(0, p, [0])]);
    OneSection(sys, s10, 0);
    RunFromConcat(sys, INIT, start + SECTION + [Claim(0, p, [0])], SECTION);
    var a, b := Tick(1, r1, 0), Tick(0, r0, 0);
    assert [a, b][..1] == [a] && [a][..0] == [];
    assert RunTicks(sys.reg, EMPTY, [a]) == RunTick(sys.reg, EMPTY, a);
    ScoresOnly(sys.reg, EMPTY, a);
    ScoresOnly(sys.reg, RunTick(sys.reg, EMPTY, a), b);
  }

  lemma CrashFirstRead(sys: Sys, r0: Record, r1: Record)
    requires OwnerOf(r0) == OwnerOf(r1)
    ensures var p := sys.part(OwnerOf(r0));
            RunFrom(sys, INIT, [Append(r0), Append(r1), ReadNew(0, p, [0])])
            == Some(State([r0, r1], {0}, {}, {}, map[0 := Holding([0])], [], map[]))
  {
    hide RunFrom, RunTick, TickScores, Fresh, TicksFor, EMPTY;
    var p := sys.part(OwnerOf(r0));
    var s1 := State([r0], {}, {}, {}, map[], [], map[]);
    var s2 := State([r0, r1], {}, {}, {}, map[], [], map[]);
    var s3 := State([r0, r1], {0}, {}, {}, map[0 := Holding([0])], [], map[]);
    assert Do(sys, INIT, Append(r0)) == s1;
    assert Do(sys, s1, Append(r1)) == s2;
    assert Enabled(sys, s2, ReadNew(0, p, [0]));
    assert Elems([0]) == {0};
    assert Do(sys, s2, ReadNew(0, p, [0])) == s3;
    RunFromOne(sys, INIT, Append(r0));
    RunFromOne(sys, s1, Append(r1));
    RunFromOne(sys, s2, ReadNew(0, p, [0]));
    RunFromConcat(sys, INIT, [Append(r0)], [Append(r1)]);
    assert [Append(r0)] + [Append(r1)] == [Append(r0), Append(r1)];
    RunFromConcat(sys, INIT, [Append(r0), Append(r1)], [ReadNew(0, p, [0])]);
    assert [Append(r0), Append(r1)] + [ReadNew(0, p, [0])] == [Append(r0), Append(r1), ReadNew(0, p, [0])];
  }

  lemma CrashFirstStart(sys: Sys, r0: Record, r1: Record)
    requires OwnerOf(r0) == OwnerOf(r1)
    ensures var p := sys.part(OwnerOf(r0));
            RunFrom(sys, INIT, [Append(r0), Append(r1), ReadNew(0, p, [0]), Crash(0), ReadNew(0, p, [1])])
            == Some(State([r0, r1], {0, 1}, {}, {}, map[0 := Holding([1])], [], map[]))
  {
    hide RunFrom, RunTick, TickScores, Fresh, TicksFor, EMPTY;
    var p := sys.part(OwnerOf(r0));
    var s3 := State([r0, r1], {0}, {}, {}, map[0 := Holding([0])], [], map[]);
    var s4 := State([r0, r1], {0}, {}, {}, map[0 := Idle], [], map[]);
    var s5 := State([r0, r1], {0, 1}, {}, {}, map[0 := Holding([1])], [], map[]);
    CrashFirstRead(sys, r0, r1);
    assert Do(sys, s3, Crash(0)) == s4;
    assert Enabled(sys, s4, ReadNew(0, p, [1]));
    assert Elems([1]) == {1};
    assert Do(sys, s4, ReadNew(0, p, [1])) == s5;
    RunFromOne(sys, s3, Crash(0));
    RunFromOne(sys, s4, ReadNew(0, p, [1]));
    var head := [Append(r0), Append(r1), ReadNew(0, p, [0])];
    RunFromConcat(sys, INIT, head, [Crash(0)]);
    RunFromConcat(sys, INIT, head + [Crash(0)], [ReadNew(0, p, [1])]);
    assert head + [Crash(0)] + [ReadNew(0, p, [1])]
        == [Append(r0), Append(r1), ReadNew(0, p, [0]), Crash(0), ReadNew(0, p, [1])];
  }

  /** On a `last` board that run leaves the older score in place although both entries are
      acknowledged and no section was disturbed: last is not exactly-once. */
  lemma LastIsNotExactlyOnce(sys: Sys, r0: Record, r1: Record, c: Cell)
    requires ValidRegistry(sys.reg) && ValidKey(c.key) && TwoEntries(sys, r0, r1)
    requires !r0.tombstone && !r1.tombstone && WithDefaults(Resolve(sys.reg, r0).value.cfg).policy.LastWins?
    requires Hits(OpOf(sys.reg, Tick(0, r0, 0)), c) && Hits(OpOf(sys.reg, Tick(1, r1, 0)), c)
    ensures var st := Run(sys, CrashFirst(r0, r1, sys.part(OwnerOf(r0))));
            && st.Some? && AllAcked(st.value)
            && Lookup(st.value.z, c) == Some(ValueOf(OpOf(sys.reg, Tick(0, r0, 0))))
            && Lookup(Replay(sys.reg, EMPTY, st.value.entries).z, c) == Some(ValueOf(OpOf(sys.reg, Tick(1, r1, 0))))
  {
    hide Run, RunTick, TickScores, CheckOp, CellOf, OpsOf, TicksOf, ValidKey, ValidRegistry, CrashFirst;
    CrashFirstRun(sys, r0, r1);
    var a, b := Tick(1, r1, 0), Tick(0, r0, 0);
    OpsOfMember(Resolve(sys.reg, r0).value, r0, 0);
    OpsOfMember(Resolve(sys.reg, r1).value, r1, 0);
    TwoTicksLast(sys.reg, a, b, c);
    TwoTicksLast(sys.reg, b, a, c);
    ReplayIsTicks(sys.reg, EMPTY, [r0, r1]);
    TwoEntriesTicks(sys.reg, r0, r1);
  }

  lemma TwoEntriesTicks(reg: Registry, r0: Record, r1: Record)
    requires ActionCount(reg, r0) == 1 && ActionCount(reg, r1) == 1
    ensures AllTicks(reg, [r0, r1]) == [Tick(0, r0, 0), Tick(1, r1, 0)]
  {
    hide ActionCount;
    assert [r0, r1][..1] == [r0] && [r0][..0] == [];
    assert TicksOf(reg, 0, r0) == [Tick(0, r0, 0)] && TicksOf(reg, 1, r1) == [Tick(1, r1, 0)];
    assert AllTicks(reg, [r0]) == [Tick(0, r0, 0)];
  }

  lemma TwoTicksLast(reg: Registry, a: Tick, b: Tick, c: Cell)
    requires ValidRegistry(reg) && ValidKey(c.key)
    requires SubmitTick(reg, a) && SubmitTick(reg, b)
    requires Hits(OpOf(reg, b), c) && WithDefaults(OpOf(reg, b).cfg).policy.LastWins?
    ensures Lookup(RunTicks(reg, EMPTY, [a, b]).z, c) == Some(ValueOf(OpOf(reg, b)))
  {
    hide RunTicks, CheckOp, CellOf, OpOf, SubmitTick, ValidKey, ValidRegistry, EMPTY;
    RunTicksFold(reg, EMPTY, [a, b], c);
    assert [a, b][..1] == [a];
  }

  /** With the second entry a tombstone, the same run brings the removed score back for good. */
  lemma RemovedScoreReturns(sys: Sys, r0: Record, r1: Record, c: Cell)
    requires ValidRegistry(sys.reg) && ValidKey(c.key) && TwoEntries(sys, r0, r1)
    requires !r0.tombstone && r1.tombstone && OwnerOf(r1) == CellOwner(c)
    requires Hits(OpOf(sys.reg, Tick(0, r0, 0)), c)
    ensures var st := Run(sys, CrashFirst(r0, r1, sys.part(OwnerOf(r0))));
            && st.Some? && AllAcked(st.value)
            && Lookup(st.value.z, c).Some?
            && Lookup(Replay(sys.reg, EMPTY, st.value.entries).z, c) == None
  {
    hide Run, RunTicks, CheckOp, CellOf, OpsOf, TicksOf, ValidKey, ValidRegistry, CrashFirst, EMPTY, NewValue;
    CrashFirstRun(sys, r0, r1);
    var a, b := Tick(1, r1, 0), Tick(0, r0, 0);
    RunTicksFold(sys.reg, EMPTY, [a, b], c);
    RunTicksFold(sys.reg, EMPTY, [b, a], c);
    assert [a, b][..1] == [a] && [b, a][..1] == [b];
    ReplayIsTicks(sys.reg, EMPTY, [r0, r1]);
    TwoEntriesTicks(sys.reg, r0, r1);
  }
}
