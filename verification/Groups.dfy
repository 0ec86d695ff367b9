/** The consumer-group path (pkg/ingest/group.go) as a state machine: append, read new entries,
    reclaim pending ones, check the applied markers, apply action by action, mark, acknowledge, and
    crash anywhere in between, with any number of workers overlapping. */
module Groups {
  import opened Basics
  import opened Ingest
  import opened Store

  /** The j-th engine action of log entry `id`. A removal works board by board: `part` is one cell it has
      removed on the way, and none for the action as a whole. */
  datatype Tick = Tick(id: nat, rec: Record, j: nat, part: Option<Cell> := None)

  function Whole(t: Tick): Tick { t.(part := None) }

  /** Engine actions of a record: one per derived board, or one removal. */
  function ActionCount(reg: Registry, rec: Record): nat {
    match Resolve(reg, rec)
    case None => 0
    case Some(lb) => if rec.tombstone then 1 else |OpsOf(lb, rec)|
  }

  function TicksOf(reg: Registry, id: nat, rec: Record): (r: seq<Tick>)
    ensures |r| == ActionCount(reg, rec)
  {
    seq(ActionCount(reg, rec), j requires 0 <= j < ActionCount(reg, rec) => Tick(id, rec, j))
  }

  predicate ValidTick(reg: Registry, t: Tick) { t.j < ActionCount(reg, t.rec) }

  function RunTick(reg: Registry, db: Db, t: Tick): Db {
    if !ValidTick(reg, t) then db
    else
      var lb := Resolve(reg, t.rec).value;
      if t.rec.tombstone then
        if t.part.None? then RemoveAll(db, lb.app, lb.board, lb.cfg, t.rec.member)
        else if OwnerOf(t.rec) == CellOwner(t.part.value) then RemoveOn(db, {t.part.value.key}, lb.cfg, t.rec.member)
        else db
      else ApplyOp(db, OpsOf(lb, t.rec)[t.j])
  }

  /** What a tick does to the scores. The histogram moves of a batch travel in a later pipeline, which
      a crash can cut off, so this machine carries scores only. */
  function TickScores(reg: Registry, z: map<Cell, real>, t: Tick): map<Cell, real> { RunTick(reg, Db(z, map[]), t).z }

  lemma ScoresOnly(reg: Registry, db: Db, t: Tick)
    ensures RunTick(reg, db, t).z == TickScores(reg, db.z, t)
  {
    hide OpsOf, CheckOp, NewValue, Moved, ScanKeys, Vacated;
  }

  function RunTicks(reg: Registry, db: Db, ts: seq<Tick>): Db {
    if ts == [] then db else RunTick(reg, RunTicks(reg, db, ts[..|ts| - 1]), Last(ts))
  }

  // ---------------------------------------------------------------- the machine

  datatype Phase =
    | Idle
    | Holding(msgs: seq<nat>)
    | Working(msgs: seq<nat>, todo: seq<Tick>, unmarked: seq<nat>)

  datatype State = State(
    entries: seq<Record>,
    delivered: set<nat>,
    acked: set<nat>,
    marked: set<nat>,
    workers: map<nat, Phase>,
    trace: seq<Tick>,
    z: map<Cell, real>)

  const INIT: State := State([], {}, {}, {}, map[], [], map[])

  datatype Step =
    | Append(rec: Record)
    | ReadNew(w: nat, p: nat, ids: seq<nat>)
    | Claim(w: nat, p: nat, ids: seq<nat>)
    | Check(w: nat)
    | RemovePart(w: nat, c: Cell)
    | ApplyHead(w: nat)
    | MarkHead(w: nat)
    | Ack(w: nat)
    | Crash(w: nat)

  datatype Sys = Sys(reg: Registry, part: Owner -> nat)

  function PhaseOf(st: State, w: nat): Phase { if w in st.workers then st.workers[w] else Idle }

  predicate Increasing(ids: seq<nat>) { forall i, j :: 0 <= i < j < |ids| ==> ids[i] < ids[j] }

  predicate InPartition(sys: Sys, st: State, p: nat, id: nat) {
    id < |st.entries| && sys.part(OwnerOf(st.entries[id])) == p
  }

  predicate Enabled(sys: Sys, st: State, step: Step) {
    match step
    case Append(rec) => true
    // XREADGROUP ">": the oldest entries of the stream never delivered before
    case ReadNew(w, p, ids) =>
      && PhaseOf(st, w).Idle? && Increasing(ids)
      && (forall i :: 0 <= i < |ids| ==> InPartition(sys, st, p, ids[i]) && ids[i] !in st.delivered)
      && (forall id: nat, i | id < |st.entries| && 0 <= i < |ids| ::
            InPartition(sys, st, p, id) && id !in st.delivered && id !in ids ==> ids[i] < id)
    // XAUTOCLAIM: any pending entries of the stream, even ones another worker still holds
    case Claim(w, p, ids) =>
      && PhaseOf(st, w).Idle? && Increasing(ids)
      && (forall i :: 0 <= i < |ids| ==>
            InPartition(sys, st, p, ids[i]) && ids[i] in st.delivered && ids[i] !in st.acked)
    case Check(w) => PhaseOf(st, w).Holding?
    // one board of the removal at hand, in any order and possibly not the last before a crash
    case RemovePart(w, c) =>
      && PhaseOf(st, w).Working? && PhaseOf(st, w).todo != []
      && PhaseOf(st, w).todo[0].rec.tombstone && OwnerOf(PhaseOf(st, w).todo[0].rec) == CellOwner(c)
    case ApplyHead(w) => PhaseOf(st, w).Working? && PhaseOf(st, w).todo != []
    case MarkHead(w) => PhaseOf(st, w).Working? && PhaseOf(st, w).todo == [] && PhaseOf(st, w).unmarked != []
    case Ack(w) => PhaseOf(st, w).Working? && PhaseOf(st, w).todo == [] && PhaseOf(st, w).unmarked == []
    case Crash(w) => true
  }

  /** Entries still to apply: not marked yet, board registered. */
  function Fresh(sys: Sys, st: State, msgs: seq<nat>): seq<nat> {
    if msgs == [] then []
    else
      var front := Fresh(sys, st, msgs[..|msgs| - 1]);
      var id := Last(msgs);
      if id !in st.marked && id < |st.entries| && Resolve(sys.reg, st.entries[id]).Some? then front + [id] else front
  }

  function TicksFor(sys: Sys, entries: seq<Record>, ids: seq<nat>): seq<Tick> {
    if ids == [] then []
    else
      TicksFor(sys, entries, ids[..|ids| - 1])
      + (if Last(ids) < |entries| then TicksOf(sys.reg, Last(ids), entries[Last(ids)]) else [])
  }

  function Elems(ids: seq<nat>): set<nat> { set id | id in ids }

  function Do(sys: Sys, st: State, step: Step): State
    requires Enabled(sys, st, step)
  {
    match step
    case Append(rec) => st.(entries := st.entries + [rec])
    case ReadNew(w, p, ids) =>
      st.(delivered := st.delivered + Elems(ids), workers := st.workers[w := Holding(ids)])
    case Claim(w, p, ids) => st.(workers := st.workers[w := Holding(ids)])
    case Check(w) =>
      var msgs := PhaseOf(st, w).msgs;
      var unseen := Fresh(sys, st, msgs);
      st.(workers := st.workers[w := Working(msgs, TicksFor(sys, st.entries, unseen), unseen)])
    case RemovePart(w, c) =>
      var t := PhaseOf(st, w).todo[0].(part := Some(c));
      st.(trace := st.trace + [t], z := TickScores(sys.reg, st.z, t))
    case ApplyHead(w) =>
      var ph := PhaseOf(st, w);
      st.(workers := st.workers[w := ph.(todo := ph.todo[1..])],
          trace := st.trace + [ph.todo[0]],
          z := TickScores(sys.reg, st.z, ph.todo[0]))
    case MarkHead(w) =>
      var ph := PhaseOf(st, w);
      st.(workers := st.workers[w := ph.(unmarked := ph.unmarked[1..])], marked := st.marked + {ph.unmarked[0]})
    case Ack(w) => st.(workers := st.workers[w := Idle], acked := st.acked + Elems(PhaseOf(st, w).msgs))
    case Crash(w) => st.(workers := st.workers[w := Idle])
  }

  /** The state after a run, if every step was enabled when taken. */
  function RunFrom(sys: Sys, st: State, steps: seq<Step>): Option<State> {
    if steps == [] then Some(st)
    else
      match RunFrom(sys, st, steps[..|steps| - 1])
      case None => None
      case Some(s) => if Enabled(sys, s, Last(steps)) then Some(Do(sys, s, Last(steps))) else None
  }

  function Run(sys: Sys, steps: seq<Step>): Option<State> { RunFrom(sys, INIT, steps) }

  // ---------------------------------------------------------------- at least once

  /** Every action of entry id occurs in the trace. */
  ghost predicate Complete(sys: Sys, st: State, id: nat) {
    id < |st.entries| && forall t :: t in TicksOf(sys.reg, id, st.entries[id]) ==> t in st.trace
  }

  ghost predicate WorkerInv(sys: Sys, st: State, ph: Phase) {
    match ph
    case Idle => true
    case Holding(msgs) => forall i :: 0 <= i < |msgs| ==> msgs[i] < |st.entries|
    case Working(msgs, todo, unmarked) =>
      && (forall i :: 0 <= i < |msgs| ==> msgs[i] < |st.entries|)
      && (forall i :: 0 <= i < |msgs| ==>
            msgs[i] in st.marked || Resolve(sys.reg, st.entries[msgs[i]]).None? || msgs[i] in unmarked)
      && (forall i :: 0 <= i < |unmarked| ==> unmarked[i] < |st.entries|)
      && (forall i, t | 0 <= i < |unmarked| ::
            t in TicksOf(sys.reg, unmarked[i], st.entries[unmarked[i]]) ==> t in st.trace || t in todo)
      && (forall t :: t in todo ==> t.id < |st.entries| && t in TicksOf(sys.reg, t.id, st.entries[t.id]))
  }

  /** The tick is an action of a log entry, or one board of a removal in the log. */
  ghost predicate Logged(sys: Sys, st: State, t: Tick) {
    && t.id < |st.entries| && Whole(t) in TicksOf(sys.reg, t.id, st.entries[t.id])
    && (t.part.Some? ==> t.rec.tombstone)
  }

  ghost predicate MachineInv(sys: Sys, st: State) {
    && (forall w :: w in st.workers ==> WorkerInv(sys, st, st.workers[w]))
    && (forall id :: id in st.marked ==> Complete(sys, st, id))
    && (forall id :: id in st.acked ==> Complete(sys, st, id))
    && (forall id :: id in st.delivered ==> id < |st.entries|)
    && (forall t :: t in st.trace ==> Logged(sys, st, t))
    && st.z == RunTicks(sys.reg, EMPTY, st.trace).z
  }

  lemma {:induction false} FreshIds(sys: Sys, st: State, msgs: seq<nat>)
    ensures forall id :: id in Fresh(sys, st, msgs) <==>
              id in msgs && id !in st.marked && id < |st.entries| && Resolve(sys.reg, st.entries[id]).Some?
    ensures Increasing(msgs) ==> Increasing(Fresh(sys, st, msgs))
  {
    if msgs != [] {
      var front := msgs[..|msgs| - 1];
      FreshIds(sys, st, front);
      assert msgs == front + [Last(msgs)];
      if Increasing(msgs) {
        assert Increasing(front);
        var f := Fresh(sys, st, front);
        forall i | 0 <= i < |f|
          ensures f[i] < Last(msgs)
        {
          assert f[i] in f;
          assert f[i] in front;
        }
      }
    }
  }

  lemma {:induction false} TicksForMember(sys: Sys, entries: seq<Record>, ids: seq<nat>)
    ensures forall t :: t in TicksFor(sys, entries, ids) <==>
              t.id in ids && t.id < |entries| && t in TicksOf(sys.reg, t.id, entries[t.id])
  {
    hide ActionCount;
    if ids != [] {
      var front := ids[..|ids| - 1];
      TicksForMember(sys, entries, front);
      assert ids == front + [Last(ids)];
      if Last(ids) < |entries| {
        TickIds(sys.reg, Last(ids), entries[Last(ids)]);
      }
    }
  }

  lemma TickIds(reg: Registry, id: nat, rec: Record)
    ensures forall t :: t in TicksOf(reg, id, rec) <==> t.id == id && t.rec == rec && t.j < ActionCount(reg, rec) && t.part.None?
  {
    forall t: Tick | t.id == id && t.rec == rec && t.j < ActionCount(reg, rec) && t.part.None?
      ensures t in TicksOf(reg, id, rec)
    {
      assert TicksOf(reg, id, rec)[t.j] == t;
    }
  }

  /** A larger state keeps what a worker's phase promises. */
  lemma WorkerInvGrows(sys: Sys, st: State, next: State, ph: Phase)
    requires WorkerInv(sys, st, ph)
    requires st.entries <= next.entries && st.marked <= next.marked
    requires forall t :: t in st.trace ==> t in next.trace
    ensures WorkerInv(sys, next, ph)
  {
    hide TicksOf, Resolve;
    assert forall id :: 0 <= id < |st.entries| ==> next.entries[id] == st.entries[id];
  }

  lemma CompleteGrows(sys: Sys, st: State, next: State, id: nat)
    requires Complete(sys, st, id)
    requires st.entries <= next.entries && forall t :: t in st.trace ==> t in next.trace
    ensures Complete(sys, next, id)
  {
    hide TicksOf;
    assert next.entries[id] == st.entries[id];
  }

  lemma UnresolvedComplete(sys: Sys, st: State, id: nat)
    requires id < |st.entries| && Resolve(sys.reg, st.entries[id]).None?
    ensures Complete(sys, st, id)
  {
  }

  lemma StepGrows(sys: Sys, st: State, step: Step)
    requires Enabled(sys, st, step)
    ensures var next := Do(sys, st, step);
            && st.entries <= next.entries && st.marked <= next.marked
            && (forall t :: t in st.trace ==> t in next.trace)
  {
    hide Enabled, TicksFor, Fresh, RunTick, TickScores;
  }

  lemma InvInit(sys: Sys)
    ensures MachineInv(sys, INIT)
  {
  }

  lemma WorkersKeep(sys: Sys, st: State, step: Step)
    requires MachineInv(sys, st) && Enabled(sys, st, step)
    ensures var next := Do(sys, st, step);
            forall w :: w in next.workers ==> WorkerInv(sys, next, next.workers[w])
  {
    hide TicksOf, TicksFor, Fresh, RunTick, TickScores, RunTicks, WorkerInv, Complete, Resolve;
    var next := Do(sys, st, step);
    StepGrows(sys, st, step);
    forall w | w in st.workers
      ensures WorkerInv(sys, next, st.workers[w])
    {
      WorkerInvGrows(sys, st, next, st.workers[w]);
    }
    match step
    case Append(rec) =>
    case ReadNew(w, p, ids) => HoldingInv(sys, next, ids);
    case Claim(w, p, ids) => HoldingInv(sys, next, ids);
    case Check(w) =>
      CheckInv(sys, st, PhaseOf(st, w).msgs);
      WorkerInvGrows(sys, st, next, next.workers[w]);
    case RemovePart(w, c) =>
    case ApplyHead(w) => ApplyInv(sys, st, w);
    case MarkHead(w) => MarkInv(sys, st, w);
    case Ack(w) => AckInv(sys, st, w);
    case Crash(w) => IdleInv(sys, next);
  }

  lemma CompleteKeeps(sys: Sys, st: State, step: Step)
    requires MachineInv(sys, st) && Enabled(sys, st, step)
    ensures var next := Do(sys, st, step);
            forall id :: id in next.marked || id in next.acked ==> Complete(sys, next, id)
  {
    hide TicksOf, TicksFor, Fresh, RunTick, TickScores, RunTicks, WorkerInv, Complete, Resolve;
    var next := Do(sys, st, step);
    StepGrows(sys, st, step);
    forall id | id in st.marked || id in st.acked
      ensures Complete(sys, next, id)
    {
      CompleteGrows(sys, st, next, id);
    }
    if step.MarkHead? {
      MarkInv(sys, st, step.w);
    } else if step.Ack? {
      AckInv(sys, st, step.w);
    }
  }

  lemma TraceKeeps(sys: Sys, st: State, step: Step)
    requires MachineInv(sys, st) && Enabled(sys, st, step)
    ensures var next := Do(sys, st, step);
            && (forall id :: id in next.delivered ==> id < |next.entries|)
            && (forall t :: t in next.trace ==> Logged(sys, next, t))
            && next.z == RunTicks(sys.reg, EMPTY, next.trace).z
  {
    hide TicksOf, TicksFor, Fresh, TickScores, RunTicks, WorkerInv, Complete, Logged, EMPTY;
    var next := Do(sys, st, step);
    forall t | t in st.trace
      ensures Logged(sys, next, t)
    {
      LoggedStays(sys, st, next, t);
    }
    if step.ApplyHead? {
      HeadLogged(sys, st, step.w);
      TraceGrows(sys, st, PhaseOf(st, step.w).todo[0]);
      LoggedHead(sys, next, PhaseOf(st, step.w).todo[0], None);
    } else if step.RemovePart? {
      HeadLogged(sys, st, step.w);
      TraceGrows(sys, st, PhaseOf(st, step.w).todo[0].(part := Some(step.c)));
      LoggedHead(sys, next, PhaseOf(st, step.w).todo[0], Some(step.c));
    }
  }

  lemma LoggedStays(sys: Sys, st: State, next: State, t: Tick)
    requires Logged(sys, st, t) && st.entries <= next.entries
    ensures Logged(sys, next, t)
  {
    hide TicksOf;
  }

  lemma LoggedHead(sys: Sys, st: State, t: Tick, part: Option<Cell>)
    requires t.id < |st.entries| && t in TicksOf(sys.reg, t.id, st.entries[t.id]) && t.part.None?
    requires part.Some? ==> t.rec.tombstone
    ensures Logged(sys, st, t.(part := part))
  {
    hide TicksOf;
    assert Whole(t.(part := part)) == t;
  }

  lemma TraceGrows(sys: Sys, st: State, t: Tick)
    requires st.z == RunTicks(sys.reg, EMPTY, st.trace).z
    ensures TickScores(sys.reg, st.z, t) == RunTicks(sys.reg, EMPTY, st.trace + [t]).z
  {
    hide RunTick, TickScores, EMPTY;
    assert (st.trace + [t])[..|st.trace|] == st.trace;
    ScoresOnly(sys.reg, RunTicks(sys.reg, EMPTY, st.trace), t);
  }

  /** Every step keeps the invariant. */
  lemma InvStep(sys: Sys, st: State, step: Step)
    requires MachineInv(sys, st) && Enabled(sys, st, step)
    ensures MachineInv(sys, Do(sys, st, step))
  {
    hide Enabled, Do, TicksOf, RunTicks, WorkerInv, Complete;
    WorkersKeep(sys, st, step);
    CompleteKeeps(sys, st, step);
    TraceKeeps(sys, st, step);
  }

  lemma IdleInv(sys: Sys, st: State)
    ensures WorkerInv(sys, st, Idle)
  {
  }

  lemma HoldingInv(sys: Sys, st: State, ids: seq<nat>)
    requires forall i :: 0 <= i < |ids| ==> ids[i] < |st.entries|
    ensures WorkerInv(sys, st, Holding(ids))
  {
  }

  lemma CheckInv(sys: Sys, st: State, msgs: seq<nat>)
    requires WorkerInv(sys, st, Holding(msgs))
    ensures var unseen := Fresh(sys, st, msgs);
            WorkerInv(sys, st, Working(msgs, TicksFor(sys, st.entries, unseen), unseen))
  {
    hide TicksOf, TicksFor, Fresh, Resolve;
    var unseen := Fresh(sys, st, msgs);
    FreshIds(sys, st, msgs);
    TicksForMember(sys, st.entries, unseen);
    forall i | 0 <= i < |unseen|
      ensures unseen[i] < |st.entries|
      ensures forall t :: t in TicksOf(sys.reg, unseen[i], st.entries[unseen[i]]) ==> t in TicksFor(sys, st.entries, unseen)
    {
      assert unseen[i] in unseen;
      TickIds(sys.reg, unseen[i], st.entries[unseen[i]]);
    }
  }

  lemma ApplyInv(sys: Sys, st: State, w: nat)
    requires MachineInv(sys, st) && Enabled(sys, st, ApplyHead(w))
    ensures var next := Do(sys, st, ApplyHead(w));
            WorkerInv(sys, next, next.workers[w])
  {
    hide TicksOf, RunTick, TickScores, Resolve;
    var ph := PhaseOf(st, w);
    assert WorkerInv(sys, st, ph);
    assert ph.todo == [ph.todo[0]] + ph.todo[1..];
    assert ph.todo[0] in ph.todo;
  }

  lemma HeadLogged(sys: Sys, st: State, w: nat)
    requires MachineInv(sys, st) && PhaseOf(st, w).Working? && PhaseOf(st, w).todo != []
    ensures var t := PhaseOf(st, w).todo[0];
            t.id < |st.entries| && t in TicksOf(sys.reg, t.id, st.entries[t.id]) && t.part.None?
  {
    hide Resolve, OpsOf;
    var ph := PhaseOf(st, w);
    assert WorkerInv(sys, st, ph);
    assert ph.todo[0] in ph.todo;
  }

  lemma MarkInv(sys: Sys, st: State, w: nat)
    requires MachineInv(sys, st) && Enabled(sys, st, MarkHead(w))
    ensures var next := Do(sys, st, MarkHead(w));
            WorkerInv(sys, next, next.workers[w]) && Complete(sys, next, PhaseOf(st, w).unmarked[0])
  {
    hide TicksOf, Resolve;
    var ph := PhaseOf(st, w);
    assert WorkerInv(sys, st, ph);
    assert ph.unmarked == [ph.unmarked[0]] + ph.unmarked[1..];
  }

  lemma AckInv(sys: Sys, st: State, w: nat)
    requires MachineInv(sys, st) && Enabled(sys, st, Ack(w))
    ensures var next := Do(sys, st, Ack(w));
            WorkerInv(sys, next, Idle) && forall id :: id in Elems(PhaseOf(st, w).msgs) ==> Complete(sys, next, id)
  {
    hide TicksOf, Resolve;
    var ph := PhaseOf(st, w);
    var next := Do(sys, st, Ack(w));
    assert WorkerInv(sys, st, ph);
    forall id | id in Elems(ph.msgs)
      ensures Complete(sys, next, id)
    {
      var i :| 0 <= i < |ph.msgs| && ph.msgs[i] == id;
      if id in st.marked {
        assert Complete(sys, st, id);
      } else {
        UnresolvedComplete(sys, next, id);
      }
    }
  }

  lemma {:induction false} RunInv(sys: Sys, steps: seq<Step>)
    requires Run(sys, steps).Some?
    ensures MachineInv(sys, Run(sys, steps).value)
  {
    hide MachineInv, Enabled, Do;
    if steps == [] {
      InvInit(sys);
    } else {
      RunInv(sys, steps[..|steps| - 1]);
      InvStep(sys, Run(sys, steps[..|steps| - 1]).value, Last(steps));
    }
  }

  /** In every run, with crashes, redelivery and overlapping workers: each action of an acknowledged
      entry has been applied at least once, and nothing is applied that is not in the log. */
  lemma AtLeastOnce(sys: Sys, steps: seq<Step>)
    requires Run(sys, steps).Some?
    ensures var st := Run(sys, steps).value;
            && (forall id :: id in st.acked ==> Complete(sys, st, id))
            && (forall t :: t in st.trace ==> Logged(sys, st, t))
            && st.z == RunTicks(sys.reg, EMPTY, st.trace).z
  {
    hide Run;
    RunInv(sys, steps);
  }
}
