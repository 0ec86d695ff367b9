/** What the machines can do, whatever has happened before: consumers catch up, a lone caller gets the
    answer the code gives it, and every log can be consumed to the end in order. */
module Progress {
  import opened Basics
  import opened Boards
  import opened Codec
  import opened Ingest
  import opened Store
  import Dedup
  import Groups
  import HistogramRace
  import Moderation
  import Schedules

  // ---------------------------------------------------------------- consumer groups

  ghost predicate AllOrderly(owner: nat -> nat, steps: seq<Groups.Step>) {
    forall i :: 0 <= i < |steps| ==> Schedules.Orderly(owner, steps[i])
  }

  /** Nobody is at work, and everything in the log is delivered and acknowledged. */
  ghost predicate AtRest(st: Groups.State) {
    && (forall w :: Groups.PhaseOf(st, w).Idle?)
    && (forall id: nat :: id in st.delivered <==> id < |st.entries|)
    && (forall id: nat :: id in st.acked <==> id < |st.entries|)
    && (forall id: nat :: id in st.marked ==> id < |st.entries|)
  }

  /** Only w's own list and the scores have changed. */
  ghost predicate OnlyWorked(st: Groups.State, next: Groups.State, w: nat) {
    && next.entries == st.entries && next.delivered == st.delivered && next.acked == st.acked
    && forall v :: v != w ==> Groups.PhaseOf(next, v) == Groups.PhaseOf(st, v)
  }

  lemma OneStep(sys: Groups.Sys, owner: nat -> nat, steps: seq<Groups.Step>, step: Groups.Step)
    requires Groups.Run(sys, steps).Some? && AllOrderly(owner, steps)
    requires Groups.Enabled(sys, Groups.Run(sys, steps).value, step) && Schedules.Orderly(owner, step)
    ensures Groups.Run(sys, steps + [step]) == Some(Groups.Do(sys, Groups.Run(sys, steps).value, step))
    ensures AllOrderly(owner, steps + [step])
  {
    hide Groups.Enabled, Groups.Do, Schedules.Orderly;
    assert (steps + [step])[..|steps|] == steps;
  }

  /** A worker applies all its actions. */
  lemma {:induction false} AppliesAll(sys: Groups.Sys, owner: nat -> nat, steps: seq<Groups.Step>, w: nat)
    returns (more: seq<Groups.Step>)
    requires Groups.Run(sys, steps).Some? && AllOrderly(owner, steps) && Groups.PhaseOf(Groups.Run(sys, steps).value, w).Working?
    ensures Groups.Run(sys, more).Some? && AllOrderly(owner, more)
    ensures var st, next := Groups.Run(sys, steps).value, Groups.Run(sys, more).value;
            && OnlyWorked(st, next, w) && next.marked == st.marked
            && Groups.PhaseOf(next, w) == Groups.PhaseOf(st, w).(todo := [])
    decreases |Groups.PhaseOf(Groups.Run(sys, steps).value, w).todo|
  {
    hide Groups.Run, Groups.TickScores, AllOrderly;
    var st := Groups.Run(sys, steps).value;
    if Groups.PhaseOf(st, w).todo == [] {
      more := steps;
    } else {
      OneStep(sys, owner, steps, Groups.ApplyHead(w));
      more := AppliesAll(sys, owner, steps + [Groups.ApplyHead(w)], w);
    }
  }

  /** And then marks all its entries. */
  lemma {:induction false} MarksAll(sys: Groups.Sys, owner: nat -> nat, steps: seq<Groups.Step>, w: nat)
    returns (more: seq<Groups.Step>)
    requires Groups.Run(sys, steps).Some? && AllOrderly(owner, steps)
    requires var ph := Groups.PhaseOf(Groups.Run(sys, steps).value, w);
             ph.Working? && ph.todo == []
    ensures Groups.Run(sys, more).Some? && AllOrderly(owner, more)
    ensures var st, next := Groups.Run(sys, steps).value, Groups.Run(sys, more).value;
            && OnlyWorked(st, next, w)
            && (forall id :: id in next.marked <==> id in st.marked || id in Groups.PhaseOf(st, w).unmarked)
            && Groups.PhaseOf(next, w) == Groups.PhaseOf(st, w).(unmarked := [])
    decreases |Groups.PhaseOf(Groups.Run(sys, steps).value, w).unmarked|
  {
    hide Groups.Run, AllOrderly;
    var st := Groups.Run(sys, steps).value;
    var ids := Groups.PhaseOf(st, w).unmarked;
    if ids == [] {
      more := steps;
    } else {
      assert ids == [ids[0]] + ids[1..];
      OneStep(sys, owner, steps, Groups.MarkHead(w));
      more := MarksAll(sys, owner, steps + [Groups.MarkHead(w)], w);
    }
  }

  /** A worker at rest reads and checks one more record. */
  lemma TakesOne(sys: Groups.Sys, owner: nat -> nat, steps: seq<Groups.Step>, rec: Record) returns (more: seq<Groups.Step>)
    requires Groups.Run(sys, steps).Some? && AllOrderly(owner, steps) && AtRest(Groups.Run(sys, steps).value)
    ensures Groups.Run(sys, more).Some? && AllOrderly(owner, more)
    ensures var st, next := Groups.Run(sys, steps).value, Groups.Run(sys, more).value;
            var n, w := |st.entries|, owner(sys.part(OwnerOf(rec)));
            && next.entries == st.entries + [rec] && next.acked == st.acked && next.marked == st.marked
            && next.delivered == st.delivered + {n}
            && Groups.PhaseOf(next, w).Working? && Groups.PhaseOf(next, w).msgs == [n]
            && (forall id :: id in Groups.PhaseOf(next, w).unmarked ==> id == n)
            && forall v :: v != w ==> Groups.PhaseOf(next, v).Idle?
  {
    hide Groups.Run, AllOrderly, Groups.TicksFor;
    var st := Groups.Run(sys, steps).value;
    var n, p := |st.entries|, sys.part(OwnerOf(rec));
    var w := owner(p);
    more := steps + [Groups.Append(rec)];
    OneStep(sys, owner, steps, Groups.Append(rec));
    var s1 := Groups.Run(sys, more).value;
    assert forall v :: Groups.PhaseOf(s1, v) == Groups.PhaseOf(st, v);
    OneStep(sys, owner, more, Groups.ReadNew(w, p, [n]));
    more := more + [Groups.ReadNew(w, p, [n])];
    var s2 := Groups.Run(sys, more).value;
    OneStep(sys, owner, more, Groups.Check(w));
    more := more + [Groups.Check(w)];
    FreshOne(sys, s2, n);
    assert forall v :: v != w ==> Groups.PhaseOf(Groups.Run(sys, more).value, v) == Groups.PhaseOf(s2, v) == Groups.PhaseOf(s1, v);
  }

  /** One more record goes all the way. */
  lemma OneMore(sys: Groups.Sys, owner: nat -> nat, steps: seq<Groups.Step>, rec: Record) returns (more: seq<Groups.Step>)
    requires Groups.Run(sys, steps).Some? && AllOrderly(owner, steps) && AtRest(Groups.Run(sys, steps).value)
    ensures Groups.Run(sys, more).Some? && AllOrderly(owner, more) && AtRest(Groups.Run(sys, more).value)
    ensures Groups.Run(sys, more).value.entries == Groups.Run(sys, steps).value.entries + [rec]
  {
    hide Groups.Run, AllOrderly, Groups.TicksFor;
    var n, w := |Groups.Run(sys, steps).value.entries|, owner(sys.part(OwnerOf(rec)));
    more := TakesOne(sys, owner, steps, rec);
    more := AppliesAll(sys, owner, more, w);
    more := MarksAll(sys, owner, more, w);
    var last := Groups.Run(sys, more).value;
    FreshOne(sys, last, n);
    OneStep(sys, owner, more, Groups.Ack(w));
    more := more + [Groups.Ack(w)];
    var done := Groups.Run(sys, more).value;
    assert forall v :: Groups.PhaseOf(done, v) == if v == w then Groups.Idle else Groups.PhaseOf(last, v);
  }

  lemma FreshOne(sys: Groups.Sys, st: Groups.State, n: nat)
    ensures forall id :: id in Groups.Fresh(sys, st, [n]) ==> id == n
    ensures Groups.Elems([n]) == {n}
  {
    assert [n][..0] == [];
  }

  /** Static ownership without crashes can consume any log to the end. */
  lemma {:induction false} OrderlyConsumes(sys: Groups.Sys, owner: nat -> nat, log: seq<Record>) returns (steps: seq<Groups.Step>)
    ensures Groups.Run(sys, steps).Some? && AllOrderly(owner, steps)
    ensures Groups.Run(sys, steps).value.entries == log && AtRest(Groups.Run(sys, steps).value)
  {
    if log == [] {
      steps := [];
    } else {
      hide Groups.Run, AllOrderly, AtRest;
      steps := OrderlyConsumes(sys, owner, log[..|log| - 1]);
      steps := OneMore(sys, owner, steps, Last(log));
    }
  }

  // ---------------------------------------------------------------- next to moderation

  /** The in-order consumer can always catch up with a partition, and anyone can append meanwhile. */
  lemma {:induction false} CatchesUp(sys: Moderation.Sys, steps: seq<Moderation.Step>, p: nat) returns (more: seq<Moderation.Step>)
    requires Moderation.Run(sys, steps).Some?
    requires var st := Moderation.Run(sys, steps).value;
             Moderation.Next(st, p) <= |Moderation.Stream(sys, st, p)|
    ensures Moderation.Run(sys, more).Some?
    ensures var st, next := Moderation.Run(sys, steps).value, Moderation.Run(sys, more).value;
            && next.log == st.log && next.wiped == st.wiped
            && Moderation.Next(next, p) == |Moderation.Stream(sys, st, p)|
            && forall q :: q != p ==> Moderation.Next(next, q) == Moderation.Next(st, q)
    ensures forall rec :: Moderation.Enabled(sys, Moderation.Run(sys, more).value, Moderation.Append(rec))
    decreases var st := Moderation.Run(sys, steps).value;
              |Moderation.Stream(sys, st, p)| - Moderation.Next(st, p)
  {
    hide ApplyRecord, Project;
    var st := Moderation.Run(sys, steps).value;
    if Moderation.Next(st, p) == |Moderation.Stream(sys, st, p)| {
      more := steps;
    } else {
      assert (steps + [Moderation.Consume(p)])[..|steps|] == steps;
      more := CatchesUp(sys, steps + [Moderation.Consume(p)], p);
    }
  }

  /** A synchronous removal can take any cell of a registered board at any moment, that cell and no other. */
  lemma WipesAnytime(sys: Moderation.Sys, st: Moderation.State, c: Cell)
    requires (c.key.app, c.key.board) in sys.reg
    ensures Moderation.Enabled(sys, st, Moderation.Wipe(c))
    ensures var next := Moderation.Do(sys, st, Moderation.Wipe(c));
            && next.log == st.log && next.next == st.next
            && forall d: Cell :: Lookup(next.db.z, d) == if d == c then None else Lookup(st.db.z, d)
  {
    hide Vacated, Project;
  }

  /** A worker at a removal can take any cell of the removal's owner, that cell and no other, and stays at the
      removal; and any worker can crash at any moment, losing nothing but its own list. */
  lemma RemovesInParts(sys: Groups.Sys, st: Groups.State, w: nat, c: Cell)
    requires Groups.PhaseOf(st, w).Working? && Groups.PhaseOf(st, w).todo != []
    requires var t := Groups.PhaseOf(st, w).todo[0];
             Groups.ValidTick(sys.reg, t) && t.rec.tombstone && OwnerOf(t.rec) == CellOwner(c)
    ensures Groups.Enabled(sys, st, Groups.RemovePart(w, c))
    ensures var next := Groups.Do(sys, st, Groups.RemovePart(w, c));
            && next == st.(trace := next.trace, z := next.z)
            && forall d: Cell :: Lookup(next.z, d) == if d == c then None else Lookup(st.z, d)
    ensures Groups.Enabled(sys, st, Groups.Crash(w))
    ensures var next := Groups.Do(sys, st, Groups.Crash(w));
            next == st.(workers := next.workers)
            && forall v :: Groups.PhaseOf(next, v) == if v == w then Groups.Idle else Groups.PhaseOf(st, v)
  {
    hide Groups.ValidTick, OpsOf, Vacated, Groups.ActionCount;
    var t := Groups.PhaseOf(st, w).todo[0];
    PartTick(sys.reg, t, c);
  }

  lemma PartTick(reg: Registry, t: Groups.Tick, c: Cell)
    requires Groups.ValidTick(reg, t) && t.rec.tombstone && OwnerOf(t.rec) == CellOwner(c)
    ensures forall z: map<Cell, real>, d: Cell ::
              Lookup(Groups.TickScores(reg, z, t.(part := Some(c))), d) == if d == c then None else Lookup(z, d)
  {
    hide OpsOf, Vacated;
  }

  // ---------------------------------------------------------------- one caller of the ingestor

  /** The steps of a caller that is not interrupted. */
  function Calls(c: nat, rec: Record, ending: seq<Dedup.Step>): seq<Dedup.Step> {
    [Dedup.Begin(c, rec), Dedup.Mark(c)] + ending
  }

  /** A new caller, from any state: a record for an unknown board is refused, one whose key is reserved is
      a duplicate, and any other is accepted and logged or, if the append fails, leaves no trace. */
  lemma LoneCaller(reg: Registry, st: Dedup.State, c: nat, rec: Record)
    requires c !in st.callers
    ensures (rec.app, rec.board) !in reg ==>
              Dedup.RunFrom(reg, st, [Dedup.Begin(c, rec)]) == Some(st.(callers := st.callers[c := Dedup.Failed(rec)]))
    ensures (rec.app, rec.board) in reg && rec.idem != "" && Dedup.KeyOf(rec) in st.marks ==>
              Dedup.RunFrom(reg, st, Calls(c, rec, [])) == Some(st.(callers := st.callers[c := Dedup.Duplicate(rec)]))
    ensures (rec.app, rec.board) in reg && (rec.idem == "" || Dedup.KeyOf(rec) !in st.marks) ==>
              var kept := if rec.idem == "" then st.marks else st.marks + {Dedup.KeyOf(rec)};
              && Dedup.RunFrom(reg, st, Calls(c, rec, [Dedup.Append(c)]))
                 == Some(Dedup.State(kept, st.log + [rec], st.lost, st.callers[c := Dedup.Accepted(rec, |st.log|)]))
              && Dedup.RunFrom(reg, st, Calls(c, rec, [Dedup.AppendFails(c)] + if rec.idem == "" then [] else [Dedup.Unmark(c)]))
                 == Some(st.(callers := st.callers[c := Dedup.Failed(rec)]))
  {
    hide Dedup.DedupKey, Calls;
    if (rec.app, rec.board) !in reg {
      assert [Dedup.Begin(c, rec)][1..] == [];
    } else if rec.idem != "" && Dedup.KeyOf(rec) in st.marks {
      Begins(reg, st, c, rec, []);
    } else {
      var kept := if rec.idem == "" then st.marks else st.marks + {Dedup.KeyOf(rec)};
      var s2 := Dedup.State(kept, st.log, st.lost, st.callers[c := Dedup.Reserved(rec)]);
      Begins(reg, st, c, rec, [Dedup.Append(c)]);
      assert s2.callers[c := Dedup.Accepted(rec, |st.log|)] == st.callers[c := Dedup.Accepted(rec, |st.log|)];
      One(reg, s2, Dedup.Append(c));
      Fails(reg, st, s2, c, rec);
    }
  }

  lemma One(reg: Registry, st: Dedup.State, step: Dedup.Step)
    requires Dedup.Enabled(st, step)
    ensures Dedup.RunFrom(reg, st, [step]) == Some(Dedup.Do(reg, st, step))
  {
    hide Dedup.Enabled, Dedup.Do;
    assert [step][1..] == [];
    assert Dedup.RunFrom(reg, Dedup.Do(reg, st, step), []) == Some(Dedup.Do(reg, st, step));
  }

  lemma Fails(reg: Registry, st: Dedup.State, s2: Dedup.State, c: nat, rec: Record)
    requires c !in st.callers && (rec.app, rec.board) in reg && (rec.idem == "" || Dedup.KeyOf(rec) !in st.marks)
    requires s2 == Dedup.State(if rec.idem == "" then st.marks else st.marks + {Dedup.KeyOf(rec)},
                               st.log, st.lost, st.callers[c := Dedup.Reserved(rec)])
    ensures Dedup.RunFrom(reg, st, Calls(c, rec, [Dedup.AppendFails(c)] + if rec.idem == "" then [] else [Dedup.Unmark(c)]))
            == Some(st.(callers := st.callers[c := Dedup.Failed(rec)]))
  {
    hide Dedup.DedupKey, Calls;
    if rec.idem == "" {
      Begins(reg, st, c, rec, [Dedup.AppendFails(c)]);
      assert [Dedup.AppendFails(c)] + [] == [Dedup.AppendFails(c)];
      One(reg, s2, Dedup.AppendFails(c));
      assert s2.callers[c := Dedup.Failed(rec)] == st.callers[c := Dedup.Failed(rec)];
    } else {
      var ending := [Dedup.AppendFails(c), Dedup.Unmark(c)];
      Begins(reg, st, c, rec, ending);
      assert [Dedup.AppendFails(c)] + [Dedup.Unmark(c)] == ending;
      var s3 := Dedup.Do(reg, s2, Dedup.AppendFails(c));
      assert ending[1..] == [Dedup.Unmark(c)];
      One(reg, s3, Dedup.Unmark(c));
      assert s3.marks - {Dedup.KeyOf(rec)} == st.marks;
      assert s3.callers[c := Dedup.Failed(rec)] == st.callers[c := Dedup.Failed(rec)];
    }
  }

  lemma Begins(reg: Registry, st: Dedup.State, c: nat, rec: Record, ending: seq<Dedup.Step>)
    requires c !in st.callers && (rec.app, rec.board) in reg
    ensures Dedup.RunFrom(reg, st, Calls(c, rec, ending))
            == if rec.idem != "" && Dedup.KeyOf(rec) in st.marks then
                 Dedup.RunFrom(reg, st.(callers := st.callers[c := Dedup.Duplicate(rec)]), ending)
               else
                 Dedup.RunFrom(reg, Dedup.State(if rec.idem == "" then st.marks else st.marks + {Dedup.KeyOf(rec)},
                                                st.log, st.lost, st.callers[c := Dedup.Reserved(rec)]), ending)
  {
    hide Dedup.DedupKey;
    var s1 := Dedup.Do(reg, st, Dedup.Begin(c, rec));
    assert s1.callers[c := Dedup.Duplicate(rec)] == st.callers[c := Dedup.Duplicate(rec)];
    assert s1.callers[c := Dedup.Reserved(rec)] == st.callers[c := Dedup.Reserved(rec)];
    var all := Calls(c, rec, ending);
    assert all[1..] == [Dedup.Mark(c)] + ending;
    assert all[1..][1..] == ending;
  }

  /** A caller can crash at any moment before its answer, leaving its key reserved exactly when it holds it;
      and an append can be stored and still look failed. */
  lemma CallerCrashes(reg: Registry, st: Dedup.State, c: nat)
    requires c in st.callers
    requires st.callers[c].Begun? || st.callers[c].Reserved? || st.callers[c].RollingBack?
    ensures Dedup.Enabled(st, Dedup.Crash(c))
    ensures var next := Dedup.Do(reg, st, Dedup.Crash(c));
            && next == st.(callers := next.callers)
            && (next.callers[c].Abandoned? <==> !st.callers[c].Begun? && st.callers[c].rec.idem != "")
    ensures st.callers[c].Reserved? ==>
              Dedup.Enabled(st, Dedup.AppendLost(c))
              && Dedup.Do(reg, st, Dedup.AppendLost(c)).log == st.log + [st.callers[c].rec]
              && Dedup.Do(reg, st, Dedup.AppendLost(c)).callers == Dedup.Do(reg, st, Dedup.AppendFails(c)).callers
  {
  }

  // ---------------------------------------------------------------- one writer of a board

  /** What is queued for a member whose value went from `pre` to `post`. */
  ghost predicate Queued(cfg: Config, pre: Option<real>, post: Option<real>, q: seq<HistogramRace.Incr>) {
    match (pre, post)
    case (None, None) => q == []
    case (None, Some(v)) => q == [HistogramRace.Incr(BucketOf(cfg, v), 1)]
    case (Some(u), None) => q == [HistogramRace.Incr(BucketOf(cfg, u), -1)]
    case (Some(u), Some(v)) =>
      q == if Decode(cfg, u) == Decode(cfg, v) then []
           else [HistogramRace.Incr(BucketOf(cfg, u), -1), HistogramRace.Incr(BucketOf(cfg, v), 1)]
  }

  /** Reading a member opens its group. */
  lemma Opens(cfg: Config, st: HistogramRace.State, m: string)
    requires st.open == []
    ensures HistogramRace.Enabled(st, HistogramRace.Begin(m))
    ensures HistogramRace.Do(cfg, st, HistogramRace.Begin(m)) == st.(open := [HistogramRace.Group(m, Lookup(st.z, m))])
  {
    hide Decode, BucketOf;
  }

  lemma StoresAndCloses(cfg: Config, st: HistogramRace.State, m: string, v: real)
    requires st.open == [] && st.queue == []
    ensures var g := HistogramRace.Group(m, Lookup(st.z, m));
            var s1, s2 := st.(open := [g]), st.(open := [g.(wrote := true)], z := st.z[m := v]);
            var done := HistogramRace.State(st.z[m := v], [], HistogramRace.Increments(cfg, g.pre, Some(v)), st.hist);
            && HistogramRace.Enabled(s1, HistogramRace.Write(0, v)) && HistogramRace.Do(cfg, s1, HistogramRace.Write(0, v)) == s2
            && HistogramRace.Enabled(s2, HistogramRace.End(0)) && HistogramRace.Do(cfg, s2, HistogramRace.End(0)) == done
            && HistogramRace.Enabled(s1, HistogramRace.Add(0, v)) && HistogramRace.Do(cfg, s1, HistogramRace.Add(0, v)) == done
  {
    hide HistogramRace.Increments;
    var g := HistogramRace.Group(m, Lookup(st.z, m));
    ClosesAlone(st, g, HistogramRace.Increments(cfg, g.pre, Some(v)));
    ClosesAlone(st, g.(wrote := true), HistogramRace.Increments(cfg, g.pre, Some(v)));
    assert [g][0 := g.(wrote := true)] == [g.(wrote := true)];
  }

  lemma RemovesAndCloses(cfg: Config, st: HistogramRace.State, m: string)
    requires st.open == [] && st.queue == []
    ensures var g := HistogramRace.Group(m, Lookup(st.z, m));
            var s1 := st.(open := [g]);
            && HistogramRace.Enabled(s1, HistogramRace.Remove(0))
            && HistogramRace.Do(cfg, s1, HistogramRace.Remove(0))
               == HistogramRace.State(st.z - {m}, [], if m in st.z then HistogramRace.Increments(cfg, g.pre, None) else [], st.hist)
  {
    hide HistogramRace.Increments;
    var g := HistogramRace.Group(m, Lookup(st.z, m));
    ClosesAlone(st, g, HistogramRace.Increments(cfg, g.pre, None));
    assert m !in st.z ==> st.z - {m} == st.z;
  }

  /** A writer that is not interrupted: a submit, read again after the write, stores the value and queues the
      member's move. */
  lemma LoneSubmit(cfg: Config, st: HistogramRace.State, m: string, v: real)
    requires st.open == [] && st.queue == []
    ensures var run := HistogramRace.RunFrom(cfg, st, [HistogramRace.Begin(m), HistogramRace.Write(0, v), HistogramRace.End(0)]);
            && run.Some? && run.value == HistogramRace.State(st.z[m := v], [], run.value.queue, st.hist)
            && Queued(cfg, Lookup(st.z, m), Some(v), run.value.queue)
  {
    hide HistogramRace.Increments, Queued, HistogramRace.RunFrom, HistogramRace.Do, HistogramRace.Enabled;
    var g := HistogramRace.Group(m, Lookup(st.z, m));
    Opens(cfg, st, m);
    StoresAndCloses(cfg, st, m, v);
    IncrementsQueue(cfg, Lookup(st.z, m), Some(v));
    ThreeSteps(cfg, st, st.(open := [g]), st.(open := [g.(wrote := true)], z := st.z[m := v]),
               HistogramRace.Begin(m), HistogramRace.Write(0, v), HistogramRace.End(0));
  }

  lemma ThreeSteps(cfg: Config, st: HistogramRace.State, s1: HistogramRace.State, s2: HistogramRace.State,
                   a: HistogramRace.Step, b: HistogramRace.Step, c: HistogramRace.Step)
    requires HistogramRace.Enabled(st, a) && s1 == HistogramRace.Do(cfg, st, a)
    requires HistogramRace.Enabled(s1, b) && s2 == HistogramRace.Do(cfg, s1, b) && HistogramRace.Enabled(s2, c)
    ensures HistogramRace.RunFrom(cfg, st, [a, b, c]) == Some(HistogramRace.Do(cfg, s2, c))
  {
    hide HistogramRace.Enabled, HistogramRace.Do;
    assert [a, b, c][1..] == [b, c];
    TwoSteps(cfg, s1, s2, b, c);
  }

  /** So does one on an increment board, whose write answers the new value. */
  lemma LoneIncrement(cfg: Config, st: HistogramRace.State, m: string, v: real)
    requires st.open == [] && st.queue == []
    ensures var run := HistogramRace.RunFrom(cfg, st, [HistogramRace.Begin(m), HistogramRace.Add(0, v)]);
            && run.Some? && run.value == HistogramRace.State(st.z[m := v], [], run.value.queue, st.hist)
            && Queued(cfg, Lookup(st.z, m), Some(v), run.value.queue)
  {
    hide HistogramRace.Increments, Queued, HistogramRace.RunFrom, HistogramRace.Do, HistogramRace.Enabled;
    Opens(cfg, st, m);
    StoresAndCloses(cfg, st, m, v);
    IncrementsQueue(cfg, Lookup(st.z, m), Some(v));
    TwoSteps(cfg, st, st.(open := [HistogramRace.Group(m, Lookup(st.z, m))]), HistogramRace.Begin(m), HistogramRace.Add(0, v));
  }

  /** A removal takes the member off and queues its leaving, or does nothing. */
  lemma LoneRemoval(cfg: Config, st: HistogramRace.State, m: string)
    requires st.open == [] && st.queue == []
    ensures var run := HistogramRace.RunFrom(cfg, st, [HistogramRace.Begin(m), HistogramRace.Remove(0)]);
            && run.Some? && run.value == HistogramRace.State(st.z - {m}, [], run.value.queue, st.hist)
            && Queued(cfg, Lookup(st.z, m), None, run.value.queue)
  {
    hide HistogramRace.Increments, Queued, HistogramRace.RunFrom, HistogramRace.Do, HistogramRace.Enabled;
    Opens(cfg, st, m);
    RemovesAndCloses(cfg, st, m);
    IncrementsQueue(cfg, Lookup(st.z, m), None);
    TwoSteps(cfg, st, st.(open := [HistogramRace.Group(m, Lookup(st.z, m))]), HistogramRace.Begin(m), HistogramRace.Remove(0));
  }

  lemma ClosesAlone(st: HistogramRace.State, g: HistogramRace.Group, q: seq<HistogramRace.Incr>)
    requires st.open == [] && st.queue == []
    ensures HistogramRace.Without([g], 0) == [] && st.queue + q == q && st.open + [g] == [g]
  {
  }

  lemma TwoSteps(cfg: Config, st: HistogramRace.State, mid: HistogramRace.State, a: HistogramRace.Step, b: HistogramRace.Step)
    requires HistogramRace.Enabled(st, a) && mid == HistogramRace.Do(cfg, st, a) && HistogramRace.Enabled(mid, b)
    ensures HistogramRace.RunFrom(cfg, st, [a, b]) == Some(HistogramRace.Do(cfg, mid, b))
  {
    hide HistogramRace.Enabled, HistogramRace.Do;
    assert [a, b][1..] == [b] && [b][1..] == [];
    assert HistogramRace.RunFrom(cfg, HistogramRace.Do(cfg, mid, b), []) == Some(HistogramRace.Do(cfg, mid, b));
  }

  lemma IncrementsQueue(cfg: Config, pre: Option<real>, post: Option<real>)
    ensures post.Some? || pre.Some? ==> Queued(cfg, pre, post, HistogramRace.Increments(cfg, pre, post))
    ensures Queued(cfg, None, None, [])
  {
    hide Decode, BucketOf;
  }

  /** A queued increment can be sent or lost, in any order. */
  lemma AnyIncrement(cfg: Config, st: HistogramRace.State, i: nat)
    requires i < |st.queue|
    ensures HistogramRace.Enabled(st, HistogramRace.Flush(i)) && HistogramRace.Enabled(st, HistogramRace.Drop(i))
    ensures var rest := st.queue[..i] + st.queue[i + 1..];
            var d := st.queue[i];
            && HistogramRace.Do(cfg, st, HistogramRace.Drop(i)) == st.(queue := rest)
            && var next := HistogramRace.Do(cfg, st, HistogramRace.Flush(i));
               && next == st.(queue := rest, hist := next.hist)
               && forall b :: HistogramRace.HistAt(next.hist, b) == HistogramRace.HistAt(st.hist, b) + if b == d.bucket then d.amount else 0
  {
  }
}
