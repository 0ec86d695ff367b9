/** Schedules under which consumer groups end as the log says (pkg/ingest/group.go:175-298): one careful
    reader per partition, with crashes anywhere on best and last boards. */
module Schedules {
  import opened Absorption
  import opened Basics
  import opened Delivery
  import opened Groups
  import opened Ingest
  import opened Keys
  import opened Placement
  import opened Reordering
  import opened Store

  // ---------------------------------------------------------------- steps: what the cell is waiting for

  ghost predicate Busy(sys: Sys, st: State, w: nat, p: nat) { On(sys, st, w, p) && PhaseOf(st, w).Working? }

  lemma TickFold(reg: Registry, z: map<Cell, real>, t: Tick, c: Cell)
    requires ValidRegistry(reg) && ValidKey(c.key)
    ensures Lookup(TickScores(reg, z, t), c) == FoldTick(reg, t, c, Lookup(z, c))
  {
    hide RunTick, OpOf, CellOp, ValidRegistry, ValidKey;
    TickCell(reg, Db(z, map[]), t, c);
  }

  /** The head of a worker's list is an unmarked action of the partition the worker is on. */
  lemma HeadPlace(sys: Sys, owner: nat -> nat, st: State, w: nat)
    requires Placed(sys, owner, st, w) && PhaseOf(st, w).Working? && PhaseOf(st, w).todo != []
    ensures var h := PhaseOf(st, w).todo[0];
            && On(sys, st, w, sys.part(OwnerOf(h.rec))) && owner(sys.part(OwnerOf(h.rec))) == w
            && h in Remaining(sys, st, sys.part(OwnerOf(h.rec))) && ValidTick(sys.reg, h) && h.part.None?
  {
    hide TicksFor, Fresh, Pick, ActionCount;
    var ph := PhaseOf(st, w);
    var h := ph.todo[0];
    assert h in ph.todo;
    TicksForMember(sys, st.entries, ph.unmarked);
    TickIds(sys.reg, h.id, st.entries[h.id]);
    FreshIds(sys, st, Msgs(st, w));
    MsgsOwn(sys, owner, st, w, h.id);
  }

  lemma SameTarget(sys: Sys, st: State, next: State, c: Cell)
    requires next.entries == st.entries
    requires Delivered(sys, next, sys.part(CellOwner(c))) == Delivered(sys, st, sys.part(CellOwner(c)))
    ensures Target(sys, next, c) == Target(sys, st, c)
  {
    hide TicksFor, FoldTicks, Delivered;
  }

  /** Steps that leave the cell, its partition and the work on it alone. */
  lemma Unconcerned(sys: Sys, owner: nat -> nat, st: State, next: State, c: Cell)
    requires OnTarget(sys, owner, st, c) && next.entries == st.entries && Lookup(next.z, c) == Lookup(st.z, c)
    requires var p := sys.part(CellOwner(c));
             && Delivered(sys, next, p) == Delivered(sys, st, p) && Remaining(sys, next, p) == Remaining(sys, st, p)
             && (Busy(sys, next, owner(p), p) <==> Busy(sys, st, owner(p), p))
             && (Busy(sys, st, owner(p), p) ==> PhaseOf(next, owner(p)).todo == PhaseOf(st, owner(p)).todo)
    ensures OnTarget(sys, owner, next, c)
  {
    hide FoldTicks, Target, Delivered, Remaining, Absorbing, On;
    SameTarget(sys, st, next, c);
  }

  lemma AppendTarget(sys: Sys, owner: nat -> nat, st: State, rec: Record, c: Cell)
    requires Places(sys, owner, st) && OnTarget(sys, owner, st, c)
    ensures OnTarget(sys, owner, Do(sys, st, Append(rec)), c)
  {
    hide FoldTicks, TicksFor, Delivered, Remaining, Absorbing, Pending, Fresh;
    var next, p := Do(sys, st, Append(rec)), sys.part(CellOwner(c));
    var w := owner(p);
    AppendPartition(sys, st, rec, p);
    assert Placed(sys, owner, st, w);
    assert Msgs(next, w) == Msgs(st, w);
    assert Msgs(st, w) != [] ==> Msgs(st, w)[0] in Msgs(st, w);
    assert On(sys, next, w, p) <==> On(sys, st, w, p);
  }

  lemma ReadTarget(sys: Sys, owner: nat -> nat, st: State, p: nat, ids: seq<nat>, c: Cell)
    requires Places(sys, owner, st) && OnTarget(sys, owner, st, c)
    requires Enabled(sys, st, ReadNew(owner(p), p, ids)) && Pending(sys, st, p) == []
    ensures OnTarget(sys, owner, Do(sys, st, ReadNew(owner(p), p, ids)), c)
  {
    hide FoldTicks, TicksFor, Delivered, Absorbing, Pending, Fresh;
    var w, q := owner(p), sys.part(CellOwner(c));
    var next := Do(sys, st, ReadNew(w, p, ids));
    assert PhaseOf(next, w) == Holding(ids) && PhaseOf(st, w) == Idle;
    if q == p {
      ReadPartition(sys, st, w, p, ids);
      assert forall id :: id in ids ==> InPartition(sys, st, p, id) && id !in st.marked;
      FreshTicks(sys, next, ids);
      TicksForConcat(sys, st.entries, Delivered(sys, st, p), ids);
      FoldConcat(sys.reg, TicksFor(sys, st.entries, Delivered(sys, st, p)), TicksFor(sys, st.entries, ids), c, None);
      NothingRemains(sys, st, p, c, Lookup(st.z, c));
    } else {
      ReadOther(sys, st, w, p, ids, q);
      if owner(q) != w {
        assert PhaseOf(next, owner(q)) == PhaseOf(st, owner(q));
      }
      Unconcerned(sys, owner, st, next, c);
    }
  }

  lemma NothingRemains(sys: Sys, st: State, p: nat, c: Cell, v: Option<real>)
    requires Pending(sys, st, p) == []
    ensures FoldTicks(sys.reg, Remaining(sys, st, p), c, v) == v
  {
    hide Pending;
  }

  lemma ClaimTarget(sys: Sys, owner: nat -> nat, st: State, p: nat, c: Cell)
    requires OnTarget(sys, owner, st, c) && Enabled(sys, st, Claim(owner(p), p, Pending(sys, st, p)))
    ensures OnTarget(sys, owner, Do(sys, st, Claim(owner(p), p, Pending(sys, st, p))), c)
  {
    hide FoldTicks, TicksFor, Absorbing, Fresh, Pick;
    var w, q := owner(p), sys.part(CellOwner(c));
    var next := Do(sys, st, Claim(w, p, Pending(sys, st, p)));
    SamePartition(sys, st, next, q);
    assert PhaseOf(next, w).Holding? && PhaseOf(st, w) == Idle;
    if owner(q) != w {
      assert PhaseOf(next, owner(q)) == PhaseOf(st, owner(q));
    }
    Unconcerned(sys, owner, st, next, c);
  }

  lemma CheckTarget(sys: Sys, owner: nat -> nat, st: State, w: nat, c: Cell)
    requires Places(sys, owner, st) && OnTarget(sys, owner, st, c) && Enabled(sys, st, Check(w))
    ensures OnTarget(sys, owner, Do(sys, st, Check(w)), c)
  {
    hide FoldTicks, TicksFor, Absorbing, Fresh, Pick, Target;
    var next, p := Do(sys, st, Check(w)), sys.part(CellOwner(c));
    assert Placed(sys, owner, st, w);
    SamePartition(sys, st, next, p);
    SameTarget(sys, st, next, c);
    assert Msgs(next, w) == Msgs(st, w);
    if On(sys, st, w, p) {
      assert PhaseOf(next, w).todo == Remaining(sys, st, p);
    } else {
      if owner(p) != w {
        assert PhaseOf(next, owner(p)) == PhaseOf(st, owner(p));
      }
      Unconcerned(sys, owner, st, next, c);
    }
  }

  lemma ApplyTarget(sys: Sys, owner: nat -> nat, st: State, w: nat, c: Cell)
    requires ValidRegistry(sys.reg) && ValidKey(c.key)
    requires Places(sys, owner, st) && OnTarget(sys, owner, st, c) && Enabled(sys, st, ApplyHead(w))
    ensures OnTarget(sys, owner, Do(sys, st, ApplyHead(w)), c)
  {
    hide FoldTicks, FoldTick, TicksFor, Fresh, Pick, Target, TickScores, ValidRegistry, ValidKey, Absorbing;
    var next, p := Do(sys, st, ApplyHead(w)), sys.part(CellOwner(c));
    var todo, v := PhaseOf(st, w).todo, Lookup(st.z, c);
    var h := todo[0];
    assert Placed(sys, owner, st, w);
    HeadPlace(sys, owner, st, w);
    SamePartition(sys, st, next, p);
    SameTarget(sys, st, next, c);
    TickFold(sys.reg, st.z, h, c);
    FoldHead(sys.reg, todo, c, v);
    assert Msgs(next, w) == Msgs(st, w);
    if OwnerOf(h.rec) == CellOwner(c) {
      if Absorbing(sys.reg, c) {
        AbsorbOne(sys.reg, Remaining(sys, st, p), h, c, v);
      }
    } else {
      ForeignTick(sys.reg, h, c, v);
      if !On(sys, st, w, p) {
        if owner(p) != w {
          assert PhaseOf(next, owner(p)) == PhaseOf(st, owner(p));
        }
        Unconcerned(sys, owner, st, next, c);
      }
    }
  }

  lemma PartTarget(sys: Sys, owner: nat -> nat, st: State, w: nat, d: Cell, c: Cell)
    requires ValidRegistry(sys.reg) && ValidKey(c.key)
    requires Places(sys, owner, st) && OnTarget(sys, owner, st, c) && Enabled(sys, st, RemovePart(w, d))
    ensures OnTarget(sys, owner, Do(sys, st, RemovePart(w, d)), c)
  {
    hide FoldTicks, TicksFor, Fresh, Pick, Target, TickScores, ValidRegistry, ValidKey, Absorbing, ActionCount;
    var next, p := Do(sys, st, RemovePart(w, d)), sys.part(CellOwner(c));
    var todo, v := PhaseOf(st, w).todo, Lookup(st.z, c);
    var h := todo[0];
    assert Placed(sys, owner, st, w);
    HeadPlace(sys, owner, st, w);
    SamePartition(sys, st, next, p);
    SameTarget(sys, st, next, c);
    TickFold(sys.reg, st.z, h.(part := Some(d)), c);
    if d == c {
      assert FoldTick(sys.reg, h, c, v) == FoldTick(sys.reg, h, c, None) == Lookup(next.z, c) == None;
      FoldHead(sys.reg, todo, c, v);
      FoldHead(sys.reg, todo, c, None);
      if Absorbing(sys.reg, c) {
        AbsorbOne(sys.reg, Remaining(sys, st, p), h, c, v);
      }
    } else {
      Unconcerned(sys, owner, st, next, c);
    }
  }

  lemma MarkTarget(sys: Sys, owner: nat -> nat, st: State, w: nat, c: Cell)
    requires ValidRegistry(sys.reg)
    requires Places(sys, owner, st) && OnTarget(sys, owner, st, c) && Enabled(sys, st, MarkHead(w))
    ensures OnTarget(sys, owner, Do(sys, st, MarkHead(w)), c)
  {
    hide TicksFor, Fresh, Pick, Target, ValidRegistry, Absorbing;
    var next, p := Do(sys, st, MarkHead(w)), sys.part(CellOwner(c));
    var ph, v := PhaseOf(st, w), Lookup(st.z, c);
    assert Placed(sys, owner, st, w);
    MsgsIncrease(sys, owner, st, w);
    FreshIds(sys, st, Msgs(st, w));
    assert ph.unmarked[0] in ph.unmarked;
    MsgsOwn(sys, owner, st, w, ph.unmarked[0]);
    assert Msgs(next, w) == Msgs(st, w);
    if On(sys, st, w, p) {
      SamePick(sys, st.entries, p, next.delivered, st.delivered, |st.entries|);
      SameTarget(sys, st, next, c);
      MarkFresh(sys, st, next, Msgs(st, w));
      assert PhaseOf(next, w).todo == [] == ph.todo;
      assert v == Target(sys, st, c);
      if Absorbing(sys.reg, c) {
        assert ph.unmarked == [ph.unmarked[0]] + ph.unmarked[1..];
        TicksForConcat(sys, st.entries, [ph.unmarked[0]], ph.unmarked[1..]);
        AbsorbEnd(sys.reg, TicksFor(sys, st.entries, [ph.unmarked[0]]), TicksFor(sys, st.entries, ph.unmarked[1..]), c, v);
      }
    } else {
      SamePartition(sys, st, next, p);
      if owner(p) != w {
        assert PhaseOf(next, owner(p)) == PhaseOf(st, owner(p));
      }
      Unconcerned(sys, owner, st, next, c);
    }
  }

  lemma AckTarget(sys: Sys, owner: nat -> nat, st: State, w: nat, c: Cell)
    requires Places(sys, owner, st) && OnTarget(sys, owner, st, c) && Enabled(sys, st, Ack(w))
    ensures OnTarget(sys, owner, Do(sys, st, Ack(w)), c)
  {
    hide TicksFor, Fresh, Pick, Target, Absorbing;
    var next, p := Do(sys, st, Ack(w)), sys.part(CellOwner(c));
    assert Placed(sys, owner, st, w);
    assert PhaseOf(next, w) == Idle;
    if On(sys, st, w, p) {
      assert Lookup(st.z, c) == Target(sys, st, c);
      SameTarget(sys, st, next, c);
      AckedAll(sys, owner, st, w, p);
      NothingRemains(sys, next, p, c, Lookup(st.z, c));
    } else {
      AckOther(sys, owner, st, w, p);
      if owner(p) != w {
        assert PhaseOf(next, owner(p)) == PhaseOf(st, owner(p));
      }
      Unconcerned(sys, owner, st, next, c);
    }
  }

  lemma AckedAll(sys: Sys, owner: nat -> nat, st: State, w: nat, p: nat)
    requires Placed(sys, owner, st, w) && Enabled(sys, st, Ack(w)) && On(sys, st, w, p)
    ensures Pending(sys, Do(sys, st, Ack(w)), p) == []
  {
    hide TicksFor, Fresh, Pick;
    var next := Do(sys, st, Ack(w));
    PickMember(sys, st.entries, p, st.delivered - st.acked, |st.entries|);
    PickMember(sys, st.entries, p, next.delivered - next.acked, |st.entries|);
    var rest := Pending(sys, next, p);
    forall id
      ensures id !in rest
    {
      assert id in Msgs(st, w) <==> id in Pending(sys, st, p);
    }
    NoMembers(rest);
  }

  lemma CrashTarget(sys: Sys, owner: nat -> nat, st: State, w: nat, c: Cell)
    requires Places(sys, owner, st) && OnTarget(sys, owner, st, c)
    requires Absorbing(sys.reg, c) || Calm(st, Crash(w))
    ensures OnTarget(sys, owner, Do(sys, st, Crash(w)), c)
  {
    hide TicksFor, Fresh, Pick, Target, Absorbing;
    var next, p := Do(sys, st, Crash(w)), sys.part(CellOwner(c));
    assert Placed(sys, owner, st, w);
    SamePartition(sys, st, next, p);
    SameTarget(sys, st, next, c);
    assert PhaseOf(next, w) == Idle;
    if Busy(sys, st, w, p) {
      if !Absorbing(sys.reg, c) {
        assert Fresh(sys, st, Pending(sys, st, p)) == [];
        NoTicks(sys, st.entries);
      }
    } else {
      if owner(p) != w {
        assert PhaseOf(next, owner(p)) == PhaseOf(st, owner(p));
      }
      Unconcerned(sys, owner, st, next, c);
    }
  }

  lemma NoTicks(sys: Sys, entries: seq<Record>)
    ensures TicksFor(sys, entries, []) == []
  {
  }

  lemma TargetStep(sys: Sys, owner: nat -> nat, st: State, step: Groups.Step, c: Cell)
    requires ValidRegistry(sys.reg) && ValidKey(c.key)
    requires Places(sys, owner, st) && OnTarget(sys, owner, st, c)
    requires Enabled(sys, st, step) && Careful(sys, owner, st, step) && (Absorbing(sys.reg, c) || Calm(st, step))
    ensures OnTarget(sys, owner, Do(sys, st, step), c)
  {
    hide Places, Enabled, Do, Pending, OnTarget, ValidRegistry, ValidKey, Absorbing;
    match step
    case Append(rec) => AppendTarget(sys, owner, st, rec, c);
    case ReadNew(w, p, ids) => ReadTarget(sys, owner, st, p, ids, c);
    case Claim(w, p, ids) => ClaimTarget(sys, owner, st, p, c);
    case Check(w) => CheckTarget(sys, owner, st, w, c);
    case RemovePart(w, d) => PartTarget(sys, owner, st, w, d, c);
    case ApplyHead(w) => ApplyTarget(sys, owner, st, w, c);
    case MarkHead(w) => MarkTarget(sys, owner, st, w, c);
    case Ack(w) => AckTarget(sys, owner, st, w, c);
    case Crash(w) => CrashTarget(sys, owner, st, w, c);
  }

  lemma {:induction false} CarefulInv(sys: Sys, owner: nat -> nat, steps: seq<Groups.Step>, calm: bool, c: Cell)
    requires ValidRegistry(sys.reg) && ValidKey(c.key) && (Absorbing(sys.reg, c) || calm)
    requires Run(sys, steps).Some? && CarefulRun(sys, owner, steps, calm)
    ensures Places(sys, owner, Run(sys, steps).value) && OnTarget(sys, owner, Run(sys, steps).value, c)
  {
    hide Places, OnTarget, Enabled, Do, Careful, Calm, ValidRegistry, ValidKey, Absorbing;
    if steps == [] {
      CarefulInit(sys, owner, c);
    } else {
      CarefulInv(sys, owner, steps[..|steps| - 1], calm, c);
      var st := Run(sys, steps[..|steps| - 1]).value;
      PlacesStep(sys, owner, st, Last(steps));
      TargetStep(sys, owner, st, Last(steps), c);
    }
  }

  lemma CarefulInit(sys: Sys, owner: nat -> nat, c: Cell)
    ensures Places(sys, owner, INIT) && OnTarget(sys, owner, INIT, c)
  {
    assert TicksFor(sys, INIT.entries, []) == [];
  }

  // ---------------------------------------------------------------- the results

  lemma {:induction false} PickTicks(sys: Sys, entries: seq<Record>, s: set<nat>, o: Owner, n: nat)
    requires n <= |entries| && forall id: nat :: id < |entries| ==> id in s
    ensures Own(TicksFor(sys, entries, Pick(sys, entries, sys.part(o), s, n)), o) == Own(AllTicks(sys.reg, entries[..n]), o)
  {
    hide TicksOf, Own, TicksFor;
    if n == 0 {
      NoTicks(sys, entries);
    } else {
      PickTicks(sys, entries, s, o, n - 1);
      var p := sys.part(o);
      var front := Pick(sys, entries, p, s, n - 1);
      var ts := TicksOf(sys.reg, n - 1, entries[n - 1]);
      assert entries[..n][..n - 1] == entries[..n - 1] && Last(entries[..n]) == entries[n - 1];
      OwnConcat(AllTicks(sys.reg, entries[..n - 1]), ts, o);
      if sys.part(OwnerOf(entries[n - 1])) == p {
        TicksForOne(sys, entries, front, n - 1);
        OwnConcat(TicksFor(sys, entries, front), ts, o);
      } else {
        TickIds(sys.reg, n - 1, entries[n - 1]);
        OwnNone(ts, o);
        assert front + [] == front;
        assert Own(AllTicks(sys.reg, entries[..n - 1]), o) + [] == Own(AllTicks(sys.reg, entries[..n - 1]), o);
      }
    }
  }

  /** With everything delivered the target is what the log gives. */
  lemma TargetIsReplay(sys: Sys, st: State, c: Cell)
    requires ValidRegistry(sys.reg) && ValidKey(c.key) && forall id: nat :: id < |st.entries| ==> id in st.delivered
    ensures Target(sys, st, c) == Lookup(Replay(sys.reg, EMPTY, st.entries).z, c)
  {
    hide FoldTicks, TicksFor, Pick, AllTicks, Own, Replay, RunTicks, ValidRegistry, ValidKey, EMPTY;
    var o := CellOwner(c);
    PickTicks(sys, st.entries, st.delivered, o, |st.entries|);
    assert st.entries[..|st.entries|] == st.entries;
    FoldOwn(sys.reg, TicksFor(sys, st.entries, Delivered(sys, st, sys.part(o))), c, None);
    FoldOwn(sys.reg, AllTicks(sys.reg, st.entries), c, None);
    EmptyLookup(c);
    RunTicksFold(sys.reg, EMPTY, AllTicks(sys.reg, st.entries), c);
    ReplayIsTicks(sys.reg, EMPTY, st.entries);
  }

  /** One reader per partition that claims all pending entries before it reads new ones: whatever crashes
      and however often entries are redelivered, once all is acknowledged every cell of a best or last
      board is what the log gives, tombstones included; on increment boards too if no crash cuts a
      check-apply-mark section short. */
  lemma CarefulExact(sys: Sys, owner: nat -> nat, steps: seq<Groups.Step>, calm: bool, c: Cell)
    requires ValidRegistry(sys.reg) && ValidKey(c.key) && (Absorbing(sys.reg, c) || calm)
    requires Run(sys, steps).Some? && CarefulRun(sys, owner, steps, calm) && AllAcked(Run(sys, steps).value)
    ensures var st := Run(sys, steps).value;
            Lookup(st.z, c) == Lookup(Replay(sys.reg, EMPTY, st.entries).z, c)
  {
    hide Run, CarefulRun, ValidRegistry, ValidKey, Absorbing, Replay, Target, Fresh, TicksFor, Pick, EMPTY;
    var st, p := Run(sys, steps).value, sys.part(CellOwner(c));
    CarefulInv(sys, owner, steps, calm, c);
    TargetIsReplay(sys, st, c);
    NothingPending(sys, owner, st, p);
    NothingRemains(sys, st, p, c, Lookup(st.z, c));
  }

  lemma NothingPending(sys: Sys, owner: nat -> nat, st: State, p: nat)
    requires Places(sys, owner, st) && AllAcked(st)
    ensures Pending(sys, st, p) == [] && !On(sys, st, owner(p), p)
  {
    hide Fresh, TicksFor, Pick;
    PickMember(sys, st.entries, p, st.delivered - st.acked, |st.entries|);
    NoMembers(Pending(sys, st, p));
    assert Placed(sys, owner, st, owner(p));
  }

  // ---------------------------------------------------------------- without crashes

  /** One reader per partition, no crashes and no reclaims. */
  predicate Orderly(owner: nat -> nat, step: Groups.Step) {
    match step
    case ReadNew(w, p, ids) => w == owner(p)
    case Claim(w, p, ids) => false
    case Crash(w) => false
    case _ => true
  }

  /** Everything pending is held by the owner of its partition. */
  ghost predicate Kept(sys: Sys, owner: nat -> nat, st: State) {
    forall id: nat | id < |st.entries| && id in st.delivered && id !in st.acked ::
      id in Msgs(st, owner(sys.part(OwnerOf(st.entries[id]))))
  }

  lemma KeptStep(sys: Sys, owner: nat -> nat, st: State, step: Groups.Step)
    requires Kept(sys, owner, st) && Enabled(sys, st, step) && Orderly(owner, step)
    requires forall id :: id in st.delivered ==> id < |st.entries|
    ensures Kept(sys, owner, Do(sys, st, step))
  {
    hide Fresh, TicksFor, TickScores;
    var next := Do(sys, st, step);
    forall id: nat | id < |next.entries| && id in next.delivered && id !in next.acked
      ensures id in Msgs(next, owner(sys.part(OwnerOf(next.entries[id]))))
    {
      if id in st.delivered {
        assert id in Msgs(st, owner(sys.part(OwnerOf(st.entries[id]))));
      } else {
        assert id in step.ids;
      }
    }
  }

  lemma KeptIsCareful(sys: Sys, owner: nat -> nat, st: State, step: Groups.Step)
    requires Kept(sys, owner, st) && Enabled(sys, st, step) && Orderly(owner, step)
    ensures Careful(sys, owner, st, step) && Calm(st, step)
  {
    hide Pick;
    if step.ReadNew? {
      PickMember(sys, st.entries, step.p, st.delivered - st.acked, |st.entries|);
      NoMembers(Pending(sys, st, step.p));
    }
  }

  lemma {:induction false} OrderlyIsCareful(sys: Sys, owner: nat -> nat, steps: seq<Groups.Step>)
    requires Run(sys, steps).Some? && forall i :: 0 <= i < |steps| ==> Orderly(owner, steps[i])
    ensures CarefulRun(sys, owner, steps, true) && Kept(sys, owner, Run(sys, steps).value)
  {
    hide Enabled, Do, Orderly, Careful, Calm, Kept;
    if steps == [] {
      NoneKept(sys, owner);
    } else {
      var front := steps[..|steps| - 1];
      OrderlyIsCareful(sys, owner, front);
      var st := Run(sys, front).value;
      RunInv(sys, front);
      KeptIsCareful(sys, owner, st, Last(steps));
      KeptStep(sys, owner, st, Last(steps));
    }
  }

  lemma NoneKept(sys: Sys, owner: nat -> nat)
    ensures Kept(sys, owner, INIT)
  {
  }

  /** So in-order consumption ends as the log says on every board: best, last and increment, with
      tombstones. */
  lemma InOrderExact(sys: Sys, owner: nat -> nat, steps: seq<Groups.Step>, c: Cell)
    requires ValidRegistry(sys.reg) && ValidKey(c.key)
    requires Run(sys, steps).Some? && forall i :: 0 <= i < |steps| ==> Orderly(owner, steps[i])
    requires AllAcked(Run(sys, steps).value)
    ensures var st := Run(sys, steps).value;
            Lookup(st.z, c) == Lookup(Replay(sys.reg, EMPTY, st.entries).z, c)
  {
    hide Run, CarefulRun, Orderly, Kept, ValidRegistry, ValidKey, Absorbing, Replay, AllAcked, EMPTY;
    OrderlyIsCareful(sys, owner, steps);
    CarefulExact(sys, owner, steps, true, c);
  }
}
