/** Where the workers of a consumer group stand (pkg/ingest/group.go:175-298) when each partition has one
    reader (static ownership), which claims all the pending entries of a partition before it reads new
    ones. */
module Placement {
  import opened Absorption
  import opened Basics
  import opened Groups
  import opened Ingest
  import opened Ordering
  import opened Reordering
  import opened Store

  // ---------------------------------------------------------------- the entries of a partition

  /** The ids of s below n that are in partition p, in order. */
  ghost function Pick(sys: Sys, entries: seq<Record>, p: nat, s: set<nat>, n: nat): seq<nat>
    requires n <= |entries|
  {
    if n == 0 then []
    else
      Pick(sys, entries, p, s, n - 1)
      + (if n - 1 in s && sys.part(OwnerOf(entries[n - 1])) == p then [n - 1] else [])
  }

  ghost function Delivered(sys: Sys, st: State, p: nat): seq<nat> {
    Pick(sys, st.entries, p, st.delivered, |st.entries|)
  }

  /** Delivered and not acknowledged. */
  ghost function Pending(sys: Sys, st: State, p: nat): seq<nat> {
    Pick(sys, st.entries, p, st.delivered - st.acked, |st.entries|)
  }

  lemma {:induction false} PickMember(sys: Sys, entries: seq<Record>, p: nat, s: set<nat>, n: nat)
    requires n <= |entries|
    ensures forall id :: id in Pick(sys, entries, p, s, n) <==> id < n && id in s && sys.part(OwnerOf(entries[id])) == p
    ensures Increasing(Pick(sys, entries, p, s, n))
  {
    if n > 0 {
      PickMember(sys, entries, p, s, n - 1);
      var front := Pick(sys, entries, p, s, n - 1);
      forall i | 0 <= i < |front|
        ensures front[i] < n - 1
      {
        assert front[i] in front;
      }
    }
  }

  lemma IncreasingUnique(a: seq<nat>, b: seq<nat>)
    requires Increasing(a) && Increasing(b) && forall id :: id in a <==> id in b
    ensures a == b
  {
    var less := (x: nat, y: nat) => x < y;
    assert Elements(a) == Elements(b);
    SortedUnique(less, a, b);
  }

  lemma HeadIn(ids: seq<nat>)
    requires ids != []
    ensures exists id :: id in ids
  {
    assert ids[0] in ids;
  }

  lemma NoMembers(ids: seq<nat>)
    requires forall id :: id !in ids
    ensures ids == []
  {
    if ids != [] {
      HeadIn(ids);
      assert false;
    }
  }

  lemma {:induction false} SamePick(sys: Sys, entries: seq<Record>, p: nat, s: set<nat>, u: set<nat>, n: nat)
    requires n <= |entries|
    requires forall id: nat | id < n && sys.part(OwnerOf(entries[id])) == p :: id in s <==> id in u
    ensures Pick(sys, entries, p, s, n) == Pick(sys, entries, p, u, n)
  {
    if n > 0 {
      SamePick(sys, entries, p, s, u, n - 1);
    }
  }

  lemma {:induction false} PickExtend(sys: Sys, entries: seq<Record>, rec: Record, p: nat, s: set<nat>, n: nat)
    requires n <= |entries|
    ensures Pick(sys, entries + [rec], p, s, n) == Pick(sys, entries, p, s, n)
  {
    if n > 0 {
      PickExtend(sys, entries, rec, p, s, n - 1);
    }
  }

  // ---------------------------------------------------------------- lists of ticks

  function EntryTicks(sys: Sys, entries: seq<Record>, id: nat): seq<Tick> {
    if id < |entries| then TicksOf(sys.reg, id, entries[id]) else []
  }

  lemma TicksForOne(sys: Sys, entries: seq<Record>, ids: seq<nat>, id: nat)
    ensures TicksFor(sys, entries, ids + [id]) == TicksFor(sys, entries, ids) + EntryTicks(sys, entries, id)
  {
    hide TicksOf;
    assert (ids + [id])[..|ids|] == ids;
  }

  lemma {:induction false} TicksForConcat(sys: Sys, entries: seq<Record>, a: seq<nat>, b: seq<nat>)
    ensures TicksFor(sys, entries, a + b) == TicksFor(sys, entries, a) + TicksFor(sys, entries, b)
  {
    if b == [] {
      assert a + b == a;
    } else {
      hide TicksFor, EntryTicks;
      var front, last := b[..|b| - 1], Last(b);
      assert b == front + [last];
      Associates(a, front, [last]);
      TicksForConcat(sys, entries, a, front);
      TicksForOne(sys, entries, a + front, last);
      TicksForOne(sys, entries, front, last);
      Associates(TicksFor(sys, entries, a), TicksFor(sys, entries, front), EntryTicks(sys, entries, last));
    }
  }

  lemma {:induction false} TicksForExtend(sys: Sys, entries: seq<Record>, rec: Record, ids: seq<nat>)
    requires forall id :: id in ids ==> id < |entries|
    ensures TicksFor(sys, entries + [rec], ids) == TicksFor(sys, entries, ids)
  {
    hide TicksOf;
    if ids != [] {
      var front := ids[..|ids| - 1];
      assert Last(ids) in ids;
      forall id | id in front
        ensures id < |entries|
      {
        assert id in ids;
      }
      TicksForExtend(sys, entries, rec, front);
    }
  }

  lemma {:induction false} SameFresh(sys: Sys, st: State, next: State, ids: seq<nat>)
    requires st.entries <= next.entries && forall id :: id in ids ==> id < |st.entries|
    requires forall id :: id in ids ==> (id in next.marked <==> id in st.marked)
    ensures Fresh(sys, next, ids) == Fresh(sys, st, ids)
  {
    hide Resolve;
    if ids != [] {
      var front := ids[..|ids| - 1];
      assert ids == front + [Last(ids)];
      assert Last(ids) in ids && forall id :: id in front ==> id in ids;
      SameFresh(sys, st, next, front);
    }
  }

  /** Unmarked entries lose nothing to the marker check but entries without actions. */
  lemma {:induction false} FreshTicks(sys: Sys, st: State, ids: seq<nat>)
    requires forall id :: id in ids ==> id !in st.marked && id < |st.entries|
    ensures TicksFor(sys, st.entries, Fresh(sys, st, ids)) == TicksFor(sys, st.entries, ids)
  {
    if ids != [] {
      var front := ids[..|ids| - 1];
      FreshTicks(sys, st, front);
      assert Last(ids) in ids;
      var f := Fresh(sys, st, front);
      if Resolve(sys.reg, st.entries[Last(ids)]).Some? {
        assert (f + [Last(ids)])[..|f|] == f;
      } else {
        assert TicksOf(sys.reg, Last(ids), st.entries[Last(ids)]) == [];
      }
    }
  }

  // ---------------------------------------------------------------- the schedule

  ghost predicate Careful(sys: Sys, owner: nat -> nat, st: State, step: Groups.Step) {
    match step
    case ReadNew(w, p, ids) => w == owner(p) && Pending(sys, st, p) == []
    case Claim(w, p, ids) => w == owner(p) && ids == Pending(sys, st, p)
    case _ => true
  }

  /** No crash cuts a check-apply-mark section short. */
  ghost predicate Calm(st: State, step: Groups.Step) {
    step.Crash? && PhaseOf(st, step.w).Working? ==> PhaseOf(st, step.w).todo == [] && PhaseOf(st, step.w).unmarked == []
  }

  ghost predicate CarefulRun(sys: Sys, owner: nat -> nat, steps: seq<Groups.Step>, calm: bool) {
    steps != [] ==>
      && CarefulRun(sys, owner, steps[..|steps| - 1], calm)
      && (Run(sys, steps[..|steps| - 1]).Some? ==>
            var st := Run(sys, steps[..|steps| - 1]).value;
            Careful(sys, owner, st, Last(steps)) && (calm ==> Calm(st, Last(steps))))
  }

  // ---------------------------------------------------------------- where the workers stand

  ghost function Msgs(st: State, w: nat): seq<nat> { if PhaseOf(st, w).Idle? then [] else PhaseOf(st, w).msgs }

  /** Worker w is on a batch of partition p. */
  ghost predicate On(sys: Sys, st: State, w: nat, p: nat) {
    Msgs(st, w) != [] && InPartition(sys, st, p, Msgs(st, w)[0])
  }

  /** Reads go forward: what is not delivered comes after what is. */
  ghost predicate Forward(sys: Sys, st: State) {
    && (forall id :: id in st.delivered ==> id < |st.entries|)
    && st.marked <= st.delivered && st.acked <= st.delivered
    && (forall a: nat, b: nat | a < |st.entries| && b < |st.entries| && a in st.delivered && b !in st.delivered ::
          sys.part(OwnerOf(st.entries[a])) == sys.part(OwnerOf(st.entries[b])) ==> a < b)
  }

  /** A worker holds all that is pending of one of its own partitions, or nothing. */
  ghost predicate Placed(sys: Sys, owner: nat -> nat, st: State, w: nat) {
    && (forall p :: On(sys, st, w, p) ==> w == owner(p) && Msgs(st, w) == Pending(sys, st, p))
    && (PhaseOf(st, w).Working? ==>
          && PhaseOf(st, w).unmarked == Fresh(sys, st, Msgs(st, w))
          && forall t :: t in PhaseOf(st, w).todo ==> t in TicksFor(sys, st.entries, PhaseOf(st, w).unmarked))
    && (forall id :: id in Msgs(st, w) ==> id < |st.entries|)
  }

  ghost predicate Places(sys: Sys, owner: nat -> nat, st: State) {
    Forward(sys, st) && forall w :: Placed(sys, owner, st, w)
  }

  // ---------------------------------------------------------------- what a cell is waiting for

  /** What a full pass over a partition still has to apply. */
  ghost function Remaining(sys: Sys, st: State, p: nat): seq<Tick> {
    TicksFor(sys, st.entries, Fresh(sys, st, Pending(sys, st, p)))
  }

  /** What the cell should be once everything delivered is applied. */
  ghost function Target(sys: Sys, st: State, c: Cell): Option<real> {
    FoldTicks(sys.reg, TicksFor(sys, st.entries, Delivered(sys, st, sys.part(CellOwner(c)))), c, None)
  }

  /** A full pass from the start brings the cell to its target, and so does the rest of the pass under way. */
  ghost predicate OnTarget(sys: Sys, owner: nat -> nat, st: State, c: Cell) {
    var p := sys.part(CellOwner(c));
    var w := owner(p);
    var busy := On(sys, st, w, p) && PhaseOf(st, w).Working?;
    && (busy ==> FoldTicks(sys.reg, PhaseOf(st, w).todo, c, Lookup(st.z, c)) == Target(sys, st, c))
    && (!busy || Absorbing(sys.reg, c) ==> FoldTicks(sys.reg, Remaining(sys, st, p), c, Lookup(st.z, c)) == Target(sys, st, c))
  }

  // ---------------------------------------------------------------- frames

  /** Steps that leave the delivered, acknowledged and marked entries of a partition alone. */
  lemma SamePartition(sys: Sys, st: State, next: State, p: nat)
    requires next.entries == st.entries
    requires forall id: nat | id < |st.entries| && sys.part(OwnerOf(st.entries[id])) == p ::
               && (id in next.delivered <==> id in st.delivered) && (id in next.acked <==> id in st.acked)
               && (id in next.marked <==> id in st.marked)
    ensures Delivered(sys, next, p) == Delivered(sys, st, p) && Pending(sys, next, p) == Pending(sys, st, p)
    ensures Remaining(sys, next, p) == Remaining(sys, st, p)
  {
    hide TicksFor, Fresh, Pick;
    var n := |st.entries|;
    SamePick(sys, st.entries, p, next.delivered, st.delivered, n);
    SamePick(sys, st.entries, p, next.delivered - next.acked, st.delivered - st.acked, n);
    PickMember(sys, st.entries, p, st.delivered - st.acked, n);
    SameFresh(sys, st, next, Pending(sys, st, p));
  }

  /** A worker that keeps its phase is as well placed as before when its partitions are left alone. */
  lemma SamePlace(sys: Sys, owner: nat -> nat, st: State, next: State, w: nat)
    requires Placed(sys, owner, st, w) && next.entries == st.entries && PhaseOf(next, w) == PhaseOf(st, w)
    requires forall p: nat | On(sys, st, w, p) :: Pending(sys, next, p) == Pending(sys, st, p)
    requires forall id :: id in Msgs(st, w) ==> (id in next.marked <==> id in st.marked)
    ensures Placed(sys, owner, next, w)
  {
    hide TicksFor, Fresh, Pending;
    assert Msgs(next, w) == Msgs(st, w);
    assert forall p: nat :: On(sys, next, w, p) <==> On(sys, st, w, p);
    SameFresh(sys, st, next, Msgs(st, w));
  }

  /** What a worker holds belongs to a partition of its own. */
  lemma MsgsOwn(sys: Sys, owner: nat -> nat, st: State, w: nat, id: nat)
    requires Placed(sys, owner, st, w) && id in Msgs(st, w)
    ensures id < |st.entries| && On(sys, st, w, sys.part(OwnerOf(st.entries[id])))
    ensures owner(sys.part(OwnerOf(st.entries[id]))) == w && id in st.delivered && id !in st.acked
  {
    hide Fresh, TicksFor, Pick;
    var m := Msgs(st, w)[0];
    assert m in Msgs(st, w);
    var p := sys.part(OwnerOf(st.entries[m]));
    assert On(sys, st, w, p);
    PickMember(sys, st.entries, p, st.delivered - st.acked, |st.entries|);
  }

  // ---------------------------------------------------------------- steps: where the workers stand

  lemma AppendPick(sys: Sys, entries: seq<Record>, rec: Record, p: nat, s: set<nat>)
    requires |entries| !in s
    ensures Pick(sys, entries + [rec], p, s, |entries| + 1) == Pick(sys, entries, p, s, |entries|)
  {
    PickExtend(sys, entries, rec, p, s, |entries|);
  }

  lemma AppendPartition(sys: Sys, st: State, rec: Record, p: nat)
    requires Forward(sys, st)
    ensures var next := Do(sys, st, Append(rec));
            && Delivered(sys, next, p) == Delivered(sys, st, p) && Pending(sys, next, p) == Pending(sys, st, p)
            && Remaining(sys, next, p) == Remaining(sys, st, p)
            && TicksFor(sys, next.entries, Delivered(sys, st, p)) == TicksFor(sys, st.entries, Delivered(sys, st, p))
  {
    hide TicksFor, Fresh, Pick, Resolve;
    var next, n := Do(sys, st, Append(rec)), |st.entries|;
    assert n !in st.delivered;
    AppendPick(sys, st.entries, rec, p, st.delivered);
    AppendPick(sys, st.entries, rec, p, st.delivered - st.acked);
    PickMember(sys, st.entries, p, st.delivered, n);
    PickMember(sys, st.entries, p, st.delivered - st.acked, n);
    SameFresh(sys, st, next, Pending(sys, st, p));
    FreshIds(sys, st, Pending(sys, st, p));
    TicksForExtend(sys, st.entries, rec, Fresh(sys, st, Pending(sys, st, p)));
    TicksForExtend(sys, st.entries, rec, Delivered(sys, st, p));
  }

  lemma AppendPlaces(sys: Sys, owner: nat -> nat, st: State, rec: Record)
    requires Places(sys, owner, st)
    ensures Places(sys, owner, Do(sys, st, Append(rec)))
  {
    hide TicksFor, Fresh, Pending, Pick, Placed;
    var next := Do(sys, st, Append(rec));
    forall w
      ensures Placed(sys, owner, next, w)
    {
      assert Placed(sys, owner, st, w);
      AppendPlaced(sys, owner, st, rec, w);
    }
  }

  lemma AppendPlaced(sys: Sys, owner: nat -> nat, st: State, rec: Record, w: nat)
    requires Forward(sys, st) && Placed(sys, owner, st, w)
    ensures Placed(sys, owner, Do(sys, st, Append(rec)), w)
  {
    hide TicksFor, Fresh, Pending, Pick;
    var next := Do(sys, st, Append(rec));
    assert Msgs(next, w) == Msgs(st, w);
    forall p: nat | On(sys, next, w, p)
      ensures On(sys, st, w, p) && Pending(sys, next, p) == Pending(sys, st, p)
    {
      assert Msgs(st, w)[0] in Msgs(st, w);
      AppendPartition(sys, st, rec, p);
    }
    SameFresh(sys, st, next, Msgs(st, w));
    FreshIds(sys, st, Msgs(st, w));
    TicksForExtend(sys, st.entries, rec, Fresh(sys, st, Msgs(st, w)));
  }

  lemma ReadForward(sys: Sys, st: State, w: nat, p: nat, ids: seq<nat>)
    requires Forward(sys, st) && Enabled(sys, st, ReadNew(w, p, ids))
    ensures Forward(sys, Do(sys, st, ReadNew(w, p, ids)))
  {
    var next := Do(sys, st, ReadNew(w, p, ids));
    forall a: nat, b: nat | a < |st.entries| && b < |st.entries| && a in next.delivered && b !in next.delivered
      ensures sys.part(OwnerOf(st.entries[a])) == sys.part(OwnerOf(st.entries[b])) ==> a < b
    {
      if a in ids && sys.part(OwnerOf(st.entries[a])) == sys.part(OwnerOf(st.entries[b])) {
        var i :| 0 <= i < |ids| && ids[i] == a;
        assert InPartition(sys, st, p, ids[i]);
        assert InPartition(sys, st, p, b);
        assert b !in ids;
      }
    }
  }

  /** Reading appends to what is delivered of its partition; with nothing pending before, that is all
      that is pending after. */
  lemma ReadPartition(sys: Sys, st: State, w: nat, p: nat, ids: seq<nat>)
    requires Forward(sys, st) && Enabled(sys, st, ReadNew(w, p, ids)) && Pending(sys, st, p) == []
    ensures var next := Do(sys, st, ReadNew(w, p, ids));
            Delivered(sys, next, p) == Delivered(sys, st, p) + ids && Pending(sys, next, p) == ids
  {
    hide Pick;
    var next, n := Do(sys, st, ReadNew(w, p, ids)), |st.entries|;
    PickMember(sys, st.entries, p, st.delivered, n);
    PickMember(sys, st.entries, p, next.delivered, n);
    PickMember(sys, st.entries, p, st.delivered - st.acked, n);
    PickMember(sys, st.entries, p, next.delivered - next.acked, n);
    assert forall id :: id in ids <==> id in Elems(ids);
    assert forall id :: id in ids ==> InPartition(sys, st, p, id) && id !in st.delivered;
    var d := Delivered(sys, st, p);
    forall i, j | 0 <= i < |d| && 0 <= j < |ids|
      ensures d[i] < ids[j]
    {
      assert d[i] in d && ids[j] in ids;
    }
    IncreasingUnique(Delivered(sys, next, p), d + ids);
    forall id
      ensures id in Pending(sys, next, p) <==> id in ids
    {
      assert id !in Pending(sys, st, p);
    }
    IncreasingUnique(Pending(sys, next, p), ids);
  }

  lemma ReadOther(sys: Sys, st: State, w: nat, p: nat, ids: seq<nat>, q: nat)
    requires Enabled(sys, st, ReadNew(w, p, ids)) && q != p
    ensures var next := Do(sys, st, ReadNew(w, p, ids));
            Delivered(sys, next, q) == Delivered(sys, st, q) && Pending(sys, next, q) == Pending(sys, st, q)
            && Remaining(sys, next, q) == Remaining(sys, st, q)
  {
    hide Pick, TicksFor, Fresh;
    var next := Do(sys, st, ReadNew(w, p, ids));
    assert forall id :: id in ids ==> InPartition(sys, st, p, id);
    SamePartition(sys, st, next, q);
  }

  lemma ReadPlaces(sys: Sys, owner: nat -> nat, st: State, p: nat, ids: seq<nat>)
    requires Places(sys, owner, st) && Enabled(sys, st, ReadNew(owner(p), p, ids)) && Pending(sys, st, p) == []
    ensures Places(sys, owner, Do(sys, st, ReadNew(owner(p), p, ids)))
  {
    hide TicksFor, Fresh, Pending, Pick;
    var w := owner(p);
    var next := Do(sys, st, ReadNew(w, p, ids));
    ReadForward(sys, st, w, p, ids);
    ReadPartition(sys, st, w, p, ids);
    forall v
      ensures Placed(sys, owner, next, v)
    {
      assert Placed(sys, owner, st, v);
      if v == w {
        assert PhaseOf(next, w) == Holding(ids);
        assert forall id :: id in ids ==> InPartition(sys, st, p, id);
      } else {
        assert PhaseOf(next, v) == PhaseOf(st, v);
        forall q: nat | On(sys, st, v, q)
          ensures Pending(sys, next, q) == Pending(sys, st, q)
        {
          ReadOther(sys, st, w, p, ids, q);
        }
        SamePlace(sys, owner, st, next, v);
      }
    }
  }

  lemma ClaimPlaces(sys: Sys, owner: nat -> nat, st: State, p: nat)
    requires Places(sys, owner, st) && Enabled(sys, st, Claim(owner(p), p, Pending(sys, st, p)))
    ensures Places(sys, owner, Do(sys, st, Claim(owner(p), p, Pending(sys, st, p))))
  {
    hide TicksFor, Fresh, Pick;
    var w, ids := owner(p), Pending(sys, st, p);
    var next := Do(sys, st, Claim(w, p, ids));
    PickMember(sys, st.entries, p, st.delivered - st.acked, |st.entries|);
    forall v
      ensures Placed(sys, owner, next, v)
    {
      assert Placed(sys, owner, st, v);
      if v == w {
        assert PhaseOf(next, w) == Holding(ids);
        assert ids != [] ==> ids[0] in ids;
      } else {
        assert PhaseOf(next, v) == PhaseOf(st, v);
        SamePlace(sys, owner, st, next, v);
      }
    }
  }

  /** Steps of one worker that deliver and acknowledge nothing, on the batch it has. */
  lemma WorkPlaces(sys: Sys, owner: nat -> nat, st: State, next: State, w: nat)
    requires Places(sys, owner, st) && next.entries == st.entries && next.delivered == st.delivered && next.acked == st.acked
    requires forall v :: v != w ==> PhaseOf(next, v) == PhaseOf(st, v)
    requires st.marked <= next.marked && forall id :: id in next.marked && id !in st.marked ==> id in Msgs(st, w)
    requires Placed(sys, owner, next, w)
    ensures Places(sys, owner, next)
  {
    hide TicksFor, Fresh, Pick;
    assert Placed(sys, owner, st, w);
    forall id | id in next.marked && id !in st.marked
      ensures id in st.delivered
    {
      MsgsOwn(sys, owner, st, w, id);
    }
    forall v | v != w
      ensures Placed(sys, owner, next, v)
    {
      assert Placed(sys, owner, st, v);
      forall id | id in Msgs(st, v)
        ensures id in next.marked <==> id in st.marked
      {
        MsgsOwn(sys, owner, st, v, id);
        if id in Msgs(st, w) {
          MsgsOwn(sys, owner, st, w, id);
        }
      }
      SamePlace(sys, owner, st, next, v);
    }
  }

  lemma CheckPlaces(sys: Sys, owner: nat -> nat, st: State, w: nat)
    requires Places(sys, owner, st) && Enabled(sys, st, Check(w))
    ensures Places(sys, owner, Do(sys, st, Check(w)))
  {
    hide TicksFor, Fresh, Pick;
    var next := Do(sys, st, Check(w));
    assert Placed(sys, owner, st, w);
    assert Msgs(next, w) == Msgs(st, w);
    assert forall p: nat :: On(sys, next, w, p) <==> On(sys, st, w, p);
    SameFresh(sys, st, next, Msgs(st, w));
    WorkPlaces(sys, owner, st, next, w);
  }

  lemma ApplyPlaces(sys: Sys, owner: nat -> nat, st: State, w: nat)
    requires Places(sys, owner, st) && Enabled(sys, st, ApplyHead(w))
    ensures Places(sys, owner, Do(sys, st, ApplyHead(w)))
  {
    hide TicksFor, Fresh, Pick, TickScores;
    var next := Do(sys, st, ApplyHead(w));
    assert Placed(sys, owner, st, w);
    assert Msgs(next, w) == Msgs(st, w);
    assert forall p: nat :: On(sys, next, w, p) <==> On(sys, st, w, p);
    SameFresh(sys, st, next, Msgs(st, w));
    assert forall t :: t in PhaseOf(next, w).todo ==> t in PhaseOf(st, w).todo;
    WorkPlaces(sys, owner, st, next, w);
  }

  lemma PartPlaces(sys: Sys, owner: nat -> nat, st: State, w: nat, c: Cell)
    requires Places(sys, owner, st) && Enabled(sys, st, RemovePart(w, c))
    ensures Places(sys, owner, Do(sys, st, RemovePart(w, c)))
  {
    hide TicksFor, Fresh, Pick, TickScores;
    var next := Do(sys, st, RemovePart(w, c));
    assert Placed(sys, owner, st, w);
    SamePlace(sys, owner, st, next, w);
    WorkPlaces(sys, owner, st, next, w);
  }

  lemma IncreasingTail(f: seq<nat>)
    requires f != [] && Increasing(f)
    ensures Increasing(f[1..]) && forall id :: id in f[1..] <==> id in f && id != f[0]
  {
    assert f == [f[0]] + f[1..];
    assert forall i :: 1 <= i < |f| ==> f[0] < f[i];
  }

  /** Marking the first unmarked entry leaves the others. */
  lemma MarkFresh(sys: Sys, st: State, next: State, ids: seq<nat>)
    requires next.entries == st.entries && Increasing(ids) && Fresh(sys, st, ids) != []
    requires next.marked == st.marked + {Fresh(sys, st, ids)[0]}
    ensures Fresh(sys, next, ids) == Fresh(sys, st, ids)[1..]
  {
    hide Fresh, Resolve;
    FreshIds(sys, st, ids);
    FreshIds(sys, next, ids);
    var f := Fresh(sys, st, ids);
    IncreasingTail(f);
    forall id
      ensures id in Fresh(sys, next, ids) <==> id in f[1..]
    {
      assert id in Fresh(sys, next, ids) <==> id in f && id != f[0];
    }
    IncreasingUnique(Fresh(sys, next, ids), f[1..]);
  }

  lemma MsgsIncrease(sys: Sys, owner: nat -> nat, st: State, w: nat)
    requires Placed(sys, owner, st, w)
    ensures Increasing(Msgs(st, w))
  {
    hide Fresh, TicksFor, Pick;
    if Msgs(st, w) != [] {
      var m := Msgs(st, w)[0];
      assert m in Msgs(st, w);
      var p := sys.part(OwnerOf(st.entries[m]));
      assert On(sys, st, w, p);
      PickMember(sys, st.entries, p, st.delivered - st.acked, |st.entries|);
    }
  }

  lemma MarkPlaces(sys: Sys, owner: nat -> nat, st: State, w: nat)
    requires Places(sys, owner, st) && Enabled(sys, st, MarkHead(w))
    ensures Places(sys, owner, Do(sys, st, MarkHead(w)))
  {
    hide TicksFor, Fresh, Pick;
    var next := Do(sys, st, MarkHead(w));
    var ph := PhaseOf(st, w);
    assert Placed(sys, owner, st, w);
    MsgsIncrease(sys, owner, st, w);
    MarkFresh(sys, st, next, Msgs(st, w));
    FreshIds(sys, st, Msgs(st, w));
    assert ph.unmarked[0] in ph.unmarked;
    assert PhaseOf(next, w) == ph.(unmarked := ph.unmarked[1..]);
    assert Msgs(next, w) == Msgs(st, w);
    assert forall p: nat :: On(sys, next, w, p) <==> On(sys, st, w, p);
    WorkPlaces(sys, owner, st, next, w);
  }

  /** Acknowledging a batch leaves the other partitions alone. */
  lemma AckOther(sys: Sys, owner: nat -> nat, st: State, w: nat, q: nat)
    requires Placed(sys, owner, st, w) && Enabled(sys, st, Ack(w)) && !On(sys, st, w, q)
    ensures var next := Do(sys, st, Ack(w));
            Delivered(sys, next, q) == Delivered(sys, st, q) && Pending(sys, next, q) == Pending(sys, st, q)
            && Remaining(sys, next, q) == Remaining(sys, st, q)
  {
    hide TicksFor, Fresh, Pick;
    var next := Do(sys, st, Ack(w));
    forall id: nat | id < |st.entries| && sys.part(OwnerOf(st.entries[id])) == q
      ensures id in next.acked <==> id in st.acked
    {
      if id in Msgs(st, w) {
        MsgsOwn(sys, owner, st, w, id);
      }
    }
    SamePartition(sys, st, next, q);
  }

  lemma AckPlaces(sys: Sys, owner: nat -> nat, st: State, w: nat)
    requires Places(sys, owner, st) && Enabled(sys, st, Ack(w))
    ensures Places(sys, owner, Do(sys, st, Ack(w)))
  {
    hide TicksFor, Fresh, Pick, Pending;
    var next := Do(sys, st, Ack(w));
    assert Placed(sys, owner, st, w);
    forall id | id in Msgs(st, w)
      ensures id in st.delivered
    {
      MsgsOwn(sys, owner, st, w, id);
    }
    forall v
      ensures Placed(sys, owner, next, v)
    {
      assert Placed(sys, owner, st, v);
      if v != w {
        assert PhaseOf(next, v) == PhaseOf(st, v);
        forall q: nat | On(sys, st, v, q)
          ensures Pending(sys, next, q) == Pending(sys, st, q)
        {
          AckOther(sys, owner, st, w, q);
        }
        SamePlace(sys, owner, st, next, v);
      }
    }
  }

  lemma CrashPlaces(sys: Sys, owner: nat -> nat, st: State, w: nat)
    requires Places(sys, owner, st)
    ensures Places(sys, owner, Do(sys, st, Crash(w)))
  {
    hide TicksFor, Fresh, Pick, Pending;
    var next := Do(sys, st, Crash(w));
    assert Placed(sys, owner, st, w);
    WorkPlaces(sys, owner, st, next, w);
  }

  lemma PlacesStep(sys: Sys, owner: nat -> nat, st: State, step: Groups.Step)
    requires Places(sys, owner, st) && Enabled(sys, st, step) && Careful(sys, owner, st, step)
    ensures Places(sys, owner, Do(sys, st, step))
  {
    hide Places, Enabled, Do, Pending;
    match step
    case Append(rec) => AppendPlaces(sys, owner, st, rec);
    case ReadNew(w, p, ids) => ReadPlaces(sys, owner, st, p, ids);
    case Claim(w, p, ids) => ClaimPlaces(sys, owner, st, p);
    case Check(w) => CheckPlaces(sys, owner, st, w);
    case RemovePart(w, c) => PartPlaces(sys, owner, st, w, c);
    case ApplyHead(w) => ApplyPlaces(sys, owner, st, w);
    case MarkHead(w) => MarkPlaces(sys, owner, st, w);
    case Ack(w) => AckPlaces(sys, owner, st, w);
    case Crash(w) => CrashPlaces(sys, owner, st, w);
  }
}
