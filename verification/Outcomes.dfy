/** Exactly when the consumer-group path leaves a cell as the log has it, whatever was redelivered,
    overlapped or reordered (pkg/ingest/group.go:18-20, pkg/api/moderation.go:18-21). */
module Outcomes {
  import opened Basics
  import opened Boards
  import opened Delivery
  import opened Groups
  import opened Ingest
  import opened Keys
  import opened Ordering
  import opened Policies
  import opened Reordering
  import opened Store

  // ---------------------------------------------------------------- what a tick does to a cell

  /** The tick removes c. */
  predicate Removes(reg: Registry, t: Tick, c: Cell) {
    ValidTick(reg, t) && t.rec.tombstone && OwnerOf(t.rec) == CellOwner(c) && Reaches(t, c)
  }

  /** The tick submits to c. */
  predicate Submits(reg: Registry, t: Tick, c: Cell) { SubmitTick(reg, t) && Hits(OpOf(reg, t), c) }

  predicate Sets(reg: Registry, t: Tick, c: Cell) { Removes(reg, t, c) || Submits(reg, t, c) }

  /** What a last board holds in c after the tick. */
  function OutcomeOf(reg: Registry, t: Tick, c: Cell): Option<real> {
    if Submits(reg, t, c) then Some(ValueOf(OpOf(reg, t))) else None
  }

  /** The outcome of the last tick that sets c. */
  function LastOutcome(reg: Registry, ts: seq<Tick>, c: Cell): Option<real> {
    if ts == [] then None
    else if Sets(reg, Last(ts), c) then OutcomeOf(reg, Last(ts), c)
    else LastOutcome(reg, ts[..|ts| - 1], c)
  }

  ghost predicate OnLastBoard(reg: Registry, c: Cell) {
    (c.key.app, c.key.board) in reg && WithDefaults(reg[(c.key.app, c.key.board)].cfg).policy.LastWins?
  }

  lemma FoldOne(reg: Registry, t: Tick, c: Cell, v: Option<real>)
    requires ValidRegistry(reg)
    ensures !Sets(reg, t, c) ==> FoldTick(reg, t, c, v) == v
    ensures Removes(reg, t, c) ==> FoldTick(reg, t, c, v) == None
    ensures Submits(reg, t, c) ==> FoldTick(reg, t, c, v).Some?
    ensures Sets(reg, t, c) && OnLastBoard(reg, c) ==> FoldTick(reg, t, c, v) == OutcomeOf(reg, t, c)
  {
    hide OpsOf, CheckOp, ColonFree;
    if SubmitTick(reg, t) {
      OpsOfMember(Resolve(reg, t.rec).value, t.rec, t.j);
    }
  }

  lemma {:induction false} LastBoardFold(reg: Registry, ts: seq<Tick>, c: Cell)
    requires ValidRegistry(reg) && OnLastBoard(reg, c)
    ensures FoldTicks(reg, ts, c, None) == LastOutcome(reg, ts, c)
  {
    hide FoldTick, Sets, OutcomeOf, ValidRegistry, OnLastBoard;
    if ts != [] {
      LastBoardFold(reg, ts[..|ts| - 1], c);
      FoldOne(reg, Last(ts), c, FoldTicks(reg, ts[..|ts| - 1], c, None));
    }
  }

  // ---------------------------------------------------------------- the last application decides

  /** Tick i sets c to something other than r, and no later tick sets it to r. */
  ghost predicate Overrides(reg: Registry, ts: seq<Tick>, c: Cell, r: Option<real>, i: nat) {
    && i < |ts| && Sets(reg, ts[i], c) && OutcomeOf(reg, ts[i], c) != r
    && forall j :: i < j < |ts| && Sets(reg, ts[j], c) ==> OutcomeOf(reg, ts[j], c) != r
  }

  lemma {:induction false} LastOutcomeIff(reg: Registry, ts: seq<Tick>, c: Cell, r: Option<real>)
    requires (forall t :: t in ts ==> !Sets(reg, t, c)) ==> r == None
    ensures LastOutcome(reg, ts, c) == r <==> forall i :: !Overrides(reg, ts, c, r, i)
  {
    hide Sets, OutcomeOf;
    if ts != [] {
      var front, n := ts[..|ts| - 1], |ts| - 1;
      assert ts == front + [ts[n]];
      if Sets(reg, ts[n], c) {
        assert OutcomeOf(reg, ts[n], c) != r ==> Overrides(reg, ts, c, r, n);
        assert forall i :: Overrides(reg, ts, c, r, i) ==> OutcomeOf(reg, ts[n], c) != r;
      } else {
        LastOutcomeIff(reg, front, c, r);
        assert forall i: nat :: i < n ==> front[i] == ts[i];
        assert forall i: nat :: Overrides(reg, ts, c, r, i) <==> Overrides(reg, front, c, r, i);
      }
    }
  }

  lemma {:induction false} NothingSets(reg: Registry, ts: seq<Tick>, c: Cell)
    requires forall t :: t in ts ==> !Sets(reg, t, c)
    ensures LastOutcome(reg, ts, c) == None
  {
    hide Sets, OutcomeOf;
    if ts != [] {
      assert Last(ts) in ts;
      NothingSets(reg, ts[..|ts| - 1], c);
    }
  }

  /** The cells of a run and of its log as folds of ticks. */
  lemma RunFolds(sys: Sys, steps: seq<Groups.Step>, c: Cell)
    requires ValidRegistry(sys.reg) && ValidKey(c.key) && Run(sys, steps).Some?
    ensures var st := Run(sys, steps).value;
            && Lookup(st.z, c) == FoldTicks(sys.reg, st.trace, c, None)
            && Lookup(Replay(sys.reg, EMPTY, st.entries).z, c) == FoldTicks(sys.reg, AllTicks(sys.reg, st.entries), c, None)
  {
    hide Run, RunTicks, FoldTicks, AllTicks, Replay, ValidRegistry, ValidKey, EMPTY;
    var st := Run(sys, steps).value;
    AtLeastOnce(sys, steps);
    EmptyLookup(c);
    RunTicksFold(sys.reg, EMPTY, st.trace, c);
    RunTicksFold(sys.reg, EMPTY, AllTicks(sys.reg, st.entries), c);
    ReplayIsTicks(sys.reg, EMPTY, st.entries);
  }

  /** Last boards, with tombstones: in every run, once all is acknowledged, a cell is what the log gives
      exactly when no action that sets it otherwise is applied after every action that sets it to the
      outcome of the log's last one. */
  lemma LastExactIff(sys: Sys, steps: seq<Groups.Step>, c: Cell)
    requires ValidRegistry(sys.reg) && ValidKey(c.key) && OnLastBoard(sys.reg, c)
    requires Run(sys, steps).Some? && AllAcked(Run(sys, steps).value)
    ensures var st := Run(sys, steps).value;
            var logged := LastOutcome(sys.reg, AllTicks(sys.reg, st.entries), c);
            && Lookup(Replay(sys.reg, EMPTY, st.entries).z, c) == logged
            && (Lookup(st.z, c) == logged <==> forall i :: !Overrides(sys.reg, st.trace, c, logged, i))
  {
    hide Run, AllTicks, Replay, ValidRegistry, ValidKey, EMPTY, AllAcked, Sets, FoldTicks, LastOutcome, OnLastBoard, Overrides;
    var st := Run(sys, steps).value;
    var all := AllTicks(sys.reg, st.entries);
    RunFolds(sys, steps, c);
    LastBoardFold(sys.reg, st.trace, c);
    LastBoardFold(sys.reg, all, c);
    TraceCoversLog(sys, steps);
    if forall t :: t in st.trace ==> !Sets(sys.reg, t, c) {
      NothingSets(sys.reg, all, c);
    }
    LastOutcomeIff(sys.reg, st.trace, c, LastOutcome(sys.reg, all, c));
  }

  // ---------------------------------------------------------------- removed scores

  /** Tick i submits to c and no later tick removes c. */
  ghost predicate Survives(reg: Registry, ts: seq<Tick>, c: Cell, i: nat) {
    i < |ts| && Submits(reg, ts[i], c) && forall j :: i < j < |ts| ==> !Removes(reg, ts[j], c)
  }

  lemma {:induction false} PresentIff(reg: Registry, ts: seq<Tick>, c: Cell)
    requires ValidRegistry(reg)
    ensures FoldTicks(reg, ts, c, None).Some? <==> exists i :: Survives(reg, ts, c, i)
  {
    hide FoldTick, Removes, Submits, ValidRegistry;
    if ts != [] {
      var front, n := ts[..|ts| - 1], |ts| - 1;
      PresentIff(reg, front, c);
      FoldOne(reg, ts[n], c, FoldTicks(reg, front, c, None));
      RemovesOrSubmits(reg, ts[n], c);
      if i :| Survives(reg, front, c, i) && !Removes(reg, ts[n], c) {
        SurvivesNext(reg, ts, c, i);
        assert Survives(reg, ts, c, i);
      }
      if Submits(reg, ts[n], c) {
        assert Survives(reg, ts, c, n);
      }
      if i :| Survives(reg, ts, c, i) {
        SurvivesNext(reg, ts, c, i);
      }
    }
  }

  lemma RemovesOrSubmits(reg: Registry, t: Tick, c: Cell)
    ensures !(Removes(reg, t, c) && Submits(reg, t, c))
  {
  }

  /** In every run and on every board, cache and log: a cell is present exactly when a submit to it is
      applied after the last removal applied to it. What it then holds is in BestExactIff, LastExactIff
      and IncrementTally. */
  lemma PresentInRunIff(sys: Sys, steps: seq<Groups.Step>, c: Cell)
    requires ValidRegistry(sys.reg) && ValidKey(c.key) && Run(sys, steps).Some?
    ensures var st := Run(sys, steps).value;
            && (Lookup(st.z, c).Some? <==> exists i :: Survives(sys.reg, st.trace, c, i))
            && (Lookup(Replay(sys.reg, EMPTY, st.entries).z, c).Some?
                <==> exists i :: Survives(sys.reg, AllTicks(sys.reg, st.entries), c, i))
  {
    hide Run, AllTicks, Replay, ValidRegistry, ValidKey, EMPTY, FoldTicks, Survives;
    var st := Run(sys, steps).value;
    RunFolds(sys, steps, c);
    PresentIff(sys.reg, st.trace, c);
    PresentIff(sys.reg, AllTicks(sys.reg, st.entries), c);
  }

  // ---------------------------------------------------------------- best boards

  ghost predicate OnBestBoard(reg: Registry, c: Cell) {
    (c.key.app, c.key.board) in reg && WithDefaults(reg[(c.key.app, c.key.board)].cfg).policy.Best?
  }

  ghost function BoardAsc(reg: Registry, c: Cell): bool
    requires (c.key.app, c.key.board) in reg
  {
    IsAsc(reg[(c.key.app, c.key.board)].cfg)
  }

  /** A submit on a best board keeps the better of two values. */
  lemma BestTick(reg: Registry, t: Tick, c: Cell, v: Option<real>)
    requires ValidRegistry(reg) && OnBestBoard(reg, c) && Submits(reg, t, c)
    ensures var x := ValueOf(OpOf(reg, t));
            FoldTick(reg, t, c, v) == Some(if v.Some? && !Better(BoardAsc(reg, c), x, v.value) then v.value else x)
  {
    hide OpsOf, CheckOp;
    OpsOfMember(Resolve(reg, t.rec).value, t.rec, t.j);
  }

  /** The values submitted to c after the last removal. */
  ghost function SurvivingValues(reg: Registry, ts: seq<Tick>, c: Cell): set<real> {
    if ts == [] || Removes(reg, Last(ts), c) then {}
    else
      SurvivingValues(reg, ts[..|ts| - 1], c)
      + (if Submits(reg, Last(ts), c) then {ValueOf(OpOf(reg, Last(ts)))} else {})
  }

  /** They are the values of the submits that survive. */
  lemma {:induction false} SurvivingMember(reg: Registry, ts: seq<Tick>, c: Cell, x: real)
    ensures x in SurvivingValues(reg, ts, c) <==> exists i :: SurvivesAs(reg, ts, c, i, x)
  {
    hide Removes, OpOf, CheckOp;
    if ts != [] {
      var front, n := ts[..|ts| - 1], |ts| - 1;
      SurvivingMember(reg, front, c, x);
      RemovesOrSubmits(reg, ts[n], c);
      if x in SurvivingValues(reg, ts, c) {
        if x in SurvivingValues(reg, front, c) {
          var i :| SurvivesAs(reg, front, c, i, x);
          SurvivesNext(reg, ts, c, i);
          assert SurvivesAs(reg, ts, c, i, x);
        } else {
          assert SurvivesAs(reg, ts, c, n, x);
        }
      }
      if i: nat :| SurvivesAs(reg, ts, c, i, x) {
        SurvivesNext(reg, ts, c, i);
        assert i < n ==> SurvivesAs(reg, front, c, i, x);
      }
    }
  }

  lemma SurvivesNext(reg: Registry, ts: seq<Tick>, c: Cell, i: nat)
    requires ts != []
    ensures var front, n := ts[..|ts| - 1], |ts| - 1;
            Survives(reg, ts, c, i)
            <==> (Survives(reg, front, c, i) && !Removes(reg, ts[n], c)) || (i == n && Submits(reg, ts[n], c))
  {
    hide Removes, Submits;
    var front, n := ts[..|ts| - 1], |ts| - 1;
    assert forall j :: 0 <= j < n ==> front[j] == ts[j];
  }

  /** Tick i survives and submits x. */
  ghost predicate SurvivesAs(reg: Registry, ts: seq<Tick>, c: Cell, i: nat, x: real) {
    Survives(reg, ts, c, i) && ValueOf(OpOf(reg, ts[i])) == x
  }

  lemma {:induction false} BestSurvivor(reg: Registry, ts: seq<Tick>, c: Cell)
    requires ValidRegistry(reg) && OnBestBoard(reg, c)
    ensures IsBest(BoardAsc(reg, c), FoldTicks(reg, ts, c, None), SurvivingValues(reg, ts, c))
  {
    hide FoldTick, Removes, Submits, ValidRegistry, OnBestBoard, ValueOf;
    if ts != [] {
      var front, t := ts[..|ts| - 1], Last(ts);
      BestSurvivor(reg, front, c);
      var v := FoldTicks(reg, front, c, None);
      FoldOne(reg, t, c, v);
      RemovesOrSubmits(reg, t, c);
      if Submits(reg, t, c) {
        BestTick(reg, t, c, v);
      }
    }
  }

  /** Best boards, with tombstones, in every run: cache and log are each the best of what survives there,
      so they agree exactly when nothing that survives in the cache beats the log's value and something
      attains it. */
  lemma BestExactIff(sys: Sys, steps: seq<Groups.Step>, c: Cell)
    requires ValidRegistry(sys.reg) && ValidKey(c.key) && OnBestBoard(sys.reg, c) && Run(sys, steps).Some?
    ensures var st, asc := Run(sys, steps).value, BoardAsc(sys.reg, c);
            var logged := Lookup(Replay(sys.reg, EMPTY, st.entries).z, c);
            && IsBest(asc, Lookup(st.z, c), SurvivingValues(sys.reg, st.trace, c))
            && IsBest(asc, logged, SurvivingValues(sys.reg, AllTicks(sys.reg, st.entries), c))
            && (Lookup(st.z, c) == logged <==> IsBest(asc, logged, SurvivingValues(sys.reg, st.trace, c)))
  {
    hide Run, AllTicks, Replay, ValidRegistry, ValidKey, EMPTY, FoldTicks, SurvivingValues, IsBest, BoardAsc;
    var st := Run(sys, steps).value;
    var logged := Lookup(Replay(sys.reg, EMPTY, st.entries).z, c);
    RunFolds(sys, steps, c);
    BestSurvivor(sys.reg, st.trace, c);
    BestSurvivor(sys.reg, AllTicks(sys.reg, st.entries), c);
    if IsBest(BoardAsc(sys.reg, c), logged, SurvivingValues(sys.reg, st.trace, c)) {
      IsBestUnique(BoardAsc(sys.reg, c), logged, Lookup(st.z, c), SurvivingValues(sys.reg, st.trace, c));
    }
  }

  /** A removed score can return although the member submitted again: the log has a, a removal and b, the
      consumers apply a last, and a beats b. */
  lemma RemovedBestReturns(reg: Registry, a: Tick, r: Tick, b: Tick, c: Cell)
    requires ValidRegistry(reg) && OnBestBoard(reg, c)
    requires Submits(reg, a, c) && Removes(reg, r, c) && Submits(reg, b, c)
    requires Better(BoardAsc(reg, c), ValueOf(OpOf(reg, a)), ValueOf(OpOf(reg, b)))
    ensures FoldTicks(reg, [a, r, b], c, None) == Some(ValueOf(OpOf(reg, b)))
    ensures FoldTicks(reg, [r, b, a], c, None) == Some(ValueOf(OpOf(reg, a)))
  {
    hide FoldTick, Removes, ValidRegistry, OnBestBoard, CheckOp, OpOf;
    assert [a, r, b][..2] == [a, r] && [a, r][..1] == [a] && [r, b, a][..2] == [r, b] && [r, b][..1] == [r] && [r][..0] == [];
    FoldOne(reg, r, c, FoldTicks(reg, [a], c, None));
    FoldOne(reg, r, c, None);
    BestTick(reg, b, c, None);
    assert FoldTicks(reg, [r], c, None) == None;
    assert FoldTicks(reg, [r, b], c, None) == Some(ValueOf(OpOf(reg, b)));
    BestTick(reg, a, c, Some(ValueOf(OpOf(reg, b))));
  }

  // ---------------------------------------------------------------- increment boards

  ghost predicate OnIncrementBoard(reg: Registry, c: Cell) {
    (c.key.app, c.key.board) in reg && WithDefaults(reg[(c.key.app, c.key.board)].cfg).policy.Increment?
  }

  /** Where the actions after the last removal of c start. */
  ghost function TailStart(reg: Registry, ts: seq<Tick>, c: Cell): (n: nat)
    ensures n <= |ts|
  {
    if ts == [] then 0
    else if Removes(reg, Last(ts), c) then |ts|
    else TailStart(reg, ts[..|ts| - 1], c)
  }

  ghost function Tail(reg: Registry, ts: seq<Tick>, c: Cell): seq<Tick> { ts[TailStart(reg, ts, c)..] }

  lemma {:induction false} TailStartIs(reg: Registry, ts: seq<Tick>, c: Cell)
    ensures var n := TailStart(reg, ts, c);
            (n > 0 ==> Removes(reg, ts[n - 1], c)) && forall i :: n <= i < |ts| ==> !Removes(reg, ts[i], c)
  {
    hide Removes;
    if ts != [] && !Removes(reg, Last(ts), c) {
      var front := ts[..|ts| - 1];
      TailStartIs(reg, front, c);
      assert forall i :: 0 <= i < |front| ==> front[i] == ts[i];
    }
  }

  /** Only the tail counts, and in it only the submits. */
  lemma {:induction false} TailFold(reg: Registry, ts: seq<Tick>, c: Cell)
    requires ValidRegistry(reg)
    ensures FoldTicks(reg, ts, c, None) == CellOps(TraceOps(reg, Tail(reg, ts, c)), c, None)
  {
    hide Removes, Submits, ValidRegistry, OpOf, SubmitTick, CellOp;
    if ts != [] {
      var front, t := ts[..|ts| - 1], Last(ts);
      TailFold(reg, front, c);
      FoldOne(reg, t, c, FoldTicks(reg, front, c, None));
      if !Removes(reg, t, c) {
        var tail := Tail(reg, front, c);
        assert Tail(reg, ts, c) == tail + [t];
        assert (tail + [t])[..|tail|] == tail;
        KeptTick(reg, t, c, FoldTicks(reg, front, c, None));
        if SubmitTick(reg, t) {
          var ops := TraceOps(reg, tail);
          assert (ops + [OpOf(reg, t)])[..|ops|] == ops;
        }
      }
    }
  }

  lemma KeptTick(reg: Registry, t: Tick, c: Cell, v: Option<real>)
    requires ValidRegistry(reg) && !Removes(reg, t, c)
    ensures FoldTick(reg, t, c, v) == if SubmitTick(reg, t) then CellOp(OpOf(reg, t), c, v) else v
  {
    hide OpsOf, CellOp;
  }

  /** Increment boards, with tombstones, in every run: cache and log are each the sum of score times
      number of applications after the last removal, over the actions of the log. */
  lemma IncrementTally(sys: Sys, steps: seq<Groups.Step>, c: Cell)
    requires ValidRegistry(sys.reg) && ValidKey(c.key) && OnIncrementBoard(sys.reg, c) && Run(sys, steps).Some?
    ensures var st := Run(sys, steps).value;
            var all := AllTicks(sys.reg, st.entries);
            && Lookup(st.z, c) == Tally(sys.reg, all, st.trace, c)
            && Lookup(Replay(sys.reg, EMPTY, st.entries).z, c) == Tally(sys.reg, all, all, c)
  {
    hide Run, AllTicks, Replay, ValidRegistry, ValidKey, EMPTY, FoldTicks, OnIncrementBoard, Tally, TicksOf;
    var st := Run(sys, steps).value;
    var all := AllTicks(sys.reg, st.entries);
    RunFolds(sys, steps, c);
    TraceSubmits(sys, steps);
    AllTicksMember(sys.reg, st.entries);
    TallyFold(sys.reg, all, st.trace, c);
    TallyFold(sys.reg, all, all, c);
  }

  /** The sum over the given actions of score times number of applications in the tail of ts. */
  ghost function Tally(reg: Registry, all: seq<Tick>, ts: seq<Tick>, c: Cell): Option<real> {
    if Values(TraceOps(reg, Tail(reg, ts, c)), c) == {} then None
    else Some(Weighted(reg, all, multiset(Tail(reg, ts, c)), c))
  }

  lemma TallyFold(reg: Registry, all: seq<Tick>, ts: seq<Tick>, c: Cell)
    requires ValidRegistry(reg) && OnIncrementBoard(reg, c)
    requires Distinct(all) && forall t :: t in ts && SubmitTick(reg, t) ==> t in all
    ensures FoldTicks(reg, ts, c, None) == Tally(reg, all, ts, c)
  {
    hide FoldTicks, TailStart, TraceOps, CellOps, Values, Weighted, ScoreSum, ValidRegistry, Uniform, Distinct, SubmitTick, Removes;
    var tail := Tail(reg, ts, c);
    TailFold(reg, ts, c);
    assert forall t :: t in tail ==> t in ts;
    TraceUniform(reg, tail, c);
    IncrementFold(TraceOps(reg, tail), c, reg[(c.key.app, c.key.board)].cfg);
    TraceSum(reg, tail, all, c);
  }
}
