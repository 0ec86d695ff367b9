/** Moderation (pkg/api/moderation.go): a tombstone is appended and the member is also removed from
    the engine synchronously, board by board, while the log is consumed in order, partition by
    partition. Every single removal is a step, so a removal can stop half way and the consumer can
    run between any two of its boards. */
module Moderation {
  import opened Basics
  import opened Boards
  import opened Consumers
  import opened Ingest
  import opened Keys
  import opened Policies
  import opened Store

  /** `next[p]` records of partition p are consumed; `wiped[c]` is where the consumer stood at the
      last synchronous removal of cell c. */
  datatype State = State(log: seq<Record>, next: map<nat, nat>, db: Db, wiped: map<Cell, nat>)

  const INIT: State := State([], map[], EMPTY, map[])

  datatype Step =
    | Append(rec: Record)
    | Consume(p: nat)
    | Wipe(c: Cell)

  datatype Sys = Sys(reg: Registry, part: Owner -> nat)

  function Next(st: State, p: nat): nat { if p in st.next then st.next[p] else 0 }

  function WipedAt(st: State, c: Cell): nat { if c in st.wiped then st.wiped[c] else 0 }

  function Stream(sys: Sys, st: State, p: nat): seq<Record> { Project(st.log, sys.part, p) }

  predicate Enabled(sys: Sys, st: State, step: Step) {
    match step
    case Append(rec) => true
    case Consume(p) => Next(st, p) < |Stream(sys, st, p)|
    case Wipe(c) => (c.key.app, c.key.board) in sys.reg
  }

  function Do(sys: Sys, st: State, step: Step): State
    requires Enabled(sys, st, step)
  {
    match step
    case Append(rec) => st.(log := st.log + [rec])
    case Consume(p) =>
      st.(next := st.next[p := Next(st, p) + 1],
          db := ApplyRecord(sys.reg, st.db, Stream(sys, st, p)[Next(st, p)]))
    case Wipe(c) =>
      st.(db := RemoveOn(st.db, {c.key}, sys.reg[(c.key.app, c.key.board)].cfg, c.member),
          wiped := st.wiped[c := Next(st, sys.part(CellOwner(c)))])
  }

  function Run(sys: Sys, steps: seq<Step>): Option<State> {
    if steps == [] then Some(INIT)
    else
      match Run(sys, steps[..|steps| - 1])
      case None => None
      case Some(st) => if Enabled(sys, st, Last(steps)) then Some(Do(sys, st, Last(steps))) else None
  }

  /** The records of c's partition consumed since it was last wiped. */
  function Since(sys: Sys, st: State, c: Cell): seq<Record> {
    var p := sys.part(CellOwner(c));
    var s := Stream(sys, st, p);
    if WipedAt(st, c) <= Next(st, p) <= |s| then s[WipedAt(st, c)..Next(st, p)] else []
  }

  ghost predicate CellInv(sys: Sys, st: State, c: Cell) {
    var p := sys.part(CellOwner(c));
    && WipedAt(st, c) <= Next(st, p) <= |Stream(sys, st, p)|
    && Lookup(st.db.z, c) == CellReplay(sys.reg, Since(sys, st, c), c, None)
  }

  // ---------------------------------------------------------------- steps

  lemma StreamAppend(sys: Sys, st: State, rec: Record, p: nat)
    ensures Stream(sys, st.(log := st.log + [rec]), p)
            == Stream(sys, st, p) + (if sys.part(OwnerOf(rec)) == p then [rec] else [])
  {
    assert (st.log + [rec])[..|st.log|] == st.log;
  }

  lemma ApplyRecordCell(reg: Registry, db: Db, rec: Record, c: Cell)
    ensures Lookup(ApplyRecord(reg, db, rec).z, c) == CellRecord(reg, rec, c, Lookup(db.z, c))
  {
    hide ApplyRecord, CellRecord;
    ReplayCell(reg, db, [rec], c);
    assert [rec][..0] == [];
    assert Replay(reg, db, [rec]) == ApplyRecord(reg, db, rec);
    assert CellReplay(reg, [rec], c, Lookup(db.z, c)) == CellRecord(reg, rec, c, Lookup(db.z, c));
  }

  /** Every step keeps every cell equal to the fold of its records since the last wipe. */
  lemma CellStep(sys: Sys, st: State, step: Step, c: Cell)
    requires ValidRegistry(sys.reg) && ValidKey(c.key) && Enabled(sys, st, step) && CellInv(sys, st, c)
    ensures CellInv(sys, Do(sys, st, step), c)
  {
    hide ApplyRecord, CellRecord, RemoveAll, ValidKey, ValidRegistry, Project, Glob, ScanPattern, ZKey;
    var o := CellOwner(c);
    var p := sys.part(o);
    var next := Do(sys, st, step);
    match step
    case Append(rec) =>
      StreamAppend(sys, st, rec, p);
      assert Since(sys, next, c) == Since(sys, st, c);
    case Consume(q) => ConsumeCell(sys, st, q, c);
    case Wipe(w) => WipeCell(sys, st, w, c);
  }

  lemma SliceNext(s: seq<Record>, w: nat, n: nat)
    requires w <= n < |s|
    ensures s[w..n + 1] == s[w..n] + [s[n]] && s[w..n + 1][..n - w] == s[w..n]
  {
  }

  lemma ConsumeCell(sys: Sys, st: State, q: nat, c: Cell)
    requires ValidRegistry(sys.reg) && ValidKey(c.key) && Enabled(sys, st, Consume(q)) && CellInv(sys, st, c)
    ensures CellInv(sys, Do(sys, st, Consume(q)), c)
  {
    hide ApplyRecord, CellRecord, ValidKey, ValidRegistry, Project;
    var o := CellOwner(c);
    var p := sys.part(o);
    var next := Do(sys, st, Consume(q));
    var rec := Stream(sys, st, q)[Next(st, q)];
    ApplyRecordCell(sys.reg, st.db, rec, c);
    assert Stream(sys, next, p) == Stream(sys, st, p);
    if p == q {
      var s := Since(sys, st, c);
      var s' := Since(sys, next, c);
      SliceNext(Stream(sys, st, p), WipedAt(st, c), Next(st, p));
      assert s' == s + [rec];
    } else {
      ProjectOwners(st.log, sys.part, q);
      assert rec in Stream(sys, st, q);
      ForeignRecord(sys.reg, rec, c, Lookup(st.db.z, c));
    }
  }

  lemma WipeCell(sys: Sys, st: State, w: Cell, c: Cell)
    requires ValidRegistry(sys.reg) && ValidKey(c.key) && Enabled(sys, st, Wipe(w)) && CellInv(sys, st, c)
    ensures CellInv(sys, Do(sys, st, Wipe(w)), c)
  {
    hide ValidKey, Project, CellRecord, Vacated;
    var next := Do(sys, st, Wipe(w));
    var p := sys.part(CellOwner(c));
    assert Stream(sys, next, p) == Stream(sys, st, p);
    assert Since(sys, next, c) == if w == c then [] else Since(sys, st, c);
  }

  /** In every run, a member's cached score is the fold of its log records between the consumer's
      position at the last wipe and its current position. */
  lemma {:induction false} CachedIsFold(sys: Sys, steps: seq<Step>, c: Cell)
    requires ValidRegistry(sys.reg) && ValidKey(c.key) && Run(sys, steps).Some?
    ensures CellInv(sys, Run(sys, steps).value, c)
  {
    hide CellInv, Enabled, Do, ValidKey, ValidRegistry;
    if steps == [] {
      InitCell(sys, c);
    } else {
      CachedIsFold(sys, steps[..|steps| - 1], c);
      CellStep(sys, Run(sys, steps[..|steps| - 1]).value, Last(steps), c);
    }
  }

  lemma InitCell(sys: Sys, c: Cell)
    ensures CellInv(sys, INIT, c)
  {
  }

  // ---------------------------------------------------------------- no resurrection

  lemma {:induction false} CellReplayConcat(reg: Registry, a: seq<Record>, b: seq<Record>, c: Cell, v: Option<real>)
    ensures CellReplay(reg, a + b, c, v) == CellReplay(reg, b, c, CellReplay(reg, a, c, v))
  {
    hide CellRecord;
    if b == [] {
      assert a + b == a;
    } else {
      assert (a + b)[..|a + b| - 1] == a + b[..|b| - 1];
      CellReplayConcat(reg, a, b[..|b| - 1], c, v);
    }
  }

  /** Once the in-order consumer is past a tombstone at position i, no submit before it contributes:
      the score is the fold of later records only. */
  lemma NeverResurrected(sys: Sys, steps: seq<Step>, c: Cell, i: nat)
    requires ValidRegistry(sys.reg) && ValidKey(c.key) && Run(sys, steps).Some?
    requires var st := Run(sys, steps).value;
             var s := Stream(sys, st, sys.part(CellOwner(c)));
             && i < Next(st, sys.part(CellOwner(c))) && i < |s|
             && s[i].tombstone && OwnerOf(s[i]) == CellOwner(c) && Resolve(sys.reg, s[i]).Some?
    ensures var st := Run(sys, steps).value;
            var p := sys.part(CellOwner(c));
            var from := if WipedAt(st, c) > i then WipedAt(st, c) else i + 1;
            && from <= Next(st, p) <= |Stream(sys, st, p)|
            && Lookup(st.db.z, c) == CellReplay(sys.reg, Stream(sys, st, p)[from..Next(st, p)], c, None)
  {
    hide Run, CellRecord, CellReplay, Project, ValidRegistry, ValidKey;
    CachedIsFold(sys, steps, c);
    var st := Run(sys, steps).value;
    var o := CellOwner(c);
    var p := sys.part(o);
    var s := Stream(sys, st, p);
    var w, n := WipedAt(st, c), Next(st, p);
    if w <= i {
      assert s[w..n] == s[w..i] + [s[i]] + s[i + 1..n];
      CellReplayConcat(sys.reg, s[w..i] + [s[i]], s[i + 1..n], c, None);
      CellReplayConcat(sys.reg, s[w..i], [s[i]], c, None);
      SingleReplay(sys.reg, s[i], c, CellReplay(sys.reg, s[w..i], c, None));
      TombstoneClears(sys.reg, s[i], c, CellReplay(sys.reg, s[w..i], c, None));
    }
  }

  lemma SingleReplay(reg: Registry, rec: Record, c: Cell, v: Option<real>)
    ensures CellReplay(reg, [rec], c, v) == CellRecord(reg, rec, c, v)
  {
    assert [rec][..0] == [];
  }

  // ---------------------------------------------------------------- repair after a wipe

  /** The submits wiped (`a`) and those consumed after the wipe (`b`): on a best board the cache
      agrees with the log again exactly when none of the wiped values beats those that came after. */
  lemma BestRepairedIff(a: seq<SubmitOp>, b: seq<SubmitOp>, c: Cell, cfg: Config)
    requires WithDefaults(cfg).policy.Best? && Uniform(a, c, cfg) && Uniform(b, c, cfg) && Values(b, c) != {}
    ensures CellOps(b, c, None) == CellOps(a + b, c, None)
            <==> forall x, y :: x in Values(a, c) && y in Values(b, c) && IsBest(IsAsc(cfg), Some(y), Values(b, c))
                                ==> !Better(IsAsc(cfg), x, y)
  {
    hide Hits, CellOps, Values;
    UniformConcat(a, b, c, cfg);
    ValuesConcat(a, b, c);
    BestFold(b, c, cfg);
    BestFold(a + b, c, cfg);
    var v := CellOps(b, c, None).value;
    var all := Values(a, c) + Values(b, c);
    if forall x :: x in Values(a, c) ==> !Better(IsAsc(cfg), x, v) {
      assert IsBest(IsAsc(cfg), Some(v), all);
      IsBestUnique(IsAsc(cfg), Some(v), CellOps(a + b, c, None), all);
    } else {
      var x :| x in Values(a, c) && Better(IsAsc(cfg), x, v);
      assert x in all;
    }
    forall y | y in Values(b, c) && IsBest(IsAsc(cfg), Some(y), Values(b, c))
      ensures y == v
    {
      IsBestUnique(IsAsc(cfg), Some(y), Some(v), Values(b, c));
    }
  }

  /** On an increment board it agrees again exactly when the wiped scores add up to nothing. */
  lemma IncrementRepairedIff(a: seq<SubmitOp>, b: seq<SubmitOp>, c: Cell, cfg: Config)
    requires WithDefaults(cfg).policy.Increment? && Uniform(a, c, cfg) && Uniform(b, c, cfg) && Values(b, c) != {}
    ensures CellOps(b, c, None) == CellOps(a + b, c, None) <==> ScoreSum(a, c) == 0.0
  {
    hide Hits, CellOps, Values;
    UniformConcat(a, b, c, cfg);
    ValuesConcat(a, b, c);
    IncrementFold(b, c, cfg);
    IncrementFold(a + b, c, cfg);
    SumConcat(a, b, c);
  }

  /** On a last board the next submit always repairs it. */
  lemma LastRepaired(a: seq<SubmitOp>, b: seq<SubmitOp>, c: Cell, cfg: Config)
    requires WithDefaults(cfg).policy.LastWins? && Uniform(a, c, cfg) && Uniform(b, c, cfg) && Values(b, c) != {}
    ensures CellOps(b, c, None) == CellOps(a + b, c, None)
  {
    hide Hits, CellOps, Values;
    UniformConcat(a, b, c, cfg);
    LastFold(b, c, cfg);
    LastFold(a + b, c, cfg);
    LastConcat(a, b, c);
  }

  lemma UniformConcat(a: seq<SubmitOp>, b: seq<SubmitOp>, c: Cell, cfg: Config)
    requires Uniform(a, c, cfg) && Uniform(b, c, cfg)
    ensures Uniform(a + b, c, cfg)
  {
    hide Hits;
  }

  lemma ValuesConcat(a: seq<SubmitOp>, b: seq<SubmitOp>, c: Cell)
    ensures Values(a + b, c) == Values(a, c) + Values(b, c)
  {
    hide CheckOp, CellOf;
    var ab := a + b;
    forall v | v in Values(a, c) + Values(b, c)
      ensures v in Values(ab, c)
    {
      if v in Values(a, c) {
        var i :| 0 <= i < |a| && Hits(a[i], c) && ValueOf(a[i]) == v;
        assert ab[i] == a[i];
      } else {
        var i :| 0 <= i < |b| && Hits(b[i], c) && ValueOf(b[i]) == v;
        assert ab[|a| + i] == b[i];
      }
    }
  }

  lemma {:induction false} SumConcat(a: seq<SubmitOp>, b: seq<SubmitOp>, c: Cell)
    ensures ScoreSum(a + b, c) == ScoreSum(a, c) + ScoreSum(b, c)
  {
    hide Hits;
    if b == [] {
      assert a + b == a;
    } else {
      assert (a + b)[..|a + b| - 1] == a + b[..|b| - 1];
      SumConcat(a, b[..|b| - 1], c);
    }
  }

  lemma {:induction false} LastConcat(a: seq<SubmitOp>, b: seq<SubmitOp>, c: Cell)
    requires Values(b, c) != {}
    ensures LastValue(a + b, c) == LastValue(b, c)
  {
    hide CheckOp, CellOf, Values;
    if b == [] {
      NoValues(c);
    } else {
      ValuesSnoc(b, c);
      assert (a + b)[..|a + b| - 1] == a + b[..|b| - 1] && Last(a + b) == Last(b);
      if !Hits(Last(b), c) {
        LastConcat(a, b[..|b| - 1], c);
      }
    }
  }
}
