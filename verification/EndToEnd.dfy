/** The components together: a log consumed in any interleaving by the sharded engine, against the
    single set that receives the records one by one in append order (pkg/ingest/consumer.go:54-121,
    pkg/engine/sharded_engine.go:50-285). */
module EndToEnd {
  import opened Basics
  import opened Boards
  import opened Keys
  import opened Ranking
  import opened Store
  import opened Sharding
  import opened ShardedEngines
  import opened Ingest
  import opened Consumers

  /** What a record asks of the engine. */
  function CommandOf(reg: Registry, rec: Record): Cmd {
    match Resolve(reg, rec)
    case None => SubmitAll([])
    case Some(lb) =>
      if rec.tombstone then RemoveEverywhere(lb.app, lb.board, lb.cfg, rec.member) else SubmitAll(OpsOf(lb, rec))
  }

  function Commands(reg: Registry, recs: seq<Record>): seq<Cmd> {
    seq(|recs|, i requires 0 <= i < |recs| => CommandOf(reg, recs[i]))
  }

  lemma CommandIsRecord(reg: Registry, db: Db, rec: Record)
    requires RecordOk(reg, rec)
    ensures Exec(db, CommandOf(reg, rec)) == ApplyRecord(reg, db, rec)
  {
    hide OpsOf, AllOk, RemoveAll;
  }

  lemma CommandWellFormed(reg: Registry, rec: Record, other: Config)
    requires ValidRegistry(reg)
    ensures WellFormed(CommandOf(reg, rec), ConfigOf(reg, other))
  {
    hide OpsOf, ColonFree;
    if Resolve(reg, rec).Some? && !rec.tombstone {
      var lb := Resolve(reg, rec).value;
      forall i | 0 <= i < |OpsOf(lb, rec)| {
        OpsOfMember(lb, rec, i);
      }
    }
  }

  lemma {:induction false} RunIsReplay(reg: Registry, db: Db, recs: seq<Record>)
    requires AllRecordsOk(reg, recs)
    ensures Run(db, Commands(reg, recs)) == Replay(reg, db, recs)
  {
    hide RecordOk, CommandOf, Exec, ApplyRecord;
    if recs != [] {
      var front := recs[..|recs| - 1];
      assert Commands(reg, recs)[..|recs| - 1] == Commands(reg, front);
      RunIsReplay(reg, db, front);
      CommandIsRecord(reg, Replay(reg, db, front), Last(recs));
    }
  }

  lemma {:induction false} ProjectHolds(recs: seq<Record>, part: Owner -> nat, p: nat, rec: Record)
    ensures rec in Project(recs, part, p) <==> rec in recs && part(OwnerOf(rec)) == p
  {
    if recs != [] {
      assert recs == recs[..|recs| - 1] + [Last(recs)];
      ProjectHolds(recs[..|recs| - 1], part, p, rec);
    }
  }

  /** An interleaving holds the log's records, so it is as well formed as the log. */
  lemma InterleavedOk(reg: Registry, log: seq<Record>, s: seq<Record>, part: Owner -> nat)
    requires AllRecordsOk(reg, log) && Interleaves(s, log, part)
    ensures AllRecordsOk(reg, s)
  {
    hide RecordOk, Project;
    forall i | 0 <= i < |s|
      ensures RecordOk(reg, s[i])
    {
      var p := part(OwnerOf(s[i]));
      ProjectHolds(s, part, p, s[i]);
      ProjectHolds(log, part, p, s[i]);
    }
  }

  /** Whatever order the partitions are consumed in, and however many shards there are, the sharded
      engine ends in step with the single set that saw the records in append order: every read that
      agrees on related states gives the answer of that set. */
  lemma ShardedConsumption(
    L: Layout, reg: Registry, log: seq<Record>, s: seq<Record>, part: Owner -> nat, other: Config)
    requires L.Valid() && ValidRegistry(reg) && AllRecordsOk(reg, log) && Interleaves(s, log, part)
    ensures Refines(L, ConfigOf(reg, other), Replay(reg, EMPTY, log), RunSharded(L, EMPTY, Commands(reg, s)))
  {
    hide Replay, Run, RunSharded, Inv, Rel, AllRecordsOk, ValidRegistry, CommandOf, WellFormed, ConfigOf, Interleaves;
    var cfgs := ConfigOf(reg, other);
    forall i | 0 <= i < |s| {
      CommandWellFormed(reg, s[i], other);
    }
    RunRefines(L, cfgs, Commands(reg, s));
    InterleavedOk(reg, log, s, part);
    RunIsReplay(reg, EMPTY, s);
    EmptyInv(cfgs);
    Confluence(reg, EMPTY, log, s, part, other);
    ReplayKeeps(reg, EMPTY, log, other);
  }

  /** Joining two valid batches into one changes neither engine's result. */
  lemma BatchesJoin(L: Layout, db: Db, a: seq<SubmitOp>, b: seq<SubmitOp>)
    requires L.Valid() && AllOk(a) && AllOk(b) && forall i :: 0 <= i < |a + b| ==> (a + b)[i].key.board != ""
    ensures Exec(db, SubmitAll(a + b)) == Exec(Exec(db, SubmitAll(a)), SubmitAll(b))
    ensures ExecSharded(L, db, SubmitAll(a + b)) == ExecSharded(L, ExecSharded(L, db, SubmitAll(a)), SubmitAll(b))
  {
    hide CheckOp, RunOps, Rel;
    RunOpsConcat(db, a, b);
    var ra, rb := L.RouteOps(a), L.RouteOps(b);
    assert L.RouteOps(a + b) == ra + rb;
    RunOpsConcat(db, ra, rb);
    forall i | 0 <= i < |a|
      ensures CheckOp(ra[i]).Ok?
    {
      assert (a + b)[i] == a[i];
      CheckRouted(L, a[i]);
    }
    forall i | 0 <= i < |b|
      ensures CheckOp(rb[i]).Ok?
    {
      assert (a + b)[|a| + i] == b[i];
      CheckRouted(L, b[i]);
    }
  }

  /** Bucket counters of board k added up over the shards. */
  ghost function ShardCounts(L: Layout, h: map<Bin, int>, k: BoardKey, n: nat): (r: seq<int>)
    ensures |r| == n
  {
    seq(n, j => ShardSum(h, k, j, L.shards))
  }

  /** After every sequence of batches, removals and resets, and over any number of shards: the rank
      estimated from the summed histograms is at most the exact rank on the single set, and short of
      it by less than the population of the member's bucket. */
  lemma RunApproxBound(L: Layout, cfgs: BoardKey -> Config, cmds: seq<Cmd>, k: BoardKey, member: string)
    requires L.Valid() && forall i :: 0 <= i < |cmds| ==> WellFormed(cmds[i], cfgs)
    requires IsApprox(cfgs(k)) && ValidConfig(cfgs(k)) && Cell(k, member) in Run(EMPTY, cmds).z
    ensures var z, cfg := Run(EMPTY, cmds).z, cfgs(k);
            var b := BucketOf(cfg, z[Cell(k, member)]);
            var counts := ShardCounts(L, RunSharded(L, EMPTY, cmds).h, k, BucketCount(cfg));
            var exact := ZRank(z, k, IsAsc(cfg), member).value + 1;
            0 <= exact - ApproxRank(counts, b, IsAsc(cfg)) < Population(z, k, cfg, b)
  {
    hide Run, RunSharded, Rel, Inv, WellFormed, BucketOf, ShardSum, HGet, ApproxRank, Population, BucketCount;
    var db, sdb, cfg := Run(EMPTY, cmds), RunSharded(L, EMPTY, cmds), cfgs(k);
    RunRefines(L, cfgs, cmds);
    ApproxBound(db, cfgs, k, member);
    var n := BucketCount(cfg);
    forall j | 0 <= j < n {
      ShardSumIsCount(L, cfgs, db, sdb, k, j);
    }
    assert ShardCounts(L, sdb.h, k, n) == Counts(db.h, k, n);
  }
}
