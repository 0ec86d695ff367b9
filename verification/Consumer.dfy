/** The append log and the pull consumer (pkg/ingest/memlog.go, pkg/ingest/log.go,
    pkg/ingest/consumer.go). A log has any number of partitions; record ids are the in-memory log's
    zero-padded positions, one numbering per partition. */
module Consumers {
  import opened Basics
  import opened Boards
  import opened Engine
  import opened Ingest
  import opened Readback
  import opened Store

  function IdAt(pos: nat): string { Pad(12, Itoa(pos + 1)) }

  /** The position a cursor stands for: the number of records before it. */
  function CursorPos(cursor: string): Option<int> {
    if cursor == "" then Some(0) else Atoi(cursor)
  }

  lemma CursorOfId(pos: nat)
    ensures CursorPos(IdAt(pos)) == Some(pos + 1)
  {
    AtoiPad(12, pos + 1);
  }

  lemma NoCursor()
    ensures CursorPos("") == Some(0)
  {
  }

  class Log {
    const partitions: nat
    const part: Owner -> nat
    var streams: seq<seq<Record>>
    ghost var all: seq<Record>

    /** Each stream is the partition's share of the append order, with position ids. */
    ghost predicate Valid()
      reads this
    {
      && partitions > 0 && |streams| == partitions
      && (forall o :: part(o) < partitions)
      && (forall p :: 0 <= p < partitions ==> streams[p] == Project(all, part, p))
      && (forall p, i :: 0 <= p < partitions && 0 <= i < |streams[p]| ==> streams[p][i].id == IdAt(i))
    }

    /** partitionOf routes through any hash of (app, board, member). */
    constructor (partitions: int, hash: Owner -> nat)
      ensures Valid() && all == []
    {
      var n: nat := if partitions < 1 then 1 else partitions;
      this.partitions := n;
      this.part := (o: Owner) => hash(o) % n;
      this.streams := seq(n, i => []);
      this.all := [];
    }

    method Append(rec: Record) returns (id: string)
      requires Valid()
      modifies this
      ensures Valid()
      ensures all == old(all) + [rec.(id := id)]
      ensures id == IdAt(|old(streams)[part(OwnerOf(rec))]|)
    {
      hide IdAt;
      var p := part(OwnerOf(rec));
      id := IdAt(|streams[p]|);
      var stored := rec.(id := id);
      assert OwnerOf(stored) == OwnerOf(rec);
      streams := streams[p := streams[p] + [stored]];
      all := all + [stored];
      forall q | 0 <= q < partitions
        ensures streams[q] == Project(all, part, q)
      {
        assert all[..|all| - 1] == old(all);
      }
    }

    /** ReadPartition: up to max records after the cursor (max <= 0: all of them). */
    method ReadPartition(p: int, after: string, max: int) returns (recs: Option<seq<Record>>)
      requires Valid()
      ensures recs.None? <==> !(0 <= p < partitions) || CursorPos(after).None? || CursorPos(after).value < 0
      ensures recs.Some? ==>
        var n := |streams[p]|;
        var start := if CursorPos(after).value > n then n else CursorPos(after).value;
        var end := if 0 < max && start + max < n then start + max else n;
        recs.value == streams[p][start..end]
    {
      hide Project, IdAt, Atoi;
      if p < 0 || p >= partitions {
        return None;
      }
      var start := 0;
      if after != "" {
        var n := Atoi(after);
        if n.None? {
          return None;
        }
        start := n.value;
      }
      if start > |streams[p]| {
        start := |streams[p]|;
      }
      if start < 0 {
        return None; // the slice expression of the code panics on a negative cursor
      }
      var end := |streams[p]|;
      if max > 0 && start + max < end {
        end := start + max;
      }
      return Some(streams[p][start..end]);
    }
  }

  // ---------------------------------------------------------------- applying a batch

  predicate AllRecordsOk(reg: Registry, recs: seq<Record>) {
    forall i :: 0 <= i < |recs| ==> RecordOk(reg, recs[i])
  }

  function PendingOps(reg: Registry, recs: seq<Record>): seq<SubmitOp> {
    if recs == [] then []
    else
      var front := PendingOps(reg, recs[..|recs| - 1]);
      match Resolve(reg, Last(recs))
      case None => front
      case Some(lb) => if Last(recs).tombstone then front else front + OpsOf(lb, Last(recs))
  }

  predicate NoTombstone(reg: Registry, recs: seq<Record>) {
    forall i :: 0 <= i < |recs| ==> !(recs[i].tombstone && Resolve(reg, recs[i]).Some?)
  }

  /** A run of submits replays as one batch, and the batch is good when each record is. */
  lemma {:induction false} PendingIsReplay(reg: Registry, db: Db, recs: seq<Record>)
    requires NoTombstone(reg, recs)
    ensures Replay(reg, db, recs) == RunOps(db, PendingOps(reg, recs))
    ensures AllOk(PendingOps(reg, recs)) <==> AllRecordsOk(reg, recs)
    ensures ValidRegistry(reg) ==> HoldsLog(reg, recs, RunOps(EMPTY, PendingOps(reg, recs)).z)
    decreases |recs|, db != EMPTY
  {
    hide OpsOf, CheckOp, RunOps, HoldsLog, ValidRegistry, EMPTY;
    if ValidRegistry(reg) {
      ReplayHolds(reg, recs);
    }
    if db != EMPTY {
      PendingIsReplay(reg, EMPTY, recs);
    }
    if recs == [] {
      NoOps(db, []);
    } else {
      var front := recs[..|recs| - 1];
      PendingIsReplay(reg, db, front);
      assert !(Last(recs).tombstone && Resolve(reg, Last(recs)).Some?);
      assert forall i :: 0 <= i < |recs| ==> recs[i] == if i < |front| then front[i] else Last(recs);
      assert AllRecordsOk(reg, recs) <==> AllRecordsOk(reg, front) && RecordOk(reg, Last(recs));
      match Resolve(reg, Last(recs))
      case None =>
      case Some(lb) =>
        RunOpsConcat(db, PendingOps(reg, front), OpsOf(lb, Last(recs)));
        AllOkConcat(PendingOps(reg, front), OpsOf(lb, Last(recs)));
    }
  }

  lemma AllOkConcat(a: seq<SubmitOp>, b: seq<SubmitOp>)
    ensures AllOk(a + b) <==> AllOk(a) && AllOk(b)
  {
    hide CheckOp;
    if AllOk(a + b) {
      forall i | 0 <= i < |b|
        ensures CheckOp(b[i]).Ok?
      {
        assert (a + b)[|a| + i] == b[i];
      }
      forall i | 0 <= i < |a|
        ensures CheckOp(a[i]).Ok?
      {
        assert (a + b)[i] == a[i];
      }
    }
  }

  /** applyRecords: consecutive submits go out as one batch and a tombstone flushes it first. The
      records before `flushed` are applied exactly as if handled singly; on an error that is
      everything up to the tombstone before the first bad record. */
  method ApplyRecords(eng: RedisEngine, reg: Registry, recs: seq<Record>) returns (err: Option<Error>, ghost flushed: nat)
    requires ValidRegistry(reg) && KeysValid(eng.db.z)
    modifies eng
    ensures KeysValid(eng.db.z)
    ensures flushed <= |recs| && eng.db == Replay(reg, old(eng.db), recs[..flushed])
    ensures err.None? <==> AllRecordsOk(reg, recs)
    ensures err.None? ==> flushed == |recs|
    ensures err.Some? ==> flushed == 0 || recs[flushed - 1].tombstone
    ensures err.Some? ==> AllRecordsOk(reg, recs[..flushed])
    ensures old(eng.db) == EMPTY ==> HoldsLog(reg, recs[..flushed], eng.db.z)
  {
    hide OpsOf, AllRecordsOk, NoTombstone, PendingOps, ValidRegistry, KeysValid, RemoveAll, Replay, HoldsLog, EMPTY;
    ghost var start := eng.db;
    forall n | 0 <= n <= |recs|
      ensures HoldsLog(reg, recs[..n], Replay(reg, EMPTY, recs[..n]).z)
    {
      ReplayHolds(reg, recs[..n]);
    }
    var ops: seq<SubmitOp> := [];
    flushed := 0;
    ReplayNone(reg, start, recs);
    for i := 0 to |recs|
      invariant flushed <= i && KeysValid(eng.db.z)
      invariant eng.db == Replay(reg, start, recs[..flushed])
      invariant ops == PendingOps(reg, recs[flushed..i]) && NoTombstone(reg, recs[flushed..i])
      invariant AllRecordsOk(reg, recs[..flushed])
      invariant flushed == 0 || recs[flushed - 1].tombstone
    {
      var lb := Resolve(reg, recs[i]);
      if lb.Some? && recs[i].tombstone {
        var e := Flush(eng, reg, ops, recs[flushed..i]);
        if e.Some? {
          BadRecord(reg, recs, flushed, i);
          return e, flushed;
        }
        ReplaySlice(reg, start, recs, flushed, i);
        eng.RemoveFromAll(lb.value.app, lb.value.board, lb.value.cfg, recs[i].member);
        ReplayStep(reg, start, recs, i);
        TombstoneOk(reg, recs, flushed, i);
        ops := [];
        flushed := i + 1;
      } else {
        PendingStep(reg, recs, flushed, i);
        if lb.Some? {
          ops := ops + OpsOf(lb.value, recs[i]);
        }
      }
    }
    var e := Flush(eng, reg, ops, recs[flushed..|recs|]);
    if e.Some? {
      BadRecord(reg, recs, flushed, |recs|);
      return e, flushed;
    }
    ReplaySlice(reg, start, recs, flushed, |recs|);
    AllOkSplit(reg, recs, flushed, |recs|);
    assert recs[..|recs|] == recs;
    return None, |recs|;
  }

  method Flush(eng: RedisEngine, reg: Registry, ops: seq<SubmitOp>, ghost recs: seq<Record>) returns (err: Option<Error>)
    requires ops == PendingOps(reg, recs) && NoTombstone(reg, recs) && KeysValid(eng.db.z)
    modifies eng
    ensures KeysValid(eng.db.z)
    ensures err.None? <==> AllRecordsOk(reg, recs)
    ensures eng.db == if err.None? then Replay(reg, old(eng.db), recs) else old(eng.db)
  {
    hide OpsOf, CheckOp, RunOps, RecordOk, PendingOps, NoTombstone, Replay;
    PendingIsReplay(reg, eng.db, recs);
    RunOpsKeysValid(eng.db, ops);
    if ops == [] {
      NoOps(eng.db, ops);
      return None;
    }
    var res := eng.SubmitBatch(ops);
    err := if res.Err? then Some(res.error) else None;
  }

  lemma {:induction false} RunOpsKeysValid(db: Db, ops: seq<SubmitOp>)
    requires KeysValid(db.z)
    ensures KeysValid(RunOps(db, ops).z)
  {
    hide NewValue, Moved, ValidConfig;
    if ops != [] {
      RunOpsKeysValid(db, ops[..|ops| - 1]);
    }
  }

  lemma ReplayNone(reg: Registry, db: Db, recs: seq<Record>)
    ensures Replay(reg, db, recs[..0]) == db
    ensures PendingOps(reg, recs[0..0]) == [] && NoTombstone(reg, recs[0..0]) && AllRecordsOk(reg, recs[..0])
  {
  }

  lemma PendingStep(reg: Registry, recs: seq<Record>, a: nat, i: nat)
    requires a <= i < |recs| && NoTombstone(reg, recs[a..i])
    requires !(recs[i].tombstone && Resolve(reg, recs[i]).Some?)
    ensures NoTombstone(reg, recs[a..i + 1])
    ensures PendingOps(reg, recs[a..i + 1])
            == PendingOps(reg, recs[a..i])
               + match Resolve(reg, recs[i]) case None => [] case Some(lb) => OpsOf(lb, recs[i])
  {
    hide OpsOf;
    var next := recs[a..i + 1];
    assert next[..i - a] == recs[a..i] && Last(next) == recs[i];
    assert forall j :: 0 <= j < i - a ==> next[j] == recs[a..i][j];
  }

  lemma ReplaySlice(reg: Registry, db: Db, recs: seq<Record>, a: nat, i: nat)
    requires a <= i <= |recs|
    ensures Replay(reg, Replay(reg, db, recs[..a]), recs[a..i]) == Replay(reg, db, recs[..i])
  {
    hide Replay;
    assert recs[..a] + recs[a..i] == recs[..i];
    ReplayConcat(reg, db, recs[..a], recs[a..i]);
  }

  lemma ReplayStep(reg: Registry, db: Db, recs: seq<Record>, i: nat)
    requires i < |recs| && Resolve(reg, recs[i]).Some? && recs[i].tombstone
    ensures var lb := Resolve(reg, recs[i]).value;
            Replay(reg, db, recs[..i + 1])
            == RemoveAll(Replay(reg, db, recs[..i]), lb.app, lb.board, lb.cfg, recs[i].member)
  {
    hide RemoveAll;
    assert recs[..i + 1][..i] == recs[..i];
  }

  lemma AllOkSplit(reg: Registry, recs: seq<Record>, a: nat, i: nat)
    requires a <= i <= |recs|
    ensures AllRecordsOk(reg, recs[..i]) <==> AllRecordsOk(reg, recs[..a]) && AllRecordsOk(reg, recs[a..i])
  {
    hide RecordOk;
    var x, y := recs[..a], recs[a..i];
    assert recs[..i] == x + y;
    forall j | 0 <= j < |y|
      ensures recs[..i][a + j] == y[j]
    {
    }
    if AllRecordsOk(reg, recs[..i]) {
      forall j | 0 <= j < |x|
        ensures RecordOk(reg, x[j])
      {
        assert recs[..i][j] == x[j];
      }
    }
  }

  lemma BadRecord(reg: Registry, recs: seq<Record>, a: nat, i: nat)
    requires a <= i <= |recs| && !AllRecordsOk(reg, recs[a..i])
    ensures !AllRecordsOk(reg, recs)
  {
    hide RecordOk;
    AllOkSplit(reg, recs, a, i);
    AllOkSplit(reg, recs, i, |recs|);
    assert recs[..|recs|] == recs;
  }

  lemma TombstoneOk(reg: Registry, recs: seq<Record>, a: nat, i: nat)
    requires a <= i < |recs| && recs[i].tombstone
    requires AllRecordsOk(reg, recs[..a]) && AllRecordsOk(reg, recs[a..i])
    ensures AllRecordsOk(reg, recs[..i + 1])
    ensures NoTombstone(reg, recs[i + 1..i + 1]) && PendingOps(reg, recs[i + 1..i + 1]) == []
  {
    AllOkSplit(reg, recs, a, i);
    AllOkSplit(reg, recs, i, i + 1);
    assert recs[i..i + 1] == [recs[i]];
  }

  // ---------------------------------------------------------------- the consumer

  class Consumer {
    const log: Log
    const reg: Registry
    const eng: RedisEngine
    const batch: nat
    var cursors: map<nat, string>
    ghost const start: Db
    /** The records applied so far, in the order they were applied. */
    ghost var applied: seq<Record>

    ghost function Pos(p: nat): int
      reads this
    {
      if p in cursors && CursorPos(cursors[p]).Some? then CursorPos(cursors[p]).value else 0
    }

    ghost predicate Valid()
      reads this, log, eng
    {
      && log.Valid() && ValidRegistry(reg) && batch > 0
      && KeysValid(eng.db.z) && eng.db == Replay(reg, start, applied)
      && Positioned()
    }

    /** Of every partition the records before its cursor are applied. */
    ghost predicate Positioned()
      requires log.Valid()
      reads this, log
    {
      && (forall p :: p in cursors ==> CursorPos(cursors[p]).Some?)
      && (forall p :: 0 <= p < log.partitions ==>
            0 <= Pos(p) <= |log.streams[p]| && Project(applied, log.part, p) == log.streams[p][..Pos(p)])
    }

    constructor (log: Log, reg: Registry, eng: RedisEngine, batch: nat)
      requires log.Valid() && ValidRegistry(reg) && KeysValid(eng.db.z) && batch > 0
      ensures Valid() && this.log == log && this.reg == reg && this.eng == eng && start == eng.db && applied == []
    {
      this.log, this.reg, this.eng, this.batch := log, reg, eng, batch;
      cursors := map[];
      start, applied := eng.db, [];
    }

    /** Records beyond the cursors. */
    ghost function Remaining(): nat
      requires Valid()
      reads this, log, eng
    {
      BacklogCounts(log.streams, Positions(), log.partitions);
      Backlog(log.streams, Positions(), log.partitions)
    }

    ghost function Positions(): (ps: seq<int>)
      reads this
      ensures |ps| == log.partitions && forall p :: 0 <= p < log.partitions ==> ps[p] == Pos(p)
    {
      seq(log.partitions, p requires 0 <= p reads this => Pos(p))
    }

    /** The next batch beyond a partition's cursor. */
    method Fetch(p: nat) returns (recs: seq<Record>)
      requires Valid() && p < log.partitions
      ensures |recs| == if Pos(p) + batch < |log.streams[p]| then batch else |log.streams[p]| - Pos(p)
      ensures recs == log.streams[p][Pos(p)..Pos(p) + |recs|]
    {
      hide Replay, KeysValid, ValidRegistry, IdAt, CursorPos, Project;
      var cur := if p in cursors then cursors[p] else "";
      NoCursor();
      var read := log.ReadPartition(p, cur, batch);
      recs := read.value;
    }

    /** The m records of a stream from position `from` on are applied. */
    ghost predicate PartlyApplied(before: Db, after: Db, stream: seq<Record>, from: int, m: nat) {
      0 <= from && from + m <= |stream| && after == Replay(reg, before, stream[from..from + m])
    }

    /** One partition's turn of Step. */
    method StepPartition(p: nat) returns (n: nat, err: Option<Error>)
      requires Valid() && p < log.partitions
      modifies this`cursors, this`applied, eng
      ensures err.None? ==> Valid()
      ensures AllRecordsOk(reg, log.streams[p]) ==> err.None?
      ensures err.None? ==>
        && Pos(p) == old(Pos(p)) + n
        && (forall q :: 0 <= q < log.partitions && q != p ==> Pos(q) == old(Pos(q)))
        && n == (if old(Pos(p)) + batch < |log.streams[p]| then batch else |log.streams[p]| - old(Pos(p)))
        && applied == old(applied) + log.streams[p][old(Pos(p))..old(Pos(p)) + n]
      ensures err.Some? ==>
        && cursors == old(cursors) && applied == old(applied)
        && exists m: nat :: PartlyApplied(old(eng.db), eng.db, log.streams[p], old(Pos(p)), m)
    {
      hide Replay, KeysValid, ValidRegistry, AllRecordsOk, IdAt, CursorPos, Project;
      assert 0 <= Pos(p) <= |log.streams[p]|;
      var recs := Fetch(p);
      n := |recs|;
      if n == 0 {
        return n, None;
      }
      ghost var from := Pos(p);
      ghost var flushed;
      err, flushed := ApplyRecords(eng, reg, recs);
      SliceOk(reg, log.streams[p], from, n);
      if err.Some? {
        SlicePrefix(log.streams[p], from, n, flushed);
        assert PartlyApplied(old(eng.db), eng.db, log.streams[p], from, flushed);
        return 0, err;
      }
      assert recs[..n] == recs;
      ReplayConcat(reg, start, applied, recs);
      MoveCursor(p, recs);
    }

    /** The cursor moves past a batch that was applied. */
    method MoveCursor(p: nat, recs: seq<Record>)
      requires log.Valid() && Positioned() && p < log.partitions && recs != []
      requires Pos(p) + |recs| <= |log.streams[p]| && recs == log.streams[p][Pos(p)..Pos(p) + |recs|]
      modifies this`cursors, this`applied
      ensures Positioned() && applied == old(applied) + recs
      ensures Pos(p) == old(Pos(p)) + |recs|
      ensures forall q :: 0 <= q < log.partitions && q != p ==> Pos(q) == old(Pos(q))
    {
      hide IdAt, CursorPos, Project;
      ghost var from, n := Pos(p), |recs|;
      assert Last(recs) == log.streams[p][from + n - 1];
      cursors := cursors[p := Last(recs).id];
      CursorOfId(from + n - 1);
      Advance(applied, log.all, log.part, p, from, n);
      applied := applied + recs;
    }

    /** Step: one batch from every partition in turn. */
    method Step() returns (total: nat, err: Option<Error>)
      requires Valid()
      modifies this`cursors, this`applied, eng
      ensures err.None? ==> Valid() && Remaining() + total == old(Remaining())
      ensures err.None? && total == 0 ==> Remaining() == 0
      ensures AllStreamsOk() ==> err.None?
    {
      hide Replay, KeysValid, ValidRegistry, RecordOk, IdAt, CursorPos;
      total := 0;
      for p := 0 to log.partitions
        invariant Valid()
        invariant Remaining() + total == old(Remaining())
        invariant total == 0 ==> forall q :: 0 <= q < p ==> Pos(q) == |log.streams[q]|
      {
        ghost var before := Positions();
        var n;
        n, err := StepPartition(p);
        if err.Some? {
          return total, err;
        }
        BacklogStep(log.streams, before, Positions(), p, log.partitions);
        total := total + n;
      }
      BacklogCounts(log.streams, Positions(), log.partitions);
      err := None;
    }

    ghost predicate AllStreamsOk()
      reads this, log
    {
      forall p :: 0 <= p < |log.streams| ==> AllRecordsOk(reg, log.streams[p])
    }

    /** Drain terminates with every record applied exactly once, in an interleaving of the log, and
        so with the scores and histograms of the append order. */
    method Drain(ghost other: Config) returns (err: Option<Error>)
      requires Valid() && Inv(start, ConfigOf(reg, other))
      modifies this`cursors, this`applied, eng
      ensures AllStreamsOk() ==> err.None?
      ensures err.None? ==>
        && Valid() && Interleaves(applied, log.all, log.part)
        && eng.db.z == Replay(reg, start, log.all).z
        && forall f :: HGet(eng.db.h, f) == HGet(Replay(reg, start, log.all).h, f)
    {
      hide Replay, KeysValid, ValidRegistry, RecordOk, IdAt, CursorPos, Inv, HGet, Pos, Project;
      while true
        invariant Valid()
        decreases Remaining()
      {
        var n;
        n, err := Step();
        if err.Some? {
          return;
        }
        if n == 0 {
          break;
        }
      }
      BacklogCounts(log.streams, Positions(), log.partitions);
      DrainedInterleaves();
      Confluence(reg, start, log.all, applied, log.part, other);
    }

    lemma DrainedInterleaves()
      requires Valid() && forall q :: 0 <= q < log.partitions ==> Pos(q) == |log.streams[q]|
      ensures Interleaves(applied, log.all, log.part)
    {
      hide Replay, KeysValid, IdAt, CursorPos, Pos;
      forall p: nat
        ensures Project(applied, log.part, p) == Project(log.all, log.part, p)
      {
        if p < log.partitions {
          assert log.streams[p][..|log.streams[p]|] == log.streams[p];
        } else {
          ProjectNone(applied, log.part, p, log.partitions);
          ProjectNone(log.all, log.part, p, log.partitions);
        }
      }
    }
  }

  /** Rebuild: a fresh consumer drained into an empty engine gives the replay of the whole log. */
  method Rebuild(log: Log, reg: Registry, ghost other: Config) returns (eng: RedisEngine, err: Option<Error>)
    requires log.Valid() && ValidRegistry(reg)
    ensures log.Valid() && fresh(eng)
    ensures (forall p :: 0 <= p < |log.streams| ==> AllRecordsOk(reg, log.streams[p])) ==> err.None?
    ensures err.None? ==>
      && eng.db.z == Replay(reg, EMPTY, log.all).z
      && (forall f :: HGet(eng.db.h, f) == HGet(Replay(reg, EMPTY, log.all).h, f))
      && HoldsLog(reg, log.all, eng.db.z)
  {
    hide Replay, ValidRegistry, RecordOk, HGet, HoldsLog;
    ReplayHolds(reg, log.all);
    eng := new RedisEngine();
    EmptyInv(ConfigOf(reg, other));
    var c := new Consumer(log, reg, eng, 256);
    err := c.Drain(other);
  }

  /** Records beyond the positions in the first n partitions. */
  ghost function Backlog(streams: seq<seq<Record>>, pos: seq<int>, n: nat): int
    requires n <= |streams| && n <= |pos|
  {
    if n == 0 then 0 else Backlog(streams, pos, n - 1) + |streams[n - 1]| - pos[n - 1]
  }

  lemma {:induction false} BacklogCounts(streams: seq<seq<Record>>, pos: seq<int>, n: nat)
    requires n <= |streams| && n <= |pos| && forall q :: 0 <= q < n ==> pos[q] <= |streams[q]|
    ensures Backlog(streams, pos, n) >= 0
    ensures Backlog(streams, pos, n) == 0 <==> forall q :: 0 <= q < n ==> pos[q] == |streams[q]|
  {
    if n > 0 {
      BacklogCounts(streams, pos, n - 1);
    }
  }

  lemma {:induction false} BacklogStep(streams: seq<seq<Record>>, a: seq<int>, b: seq<int>, p: nat, n: nat)
    requires n <= |streams| && p < |a| && n <= |a| && |b| == |a|
    requires forall q :: 0 <= q < |a| && q != p ==> b[q] == a[q]
    ensures Backlog(streams, b, n) == Backlog(streams, a, n) - if p < n then b[p] - a[p] else 0
  {
    if n > 0 {
      BacklogStep(streams, a, b, p, n - 1);
    }
  }

  lemma SlicePrefix(s: seq<Record>, from: nat, n: nat, m: nat)
    requires m <= n && from + n <= |s|
    ensures s[from..from + n][..m] == s[from..from + m]
  {
  }

  lemma SliceOk(reg: Registry, stream: seq<Record>, from: nat, n: nat)
    requires from + n <= |stream|
    ensures AllRecordsOk(reg, stream) ==> AllRecordsOk(reg, stream[from..from + n])
  {
    hide RecordOk;
  }

  // ---------------------------------------------------------------- projections

  lemma {:induction false} ProjectConcat(a: seq<Record>, b: seq<Record>, part: Owner -> nat, p: nat)
    ensures Project(a + b, part, p) == Project(a, part, p) + Project(b, part, p)
  {
    if b == [] {
      assert a + b == a;
    } else {
      assert (a + b)[..|a + b| - 1] == a + b[..|b| - 1];
      ProjectConcat(a, b[..|b| - 1], part, p);
    }
  }

  lemma {:induction false} ProjectOwners(recs: seq<Record>, part: Owner -> nat, p: nat)
    ensures forall r :: r in Project(recs, part, p) ==> part(OwnerOf(r)) == p
  {
    if recs != [] {
      ProjectOwners(recs[..|recs| - 1], part, p);
    }
  }

  lemma {:induction false} ProjectAll(recs: seq<Record>, part: Owner -> nat, p: nat, q: nat)
    requires forall r :: r in recs ==> part(OwnerOf(r)) == p
    ensures Project(recs, part, q) == if p == q then recs else []
  {
    if recs != [] {
      ProjectAll(recs[..|recs| - 1], part, p, q);
      assert Last(recs) in recs;
    }
  }

  lemma {:induction false} ProjectNone(recs: seq<Record>, part: Owner -> nat, p: nat, n: nat)
    requires p >= n && forall o :: part(o) < n
    ensures Project(recs, part, p) == []
  {
    if recs != [] {
      ProjectNone(recs[..|recs| - 1], part, p, n);
    }
  }

  lemma ProjectSlice(applied: seq<Record>, all: seq<Record>, part: Owner -> nat, p: nat, from: nat, n: nat)
    requires from + n <= |Project(all, part, p)|
    requires Project(applied, part, p) == Project(all, part, p)[..from]
    ensures Project(applied + Project(all, part, p)[from..from + n], part, p) == Project(all, part, p)[..from + n]
  {
    hide Project;
    var s := Project(all, part, p);
    var slice := s[from..from + n];
    ProjectOwners(all, part, p);
    ProjectAll(slice, part, p, p);
    ProjectConcat(applied, slice, part, p);
    assert s[..from] + slice == s[..from + n];
  }

  lemma ProjectForeign(applied: seq<Record>, all: seq<Record>, part: Owner -> nat, p: nat, q: nat, from: nat, n: nat)
    requires p != q && from + n <= |Project(all, part, p)|
    ensures Project(applied + Project(all, part, p)[from..from + n], part, q) == Project(applied, part, q)
  {
    hide Project;
    var slice := Project(all, part, p)[from..from + n];
    ProjectOwners(all, part, p);
    ProjectAll(slice, part, p, q);
    ProjectConcat(applied, slice, part, q);
    assert Project(applied, part, q) + [] == Project(applied, part, q);
  }

  /** Applying the next slice of partition p moves that partition's share forward and no other's. */
  lemma Advance(applied: seq<Record>, all: seq<Record>, part: Owner -> nat, p: nat, from: nat, n: nat)
    requires from + n <= |Project(all, part, p)|
    requires Project(applied, part, p) == Project(all, part, p)[..from]
    ensures var next := applied + Project(all, part, p)[from..from + n];
            && Project(next, part, p) == Project(all, part, p)[..from + n]
            && forall q: nat :: q != p ==> Project(next, part, q) == Project(applied, part, q)
  {
    hide Project;
    ProjectSlice(applied, all, part, p, from, n);
    forall q: nat | q != p {
      ProjectForeign(applied, all, part, p, q, from, n);
    }
  }

  // ---------------------------------------------------------------- static ownership

  /** OwnedPartitions. */
  method OwnedPartitions(partitions: nat, workerIndex: int, workerCount: int) returns (owned: seq<nat>)
    ensures forall p: nat :: p in owned <==> p < partitions && Owns(workerIndex, workerCount, p)
    ensures workerCount > 1 ==> forall p: nat :: p in owned <==> p < partitions && p % workerCount == workerIndex
    ensures forall i, j :: 0 <= i < j < |owned| ==> owned[i] < owned[j]
  {
    owned := [];
    if workerCount <= 1 {
      for i := 0 to partitions
        invariant |owned| == i && forall j :: 0 <= j < i ==> owned[j] == j
        invariant forall q: nat :: q in owned <==> q < i
      {
        owned := owned + [i];
      }
      return;
    }
    for p := 0 to partitions
      invariant forall q: nat :: q in owned <==> q < p && q % workerCount == workerIndex
      invariant forall i :: 0 <= i < |owned| ==> owned[i] < p
      invariant forall i, j :: 0 <= i < j < |owned| ==> owned[i] < owned[j]
    {
      if p % workerCount == workerIndex {
        owned := owned + [p];
      }
    }
  }

  predicate Owns(workerIndex: int, workerCount: int, p: nat) {
    workerCount <= 1 || p % workerCount == workerIndex
  }

  /** Every partition has exactly one owner among the workers 0 .. workerCount - 1. */
  lemma OneOwner(workerCount: int, p: nat)
    requires workerCount >= 1
    ensures exists w :: 0 <= w < workerCount && Owns(w, workerCount, p)
    ensures forall v, w | 0 <= v < workerCount && 0 <= w < workerCount ::
              Owns(v, workerCount, p) && Owns(w, workerCount, p) ==> v == w
  {
    assert Owns(p % workerCount, workerCount, p);
  }
}
