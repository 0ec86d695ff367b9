/** The moderation endpoints (pkg/api/moderation.go:24-83, pkg/ingest/ingestor.go:61-70): tombstones
    first, then the synchronous removals, then the registration. Failures of the stores, of the log and
    of the engine are inputs; a removal that fails has removed some of the member's boards. */
module Handlers {
  import opened Basics
  import opened Boards
  import opened Consumers
  import opened Engine
  import opened Ingest
  import opened Keys
  import opened Ordering
  import opened Players
  import opened Store

  datatype Reply = NoContent | UnknownBoard | ListFailed | AppendFailed | RemovalQueued | DeleteFailed

  function Tombstone(app: string, board: string, member: string, time: Instant): Record {
    Record("", app, board, member, 0.0, time, [], "", true)
  }

  /** A log's records without the ids it gave them. */
  function Bare(recs: seq<Record>): seq<Record> {
    seq(|recs|, i requires 0 <= i < |recs| => recs[i].(id := ""))
  }

  /** One tombstone per board. */
  function Tombstones(boards: seq<LogicalBoard>, app: string, member: string, time: Instant): seq<Record> {
    seq(|boards|, i requires 0 <= i < |boards| => Tombstone(app, boards[i].board, member, time))
  }

  lemma BareAppend(recs: seq<Record>, rec: Record, id: string)
    requires rec.id == ""
    ensures Bare(recs + [rec.(id := id)]) == Bare(recs) + [rec]
  {
  }

  // ---------------------------------------------------------------- what the log says then

  /** Replaying the longer log from any state leaves the member without a score on the given boards of
      the app, and every other score as the shorter log leaves it. */
  ghost predicate Erased(reg: Registry, was: seq<Record>, now: seq<Record>, app: string, boards: set<string>, member: string) {
    forall db: Db, c: Cell | ValidKey(c.key) ::
      Lookup(Replay(reg, db, now).z, c)
      == if c.key.app == app && c.key.board in boards && c.member == member then None else Lookup(Replay(reg, db, was).z, c)
  }

  lemma ErasedNowhere(reg: Registry, was: seq<Record>, app: string, member: string)
    ensures Erased(reg, was, was, app, {}, member)
  {
    hide Replay;
  }

  /** One more tombstone, whatever its id. */
  lemma ErasedNext(reg: Registry, was: seq<Record>, now: seq<Record>, app: string, boards: set<string>, member: string, rec: Record)
    requires ValidRegistry(reg) && Erased(reg, was, now, app, boards, member)
    requires rec.(id := "") == Tombstone(app, rec.board, member, rec.time)
    ensures Erased(reg, was, now + [rec], app, boards + (if (app, rec.board) in reg then {rec.board} else {}), member)
  {
    hide Replay, ValidRegistry, ValidKey;
    var more := boards + if (app, rec.board) in reg then {rec.board} else {};
    forall db: Db, c: Cell | ValidKey(c.key)
      ensures Lookup(Replay(reg, db, now + [rec]).z, c)
              == if c.key.app == app && c.key.board in more && c.member == member then None else Lookup(Replay(reg, db, was).z, c)
    {
      OneTombstone(reg, db, now, rec, c);
    }
  }

  lemma OneTombstone(reg: Registry, db: Db, recs: seq<Record>, rec: Record, c: Cell)
    requires ValidRegistry(reg) && ValidKey(c.key) && rec.(id := "") == Tombstone(rec.app, rec.board, rec.member, rec.time)
    ensures Lookup(Replay(reg, db, recs + [rec]).z, c)
            == if (rec.app, rec.board) in reg && OwnerOf(rec) == CellOwner(c) then None else Lookup(Replay(reg, db, recs).z, c)
  {
    hide Replay, ValidRegistry, ValidKey, CellRecord;
    ReplayCell(reg, db, recs, c);
    ReplayCell(reg, db, recs + [rec], c);
    assert (recs + [rec])[..|recs|] == recs;
    var v := CellReplay(reg, recs, c, Lookup(db.z, c));
    if OwnerOf(rec) != CellOwner(c) {
      ForeignRecord(reg, rec, c, v);
    } else if (rec.app, rec.board) in reg {
      TombstoneClears(reg, rec, c, v);
    } else {
      Unregistered(reg, rec, c, v);
    }
  }

  lemma Unregistered(reg: Registry, rec: Record, c: Cell, v: Option<real>)
    requires (rec.app, rec.board) !in reg
    ensures CellRecord(reg, rec, c, v) == v
  {
  }

  /** The registered boards among the first n listed. */
  function Listed(reg: Registry, boards: seq<LogicalBoard>, app: string, n: nat): set<string> {
    set i | 0 <= i < n && i < |boards| && (app, boards[i].board) in reg :: boards[i].board
  }

  // ---------------------------------------------------------------- removals

  /** A scan for the board selects the key: see Keys.ScanSelectsIff. */
  predicate Selects(lb: LogicalBoard, k: BoardKey) { Glob(ScanPattern(lb.app, lb.board), ZKey(k)) }

  /** The member is off every board whose removal went through, as before on every board not listed, and
      either way on those whose removal failed. */
  ghost predicate Removed(before: Db, after: Db, boards: seq<LogicalBoard>, member: string, failed: set<nat>) {
    forall c: Cell :: RemovedCell(before, after, boards, member, failed, c)
  }

  lemma RemoveOnCell(db: Db, keys: set<BoardKey>, cfg: Config, member: string, c: Cell)
    ensures Lookup(RemoveOn(db, keys, cfg, member).z, c)
            == if c.member == member && c.key in keys then None else Lookup(db.z, c)
  {
    hide Vacated;
  }

  /** The same for one cell. */
  ghost predicate RemovedCell(before: Db, after: Db, boards: seq<LogicalBoard>, member: string, failed: set<nat>, c: Cell) {
    && (c.member == member && (exists i: nat :: i < |boards| && i !in failed && Selects(boards[i], c.key)) ==>
          Lookup(after.z, c) == None)
    && (c.member != member || (forall i: nat :: i < |boards| ==> !Selects(boards[i], c.key)) ==>
          Lookup(after.z, c) == Lookup(before.z, c))
    && (Lookup(after.z, c) == None || Lookup(after.z, c) == Lookup(before.z, c))
  }

  lemma RemovedNextCell(before: Db, mid: Db, after: Db, boards: seq<LogicalBoard>, i: nat, member: string, failed: set<nat>,
                        done: set<BoardKey>, fails: bool, c: Cell)
    requires i < |boards| && RemovedCell(before, mid, boards[..i], member, failed, c) && forall x :: x in failed ==> x < i
    requires Lookup(after.z, c) == if c.member == member && c.key in done then None else Lookup(mid.z, c)
    requires c.key in done ==> Selects(boards[i], c.key)
    requires !fails && c in mid.z && Selects(boards[i], c.key) ==> c.key in done
    ensures RemovedCell(before, after, boards[..i + 1], member, failed + (if fails then {i} else {}), c)
  {
    hide Selects;
    var a, b := boards[..i], boards[..i + 1];
    assert forall x: nat :: x < i ==> a[x] == b[x];
    assert b[i] == boards[i];
  }

  /** One more board. */
  lemma RemovedNext(before: Db, mid: Db, boards: seq<LogicalBoard>, i: nat, member: string, failed: set<nat>,
                    done: set<BoardKey>, fails: bool)
    requires i < |boards| && Removed(before, mid, boards[..i], member, failed) && forall x :: x in failed ==> x < i
    requires done <= ScanKeys(mid.z, boards[i].app, boards[i].board)
    requires !fails ==> done == ScanKeys(mid.z, boards[i].app, boards[i].board)
    ensures Removed(before, RemoveOn(mid, done, boards[i].cfg, member), boards[..i + 1], member,
                    failed + if fails then {i} else {})
  {
    hide RemovedCell, RemoveOn;
    var after, next := RemoveOn(mid, done, boards[i].cfg, member), boards[..i + 1];
    var bad := failed + if fails then {i} else {};
    forall c: Cell
      ensures RemovedCell(before, after, next, member, bad, c)
    {
      assert RemovedCell(before, mid, boards[..i], member, failed, c);
      RemoveOnCell(mid, done, boards[i].cfg, member, c);
      ScanKeysOf(mid.z, boards[i], c);
      RemovedNextCell(before, mid, after, boards, i, member, failed, done, fails, c);
    }
  }

  lemma ScanKeysOf(z: map<Cell, real>, lb: LogicalBoard, c: Cell)
    ensures c.key in ScanKeys(z, lb.app, lb.board) ==> Selects(lb, c.key)
    ensures c in z && Selects(lb, c.key) ==> c.key in ScanKeys(z, lb.app, lb.board)
  {
    hide Glob, ScanPattern, ZKey;
  }

  /** The config of every listed board is the one its cells are kept under. */
  ghost predicate ConfigsMatch(boards: seq<LogicalBoard>, cfgs: BoardKey -> Config) {
    forall i, k | 0 <= i < |boards| :: Selects(boards[i], k) ==> cfgs(k) == boards[i].cfg
  }

  lemma RemovalKeeps(db: Db, done: set<BoardKey>, lb: LogicalBoard, member: string, cfgs: BoardKey -> Config)
    requires Inv(db, cfgs) && done <= ScanKeys(db.z, lb.app, lb.board)
    requires forall k :: Selects(lb, k) ==> cfgs(k) == lb.cfg
    ensures Inv(RemoveOn(db, done, lb.cfg, member), cfgs)
  {
    hide Inv, RemoveOn, Selects;
    forall k | k in done
      ensures cfgs(k) == lb.cfg
    {
      ScanKeysOf(db.z, lb, Cell(k, member));
    }
    RemoveOnKeeps(db, done, lb.cfg, member, cfgs);
  }

  // ---------------------------------------------------------------- the endpoints

  /** handleRemoveScore; the removal fails after `stops` boards, if given. */
  method HandleRemoveScore(log: Log, eng: RedisEngine, reg: Registry, app: string, board: string, member: string,
                           time: Instant, appendFails: bool, stops: Option<nat>) returns (reply: Reply)
    requires log.Valid() && KeysValid(eng.db.z)
    modifies log, eng
    ensures log.Valid() && KeysValid(eng.db.z)
    ensures (app, board) !in reg ==> reply == UnknownBoard
    ensures (app, board) in reg && appendFails ==> reply == AppendFailed
    ensures (app, board) in reg && !appendFails ==>
      var lb := reg[(app, board)];
      var keys := ScanKeys(old(eng.db).z, lb.app, lb.board);
      && reply == (if stops.Some? && stops.value < |keys| then RemovalQueued else NoContent)
      && exists done :: done <= keys && (reply.NoContent? ==> done == keys)
                        && eng.db == RemoveOn(old(eng.db), done, lb.cfg, member)
    ensures (app, board) !in reg || appendFails ==> eng.db == old(eng.db)
    ensures Bare(log.all) == Bare(old(log.all)) + (if (app, board) in reg && !appendFails then [Tombstone(app, board, member, time)] else [])
    ensures ValidRegistry(reg) ==>
      Erased(reg, old(log.all), log.all, app, if (app, board) in reg && !appendFails then {board} else {}, member)
  {
    hide RemoveOn, ScanKeys, KeysValid, Project, IdAt, Erased, ValidRegistry;
    ErasedNowhere(reg, log.all, app, member);
    if (app, board) !in reg {
      return UnknownBoard;
    }
    if appendFails {
      return AppendFailed;
    }
    ghost var before := log.all;
    var rec := Tombstone(app, board, member, time);
    var id := log.Append(rec);
    BareAppend(before, rec, id);
    if ValidRegistry(reg) {
      ErasedNext(reg, before, before, app, {}, member, rec.(id := id));
      assert {} + {board} == {board};
    }
    var lb := reg[(app, board)];
    var failed, done := eng.RemoveFromSome(lb.app, lb.board, lb.cfg, member, stops);
    return if failed then RemovalQueued else NoContent;
  }

  /** The tombstones of handleDeleteUser, up to the first append that fails. For the log the member is
      then off every listed board it got to, and nothing else has changed. */
  method AppendTombstones(log: Log, boards: seq<LogicalBoard>, app: string, member: string, time: Instant, fails: nat,
                          ghost reg: Registry) returns (ok: bool)
    requires log.Valid()
    modifies log
    ensures log.Valid() && (ok <==> fails >= |boards|)
    ensures Bare(log.all) == Bare(old(log.all)) + Tombstones(boards, app, member, time)[..Min(fails, |boards|)]
    ensures ValidRegistry(reg) ==> Erased(reg, old(log.all), log.all, app, Listed(reg, boards, app, fails), member)
  {
    hide Project, IdAt, Erased, ValidRegistry;
    ErasedNowhere(reg, log.all, app, member);
    assert Listed(reg, boards, app, 0) == {};
    ghost var was := log.all;
    var ts := Tombstones(boards, app, member, time);
    assert Bare(was) + ts[..0] == Bare(was);
    for i := 0 to |boards|
      invariant log.Valid() && i <= fails
      invariant Bare(log.all) == Bare(was) + ts[..i]
      invariant ValidRegistry(reg) ==> Erased(reg, was, log.all, app, Listed(reg, boards, app, i), member)
    {
      if i == fails {
        return false;
      }
      ghost var before := log.all;
      var id := log.Append(ts[i]);
      BareAppend(before, ts[i], id);
      if ValidRegistry(reg) {
        ErasedNext(reg, was, before, app, Listed(reg, boards, app, i), member, ts[i].(id := id));
      }
      ListedNext(reg, boards, app, i);
      assert ts[..i + 1] == ts[..i] + [ts[i]];
    }
    assert Listed(reg, boards, app, fails) == Listed(reg, boards, app, |boards|);
    return true;
  }

  lemma ListedNext(reg: Registry, boards: seq<LogicalBoard>, app: string, i: nat)
    requires i < |boards|
    ensures Listed(reg, boards, app, i + 1)
            == Listed(reg, boards, app, i) + if (app, boards[i].board) in reg then {boards[i].board} else {}
  {
  }

  /** Its removals: board i fails after stops[i] keys, if given; the others go on. */
  method RemoveEverywhere(eng: RedisEngine, boards: seq<LogicalBoard>, member: string, stops: map<nat, nat>,
                          ghost cfgs: BoardKey -> Config) returns (queued: bool, ghost failed: set<nat>)
    requires Inv(eng.db, cfgs) && ConfigsMatch(boards, cfgs)
    modifies eng
    ensures Inv(eng.db, cfgs) && Removed(old(eng.db), eng.db, boards, member, failed)
    ensures queued <==> failed != {}
    ensures failed <= stops.Keys
  {
    hide RemoveOn, ScanKeys, HistInv, StoredInv, KeysValid, Selects, Removed;
    ghost var start := eng.db;
    queued, failed := false, {};
    NoneRemoved(start, member);
    for i := 0 to |boards|
      invariant Inv(eng.db, cfgs) && Removed(start, eng.db, boards[..i], member, failed)
      invariant queued <==> failed != {}
      invariant failed <= stops.Keys && forall x :: x in failed ==> x < i
    {
      ghost var mid := eng.db;
      var lb := boards[i];
      var bad, done := eng.RemoveFromSome(lb.app, lb.board, lb.cfg, member, if i in stops then Some(stops[i]) else None);
      RemovedNext(start, mid, boards, i, member, failed, done, bad);
      RemovalKeeps(mid, done, lb, member, cfgs);
      queued := queued || bad;
      failed := failed + if bad then {i} else {};
    }
    assert boards[..|boards|] == boards;
  }

  lemma NoneRemoved(db: Db, member: string)
    ensures Removed(db, db, [], member, {})
  {
  }

  /** handleDeleteUser. */
  method HandleDeleteUser(log: Log, eng: RedisEngine, users: MemStore, boards: seq<LogicalBoard>, app: string,
                          member: string, time: Instant, listFails: bool, appendFails: nat, stops: map<nat, nat>,
                          deleteFails: bool, ghost cfgs: BoardKey -> Config, ghost reg: Registry)
    returns (reply: Reply, ghost failed: set<nat>)
    requires log.Valid() && Inv(eng.db, cfgs) && ConfigsMatch(boards, cfgs)
    modifies log, eng, users
    ensures log.Valid() && Inv(eng.db, cfgs)
    ensures Bare(log.all) == Bare(old(log.all))
              + (if listFails then [] else Tombstones(boards, app, member, time)[..Min(appendFails, |boards|)])
    ensures ValidRegistry(reg) ==>
      Erased(reg, old(log.all), log.all, app, if listFails then {} else Listed(reg, boards, app, appendFails), member)
    ensures listFails ==> reply == ListFailed
    ensures !listFails && appendFails < |boards| ==> reply == AppendFailed
    ensures listFails || appendFails < |boards| ==> eng.db == old(eng.db) && users.State() == old(users.State())
    ensures !listFails && appendFails >= |boards| ==>
      && Removed(old(eng.db), eng.db, boards, member, failed) && failed <= stops.Keys
      && users.State() == (if deleteFails then old(users.State()) else MemStep(users.tx, old(users.State()), Delete(member)).0)
      && reply == if deleteFails then DeleteFailed else if failed != {} then RemovalQueued else NoContent
  {
    hide Inv, Removed, ConfigsMatch, Project, IdAt, MemStep, Tombstones, Bare, Erased, Listed, ValidRegistry;
    ErasedNowhere(reg, log.all, app, member);
    failed := {};
    if listFails {
      assert Bare(log.all) + [] == Bare(log.all);
      return ListFailed, failed;
    }
    var ok := AppendTombstones(log, boards, app, member, time, appendFails, reg);
    if !ok {
      return AppendFailed, failed;
    }
    var queued;
    queued, failed := RemoveEverywhere(eng, boards, member, stops, cfgs);
    if deleteFails {
      return DeleteFailed, failed;
    }
    var out := users.Delete(member);
    reply := if queued then RemovalQueued else NoContent;
  }
}
