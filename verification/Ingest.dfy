/** Log records, their fan-out and their replay (pkg/ingest/log.go, pkg/ingest/consumer.go,
    pkg/engine/board.go). The state a log leads to is computed cell by cell: a record only touches
    the cells of its own (app, board, member). */
module Ingest {
  import opened Basics
  import opened Boards
  import opened Keys
  import opened Store
  import opened Windows

  datatype LogicalBoard = LogicalBoard(app: string, board: string, cfg: Config, windows: seq<WindowSpec>)

  datatype Record = Record(
    id: string,
    app: string,
    board: string,
    member: string,
    score: real,
    time: Instant,
    segments: seq<string>,
    idem: string,
    tombstone: bool)

  /** The board registry: every logical board under its own app and name. */
  type Registry = map<(string, string), LogicalBoard>

  predicate ValidRegistry(reg: Registry) {
    forall k :: k in reg ==>
      reg[k].app == k.0 && reg[k].board == k.1 && ColonFree(k.0) && ColonFree(k.1) && k.1 != ""
  }

  function Resolve(reg: Registry, rec: Record): Option<LogicalBoard> { Lookup(reg, (rec.app, rec.board)) }

  /** The config of a physical board, by its app and board name. */
  function ConfigOf(reg: Registry, otherwise: Config): BoardKey -> Config {
    (k: BoardKey) => if (k.app, k.board) in reg then reg[(k.app, k.board)].cfg else otherwise
  }

  // ---------------------------------------------------------------- fan-out

  function KeysIn(lb: LogicalBoard, window: string, segments: seq<string>): seq<BoardKey> {
    seq(|segments|, i requires 0 <= i < |segments| => BoardKey(lb.app, lb.board, OrAll(segments[i]), window))
  }

  function KeysFor(lb: LogicalBoard, windows: seq<WindowSpec>, segments: seq<string>, t: Instant): seq<BoardKey> {
    if windows == [] then []
    else KeysFor(lb, windows[..|windows| - 1], segments, t) + KeysIn(lb, WindowID(Last(windows), t), segments)
  }

  /** Every physical board a score event is written to. */
  function Derive(lb: LogicalBoard, segments: seq<string>, t: Instant): seq<BoardKey> {
    KeysFor(lb,
            if lb.windows == [] then [WindowSpec(AllTime, "")] else lb.windows,
            if segments == [] then ["all"] else segments,
            t)
  }

  /** DerivePhysicalBoards: nested loops over windows and segments. */
  method DerivePhysicalBoards(lb: LogicalBoard, segments: seq<string>, t: Instant) returns (keys: seq<BoardKey>)
    ensures keys == Derive(lb, segments, t)
  {
    hide WindowID, OrAll;
    var windows := if lb.windows == [] then [WindowSpec(AllTime, "")] else lb.windows;
    var segs := if segments == [] then ["all"] else segments;
    keys := [];
    for i := 0 to |windows|
      invariant keys == KeysFor(lb, windows[..i], segs, t)
    {
      var win := WindowID(windows[i], t);
      ghost var before := keys;
      for j := 0 to |segs|
        invariant keys == before + KeysIn(lb, win, segs[..j])
      {
        keys := keys + [BoardKey(lb.app, lb.board, OrAll(segs[j]), win)];
        assert KeysIn(lb, win, segs[..j + 1]) == KeysIn(lb, win, segs[..j]) + [Last(keys)];
      }
      assert segs[..|segs|] == segs;
      assert windows[..i + 1][..i] == windows[..i];
    }
    assert windows[..|windows|] == windows;
  }

  lemma {:induction false} KeysForMember(lb: LogicalBoard, windows: seq<WindowSpec>, segs: seq<string>, t: Instant)
    ensures |KeysFor(lb, windows, segs, t)| == |windows| * |segs|
    ensures forall k :: k in KeysFor(lb, windows, segs, t) ==> k.app == lb.app && k.board == lb.board
  {
    hide WindowID;
    if windows != [] {
      KeysForMember(lb, windows[..|windows| - 1], segs, t);
    }
  }

  /** The fan-out stays on its own board and has one write per window and segment. */
  lemma DeriveMember(lb: LogicalBoard, segments: seq<string>, t: Instant)
    ensures forall k :: k in Derive(lb, segments, t) ==> k.app == lb.app && k.board == lb.board
    ensures lb.windows != [] && segments != [] ==> |Derive(lb, segments, t)| == |lb.windows| * |segments|
  {
    KeysForMember(lb, if lb.windows == [] then [WindowSpec(AllTime, "")] else lb.windows,
                  if segments == [] then ["all"] else segments, t);
  }

  function OpsOf(lb: LogicalBoard, rec: Record): seq<SubmitOp> {
    var keys := Derive(lb, rec.segments, rec.time);
    seq(|keys|, i requires 0 <= i < |keys| => SubmitOp(keys[i], lb.cfg, rec.member, rec.score, rec.time))
  }

  /** Every write is the record's own score and time for the record's own member. */
  lemma OpsOfMember(lb: LogicalBoard, rec: Record, i: nat)
    requires i < |OpsOf(lb, rec)|
    ensures var op := OpsOf(lb, rec)[i];
            && op.key.app == lb.app && op.key.board == lb.board && op.cfg == lb.cfg
            && op.member == rec.member && op.score == rec.score && op.time == rec.time
  {
    hide Derive;
    DeriveMember(lb, rec.segments, rec.time);
    var keys := Derive(lb, rec.segments, rec.time);
    assert keys[i] in keys;
  }

  // ---------------------------------------------------------------- replay

  /** One record applied to the engine; a record whose board is not registered is skipped. */
  function ApplyRecord(reg: Registry, db: Db, rec: Record): Db {
    match Resolve(reg, rec)
    case None => db
    case Some(lb) =>
      if rec.tombstone then RemoveAll(db, lb.app, lb.board, lb.cfg, rec.member)
      else RunOps(db, OpsOf(lb, rec))
  }

  function Replay(reg: Registry, db: Db, recs: seq<Record>): Db {
    if recs == [] then db else ApplyRecord(reg, Replay(reg, db, recs[..|recs| - 1]), Last(recs))
  }

  lemma {:induction false} ReplayConcat(reg: Registry, db: Db, a: seq<Record>, b: seq<Record>)
    ensures Replay(reg, db, a + b) == Replay(reg, Replay(reg, db, a), b)
  {
    hide ApplyRecord;
    if b == [] {
      assert a + b == a;
    } else {
      assert (a + b)[..|a + b| - 1] == a + b[..|b| - 1];
      ReplayConcat(reg, db, a, b[..|b| - 1]);
    }
  }

  predicate RecordOk(reg: Registry, rec: Record) {
    match Resolve(reg, rec)
    case None => true
    case Some(lb) => rec.tombstone || AllOk(OpsOf(lb, rec))
  }

  // ---------------------------------------------------------------- one cell of the replay

  function CellRecord(reg: Registry, rec: Record, c: Cell, v: Option<real>): Option<real> {
    match Resolve(reg, rec)
    case None => v
    case Some(lb) =>
      if rec.tombstone then
        if c.member == rec.member && Glob(ScanPattern(lb.app, lb.board), ZKey(c.key)) then None else v
      else CellOps(OpsOf(lb, rec), c, v)
  }

  function CellReplay(reg: Registry, recs: seq<Record>, c: Cell, v: Option<real>): Option<real> {
    if recs == [] then v else CellRecord(reg, Last(recs), c, CellReplay(reg, recs[..|recs| - 1], c, v))
  }

  lemma RemoveAllCell(db: Db, app: string, board: string, cfg: Config, member: string, c: Cell)
    ensures Lookup(RemoveAll(db, app, board, cfg, member).z, c)
            == if c.member == member && Glob(ScanPattern(app, board), ZKey(c.key)) then None else Lookup(db.z, c)
  {
    hide Vacated, Glob, ScanPattern, ZKey;
    if c in db.z {
      assert c.key in LiveKeys(db.z);
    }
  }

  lemma {:induction false} ReplayCell(reg: Registry, db: Db, recs: seq<Record>, c: Cell)
    ensures Lookup(Replay(reg, db, recs).z, c) == CellReplay(reg, recs, c, Lookup(db.z, c))
  {
    hide RunOps, CellOps, RemoveAll, Glob, ScanPattern, ZKey, OpsOf;
    if recs != [] {
      var front := recs[..|recs| - 1];
      ReplayCell(reg, db, front, c);
      var d := Replay(reg, db, front);
      match Resolve(reg, Last(recs))
      case None =>
      case Some(lb) =>
        RemoveAllCell(d, lb.app, lb.board, lb.cfg, Last(recs).member, c);
        RunOpsCell(d, OpsOf(lb, Last(recs)), c);
    }
  }

  /** The owner of a record or a cell. */
  datatype Owner = Owner(app: string, board: string, member: string)

  function OwnerOf(rec: Record): Owner { Owner(rec.app, rec.board, rec.member) }

  function CellOwner(c: Cell): Owner { Owner(c.key.app, c.key.board, c.member) }

  lemma {:induction false} CellOpsForeign(ops: seq<SubmitOp>, c: Cell, v: Option<real>)
    requires forall i :: 0 <= i < |ops| ==> CellOf(ops[i]) != c
    ensures CellOps(ops, c, v) == v
  {
    if ops != [] {
      CellOpsForeign(ops[..|ops| - 1], c, v);
    }
  }

  /** A record leaves every cell of other owners alone. */
  lemma ForeignRecord(reg: Registry, rec: Record, c: Cell, v: Option<real>)
    requires ValidRegistry(reg) && ValidKey(c.key) && OwnerOf(rec) != CellOwner(c)
    ensures CellRecord(reg, rec, c, v) == v
  {
    hide Glob, ScanPattern, ZKey, OpsOf, ValidKey, CellOps;
    match Resolve(reg, rec)
    case None =>
    case Some(lb) =>
      if rec.tombstone {
        ScanExact(lb.app, lb.board, c.key);
      } else {
        forall i | 0 <= i < |OpsOf(lb, rec)|
          ensures CellOf(OpsOf(lb, rec)[i]) != c
        {
          OpsOfMember(lb, rec, i);
        }
        CellOpsForeign(OpsOf(lb, rec), c, v);
      }
  }

  /** A tombstone clears every cell of its owner. */
  lemma TombstoneClears(reg: Registry, rec: Record, c: Cell, v: Option<real>)
    requires ValidRegistry(reg) && ValidKey(c.key) && Resolve(reg, rec).Some?
    requires rec.tombstone && OwnerOf(rec) == CellOwner(c)
    ensures CellRecord(reg, rec, c, v) == None
  {
    hide Glob, ScanPattern, ZKey, ValidKey;
    var lb := Resolve(reg, rec).value;
    ScanExact(lb.app, lb.board, c.key);
  }

  /** The records of one owner, in order. */
  function Select(recs: seq<Record>, o: Owner): seq<Record> {
    if recs == [] then []
    else
      var front := Select(recs[..|recs| - 1], o);
      if OwnerOf(Last(recs)) == o then front + [Last(recs)] else front
  }

  lemma {:induction false} CellReplaySelect(reg: Registry, recs: seq<Record>, c: Cell, v: Option<real>)
    requires ValidRegistry(reg) && ValidKey(c.key)
    ensures CellReplay(reg, recs, c, v) == CellReplay(reg, Select(recs, CellOwner(c)), c, v)
  {
    hide CellRecord, ValidKey, ValidRegistry;
    if recs != [] {
      var front := recs[..|recs| - 1];
      CellReplaySelect(reg, front, c, v);
      if OwnerOf(Last(recs)) == CellOwner(c) {
        assert (Select(front, CellOwner(c)) + [Last(recs)])[..|Select(front, CellOwner(c))|] == Select(front, CellOwner(c));
      } else {
        ForeignRecord(reg, Last(recs), c, CellReplay(reg, front, c, v));
      }
    }
  }

  // ---------------------------------------------------------------- partitions and interleavings

  /** The records of partition p under a partition function of the owner. */
  function Project(recs: seq<Record>, part: Owner -> nat, p: nat): seq<Record> {
    if recs == [] then []
    else
      var front := Project(recs[..|recs| - 1], part, p);
      if part(OwnerOf(Last(recs))) == p then front + [Last(recs)] else front
  }

  /** s holds every partition's records in that partition's order: any interleaving of the log. */
  ghost predicate Interleaves(s: seq<Record>, log: seq<Record>, part: Owner -> nat) {
    forall p: nat :: Project(s, part, p) == Project(log, part, p)
  }

  lemma {:induction false} SelectOfProject(recs: seq<Record>, part: Owner -> nat, o: Owner)
    ensures Select(Project(recs, part, part(o)), o) == Select(recs, o)
  {
    if recs != [] {
      var front := recs[..|recs| - 1];
      SelectOfProject(front, part, o);
      var pf := Project(front, part, part(o));
      if part(OwnerOf(Last(recs))) == part(o) {
        assert (pf + [Last(recs)])[..|pf|] == pf;
      }
    }
  }

  // ---------------------------------------------------------------- what replay keeps

  lemma ApplyRecordKeeps(reg: Registry, db: Db, rec: Record, other: Config)
    requires ValidRegistry(reg) && Inv(db, ConfigOf(reg, other))
    ensures Inv(ApplyRecord(reg, db, rec), ConfigOf(reg, other))
  {
    hide RunOps, RemoveOn, HistInv, StoredInv, Glob, ScanPattern, ZKey, ValidKey, Norm, OpsOf;
    var cfgs := ConfigOf(reg, other);
    match Resolve(reg, rec)
    case None =>
    case Some(lb) =>
      if rec.tombstone {
        forall k | k in ScanKeys(db.z, lb.app, lb.board) && Cell(k, rec.member) in db.z
          ensures cfgs(k) == lb.cfg
        {
          ScanExact(lb.app, lb.board, k);
        }
        RemoveOnKeeps(db, ScanKeys(db.z, lb.app, lb.board), lb.cfg, rec.member, cfgs);
      } else {
        forall i | 0 <= i < |OpsOf(lb, rec)|
          ensures OpsOf(lb, rec)[i].cfg == cfgs(Norm(OpsOf(lb, rec)[i].key))
        {
          OpsOfMember(lb, rec, i);
          NormSameBoard(OpsOf(lb, rec)[i].key);
        }
        RunOpsKeeps(db, OpsOf(lb, rec), cfgs);
      }
  }

  lemma NormSameBoard(k: BoardKey)
    ensures Norm(k).app == k.app && Norm(k).board == k.board
  {
  }

  lemma {:induction false} ReplayKeeps(reg: Registry, db: Db, recs: seq<Record>, other: Config)
    requires ValidRegistry(reg) && Inv(db, ConfigOf(reg, other))
    ensures Inv(Replay(reg, db, recs), ConfigOf(reg, other))
  {
    hide ApplyRecord, Inv, ValidRegistry;
    if recs != [] {
      ReplayKeeps(reg, db, recs[..|recs| - 1], other);
      ApplyRecordKeeps(reg, Replay(reg, db, recs[..|recs| - 1]), Last(recs), other);
    }
  }

  /** Any interleaving of the partitions leads to the scores and histograms of the append order, for
      every update policy and with tombstones. */
  lemma Confluence(reg: Registry, db: Db, log: seq<Record>, s: seq<Record>, part: Owner -> nat, other: Config)
    requires ValidRegistry(reg) && Inv(db, ConfigOf(reg, other)) && Interleaves(s, log, part)
    ensures Replay(reg, db, s).z == Replay(reg, db, log).z
    ensures forall f :: HGet(Replay(reg, db, s).h, f) == HGet(Replay(reg, db, log).h, f)
  {
    hide StoredInv, Replay, ConfigOf, ValidRegistry, Population, ValidKey, Norm, Project;
    var a, b := Replay(reg, db, s), Replay(reg, db, log);
    ReplayKeeps(reg, db, s, other);
    ReplayKeeps(reg, db, log, other);
    forall c
      ensures Lookup(a.z, c) == Lookup(b.z, c)
    {
      if ValidKey(c.key) {
        ConfluentCell(reg, db, log, s, part, c);
      }
    }
    SameLookups(a.z, b.z);
    forall f
      ensures HGet(a.h, f) == HGet(b.h, f)
    {
      SameCounts(a, b, ConfigOf(reg, other), f);
    }
  }

  lemma SameCounts(a: Db, b: Db, cfgs: BoardKey -> Config, f: Bin)
    requires HistInv(a, cfgs) && HistInv(b, cfgs) && a.z == b.z
    ensures HGet(a.h, f) == HGet(b.h, f)
  {
    hide Population;
    assert HGet(a.h, Bin(f.key, f.bucket)) == HGet(b.h, Bin(f.key, f.bucket));
  }

  lemma SameLookups(a: map<Cell, real>, b: map<Cell, real>)
    requires forall c :: Lookup(a, c) == Lookup(b, c)
    ensures a == b
  {
    forall c
      ensures c in a <==> c in b
      ensures c in a ==> a[c] == b[c]
    {
      assert Lookup(a, c) == Lookup(b, c);
    }
  }

  lemma ConfluentCell(reg: Registry, db: Db, log: seq<Record>, s: seq<Record>, part: Owner -> nat, c: Cell)
    requires ValidRegistry(reg) && ValidKey(c.key) && Interleaves(s, log, part)
    ensures Lookup(Replay(reg, db, s).z, c) == Lookup(Replay(reg, db, log).z, c)
  {
    hide Replay, CellReplay, ValidRegistry, ValidKey, Select, Project;
    var o := CellOwner(c);
    var v := Lookup(db.z, c);
    ReplayCell(reg, db, s, c);
    ReplayCell(reg, db, log, c);
    CellReplaySelect(reg, s, c, v);
    CellReplaySelect(reg, log, c, v);
    SelectOfProject(s, part, o);
    SelectOfProject(log, part, o);
    assert Project(s, part, part(o)) == Project(log, part, part(o));
  }

  lemma AddedTwice(op: SubmitOp, c: Cell, v: real)
    requires CellOf(op) == c && CheckOp(op).Ok? && WithDefaults(op.cfg).policy.Increment?
    ensures CellOps([op, op], c, Some(v)) == Some(v + op.score + op.score)
  {
    hide CheckOp;
    assert [op, op][..1] == [op] && [op][..0] == [];
    assert CellOps([op], c, Some(v)) == Some(v + op.score);
  }

  /** A key derived twice is written twice: naming a segment twice, or both "" and "all", makes an
      increment count double. */
  lemma RepeatedSegmentCountsTwice(lb: LogicalBoard, rec: Record, s1: string, s2: string)
    requires lb.windows == [] && rec.segments == [s1, s2] && OrAll(s1) == OrAll(s2)
    requires WithDefaults(lb.cfg).policy.Increment? && AllOk(OpsOf(lb, rec))
    ensures var c := Cell(BoardKey(lb.app, lb.board, OrAll(s1), "all"), rec.member);
            forall v: real :: CellOps(OpsOf(lb, rec), c, Some(v)) == Some(v + rec.score + rec.score)
  {
    var w := WindowSpec(AllTime, "");
    assert WindowID(w, rec.time) == "all";
    hide WindowID, CheckOp, NewValue;
    var k := BoardKey(lb.app, lb.board, OrAll(s1), "all");
    assert KeysFor(lb, [w], [s1, s2], rec.time) == [k, k] by {
      assert [w][..0] == [];
      assert KeysIn(lb, "all", [s1, s2]) == [k, k];
    }
    var op := SubmitOp(k, lb.cfg, rec.member, rec.score, rec.time);
    assert OpsOf(lb, rec) == [op, op];
    assert CheckOp(OpsOf(lb, rec)[0]).Ok?;
    forall v: real {
      AddedTwice(op, Cell(k, rec.member), v);
    }
  }
}
