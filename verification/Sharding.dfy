/** One logical board over N sorted sets (pkg/engine/sharded_engine.go), related to the single-set
    state that received the same commands. */
module Sharding {
  import opened Basics
  import opened Boards
  import opened Codec
  import opened Keys
  import opened Ordering
  import opened Ranking
  import opened Store

  /** The shard count and the member hash, which may be any function. */
  datatype Layout = Layout(shards: nat, hash: string -> nat) {
    ghost predicate Valid() { shards > 0 }

    function ShardOf(member: string): (i: nat)
      requires shards > 0
      ensures i < shards
    {
      hash(member) % shards
    }

    /** Where a cell of the single set lives. */
    function Route(c: Cell): Cell
      requires shards > 0
    {
      Cell(ShardKey(c.key, ShardOf(c.member)), c.member)
    }

    function RouteOp(op: SubmitOp): SubmitOp
      requires shards > 0
    {
      op.(key := ShardKey(op.key, ShardOf(op.member)))
    }

    function RouteOps(ops: seq<SubmitOp>): (r: seq<SubmitOp>)
      requires shards > 0
      ensures |r| == |ops|
    {
      seq(|ops|, i requires 0 <= i < |ops| => RouteOp(ops[i]))
    }
  }

  function Unshard(k: BoardKey): BoardKey { k.(board := StripShard(k.board)) }

  function Unroute(c: Cell): Cell { Cell(Unshard(c.key), c.member) }

  lemma UnshardShard(k: BoardKey, i: nat)
    ensures Unshard(ShardKey(k, i)) == k
  {
    StripShardName(k.board, i);
  }

  /** The sharded state holds exactly the single set's cells, each on its own shard. */
  ghost predicate Rel(L: Layout, z: map<Cell, real>, s: map<Cell, real>)
    requires L.Valid()
  {
    && (forall c :: c in z ==> L.Route(c) in s && s[L.Route(c)] == z[c])
    && (forall d :: d in s ==> Unroute(d) in z && L.Route(Unroute(d)) == d)
  }

  lemma RelCell(L: Layout, z: map<Cell, real>, s: map<Cell, real>, c: Cell)
    requires L.Valid() && Rel(L, z, s)
    ensures Lookup(s, L.Route(c)) == Lookup(z, c)
  {
    UnshardShard(c.key, L.ShardOf(c.member));
    assert Unroute(L.Route(c)) == c;
  }

  lemma RelUpdate(L: Layout, z: map<Cell, real>, s: map<Cell, real>, c: Cell, v: real)
    requires L.Valid() && Rel(L, z, s)
    ensures Rel(L, z[c := v], s[L.Route(c) := v])
  {
    hide StripShard, ShardName;
    UnshardShard(c.key, L.ShardOf(c.member));
    assert Unroute(L.Route(c)) == c;
    forall e | e in z && e != c
      ensures L.Route(e) != L.Route(c)
    {
      UnshardShard(e.key, L.ShardOf(e.member));
      assert Unroute(L.Route(e)) == e;
    }
  }

  lemma RelRestrict(L: Layout, z: map<Cell, real>, s: map<Cell, real>, z': map<Cell, real>, s': map<Cell, real>)
    requires L.Valid() && Rel(L, z, s)
    requires forall c :: c in z' ==> c in z && z'[c] == z[c]
    requires forall d :: d in s' ==> d in s && s'[d] == s[d]
    requires forall c :: c in z ==> (c in z' <==> L.Route(c) in s')
    ensures Rel(L, z', s')
  {
  }

  lemma CheckRouted(L: Layout, op: SubmitOp)
    requires L.Valid() && op.key.board != ""
    ensures CheckOp(L.RouteOp(op)) == CheckOp(op)
    ensures CellOf(L.RouteOp(op)) == L.Route(CellOf(op))
  {
    hide ValidKey, ValidConfig, Encode, Norm, ShardName;
    ShardKeyValid(op.key, L.ShardOf(op.member));
  }

  lemma RelApplyOp(L: Layout, db: Db, sdb: Db, op: SubmitOp)
    requires L.Valid() && Rel(L, db.z, sdb.z) && op.key.board != ""
    ensures Rel(L, ApplyOp(db, op).z, ApplyOp(sdb, L.RouteOp(op)).z)
    ensures ResultOf(sdb, L.RouteOp(op)) == ResultOf(db, op)
  {
    hide Rel, CheckOp, NewValue, Moved, Decode, CellOf, ShardKey, Norm;
    CheckRouted(L, op);
    var c := CellOf(op);
    RelCell(L, db.z, sdb.z, c);
    if CheckOp(op).Ok? {
      RelUpdate(L, db.z, sdb.z, c, NewValue(op.cfg, Lookup(db.z, c), op.score, CheckOp(op).value));
    }
  }

  lemma {:induction false} RelRunOps(L: Layout, db: Db, sdb: Db, ops: seq<SubmitOp>)
    requires L.Valid() && Rel(L, db.z, sdb.z)
    requires forall i :: 0 <= i < |ops| ==> ops[i].key.board != ""
    ensures Rel(L, RunOps(db, ops).z, RunOps(sdb, L.RouteOps(ops)).z)
    ensures AllOk(L.RouteOps(ops)) <==> AllOk(ops)
  {
    hide Rel, ApplyOp, CheckOp, ResultOf;
    forall i | 0 <= i < |ops|
      ensures CheckOp(L.RouteOps(ops)[i]) == CheckOp(ops[i])
    {
      CheckRouted(L, ops[i]);
    }
    if ops != [] {
      var front := ops[..|ops| - 1];
      assert L.RouteOps(ops)[..|ops| - 1] == L.RouteOps(front);
      RelRunOps(L, db, sdb, front);
      RelApplyOp(L, RunOps(db, front), RunOps(sdb, L.RouteOps(front)), Last(ops));
    }
  }

  /** Removals agree when the two key sets select corresponding cells. */
  lemma RelRemoveOn(L: Layout, db: Db, sdb: Db, keys: set<BoardKey>, skeys: set<BoardKey>, cfg: Config, member: string)
    requires L.Valid() && Rel(L, db.z, sdb.z)
    requires forall c :: c in db.z && c.member == member ==> (c.key in keys <==> L.Route(c).key in skeys)
    ensures Rel(L, RemoveOn(db, keys, cfg, member).z, RemoveOn(sdb, skeys, cfg, member).z)
  {
    hide Vacated, ShardKey, Unroute;
    RelRestrict(L, db.z, sdb.z, RemoveOn(db, keys, cfg, member).z, RemoveOn(sdb, skeys, cfg, member).z);
  }

  lemma RelReset(L: Layout, db: Db, sdb: Db, keys: set<BoardKey>, skeys: set<BoardKey>)
    requires L.Valid() && Rel(L, db.z, sdb.z)
    requires forall c :: c in db.z ==> (c.key in keys <==> L.Route(c).key in skeys)
    ensures Rel(L, Reset(db, keys).z, Reset(sdb, skeys).z)
  {
    hide ShardKey, Unroute;
    RelRestrict(L, db.z, sdb.z, Reset(db, keys).z, Reset(sdb, skeys).z);
  }

  /** The scan of the member's own shard selects the cells the single-set scan selects. */
  lemma ScanRouted(L: Layout, z: map<Cell, real>, s: map<Cell, real>, app: string, board: string, c: Cell)
    requires L.Valid() && Rel(L, z, s) && KeysValid(z) && KeysValid(s) && ColonFree(app) && ColonFree(board)
    requires c in z
    ensures c.key in ScanKeys(z, app, board) <==> c.key.app == app && c.key.board == board
    ensures forall i: nat :: L.Route(c).key in ScanKeys(s, app, ShardName(board, i))
              <==> c.key.app == app && c.key.board == board && L.ShardOf(c.member) == i
  {
    hide ValidKey, Norm, Glob, ScanPattern, ZKey, ShardName, StripShard;
    ScanExact(app, board, c.key);
    var d := L.Route(c);
    forall i: nat
      ensures d.key in ScanKeys(s, app, ShardName(board, i))
              <==> c.key.app == app && c.key.board == board && L.ShardOf(c.member) == i
    {
      ShardKeyValid(BoardKey(app, board, "", ""), i);
      ScanExact(app, ShardName(board, i), d.key);
      if d.key.app == app && d.key.board == ShardName(board, i) {
        ShardKeyInjective(c.key, L.ShardOf(c.member), c.key.(board := board), i);
      }
    }
  }

  // ---------------------------------------------------------------- runs

  /** A write command of the engine interface. */
  datatype Cmd =
    | SubmitAll(ops: seq<SubmitOp>)
    | RemoveOne(key: BoardKey, cfg: Config, member: string)
    | RemoveEverywhere(app: string, board: string, cfg: Config, member: string)
    | ResetBoard(key: BoardKey)

  function Exec(db: Db, cmd: Cmd): Db {
    match cmd
    case SubmitAll(ops) => if AllOk(ops) then RunOps(db, ops) else db
    case RemoveOne(key, cfg, m) => if ValidKey(key) then RemoveOn(db, {Norm(key)}, cfg, m) else db
    case RemoveEverywhere(app, board, cfg, m) => RemoveAll(db, app, board, cfg, m)
    case ResetBoard(key) => if ValidKey(key) then Reset(db, {Norm(key)}) else db
  }

  function ShardKeys(L: Layout, k: BoardKey): set<BoardKey> { set i | 0 <= i < L.shards :: ShardKey(k, i) }

  function ExecSharded(L: Layout, db: Db, cmd: Cmd): Db
    requires L.Valid()
  {
    match cmd
    case SubmitAll(ops) => Exec(db, SubmitAll(L.RouteOps(ops)))
    case RemoveOne(key, cfg, m) => Exec(db, RemoveOne(ShardKey(key, L.ShardOf(m)), cfg, m))
    case RemoveEverywhere(app, board, cfg, m) =>
      Exec(db, RemoveEverywhere(app, ShardName(board, L.ShardOf(m)), cfg, m))
    case ResetBoard(key) => if ValidKey(ShardKey(key, 0)) then Reset(db, ShardKeys(L, Norm(key))) else db
  }

  /** Commands carry the registered config of the boards they touch, and name real boards. */
  ghost predicate WellFormed(cmd: Cmd, cfgs: BoardKey -> Config) {
    match cmd
    case SubmitAll(ops) =>
      forall i :: 0 <= i < |ops| ==> ops[i].key.board != "" && ops[i].cfg == cfgs(Norm(ops[i].key))
    case RemoveOne(key, cfg, m) => key.board != "" && cfg == cfgs(Norm(key))
    case RemoveEverywhere(app, board, cfg, m) =>
      ColonFree(app) && ColonFree(board) && forall k: BoardKey :: k.app == app && k.board == board ==> cfgs(k) == cfg
    case ResetBoard(key) => key.board != ""
  }

  function ShardCfgs(cfgs: BoardKey -> Config): BoardKey -> Config { k => cfgs(Unshard(k)) }

  ghost predicate Refines(L: Layout, cfgs: BoardKey -> Config, db: Db, sdb: Db)
    requires L.Valid()
  {
    Rel(L, db.z, sdb.z) && Inv(db, cfgs) && Inv(sdb, ShardCfgs(cfgs))
  }

  lemma ExecKeeps(db: Db, cmd: Cmd, cfgs: BoardKey -> Config)
    requires Inv(db, cfgs) && WellFormed(cmd, cfgs)
    ensures Inv(Exec(db, cmd), cfgs)
  {
    hide HistInv, StoredInv, RunOps, RemoveOn, Reset, CheckOp, ValidKey, Norm, Glob, ScanPattern, ZKey;
    match cmd
    case SubmitAll(ops) => RunOpsKeeps(db, ops, cfgs);
    case RemoveOne(key, cfg, m) => RemoveOnKeeps(db, {Norm(key)}, cfg, m, cfgs);
    case RemoveEverywhere(app, board, cfg, m) =>
      forall k | k in ScanKeys(db.z, app, board) && Cell(k, m) in db.z
        ensures cfgs(k) == cfg
      {
        ScanExact(app, board, k);
      }
      RemoveOnKeeps(db, ScanKeys(db.z, app, board), cfg, m, cfgs);
    case ResetBoard(key) => ResetKeeps(db, {Norm(key)}, cfgs);
  }

  lemma ExecShardedKeeps(L: Layout, db: Db, cmd: Cmd, cfgs: BoardKey -> Config)
    requires L.Valid() && Inv(db, ShardCfgs(cfgs)) && WellFormed(cmd, cfgs)
    ensures Inv(ExecSharded(L, db, cmd), ShardCfgs(cfgs))
  {
    hide Inv, StripShard, ShardName, RunOps, RemoveOn, Reset, CheckOp, ValidKey, Norm;
    match cmd
    case SubmitAll(ops) =>
      forall i | 0 <= i < |ops|
        ensures L.RouteOps(ops)[i].key.board != ""
        ensures L.RouteOps(ops)[i].cfg == ShardCfgs(cfgs)(Norm(L.RouteOps(ops)[i].key))
      {
        RoutedConfig(ops[i].key, L.ShardOf(ops[i].member), cfgs);
      }
      ExecKeeps(db, SubmitAll(L.RouteOps(ops)), ShardCfgs(cfgs));
    case RemoveOne(key, cfg, m) =>
      RoutedConfig(key, L.ShardOf(m), cfgs);
      ExecKeeps(db, RemoveOne(ShardKey(key, L.ShardOf(m)), cfg, m), ShardCfgs(cfgs));
    case RemoveEverywhere(app, board, cfg, m) =>
      var i := L.ShardOf(m);
      ShardKeyValid(BoardKey(app, board, "", ""), i);
      forall k: BoardKey | k.app == app && k.board == ShardName(board, i)
        ensures ShardCfgs(cfgs)(k) == cfg
      {
        StripShardName(board, i);
        var u := Unshard(k);
        assert u.app == app && u.board == board;
        assert cfgs(u) == cfg;
      }
      ExecKeeps(db, RemoveEverywhere(app, ShardName(board, i), cfg, m), ShardCfgs(cfgs));
    case ResetBoard(key) => ResetKeeps(db, ShardKeys(L, Norm(key)), ShardCfgs(cfgs));
  }

  lemma RoutedConfig(key: BoardKey, i: nat, cfgs: BoardKey -> Config)
    requires key.board != ""
    ensures ShardKey(key, i).board != ""
    ensures ShardCfgs(cfgs)(Norm(ShardKey(key, i))) == cfgs(Norm(key))
    ensures ValidKey(ShardKey(key, i)) <==> ValidKey(key)
    ensures Norm(ShardKey(key, i)) == ShardKey(Norm(key), i)
  {
    hide ValidKey, StripShard;
    ShardKeyValid(key, i);
    UnshardShard(Norm(key), i);
  }

  lemma RouteKeyIff(L: Layout, c: Cell, k: BoardKey, i: nat)
    requires L.Valid()
    ensures L.Route(c).key == ShardKey(k, i) <==> c.key == k && L.ShardOf(c.member) == i
  {
    hide ShardKey;
    if L.Route(c).key == ShardKey(k, i) {
      ShardKeyInjective(c.key, L.ShardOf(c.member), k, i);
    }
  }

  /** Each command keeps the two engines in step. */
  lemma ExecRefines(L: Layout, cfgs: BoardKey -> Config, db: Db, sdb: Db, cmd: Cmd)
    requires L.Valid() && Refines(L, cfgs, db, sdb) && WellFormed(cmd, cfgs)
    ensures Refines(L, cfgs, Exec(db, cmd), ExecSharded(L, sdb, cmd))
  {
    hide HistInv, StoredInv, RunOps, RemoveOn, Reset, CheckOp, ValidKey, Norm, ShardKey, ShardName, ScanKeys, Rel, KeysValid, Unshard;
    ExecKeeps(db, cmd, cfgs);
    ExecShardedKeeps(L, sdb, cmd, cfgs);
    match cmd
    case SubmitAll(ops) => RelRunOps(L, db, sdb, ops);
    case RemoveOne(key, cfg, m) =>
      RoutedConfig(key, L.ShardOf(m), cfgs);
      forall c | c in db.z && c.member == m
        ensures c.key in {Norm(key)} <==> L.Route(c).key in {ShardKey(Norm(key), L.ShardOf(m))}
      {
        RouteKeyIff(L, c, Norm(key), L.ShardOf(m));
      }
      RelRemoveOn(L, db, sdb, {Norm(key)}, {ShardKey(Norm(key), L.ShardOf(m))}, cfg, m);
    case RemoveEverywhere(app, board, cfg, m) =>
      var name := ShardName(board, L.ShardOf(m));
      forall c | c in db.z && c.member == m
        ensures c.key in ScanKeys(db.z, app, board) <==> L.Route(c).key in ScanKeys(sdb.z, app, name)
      {
        ScanRouted(L, db.z, sdb.z, app, board, c);
      }
      RelRemoveOn(L, db, sdb, ScanKeys(db.z, app, board), ScanKeys(sdb.z, app, name), cfg, m);
    case ResetBoard(key) =>
      RoutedConfig(key, 0, cfgs);
      forall c | c in db.z
        ensures c.key in {Norm(key)} <==> L.Route(c).key in ShardKeys(L, Norm(key))
      {
        RouteKeyIff(L, c, Norm(key), L.ShardOf(c.member));
        if L.Route(c).key in ShardKeys(L, Norm(key)) {
          var i :| 0 <= i < L.shards && L.Route(c).key == ShardKey(Norm(key), i);
          RouteKeyIff(L, c, Norm(key), i);
        }
      }
      RelReset(L, db, sdb, {Norm(key)}, ShardKeys(L, Norm(key)));
  }

  function Run(db: Db, cmds: seq<Cmd>): Db {
    if cmds == [] then db else Exec(Run(db, cmds[..|cmds| - 1]), Last(cmds))
  }

  function RunSharded(L: Layout, db: Db, cmds: seq<Cmd>): Db
    requires L.Valid()
  {
    if cmds == [] then db else ExecSharded(L, RunSharded(L, db, cmds[..|cmds| - 1]), Last(cmds))
  }

  /** Every run of well-formed commands leaves the sharded state a placement of the single-set
      state, with exact histograms on both sides. */
  lemma {:induction false} RunRefines(L: Layout, cfgs: BoardKey -> Config, cmds: seq<Cmd>)
    requires L.Valid()
    requires forall i :: 0 <= i < |cmds| ==> WellFormed(cmds[i], cfgs)
    ensures Refines(L, cfgs, Run(EMPTY, cmds), RunSharded(L, EMPTY, cmds))
  {
    if cmds == [] {
      EmptyInv(cfgs);
      EmptyInv(ShardCfgs(cfgs));
    } else {
      hide Refines, WellFormed, Exec, ExecSharded;
      var front := cmds[..|cmds| - 1];
      RunRefines(L, cfgs, front);
      ExecRefines(L, cfgs, Run(EMPTY, front), RunSharded(L, EMPTY, front), Last(cmds));
    }
  }

  // ---------------------------------------------------------------- reading the shards

  /** The part of a board that lives on shard i. */
  function Part(L: Layout, s: set<Entry>, i: nat): set<Entry>
    requires L.Valid()
  {
    set e | e in s && L.ShardOf(e.member) == i
  }

  lemma ShardZSet(L: Layout, z: map<Cell, real>, s: map<Cell, real>, k: BoardKey, i: nat)
    requires L.Valid() && Rel(L, z, s)
    ensures ZSet(s, ShardKey(k, i)) == Part(L, ZSet(z, k), i)
  {
    hide StripShard, ShardName;
    forall e
      ensures e in ZSet(s, ShardKey(k, i)) <==> e in Part(L, ZSet(z, k), i)
    {
      ZSetMember(s, ShardKey(k, i), e);
      ZSetMember(z, k, e);
      var c := Cell(k, e.member);
      RelCell(L, z, s, c);
      RouteKeyIff(L, c, k, i);
      if Cell(ShardKey(k, i), e.member) in s {
        UnshardShard(k, i);
        assert Unroute(Cell(ShardKey(k, i), e.member)) == c;
      }
    }
  }

  /** The entries some shard returns among its own first n. */
  function FetchedTop(L: Layout, asc: bool, s: set<Entry>, n: nat): set<Entry>
    requires L.Valid()
  {
    RankOrderTotal(asc);
    set e | e in s && e in Top(RankOrder(asc), Part(L, s, L.ShardOf(e.member)), n)
  }

  /** The first n of the whole board are the first n of the union of the shards' first n. */
  lemma MergeTop(L: Layout, asc: bool, s: set<Entry>, n: nat)
    requires L.Valid() && StrictTotal(RankOrder(asc))
    ensures Top(RankOrder(asc), FetchedTop(L, asc, s, n), n) == Top(RankOrder(asc), s, n)
  {
    hide RankOrder, StrictTotal, Before;
    var less := RankOrder(asc);
    forall e | e in Elements(Top(less, s, n))
      ensures e in FetchedTop(L, asc, s, n)
    {
      TopMembership(less, s, n, e);
      var part := Part(L, s, L.ShardOf(e.member));
      BeforeMonotone(less, part, s, e);
      TopMembership(less, part, n, e);
    }
    TopOfSubset(less, FetchedTop(L, asc, s, n), s, n);
  }
}
