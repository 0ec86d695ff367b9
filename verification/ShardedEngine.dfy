/** The sharded engine (pkg/engine/sharded_engine.go) as a refinement of the single-set one: `spec`
    is the state the single-set engine would have after the same commands, every write keeps the two
    in step, and every read is stated as the single-set engine's own answer. */
module ShardedEngines {
  import opened Answers
  import opened Basics
  import opened Boards
  import opened Codec
  import opened Engine
  import opened Keys
  import opened Neighborhood
  import opened Ordering
  import opened Ranking
  import opened Sharding
  import opened Store

  lemma {:induction false} FirstErrorRouted(L: Layout, ops: seq<SubmitOp>)
    requires L.Valid() && forall i :: 0 <= i < |ops| ==> ops[i].key.board != ""
    ensures FirstError(L.RouteOps(ops)) == FirstError(ops)
  {
    hide CheckOp;
    if ops != [] {
      CheckRouted(L, ops[0]);
      assert L.RouteOps(ops)[1..] == L.RouteOps(ops[1..]);
      FirstErrorRouted(L, ops[1..]);
    }
  }

  lemma BoardsNamed(ops: seq<SubmitOp>, cfgs: BoardKey -> Config)
    requires WellFormed(SubmitAll(ops), cfgs)
    ensures forall i :: 0 <= i < |ops| ==> ops[i].key.board != ""
  {
  }

  lemma ResultRouted(L: Layout, db: Db, sdb: Db, ops: seq<SubmitOp>, i: nat)
    requires L.Valid() && Rel(L, db.z, sdb.z) && i < |ops|
    requires forall j :: 0 <= j < |ops| ==> ops[j].key.board != ""
    ensures ResultOf(RunOps(sdb, L.RouteOps(ops)[..i]), L.RouteOps(ops)[i]) == ResultOf(RunOps(db, ops[..i]), ops[i])
  {
    hide Rel, RunOps, ResultOf;
    assert L.RouteOps(ops)[..i] == L.RouteOps(ops[..i]);
    RelRunOps(L, db, sdb, ops[..i]);
    RelApplyOp(L, RunOps(db, ops[..i]), RunOps(sdb, L.RouteOps(ops[..i])), ops[i]);
  }

  // ---------------------------------------------------------------- sums over shards

  function Below(L: Layout, s: set<Entry>, i: nat): set<Entry>
    requires L.Valid()
  {
    set e | e in s && L.ShardOf(e.member) < i
  }

  lemma BelowStep(L: Layout, s: set<Entry>, i: nat)
    requires L.Valid()
    ensures |Below(L, s, i + 1)| == |Below(L, s, i)| + |Part(L, s, i)|
    ensures Below(L, s, 0) == {}
    ensures Below(L, s, L.shards) == s
  {
    assert Below(L, s, i + 1) == Below(L, s, i) + Part(L, s, i);
    assert Below(L, s, i) !! Part(L, s, i);
  }

  /** Bucket j summed over the first n shards. */
  ghost function ShardSum(h: map<Bin, int>, k: BoardKey, j: int, n: nat): int {
    if n == 0 then 0 else ShardSum(h, k, j, n - 1) + HGet(h, Bin(ShardKey(k, n - 1), j))
  }

  function CensusBelow(L: Layout, z: map<Cell, real>, k: BoardKey, cfg: Config, j: int, n: nat): set<Cell>
    requires L.Valid()
  {
    set c | c in Census(z, k, cfg, j) && L.ShardOf(c.member) < n
  }

  function CensusPart(L: Layout, z: map<Cell, real>, k: BoardKey, cfg: Config, j: int, i: nat): set<Cell>
    requires L.Valid()
  {
    set c | c in Census(z, k, cfg, j) && L.ShardOf(c.member) == i
  }

  lemma ShardCensus(L: Layout, z: map<Cell, real>, s: map<Cell, real>, k: BoardKey, cfg: Config, j: int, i: nat)
    requires L.Valid() && Rel(L, z, s)
    ensures |Census(s, ShardKey(k, i), cfg, j)| == |CensusPart(L, z, k, cfg, j, i)|
  {
    hide BucketOf, ShardName, StripShard;
    var a, b := CensusPart(L, z, k, cfg, j, i), Census(s, ShardKey(k, i), cfg, j);
    var f := (c: Cell) => L.Route(c);
    forall d | d in b
      ensures exists c :: c in a && f(c) == d
    {
      var c := Unroute(d);
      UnshardShard(k, i);
      RouteKeyIff(L, c, k, i);
      assert c in a && f(c) == d;
    }
    forall c, e | c in a && e in a && f(c) == f(e)
      ensures c == e
    {
    }
    ImageCard(a, b, f);
  }

  /** Summed over all shards, the bucket counters are the single set's. */
  lemma ShardSumIsCount(L: Layout, cfgs: BoardKey -> Config, db: Db, sdb: Db, k: BoardKey, j: int)
    requires L.Valid() && Refines(L, cfgs, db, sdb)
    ensures ShardSum(sdb.h, k, j, L.shards) == HGet(db.h, Bin(k, j))
  {
    hide BucketOf, KeysValid, StoredInv, Rel, HistInv, Census;
    ShardSumBelow(L, cfgs, db, sdb, k, j, L.shards);
    var cfg := cfgs(k);
    assert CensusBelow(L, db.z, k, cfg, j, L.shards) == Census(db.z, k, cfg, j);
    CountOfBin(db, cfgs, k, j);
  }

  lemma CountOfBin(db: Db, cfgs: BoardKey -> Config, k: BoardKey, j: int)
    requires HistInv(db, cfgs)
    ensures HGet(db.h, Bin(k, j)) == Population(db.z, k, cfgs(k), j)
  {
  }

  lemma {:induction false} ShardSumBelow(L: Layout, cfgs: BoardKey -> Config, db: Db, sdb: Db, k: BoardKey, j: int, n: nat)
    requires L.Valid() && Refines(L, cfgs, db, sdb)
    ensures ShardSum(sdb.h, k, j, n) == if IsApprox(cfgs(k)) then |CensusBelow(L, db.z, k, cfgs(k), j, n)| else 0
  {
    hide BucketOf, KeysValid, StoredInv, Rel, HistInv, Census, HGet, Unshard;
    var cfg := cfgs(k);
    if n == 0 {
      assert CensusBelow(L, db.z, k, cfg, j, 0) == {};
    } else {
      ShardSumBelow(L, cfgs, db, sdb, k, j, n - 1);
      ShardCensus(L, db.z, sdb.z, k, cfg, j, n - 1);
      UnshardShard(k, n - 1);
      CountOfBin(sdb, ShardCfgs(cfgs), ShardKey(k, n - 1), j);
      var lo, part := CensusBelow(L, db.z, k, cfg, j, n - 1), CensusPart(L, db.z, k, cfg, j, n - 1);
      assert CensusBelow(L, db.z, k, cfg, j, n) == lo + part;
      assert lo !! part;
    }
  }

  // ---------------------------------------------------------------- shown entries

  function Shown(r: seq<RankEntry>): seq<(string, real)> {
    seq(|r|, i requires 0 <= i < |r| => (r[i].member, r[i].score))
  }

  function ShownEntries(cfg: Config, l: seq<Entry>): seq<(string, real)> {
    seq(|l|, i requires 0 <= i < |l| => (l[i].member, Decode(cfg, l[i].stored)))
  }

  /** The single-set window shows the k nearest entries on either side. */
  lemma SingleNeighbors(z: map<Cell, real>, b: Board, member: string, k: nat)
    requires CheckBoard(b).None? && Cell(Norm(b.key), member) in z
    ensures var r := NeighborsOf(z, b, member, k);
            var e := Entry(member, z[Cell(Norm(b.key), member)]);
            r.Ok? && Shown(r.value) == ShownEntries(b.cfg, Around(IsAsc(b.cfg), ZSet(z, Norm(b.key)), e, k))
  {
    hide CheckBoard, Norm, Decode, Around, LessInOrder, Before, ZSet, RankOrder, RankSlice, Window, Shown, ShownEntries, IsAsc, Listing;
    var key := Norm(b.key);
    var e := Entry(member, z[Cell(key, member)]);
    ZSetMember(z, key, e);
    WindowIsAround(IsAsc(b.cfg), ZSet(z, key), e, k);
    ShownWindow(b.cfg, BoardListing(z, b), ZRank(z, key, IsAsc(b.cfg), member).value, k);
  }

  lemma ShownWindow(cfg: Config, l: seq<Entry>, p: nat, k: nat)
    requires p < |l|
    ensures Shown(RankSlice(cfg, l, if p < k then 0 else p - k, p + k)) == ShownEntries(cfg, Window(l, p, k))
  {
    hide Decode;
    var lo := if p < k then 0 else p - k;
    var a, b := RankSlice(cfg, l, lo, p + k), Window(l, p, k);
    assert |a| == |b|;
    var x, y := Shown(a), ShownEntries(cfg, b);
    forall i | 0 <= i < |a|
      ensures x[i] == y[i]
    {
      assert b[i] == l[lo + i];
      assert a[i] == RankedEntry(cfg, l[lo + i], lo + i + 1);
    }
  }

  lemma EmptySlice(cfg: Config, l: seq<Entry>, start: nat, stop: int)
    requires stop < start
    ensures RankSlice(cfg, l, start, stop) == []
  {
  }

  lemma NoneDistinct()
    ensures Distinct<Entry>([])
  {
  }

  lemma DistinctConcat<T>(a: seq<T>, b: seq<T>)
    requires Distinct(a) && Distinct(b) && forall x :: x in a ==> x !in b
    ensures Distinct(a + b)
  {
    forall i, j | 0 <= i < j < |a + b|
      ensures (a + b)[i] != (a + b)[j]
    {
      if i < |a| <= j {
        assert a[i] in a && b[j - |a|] in b;
      }
    }
  }

  /** Ranks of a neighbourhood: consecutive, marked as estimates, and the target's own is its estimate
      on an approx board and its place among the candidates on any other. */
  ghost predicate CountedFrom(z: map<Cell, real>, b: Board, u: set<Entry>, e: Entry, r: seq<RankEntry>) {
    && (forall i :: 0 <= i < |r| ==> !r[i].exact && r[i].rank == r[0].rank + i)
    && (exists i :: 0 <= i < |r| && r[i].member == e.member)
    && forall i :: 0 <= i < |r| && r[i].member == e.member ==>
         if b.cfg.approx then Cell(Norm(b.key), e.member) in z && Estimates(z, Norm(b.key), b.cfg, e.member, r[i])
         else r[i].rank == 1 + |Before(RankOrder(IsAsc(b.cfg)), u, e)|
  }

  /** The merged slice is the board's slice once the first stop + 1 entries agree. */
  lemma MergedSlice(L: Layout, cfg: Config, s: set<Entry>, start: nat, stop: nat)
    requires L.Valid()
    ensures RankSlice(cfg, Listing(IsAsc(cfg), FetchedTop(L, IsAsc(cfg), s, stop + 1)), start, stop)
            == RankSlice(cfg, Listing(IsAsc(cfg), s), start, stop)
  {
    hide Decode, LessInOrder, FetchedTop, RankSlice, SortSet;
    var asc := IsAsc(cfg);
    RankOrderTotal(asc);
    MergeTop(L, asc, s, stop + 1);
    RankSlicePrefix(cfg, Listing(asc, FetchedTop(L, asc, s, stop + 1)), Listing(asc, s), start, stop);
  }

  /** On one board equal shown entries are equal entries. */
  lemma ShownInjective(cfg: Config, s: set<Entry>, a: seq<Entry>, b: seq<Entry>)
    requires Elements(a) <= s && Elements(b) <= s
    requires forall x, y :: x in s && y in s && x.member == y.member ==> x == y
    requires ShownEntries(cfg, a) == ShownEntries(cfg, b)
    ensures a == b
  {
    hide Decode;
    assert |a| == |ShownEntries(cfg, a)| == |b|;
    forall i | 0 <= i < |a|
      ensures a[i] == b[i]
    {
      assert ShownEntries(cfg, a)[i].0 == ShownEntries(cfg, b)[i].0;
      assert a[i] in Elements(a) && b[i] in Elements(b);
    }
  }

  lemma ZSetFunctional(z: map<Cell, real>, k: BoardKey)
    ensures forall x, y :: x in ZSet(z, k) && y in ZSet(z, k) && x.member == y.member ==> x == y
  {
  }

  class ShardedEngine {
    const re: RedisEngine
    const L: Layout
    ghost const cfgs: BoardKey -> Config
    ghost var spec: Db

    ghost predicate Valid()
      reads this, re
    {
      L.Valid() && Refines(L, cfgs, spec, re.db)
    }

    constructor (shards: int, hash: string -> nat, ghost cfgs: BoardKey -> Config)
      ensures Valid() && fresh(re) && spec == EMPTY && this.cfgs == cfgs
      ensures L == Layout(if shards < 1 then 1 else shards, hash)
    {
      var single := new RedisEngine();
      re := single;
      L := Layout(if shards < 1 then 1 else shards, hash);
      this.cfgs := cfgs;
      spec := EMPTY;
      new;
      EmptyInv(cfgs);
      EmptyInv(ShardCfgs(cfgs));
    }

    /** Each op on its member's shard board, in the order given. */
    method RouteBatch(ops: seq<SubmitOp>) returns (routed: seq<SubmitOp>)
      requires L.Valid()
      ensures routed == L.RouteOps(ops)
    {
      routed := [];
      for i := 0 to |ops|
        invariant routed == L.RouteOps(ops)[..i]
      {
        routed := routed + [L.RouteOp(ops[i])];
      }
    }

    method SubmitBatch(ops: seq<SubmitOp>) returns (res: Result<seq<SubmitResult>, Error>)
      requires Valid() && WellFormed(SubmitAll(ops), cfgs)
      modifies this, re
      ensures Valid() && spec == Exec(old(spec), SubmitAll(ops))
      ensures FirstError(ops).Some? ==> res == Err(FirstError(ops).value)
      ensures FirstError(ops).None? ==>
        && res.Ok? && |res.value| == |ops|
        && forall i :: 0 <= i < |ops| ==>
             res.value[i] == ResultOf(RunOps(old(spec), ops[..i]), ops[i]) && Reports(old(spec), ops, i, res.value[i])
    {
      hide RunOps, ResultOf, CheckOp, Reports, Rel, Inv, WellFormed, ShardKey;
      BoardsNamed(ops, cfgs);
      ghost var was, swas := spec, re.db;
      ExecRefines(L, cfgs, was, swas, SubmitAll(ops));
      FirstErrorRouted(L, ops);
      var routed := RouteBatch(ops);
      res := re.SubmitBatch(routed);
      spec := Exec(spec, SubmitAll(ops));
      if res.Ok? {
        forall i | 0 <= i < |ops|
          ensures res.value[i] == ResultOf(RunOps(was, ops[..i]), ops[i])
          ensures Reports(was, ops, i, res.value[i])
        {
          ResultRouted(L, was, swas, ops, i);
          ResultReports(was, ops, i);
        }
      }
    }

    method Remove(b: Board, member: string) returns (err: Option<Error>)
      requires Valid() && WellFormed(RemoveOne(b.key, b.cfg, member), cfgs)
      modifies this, re
      ensures Valid() && spec == Exec(old(spec), RemoveOne(b.key, b.cfg, member))
      ensures err == if ValidKey(b.key) then None else Some(InvalidBoardKey)
    {
      hide RemoveOn, Rel, Inv, ValidKey, Norm, ShardKey;
      ExecRefines(L, cfgs, spec, re.db, RemoveOne(b.key, b.cfg, member));
      RoutedConfig(b.key, L.ShardOf(member), cfgs);
      err := re.Remove(Board(ShardKey(b.key, L.ShardOf(member)), b.cfg), member);
      spec := Exec(spec, RemoveOne(b.key, b.cfg, member));
    }

    method RemoveFromAll(app: string, board: string, cfg: Config, member: string)
      requires Valid() && WellFormed(RemoveEverywhere(app, board, cfg, member), cfgs)
      modifies this, re
      ensures Valid() && spec == Exec(old(spec), RemoveEverywhere(app, board, cfg, member))
    {
      hide RemoveOn, Rel, HistInv, StoredInv, ScanKeys, ShardName;
      ExecRefines(L, cfgs, spec, re.db, RemoveEverywhere(app, board, cfg, member));
      re.RemoveFromAll(app, ShardName(board, L.ShardOf(member)), cfg, member);
      spec := Exec(spec, RemoveEverywhere(app, board, cfg, member));
    }

    /** Reset clears the board's shards one after the other. */
    method Reset(b: Board) returns (err: Option<Error>)
      requires Valid() && b.key.board != ""
      modifies this, re
      ensures Valid() && spec == Exec(old(spec), ResetBoard(b.key))
      ensures err == if ValidKey(b.key) then None else Some(InvalidBoardKey)
    {
      hide Rel, Inv, ValidKey, Norm, ShardKey, Store.Reset;
      ghost var k, was := Norm(b.key), re.db;
      ExecRefines(L, cfgs, spec, re.db, ResetBoard(b.key));
      RoutedConfig(b.key, 0, cfgs);
      ResetNowhere(was);
      assert ShardKeys(L.(shards := 0), k) == {};
      for i := 0 to L.shards
        invariant spec == old(spec) && re.db == Store.Reset(was, ShardKeys(L.(shards := i), k))
        invariant i > 0 ==> ValidKey(b.key)
      {
        RoutedConfig(b.key, i, cfgs);
        err := re.Reset(Board(ShardKey(b.key, i), b.cfg));
        if err.Some? {
          assert re.db == was;
          return;
        }
        ClearedIsReset(Store.Reset(was, ShardKeys(L.(shards := i), k)), re.db, {ShardKey(k, i)});
        ResetSplit(was, ShardKeys(L.(shards := i), k), {ShardKey(k, i)});
        assert ShardKeys(L.(shards := i + 1), k) == ShardKeys(L.(shards := i), k) + {ShardKey(k, i)};
      }
      err := None;
      spec := Exec(spec, ResetBoard(b.key));
    }

    method Count(b: Board) returns (res: Result<nat, Error>)
      requires Valid() && b.key.board != ""
      ensures res == if ValidKey(b.key) then Ok(|ZSet(spec.z, Norm(b.key))|) else Err(InvalidBoardKey)
      ensures ValidKey(b.key) ==> res == Ok(|Roster(spec.z, Norm(b.key))|)
    {
      hide Rel, Inv, ValidKey, Norm, ZSet, ShardKey, Below, Part, Roster;
      RosterCount(spec.z, Norm(b.key));
      ghost var s := ZSet(spec.z, Norm(b.key));
      var total := 0;
      BelowStep(L, s, 0);
      for i := 0 to L.shards
        invariant total == |Below(L, s, i)|
        invariant i > 0 ==> ValidKey(b.key)
      {
        RoutedConfig(b.key, i, cfgs);
        ShardZSet(L, spec.z, re.db.z, Norm(b.key), i);
        BelowStep(L, s, i);
        var n := re.Count(Board(ShardKey(b.key, i), b.cfg));
        if n.Err? {
          return Err(n.error);
        }
        total := total + n.value;
      }
      return Ok(total);
    }

    /** Segments unions the shards' segment names. */
    method Segments(app: string, board: string) returns (segs: seq<string>)
      requires Valid() && ColonFree(app) && ColonFree(board)
      ensures segs == SegmentsOf(spec.z, app, board) && ListsSegments(spec.z, app, board, segs)
    {
      hide ListsSegments, Rel, HistInv, StoredInv, ScanKeys, ShardName, StrLess, Sorted;
      StrStrictTotal();
      hide StrictTotal;
      var found: seq<string> := [];
      for i := 0 to L.shards
        invariant Distinct(found)
        invariant forall t :: t in found <==> exists j: nat :: j < i && t in ShardSegments(re.db.z, app, board, j)
      {
        var part := re.Segments(app, ShardName(board, i));
        assert Elements(part) == ShardSegments(re.db.z, app, board, i);
        ghost var before := found;
        for j := 0 to |part|
          invariant Distinct(found)
          invariant forall t :: t in found <==> t in before || t in part[..j]
        {
          assert part[..j + 1] == part[..j] + [part[j]];
          if part[j] !in found {
            found := found + [part[j]];
          }
        }
        assert part[..|part|] == part;
        assert forall t :: t in part <==> t in Elements(part);
        assert forall t :: t in found <==> t in before || t in ShardSegments(re.db.z, app, board, i);
      }
      SegmentsCover(L, spec.z, re.db.z, app, board, found);
      SortSliceIsListing(StrLess, found);
      segs := SortSlice(StrLess, found);
      SegmentsMean(spec.z, app, board);
    }

    /** rangeMerged: each shard's top range, merged, sorted and sliced. */
    method RangeMerged(b: Board, start: nat, stop: int) returns (res: Result<seq<RankEntry>, Error>)
      requires Valid() && b.key.board != ""
      ensures res == if CheckBoard(b).Some? then Err(CheckBoard(b).value)
                     else Ok(RankSlice(b.cfg, BoardListing(spec.z, b), start, stop))
    {
      hide Refines, CheckBoard, Norm, ZSet, RankOrder, StrictTotal, Sorted, RankSlice, FetchedTop, Distinct, SortSlice;
      var bad := CheckBoard(b);
      if bad.Some? {
        return Err(bad.value);
      }
      if stop < start || stop < 0 {
        EmptySlice(b.cfg, BoardListing(spec.z, b), start, stop);
        return Ok([]);
      }
      var asc := IsAsc(b.cfg);
      RankOrderTotal(asc);
      var all := GatherTop(b, stop + 1);
      SortSliceIsListing(RankOrder(asc), all);
      MergedSlice(L, b.cfg, ZSet(spec.z, Norm(b.key)), start, stop);
      all := SortSlice(RankOrder(asc), all);
      var out := Slice(b.cfg, all, start, stop);
      return Ok(out);
    }

    /** Decoding the window [start, stop] of the sorted candidates. */
    static method Slice(cfg: Config, all: seq<Entry>, start: nat, stop: nat) returns (out: seq<RankEntry>)
      requires start <= stop
      ensures out == RankSlice(cfg, all, start, stop)
    {
      hide Decode;
      out := [];
      if |all| <= start {
        return;
      }
      var end := if stop + 1 > |all| then |all| else stop + 1;
      for idx := start to end
        invariant |out| == idx - start
        invariant forall j :: 0 <= j < idx - start ==> out[j] == RankedEntry(cfg, all[start + j], start + j + 1)
      {
        out := out + [RankedEntry(cfg, all[idx], idx + 1)];
      }
      assert out == RankSlice(cfg, all, start, stop);
    }

    /** The first n entries of every shard, one shard after the other. */
    method GatherTop(b: Board, n: nat) returns (all: seq<Entry>)
      requires Valid() && b.key.board != "" && StrictTotal(RankOrder(IsAsc(b.cfg)))
      ensures Distinct(all)
      ensures Elements(all) == FetchedTop(L, IsAsc(b.cfg), ZSet(spec.z, Norm(b.key)), n)
    {
      hide Rel, Inv, Norm, ZSet, ShardKey, RankOrder, StrictTotal, SortSet, Distinct;
      var asc := IsAsc(b.cfg);
      assert Distinct<Entry>([]) by { NoneDistinct(); }
      ghost var s := ZSet(spec.z, Norm(b.key));
      all := [];
      for i := 0 to L.shards
        invariant Distinct(all)
        invariant forall e :: e in all <==> e in FetchedTop(L, asc, s, n) && L.ShardOf(e.member) < i
      {
        RoutedConfig(b.key, i, cfgs);
        ShardZSet(L, spec.z, re.db.z, Norm(b.key), i);
        var zs := Top(RankOrder(asc), ZSet(re.db.z, Norm(ShardKey(b.key, i))), n);
        TopOfPart(L, asc, s, n, i);
        DistinctConcat(all, zs);
        all := all + zs;
      }
    }

    method TopN(b: Board, n: int) returns (res: Result<seq<RankEntry>, Error>)
      requires Valid() && b.key.board != ""
      ensures res == TopOf(spec.z, b, n)
      ensures ShownTop(spec.z, b, n, res)
    {
      hide CheckBoard, BoardListing, RankSlice, Refines, ShowsRanks;
      TopShows(spec.z, b, n);
      if n <= 0 {
        return Ok([]);
      }
      res := RangeMerged(b, 0, n - 1);
    }

    method Page(b: Board, offset: int, limit: int) returns (res: Result<seq<RankEntry>, Error>)
      requires Valid() && b.key.board != ""
      ensures res == PageOf(spec.z, b, offset, limit)
      ensures ShownPage(spec.z, b, offset, limit, res)
    {
      hide CheckBoard, BoardListing, RankSlice, Refines, ShowsRanks;
      PageShows(spec.z, b, offset, limit);
      if limit <= 0 || offset < 0 {
        return Ok([]);
      }
      res := RangeMerged(b, offset, offset + limit - 1);
    }

    /** approxRank: the summed histograms give what the single set's histogram gives, which is at most
        the member's rank and short of it by less than the bucket holds. */
    method GetApproxRank(b: Board, member: string) returns (res: Result<RankEntry, Error>)
      requires Valid() && b.key.board != "" && b.cfg == cfgs(Norm(b.key))
      ensures res == ApproxEntry(spec, b, member)
      ensures Estimated(spec.z, b, member, true, res)
    {
      hide Rel, Inv, CheckBoard, Norm, ShardKey, Decode, BucketIndex, BucketCount, HGet, ApproxRank, Estimates;
      ApproxAnswer(spec, cfgs, b, member);
      var bad := CheckBoard(b);
      if bad.Some? {
        return Err(bad.value);
      }
      if !IsApprox(b.cfg) {
        return Err(ApproxDisabled);
      }
      ghost var k := Norm(b.key);
      RoutedConfig(b.key, L.ShardOf(member), cfgs);
      RelCell(L, spec.z, re.db.z, Cell(k, member));
      var c := Cell(Norm(ShardKey(b.key, L.ShardOf(member))), member);
      if c !in re.db.z {
        return Err(MemberNotFound);
      }
      var primary := Decode(b.cfg, re.db.z[c]);
      var total := SumCounts(b);
      var rank := ApproxRankFromCounts(total, BucketIndex(b.cfg, primary), IsAsc(b.cfg));
      return Ok(RankEntry(member, primary, rank, false));
    }

    /** The bucket counters of all shards added up. */
    method SumCounts(b: Board) returns (total: seq<int>)
      requires Valid() && b.key.board != ""
      ensures total == Counts(spec.h, Norm(b.key), BucketCount(b.cfg))
    {
      hide Rel, Inv, Norm, ShardKey, BucketCount, HGet;
      ghost var k := Norm(b.key);
      var n := BucketCount(b.cfg);
      total := seq(n, i => 0);
      for i := 0 to L.shards
        invariant |total| == n
        invariant forall j :: 0 <= j < n ==> total[j] == ShardSum(re.db.h, k, j, i)
      {
        RoutedConfig(b.key, i, cfgs);
        var cs := CountsFrom(re.db.h, Norm(ShardKey(b.key, i)), n);
        ghost var before := total;
        for j := 0 to n
          invariant |total| == n
          invariant forall l :: 0 <= l < n ==> total[l] == before[l] + if l < j then cs[l] else 0
        {
          total := total[j := total[j] + cs[j]];
        }
      }
      forall j | 0 <= j < n
        ensures total[j] == HGet(spec.h, Bin(k, j))
      {
        ShardSumIsCount(L, cfgs, spec, re.db, k, j);
      }
    }

    method FriendRank(b: Board, members: seq<string>) returns (res: Result<seq<RankEntry>, Error>)
      requires Valid() && b.key.board != ""
      ensures res == FriendsOf(spec.z, b, members)
      ensures if CheckBoard(b).Some? then res == Err(CheckBoard(b).value)
              else res.Ok? && ShowsGroup(spec.z, Norm(b.key), b.cfg, members, res.value)
    {
      hide Rel, Inv, CheckBoard, Norm, ShardKey, Ranked, RankOrder, IsAsc, ShowsGroup;
      GroupShows(spec.z, Norm(b.key), b.cfg, members);
      var bad := CheckBoard(b);
      if bad.Some? {
        return Err(bad.value);
      }
      ghost var k := Norm(b.key);
      var found: seq<Entry> := [];
      for i := 0 to |members|
        invariant found == Found(spec.z, k, members[..i])
      {
        assert members[..i + 1][..i] == members[..i];
        RoutedConfig(b.key, L.ShardOf(members[i]), cfgs);
        RelCell(L, spec.z, re.db.z, Cell(k, members[i]));
        var c := Cell(Norm(ShardKey(b.key, L.ShardOf(members[i]))), members[i]);
        if c in re.db.z {
          found := found + [Entry(members[i], re.db.z[c])];
        }
      }
      assert members[..|members|] == members;
      var sorted := SortSlice(RankOrder(IsAsc(b.cfg)), found);
      return Ok(Ranked(b.cfg, sorted));
    }

    /** Neighbors: fetch k + 1 entries around the target's score from every shard, sort, and take up
        to k on each side of the target. */
    method Neighbors(b: Board, member: string, k: int) returns (res: Result<seq<RankEntry>, Error>)
      requires Valid() && b.key.board != "" && b.cfg == cfgs(Norm(b.key))
      ensures CheckBoard(b).Some? ==> res == Err(CheckBoard(b).value)
      ensures CheckBoard(b).None? && Cell(Norm(b.key), member) !in spec.z ==> res == Err(MemberNotFound)
      ensures CheckBoard(b).None? && Cell(Norm(b.key), member) in spec.z ==>
        var s := ZSet(spec.z, Norm(b.key));
        var e := Entry(member, spec.z[Cell(Norm(b.key), member)]);
        var side := if k < 0 then 0 else k;
        var u := Candidates(L, s, e.stored, side);
        if e in u then res.Ok? && Shown(res.value) == ShownEntries(b.cfg, Around(IsAsc(b.cfg), u, e, side))
                       && CountedFrom(spec.z, b, u, e, res.value)
        else res == Err(MemberNotFound)
    {
      hide Rel, Inv, CheckBoard, Norm, ShardKey, Decode, RankOrder, StrictTotal, Candidates, Around, ZSet, Sorted, SortSlice, Distinct, Shown, ShownEntries, Before, CountedFrom, Estimates;
      var bad := CheckBoard(b);
      if bad.Some? {
        return Err(bad.value);
      }
      var side := if k < 0 then 0 else k;
      var asc := IsAsc(b.cfg);
      ghost var key := Norm(b.key);
      RoutedConfig(b.key, L.ShardOf(member), cfgs);
      RelCell(L, spec.z, re.db.z, Cell(key, member));
      var c := Cell(Norm(ShardKey(b.key, L.ShardOf(member))), member);
      if c !in re.db.z {
        return Err(MemberNotFound);
      }
      var e := Entry(member, re.db.z[c]);
      ghost var s := ZSet(spec.z, key);
      ghost var u := Candidates(L, s, e.stored, side);
      var cands := GatherAround(b, e.stored, side);
      RankOrderTotal(asc);
      SortSliceIsListing(RankOrder(asc), cands);
      cands := SortSlice(RankOrder(asc), cands);
      assert cands == Listing(asc, u);
      var mi := Locate(cands, member);
      CandidatesSubset(L, s, e.stored, side);
      ZSetMember(spec.z, key, e);
      MemberInListing(spec.z, key, asc, u, e, mi);
      if mi.None? {
        return Err(MemberNotFound);
      }
      WindowIsAround(asc, u, e, side);
      RankOrderPosition(asc, u, e, mi.value);
      var out := Surroundings(b, member, cands, mi.value, side, e, u);
      return Ok(out);
    }

    /** The window around the target, ranks counted from its estimate if there is one. */
    method Surroundings(b: Board, member: string, cands: seq<Entry>, mi: nat, k: nat, ghost e: Entry, ghost u: set<Entry>)
      returns (out: seq<RankEntry>)
      requires Valid() && b.key.board != "" && b.cfg == cfgs(Norm(b.key)) && CheckBoard(b).None?
      requires Cell(Norm(b.key), member) in spec.z && e == Entry(member, spec.z[Cell(Norm(b.key), member)])
      requires cands == Listing(IsAsc(b.cfg), u) && mi < |cands| && cands[mi] == e
      requires u <= ZSet(spec.z, Norm(b.key))
      ensures Shown(out) == ShownEntries(b.cfg, Window(cands, mi, k)) && CountedFrom(spec.z, b, u, e, out)
    {
      hide Rel, Inv, CheckBoard, Norm, Decode, Listing, ZSet, RankOrder, Shown, ShownEntries, Window, CountedFrom, ApproxEntry;
      // with the board valid and the member present, the only error left is a disabled estimate
      var me := GetApproxRank(b, member);
      var base := if me.Ok? then me.value.rank else mi + 1;
      out := Numbered(b.cfg, cands, mi, k, base);
      NumberedCounts(spec.z, b, u, e, mi, if mi < k then 0 else mi - k, base, out);
    }

    /** The window around position mi, ranks counted from `base` at the target. */
    static method Numbered(cfg: Config, cands: seq<Entry>, mi: nat, k: nat, base: int) returns (out: seq<RankEntry>)
      requires mi < |cands|
      ensures Shown(out) == ShownEntries(cfg, Window(cands, mi, k))
      ensures var lo := if mi < k then 0 else mi - k;
              && lo <= mi < lo + |out| <= |cands|
              && forall i :: 0 <= i < |out| ==>
                   out[i] == RankEntry(cands[lo + i].member, Decode(cfg, cands[lo + i].stored), base + (lo + i - mi), false)
    {
      hide Decode;
      var lo := if mi < k then 0 else mi - k;
      var hi := if mi + k > |cands| - 1 then |cands| - 1 else mi + k;
      out := [];
      for i := lo to hi + 1
        invariant |out| == i - lo
        invariant forall j :: 0 <= j < i - lo ==>
          out[j] == RankEntry(cands[lo + j].member, Decode(cfg, cands[lo + j].stored), base + (lo + j - mi), false)
      {
        out := out + [RankEntry(cands[i].member, Decode(cfg, cands[i].stored), base + (i - mi), false)];
      }
    }

    /** The first position of a member in a candidate list. */
    static method Locate(cands: seq<Entry>, member: string) returns (mi: Option<nat>)
      ensures mi.Some? ==> mi.value < |cands| && cands[mi.value].member == member
      ensures mi.None? ==> forall i :: 0 <= i < |cands| ==> cands[i].member != member
    {
      for i := 0 to |cands|
        invariant forall j :: 0 <= j < i ==> cands[j].member != member
      {
        if cands[i].member == member {
          return Some(i);
        }
      }
      return None;
    }

    /** The deduplicated union of the two score-window fetches of every shard. */
    method GatherAround(b: Board, t: real, k: nat) returns (cands: seq<Entry>)
      requires Valid() && b.key.board != ""
      ensures Distinct(cands)
      ensures Elements(cands) == Candidates(L, ZSet(spec.z, Norm(b.key)), t, k)
    {
      hide Rel, Inv, Norm, ShardKey, ZSet, Fetch, RankOrder;
      ghost var s := ZSet(spec.z, Norm(b.key));
      ZSetFunctional(spec.z, Norm(b.key));
      var seen: set<string> := {};
      cands := [];
      for i := 0 to L.shards
        invariant Distinct(cands) && seen == set e | e in cands :: e.member
        invariant forall e :: e in cands <==> e in Candidates(L, s, t, k) && L.ShardOf(e.member) < i
      {
        RoutedConfig(b.key, i, cfgs);
        ShardZSet(L, spec.z, re.db.z, Norm(b.key), i);
        var part := ZSet(re.db.z, Norm(ShardKey(b.key, i)));
        var geq, leq := Fetch(true, part, t, k), Fetch(false, part, t, k);
        FetchOfPart(L, true, s, t, k, i);
        FetchOfPart(L, false, s, t, k, i);
        cands, seen := AddUnseen(cands, seen, geq, s);
        cands, seen := AddUnseen(cands, seen, leq, s);
      }
    }

    /** The add closure: append entries whose member was not seen yet. */
    static method AddUnseen(cands: seq<Entry>, seen: set<string>, zs: seq<Entry>, ghost s: set<Entry>)
      returns (cands': seq<Entry>, seen': set<string>)
      requires Distinct(cands) && seen == set e | e in cands :: e.member
      requires forall x, y :: x in s && y in s && x.member == y.member ==> x == y
      requires forall e :: e in cands || e in zs ==> e in s
      ensures Distinct(cands') && seen' == set e | e in cands' :: e.member
      ensures forall e :: e in cands' <==> e in cands || e in zs
    {
      cands', seen' := cands, seen;
      for i := 0 to |zs|
        invariant Distinct(cands') && seen' == set e | e in cands' :: e.member
        invariant forall e :: e in cands' <==> e in cands || e in zs[..i]
      {
        assert zs[..i + 1] == zs[..i] + [zs[i]];
        assert zs[i] in zs;
        if zs[i].member !in seen' {
          seen' := seen' + {zs[i].member};
          cands' := cands' + [zs[i]];
        }
      }
      assert zs[..|zs|] == zs;
    }
  }

  /** Sharded Neighbors shows the single-set answer exactly when every true neighbour is within reach
      of its own shard's fetch; without ties on the target's score that is always so. */
  lemma NeighborsAgree(L: Layout, z: map<Cell, real>, b: Board, member: string, k: nat)
    requires L.Valid() && CheckBoard(b).None? && Cell(Norm(b.key), member) in z
    ensures var s := ZSet(z, Norm(b.key));
            var e := Entry(member, z[Cell(Norm(b.key), member)]);
            var asc := IsAsc(b.cfg);
            var u := Candidates(L, s, e.stored, k);
            var single := NeighborsOf(z, b, member, k);
            && single.Ok?
            && ((e in u && ShownEntries(b.cfg, Around(asc, u, e, k)) == Shown(single.value))
                <==> forall x :: x in Around(asc, s, e, k) ==> Reached(L, s, e.stored, k, x))
            && (Untied(s, e) ==> e in u && ShownEntries(b.cfg, Around(asc, u, e, k)) == Shown(single.value))
  {
    hide CheckBoard, Norm, Decode, Around, Reached, NeighborsOf, ZSet, ShownEntries, Shown, Untied, Candidates;
    var key := Norm(b.key);
    var s := ZSet(z, key);
    var e := Entry(member, z[Cell(key, member)]);
    var asc := IsAsc(b.cfg);
    var u := Candidates(L, s, e.stored, k);
    ZSetMember(z, key, e);
    SingleNeighbors(z, b, member, k);
    NeighborsExactIff(L, asc, s, e, k);
    if e in u {
      CandidatesSubset(L, s, e.stored, k);
      AroundElements(asc, s, e, k);
      AroundElements(asc, u, e, k);
      ZSetFunctional(z, key);
      if ShownEntries(b.cfg, Around(asc, u, e, k)) == ShownEntries(b.cfg, Around(asc, s, e, k)) {
        ShownInjective(b.cfg, s, Around(asc, u, e, k), Around(asc, s, e, k));
      }
    }
    if Untied(s, e) {
      NeighborsExactUntied(L, asc, s, e, k);
    }
  }

  lemma CandidatesSubset(L: Layout, s: set<Entry>, t: real, k: nat)
    requires L.Valid()
    ensures Candidates(L, s, t, k) <= s
  {
  }

  lemma TopOfPart(L: Layout, asc: bool, s: set<Entry>, n: nat, i: nat)
    requires L.Valid() && StrictTotal(RankOrder(asc))
    ensures var zs := Top(RankOrder(asc), Part(L, s, i), n);
            Distinct(zs) && forall e :: e in zs <==> e in FetchedTop(L, asc, s, n) && L.ShardOf(e.member) == i
  {
    hide RankOrder, SortSet, Before;
    var part := Part(L, s, i);
    var zs := Top(RankOrder(asc), part, n);
    forall e
      ensures e in zs ==> e in part
    {
      TopMembership(RankOrder(asc), part, n, e);
    }
    forall e
      ensures e in zs <==> e in FetchedTop(L, asc, s, n) && L.ShardOf(e.member) == i
    {
    }
  }

  lemma FetchOfPart(L: Layout, d: bool, s: set<Entry>, t: real, k: nat, i: nat)
    requires L.Valid()
    ensures forall e :: e in Fetch(d, Part(L, s, i), t, k) ==> e in s && L.ShardOf(e.member) == i
  {
    hide LessInOrder, SortSet;
    RankOrderTotal(d);
    forall e | e in Fetch(d, Part(L, s, i), t, k)
      ensures e in s && L.ShardOf(e.member) == i
    {
      TopMembership(RankOrder(d), Toward(d, Part(L, s, i), t), k + 1, e);
    }
  }

  lemma MemberInListing(z: map<Cell, real>, key: BoardKey, asc: bool, u: set<Entry>, e: Entry, mi: Option<nat>)
    requires u <= ZSet(z, key) && e in ZSet(z, key)
    requires mi.Some? ==> mi.value < |Listing(asc, u)| && Listing(asc, u)[mi.value].member == e.member
    requires mi.None? ==> forall i :: 0 <= i < |Listing(asc, u)| ==> Listing(asc, u)[i].member != e.member
    ensures mi.Some? <==> e in u
    ensures mi.Some? ==> Listing(asc, u)[mi.value] == e
  {
    hide LessInOrder, SortSet, ZSet;
    ZSetFunctional(z, key);
    var l := Listing(asc, u);
    assert e in u <==> e in Elements(l);
    assert e in Elements(l) <==> e in l;
    if mi.Some? {
      assert l[mi.value] in Elements(l);
    }
  }

  lemma ListedOnce(z: map<Cell, real>, key: BoardKey, asc: bool, u: set<Entry>)
    requires u <= ZSet(z, key)
    ensures var l := Listing(asc, u);
            forall i, j :: 0 <= i < |l| && 0 <= j < |l| && l[i].member == l[j].member ==> i == j
  {
    hide LessInOrder, ZSet;
    ZSetFunctional(z, key);
    RankOrderTotal(asc);
    var l := Listing(asc, u);
    forall i, j | 0 <= i < |l| && 0 <= j < |l| && l[i].member == l[j].member
      ensures i == j
    {
      assert l[i] in Elements(l) && l[j] in Elements(l);
      RankOrderPosition(asc, u, l[i], i);
      RankOrderPosition(asc, u, l[j], j);
    }
  }

  /** Numbering a stretch of the candidates from the target's rank. */
  lemma NumberedCounts(z: map<Cell, real>, b: Board, u: set<Entry>, e: Entry, mi: nat, lo: nat, base: int, out: seq<RankEntry>)
    requires u <= ZSet(z, Norm(b.key)) && e in u
    requires var l := Listing(IsAsc(b.cfg), u);
             && lo <= mi < lo + |out| <= |l| && l[mi] == e
             && forall i :: 0 <= i < |out| ==>
                  out[i] == RankEntry(l[lo + i].member, Decode(b.cfg, l[lo + i].stored), base + (lo + i - mi), false)
    requires if b.cfg.approx then Cell(Norm(b.key), e.member) in z
                                  && Estimates(z, Norm(b.key), b.cfg, e.member, RankEntry(e.member, Decode(b.cfg, e.stored), base, false))
             else base == mi + 1
    ensures CountedFrom(z, b, u, e, out)
  {
    hide Norm, Decode, LessInOrder, ZSet, Estimates, Listing;
    var asc, l := IsAsc(b.cfg), Listing(IsAsc(b.cfg), u);
    ListedOnce(z, Norm(b.key), asc, u);
    RankOrderPosition(asc, u, e, mi);
    assert out[mi - lo].member == e.member;
  }

  lemma RankOrderPosition(asc: bool, u: set<Entry>, e: Entry, i: nat)
    requires i < |Listing(asc, u)| && Listing(asc, u)[i] == e
    ensures |Before(RankOrder(asc), u, e)| == i
  {
    hide LessInOrder;
    RankOrderTotal(asc);
    PositionIsRank(RankOrder(asc), u, i);
  }

  ghost function ShardSegments(s: map<Cell, real>, app: string, board: string, i: nat): set<string> {
    set k | k in ScanKeys(s, app, ShardName(board, i)) :: k.segment
  }

  lemma SegmentsCover(L: Layout, z: map<Cell, real>, s: map<Cell, real>, app: string, board: string, found: seq<string>)
    requires L.Valid() && Rel(L, z, s) && KeysValid(z) && KeysValid(s) && ColonFree(app) && ColonFree(board)
    requires forall t :: t in found <==> exists j: nat :: j < L.shards && t in ShardSegments(s, app, board, j)
    ensures Elements(found) == set k | k in ScanKeys(z, app, board) :: k.segment
  {
    hide ValidKey, Norm, Glob, ScanPattern, ZKey, ShardName, StripShard;
    var all := set k | k in ScanKeys(z, app, board) :: k.segment;
    forall t | t in all
      ensures t in found
    {
      var k :| k in ScanKeys(z, app, board) && k.segment == t;
      var c :| c in z && c.key == k;
      ScanRouted(L, z, s, app, board, c);
      assert L.Route(c).key in ScanKeys(s, app, ShardName(board, L.ShardOf(c.member)));
      assert t in ShardSegments(s, app, board, L.ShardOf(c.member));
    }
    forall t | t in found
      ensures t in all
    {
      var j: nat :| j < L.shards && t in ShardSegments(s, app, board, j);
      var k :| k in ScanKeys(s, app, ShardName(board, j)) && k.segment == t;
      var d :| d in s && d.key == k;
      var c := Unroute(d);
      ScanRouted(L, z, s, app, board, c);
      assert c.key in ScanKeys(z, app, board);
    }
  }
}
