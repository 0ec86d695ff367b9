/** The single-set engine (pkg/engine/redis_engine.go): the simple form every other one must agree
    with. Each command is tied to a function of the Redis state. */
module Engine {
  import opened Answers
  import opened Basics
  import opened Boards
  import opened Codec
  import opened Keys
  import opened Ordering
  import opened Ranking
  import opened Store

  datatype Board = Board(key: BoardKey, cfg: Config)

  function CheckBoard(b: Board): Option<Error> {
    if !ValidKey(b.key) then Some(InvalidBoardKey)
    else if !ValidConfig(b.cfg) then Some(InvalidConfig)
    else None
  }

  /** The error of a batch: that of its first bad op. */
  function FirstError(ops: seq<SubmitOp>): (e: Option<Error>)
    ensures e.None? <==> AllOk(ops)
  {
    if ops == [] then None
    else if CheckOp(ops[0]).Err? then Some(CheckOp(ops[0]).error)
    else
      assert ops == [ops[0]] + ops[1..];
      FirstError(ops[1..])
  }

  /** The listing of a board in its own order. */
  function BoardListing(z: map<Cell, real>, b: Board): seq<Entry> {
    Listing(IsAsc(b.cfg), ZSet(z, Norm(b.key)))
  }

  // ---------------------------------------------------------------- friends

  /** The entries of the given members that are on the board, in the order given. */
  function Found(z: map<Cell, real>, k: BoardKey, members: seq<string>): seq<Entry> {
    if members == [] then []
    else
      var front := Found(z, k, members[..|members| - 1]);
      var c := Cell(k, Last(members));
      if c in z then front + [Entry(Last(members), z[c])] else front
  }

  function Ranked(cfg: Config, l: seq<Entry>): seq<RankEntry> {
    seq(|l|, i requires 0 <= i < |l| => RankedEntry(cfg, l[i], i + 1))
  }

  /** Ranking the distinct members of a group against each other lists exactly those who are on the
      board, in the board's own order: the subsequence of the full listing. */
  lemma FriendsAgreeWithBoard(z: map<Cell, real>, k: BoardKey, asc: bool, members: seq<string>)
    requires Distinct(members)
    ensures SortSlice(RankOrder(asc), Found(z, k, members))
            == Listing(asc, set e | e in ZSet(z, k) && e.member in members)
  {
    hide LessInOrder, SortSlice, SortSet, Found, StrictTotal, Sorted;
    RankOrderTotal(asc);
    FoundElements(z, k, members);
    SortSliceIsListing(RankOrder(asc), Found(z, k, members));
    assert Elements(Found(z, k, members)) == set e | e in ZSet(z, k) && e.member in members;
  }

  lemma {:induction false} FoundElements(z: map<Cell, real>, k: BoardKey, members: seq<string>)
    ensures forall e :: e in Found(z, k, members) <==> e in ZSet(z, k) && e.member in members
    ensures Distinct(members) ==> Distinct(Found(z, k, members))
  {
    if members != [] {
      var front := members[..|members| - 1];
      FoundElements(z, k, front);
      assert members == front + [Last(members)];
      forall e
        ensures e in Found(z, k, members) <==> e in ZSet(z, k) && e.member in members
      {
        ZSetMember(z, k, e);
      }
      if Distinct(members) {
        assert Last(members) !in front;
      }
    }
  }

  lemma {:induction false} FoundCount(z: map<Cell, real>, k: BoardKey, members: seq<string>, m: string)
    requires Cell(k, m) in z
    ensures multiset(Found(z, k, members))[Entry(m, z[Cell(k, m)])] == multiset(members)[m]
  {
    if members != [] {
      var front := members[..|members| - 1];
      FoundCount(z, k, front, m);
      assert members == front + [Last(members)];
    }
  }

  lemma {:induction false} NamesCount(z: map<Cell, real>, k: BoardKey, cfg: Config, l: seq<Entry>, m: string)
    requires forall e :: e in l ==> Cell(k, e.member) in z && z[Cell(k, e.member)] == e.stored
    ensures multiset(Names(Ranked(cfg, l)))[m] == if Cell(k, m) in z then multiset(l)[Entry(m, z[Cell(k, m)])] else 0
  {
    hide Decode;
    if l == [] {
      assert Names(Ranked(cfg, l)) == [];
    } else {
      var front := l[..|l| - 1];
      assert l == front + [Last(l)];
      NamesCount(z, k, cfg, front, m);
      assert Names(Ranked(cfg, l)) == Names(Ranked(cfg, front)) + [Last(l).member];
    }
  }

  /** The sorted entries of a group: all on the board, in board order. */
  lemma GroupSorted(z: map<Cell, real>, k: BoardKey, cfg: Config, members: seq<string>)
    ensures var found := Found(z, k, members);
            var l := SortSlice(RankOrder(IsAsc(cfg)), found);
            && (forall e :: e in l ==> Cell(k, e.member) in z && z[Cell(k, e.member)] == e.stored)
            && (forall i, j :: 0 <= i < j < |l| ==> !LessInOrder(IsAsc(cfg), l[j], l[i]))
  {
    hide LessInOrder, IsAsc, ZSet, SortSlice, Found, StrictTotal;
    var less, found := RankOrder(IsAsc(cfg)), Found(z, k, members);
    var l := SortSlice(less, found);
    RankOrderTotal(IsAsc(cfg));
    SliceSorted(less, found);
    FoundElements(z, k, members);
    forall e | e in l
      ensures Cell(k, e.member) in z && z[Cell(k, e.member)] == e.stored
    {
      assert e in multiset(found);
      ZSetMember(z, k, e);
    }
    forall i, j | 0 <= i < j < |l|
      ensures !LessInOrder(IsAsc(cfg), l[j], l[i])
    {
      assert !less(l[j], l[i]);
    }
  }

  /** Ranking a group shows its members who are on the board, in board order. */
  lemma GroupShows(z: map<Cell, real>, k: BoardKey, cfg: Config, members: seq<string>)
    ensures ShowsGroup(z, k, cfg, members, Ranked(cfg, SortSlice(RankOrder(IsAsc(cfg)), Found(z, k, members))))
  {
    hide LessInOrder, IsAsc, ZSet, RankOf, Decode, Precedes, SortSlice, Found, Ranked, Names, RankOrder;
    var l := SortSlice(RankOrder(IsAsc(cfg)), Found(z, k, members));
    GroupSorted(z, k, cfg, members);
    var r := Ranked(cfg, l);
    RankedAt(cfg, l);
    forall m
      ensures multiset(Names(r))[m] == if Cell(k, m) in z then multiset(members)[m] else 0
    {
      NamesCount(z, k, cfg, l, m);
      if Cell(k, m) in z {
        FoundCount(z, k, members, m);
      }
    }
    forall i, j | 0 <= i < j < |r|
      ensures RankOf(z, k, cfg, r[i].member) <= RankOf(z, k, cfg, r[j].member)
    {
      assert l[i] in l && l[j] in l;
      PrecedesIsOrder(z, k, cfg, l[j].member, l[i].member);
      RanksCompare(z, k, cfg, l[j].member, l[i].member);
    }
  }

  lemma RankedAt(cfg: Config, l: seq<Entry>)
    ensures |Ranked(cfg, l)| == |l|
    ensures forall i :: 0 <= i < |l| ==> Ranked(cfg, l)[i] == RankEntry(l[i].member, Decode(cfg, l[i].stored), i + 1, true)
  {
    hide Decode;
  }

  /** The histogram after the first i queued moves of a batch. */
  lemma BatchStep(db: Db, ops: seq<SubmitOp>, i: nat)
    requires i < |ops| && CheckOp(ops[i]).Ok?
    ensures RunOps(db, ops[..i + 1]) == ApplyOp(RunOps(db, ops[..i]), ops[i])
  {
    assert ops[..i + 1][..i] == ops[..i];
  }

  lemma NoOps(db: Db, ops: seq<SubmitOp>)
    ensures RunOps(db, ops[..0]) == db
  {
  }

  /** What the write pipeline reads and writes for op i. */
  lemma PipelineStep(start: Db, ops: seq<SubmitOp>, i: nat)
    requires i < |ops| && CheckOp(ops[i]).Ok?
    ensures var op := ops[i];
            var db := RunOps(start, ops[..i]);
            var before := Lookup(db.z, CellOf(op));
            var next := NewValue(op.cfg, before, op.score, CheckOp(op).value);
            && RunOps(start, ops[..i + 1]).z == db.z[CellOf(op) := next]
            && Recorded(start, ops, i, before, next)
            && ResultOf(db, op) == SubmitResult(WithDefaults(op.cfg).policy.Increment? || before != Some(next), Decode(op.cfg, next))
  {
    hide CheckOp, NewValue, Decode, Moved;
    BatchStep(start, ops, i);
  }

  /** What a caller reads off a batch's i-th result: the score the member then has, and whether the op
      added to it or changed it. */
  ghost predicate Reports(start: Db, ops: seq<SubmitOp>, i: nat, r: SubmitResult)
    requires i < |ops|
  {
    var c, cfg := Cell(Norm(ops[i].key), ops[i].member), ops[i].cfg;
    var before, after := Lookup(RunOps(start, ops[..i]).z, c), Lookup(RunOps(start, ops[..i + 1]).z, c);
    && after.Some?
    && r.score == Decode(cfg, after.value)
    && (r.updated <==> cfg.policy.Increment? || before != after)
  }

  lemma ResultReports(start: Db, ops: seq<SubmitOp>, i: nat)
    requires i < |ops| && CheckOp(ops[i]).Ok?
    ensures Reports(start, ops, i, ResultOf(RunOps(start, ops[..i]), ops[i]))
  {
    hide CheckOp, NewValue, Decode, Moved, Recorded, ResultOf, RunOps;
    PipelineStep(start, ops, i);
  }

  lemma RemoveNowhere(db: Db, cfg: Config, member: string)
    ensures RemoveOn(db, {}, cfg, member) == db
  {
    var d := RemoveOn(db, {}, cfg, member);
    assert Vacated(db.z, {}, cfg, member) == {};
    assert d.z == db.z && d.h == db.h;
  }

  lemma RemoveNext(db: Db, keys: set<BoardKey>, rest: set<BoardKey>, k: BoardKey, cfg: Config, member: string)
    requires rest <= keys && k in rest
    ensures |rest - {k}| == |rest| - 1
    ensures RemoveOn(RemoveOn(db, keys - rest, cfg, member), {k}, cfg, member)
            == RemoveOn(db, keys - (rest - {k}), cfg, member)
  {
    hide RemoveOn;
    RemoveOnSplit(db, keys - rest, {k}, cfg, member);
    assert (keys - rest) + {k} == keys - (rest - {k});
  }

  lemma TakenSoFar<T>(keys: set<T>, rest: set<T>)
    requires rest <= keys
    ensures |keys - rest| == |keys| - |rest|
  {
    assert (keys - rest) + rest == keys;
  }

  class RedisEngine {
    var db: Db

    constructor ()
      ensures db == EMPTY
    {
      db := EMPTY;
    }

    /** SubmitBatch: one pipeline validates and queues, the next reads, writes and reads back, and a
        last one moves the histogram counters. Repeated ops on one member telescope: the outcome is
        that of the ops applied one at a time. One bad op fails the whole batch. */
    method SubmitBatch(ops: seq<SubmitOp>) returns (res: Result<seq<SubmitResult>, Error>)
      modifies this
      ensures FirstError(ops).Some? ==> db == old(db) && res == Err(FirstError(ops).value)
      ensures FirstError(ops).None? ==>
        && db == RunOps(old(db), ops)
        && res.Ok? && |res.value| == |ops|
        && forall i :: 0 <= i < |ops| ==>
             res.value[i] == ResultOf(RunOps(old(db), ops[..i]), ops[i]) && Reports(old(db), ops, i, res.value[i])
    {
      hide ApplyOp, ResultOf, CheckOp, Reports;
      ghost var start := db;
      var bad := FirstBad(ops);
      if bad.Some? {
        return Err(bad.value);
      }
      var pre, post, results := Pipeline(ops);
      MaintainHistograms(ops, pre, post, start);
      forall i | 0 <= i < |ops|
        ensures Reports(start, ops, i, results[i])
      {
        ResultReports(start, ops, i);
      }
      return Ok(results);
    }

    /** The queueing loop: the first op that fails validation or encoding. */
    static method FirstBad(ops: seq<SubmitOp>) returns (e: Option<Error>)
      ensures e == FirstError(ops)
    {
      hide CheckOp;
      for i := 0 to |ops|
        invariant FirstError(ops) == FirstError(ops[i..])
      {
        assert ops[i..][0] == ops[i] && ops[i..][1..] == ops[i + 1..];
        var check := CheckOp(ops[i]);
        if check.Err? {
          return Some(check.error);
        }
      }
      return None;
    }

    /** The write pipeline: for each op in order, read the old value, write, read the new value. */
    method Pipeline(ops: seq<SubmitOp>)
      returns (pre: seq<Option<real>>, post: seq<real>, results: seq<SubmitResult>)
      requires AllOk(ops)
      modifies this
      ensures |pre| == |post| == |results| == |ops|
      ensures db == Db(RunOps(old(db), ops).z, old(db).h)
      ensures forall j :: 0 <= j < |ops| ==> Recorded(old(db), ops, j, pre[j], post[j])
      ensures forall j :: 0 <= j < |ops| ==> results[j] == ResultOf(RunOps(old(db), ops[..j]), ops[j])
    {
      hide CheckOp, NewValue, Decode, ApplyOp, ResultOf, Recorded, RunOps;
      ghost var start := db;
      pre, post, results := [], [], [];
      assert RunOps(start, ops[..0]) == start by {
        NoOps(start, ops);
      }
      for i := 0 to |ops|
        invariant |pre| == |post| == |results| == i
        invariant db == Db(RunOps(start, ops[..i]).z, start.h)
        invariant forall j :: 0 <= j < i ==> Recorded(start, ops, j, pre[j], post[j])
        invariant forall j :: 0 <= j < i ==> results[j] == ResultOf(RunOps(start, ops[..j]), ops[j])
      {
        var op, c, enc := ops[i], CellOf(ops[i]), CheckOp(ops[i]).value;
        PipelineStep(start, ops, i);
        var before := Lookup(db.z, c);
        var next := NewValue(op.cfg, before, op.score, enc);
        db := db.(z := db.z[c := next]);
        var updated := WithDefaults(op.cfg).policy.Increment? || before != Some(next);
        pre, post := pre + [before], post + [next];
        results := results + [SubmitResult(updated, Decode(op.cfg, next))];
      }
      assert ops[..|ops|] == ops;
    }

    /** maintainHistograms: from the values read around each write, move the members between buckets. */
    method MaintainHistograms(ops: seq<SubmitOp>, pre: seq<Option<real>>, post: seq<real>, ghost start: Db)
      requires |pre| == |post| == |ops| && AllOk(ops)
      requires forall j :: 0 <= j < |ops| ==> Recorded(start, ops, j, pre[j], post[j])
      requires db == Db(RunOps(start, ops).z, start.h)
      modifies this
      ensures db == RunOps(start, ops)
    {
      hide CheckOp, NewValue, Decode, BucketIndex, BucketCount;
      for i := 0 to |ops|
        invariant db == Db(RunOps(start, ops).z, RunOps(start, ops[..i]).h)
      {
        BatchStep(start, ops, i);
        assert Recorded(start, ops, i, pre[i], post[i]);
        var cfg, key := ops[i].cfg, Norm(ops[i].key);
        if IsApprox(cfg) {
          var newPrimary := Decode(cfg, post[i]);
          if pre[i].None? {
            db := db.(h := HIncr(db.h, Bin(key, BucketIndex(cfg, newPrimary)), 1));
          } else {
            var oldPrimary := Decode(cfg, pre[i].value);
            if oldPrimary != newPrimary {
              var h := HIncr(db.h, Bin(key, BucketIndex(cfg, oldPrimary)), -1);
              db := db.(h := HIncr(h, Bin(key, BucketIndex(cfg, newPrimary)), 1));
            }
          }
        }
      }
      assert ops[..|ops|] == ops;
    }

    /** Remove one member from one board. */
    method Remove(b: Board, member: string) returns (err: Option<Error>)
      modifies this
      ensures !ValidKey(b.key) ==> err == Some(InvalidBoardKey) && db == old(db)
      ensures ValidKey(b.key) ==> err == None && db == RemoveOn(old(db), {Norm(b.key)}, b.cfg, member)
    {
      if !ValidKey(b.key) {
        return Some(InvalidBoardKey);
      }
      var c := Cell(Norm(b.key), member);
      var stored := Lookup(db.z, c);
      var h := db.h;
      if IsApprox(b.cfg) && stored.Some? {
        h := HIncr(h, Bin(c.key, BucketOf(b.cfg, stored.value)), -1);
      }
      ghost var target := RemoveOn(db, {c.key}, b.cfg, member);
      assert h == target.h by {
        assert h.Keys == target.h.Keys;
        assert forall f :: f in h ==> h[f] == target.h[f];
      }
      db := Db(map d | d in db.z && d != c :: db.z[d], h);
      assert db.z == target.z;
      return None;
    }

    /** RemoveFromAll: scan the raw keys, parse each, and remove the member board by board. */
    method RemoveFromAll(app: string, board: string, cfg: Config, member: string)
      requires KeysValid(db.z)
      modifies this
      ensures db == RemoveAll(old(db), app, board, cfg, member)
      ensures KeysValid(db.z)
    {
      hide RemoveOn, ScanKeys, KeysValid;
      var failed, done := RemoveFromSome(app, board, cfg, member, None);
    }

    /** The same loop with an engine that fails after `budget` removals, if given: it stops there. */
    method RemoveFromSome(app: string, board: string, cfg: Config, member: string, budget: Option<nat>)
      returns (failed: bool, ghost done: set<BoardKey>)
      requires KeysValid(db.z)
      modifies this
      ensures done <= ScanKeys(old(db).z, app, board) && db == RemoveOn(old(db), done, cfg, member)
      ensures failed <==> budget.Some? && budget.value < |ScanKeys(old(db).z, app, board)|
      ensures if failed then |done| == budget.value else done == ScanKeys(old(db).z, app, board)
      ensures KeysValid(db.z)
    {
      hide ValidKey, Norm, ScanKeys, RemoveOn, KeysValid;
      ghost var start := db;
      var keys := ScanBoardKeys(app, board);
      var rest, n := keys, 0;
      RemoveNowhere(db, cfg, member);
      assert keys - rest == {};
      while rest != {} && budget != Some(n)
        invariant rest <= keys && n + |rest| == |keys|
        invariant db == RemoveOn(start, keys - rest, cfg, member)
        invariant budget.Some? ==> n <= budget.value
        decreases |rest|
      {
        var k :| k in rest;
        RemoveNext(start, keys, rest, k, cfg, member);
        rest := rest - {k};
        n := n + 1;
        var err := Remove(Board(k, cfg), member);
      }
      done := keys - rest;
      TakenSoFar(keys, rest);
      RemovedKeysValid(start, done, cfg, member);
      failed := rest != {};
    }

    /** scanBoardKeys: the keys of every live sorted set the pattern selects. */
    method ScanBoardKeys(app: string, board: string) returns (keys: set<BoardKey>)
      requires KeysValid(db.z)
      ensures keys == ScanKeys(db.z, app, board)
      ensures forall k :: k in keys ==> ValidKey(k) && Norm(k) == k
    {
      var raws := set c | c in db.z && Glob(ScanPattern(app, board), ZKey(c.key)) :: ZKey(c.key);
      ghost var all := raws;
      keys := {};
      while raws != {}
        invariant raws <= all
        invariant forall k :: k in ScanKeys(db.z, app, board) ==> ZKey(k) in all
        invariant forall k :: k in keys <==> k in ScanKeys(db.z, app, board) && ZKey(k) !in raws
        decreases |raws|
      {
        var raw :| raw in raws;
        raws := raws - {raw};
        ghost var c :| c in db.z && Glob(ScanPattern(app, board), ZKey(c.key)) && ZKey(c.key) == raw;
        ParseZKey(c.key);
        forall k | k in ScanKeys(db.z, app, board) && ZKey(k) == raw
          ensures k == c.key
        {
          ParseZKey(k);
        }
        var parsed := ParseKey(raw);
        if parsed.Some? {
          keys := keys + {parsed.value};
        }
      }
    }

    /** Segments: the sorted segment names with live boards. */
    method Segments(app: string, board: string) returns (segs: seq<string>)
      requires KeysValid(db.z)
      ensures segs == SegmentsOf(db.z, app, board)
      ensures ColonFree(app) && ColonFree(board) ==> ListsSegments(db.z, app, board, segs)
    {
      hide ScanKeys, ValidKey, Norm, KeysValid, ListsSegments, ColonFree;
      if ColonFree(app) && ColonFree(board) {
        SegmentsMean(db.z, app, board);
      }
      StrStrictTotal();
      var keys := ScanBoardKeys(app, board);
      ghost var all := keys;
      var found: seq<string> := [];
      while keys != {}
        invariant keys <= all && Distinct(found)
        invariant forall s :: s in found <==> exists k :: k in all - keys && k.segment == s
        decreases |keys|
      {
        var k :| k in keys;
        keys := keys - {k};
        if k.segment !in found {
          found := found + [k.segment];
        }
      }
      SortSliceIsListing(StrLess, found);
      assert Elements(found) == set k | k in all :: k.segment;
      segs := SortSlice(StrLess, found);
    }

    method Reset(b: Board) returns (err: Option<Error>)
      modifies this
      ensures !ValidKey(b.key) ==> err == Some(InvalidBoardKey) && db == old(db)
      ensures ValidKey(b.key) ==> err == None && ClearedFrom(old(db), db, {Norm(b.key)})
    {
      if !ValidKey(b.key) {
        return Some(InvalidBoardKey);
      }
      db := Store.Reset(db, {Norm(b.key)});
      return None;
    }

    /** Count: how many members are on the board, which is how long its full listing is. */
    method Count(b: Board) returns (res: Result<nat, Error>)
      ensures res == if ValidKey(b.key) then Ok(|BoardListing(db.z, b)|) else Err(InvalidBoardKey)
      ensures ValidKey(b.key) ==> res == Ok(|Roster(db.z, Norm(b.key))|)
    {
      if !ValidKey(b.key) {
        return Err(InvalidBoardKey);
      }
      RosterCount(db.z, Norm(b.key));
      return Ok(|ZSet(db.z, Norm(b.key))|);
    }

    /** GetRank: the member's own score and rank; the entry at that position of the full listing is
        the member's. */
    method GetRank(b: Board, member: string) returns (res: Result<RankEntry, Error>)
      ensures CheckBoard(b).Some? ==> res == Err(CheckBoard(b).value)
      ensures CheckBoard(b).None? ==>
        var l := BoardListing(db.z, b);
        if Cell(Norm(b.key), member) in db.z then
          res.Ok? && 1 <= res.value.rank <= |l|
          && res.value == RankedEntry(b.cfg, l[res.value.rank - 1], res.value.rank)
          && res.value.member == member && Exact(db.z, Norm(b.key), b.cfg, res.value)
        else res == Err(MemberNotFound)
    {
      hide Decode, Norm, CheckBoard, RankOf, LessInOrder;
      var bad := CheckBoard(b);
      if bad.Some? {
        return Err(bad.value);
      }
      var k := Norm(b.key);
      var rank := ZRank(db.z, k, IsAsc(b.cfg), member);
      if rank.None? {
        return Err(MemberNotFound);
      }
      ZRankIsPosition(db.z, k, IsAsc(b.cfg), member);
      RankIsPosition(db.z, k, b.cfg, member);
      return Ok(RankEntry(member, Decode(b.cfg, db.z[Cell(k, member)]), rank.value + 1, true));
    }

    /** GetApproxRank: an estimate of the rank from the histogram. While every board's histogram is
        exact, it is at most the member's rank and short of it by less than the bucket holds. */
    method GetApproxRank(b: Board, member: string, ghost cfgs: BoardKey -> Config) returns (res: Result<RankEntry, Error>)
      ensures res == ApproxEntry(db, b, member)
      ensures Estimated(db.z, b, member, Inv(db, cfgs) && cfgs(Norm(b.key)) == b.cfg, res)
    {
      hide Norm, Decode, BucketIndex, BucketCount, ApproxRank, Inv, Estimates, ValidKey, ValidConfig;
      ApproxAnswer(db, cfgs, b, member);
      var bad := CheckBoard(b);
      if bad.Some? {
        return Err(bad.value);
      }
      if !IsApprox(b.cfg) {
        return Err(ApproxDisabled);
      }
      var k := Norm(b.key);
      var c := Cell(k, member);
      if c !in db.z {
        return Err(MemberNotFound);
      }
      var primary := Decode(b.cfg, db.z[c]);
      var counts := CountsFrom(db.h, k, BucketCount(b.cfg));
      var rank := ApproxRankFromCounts(counts, BucketIndex(b.cfg, primary), IsAsc(b.cfg));
      return Ok(RankEntry(member, primary, rank, false));
    }

    /** rangeByRank. */
    method RangeByRank(b: Board, start: nat, stop: int) returns (res: Result<seq<RankEntry>, Error>)
      ensures res == if CheckBoard(b).Some? then Err(CheckBoard(b).value)
                     else Ok(RankSlice(b.cfg, BoardListing(db.z, b), start, stop))
    {
      hide Decode, CheckBoard, BoardListing;
      var bad := CheckBoard(b);
      if bad.Some? {
        return Err(bad.value);
      }
      if stop < start {
        return Ok([]);
      }
      var l := BoardListing(db.z, b);
      var end := Min(stop + 1, |l|);
      var zs := if start < end then l[start..end] else [];
      var out: seq<RankEntry> := [];
      for i := 0 to |zs|
        invariant |out| == i
        invariant forall j :: 0 <= j < i ==> out[j] == RankedEntry(b.cfg, l[start + j], start + j + 1)
      {
        out := out + [RankedEntry(b.cfg, zs[i], start + i + 1)];
      }
      assert out == RankSlice(b.cfg, l, start, stop);
      return Ok(out);
    }

    /** TopN: ranks 1 to n. */
    method TopN(b: Board, n: int) returns (res: Result<seq<RankEntry>, Error>)
      ensures res == TopOf(db.z, b, n)
      ensures ShownTop(db.z, b, n, res)
    {
      hide CheckBoard, BoardListing, RankSlice, ShowsRanks;
      TopShows(db.z, b, n);
      if n <= 0 {
        return Ok([]);
      }
      res := RangeByRank(b, 0, n - 1);
    }

    /** Page: ranks offset + 1 to offset + limit. */
    method Page(b: Board, offset: int, limit: int) returns (res: Result<seq<RankEntry>, Error>)
      ensures res == PageOf(db.z, b, offset, limit)
      ensures ShownPage(db.z, b, offset, limit, res)
    {
      hide CheckBoard, BoardListing, RankSlice, ShowsRanks;
      PageShows(db.z, b, offset, limit);
      if limit <= 0 || offset < 0 {
        return Ok([]);
      }
      res := RangeByRank(b, offset, offset + limit - 1);
    }

    /** Neighbors: the ranks at most k away from the member's own. */
    method Neighbors(b: Board, member: string, k: int) returns (res: Result<seq<RankEntry>, Error>)
      ensures res == NeighborsOf(db.z, b, member, k)
      ensures ShownNear(db.z, b, member, k, res)
    {
      hide CheckBoard, BoardListing, RankSlice, Norm, ZRank, IsAsc, ShowsRanks, RankOf;
      NearShows(db.z, b, member, k);
      var bad := CheckBoard(b);
      if bad.Some? {
        return Err(bad.value);
      }
      var side := if k < 0 then 0 else k;
      var rank := ZRank(db.z, Norm(b.key), IsAsc(b.cfg), member);
      if rank.None? {
        return Err(MemberNotFound);
      }
      var start := if rank.value - side < 0 then 0 else rank.value - side;
      res := RangeByRank(b, start, rank.value + side);
    }

    /** FriendRank: the members of a group who are on the board, ranked against each other. */
    method FriendRank(b: Board, members: seq<string>) returns (res: Result<seq<RankEntry>, Error>)
      ensures res == FriendsOf(db.z, b, members)
      ensures if CheckBoard(b).Some? then res == Err(CheckBoard(b).value)
              else res.Ok? && ShowsGroup(db.z, Norm(b.key), b.cfg, members, res.value)
    {
      hide CheckBoard, Norm, IsAsc, Ranked, RankOrder, ShowsGroup;
      GroupShows(db.z, Norm(b.key), b.cfg, members);
      var bad := CheckBoard(b);
      if bad.Some? {
        return Err(bad.value);
      }
      var k := Norm(b.key);
      var found: seq<Entry> := [];
      for i := 0 to |members|
        invariant found == Found(db.z, k, members[..i])
      {
        assert members[..i + 1][..i] == members[..i];
        var c := Cell(k, members[i]);
        if c in db.z {
          found := found + [Entry(members[i], db.z[c])];
        }
      }
      assert members[..|members|] == members;
      var sorted := SortSlice(RankOrder(IsAsc(b.cfg)), found);
      return Ok(Ranked(b.cfg, sorted));
    }
  }

  // ---------------------------------------------------------------- what each read returns

  function SegmentsOf(z: map<Cell, real>, app: string, board: string): seq<string> {
    StrStrictTotal();
    SortSet(StrLess, set k | k in ScanKeys(z, app, board) :: k.segment)
  }

  /** The segments in which the app's board has a score, in strictly ascending order. */
  ghost predicate ListsSegments(z: map<Cell, real>, app: string, board: string, segs: seq<string>) {
    && (forall i, j :: 0 <= i < j < |segs| ==> StrLess(segs[i], segs[j]))
    && (forall s :: s in segs <==> exists c :: c in z && c.key.app == app && c.key.board == board && c.key.segment == s)
  }

  lemma SegmentsMean(z: map<Cell, real>, app: string, board: string)
    requires KeysValid(z) && ColonFree(app) && ColonFree(board)
    ensures ListsSegments(z, app, board, SegmentsOf(z, app, board))
  {
    hide Glob, ScanPattern, ZKey, ValidKey, Norm, StrLess, ColonFree;
    StrStrictTotal();
    var segs, names := SegmentsOf(z, app, board), set k | k in ScanKeys(z, app, board) :: k.segment;
    assert forall s :: s in segs <==> s in Elements(segs);
    forall c | c in z
      ensures c.key in ScanKeys(z, app, board) <==> c.key.app == app && c.key.board == board
    {
      ScanExact(app, board, c.key);
    }
    forall s
      ensures s in names <==> exists c :: c in z && c.key.app == app && c.key.board == board && c.key.segment == s
    {
      if s in names {
        var k :| k in ScanKeys(z, app, board) && k.segment == s;
        var c :| c in z && c.key == k;
        assert c.key.segment == s;
      }
    }
  }

  function TopOf(z: map<Cell, real>, b: Board, n: int): Result<seq<RankEntry>, Error> {
    if n <= 0 then Ok([])
    else if CheckBoard(b).Some? then Err(CheckBoard(b).value)
    else Ok(RankSlice(b.cfg, BoardListing(z, b), 0, n - 1))
  }

  function PageOf(z: map<Cell, real>, b: Board, offset: int, limit: int): Result<seq<RankEntry>, Error> {
    if limit <= 0 || offset < 0 then Ok([])
    else if CheckBoard(b).Some? then Err(CheckBoard(b).value)
    else Ok(RankSlice(b.cfg, BoardListing(z, b), offset, offset + limit - 1))
  }

  function NeighborsOf(z: map<Cell, real>, b: Board, member: string, k: int): Result<seq<RankEntry>, Error> {
    if CheckBoard(b).Some? then Err(CheckBoard(b).value)
    else
      match ZRank(z, Norm(b.key), IsAsc(b.cfg), member)
      case None => Err(MemberNotFound)
      case Some(r) =>
        var side := if k < 0 then 0 else k;
        Ok(RankSlice(b.cfg, BoardListing(z, b), if r < side then 0 else r - side, r + side))
  }

  function FriendsOf(z: map<Cell, real>, b: Board, members: seq<string>): Result<seq<RankEntry>, Error> {
    if CheckBoard(b).Some? then Err(CheckBoard(b).value)
    else Ok(Ranked(b.cfg, SortSlice(RankOrder(IsAsc(b.cfg)), Found(z, Norm(b.key), members))))
  }

  function ApproxEntry(db: Db, b: Board, member: string): Result<RankEntry, Error> {
    var c := Cell(Norm(b.key), member);
    if CheckBoard(b).Some? then Err(CheckBoard(b).value)
    else if !IsApprox(b.cfg) then Err(ApproxDisabled)
    else if c !in db.z then Err(MemberNotFound)
    else Ok(RankEntry(member, Decode(b.cfg, db.z[c]),
                      ApproxRank(Counts(db.h, c.key, BucketCount(b.cfg)), BucketOf(b.cfg, db.z[c]), IsAsc(b.cfg)),
                      false))
  }

  // ---------------------------------------------------------------- and what that means

  ghost predicate ShownTop(z: map<Cell, real>, b: Board, n: int, res: Result<seq<RankEntry>, Error>) {
    if n <= 0 then res == Ok([])
    else if CheckBoard(b).Some? then res == Err(CheckBoard(b).value)
    else res.Ok? && ShowsRanks(z, Norm(b.key), b.cfg, 0, n, res.value)
  }

  ghost predicate ShownPage(z: map<Cell, real>, b: Board, offset: int, limit: int, res: Result<seq<RankEntry>, Error>) {
    if limit <= 0 || offset < 0 then res == Ok([])
    else if CheckBoard(b).Some? then res == Err(CheckBoard(b).value)
    else res.Ok? && ShowsRanks(z, Norm(b.key), b.cfg, offset, limit, res.value)
  }

  ghost predicate ShownNear(z: map<Cell, real>, b: Board, member: string, k: int, res: Result<seq<RankEntry>, Error>) {
    if CheckBoard(b).Some? then res == Err(CheckBoard(b).value)
    else if Cell(Norm(b.key), member) !in z then res == Err(MemberNotFound)
    else
      var side := if k < 0 then 0 else k;
      var rank := RankOf(z, Norm(b.key), b.cfg, member);
      var first := if rank <= side then 1 else rank - side;
      res.Ok? && ShowsRanks(z, Norm(b.key), b.cfg, first - 1, rank + side - first + 1, res.value)
  }

  ghost predicate Estimated(z: map<Cell, real>, b: Board, member: string, counted: bool, res: Result<RankEntry, Error>) {
    if CheckBoard(b).Some? then res == Err(CheckBoard(b).value)
    else if !b.cfg.approx then res == Err(ApproxDisabled)
    else if Cell(Norm(b.key), member) !in z then res == Err(MemberNotFound)
    else res.Ok? && (counted ==> Estimates(z, Norm(b.key), b.cfg, member, res.value))
  }

  lemma TopShows(z: map<Cell, real>, b: Board, n: int)
    ensures ShownTop(z, b, n, TopOf(z, b, n))
  {
    hide CheckBoard, Norm, ShowsRanks, RankSlice, Listing, ZSet, IsAsc;
    if n > 0 {
      SliceShows(z, Norm(b.key), b.cfg, 0, n);
    }
  }

  lemma PageShows(z: map<Cell, real>, b: Board, offset: int, limit: int)
    ensures ShownPage(z, b, offset, limit, PageOf(z, b, offset, limit))
  {
    hide CheckBoard, Norm, ShowsRanks, RankSlice, Listing, ZSet, IsAsc;
    if limit > 0 && offset >= 0 {
      SliceShows(z, Norm(b.key), b.cfg, offset, limit);
    }
  }

  lemma NearShows(z: map<Cell, real>, b: Board, member: string, k: int)
    ensures ShownNear(z, b, member, k, NeighborsOf(z, b, member, k))
  {
    hide CheckBoard, Norm, ShowsRanks, RankSlice, Listing, ZSet, IsAsc, RankOf, Before, LessInOrder;
    if Cell(Norm(b.key), member) in z {
      var side := if k < 0 then 0 else k;
      RankIsPosition(z, Norm(b.key), b.cfg, member);
      var rank := RankOf(z, Norm(b.key), b.cfg, member);
      var first := if rank <= side then 1 else rank - side;
      SliceShows(z, Norm(b.key), b.cfg, first - 1, rank + side - first + 1);
    }
  }

  lemma ApproxAnswer(db: Db, cfgs: BoardKey -> Config, b: Board, member: string)
    ensures Estimated(db.z, b, member, Inv(db, cfgs) && cfgs(Norm(b.key)) == b.cfg, ApproxEntry(db, b, member))
  {
    hide Norm, Estimates, Inv, BucketOf, BucketCount, ApproxRank, Counts, Decode, IsAsc, ValidKey, ValidConfig;
    var k := Norm(b.key);
    if CheckBoard(b).None? && b.cfg.approx && Cell(k, member) in db.z && Inv(db, cfgs) && cfgs(k) == b.cfg {
      CountsEstimate(db, cfgs, k, member);
    }
  }

  /** What the batch's second pipeline reads for op j: the value before it and the value after it. */
  ghost predicate Recorded(start: Db, ops: seq<SubmitOp>, j: nat, pre: Option<real>, post: real)
    requires j < |ops|
  {
    var c := CellOf(ops[j]);
    && pre == Lookup(RunOps(start, ops[..j]).z, c)
    && CheckOp(ops[j]).Ok?
    && post == NewValue(ops[j].cfg, pre, ops[j].score, CheckOp(ops[j]).value)
  }
}
