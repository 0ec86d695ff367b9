/** The order of a board, ranks, and the histogram estimate of a rank
    (pkg/engine/redis_engine.go, pkg/engine/histogram.go, pkg/engine/sharded_engine.go). */
module Ranking {
  import opened Basics
  import opened Boards
  import opened Codec
  import opened Keys
  import opened Ordering
  import opened Store

  datatype Entry = Entry(member: string, stored: real)
  datatype RankEntry = RankEntry(member: string, score: real, rank: int, exact: bool)

  /** lessInOrder: descending boards put higher scores first and break ties by member descending;
      ascending boards invert both. */
  predicate LessInOrder(asc: bool, a: Entry, b: Entry) {
    if a.stored != b.stored then (if asc then a.stored < b.stored else a.stored > b.stored)
    else if asc then StrLess(a.member, b.member)
    else StrLess(b.member, a.member)
  }

  function RankOrder(asc: bool): (Entry, Entry) -> bool { (a, b) => LessInOrder(asc, a, b) }

  lemma RankOrderTotal(asc: bool)
    ensures StrictTotal(RankOrder(asc))
  {
    StrStrictTotal();
    var less := RankOrder(asc);
    forall a, b, c | less(a, b) && less(b, c)
      ensures less(a, c)
    {
    }
  }

  /** The sorted set of a board. */
  function ZSet(z: map<Cell, real>, k: BoardKey): set<Entry> {
    set c | c in z && c.key == k :: Entry(c.member, z[c])
  }

  lemma ZSetMember(z: map<Cell, real>, k: BoardKey, e: Entry)
    ensures e in ZSet(z, k) <==> Cell(k, e.member) in z && z[Cell(k, e.member)] == e.stored
  {
    if e in ZSet(z, k) {
      var c :| c in z && c.key == k && e == Entry(c.member, z[c]);
      assert c == Cell(k, e.member);
    }
  }

  /** A full ZRANGE (ascending) or ZREVRANGE (descending). */
  function Listing(asc: bool, s: set<Entry>): (r: seq<Entry>)
    ensures |r| == |s| && Elements(r) == s
  {
    RankOrderTotal(asc);
    SortSet(RankOrder(asc), s)
  }

  function RankedEntry(cfg: Config, e: Entry, rank: int): RankEntry {
    RankEntry(e.member, Decode(cfg, e.stored), rank, true)
  }

  /** Decoded entries of the inclusive window [start, stop] of a listing, with 1-based ranks. */
  function RankSlice(cfg: Config, l: seq<Entry>, start: nat, stop: int): (r: seq<RankEntry>)
    ensures stop >= start && start <= |l| ==> |r| == Min(stop + 1, |l|) - start
  {
    var end := if stop < 0 then 0 else Min(stop + 1, |l|);
    if end <= start then []
    else
      seq(end - start, i requires 0 <= i < end - start => RankedEntry(cfg, l[start + i], start + i + 1))
  }

  /** The part of a listing a window reads depends only on its first stop + 1 entries. */
  lemma RankSlicePrefix(cfg: Config, a: seq<Entry>, b: seq<Entry>, start: nat, stop: nat)
    requires a[..Min(stop + 1, |a|)] == b[..Min(stop + 1, |b|)]
    ensures RankSlice(cfg, a, start, stop) == RankSlice(cfg, b, start, stop)
  {
    hide Decode;
    var end := Min(stop + 1, |a|);
    assert end == |a[..end]| == Min(stop + 1, |b|);
    forall i | 0 <= i < end
      ensures a[i] == b[i]
    {
      assert a[..end][i] == a[i] && b[..end][i] == b[i];
    }
  }

  /** ZRANK or ZREVRANK of a member: how many entries come before it. */
  function ZRank(z: map<Cell, real>, k: BoardKey, asc: bool, member: string): Option<nat> {
    var c := Cell(k, member);
    if c in z then Some(|Before(RankOrder(asc), ZSet(z, k), Entry(member, z[c]))|) else None
  }

  /** The rank of a member is its position in the full listing. */
  lemma ZRankIsPosition(z: map<Cell, real>, k: BoardKey, asc: bool, member: string)
    requires Cell(k, member) in z
    ensures var r := ZRank(z, k, asc, member).value;
            r < |Listing(asc, ZSet(z, k))| && Listing(asc, ZSet(z, k))[r] == Entry(member, z[Cell(k, member)])
  {
    RankOrderTotal(asc);
    var s := ZSet(z, k);
    var l := Listing(asc, s);
    var e := Entry(member, z[Cell(k, member)]);
    assert e in s;
    assert e in Elements(l);
    var i :| 0 <= i < |l| && l[i] == e;
    PositionIsRank(RankOrder(asc), s, i);
  }

  // ---------------------------------------------------------------- histogram estimate

  function Sum(counts: seq<int>, lo: nat, hi: nat): int
    requires lo <= hi <= |counts|
  {
    if lo == hi then 0 else Sum(counts, lo, hi - 1) + counts[hi - 1]
  }

  /** 1 + the members in strictly better buckets. */
  function ApproxRank(counts: seq<int>, idx: nat, asc: bool): int
    requires idx < |counts|
  {
    1 + if asc then Sum(counts, 0, idx) else Sum(counts, idx + 1, |counts|)
  }

  /** approxRankFromCounts. */
  method ApproxRankFromCounts(counts: seq<int>, idx: nat, asc: bool) returns (rank: int)
    requires idx < |counts|
    ensures rank == ApproxRank(counts, idx, asc)
  {
    var ahead := 0;
    if asc {
      var i := 0;
      while i < idx && i < |counts|
        invariant i <= idx && ahead == Sum(counts, 0, i)
      {
        ahead := ahead + counts[i];
        i := i + 1;
      }
    } else {
      var i := idx + 1;
      while i < |counts|
        invariant idx + 1 <= i <= |counts| && ahead == Sum(counts, idx + 1, i)
      {
        ahead := ahead + counts[i];
        i := i + 1;
      }
    }
    rank := ahead + 1;
  }

  /** countsFrom on a board's hash: a dense slice of the bucket counters. */
  method CountsFrom(h: map<Bin, int>, k: BoardKey, n: nat) returns (counts: seq<int>)
    ensures counts == Counts(h, k, n)
  {
    counts := seq(n, i => 0);
    var rest := h.Keys;
    while rest != {}
      invariant |counts| == n && rest <= h.Keys
      invariant forall i :: 0 <= i < n ==>
        counts[i] == if Bin(k, i) in h.Keys - rest then h[Bin(k, i)] else 0
      decreases |rest|
    {
      var f :| f in rest;
      rest := rest - {f};
      if f.key == k && 0 <= f.bucket < n {
        counts := counts[f.bucket := h[f]];
      }
    }
  }

  function Counts(h: map<Bin, int>, k: BoardKey, n: nat): (r: seq<int>)
    ensures |r| == n
  {
    seq(n, i => HGet(h, Bin(k, i)))
  }

  /** Members of board k with a bucket in [lo, hi). */
  function CensusRange(z: map<Cell, real>, k: BoardKey, cfg: Config, lo: int, hi: int): set<Cell> {
    set c | c in z && c.key == k && lo <= BucketOf(cfg, z[c]) < hi
  }

  lemma {:induction false} SumIsCensus(z: map<Cell, real>, k: BoardKey, cfg: Config, counts: seq<int>, lo: nat, hi: nat)
    requires lo <= hi <= |counts|
    requires forall i :: 0 <= i < |counts| ==> counts[i] == |Census(z, k, cfg, i)|
    ensures Sum(counts, lo, hi) == |CensusRange(z, k, cfg, lo, hi)|
    decreases hi
  {
    hide BucketOf;
    if lo == hi {
      assert CensusRange(z, k, cfg, lo, hi) == {};
    } else {
      SumIsCensus(z, k, cfg, counts, lo, hi - 1);
      assert CensusRange(z, k, cfg, lo, hi)
          == CensusRange(z, k, cfg, lo, hi - 1) + Census(z, k, cfg, hi - 1);
      assert CensusRange(z, k, cfg, lo, hi - 1) !! Census(z, k, cfg, hi - 1);
    }
  }

  lemma DivideMonotone(x: real, y: real, d: real)
    requires x <= y && d > 0.0
    ensures x / d <= y / d
  {
    assert y / d - x / d == (y - x) / d;
  }

  lemma ScaleMonotone(x: real, y: real, n: real)
    requires x <= y && n >= 0.0
    ensures x * n <= y * n
  {
    assert y * n - x * n == (y - x) * n;
  }

  /** A better score never falls into a worse bucket. */
  lemma BucketIndexMonotone(cfg: Config, s: real, t: real)
    requires s <= t
    requires cfg.approxMax > cfg.approxMin
    ensures BucketIndex(cfg, s) <= BucketIndex(cfg, t)
  {
    if s > cfg.approxMin && t < cfg.approxMax {
      ScaledMonotone(s - cfg.approxMin, t - cfg.approxMin, cfg.approxMax - cfg.approxMin, BucketCount(cfg));
    }
    hide Scaled;
  }

  lemma ScaledMonotone(x: real, y: real, width: real, n: int)
    requires 0.0 <= x <= y && width > 0.0 && n >= 1
    ensures Scaled(x, width, n) <= Scaled(y, width, n)
  {
    DivideMonotone(x, y, width);
    ScaleMonotone(x / width, y / width, n as real);
  }

  lemma ScaleStrict(x: real, y: real, n: real)
    requires x < y && n > 0.0
    ensures x * n < y * n
  {
    assert y * n - x * n == (y - x) * n;
  }

  lemma QuotientLe(q: real, m: real, x: real, a: real)
    requires m > 0.0 && q * m == a
    ensures q <= x <==> a <= x * m
  {
    if q <= x {
      ScaleMonotone(q, x, m);
    } else {
      ScaleStrict(x, q, m);
    }
  }

  lemma DivideLe(a: real, m: real, x: real)
    requires m > 0.0
    ensures a / m <= x <==> a <= x * m
  {
    QuotientLe(a / m, m, x, a);
  }

  lemma LeDivide(a: real, m: real, x: real)
    requires m > 0.0
    ensures x <= a / m <==> x * m <= a
  {
    assert a / m * m == a;
    if x <= a / m {
      ScaleMonotone(x, a / m, m);
    } else {
      ScaleStrict(a / m, x, m);
    }
  }

  lemma Commute(x: real, n: real, w: real)
    requires w > 0.0
    ensures x / w * n == x * n / w
  {
  }

  /** How far bucket i of n begins from the lower bound of a range. */
  function BucketOffset(width: real, n: int, i: int): real
    requires n >= 1
  {
    i as real * width / n as real
  }

  lemma ScaledMeans(x: real, width: real, n: int, i: int)
    requires x >= 0.0 && width > 0.0 && n >= 1
    ensures i <= Scaled(x, width, n) <==> BucketOffset(width, n, i) <= x
  {
    Commute(x, n as real, width);
    LeDivide(x * n as real, width, i as real);
    DivideLe(i as real * width, n as real, x);
  }

  lemma OffsetEnds(width: real, n: int, i: int)
    requires width > 0.0 && n >= 1
    ensures 0 < i ==> BucketOffset(width, n, i) > 0.0
    ensures i < n ==> BucketOffset(width, n, i) < width
    ensures i == n ==> BucketOffset(width, n, i) == width
  {
    var f, m := i as real, n as real;
    DivideLe(f * width, m, 0.0);
    LeDivide(f * width, m, width);
    if 0 < i {
      assert f * width > 0.0;
    }
    if i < n {
      ScaleStrict(f, m, width);
    }
  }

  /** A range is cut into buckets of equal width; scores below the first and above the last count
      towards those. */
  lemma BucketMeans(cfg: Config, score: real, i: int)
    requires cfg.approxMax > cfg.approxMin
    ensures var n := if cfg.approx && cfg.approxBuckets == 0 then 1024 else if cfg.approxBuckets < 1 then 1 else cfg.approxBuckets;
            var width := cfg.approxMax - cfg.approxMin;
            i == BucketIndex(cfg, score)
            <==> && 0 <= i < n
                 && (i == 0 || cfg.approxMin + BucketOffset(width, n, i) <= score)
                 && (i == n - 1 || score < cfg.approxMin + BucketOffset(width, n, i + 1))
  {
    var n, width, x := BucketCount(cfg), cfg.approxMax - cfg.approxMin, score - cfg.approxMin;
    OffsetEnds(width, n, i);
    OffsetEnds(width, n, i + 1);
    if 0.0 < x < width {
      ScaledMeans(x, width, n, i);
      ScaledMeans(x, width, n, i + 1);
      ScaledMeans(x, width, n, n);
      OffsetEnds(width, n, n);
    }
    hide Scaled, BucketOffset;
  }

  lemma BucketMonotone(cfg: Config, a: real, b: real)
    requires a <= b && cfg.approxMax > cfg.approxMin
    requires WithDefaults(cfg).tie.FirstToReach? ==> 0.0 <= a && b < TWO53 as real
    ensures BucketOf(cfg, a) <= BucketOf(cfg, b)
  {
    DecodeMonotone(cfg, a, b);
    BucketIndexMonotone(cfg, Decode(cfg, a), Decode(cfg, b));
  }

  /** The cells ahead of a member. */
  function Ahead(z: map<Cell, real>, k: BoardKey, asc: bool, e: Entry): set<Cell> {
    set c | c in z && c.key == k && LessInOrder(asc, Entry(c.member, z[c]), e)
  }

  lemma AheadIsRank(z: map<Cell, real>, k: BoardKey, asc: bool, e: Entry)
    ensures |Ahead(z, k, asc, e)| == |Before(RankOrder(asc), ZSet(z, k), e)|
  {
    var s, t := Ahead(z, k, asc, e), Before(RankOrder(asc), ZSet(z, k), e);
    var f := (c: Cell) => Entry(c.member, if c in z then z[c] else 0.0);
    forall y | y in t
      ensures exists c :: c in s && f(c) == y
    {
      ZSetMember(z, k, y);
      assert Cell(k, y.member) in s && f(Cell(k, y.member)) == y;
    }
    forall c | c in s
      ensures f(c) in t
    {
      ZSetMember(z, k, f(c));
    }
    ImageCard(s, t, f);
  }

  /** Histogram estimate against the exact rank: never above it, and short of it by less than the
      population of the member's own bucket. */
  lemma ApproxBound(db: Db, cfgs: BoardKey -> Config, k: BoardKey, member: string)
    requires Inv(db, cfgs) && Cell(k, member) in db.z
    requires IsApprox(cfgs(k)) && ValidConfig(cfgs(k))
    ensures var cfg := cfgs(k);
            var b := BucketOf(cfg, db.z[Cell(k, member)]);
            var exact := ZRank(db.z, k, IsAsc(cfg), member).value + 1;
            var approx := ApproxRank(Counts(db.h, k, BucketCount(cfg)), b, IsAsc(cfg));
            0 <= exact - approx < Population(db.z, k, cfg, b)
  {
    hide BucketOf, HistInv, KeysValid, LessInOrder, Counts, Before, ZSet, CensusRange, Ahead, Sum;
    var cfg := cfgs(k);
    var z := db.z;
    var me := Cell(k, member);
    var b := BucketOf(cfg, z[me]);
    var asc := IsAsc(cfg);
    var n := BucketCount(cfg);
    var counts := Counts(db.h, k, n);
    CountsAreCensus(db, cfgs, k);
    var better := if asc then CensusRange(z, k, cfg, 0, b) else CensusRange(z, k, cfg, b + 1, n);
    if asc {
      SumIsCensus(z, k, cfg, counts, 0, b);
    } else {
      SumIsCensus(z, k, cfg, counts, b + 1, n);
    }
    var ahead := Ahead(z, k, asc, Entry(member, z[me]));
    AheadIsRank(z, k, asc, Entry(member, z[me]));
    AheadSandwich(z, k, cfg, me, better, ahead);
    SandwichCount(better, ahead, Census(z, k, cfg, b), me);
  }

  lemma SandwichCount(better: set<Cell>, ahead: set<Cell>, bucket: set<Cell>, me: Cell)
    requires better <= ahead <= better + (bucket - {me}) && me in bucket
    ensures 0 <= |ahead| - |better| < |bucket|
  {
    var same := bucket - {me};
    assert |same| == |bucket| - 1;
    SubsetCard(better, ahead);
    SubsetCard(ahead, better + same);
    assert |better + same| <= |better| + |same|;
  }

  lemma CountsAreCensus(db: Db, cfgs: BoardKey -> Config, k: BoardKey)
    requires HistInv(db, cfgs) && IsApprox(cfgs(k))
    ensures var counts := Counts(db.h, k, BucketCount(cfgs(k)));
            forall i :: 0 <= i < |counts| ==> counts[i] == |Census(db.z, k, cfgs(k), i)|
  {
    hide BucketOf;
    var counts := Counts(db.h, k, BucketCount(cfgs(k)));
    forall i | 0 <= i < |counts|
      ensures counts[i] == |Census(db.z, k, cfgs(k), i)|
    {
      assert HGet(db.h, Bin(k, i)) == Population(db.z, k, cfgs(k), i);
    }
  }

  lemma AheadSandwich(z: map<Cell, real>, k: BoardKey, cfg: Config, me: Cell, better: set<Cell>, ahead: set<Cell>)
    requires me in z && me.key == k && cfg.approxMax > cfg.approxMin
    requires WithDefaults(cfg).tie.FirstToReach? ==> forall c :: c in z && c.key == k ==> 0.0 <= z[c] < TWO53 as real
    requires better == (if IsAsc(cfg) then CensusRange(z, k, cfg, 0, BucketOf(cfg, z[me]))
                        else CensusRange(z, k, cfg, BucketOf(cfg, z[me]) + 1, BucketCount(cfg)))
    requires ahead == Ahead(z, k, IsAsc(cfg), Entry(me.member, z[me]))
    ensures better <= ahead <= better + (Census(z, k, cfg, BucketOf(cfg, z[me])) - {me})
  {
    StrIrreflexive(me.member);
    forall c | c in z && c.key == k
      ensures z[c] <= z[me] ==> BucketOf(cfg, z[c]) <= BucketOf(cfg, z[me])
      ensures z[me] <= z[c] ==> BucketOf(cfg, z[me]) <= BucketOf(cfg, z[c])
    {
      if z[c] <= z[me] {
        BucketMonotone(cfg, z[c], z[me]);
      }
      if z[me] <= z[c] {
        BucketMonotone(cfg, z[me], z[c]);
      }
    }
    hide BucketOf;
  }
}
