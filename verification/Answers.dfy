/** What a reader of a board is promised (pkg/engine/redis_engine.go, pkg/engine/sharded_engine.go), said
    of stored values and member ids alone: who comes before whom, ranks as head counts, and lists of
    consecutive ranks. */
module Answers {
  import opened Basics
  import opened Boards
  import opened Codec
  import opened Keys
  import opened Ordering
  import opened Ranking
  import opened Store

  /** The members of a board. */
  function Roster(z: map<Cell, real>, k: BoardKey): set<string> { set c | c in z && c.key == k :: c.member }

  /** Member m comes before member n: on an ascending board the smaller value, and the smaller id
      among equals; on any other the larger value, and the larger id among equals. */
  predicate Precedes(z: map<Cell, real>, k: BoardKey, cfg: Config, m: string, n: string)
    requires Cell(k, m) in z && Cell(k, n) in z
  {
    var v, w := z[Cell(k, m)], z[Cell(k, n)];
    if cfg.order.Asc? then v < w || (v == w && StrLess(m, n)) else v > w || (v == w && StrLess(n, m))
  }

  /** One more than the number of members who come before. */
  function RankOf(z: map<Cell, real>, k: BoardKey, cfg: Config, member: string): nat
    requires Cell(k, member) in z
  {
    1 + |set c | c in z && c.key == k && Precedes(z, k, cfg, c.member, member)|
  }

  /** An exact entry: on the board, with its rank there and its decoded score. */
  ghost predicate Exact(z: map<Cell, real>, k: BoardKey, cfg: Config, e: RankEntry) {
    && Cell(k, e.member) in z
    && e.rank == RankOf(z, k, cfg, e.member)
    && e.score == Decode(cfg, z[Cell(k, e.member)])
    && e.exact
  }

  /** The list shows ranks from + 1 up to from + limit, as far as the board goes, in order, and leaves
      out nobody who holds one of them. */
  ghost predicate ShowsRanks(z: map<Cell, real>, k: BoardKey, cfg: Config, from: nat, limit: nat, r: seq<RankEntry>) {
    var n := |Roster(z, k)|;
    && |r| == (if n <= from then 0 else if n - from < limit then n - from else limit)
    && (forall i :: 0 <= i < |r| ==> Exact(z, k, cfg, r[i]) && r[i].rank == from + i + 1)
    && (forall m :: Cell(k, m) in z && from < RankOf(z, k, cfg, m) <= from + |r| ==>
          r[RankOf(z, k, cfg, m) - from - 1].member == m)
  }

  // ---------------------------------------------------------------- ranks

  lemma PrecedesIsOrder(z: map<Cell, real>, k: BoardKey, cfg: Config, m: string, n: string)
    requires Cell(k, m) in z && Cell(k, n) in z
    ensures Precedes(z, k, cfg, m, n)
            <==> LessInOrder(IsAsc(cfg), Entry(m, z[Cell(k, m)]), Entry(n, z[Cell(k, n)]))
  {
  }

  lemma RosterCount(z: map<Cell, real>, k: BoardKey)
    ensures |Roster(z, k)| == |ZSet(z, k)|
    ensures |Roster(z, k)| == |set c | c in z && c.key == k|
  {
    var s := set c | c in z && c.key == k;
    var f := (c: Cell) => Entry(c.member, if c in z then z[c] else 0.0);
    var g := (c: Cell) => c.member;
    forall y | y in ZSet(z, k)
      ensures exists c :: c in s && f(c) == y
    {
      ZSetMember(z, k, y);
      assert f(Cell(k, y.member)) == y;
    }
    ImageCard(s, ZSet(z, k), f);
    forall m | m in Roster(z, k)
      ensures exists c :: c in s && g(c) == m
    {
      assert g(Cell(k, m)) == m;
    }
    ImageCard(s, Roster(z, k), g);
  }

  /** The head count is the position in the full listing. */
  lemma RankIsPosition(z: map<Cell, real>, k: BoardKey, cfg: Config, member: string)
    requires Cell(k, member) in z
    ensures var l := Listing(IsAsc(cfg), ZSet(z, k));
            var r := RankOf(z, k, cfg, member);
            1 <= r <= |l| && l[r - 1] == Entry(member, z[Cell(k, member)])
    ensures ZRank(z, k, IsAsc(cfg), member) == Some(RankOf(z, k, cfg, member) - 1)
  {
    hide LessInOrder, IsAsc, Precedes, ZSet;
    var asc, e := IsAsc(cfg), Entry(member, z[Cell(k, member)]);
    forall c | c in z && c.key == k
      ensures Precedes(z, k, cfg, c.member, member) <==> LessInOrder(asc, Entry(c.member, z[c]), e)
    {
      PrecedesIsOrder(z, k, cfg, c.member, member);
    }
    assert (set c | c in z && c.key == k && Precedes(z, k, cfg, c.member, member)) == Ahead(z, k, asc, e);
    AheadIsRank(z, k, asc, e);
    ZRankIsPosition(z, k, asc, member);
  }

  lemma EntryAt(z: map<Cell, real>, k: BoardKey, cfg: Config, i: nat)
    requires i < |ZSet(z, k)|
    ensures var e := Listing(IsAsc(cfg), ZSet(z, k))[i];
            Exact(z, k, cfg, RankedEntry(cfg, e, i + 1))
  {
    hide LessInOrder, IsAsc, ZSet, RankOf, Decode;
    var l := Listing(IsAsc(cfg), ZSet(z, k));
    assert l[i] in Elements(l);
    ZSetMember(z, k, l[i]);
    RankIsPosition(z, k, cfg, l[i].member);
    RankOrderTotal(IsAsc(cfg));
    PositionIsRank(RankOrder(IsAsc(cfg)), ZSet(z, k), i);
  }

  lemma SortedCompare<T(!new)>(less: (T, T) -> bool, l: seq<T>, i: nat, j: nat)
    requires StrictTotal(less) && Sorted(less, l) && i < |l| && j < |l|
    ensures i < j <==> less(l[i], l[j])
    ensures i == j <==> l[i] == l[j]
  {
    if j < i {
      assert less(l[j], l[i]);
    }
  }

  /** Ranks number the members of a board from one, better members first. */
  lemma RanksCompare(z: map<Cell, real>, k: BoardKey, cfg: Config, m: string, n: string)
    requires Cell(k, m) in z && Cell(k, n) in z
    ensures RankOf(z, k, cfg, m) < RankOf(z, k, cfg, n) <==> Precedes(z, k, cfg, m, n)
    ensures RankOf(z, k, cfg, m) == RankOf(z, k, cfg, n) <==> m == n
    ensures 1 <= RankOf(z, k, cfg, m) <= |Roster(z, k)|
  {
    hide LessInOrder, IsAsc, ZSet, RankOf, Precedes, Roster, ZRank, StrictTotal, Sorted;
    var asc := IsAsc(cfg);
    RosterCount(z, k);
    RankOrderTotal(asc);
    RankIsPosition(z, k, cfg, m);
    RankIsPosition(z, k, cfg, n);
    PrecedesIsOrder(z, k, cfg, m, n);
    SortedCompare(RankOrder(asc), Listing(asc, ZSet(z, k)), RankOf(z, k, cfg, m) - 1, RankOf(z, k, cfg, n) - 1);
  }

  /** And no number is skipped. */
  lemma RankTaken(z: map<Cell, real>, k: BoardKey, cfg: Config, r: nat) returns (m: string)
    requires 1 <= r <= |Roster(z, k)|
    ensures Cell(k, m) in z && RankOf(z, k, cfg, m) == r
  {
    hide IsAsc, ZSet, RankOf, Roster, Decode;
    RosterCount(z, k);
    EntryAt(z, k, cfg, r - 1);
    m := Listing(IsAsc(cfg), ZSet(z, k))[r - 1].member;
  }

  /** A window of the listing shows the ranks of its positions. */
  lemma SliceShows(z: map<Cell, real>, k: BoardKey, cfg: Config, from: nat, limit: nat)
    requires limit > 0
    ensures ShowsRanks(z, k, cfg, from, limit, RankSlice(cfg, Listing(IsAsc(cfg), ZSet(z, k)), from, from + limit - 1))
  {
    hide LessInOrder, IsAsc, ZSet, RankOf, Roster, Decode, Listing, RankSlice, Exact;
    var l := Listing(IsAsc(cfg), ZSet(z, k));
    var r := RankSlice(cfg, l, from, from + limit - 1);
    RosterCount(z, k);
    SliceEntries(cfg, l, from, limit);
    forall i | 0 <= i < |r|
      ensures Exact(z, k, cfg, r[i]) && r[i].rank == from + i + 1
    {
      EntryAt(z, k, cfg, from + i);
    }
    forall m | Cell(k, m) in z && from < RankOf(z, k, cfg, m) <= from + |r|
      ensures r[RankOf(z, k, cfg, m) - from - 1].member == m
    {
      RankIsPosition(z, k, cfg, m);
    }
  }

  lemma SliceEntries(cfg: Config, l: seq<Entry>, from: nat, limit: nat)
    requires limit > 0
    ensures var r := RankSlice(cfg, l, from, from + limit - 1);
            && |r| == (if |l| <= from then 0 else if |l| - from < limit then |l| - from else limit)
            && forall i :: 0 <= i < |r| ==> r[i] == RankedEntry(cfg, l[from + i], from + i + 1)
  {
    hide Decode;
  }

  /** There is only one such list. */
  lemma ShowsOnce(z: map<Cell, real>, k: BoardKey, cfg: Config, from: nat, limit: nat, r: seq<RankEntry>, s: seq<RankEntry>)
    requires ShowsRanks(z, k, cfg, from, limit, r) && ShowsRanks(z, k, cfg, from, limit, s)
    ensures r == s
  {
    hide RankOf, Precedes, Roster, Decode;
    assert |r| == |s|;
    forall i | 0 <= i < |r|
      ensures r[i] == s[i]
    {
      assert Exact(z, k, cfg, r[i]) && Exact(z, k, cfg, s[i]);
      RanksCompare(z, k, cfg, r[i].member, s[i].member);
    }
  }

  // ---------------------------------------------------------------- a group of members

  function Names(r: seq<RankEntry>): seq<string> { seq(|r|, i requires 0 <= i < |r| => r[i].member) }

  /** The list holds each member of a group as often as it was asked for if it is on the board and
      not at all otherwise, in board order, numbered from one. */
  ghost predicate ShowsGroup(z: map<Cell, real>, k: BoardKey, cfg: Config, members: seq<string>, r: seq<RankEntry>) {
    && (forall m :: multiset(Names(r))[m] == if Cell(k, m) in z then multiset(members)[m] else 0)
    && (forall i :: 0 <= i < |r| ==>
          Cell(k, r[i].member) in z && r[i] == RankEntry(r[i].member, Decode(cfg, z[Cell(k, r[i].member)]), i + 1, true))
    && (forall i, j :: 0 <= i < j < |r| && Cell(k, r[i].member) in z && Cell(k, r[j].member) in z ==>
          RankOf(z, k, cfg, r[i].member) <= RankOf(z, k, cfg, r[j].member))
  }

  // ---------------------------------------------------------------- estimates

  /** An estimate: the right member and score, marked as such, at most the member's rank and short of
      it by less than the number of members in its bucket. */
  ghost predicate Estimates(z: map<Cell, real>, k: BoardKey, cfg: Config, member: string, e: RankEntry)
    requires Cell(k, member) in z
  {
    var stored := z[Cell(k, member)];
    && e.member == member
    && e.score == Decode(cfg, stored)
    && !e.exact
    && 0 <= RankOf(z, k, cfg, member) - e.rank < |set c | c in z && c.key == k && BucketOf(cfg, z[c]) == BucketOf(cfg, stored)|
  }

  lemma CountsEstimate(db: Db, cfgs: BoardKey -> Config, k: BoardKey, member: string)
    requires Inv(db, cfgs) && Cell(k, member) in db.z
    requires cfgs(k).approx && ValidConfig(cfgs(k))
    ensures var cfg, stored := cfgs(k), db.z[Cell(k, member)];
            Estimates(db.z, k, cfg, member,
                      RankEntry(member, Decode(cfg, stored),
                                ApproxRank(Counts(db.h, k, BucketCount(cfg)), BucketOf(cfg, stored), IsAsc(cfg)),
                                false))
  {
    hide Inv, BucketOf, BucketCount, RankOf, ApproxRank, Counts, ValidConfig, Decode, IsAsc, ZRank;
    RankIsPosition(db.z, k, cfgs(k), member);
    ApproxBound(db, cfgs, k, member);
  }
}
