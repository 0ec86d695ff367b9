/** The score-window scatter-gather behind sharded Neighbors (pkg/engine/sharded_engine.go), and
    exactly when it agrees with the single-set window (pkg/engine/redis_engine.go). */
module Neighborhood {
  import opened Basics
  import opened Ordering
  import opened Ranking
  import opened Sharding

  /** Entries strictly after e in the order of direction d (true: ascending, false: descending). */
  function Side(d: bool, s: set<Entry>, e: Entry): set<Entry> { After(RankOrder(d), s, e) }

  function TopSide(d: bool, s: set<Entry>, e: Entry, k: nat): seq<Entry> {
    RankOrderTotal(d);
    Top(RankOrder(d), Side(d, s, e), k)
  }

  /** Up to k entries on each side of e, in board order. */
  function Around(asc: bool, s: set<Entry>, e: Entry, k: nat): seq<Entry> {
    Reverse(TopSide(!asc, s, e, k)) + [e] + TopSide(asc, s, e, k)
  }

  /** The window [p - k, p + k] of a listing, clipped at both ends. */
  function Window(l: seq<Entry>, p: nat, k: nat): seq<Entry>
    requires p < |l|
  {
    l[(if p < k then 0 else p - k)..(if p + k + 1 > |l| then |l| else p + k + 1)]
  }

  lemma BeforeIsSide(asc: bool, s: set<Entry>, e: Entry)
    ensures Before(RankOrder(asc), s, e) == Side(!asc, s, e)
  {
  }

  lemma OppositeListings(asc: bool, s: set<Entry>)
    ensures Listing(!asc, s) == Reverse(Listing(asc, s))
  {
    RankOrderTotal(asc);
    RankOrderTotal(!asc);
    ReversedListing(RankOrder(asc), RankOrder(!asc), s);
  }

  /** The window of the full listing around e's position is the k nearest entries on either side. */
  lemma WindowIsAround(asc: bool, s: set<Entry>, e: Entry, k: nat)
    requires e in s
    ensures var p := |Before(RankOrder(asc), s, e)|;
            p < |s| && Listing(asc, s)[p] == e && Window(Listing(asc, s), p, k) == Around(asc, s, e, k)
  {
    RankOrderTotal(asc);
    hide LessInOrder, StrictTotal, RankOrder, Sorted;
    var lo, hi := Before(RankOrder(asc), s, e), Side(asc, s, e);
    SplitAt(RankOrder(asc), s, e);
    var l, a, b := Listing(asc, s), Listing(asc, lo), Listing(asc, hi);
    assert l == a + [e] + b;
    BeforeIsSide(asc, s, e);
    OppositeListings(asc, lo);
    TailReversed(a, Min(k, |a|));
    assert TopSide(!asc, s, e, k) == Listing(!asc, lo)[..Min(k, |a|)];
    assert TopSide(asc, s, e, k) == b[..Min(k, |b|)];
    WindowOfSplit(a, e, b, k);
  }

  lemma TailReversed(a: seq<Entry>, n: nat)
    requires n <= |a|
    ensures Reverse(Reverse(a)[..n]) == a[|a| - n..]
  {
  }

  lemma WindowOfSplit(a: seq<Entry>, e: Entry, b: seq<Entry>, k: nat)
    ensures Window(a + [e] + b, |a|, k) == a[|a| - Min(k, |a|)..] + [e] + b[..Min(k, |b|)]
  {
  }

  /** A subset that holds e has the same neighbours exactly when it holds them all. */
  lemma AroundSubset(asc: bool, u: set<Entry>, s: set<Entry>, e: Entry, k: nat)
    requires u <= s && e in u
    ensures Around(asc, u, e, k) == Around(asc, s, e, k) <==> Elements(Around(asc, s, e, k)) <= u
  {
    hide RankOrder, StrictTotal;
    AroundElements(asc, u, e, k);
    AroundElements(asc, s, e, k);
    if Elements(Around(asc, s, e, k)) <= u {
      TopSideSubset(asc, u, s, e, k);
      TopSideSubset(!asc, u, s, e, k);
    }
  }

  lemma AroundElements(asc: bool, s: set<Entry>, e: Entry, k: nat)
    requires e in s
    ensures Elements(Around(asc, s, e, k)) == Elements(TopSide(asc, s, e, k)) + {e} + Elements(TopSide(!asc, s, e, k))
    ensures Elements(Around(asc, s, e, k)) <= s
  {
    hide TopSide;
    var a, b := TopSide(asc, s, e, k), TopSide(!asc, s, e, k);
    ReverseElements(b);
    TopSideWithin(asc, s, e, k);
    TopSideWithin(!asc, s, e, k);
    forall x
      ensures x in Around(asc, s, e, k) <==> x in a || x == e || x in b
    {
      assert x in Reverse(b) <==> x in Elements(Reverse(b));
    }
  }

  lemma TopSideWithin(d: bool, s: set<Entry>, e: Entry, k: nat)
    ensures Elements(TopSide(d, s, e, k)) <= s
  {
    hide LessInOrder;
    RankOrderTotal(d);
    forall x | x in Elements(TopSide(d, s, e, k))
      ensures x in s
    {
      TopMembership(RankOrder(d), Side(d, s, e), k, x);
    }
  }

  lemma ReverseElements<T>(a: seq<T>)
    ensures Elements(Reverse(a)) == Elements(a)
  {
    var r := Reverse(a);
    forall x | x in a
      ensures x in r
    {
      var i :| 0 <= i < |a| && a[i] == x;
      assert r[|a| - 1 - i] == x;
    }
    forall x | x in r
      ensures x in a
    {
      var i :| 0 <= i < |r| && r[i] == x;
      assert a[|a| - 1 - i] == x;
    }
  }

  lemma TopSideSubset(d: bool, u: set<Entry>, s: set<Entry>, e: Entry, k: nat)
    requires u <= s && Elements(TopSide(d, s, e, k)) <= u
    ensures TopSide(d, u, e, k) == TopSide(d, s, e, k)
  {
    hide LessInOrder;
    RankOrderTotal(d);
    forall x | x in Elements(TopSide(d, s, e, k))
      ensures x in Side(d, u, e)
    {
      TopMembership(RankOrder(d), Side(d, s, e), k, x);
    }
    TopOfSubset(RankOrder(d), Side(d, u, e), Side(d, s, e), k);
  }

  // ---------------------------------------------------------------- what the shards return

  /** ZRANGEBYSCORE from the target's score up, or ZREVRANGEBYSCORE from it down. */
  function Toward(d: bool, s: set<Entry>, t: real): set<Entry> {
    set x | x in s && (if d then x.stored >= t else x.stored <= t)
  }

  /** The k + 1 entries one shard returns in one direction. */
  function Fetch(d: bool, part: set<Entry>, t: real, k: nat): seq<Entry> {
    RankOrderTotal(d);
    Top(RankOrder(d), Toward(d, part, t), k + 1)
  }

  /** The union of everything fetched. */
  function Candidates(L: Layout, s: set<Entry>, t: real, k: nat): set<Entry>
    requires L.Valid()
  {
    set x | x in s && (x in Fetch(true, Part(L, s, L.ShardOf(x.member)), t, k)
                       || x in Fetch(false, Part(L, s, L.ShardOf(x.member)), t, k))
  }

  /** How many entries of x's shard the fetch in direction d returns before x: those between the
      target's score (ties included) and x. */
  function Crowd(L: Layout, d: bool, s: set<Entry>, t: real, x: Entry): nat
    requires L.Valid()
  {
    |Before(RankOrder(d), Toward(d, Part(L, s, L.ShardOf(x.member)), t), x)|
  }

  /** x is fetched when it lies on a side of the target's score with at most k shard-mates between. */
  predicate Reached(L: Layout, s: set<Entry>, t: real, k: nat, x: Entry)
    requires L.Valid()
  {
    (x.stored >= t && Crowd(L, true, s, t, x) <= k) || (x.stored <= t && Crowd(L, false, s, t, x) <= k)
  }

  lemma FetchedIffReached(L: Layout, s: set<Entry>, t: real, k: nat, x: Entry)
    requires L.Valid() && x in s
    ensures x in Candidates(L, s, t, k) <==> Reached(L, s, t, k, x)
  {
    hide LessInOrder, StrictTotal, Before;
    var part := Part(L, s, L.ShardOf(x.member));
    RankOrderTotal(true);
    RankOrderTotal(false);
    TopMembership(RankOrder(true), Toward(true, part, t), k + 1, x);
    TopMembership(RankOrder(false), Toward(false, part, t), k + 1, x);
  }

  /** Sharded neighbours are the single-set ones exactly when each true neighbour (the target
      included) has at most k entries of its own shard between the target's score and itself. */
  lemma NeighborsExactIff(L: Layout, asc: bool, s: set<Entry>, e: Entry, k: nat)
    requires L.Valid() && e in s
    ensures var u := Candidates(L, s, e.stored, k);
            (e in u && Around(asc, u, e, k) == Around(asc, s, e, k))
            <==> forall x :: x in Around(asc, s, e, k) ==> Reached(L, s, e.stored, k, x)
  {
    hide Reached, Around, Fetch;
    var u := Candidates(L, s, e.stored, k);
    var true_ := Around(asc, s, e, k);
    AroundElements(asc, s, e, k);
    assert e in Elements(true_);
    forall x | x in true_
      ensures x in u <==> Reached(L, s, e.stored, k, x)
    {
      assert x in Elements(true_);
      FetchedIffReached(L, s, e.stored, k, x);
    }
    if e in u {
      AroundSubset(asc, u, s, e, k);
    }
  }

  ghost predicate Untied(s: set<Entry>, e: Entry) {
    forall x :: x in s && x.stored == e.stored ==> x == e
  }

  /** Without ties the fetch always suffices: for every k and shard count, windows clipped or not. */
  lemma NeighborsExactUntied(L: Layout, asc: bool, s: set<Entry>, e: Entry, k: nat)
    requires L.Valid() && e in s && Untied(s, e)
    ensures e in Candidates(L, s, e.stored, k)
    ensures Around(asc, Candidates(L, s, e.stored, k), e, k) == Around(asc, s, e, k)
  {
    hide Around, Fetch, LessInOrder, Crowd, Candidates;
    AroundElements(asc, s, e, k);
    forall x | x in Around(asc, s, e, k)
      ensures Reached(L, s, e.stored, k, x)
    {
      assert x in Elements(Around(asc, s, e, k));
      if x == e {
        UntiedCrowd(L, true, s, e, k, x);
      } else if x in TopSide(asc, s, e, k) {
        UntiedSide(L, asc, s, e, k, x);
      } else {
        assert x in TopSide(!asc, s, e, k);
        UntiedSide(L, !asc, s, e, k, x);
      }
    }
    NeighborsExactIff(L, asc, s, e, k);
  }

  lemma UntiedSide(L: Layout, d: bool, s: set<Entry>, e: Entry, k: nat, x: Entry)
    requires L.Valid() && e in s && Untied(s, e) && x in TopSide(d, s, e, k)
    ensures Reached(L, s, e.stored, k, x)
  {
    hide Crowd;
    RankOrderTotal(d);
    TopMembership(RankOrder(d), Side(d, s, e), k, x);
    UntiedCrowd(L, d, s, e, k, x);
  }

  lemma UntiedCrowd(L: Layout, d: bool, s: set<Entry>, e: Entry, k: nat, x: Entry)
    requires L.Valid() && e in s && Untied(s, e)
    requires x == e || (x in Side(d, s, e) && |Before(RankOrder(d), Side(d, s, e), x)| < k)
    ensures Crowd(L, d, s, e.stored, x) <= k
  {
    hide StrLess;
    RankOrderTotal(d);
    var between := Before(RankOrder(d), Toward(d, Part(L, s, L.ShardOf(x.member)), e.stored), x);
    if x == e {
      assert between == {};
    } else {
      var far := Before(RankOrder(d), Side(d, s, e), x);
      assert between <= far + {e};
      SubsetCard(between, far + {e});
    }
  }

  /** Members of e's own shard tied with it and listed before it in direction d. */
  function TiesBefore(L: Layout, d: bool, s: set<Entry>, e: Entry): set<Entry>
    requires L.Valid()
  {
    set x | x in s && L.ShardOf(x.member) == L.ShardOf(e.member) && x.stored == e.stored && LessInOrder(d, x, e)
  }

  /** A member that is on the board is reported missing exactly when more than k members of its own
      shard are tied with it on either side. */
  lemma TargetMissedIff(L: Layout, s: set<Entry>, e: Entry, k: nat)
    requires L.Valid() && e in s
    ensures e !in Candidates(L, s, e.stored, k)
            <==> |TiesBefore(L, true, s, e)| > k && |TiesBefore(L, false, s, e)| > k
  {
    hide Candidates, StrLess;
    FetchedIffReached(L, s, e.stored, k, e);
    var part := Part(L, s, L.ShardOf(e.member));
    assert Before(RankOrder(true), Toward(true, part, e.stored), e) == TiesBefore(L, true, s, e);
    assert Before(RankOrder(false), Toward(false, part, e.stored), e) == TiesBefore(L, false, s, e);
  }

  /** Three members with one score, on one shard and with k = 0: the middle one is not found. */
  lemma TieHidesTarget(L: Layout, v: real)
    requires L.shards == 1
    ensures var s := {Entry("a", v), Entry("b", v), Entry("c", v)};
            Entry("b", v) !in Candidates(L, s, v, 0) && |Around(true, s, Entry("b", v), 0)| == 1
  {
    hide Candidates;
    var a, e, c := Entry("a", v), Entry("b", v), Entry("c", v);
    var s := {a, e, c};
    assert StrLess("a", "b") && StrLess("b", "c");
    assert a in TiesBefore(L, true, s, e) && c in TiesBefore(L, false, s, e);
    TargetMissedIff(L, s, e, 0);
  }
}
