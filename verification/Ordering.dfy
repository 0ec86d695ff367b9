/** Strict total orders, the sorted listing of a finite set, and prefixes of it. */
module Ordering {
  import opened Basics

  ghost predicate StrictTotal<T(!new)>(less: (T, T) -> bool) {
    && (forall a :: !less(a, a))
    && (forall a, b :: a != b ==> less(a, b) || less(b, a))
    && (forall a, b, c :: less(a, b) && less(b, c) ==> less(a, c))
  }

  ghost predicate Sorted<T>(less: (T, T) -> bool, s: seq<T>) {
    forall i, j :: 0 <= i < j < |s| ==> less(s[i], s[j])
  }

  function Elements<T>(s: seq<T>): set<T> { set x | x in s }

  predicate IsLeast<T(==)>(less: (T, T) -> bool, s: set<T>, m: T) {
    m in s && forall x :: x in s ==> x == m || less(m, x)
  }

  lemma {:induction false} LeastExists<T(!new)>(less: (T, T) -> bool, s: set<T>)
    requires StrictTotal(less) && s != {}
    ensures exists m :: IsLeast(less, s, m)
    decreases s
  {
    var x :| x in s;
    if s == {x} {
      assert IsLeast(less, s, x);
    } else {
      LeastExists(less, s - {x});
      var m :| IsLeast(less, s - {x}, m);
      assert IsLeast(less, s, if less(m, x) then m else x);
    }
  }

  function Least<T(!new, ==)>(less: (T, T) -> bool, s: set<T>): (m: T)
    requires StrictTotal(less) && s != {}
    ensures IsLeast(less, s, m)
  {
    LeastExists(less, s);
    var m :| IsLeast(less, s, m);
    m
  }

  /** The sorted listing of a finite set: what a sorted set returns for a full range read. */
  function SortSet<T(!new, ==)>(less: (T, T) -> bool, s: set<T>): (r: seq<T>)
    requires StrictTotal(less)
    ensures |r| == |s| && Elements(r) == s && Sorted(less, r)
    decreases |s|
  {
    if s == {} then [] else
      var m := Least(less, s);
      var rest := SortSet(less, s - {m});
      assert forall x :: x in rest <==> x in Elements(rest);
      [m] + rest
  }

  /** A sorted sequence is determined by its elements. */
  lemma {:induction false} SortedUnique<T(!new)>(less: (T, T) -> bool, a: seq<T>, b: seq<T>)
    requires StrictTotal(less) && Sorted(less, a) && Sorted(less, b)
    requires Elements(a) == Elements(b)
    ensures a == b
    decreases |a|
  {
    assert b == [] || b[0] in Elements(b);
    if a != [] {
      assert a[0] in Elements(a);
      assert a[0] in b;
      assert b[0] in Elements(b);
      assert b[0] in a;
      assert a[0] == b[0];
      TailElements(less, a);
      TailElements(less, b);
      SortedUnique(less, a[1..], b[1..]);
      assert a == [a[0]] + a[1..] && b == [b[0]] + b[1..];
    }
  }

  lemma TailElements<T(!new)>(less: (T, T) -> bool, a: seq<T>)
    requires StrictTotal(less) && Sorted(less, a) && a != []
    ensures Sorted(less, a[1..]) && Elements(a[1..]) == Elements(a) - {a[0]}
  {
    forall x | x in Elements(a) - {a[0]}
      ensures x in a[1..]
    {
      var i :| 0 <= i < |a| && a[i] == x;
      assert a[1..][i - 1] == x;
    }
  }

  /** The number of elements of s that come before x. */
  function Before<T(==)>(less: (T, T) -> bool, s: set<T>, x: T): set<T> {
    set y | y in s && less(y, x)
  }

  /** In a sorted sequence, the elements before position i are exactly its first i. */
  lemma {:induction false} PrefixCard<T(!new)>(less: (T, T) -> bool, r: seq<T>, i: nat)
    requires StrictTotal(less) && Sorted(less, r) && i <= |r|
    ensures |Elements(r[..i])| == i
    decreases i
  {
    hide StrictTotal, Sorted;
    if i > 0 {
      PrefixCard(less, r, i - 1);
      LastIsNew(less, r, i);
      assert r[..i] == r[..i - 1] + [r[i - 1]];
      assert Elements(r[..i]) == Elements(r[..i - 1]) + {r[i - 1]};
    }
  }

  lemma LastIsNew<T(!new)>(less: (T, T) -> bool, r: seq<T>, i: nat)
    requires StrictTotal(less) && Sorted(less, r) && 0 < i <= |r|
    ensures r[i - 1] !in Elements(r[..i - 1])
  {
    forall j | 0 <= j < i - 1
      ensures r[j] != r[i - 1]
    {
      assert less(r[j], r[i - 1]);
    }
  }

  /** The position of an element in the listing is the number of elements before it. */
  lemma PositionIsRank<T(!new)>(less: (T, T) -> bool, s: set<T>, i: nat)
    requires StrictTotal(less) && i < |s|
    ensures Before(less, s, SortSet(less, s)[i]) == Elements(SortSet(less, s)[..i])
    ensures |Before(less, s, SortSet(less, s)[i])| == i
  {
    var r := SortSet(less, s);
    SortedBefore(less, r, i);
    PrefixCard(less, r, i);
  }

  lemma SortedBefore<T(!new)>(less: (T, T) -> bool, r: seq<T>, i: nat)
    requires StrictTotal(less) && Sorted(less, r) && i < |r|
    ensures Before(less, Elements(r), r[i]) == Elements(r[..i])
  {
    forall x | x in Before(less, Elements(r), r[i])
      ensures x in r[..i]
    {
      var j :| 0 <= j < |r| && r[j] == x;
      assert !less(r[i], r[j]);
      assert r[..i][j] == x;
    }
    forall x | x in Elements(r[..i])
      ensures x in Before(less, Elements(r), r[i])
    {
      var j :| 0 <= j < i && r[j] == x;
    }
  }

  function Min(a: nat, b: nat): nat { if a < b then a else b }

  /** The first n entries of the listing (all of them when there are fewer). */
  function Top<T(!new, ==)>(less: (T, T) -> bool, s: set<T>, n: nat): (r: seq<T>)
    requires StrictTotal(less)
    ensures |r| == Min(n, |s|) && Sorted(less, r)
  {
    SortSet(less, s)[..Min(n, |s|)]
  }

  /** Membership of the first n entries, as a count. */
  lemma TopMembership<T(!new)>(less: (T, T) -> bool, s: set<T>, n: nat, x: T)
    requires StrictTotal(less)
    ensures x in Top(less, s, n) <==> x in s && |Before(less, s, x)| < n
  {
    var l := SortSet(less, s);
    if x in Top(less, s, n) {
      var i :| 0 <= i < Min(n, |s|) && l[i] == x;
      PositionIsRank(less, s, i);
      assert x in Elements(l);
    }
    if x in s && |Before(less, s, x)| < n {
      assert x in Elements(l);
      var i :| 0 <= i < |l| && l[i] == x;
      PositionIsRank(less, s, i);
      assert Top(less, s, n)[i] == x;
    }
  }

  lemma BeforeMonotone<T(!new)>(less: (T, T) -> bool, u: set<T>, s: set<T>, x: T)
    requires u <= s
    ensures |Before(less, u, x)| <= |Before(less, s, x)|
  {
    var a, b := Before(less, u, x), Before(less, s, x);
    assert a <= b;
    assert b == a + (b - a);
  }

  /** A subset that holds the first n entries of s has the same first n entries. */
  lemma TopOfSubset<T(!new)>(less: (T, T) -> bool, u: set<T>, s: set<T>, n: nat)
    requires StrictTotal(less) && u <= s
    requires Elements(Top(less, s, n)) <= u
    ensures Top(less, u, n) == Top(less, s, n)
  {
    var a, b := Top(less, u, n), Top(less, s, n);
    forall x | x in Elements(b)
      ensures x in a
    {
      TopMembership(less, s, n, x);
      BeforeMonotone(less, u, s, x);
      TopMembership(less, u, n, x);
    }
    forall x | x in Elements(a)
      ensures x in b
    {
      TopMembership(less, u, n, x);
      if x !in b {
        TopMembership(less, s, n, x);
        TopAllBefore(less, u, s, n, x);
      }
    }
    SortedUnique(less, a, b);
  }

  /** An element outside the first n has all of them before it. */
  lemma TopAllBefore<T(!new)>(less: (T, T) -> bool, u: set<T>, s: set<T>, n: nat, x: T)
    requires StrictTotal(less) && u <= s && x in s && |Before(less, s, x)| >= n
    requires Elements(Top(less, s, n)) <= u
    ensures |Before(less, u, x)| >= n
  {
    var l := SortSet(less, s);
    assert x in Elements(l);
    var i :| 0 <= i < |l| && l[i] == x;
    PositionIsRank(less, s, i);
    PrefixCard(less, l, n);
    assert Top(less, s, n) == l[..n];
    forall y | y in Elements(l[..n])
      ensures y in Before(less, u, x)
    {
      var j :| 0 <= j < n && l[j] == y;
    }
    assert Elements(l[..n]) <= Before(less, u, x);
    assert Before(less, u, x) == Elements(l[..n]) + (Before(less, u, x) - Elements(l[..n]));
  }

  /** The reversed order lists the same set backwards. */
  lemma ReversedListing<T(!new)>(less: (T, T) -> bool, more: (T, T) -> bool, s: set<T>)
    requires StrictTotal(less) && StrictTotal(more)
    requires forall a, b :: less(a, b) <==> more(b, a)
    ensures SortSet(more, s) == Reverse(SortSet(less, s))
  {
    var l := SortSet(less, s);
    var r := Reverse(l);
    forall x | x in Elements(l)
      ensures x in r
    {
      var i :| 0 <= i < |l| && l[i] == x;
      assert r[|l| - 1 - i] == x;
    }
    forall x | x in Elements(r)
      ensures x in l
    {
      var i :| 0 <= i < |r| && r[i] == x;
      assert l[|l| - 1 - i] == x;
    }
    assert Elements(r) == Elements(l);
    SortedUnique(more, SortSet(more, s), r);
  }

  function Reverse<T>(s: seq<T>): (r: seq<T>)
    ensures |r| == |s|
    ensures forall i :: 0 <= i < |s| ==> r[i] == s[|s| - 1 - i]
  {
    seq(|s|, i requires 0 <= i < |s| => s[|s| - 1 - i])
  }

  /** The listing splits at any element into what comes before it and what comes after. */
  lemma SplitAt<T(!new)>(less: (T, T) -> bool, s: set<T>, x: T)
    requires StrictTotal(less) && x in s
    ensures SortSet(less, s)
            == SortSet(less, Before(less, s, x)) + [x] + SortSet(less, After(less, s, x))
  {
    var lo := SortSet(less, Before(less, s, x));
    var hi := SortSet(less, After(less, s, x));
    var all := lo + [x] + hi;
    forall e
      ensures e in all <==> e in s
      ensures e in lo ==> less(e, x)
      ensures e in hi ==> less(x, e)
    {
      assert e in lo <==> e in Elements(lo);
      assert e in hi <==> e in Elements(hi);
    }
    assert Elements(all) == s;
    forall i, j | 0 <= i < j < |all|
      ensures less(all[i], all[j])
    {
      AroundSorted(less, lo, x, hi, i, j);
    }
    SortedUnique(less, SortSet(less, s), all);
  }

  lemma AroundSorted<T(!new)>(less: (T, T) -> bool, lo: seq<T>, x: T, hi: seq<T>, i: nat, j: nat)
    requires StrictTotal(less) && Sorted(less, lo) && Sorted(less, hi)
    requires forall e :: e in lo ==> less(e, x)
    requires forall e :: e in hi ==> less(x, e)
    requires i < j < |lo + [x] + hi|
    ensures less((lo + [x] + hi)[i], (lo + [x] + hi)[j])
  {
    if i < |lo| {
      assert lo[i] in lo;
    }
    if j > |lo| {
      assert hi[j - |lo| - 1] in hi;
    }
  }

  function After<T(==)>(less: (T, T) -> bool, s: set<T>, x: T): set<T> {
    set y | y in s && less(x, y)
  }

  // ---------------------------------------------------------------- strings

  /** Go and Redis compare strings byte by byte. */
  predicate StrLess(a: string, b: string) {
    if b == [] then false
    else if a == [] then true
    else if a[0] != b[0] then a[0] < b[0]
    else StrLess(a[1..], b[1..])
  }

  /** At the first difference the smaller byte decides; a proper prefix comes first. */
  ghost predicate Differ(a: string, b: string, n: nat) {
    n <= |a| && n < |b| && a[..n] == b[..n] && (n == |a| || a[n] < b[n])
  }

  lemma {:induction false} StrLessIff(a: string, b: string)
    ensures StrLess(a, b) <==> exists n :: Differ(a, b, n)
  {
    if a == [] {
      assert b != [] ==> Differ(a, b, 0);
    } else if b != [] && a[0] == b[0] {
      StrLessIff(a[1..], b[1..]);
      if n: nat :| Differ(a[1..], b[1..], n) {
        DifferTail(a, b, n);
        assert Differ(a, b, n + 1);
      }
      if n: nat :| Differ(a, b, n) {
        DifferTail(a, b, n - 1);
        assert Differ(a[1..], b[1..], n - 1);
      }
    } else if b != [] {
      assert a[0] < b[0] ==> Differ(a, b, 0);
      if n: nat :| Differ(a, b, n) {
        DifferHead(a, b, n);
      }
    }
  }

  lemma DifferHead(a: string, b: string, n: nat)
    requires a != [] && b != [] && Differ(a, b, n)
    ensures a[0] <= b[0]
  {
    if n > 0 {
      assert a[..n][0] == b[..n][0];
    }
  }

  lemma DifferTail(a: string, b: string, n: nat)
    requires a != [] && b != [] && a[0] == b[0]
    ensures Differ(a[1..], b[1..], n) <==> Differ(a, b, n + 1)
  {
    if n + 1 <= |a| && n + 1 < |b| {
      assert a[..n + 1] == [a[0]] + a[1..][..n] && b[..n + 1] == [b[0]] + b[1..][..n];
      assert a[1..][..n] == a[..n + 1][1..] && b[1..][..n] == b[..n + 1][1..];
    }
  }

  lemma {:induction false} StrIrreflexive(a: string)
    ensures !StrLess(a, a)
  {
    if a != [] {
      StrIrreflexive(a[1..]);
    }
  }

  lemma {:induction false} StrTotal(a: string, b: string)
    requires a != b
    ensures StrLess(a, b) || StrLess(b, a)
  {
    if a != [] && b != [] && a[0] == b[0] {
      assert a == [a[0]] + a[1..] && b == [b[0]] + b[1..];
      StrTotal(a[1..], b[1..]);
    }
  }

  lemma {:induction false} StrTransitive(a: string, b: string, c: string)
    requires StrLess(a, b) && StrLess(b, c)
    ensures StrLess(a, c)
  {
    if a != [] && a[0] == b[0] == c[0] {
      StrTransitive(a[1..], b[1..], c[1..]);
    }
  }

  lemma StrStrictTotal()
    ensures StrictTotal(StrLess)
  {
    forall a: string { StrIrreflexive(a); }
    forall a: string, b: string | a != b { StrTotal(a, b); }
    forall a: string, b: string, c: string | StrLess(a, b) && StrLess(b, c) { StrTransitive(a, b, c); }
  }

  // ---------------------------------------------------------------- sorting a slice

  /** Insertion into a sorted slice; equal elements keep their order. */
  function Insert<T>(less: (T, T) -> bool, s: seq<T>, x: T): (r: seq<T>)
    ensures multiset(r) == multiset(s) + multiset{x}
  {
    if s == [] then [x]
    else if less(x, Last(s)) then
      assert s == s[..|s| - 1] + [Last(s)];
      Insert(less, s[..|s| - 1], x) + [Last(s)]
    else s + [x]
  }

  /** sort.Slice / sort.SliceStable: the stable sort of a slice. */
  function SortSlice<T>(less: (T, T) -> bool, s: seq<T>): (r: seq<T>)
    ensures multiset(r) == multiset(s)
  {
    if s == [] then []
    else
      assert s == s[..|s| - 1] + [Last(s)];
      Insert(less, SortSlice(less, s[..|s| - 1]), Last(s))
  }

  ghost predicate WeaklySorted<T>(less: (T, T) -> bool, s: seq<T>) {
    forall i, j :: 0 <= i < j < |s| ==> !less(s[j], s[i])
  }

  lemma {:induction false} InsertSorted<T(!new)>(less: (T, T) -> bool, s: seq<T>, x: T)
    requires StrictTotal(less) && WeaklySorted(less, s)
    ensures WeaklySorted(less, Insert(less, s, x))
  {
    if s != [] && less(x, Last(s)) {
      var front := s[..|s| - 1];
      InsertSorted(less, front, x);
      var r := Insert(less, front, x);
      forall i | 0 <= i < |r|
        ensures !less(Last(s), r[i])
      {
        assert r[i] in multiset(r);
        assert r[i] == x || r[i] in front;
      }
    }
  }

  lemma {:induction false} SliceSorted<T(!new)>(less: (T, T) -> bool, s: seq<T>)
    requires StrictTotal(less)
    ensures WeaklySorted(less, SortSlice(less, s))
  {
    if s != [] {
      SliceSorted(less, s[..|s| - 1]);
      InsertSorted(less, SortSlice(less, s[..|s| - 1]), Last(s));
    }
  }

  ghost predicate Distinct<T>(s: seq<T>) {
    forall i, j :: 0 <= i < j < |s| ==> s[i] != s[j]
  }

  /** Sorting a slice without repetitions is listing the set of its elements. */
  lemma SortSliceIsListing<T(!new)>(less: (T, T) -> bool, s: seq<T>)
    requires StrictTotal(less) && Distinct(s)
    ensures SortSlice(less, s) == SortSet(less, Elements(s))
  {
    var r := SortSlice(less, s);
    SliceSorted(less, s);
    forall i, j | 0 <= i < j < |r|
      ensures less(r[i], r[j])
    {
      if r[i] == r[j] {
        Repeated(r, i, j);
        DistinctCount(s, r[i]);
      }
    }
    assert forall x :: x in r <==> x in multiset(r);
    assert forall x :: x in s <==> x in multiset(s);
    assert Elements(r) == Elements(s);
    SortedUnique(less, r, SortSet(less, Elements(s)));
  }

  lemma Repeated<T>(r: seq<T>, i: nat, j: nat)
    requires i < j < |r| && r[i] == r[j]
    ensures multiset(r)[r[i]] >= 2
  {
    assert r == r[..j] + [r[j]] + r[j + 1..];
    assert r[i] in r[..j];
    assert multiset(r) == multiset(r[..j]) + multiset{r[j]} + multiset(r[j + 1..]);
  }

  lemma {:induction false} DistinctCount<T>(s: seq<T>, x: T)
    requires Distinct(s)
    ensures multiset(s)[x] <= 1
  {
    if s != [] {
      var front := s[..|s| - 1];
      DistinctCount(front, x);
      assert s == front + [Last(s)];
      assert multiset(s) == multiset(front) + multiset{Last(s)};
      if x == Last(s) {
        assert x !in front;
      }
    }
  }
}
