/** How often one record is written to one board (pkg/engine/board.go:252-274): once for every pair of a
    window and a segment that normalises to that board's key. */
module FanOut {
  import opened Basics
  import opened Boards
  import opened Ingest
  import opened Keys
  import opened Ordering
  import opened Store
  import opened Windows

  function WindowsOf(lb: LogicalBoard): seq<WindowSpec> {
    if lb.windows == [] then [WindowSpec(AllTime, "")] else lb.windows
  }

  function SegmentsIn(rec: Record): seq<string> { if rec.segments == [] then ["all"] else rec.segments }

  /** The segment names and window ids a record ends up under. */
  function SegmentNames(segs: seq<string>): seq<string> {
    seq(|segs|, i requires 0 <= i < |segs| => OrAll(segs[i]))
  }

  function WindowNames(windows: seq<WindowSpec>, t: Instant): seq<string> {
    seq(|windows|, i requires 0 <= i < |windows| => OrAll(WindowID(windows[i], t)))
  }

  /** How many of the keys are key k. */
  function Copies(keys: seq<BoardKey>, k: BoardKey): nat {
    if keys == [] then 0 else Copies(keys[..|keys| - 1], k) + (if Norm(Last(keys)) == k then 1 else 0)
  }

  /** n times a score on top of what was there. */
  function Added(v: Option<real>, n: nat, score: real): Option<real> {
    if n == 0 then v else Some((if v.Some? then v.value else 0.0) + Times(n, score))
  }

  lemma AddedOneMore(v: Option<real>, n: nat, score: real)
    ensures Added(Added(v, n, score), 1, score) == Added(v, n + 1, score)
  {
    hide Times;
    OneMore(n, score);
    TimesNone(score);
  }

  // ---------------------------------------------------------------- counting keys

  lemma {:induction false} CopiesConcat(a: seq<BoardKey>, b: seq<BoardKey>, k: BoardKey)
    ensures Copies(a + b, k) == Copies(a, k) + Copies(b, k)
  {
    hide Norm;
    if b == [] {
      assert a + b == a;
    } else {
      assert (a + b)[..|a + b| - 1] == a + b[..|b| - 1];
      CopiesConcat(a, b[..|b| - 1], k);
    }
  }

  lemma OrAllTwice(s: string)
    ensures OrAll(OrAll(s)) == OrAll(s)
  {
  }

  lemma {:induction false} CopiesInWindow(lb: LogicalBoard, window: string, segs: seq<string>, k: BoardKey)
    ensures Copies(KeysIn(lb, window, segs), k)
            == if k.app == lb.app && k.board == lb.board && k.window == OrAll(window)
               then multiset(SegmentNames(segs))[k.segment] else 0
  {
    hide OrAll;
    if segs == [] {
      assert SegmentNames(segs) == [];
    } else {
      var front, last := segs[..|segs| - 1], Last(segs);
      CopiesInWindow(lb, window, front, k);
      OrAllTwice(last);
      assert KeysIn(lb, window, segs)[..|front|] == KeysIn(lb, window, front);
      assert SegmentNames(segs) == SegmentNames(front) + [OrAll(last)];
    }
  }

  /** Windows times segments. */
  lemma {:induction false} CopiesFor(lb: LogicalBoard, windows: seq<WindowSpec>, segs: seq<string>, t: Instant, k: BoardKey)
    ensures Copies(KeysFor(lb, windows, segs, t), k)
            == if k.app == lb.app && k.board == lb.board
               then Product(multiset(WindowNames(windows, t))[k.window], multiset(SegmentNames(segs))[k.segment]) else 0
  {
    hide WindowID, OrAll, Copies, KeysIn, Product;
    if windows == [] {
      assert WindowNames(windows, t) == [];
      NoCopies(k);
      NoWindow(multiset(SegmentNames(segs))[k.segment]);
    } else {
      var front, last := windows[..|windows| - 1], Last(windows);
      CopiesFor(lb, front, segs, t, k);
      CopiesConcat(KeysFor(lb, front, segs, t), KeysIn(lb, WindowID(last, t), segs), k);
      CopiesInWindow(lb, WindowID(last, t), segs, k);
      assert WindowNames(windows, t) == WindowNames(front, t) + [OrAll(WindowID(last, t))];
      OneMoreWindow(multiset(WindowNames(front, t))[k.window], multiset(SegmentNames(segs))[k.segment]);
    }
  }

  lemma NoCopies(k: BoardKey)
    ensures Copies([], k) == 0
  {
  }

  function Product(n: nat, m: nat): int { n * m }

  lemma NoWindow(m: nat)
    ensures Product(0, m) == 0
  {
  }

  lemma OneMoreWindow(n: nat, m: nat)
    ensures Product(n + 1, m) == Product(n, m) + m
  {
  }

  // ---------------------------------------------------------------- counting writes

  lemma {:induction false} WritesOf(keys: seq<BoardKey>, ops: seq<SubmitOp>, cfg: Config, rec: Record, c: Cell, v: Option<real>)
    requires WithDefaults(cfg).policy.Increment? && AllOk(ops) && |ops| == |keys|
    requires forall i :: 0 <= i < |keys| ==> ops[i] == SubmitOp(keys[i], cfg, rec.member, rec.score, rec.time)
    ensures CellOps(ops, c, v) == Added(v, if c.member == rec.member then Copies(keys, c.key) else 0, rec.score)
  {
    hide CheckOp, Added, Norm;
    if keys == [] {
      NoneAdded(v, rec.score);
    } else {
      var kf, of := keys[..|keys| - 1], ops[..|ops| - 1];
      WritesOf(kf, of, cfg, rec, c, v);
      assert CheckOp(ops[|ops| - 1]).Ok?;
      var n := Copies(kf, c.key);
      if CellOf(Last(ops)) == c {
        OneWrite(Last(ops), c, Added(v, n, rec.score));
        AddedOneMore(v, n, rec.score);
      }
    }
  }

  lemma NoneAdded(v: Option<real>, score: real)
    ensures Added(v, 0, score) == v
  {
  }

  lemma OneWrite(op: SubmitOp, c: Cell, v: Option<real>)
    requires CellOf(op) == c && CheckOp(op).Ok? && WithDefaults(op.cfg).policy.Increment?
    ensures CellOp(op, c, v) == Added(v, 1, op.score)
  {
    hide CheckOp, Times;
    TimesNone(op.score);
  }

  /** The window-segment pairs of a record that name board k. */
  function Pairs(lb: LogicalBoard, rec: Record, k: BoardKey): int {
    if k.app == lb.app && k.board == lb.board
    then Product(multiset(WindowNames(WindowsOf(lb), rec.time))[k.window], multiset(SegmentNames(SegmentsIn(rec)))[k.segment])
    else 0
  }

  /** On an increment board an accepted record adds to a cell its score times the number of
      window-segment pairs that name the cell's board. */
  lemma CountsCopies(lb: LogicalBoard, rec: Record, c: Cell, v: Option<real>)
    requires WithDefaults(lb.cfg).policy.Increment? && AllOk(OpsOf(lb, rec))
    ensures var n := Copies(Derive(lb, rec.segments, rec.time), c.key);
            && CellOps(OpsOf(lb, rec), c, v) == Added(v, if c.member == rec.member then n else 0, rec.score)
            && n == Pairs(lb, rec, c.key)
  {
    hide AllOk, CellOps, Copies, KeysFor, WindowNames, SegmentNames, Added;
    WritesOf(Derive(lb, rec.segments, rec.time), OpsOf(lb, rec), lb.cfg, rec, c, v);
    CopiesFor(lb, WindowsOf(lb), SegmentsIn(rec), rec.time, c.key);
  }

  // ---------------------------------------------------------------- when every board counts once

  lemma {:induction false} DistinctCounts(s: seq<string>)
    ensures Distinct(s) <==> forall x :: x in s ==> multiset(s)[x] == 1
  {
    if s != [] {
      var front, last := s[..|s| - 1], Last(s);
      assert s == front + [last];
      DistinctCounts(front);
      assert Distinct(s) <==> Distinct(front) && last !in front;
      assert multiset(s) == multiset(front) + multiset{last};
      assert forall x :: x in s <==> x in front || x == last;
      if last !in front {
        assert forall x :: x in front ==> multiset(s)[x] == multiset(front)[x];
      } else {
        assert multiset(s)[last] >= 2;
      }
    }
  }

  /** The board a window-segment pair leads to. */
  function KeyOf(lb: LogicalBoard, window: string, segment: string): BoardKey {
    BoardKey(lb.app, lb.board, segment, window)
  }

  ghost predicate CountedOnce(lb: LogicalBoard, rec: Record, k: BoardKey) {
    forall v :: CellOps(OpsOf(lb, rec), Cell(k, rec.member), v) == Added(v, 1, rec.score)
  }

  /** An accepted record counts once on every board it reaches exactly when its segment names are
      pairwise different and so are its window ids, or it adds nothing anyway. */
  lemma CountsOnceIff(lb: LogicalBoard, rec: Record)
    requires WithDefaults(lb.cfg).policy.Increment? && AllOk(OpsOf(lb, rec))
    ensures (forall w, s | w in WindowNames(WindowsOf(lb), rec.time) && s in SegmentNames(SegmentsIn(rec)) ::
               CountedOnce(lb, rec, KeyOf(lb, w, s)))
            <==> rec.score == 0.0
                 || (Distinct(WindowNames(WindowsOf(lb), rec.time)) && Distinct(SegmentNames(SegmentsIn(rec))))
  {
    hide AllOk, CellOps, OpsOf, Copies, WindowNames, SegmentNames, Distinct, CountedOnce, WindowsOf, SegmentsIn;
    var ws, ss := WindowNames(WindowsOf(lb), rec.time), SegmentNames(SegmentsIn(rec));
    DistinctCounts(ws);
    DistinctCounts(ss);
    forall w, s | w in ws && s in ss
      ensures CountedOnce(lb, rec, KeyOf(lb, w, s)) <==> rec.score == 0.0 || (multiset(ws)[w] == 1 && multiset(ss)[s] == 1)
    {
      CountedOnceIff(lb, rec, w, s);
    }
    NamesExist(lb, rec);
    var w0, s0 := ws[0], ss[0];
    if !Distinct(ws) {
      var w :| w in ws && multiset(ws)[w] != 1;
      assert w in ws && s0 in ss;
      assert CountedOnce(lb, rec, KeyOf(lb, w, s0)) <==> rec.score == 0.0;
    } else if !Distinct(ss) {
      var s :| s in ss && multiset(ss)[s] != 1;
      assert w0 in ws && s in ss;
      assert CountedOnce(lb, rec, KeyOf(lb, w0, s)) <==> rec.score == 0.0;
    }
  }

  lemma NamesExist(lb: LogicalBoard, rec: Record)
    ensures WindowNames(WindowsOf(lb), rec.time) != [] && SegmentNames(SegmentsIn(rec)) != []
  {
  }

  lemma CountedOnceIff(lb: LogicalBoard, rec: Record, w: string, s: string)
    requires WithDefaults(lb.cfg).policy.Increment? && AllOk(OpsOf(lb, rec))
    requires w in WindowNames(WindowsOf(lb), rec.time) && s in SegmentNames(SegmentsIn(rec))
    ensures CountedOnce(lb, rec, KeyOf(lb, w, s))
            <==> rec.score == 0.0 || (multiset(WindowNames(WindowsOf(lb), rec.time))[w] == 1
                                      && multiset(SegmentNames(SegmentsIn(rec)))[s] == 1)
  {
    hide AllOk, CellOps, OpsOf, Derive, WindowNames, SegmentNames, WindowsOf, SegmentsIn, Added, Copies;
    var c := Cell(KeyOf(lb, w, s), rec.member);
    var x, y := multiset(WindowNames(WindowsOf(lb), rec.time))[w], multiset(SegmentNames(SegmentsIn(rec)))[s];
    var n := x * y;
    forall v
      ensures CellOps(OpsOf(lb, rec), c, v) == Added(v, n, rec.score)
      ensures Added(v, n, rec.score) == Added(v, 1, rec.score) <==> rec.score == 0.0 || (x == 1 && y == 1)
    {
      CountsCopies(lb, rec, c, v);
      SameAdded(v, x, y, rec.score);
    }
    assert CountedOnce(lb, rec, c.key) ==> Added(None, n, rec.score) == Added(None, 1, rec.score);
  }

  lemma SameAdded(v: Option<real>, x: nat, y: nat, score: real)
    requires x > 0 && y > 0
    ensures Added(v, x * y, score) == Added(v, 1, score) <==> score == 0.0 || (x == 1 && y == 1)
  {
    hide Times;
    ProductOne(x, y);
    TimesNone(score);
    TimesIsOnce(x * y, score);
  }

  lemma ProductOne(x: nat, y: nat)
    requires x > 0 && y > 0
    ensures x * y >= 1 && (x * y == 1 <==> x == 1 && y == 1)
  {
    if y > 1 {
      assert x * y >= 1 * y;
    } else {
      assert x * y == x;
    }
  }
}
