/** What a board holds after a log, said of the log's records alone (pkg/ingest/consumer.go:25-59,
    pkg/engine/board.go:252-274, pkg/engine/redis_engine.go:66-82): which records count towards a cell,
    and the best, the last or the sum of their scores. */
module Readback {
  import opened Basics
  import opened Boards
  import opened Codec
  import opened FanOut
  import opened Ingest
  import opened Keys
  import opened Policies
  import opened Store
  import opened Windows

  /** The record belongs to the cell's owner and is fanned out to the cell's board. */
  predicate Addresses(lb: LogicalBoard, r: Record, c: Cell) {
    && r.app == c.key.app && r.board == c.key.board && r.member == c.member
    && (if lb.windows == [] then c.key.window == "all"
        else exists i :: 0 <= i < |lb.windows| && OrAll(WindowID(lb.windows[i], r.time)) == c.key.window)
    && (if r.segments == [] then c.key.segment == "all"
        else exists j :: 0 <= j < |r.segments| && OrAll(r.segments[j]) == c.key.segment)
  }

  /** A submit that reaches the cell and that the board's config accepts. */
  predicate Scores(lb: LogicalBoard, r: Record, c: Cell) {
    !r.tombstone && Addresses(lb, r, c) && ValidConfig(lb.cfg) && Encode(lb.cfg, r.score, r.time).Some?
  }

  /** A tombstone of the cell's owner. */
  predicate Erases(r: Record, c: Cell) {
    r.tombstone && r.app == c.key.app && r.board == c.key.board && r.member == c.member
  }

  /** Record i scores and no tombstone follows it. */
  predicate Stands(lb: LogicalBoard, recs: seq<Record>, c: Cell, i: nat) {
    && i < |recs| && Scores(lb, recs[i], c)
    && forall j :: i < j < |recs| ==> !Erases(recs[j], c)
  }

  /** What an accepted record stores. */
  function Stored(lb: LogicalBoard, r: Record): real {
    if ValidConfig(lb.cfg) && Encode(lb.cfg, r.score, r.time).Some? then Encode(lb.cfg, r.score, r.time).value else 0.0
  }

  /** The values of the records that count. */
  ghost function Standing(lb: LogicalBoard, recs: seq<Record>, c: Cell): set<real> {
    set i: nat | i < |recs| && Stands(lb, recs, c, i) :: Stored(lb, recs[i])
  }

  /** v is the value of the last record that counts. */
  ghost predicate IsLast(lb: LogicalBoard, recs: seq<Record>, c: Cell, v: Option<real>) {
    match v
    case None => forall i :: !Stands(lb, recs, c, i)
    case Some(x) =>
      exists i: nat :: Stands(lb, recs, c, i) && x == Stored(lb, recs[i]) && forall j :: i < j ==> !Stands(lb, recs, c, j)
  }

  /** The scores of the records that count, each as often as its windows and segments name the board. */
  function Total(lb: LogicalBoard, recs: seq<Record>, c: Cell): real {
    if recs == [] then 0.0
    else
      var r := Last(recs);
      if Erases(r, c) then 0.0
      else Total(lb, recs[..|recs| - 1], c) + if Scores(lb, r, c) then Times(Pairs(lb, r, c.key), r.score) else 0.0
  }

  /** What cell c must hold after the log: the best value on a best board, the last on a last board, the
      total on an increment board. */
  ghost predicate Holds(lb: LogicalBoard, recs: seq<Record>, c: Cell, v: Option<real>) {
    match lb.cfg.policy
    case LastWins => IsLast(lb, recs, c, v)
    case Increment => v == if exists i :: Stands(lb, recs, c, i) then Some(Total(lb, recs, c)) else None
    case PolicyOther => v == None
    case _ => IsBest(lb.cfg.order.Asc?, v, Standing(lb, recs, c))
  }

  /** And so every cell of every registered board. */
  ghost predicate HoldsLog(reg: Registry, recs: seq<Record>, z: map<Cell, real>) {
    forall c: Cell | ValidKey(c.key) && (c.key.app, c.key.board) in reg ::
      Holds(reg[(c.key.app, c.key.board)], recs, c, Lookup(z, c))
  }

  // ---------------------------------------------------------------- one record

  lemma ValidWhenNormIs(k: BoardKey)
    ensures ValidKey(Norm(k)) <==> ValidKey(k)
  {
  }

  lemma OneOp(op: SubmitOp, c: Cell, v: Option<real>)
    requires ValidKey(c.key)
    ensures CellOp(op, c, v)
            == if CellOf(op) == c && ValidConfig(op.cfg) && Encode(op.cfg, op.score, op.time).Some?
               then Some(NewValue(op.cfg, v, op.score, Encode(op.cfg, op.score, op.time).value)) else v
  {
    hide ValidConfig, Encode, NewValue, ValidKey;
    ValidWhenNormIs(op.key);
  }

  lemma Rewritten(cfg: Config, v: Option<real>, score: real, enc: real)
    requires !WithDefaults(cfg).policy.Increment?
    ensures NewValue(cfg, Some(NewValue(cfg, v, score, enc)), score, enc) == NewValue(cfg, v, score, enc)
  {
  }

  /** The writes of one record to one cell: on a best or last board the first decides, on an increment
      board each adds the score. */
  lemma {:induction false} Writes(keys: seq<BoardKey>, ops: seq<SubmitOp>, cfg: Config, r: Record, c: Cell, v: Option<real>)
    requires ValidKey(c.key) && |ops| == |keys|
    requires forall i :: 0 <= i < |keys| ==> ops[i] == SubmitOp(keys[i], cfg, r.member, r.score, r.time)
    ensures var n := if c.member == r.member && ValidConfig(cfg) && Encode(cfg, r.score, r.time).Some? then Copies(keys, c.key) else 0;
            && (n == 0 ==> CellOps(ops, c, v) == v)
            && (n > 0 && !WithDefaults(cfg).policy.Increment? ==>
                  CellOps(ops, c, v) == Some(NewValue(cfg, v, r.score, Encode(cfg, r.score, r.time).value)))
            && (WithDefaults(cfg).policy.Increment? ==> CellOps(ops, c, v) == Added(v, n, r.score))
  {
    hide ValidConfig, Encode, NewValue, ValidKey, Norm, CellOp, Added;
    if keys == [] {
      NoneAdded(v, r.score);
    } else {
      var kf, of := keys[..|keys| - 1], ops[..|ops| - 1];
      Writes(kf, of, cfg, r, c, v);
      assert Last(ops) == SubmitOp(Last(keys), cfg, r.member, r.score, r.time);
      OneOp(Last(ops), c, CellOps(of, c, v));
      if ValidConfig(cfg) && Encode(cfg, r.score, r.time).Some? {
        OneWriteMore(cfg, v, Copies(kf, c.key), r.score, Encode(cfg, r.score, r.time).value);
      }
    }
  }

  lemma OneWriteMore(cfg: Config, v: Option<real>, n: nat, score: real, enc: real)
    ensures !WithDefaults(cfg).policy.Increment? ==>
              NewValue(cfg, Some(NewValue(cfg, v, score, enc)), score, enc) == NewValue(cfg, v, score, enc)
    ensures WithDefaults(cfg).policy.Increment? ==>
              Some(NewValue(cfg, Added(v, n, score), score, enc)) == Added(v, n + 1, score)
  {
    hide Times;
    TimesNone(score);
    OneMore(n, score);
  }

  /** The fan-out names the cell's board exactly when the record reaches it. */
  lemma AddressesIff(lb: LogicalBoard, r: Record, c: Cell)
    requires lb.app == r.app && lb.board == r.board
    ensures Addresses(lb, r, c) <==> r.member == c.member && Pairs(lb, r, c.key) > 0
    ensures Pairs(lb, r, c.key) >= 0
    ensures Copies(Derive(lb, r.segments, r.time), c.key) == Pairs(lb, r, c.key)
  {
    hide WindowID, Copies, KeysFor, OrAll;
    var ws, ss := WindowNames(WindowsOf(lb), r.time), SegmentNames(SegmentsIn(r));
    CopiesFor(lb, WindowsOf(lb), SegmentsIn(r), r.time, c.key);
    Positive(multiset(ws)[c.key.window], multiset(ss)[c.key.segment]);
    WindowNamesIff(lb, r.time, c.key.window);
    SegmentNamesIff(r, c.key.segment);
  }

  lemma Positive(n: nat, m: nat)
    ensures Product(n, m) >= 0 && (Product(n, m) > 0 <==> n > 0 && m > 0)
  {
    if n > 0 && m > 0 {
      assert n * m >= 1 * m;
    }
  }

  lemma WindowNamesIff(lb: LogicalBoard, t: Instant, w: string)
    ensures w in multiset(WindowNames(WindowsOf(lb), t))
            <==> if lb.windows == [] then w == "all"
                 else exists i :: 0 <= i < |lb.windows| && OrAll(WindowID(lb.windows[i], t)) == w
  {
    var ws := WindowNames(WindowsOf(lb), t);
    if lb.windows == [] {
      assert WindowID(WindowSpec(AllTime, ""), t) == "all";
      assert ws == ["all"];
    }
    hide WindowID, OrAll;
    assert w in multiset(ws) <==> w in ws;
    assert forall i :: 0 <= i < |ws| ==> ws[i] == OrAll(WindowID(WindowsOf(lb)[i], t));
    if lb.windows != [] && exists i :: 0 <= i < |lb.windows| && OrAll(WindowID(lb.windows[i], t)) == w {
      var i :| 0 <= i < |lb.windows| && OrAll(WindowID(lb.windows[i], t)) == w;
      assert ws[i] == w;
    }
  }

  lemma SegmentNamesIff(r: Record, s: string)
    ensures s in multiset(SegmentNames(SegmentsIn(r)))
            <==> if r.segments == [] then s == "all" else exists j :: 0 <= j < |r.segments| && OrAll(r.segments[j]) == s
  {
    var ss := SegmentNames(SegmentsIn(r));
    if r.segments == [] {
      assert ss == ["all"];
    }
    hide OrAll;
    assert s in multiset(ss) <==> s in ss;
    if r.segments != [] && exists j :: 0 <= j < |r.segments| && OrAll(r.segments[j]) == s {
      var j :| 0 <= j < |r.segments| && OrAll(r.segments[j]) == s;
      assert ss[j] == s;
    }
  }

  /** What one record of the log does to a cell. */
  lemma RecordCell(reg: Registry, r: Record, c: Cell, v: Option<real>)
    requires ValidRegistry(reg) && ValidKey(c.key) && (c.key.app, c.key.board) in reg
    ensures var lb := reg[(c.key.app, c.key.board)];
            && (Erases(r, c) ==> CellRecord(reg, r, c, v) == None)
            && (!Erases(r, c) && !Scores(lb, r, c) ==> CellRecord(reg, r, c, v) == v)
            && (Scores(lb, r, c) && !WithDefaults(lb.cfg).policy.Increment? ==>
                  CellRecord(reg, r, c, v) == Some(NewValue(lb.cfg, v, r.score, Stored(lb, r))))
            && (Scores(lb, r, c) && WithDefaults(lb.cfg).policy.Increment? ==>
                  CellRecord(reg, r, c, v) == Added(v, Pairs(lb, r, c.key), r.score) && Pairs(lb, r, c.key) > 0)
  {
    hide ValidKey, ValidConfig, Encode, NewValue, Added, Glob, ScanPattern, ZKey, CellOps, Copies, Derive, Pairs, Addresses, ColonFree;
    var lb := reg[(c.key.app, c.key.board)];
    if OwnerOf(r) != CellOwner(c) {
      NotOwner(lb, r, c);
      ForeignRecord(reg, r, c, v);
    } else if r.tombstone {
      TombstoneClears(reg, r, c, v);
    } else {
      AddressesIff(lb, r, c);
      Writes(Derive(lb, r.segments, r.time), OpsOf(lb, r), lb.cfg, r, c, v);
    }
  }

  lemma NotOwner(lb: LogicalBoard, r: Record, c: Cell)
    requires OwnerOf(r) != CellOwner(c)
    ensures !Addresses(lb, r, c)
  {
  }

  // ---------------------------------------------------------------- the log

  lemma BestNext(asc: bool, cfg: Config, v: Option<real>, vals: set<real>, score: real, enc: real)
    requires IsBest(asc, v, vals) && asc == cfg.order.Asc? && (cfg.policy.Best? || cfg.policy.PolicyUnset?)
    ensures IsBest(asc, Some(NewValue(cfg, v, score, enc)), vals + {enc})
  {
  }

  /** Which records count after one more. */
  lemma StandsSnoc(lb: LogicalBoard, recs: seq<Record>, c: Cell, i: nat)
    requires recs != []
    ensures var front, last := recs[..|recs| - 1], Last(recs);
            Stands(lb, recs, c, i)
            <==> if i == |front| then Scores(lb, last, c) else Stands(lb, front, c, i) && !Erases(last, c)
  {
    hide Scores, Erases;
    var front := recs[..|recs| - 1];
    assert recs == front + [Last(recs)];
    if i < |front| {
      assert front[i] == recs[i];
      assert forall j :: 0 <= j < |front| ==> front[j] == recs[j];
      assert recs[|front|] == Last(recs);
    }
  }

  lemma StandingSnoc(lb: LogicalBoard, recs: seq<Record>, c: Cell)
    requires recs != []
    ensures var front, last := recs[..|recs| - 1], Last(recs);
            Standing(lb, recs, c)
            == (if Erases(last, c) then {} else Standing(lb, front, c))
               + (if Scores(lb, last, c) then {Stored(lb, last)} else {})
  {
    hide Addresses, Stands, Stored;
    var front, last := recs[..|recs| - 1], Last(recs);
    forall i: nat {
      StandsSnoc(lb, recs, c, i);
    }
    var l, r := Standing(lb, recs, c),
                (if Erases(last, c) then {} else Standing(lb, front, c)) + (if Scores(lb, last, c) then {Stored(lb, last)} else {});
    assert forall i: nat :: i < |recs| && Stands(lb, recs, c, i) && i != |front| ==> recs[i] == front[i];
    forall x | x in l
      ensures x in r
    {
      var i: nat :| i < |recs| && Stands(lb, recs, c, i) && x == Stored(lb, recs[i]);
    }
    forall x | x in r
      ensures x in l
    {
      if Scores(lb, last, c) && x == Stored(lb, last) {
        assert Stands(lb, recs, c, |front|);
      } else {
        var i: nat :| i < |front| && Stands(lb, front, c, i) && x == Stored(lb, front[i]);
        assert Stands(lb, recs, c, i) && recs[i] == front[i];
      }
    }
  }

  lemma NoneStands(lb: LogicalBoard, c: Cell)
    ensures Standing(lb, [], c) == {} && forall i :: !Stands(lb, [], c, i)
  {
  }

  lemma {:induction false} BestHolds(reg: Registry, recs: seq<Record>, c: Cell)
    requires ValidRegistry(reg) && ValidKey(c.key) && (c.key.app, c.key.board) in reg
    requires var p := reg[(c.key.app, c.key.board)].cfg.policy;
             p.Best? || p.PolicyUnset?
    ensures var lb := reg[(c.key.app, c.key.board)];
            IsBest(lb.cfg.order.Asc?, CellReplay(reg, recs, c, None), Standing(lb, recs, c))
  {
    hide CellRecord, ValidRegistry, ValidKey, Scores, Erases, NewValue, Standing, IsBest, Stored;
    var lb := reg[(c.key.app, c.key.board)];
    if recs == [] {
      NoneStands(lb, c);
      BestOfNone(lb.cfg.order.Asc?);
    } else {
      var front := recs[..|recs| - 1];
      var v := CellReplay(reg, front, c, None);
      BestHolds(reg, front, c);
      StandingSnoc(lb, recs, c);
      RecordCell(reg, Last(recs), c, v);
      BestOfNone(lb.cfg.order.Asc?);
      BestNext(lb.cfg.order.Asc?, lb.cfg, v, Standing(lb, front, c), Last(recs).score, Stored(lb, Last(recs)));
      NotBoth(lb, Last(recs), c);
    }
  }

  lemma NotBoth(lb: LogicalBoard, r: Record, c: Cell)
    ensures !(Erases(r, c) && Scores(lb, r, c))
    ensures forall vals: set<real> :: vals + {} == vals
  {
  }

  lemma BestOfNone(asc: bool)
    ensures IsBest(asc, None, {})
  {
  }

  lemma {:induction false} LastHolds(reg: Registry, recs: seq<Record>, c: Cell)
    requires ValidRegistry(reg) && ValidKey(c.key) && (c.key.app, c.key.board) in reg
    requires reg[(c.key.app, c.key.board)].cfg.policy.LastWins?
    ensures var lb := reg[(c.key.app, c.key.board)];
            IsLast(lb, recs, c, CellReplay(reg, recs, c, None))
  {
    hide CellRecord, ValidRegistry, ValidKey, Scores, Erases, Stored, Stands;
    var lb := reg[(c.key.app, c.key.board)];
    if recs == [] {
      NoneStands(lb, c);
    } else {
      var front := recs[..|recs| - 1];
      LastHolds(reg, front, c);
      RecordCell(reg, Last(recs), c, CellReplay(reg, front, c, None));
      NotBoth(lb, Last(recs), c);
      forall i: nat
        ensures Stands(lb, recs, c, i)
                <==> if i == |front| then Scores(lb, Last(recs), c) else Stands(lb, front, c, i) && !Erases(Last(recs), c)
        ensures Stands(lb, recs, c, i) ==> i <= |front|
        ensures i < |front| ==> recs[i] == front[i]
      {
        StandsSnoc(lb, recs, c, i);
        StandsInside(lb, recs, c, i);
      }
      var v := CellReplay(reg, front, c, None);
      if Scores(lb, Last(recs), c) {
        assert Stands(lb, recs, c, |front|);
      } else if !Erases(Last(recs), c) && v.Some? {
        var i := LastOne(lb, front, c, v);
        assert Stands(lb, recs, c, i);
      }
    }
  }

  lemma LastOne(lb: LogicalBoard, recs: seq<Record>, c: Cell, v: Option<real>) returns (i: nat)
    requires v.Some? && IsLast(lb, recs, c, v)
    ensures i < |recs| && Stands(lb, recs, c, i) && v.value == Stored(lb, recs[i]) && forall j :: i < j ==> !Stands(lb, recs, c, j)
  {
    hide Scores, Erases, Stored;
    i :| Stands(lb, recs, c, i) && v.value == Stored(lb, recs[i]) && forall j :: i < j ==> !Stands(lb, recs, c, j);
  }

  lemma StandsInside(lb: LogicalBoard, recs: seq<Record>, c: Cell, i: nat)
    ensures Stands(lb, recs, c, i) ==> i < |recs|
  {
  }

  lemma {:induction false} TotalHolds(reg: Registry, recs: seq<Record>, c: Cell)
    requires ValidRegistry(reg) && ValidKey(c.key) && (c.key.app, c.key.board) in reg
    requires reg[(c.key.app, c.key.board)].cfg.policy.Increment?
    ensures var lb := reg[(c.key.app, c.key.board)];
            && CellReplay(reg, recs, c, None) == (if exists i :: Stands(lb, recs, c, i) then Some(Total(lb, recs, c)) else None)
            && ((forall i :: !Stands(lb, recs, c, i)) ==> Total(lb, recs, c) == 0.0)
  {
    hide CellRecord, ValidRegistry, ValidKey, Scores, Erases, Stands, Pairs, Times;
    var lb := reg[(c.key.app, c.key.board)];
    if recs == [] {
      NoneStands(lb, c);
    } else {
      var front := recs[..|recs| - 1];
      TotalHolds(reg, front, c);
      RecordCell(reg, Last(recs), c, CellReplay(reg, front, c, None));
      NotBoth(lb, Last(recs), c);
      forall i: nat
        ensures Stands(lb, recs, c, i)
                <==> if i == |front| then Scores(lb, Last(recs), c) else Stands(lb, front, c, i) && !Erases(Last(recs), c)
      {
        StandsSnoc(lb, recs, c, i);
      }
      if Scores(lb, Last(recs), c) {
        assert Stands(lb, recs, c, |front|);
      } else if !Erases(Last(recs), c) && exists i :: Stands(lb, front, c, i) {
        var i :| Stands(lb, front, c, i);
        assert i != |front| by {
          StandsInside(lb, front, c, i);
        }
        assert Stands(lb, recs, c, i);
      }
    }
  }

  lemma {:induction false} UnacceptedHolds(reg: Registry, recs: seq<Record>, c: Cell)
    requires ValidRegistry(reg) && ValidKey(c.key) && (c.key.app, c.key.board) in reg
    requires reg[(c.key.app, c.key.board)].cfg.policy.PolicyOther?
    ensures CellReplay(reg, recs, c, None) == None
  {
    hide CellRecord, ValidRegistry, ValidKey, Erases;
    if recs != [] {
      UnacceptedHolds(reg, recs[..|recs| - 1], c);
      RecordCell(reg, Last(recs), c, None);
    }
  }

  /** Replaying any log leaves in every cell of every registered board the best, the last or the total of
      the records that count towards it, by the board's policy. */
  lemma ReplayHolds(reg: Registry, recs: seq<Record>)
    requires ValidRegistry(reg)
    ensures HoldsLog(reg, recs, Replay(reg, EMPTY, recs).z)
  {
    hide Replay, CellReplay, ValidRegistry, ValidKey, IsBest, IsLast, Total, Standing, Stands;
    forall c: Cell | ValidKey(c.key) && (c.key.app, c.key.board) in reg
      ensures Holds(reg[(c.key.app, c.key.board)], recs, c, Lookup(Replay(reg, EMPTY, recs).z, c))
    {
      ReplayCell(reg, EMPTY, recs, c);
      match reg[(c.key.app, c.key.board)].cfg.policy
      case LastWins => LastHolds(reg, recs, c);
      case Increment => TotalHolds(reg, recs, c);
      case PolicyOther => UnacceptedHolds(reg, recs, c);
      case _ => BestHolds(reg, recs, c);
    }
  }

  /** One record that counts reads back as its own score on every board that keeps scores. */
  lemma OneRecordReadsBack(reg: Registry, recs: seq<Record>, c: Cell, i: nat)
    requires ValidRegistry(reg) && ValidKey(c.key) && (c.key.app, c.key.board) in reg
    requires var lb := reg[(c.key.app, c.key.board)];
             && Stands(lb, recs, c, i) && (forall j :: Stands(lb, recs, c, j) ==> j == i)
             && (!lb.cfg.policy.Increment?)
             && (lb.cfg.tie.FirstToReach? ==> recs[i].score < TWO63 as real)
    ensures var lb := reg[(c.key.app, c.key.board)];
            var v := Lookup(Replay(reg, EMPTY, recs).z, c);
            v.Some? && Decode(lb.cfg, v.value) == recs[i].score
  {
    hide Replay, CellReplay, ValidRegistry, ValidKey, IsBest, Total, Addresses, Encode, Decode;
    var lb := reg[(c.key.app, c.key.board)];
    var v := Lookup(Replay(reg, EMPTY, recs).z, c);
    ReplayHolds(reg, recs);
    assert Holds(lb, recs, c, v);
    assert Stored(lb, recs[i]) in Standing(lb, recs, c);
    assert Standing(lb, recs, c) == {Stored(lb, recs[i])};
    OnlyBest(lb.cfg.order.Asc?, v, Stored(lb, recs[i]));
    DecodeAccepted(lb.cfg, recs[i].score, recs[i].time);
  }

  lemma DecodeAccepted(cfg: Config, score: real, t: Instant)
    requires ValidConfig(cfg) && Encode(cfg, score, t).Some?
    requires cfg.tie.FirstToReach? ==> score < TWO63 as real
    ensures Decode(cfg, Encode(cfg, score, t).value) == score
  {
    if cfg.tie.FirstToReach? {
      DecodeEncode(cfg, score, t);
    }
  }

  lemma OnlyBest(asc: bool, v: Option<real>, x: real)
    ensures IsBest(asc, v, {x}) <==> v == Some(x)
  {
    assert {x} != {};
  }
}
