/** When the cache and the log agree after moderation. The comment at pkg/api/moderation.go:16-19 says a
    wiped submit is restored by the member's next submit; this is exactly when that holds. */
module Repair {
  import opened Basics
  import opened Boards
  import opened Codec
  import opened Consumers
  import opened Ingest
  import opened Keys
  import opened Moderation
  import opened Policies
  import opened Store

  predicate NoOwnTombstone(recs: seq<Record>, o: Owner) {
    forall i :: 0 <= i < |recs| ==> !(recs[i].tombstone && OwnerOf(recs[i]) == o)
  }

  /** j is where the owner's records start to count: after its last tombstone, or at the beginning. */
  ghost predicate CountsFromHere(s: seq<Record>, o: Owner, j: nat) {
    && j <= |s| && NoOwnTombstone(s[j..], o)
    && (j > 0 ==> s[j - 1].tombstone && OwnerOf(s[j - 1]) == o)
  }

  /** The position after the owner's last tombstone. */
  function CountFrom(s: seq<Record>, o: Owner): nat {
    if s == [] then 0
    else if Last(s).tombstone && OwnerOf(Last(s)) == o then |s|
    else CountFrom(s[..|s| - 1], o)
  }

  lemma {:induction false} CountFromHere(s: seq<Record>, o: Owner)
    ensures CountsFromHere(s, o, CountFrom(s, o))
  {
    if s != [] && !(Last(s).tombstone && OwnerOf(Last(s)) == o) {
      var front := s[..|s| - 1];
      CountFromHere(front, o);
      var j := CountFrom(front, o);
      assert s[j..] == front[j..] + [Last(s)];
    }
  }

  // ---------------------------------------------------------------- records as submits

  lemma {:induction false} CellOpsConcat(a: seq<SubmitOp>, b: seq<SubmitOp>, c: Cell, v: Option<real>)
    ensures CellOps(a + b, c, v) == CellOps(b, c, CellOps(a, c, v))
  {
    hide CellOp;
    if b == [] {
      assert a + b == a;
    } else {
      assert (a + b)[..|a + b| - 1] == a + b[..|b| - 1];
      CellOpsConcat(a, b[..|b| - 1], c, v);
    }
  }

  /** Without a tombstone of its owner, a cell's replay is the fold of the submits. */
  lemma {:induction false} SubmitsFold(reg: Registry, recs: seq<Record>, c: Cell, v: Option<real>)
    requires ValidRegistry(reg) && ValidKey(c.key) && NoOwnTombstone(recs, CellOwner(c))
    ensures CellReplay(reg, recs, c, v) == CellOps(PendingOps(reg, recs), c, v)
  {
    hide OpsOf, ValidKey, ValidRegistry, Glob, ScanPattern, ZKey;
    if recs != [] {
      hide CellOps;
      var front, last := recs[..|recs| - 1], Last(recs);
      SubmitsFold(reg, front, c, v);
      if Resolve(reg, last).Some? {
        if last.tombstone {
          ForeignRecord(reg, last, c, CellReplay(reg, front, c, v));
        } else {
          CellOpsConcat(PendingOps(reg, front), OpsOf(Resolve(reg, last).value, last), c, v);
        }
      }
    }
  }

  /** The submits one record stands for. */
  function OpsFrom(reg: Registry, rec: Record): seq<SubmitOp> {
    match Resolve(reg, rec)
    case None => []
    case Some(lb) => if rec.tombstone then [] else OpsOf(lb, rec)
  }

  lemma PendingOne(reg: Registry, recs: seq<Record>, rec: Record)
    ensures PendingOps(reg, recs + [rec]) == PendingOps(reg, recs) + OpsFrom(reg, rec)
  {
    hide OpsOf;
    assert (recs + [rec])[..|recs|] == recs;
  }

  lemma {:induction false} PendingConcat(reg: Registry, a: seq<Record>, b: seq<Record>)
    ensures PendingOps(reg, a + b) == PendingOps(reg, a) + PendingOps(reg, b)
  {
    if b == [] {
      assert a + b == a;
    } else {
      hide PendingOps, OpsFrom;
      var front, last := b[..|b| - 1], Last(b);
      assert b == front + [last];
      Associates(a, front, [last]);
      PendingConcat(reg, a, front);
      PendingOne(reg, a + front, last);
      PendingOne(reg, front, last);
      Associates(PendingOps(reg, a), PendingOps(reg, front), OpsFrom(reg, last));
    }
  }

  lemma {:induction false} PendingUniform(reg: Registry, recs: seq<Record>, c: Cell)
    requires ValidRegistry(reg) && (c.key.app, c.key.board) in reg
    ensures Uniform(PendingOps(reg, recs), c, reg[(c.key.app, c.key.board)].cfg)
  {
    hide OpsOf, CheckOp, ColonFree;
    if recs != [] {
      PendingUniform(reg, recs[..|recs| - 1], c);
      if Resolve(reg, Last(recs)).Some? {
        var lb := Resolve(reg, Last(recs)).value;
        forall i | 0 <= i < |OpsOf(lb, Last(recs))| {
          OpsOfMember(lb, Last(recs), i);
        }
      }
    }
  }

  // ---------------------------------------------------------------- cache and log

  lemma LogCell(sys: Moderation.Sys, st: Moderation.State, c: Cell)
    requires ValidRegistry(sys.reg) && ValidKey(c.key)
    ensures Lookup(Replay(sys.reg, EMPTY, st.log).z, c)
            == CellReplay(sys.reg, Stream(sys, st, sys.part(CellOwner(c))), c, None)
  {
    hide ValidRegistry, ValidKey, CellReplay, Replay, Project, Select;
    var o := CellOwner(c);
    ReplayCell(sys.reg, EMPTY, st.log, c);
    CellReplaySelect(sys.reg, st.log, c, None);
    CellReplaySelect(sys.reg, Project(st.log, sys.part, sys.part(o)), c, None);
    SelectOfProject(st.log, sys.part, o);
  }

  /** Only the submits after the last tombstone count. */
  lemma FromTombstone(reg: Registry, s: seq<Record>, c: Cell, from: nat, j: nat)
    requires ValidRegistry(reg) && ValidKey(c.key) && (c.key.app, c.key.board) in reg
    requires from <= j && CountsFromHere(s, CellOwner(c), j) && (j > 0 ==> from < j)
    ensures CellReplay(reg, s[from..], c, None) == CellOps(PendingOps(reg, s[j..]), c, None)
  {
    hide ValidRegistry, ValidKey, CellReplay, CellRecord, PendingOps, CellOps;
    SubmitsFold(reg, s[j..], c, None);
    if j > 0 {
      var t, front := s[j - 1], s[from..j - 1];
      assert s[from..] == front + [t] + s[j..];
      CellReplayConcat(reg, front + [t], s[j..], c, None);
      CellReplayConcat(reg, front, [t], c, None);
      SingleReplay(reg, t, c, CellReplay(reg, front, c, None));
      TombstoneClears(reg, t, c, CellReplay(reg, front, c, None));
    }
  }

  lemma TailCounts(s: seq<Record>, o: Owner, j: nat, w: nat)
    requires CountsFromHere(s, o, j) && j <= w <= |s|
    ensures NoOwnTombstone(s[w..], o)
  {
    assert forall i :: 0 <= i < |s[w..]| ==> s[w..][i] == s[j..][w - j + i];
  }

  /** On a caught-up consumer the cache holds the submits since the last wipe or tombstone, the log
      those since the last tombstone. */
  lemma CacheAndLog(sys: Moderation.Sys, steps: seq<Moderation.Step>, c: Cell, j: nat)
    requires ValidRegistry(sys.reg) && ValidKey(c.key) && (c.key.app, c.key.board) in sys.reg
    requires Run(sys, steps).Some?
    requires var st := Run(sys, steps).value;
             var p := sys.part(CellOwner(c));
             Next(st, p) == |Stream(sys, st, p)| && CountsFromHere(Stream(sys, st, p), CellOwner(c), j)
    ensures var st := Run(sys, steps).value;
            var s, w := Stream(sys, st, sys.part(CellOwner(c))), WipedAt(st, c);
            && w <= |s|
            && Lookup(Replay(sys.reg, EMPTY, st.log).z, c) == CellOps(PendingOps(sys.reg, s[j..]), c, None)
            && Lookup(st.db.z, c) == CellOps(PendingOps(sys.reg, s[if w < j then j else w..]), c, None)
  {
    hide Run, ValidRegistry, ValidKey, CellReplay, PendingOps, CellOps, Replay, Project, CountsFromHere, NoOwnTombstone;
    var st := Run(sys, steps).value;
    var o := CellOwner(c);
    var s, w := Stream(sys, st, sys.part(o)), WipedAt(st, c);
    CachedIsFold(sys, steps, c);
    LogCell(sys, st, c);
    FromTombstone(sys.reg, s, c, 0, j);
    assert s[0..] == s && s[w..|s|] == s[w..];
    if w < j {
      FromTombstone(sys.reg, s, c, w, j);
    } else {
      TailCounts(s, o, j, w);
      SubmitsFold(sys.reg, s[w..], c, None);
    }
  }

  /** The wiped submits `a` make no difference to what came after them, `b`. */
  ghost predicate Harmless(cfg: Config, a: seq<SubmitOp>, b: seq<SubmitOp>, c: Cell) {
    if Values(b, c) == {} then Values(a, c) == {}
    else
      match WithDefaults(cfg).policy
      case Increment => ScoreSum(a, c) == 0.0
      case LastWins => true
      case _ => forall x, y :: x in Values(a, c) && IsBest(IsAsc(cfg), Some(y), Values(b, c)) ==> !Better(IsAsc(cfg), x, y)
  }

  lemma KnownPolicy(cfg: Config, b: seq<SubmitOp>, c: Cell)
    requires Uniform(b, c, cfg) && Values(b, c) != {}
    ensures var p := WithDefaults(cfg).policy;
            p.Best? || p.LastWins? || p.Increment?
  {
    hide Encode, ValidKey;
    var i :| 0 <= i < |b| && Hits(b[i], c);
  }

  lemma HarmlessIff(cfg: Config, a: seq<SubmitOp>, b: seq<SubmitOp>, c: Cell)
    requires Uniform(a, c, cfg) && Uniform(b, c, cfg)
    ensures CellOps(b, c, None) == CellOps(a + b, c, None) <==> Harmless(cfg, a, b, c)
  {
    hide Hits, CellOps, Values, ScoreSum, Uniform;
    if Values(b, c) == {} {
      ValuesConcat(a, b, c);
      AbsentIff(b, c);
      AbsentIff(a + b, c);
    } else {
      KnownPolicy(cfg, b, c);
      match WithDefaults(cfg).policy
      case Increment => IncrementRepairedIff(a, b, c, cfg);
      case LastWins => LastRepaired(a, b, c, cfg);
      case _ => BestRepairedIff(a, b, c, cfg);
    }
  }

  /** In every run of appends, in-order consumption and synchronous removals, once the consumer has
      caught up: a member's cached score is the log's exactly when a later tombstone came through, or
      the submits wiped by the last removal make no difference to those after it. */
  lemma CacheAgreesIff(sys: Moderation.Sys, steps: seq<Moderation.Step>, c: Cell)
    requires ValidRegistry(sys.reg) && ValidKey(c.key) && (c.key.app, c.key.board) in sys.reg
    requires Run(sys, steps).Some?
    requires var st := Run(sys, steps).value;
             var p := sys.part(CellOwner(c));
             Next(st, p) == |Stream(sys, st, p)|
    ensures var st, o := Run(sys, steps).value, CellOwner(c);
            var s, w := Stream(sys, st, sys.part(o)), WipedAt(st, c);
            var j := CountFrom(s, o);
            && j <= |s| && w <= |s|
            && (Lookup(st.db.z, c) == Lookup(Replay(sys.reg, EMPTY, st.log).z, c)
                <==> w < j || Harmless(sys.reg[(c.key.app, c.key.board)].cfg,
                                       PendingOps(sys.reg, s[j..w]), PendingOps(sys.reg, s[w..]), c))
  {
    hide Run, ValidRegistry, ValidKey, PendingOps, CellOps, Replay, Project, Harmless, CountFrom;
    var st, o := Run(sys, steps).value, CellOwner(c);
    var s, w := Stream(sys, st, sys.part(o)), WipedAt(st, c);
    var j := CountFrom(s, o);
    CountFromHere(s, o);
    CacheAndLog(sys, steps, c, j);
    if j <= w {
      assert s[j..] == s[j..w] + s[w..];
      PendingConcat(sys.reg, s[j..w], s[w..]);
      PendingUniform(sys.reg, s[j..w], c);
      PendingUniform(sys.reg, s[w..], c);
      HarmlessIff(sys.reg[(c.key.app, c.key.board)].cfg, PendingOps(sys.reg, s[j..w]), PendingOps(sys.reg, s[w..]), c);
    }
  }
}
