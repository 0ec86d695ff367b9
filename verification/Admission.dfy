/** What the engine accepts (pkg/engine/board.go:80-173, pkg/engine/redis_engine.go:97-113), said of keys,
    configs and scores as a caller writes them. */
module Admission {
  import opened Basics
  import opened Boards
  import opened Calendar
  import opened Codec
  import opened Engine
  import opened FanOut
  import opened Ingest
  import opened Keys
  import opened Store
  import opened Windows
  import Readback

  /** Text a key component can carry. */
  predicate Plain(s: string) {
    s != "" && forall i :: 0 <= i < |s| ==>
      s[i] != ':' && s[i] != '{' && s[i] != '}' && s[i] != ' ' && s[i] != '\t' && s[i] != '\n' && s[i] != '\r'
  }

  /** App and board must be given; segment and window may be left empty. */
  predicate PlainKey(k: BoardKey) {
    Plain(k.app) && Plain(k.board) && (k.segment == "" || Plain(k.segment)) && (k.window == "" || Plain(k.window))
  }

  predicate SoundConfig(c: Config) {
    && !c.order.SortOther? && !c.policy.PolicyOther? && !c.tie.TieOther?
    && !(c.policy.Increment? && c.tie.FirstToReach?)
    && (c.tie.FirstToReach? ==> c.scoreBits <= 52)
    && (c.approx ==> c.approxMax > c.approxMin && c.approxBuckets >= 0)
  }

  lemma PlainIff(s: string)
    ensures Plain(s) <==> !InvalidComponent(s)
  {
    StructuralIs();
    hide STRUCTURAL;
  }

  lemma StructuralIs()
    ensures forall c :: c in STRUCTURAL <==> c == ':' || c == '{' || c == '}' || c == '\t' || c == '\n' || c == '\r' || c == ' '
  {
  }

  lemma KeyAccepted(k: BoardKey)
    ensures ValidKey(k) <==> PlainKey(k)
  {
    hide InvalidComponent, Plain;
    PlainIff(k.app);
    PlainIff(k.board);
    PlainIff(k.segment);
    PlainIff(k.window);
    AllIsPlain();
  }

  lemma AllIsPlain()
    ensures Plain("all") && !InvalidComponent("all") && !Plain("")
  {
    PlainIff("all");
  }

  /** Two keys are the same board exactly when they differ in nothing but "" for "all". */
  lemma SameBoard(k: BoardKey, l: BoardKey)
    ensures Norm(k) == Norm(l)
            <==> && k.app == l.app && k.board == l.board
                 && (k.segment == l.segment || {k.segment, l.segment} == {"", "all"})
                 && (k.window == l.window || {k.window, l.window} == {"", "all"})
  {
    SameName(k.segment, l.segment);
    SameName(k.window, l.window);
  }

  lemma SameName(s: string, t: string)
    ensures OrAll(s) == OrAll(t) <==> s == t || {s, t} == {"", "all"}
  {
    if s != t && OrAll(s) == OrAll(t) {
      assert s == "" || t == "";
    }
    if {s, t} == {"", "all"} {
      assert s in {"", "all"} && t in {"", "all"} && "" in {s, t} && "all" in {s, t};
    }
  }

  lemma ConfigAccepted(c: Config)
    ensures ValidConfig(c) <==> SoundConfig(c)
  {
  }

  /** Unset fields: descending, best, lexical, 20 score bits, the first of January 2020 as epoch, 1024
      buckets; what is set stays, and filling in twice changes nothing. */
  lemma UnsetFields(c: Config)
    ensures var d := WithDefaults(c);
            && (if c.order.SortUnset? then d.order.Desc? else d.order == c.order)
            && (if c.policy.PolicyUnset? then d.policy.Best? else d.policy == c.policy)
            && (if c.tie.TieUnset? then d.tie.Lexical? else d.tie == c.tie)
            && d.scoreBits == (if c.scoreBits == 0 then 20 else c.scoreBits)
            && ValidDate(Date(2020, 1, 1))
            && d.epoch == (if c.epoch == 0 then Midnight(DayNumber(Date(2020, 1, 1))) else c.epoch)
            && d.approx == c.approx && d.approxMin == c.approxMin && d.approxMax == c.approxMax
            && (c.approx ==> d.approxBuckets == if c.approxBuckets == 0 then 1024 else c.approxBuckets)
            && WithDefaults(d) == d
  {
    assert DayNumber(Date(2020, 1, 1)) == 737424;
  }

  /** A submit is refused for its key first, then for its config, then for its score; an accepted one
      stores the score itself, or on a firstToReach board the encoding of score and time. */
  lemma OpAccepted(op: SubmitOp)
    ensures (CheckOp(op) == Err(InvalidBoardKey)) <==> !PlainKey(op.key)
    ensures (CheckOp(op) == Err(InvalidConfig)) <==> PlainKey(op.key) && !SoundConfig(op.cfg)
    ensures PlainKey(op.key) && SoundConfig(op.cfg) ==>
              if op.cfg.tie.FirstToReach? then
                ValidConfig(op.cfg)
                && CheckOp(op) == match Encode(op.cfg, op.score, op.time)
                                  case None => Err(ScoreNotEncodable)
                                  case Some(v) => Ok(v)
              else CheckOp(op) == Ok(op.score)
    ensures !op.cfg.tie.FirstToReach? ==> Decode(op.cfg, op.score) == op.score
  {
    hide ValidKey, PlainKey;
    KeyAccepted(op.key);
    ConfigAccepted(op.cfg);
  }

  /** A read is refused for its key first, then for its config. */
  lemma BoardAccepted(b: Board)
    ensures CheckBoard(b)
            == if !PlainKey(b.key) then Some(InvalidBoardKey) else if !SoundConfig(b.cfg) then Some(InvalidConfig) else None
  {
    hide ValidKey, PlainKey, ValidConfig, SoundConfig;
    KeyAccepted(b.key);
    ConfigAccepted(b.cfg);
  }

  /** The batch fails with the error of its first bad op. */
  lemma {:induction false} FirstErrorIs(ops: seq<SubmitOp>, i: nat)
    requires i < |ops| && CheckOp(ops[i]).Err? && forall j :: 0 <= j < i ==> CheckOp(ops[j]).Ok?
    ensures FirstError(ops) == Some(CheckOp(ops[i]).error)
  {
    hide CheckOp;
    if i > 0 {
      assert CheckOp(ops[0]).Ok?;
      FirstErrorIs(ops[1..], i - 1);
    }
  }

  // ---------------------------------------------------------------- records

  /** A record is accepted: its board has a sound config, every name it is fanned out under is plain, and the
      score can be encoded. */
  ghost predicate Acceptable(lb: LogicalBoard, rec: Record) {
    && SoundConfig(lb.cfg) && Plain(lb.app) && Plain(lb.board)
    && (forall i :: 0 <= i < |lb.windows| ==> WindowID(lb.windows[i], rec.time) == "" || Plain(WindowID(lb.windows[i], rec.time)))
    && (forall j :: 0 <= j < |rec.segments| ==> rec.segments[j] == "" || Plain(rec.segments[j]))
    && (ValidConfig(lb.cfg) ==> Encode(lb.cfg, rec.score, rec.time).Some?)
  }

  lemma {:induction false} CopiesMember(keys: seq<BoardKey>, k: BoardKey)
    ensures Copies(keys, k) > 0 <==> exists i :: 0 <= i < |keys| && Norm(keys[i]) == k
  {
    hide Norm;
    if keys != [] {
      var front := keys[..|keys| - 1];
      CopiesMember(front, k);
      assert forall i :: 0 <= i < |front| ==> front[i] == keys[i];
      if i :| 0 <= i < |keys| && Norm(keys[i]) == k && i < |front| {
        assert front[i] == keys[i];
      }
      if i :| 0 <= i < |front| && Norm(front[i]) == k {
        assert keys[i] == front[i];
      }
    }
  }

  /** The keys a record is fanned out to are those of its window and segment names. */
  lemma FannedOut(lb: LogicalBoard, rec: Record, k: BoardKey)
    ensures (exists i :: 0 <= i < |Derive(lb, rec.segments, rec.time)| && Norm(Derive(lb, rec.segments, rec.time)[i]) == k)
            <==> && k.app == lb.app && k.board == lb.board
                 && k.window in WindowNames(WindowsOf(lb), rec.time) && k.segment in SegmentNames(SegmentsIn(rec))
  {
    hide KeysFor, Norm, WindowNames, SegmentNames, Copies, Product;
    var ws, ss := WindowNames(WindowsOf(lb), rec.time), SegmentNames(SegmentsIn(rec));
    CopiesMember(Derive(lb, rec.segments, rec.time), k);
    CopiesFor(lb, WindowsOf(lb), SegmentsIn(rec), rec.time, k);
    Readback.Positive(multiset(ws)[k.window], multiset(ss)[k.segment]);
    assert k.window in multiset(ws) <==> k.window in ws;
    assert k.segment in multiset(ss) <==> k.segment in ss;
  }

  lemma NamedKeys(lb: LogicalBoard, rec: Record)
    ensures var keys := Derive(lb, rec.segments, rec.time);
            keys != []
            && ((forall i :: 0 <= i < |keys| ==> ValidKey(keys[i]))
                <==> forall w, s | w in WindowNames(WindowsOf(lb), rec.time) && s in SegmentNames(SegmentsIn(rec)) ::
                       ValidKey(FanOut.KeyOf(lb, w, s)))
  {
    hide Derive, WindowNames, SegmentNames, ValidKey;
    var keys := Derive(lb, rec.segments, rec.time);
    var ws, ss := WindowNames(WindowsOf(lb), rec.time), SegmentNames(SegmentsIn(rec));
    forall w, s | w in ws && s in ss
      ensures exists i :: 0 <= i < |keys| && Norm(keys[i]) == FanOut.KeyOf(lb, w, s)
    {
      FannedOut(lb, rec, FanOut.KeyOf(lb, w, s));
    }
    forall i | 0 <= i < |keys|
      ensures exists w, s :: w in ws && s in ss && Norm(keys[i]) == FanOut.KeyOf(lb, w, s)
      ensures ValidKey(Norm(keys[i])) <==> ValidKey(keys[i])
    {
      var k := Norm(keys[i]);
      FannedOut(lb, rec, k);
      assert k == FanOut.KeyOf(lb, k.window, k.segment);
      Readback.ValidWhenNormIs(keys[i]);
    }
    NamesExist(lb, rec);
    assert ws[0] in ws && ss[0] in ss;
  }

  /** A name that is filled in when empty is plain when it is empty or plain. */
  lemma PlainName(s: string)
    ensures Plain(OrAll(s)) <==> s == "" || Plain(s)
  {
    AllIsPlain();
  }

  lemma NamesPlain(lb: LogicalBoard, rec: Record)
    ensures (forall w :: w in WindowNames(WindowsOf(lb), rec.time) ==> Plain(w))
            <==> forall i :: 0 <= i < |lb.windows| ==> WindowID(lb.windows[i], rec.time) == "" || Plain(WindowID(lb.windows[i], rec.time))
    ensures (forall s :: s in SegmentNames(SegmentsIn(rec)) ==> Plain(s))
            <==> forall j :: 0 <= j < |rec.segments| ==> rec.segments[j] == "" || Plain(rec.segments[j])
  {
    hide WindowNames, SegmentNames, WindowID, OrAll, Plain;
    AllIsPlain();
    var ws, ss := WindowNames(WindowsOf(lb), rec.time), SegmentNames(SegmentsIn(rec));
    forall w: string
      ensures w in ws <==> if lb.windows == [] then w == "all"
                           else exists i :: 0 <= i < |lb.windows| && OrAll(WindowID(lb.windows[i], rec.time)) == w
    {
      Readback.WindowNamesIff(lb, rec.time, w);
      assert w in multiset(ws) <==> w in ws;
    }
    forall s: string
      ensures s in ss <==> if rec.segments == [] then s == "all"
                           else exists j :: 0 <= j < |rec.segments| && OrAll(rec.segments[j]) == s
    {
      Readback.SegmentNamesIff(rec, s);
      assert s in multiset(ss) <==> s in ss;
    }
    forall i | 0 <= i < |lb.windows|
      ensures Plain(OrAll(WindowID(lb.windows[i], rec.time))) <==> WindowID(lb.windows[i], rec.time) == "" || Plain(WindowID(lb.windows[i], rec.time))
      ensures OrAll(WindowID(lb.windows[i], rec.time)) in ws
    {
      PlainName(WindowID(lb.windows[i], rec.time));
    }
    forall j | 0 <= j < |rec.segments|
      ensures Plain(OrAll(rec.segments[j])) <==> rec.segments[j] == "" || Plain(rec.segments[j])
      ensures OrAll(rec.segments[j]) in ss
    {
      PlainName(rec.segments[j]);
    }
  }

  /** A record fails the consumer's batch exactly when its board is registered, it is no tombstone and it is not
      acceptable. */
  lemma RecordAccepted(reg: Registry, rec: Record)
    ensures RecordOk(reg, rec)
            <==> (rec.app, rec.board) !in reg || rec.tombstone || Acceptable(reg[(rec.app, rec.board)], rec)
  {
    hide Plain, PlainKey, ValidKey, ValidConfig, SoundConfig, Encode, WindowID, Derive, WindowNames, SegmentNames;
    if (rec.app, rec.board) in reg {
      var lb := reg[(rec.app, rec.board)];
      var keys, ops := Derive(lb, rec.segments, rec.time), OpsOf(lb, rec);
      ConfigAccepted(lb.cfg);
      NamedKeys(lb, rec);
      assert forall i :: 0 <= i < |ops| ==> ops[i] == SubmitOp(keys[i], lb.cfg, rec.member, rec.score, rec.time);
      assert AllOk(ops) <==> (forall i :: 0 <= i < |keys| ==> ValidKey(keys[i]))
                             && ValidConfig(lb.cfg) && Encode(lb.cfg, rec.score, rec.time).Some? by {
        OpsGood(lb, rec, keys, ops);
      }
      KeysPlain(lb, rec);
    }
  }

  lemma OpsGood(lb: LogicalBoard, rec: Record, keys: seq<BoardKey>, ops: seq<SubmitOp>)
    requires |ops| == |keys| && keys != []
    requires forall i :: 0 <= i < |ops| ==> ops[i] == SubmitOp(keys[i], lb.cfg, rec.member, rec.score, rec.time)
    ensures AllOk(ops) <==> (forall i :: 0 <= i < |keys| ==> ValidKey(keys[i]))
                            && ValidConfig(lb.cfg) && Encode(lb.cfg, rec.score, rec.time).Some?
  {
    hide ValidKey, ValidConfig, Encode;
    if AllOk(ops) {
      assert CheckOp(ops[0]).Ok?;
      forall i | 0 <= i < |keys|
        ensures ValidKey(keys[i])
      {
        assert CheckOp(ops[i]).Ok?;
      }
    }
  }

  lemma KeysPlain(lb: LogicalBoard, rec: Record)
    ensures (forall w, s | w in WindowNames(WindowsOf(lb), rec.time) && s in SegmentNames(SegmentsIn(rec)) ::
               ValidKey(FanOut.KeyOf(lb, w, s)))
            <==> && Plain(lb.app) && Plain(lb.board)
                 && (forall i :: 0 <= i < |lb.windows| ==> WindowID(lb.windows[i], rec.time) == "" || Plain(WindowID(lb.windows[i], rec.time)))
                 && (forall j :: 0 <= j < |rec.segments| ==> rec.segments[j] == "" || Plain(rec.segments[j]))
  {
    hide Plain, ValidKey, WindowID, WindowNames, SegmentNames, WindowsOf, SegmentsIn;
    var ws, ss := WindowNames(WindowsOf(lb), rec.time), SegmentNames(SegmentsIn(rec));
    NamesPlain(lb, rec);
    NamesExist(lb, rec);
    var w0, s0 := ws[0], ss[0];
    assert w0 in ws && s0 in ss;
    forall w, s | w in ws && s in ss
      ensures ValidKey(FanOut.KeyOf(lb, w, s)) <==> Plain(lb.app) && Plain(lb.board) && Plain(s) && Plain(w)
    {
      KeyAccepted(FanOut.KeyOf(lb, w, s));
      NamesFilled(lb, rec, w, s);
    }
  }

  lemma NamesFilled(lb: LogicalBoard, rec: Record, w: string, s: string)
    requires w in WindowNames(WindowsOf(lb), rec.time) && s in SegmentNames(SegmentsIn(rec))
    ensures w != "" && s != ""
  {
    hide WindowID;
  }
}
