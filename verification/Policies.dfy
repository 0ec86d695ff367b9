/** What a sequence of submits leaves in one cell, by update policy
    (pkg/engine/redis_engine.go:66-82), and the firstToReach order of a board. */
module Policies {
  import opened Basics
  import opened Boards
  import opened Codec
  import opened Keys
  import opened Ordering
  import opened Ranking
  import opened Store

  /** A good submit to cell c. */
  predicate Hits(op: SubmitOp, c: Cell) { CellOf(op) == c && CheckOp(op).Ok? }

  function ValueOf(op: SubmitOp): real
    requires CheckOp(op).Ok?
  {
    CheckOp(op).value
  }

  /** The stored values submitted to a cell. */
  function Values(ops: seq<SubmitOp>, c: Cell): set<real> {
    set i | 0 <= i < |ops| && Hits(ops[i], c) :: ValueOf(ops[i])
  }

  predicate Better(asc: bool, a: real, b: real) { if asc then a < b else a > b }

  /** v is the best of a set of values. */
  ghost predicate IsBest(asc: bool, v: Option<real>, vals: set<real>) {
    if vals == {} then v == None
    else v.Some? && v.value in vals && forall x :: x in vals ==> !Better(asc, x, v.value)
  }

  lemma IsBestUnique(asc: bool, v: Option<real>, w: Option<real>, vals: set<real>)
    requires IsBest(asc, v, vals) && IsBest(asc, w, vals)
    ensures v == w
  {
    if vals != {} {
      assert !Better(asc, v.value, w.value) && !Better(asc, w.value, v.value);
    }
  }

  /** All good submits to c carry the same config. */
  ghost predicate Uniform(ops: seq<SubmitOp>, c: Cell, cfg: Config) {
    forall i :: 0 <= i < |ops| && Hits(ops[i], c) ==> ops[i].cfg == cfg
  }

  lemma ValuesSnoc(ops: seq<SubmitOp>, c: Cell)
    requires ops != []
    ensures Values(ops, c)
            == Values(ops[..|ops| - 1], c) + (if Hits(Last(ops), c) then {ValueOf(Last(ops))} else {})
  {
    hide CheckOp, CellOf;
    var front := ops[..|ops| - 1];
    assert forall i :: 0 <= i < |front| ==> front[i] == ops[i];
  }

  /** A best board keeps the best value ever submitted. */
  lemma {:induction false} BestFold(ops: seq<SubmitOp>, c: Cell, cfg: Config)
    requires WithDefaults(cfg).policy.Best? && Uniform(ops, c, cfg)
    ensures IsBest(IsAsc(cfg), CellOps(ops, c, None), Values(ops, c))
  {
    hide CheckOp, CellOf, Values;
    if ops == [] {
      NoValues(c);
    } else {
      var front := ops[..|ops| - 1];
      assert forall i :: 0 <= i < |front| ==> front[i] == ops[i];
      BestFold(front, c, cfg);
      ValuesSnoc(ops, c);
    }
  }

  lemma NoValues(c: Cell)
    ensures Values([], c) == {}
  {
  }

  /** So neither order nor repetition matters there. */
  lemma BestOrderFree(a: seq<SubmitOp>, b: seq<SubmitOp>, c: Cell, cfg: Config)
    requires WithDefaults(cfg).policy.Best? && Uniform(a, c, cfg) && Uniform(b, c, cfg)
    requires Values(a, c) == Values(b, c)
    ensures CellOps(a, c, None) == CellOps(b, c, None)
  {
    BestFold(a, c, cfg);
    BestFold(b, c, cfg);
    IsBestUnique(IsAsc(cfg), CellOps(a, c, None), CellOps(b, c, None), Values(a, c));
  }

  /** The sum of the scores submitted to a cell. */
  function ScoreSum(ops: seq<SubmitOp>, c: Cell): real {
    if ops == [] then 0.0
    else ScoreSum(ops[..|ops| - 1], c) + (if Hits(Last(ops), c) then Last(ops).score else 0.0)
  }

  /** An increment board holds that sum. */
  lemma {:induction false} IncrementFold(ops: seq<SubmitOp>, c: Cell, cfg: Config)
    requires WithDefaults(cfg).policy.Increment? && Uniform(ops, c, cfg)
    ensures CellOps(ops, c, None) == if Values(ops, c) == {} then None else Some(ScoreSum(ops, c))
    ensures Values(ops, c) == {} ==> ScoreSum(ops, c) == 0.0
  {
    hide CheckOp, CellOf, Values;
    if ops == [] {
      NoValues(c);
    } else {
      var front := ops[..|ops| - 1];
      assert forall i :: 0 <= i < |front| ==> front[i] == ops[i];
      IncrementFold(front, c, cfg);
      ValuesSnoc(ops, c);
    }
  }

  /** The value of the last good submit to a cell. */
  function LastValue(ops: seq<SubmitOp>, c: Cell): Option<real> {
    if ops == [] then None
    else if Hits(Last(ops), c) then Some(ValueOf(Last(ops)))
    else LastValue(ops[..|ops| - 1], c)
  }

  /** A last board holds that value. */
  lemma {:induction false} LastFold(ops: seq<SubmitOp>, c: Cell, cfg: Config)
    requires WithDefaults(cfg).policy.LastWins? && Uniform(ops, c, cfg)
    ensures CellOps(ops, c, None) == LastValue(ops, c)
  {
    hide CheckOp, CellOf;
    if ops != [] {
      var front := ops[..|ops| - 1];
      assert forall i :: 0 <= i < |front| ==> front[i] == ops[i];
      LastFold(front, c, cfg);
    }
  }

  /** A cell is absent exactly when nothing was submitted to it. */
  lemma {:induction false} AbsentIff(ops: seq<SubmitOp>, c: Cell)
    ensures CellOps(ops, c, None) == None <==> Values(ops, c) == {}
  {
    hide CheckOp, CellOf, NewValue;
    if ops != [] {
      AbsentIff(ops[..|ops| - 1], c);
      ValuesSnoc(ops, c);
    }
  }

  // ---------------------------------------------------------------- first to reach

  /** Whole seconds since the board's epoch, as the codec counts them. */
  function Reached(op: SubmitOp): int { SinceEpoch(op.time, WithDefaults(op.cfg).epoch) }

  /** On a best board with firstToReach, for every order and repetition of the submits, the cell
      encodes one whose score no other beats and which no equal score precedes in time. */
  lemma FirstToBest(ops: seq<SubmitOp>, c: Cell, cfg: Config) returns (i: nat)
    requires ValidConfig(cfg) && WithDefaults(cfg).policy.Best? && WithDefaults(cfg).tie.FirstToReach?
    requires Uniform(ops, c, cfg) && Values(ops, c) != {}
    requires forall j :: 0 <= j < |ops| && Hits(ops[j], c) ==> ops[j].score < TWO63 as real
    ensures i < |ops| && Hits(ops[i], c)
    ensures CellOps(ops, c, None) == Some(ValueOf(ops[i]))
    ensures Decode(cfg, ValueOf(ops[i])) == ops[i].score
    ensures forall j :: 0 <= j < |ops| && Hits(ops[j], c) ==>
              !Better(IsAsc(cfg), ops[j].score, ops[i].score)
              && (ops[j].score == ops[i].score ==> Reached(ops[i]) <= Reached(ops[j]))
  {
    hide CellOf, CellOps, Encode, Decode, ValidKey, SinceEpoch;
    BestFold(ops, c, cfg);
    var v := CellOps(ops, c, None).value;
    i :| 0 <= i < |ops| && Hits(ops[i], c) && ValueOf(ops[i]) == v;
    DecodeEncode(cfg, ops[i].score, ops[i].time);
    forall j | 0 <= j < |ops| && Hits(ops[j], c)
      ensures !Better(IsAsc(cfg), ops[j].score, ops[i].score)
              && (ops[j].score == ops[i].score ==> Reached(ops[i]) <= Reached(ops[j]))
    {
      assert ValueOf(ops[j]) in Values(ops, c);
      EncodeOrder(cfg, ops[j].score, ops[j].time, ops[i].score, ops[i].time);
    }
  }

  /** The board lists such values by score, then by time reached, then by member id. */
  lemma FirstToReachOrder(cfg: Config, m1: string, s1: real, t1: Instant, m2: string, s2: real, t2: Instant)
    requires ValidConfig(cfg) && WithDefaults(cfg).tie.FirstToReach?
    requires s1 < TWO63 as real && s2 < TWO63 as real
    requires Encode(cfg, s1, t1).Some? && Encode(cfg, s2, t2).Some?
    ensures var asc := IsAsc(cfg);
            var epoch := WithDefaults(cfg).epoch;
            var d1, d2 := SinceEpoch(t1, epoch), SinceEpoch(t2, epoch);
            LessInOrder(asc, Entry(m1, Encode(cfg, s1, t1).value), Entry(m2, Encode(cfg, s2, t2).value))
            <==> || Better(asc, s1, s2)
                 || (s1 == s2 && d1 < d2)
                 || (s1 == s2 && d1 == d2 && if asc then StrLess(m1, m2) else StrLess(m2, m1))
  {
    hide Encode, SinceEpoch;
    EncodeOrder(cfg, s1, t1, s2, t2);
    EncodeOrder(cfg, s2, t2, s1, t1);
  }

  /** Op i is the first to reach the best score submitted to c. */
  ghost predicate FirstBest(ops: seq<SubmitOp>, c: Cell, cfg: Config, i: nat) {
    && i < |ops| && Hits(ops[i], c)
    && forall j :: 0 <= j < |ops| && Hits(ops[j], c) ==>
         !Better(IsAsc(cfg), ops[j].score, ops[i].score)
         && (ops[j].score == ops[i].score ==> Reached(ops[i]) <= Reached(ops[j]))
  }

  /** The op a listed member owes its place to. */
  lemma ListedFirstBest(ops: seq<SubmitOp>, k: BoardKey, cfg: Config, e: Entry) returns (i: nat)
    requires ValidConfig(cfg) && WithDefaults(cfg).policy.Best? && WithDefaults(cfg).tie.FirstToReach?
    requires forall j :: 0 <= j < |ops| && Norm(ops[j].key) == k ==> ops[j].cfg == cfg && ops[j].score < TWO63 as real
    requires e in ZSet(RunOps(EMPTY, ops).z, k)
    ensures i < |ops| && FirstBest(ops, Cell(k, e.member), cfg, i) && ops[i].cfg == cfg && ops[i].score < TWO63 as real
    ensures Encode(cfg, ops[i].score, ops[i].time) == Some(e.stored)
  {
    hide Encode, CellOps, RunOps, ValidConfig, SinceEpoch, Values;
    var c := Cell(k, e.member);
    RunOpsCell(EMPTY, ops, c);
    AbsentIff(ops, c);
    i := FirstToBest(ops, c, cfg);
  }

  /** After any batches a best board with firstToReach lists its members by best score, then by the
      time it was first reached, then by member id. */
  lemma FirstToReachListing(ops: seq<SubmitOp>, k: BoardKey, cfg: Config, i: nat, j: nat) returns (p: nat, q: nat)
    requires ValidConfig(cfg) && WithDefaults(cfg).policy.Best? && WithDefaults(cfg).tie.FirstToReach?
    requires forall x :: 0 <= x < |ops| && Norm(ops[x].key) == k ==> ops[x].cfg == cfg && ops[x].score < TWO63 as real
    requires i < j < |Listing(IsAsc(cfg), ZSet(RunOps(EMPTY, ops).z, k))|
    ensures var l := Listing(IsAsc(cfg), ZSet(RunOps(EMPTY, ops).z, k));
            && FirstBest(ops, Cell(k, l[i].member), cfg, p) && FirstBest(ops, Cell(k, l[j].member), cfg, q)
            && var a, b := ops[p], ops[q];
               || Better(IsAsc(cfg), a.score, b.score)
               || (a.score == b.score && Reached(a) < Reached(b))
               || (a.score == b.score && Reached(a) == Reached(b)
                   && if IsAsc(cfg) then StrLess(l[i].member, l[j].member) else StrLess(l[j].member, l[i].member))
  {
    hide Encode, RunOps, ValidConfig, SinceEpoch, FirstBest, ZSet, LessInOrder;
    var asc, s := IsAsc(cfg), ZSet(RunOps(EMPTY, ops).z, k);
    var l := Listing(asc, s);
    assert l[i] in Elements(l) && l[j] in Elements(l);
    p := ListedFirstBest(ops, k, cfg, l[i]);
    q := ListedFirstBest(ops, k, cfg, l[j]);
    ListedInOrder(asc, s, i, j);
    FirstToReachOrder(cfg, l[i].member, ops[p].score, ops[p].time, l[j].member, ops[q].score, ops[q].time);
  }

  lemma ListedInOrder(asc: bool, s: set<Entry>, i: nat, j: nat)
    requires i < j < |Listing(asc, s)|
    ensures LessInOrder(asc, Listing(asc, s)[i], Listing(asc, s)[j])
  {
    hide LessInOrder;
    RankOrderTotal(asc);
  }
}
