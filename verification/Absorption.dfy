/** On best and last boards an action applied again makes no difference to a pass that still has it ahead
    (pkg/engine/redis_engine.go:66-82): what makes redelivery harmless there. */
module Absorption {
  import opened Basics
  import opened Groups
  import opened Ingest
  import opened Outcomes
  import opened Reordering
  import opened Store

  ghost predicate Absorbing(reg: Registry, c: Cell) { OnBestBoard(reg, c) || OnLastBoard(reg, c) }

  lemma {:induction false} FoldConcat(reg: Registry, a: seq<Tick>, b: seq<Tick>, c: Cell, v: Option<real>)
    ensures FoldTicks(reg, a + b, c, v) == FoldTicks(reg, b, c, FoldTicks(reg, a, c, v))
  {
    hide FoldTick;
    if b == [] {
      assert a + b == a;
    } else {
      assert (a + b)[..|a + b| - 1] == a + b[..|b| - 1];
      FoldConcat(reg, a, b[..|b| - 1], c, v);
    }
  }

  lemma FoldHead(reg: Registry, ts: seq<Tick>, c: Cell, v: Option<real>)
    requires ts != []
    ensures FoldTicks(reg, ts, c, v) == FoldTicks(reg, ts[1..], c, FoldTick(reg, ts[0], c, v))
  {
    hide FoldTick;
    assert ts == [ts[0]] + ts[1..];
    FoldConcat(reg, [ts[0]], ts[1..], c, v);
    assert [ts[0]][..0] == [];
  }

  lemma BestCommutes(reg: Registry, s: Tick, t: Tick, c: Cell, v: Option<real>)
    requires ValidRegistry(reg) && OnBestBoard(reg, c) && Submits(reg, s, c) && Submits(reg, t, c)
    ensures FoldTick(reg, s, c, FoldTick(reg, t, c, v)) == FoldTick(reg, t, c, FoldTick(reg, s, c, v))
  {
    hide FoldTick, ValidRegistry, OnBestBoard, Submits, BoardAsc;
    BestTick(reg, t, c, v);
    BestTick(reg, s, c, v);
    BestTick(reg, s, c, FoldTick(reg, t, c, v));
    BestTick(reg, t, c, FoldTick(reg, s, c, v));
  }

  lemma BestTwice(reg: Registry, t: Tick, c: Cell, v: Option<real>)
    requires ValidRegistry(reg) && OnBestBoard(reg, c) && Submits(reg, t, c)
    ensures FoldTick(reg, t, c, FoldTick(reg, t, c, v)) == FoldTick(reg, t, c, v)
  {
    hide FoldTick, ValidRegistry, OnBestBoard, Submits, BoardAsc;
    BestTick(reg, t, c, v);
    BestTick(reg, t, c, FoldTick(reg, t, c, v));
  }

  /** Whether a submit is applied before some actions as well makes no difference once it is applied
      after them. */
  lemma {:induction false} BestThrough(reg: Registry, ts: seq<Tick>, t: Tick, c: Cell, v: Option<real>)
    requires ValidRegistry(reg) && OnBestBoard(reg, c) && Submits(reg, t, c)
    ensures FoldTick(reg, t, c, FoldTicks(reg, ts, c, FoldTick(reg, t, c, v))) == FoldTick(reg, t, c, FoldTicks(reg, ts, c, v))
  {
    hide FoldTick, ValidRegistry, OnBestBoard, Submits, Removes;
    if ts == [] {
      BestTwice(reg, t, c, v);
    } else {
      var front, l := ts[..|ts| - 1], Last(ts);
      var x, y := FoldTicks(reg, front, c, FoldTick(reg, t, c, v)), FoldTicks(reg, front, c, v);
      BestThrough(reg, front, t, c, v);
      FoldOne(reg, l, c, x);
      FoldOne(reg, l, c, y);
      if Submits(reg, l, c) {
        BestCommutes(reg, t, l, c, x);
        BestCommutes(reg, t, l, c, y);
      }
    }
  }

  /** An action that a sequence holds can be applied before it as well. */
  lemma {:induction false} AbsorbOne(reg: Registry, ts: seq<Tick>, t: Tick, c: Cell, v: Option<real>)
    requires ValidRegistry(reg) && Absorbing(reg, c) && t in ts
    ensures FoldTicks(reg, ts, c, FoldTick(reg, t, c, v)) == FoldTicks(reg, ts, c, v)
  {
    hide FoldTick, ValidRegistry, OnBestBoard, OnLastBoard, Submits, Removes, OutcomeOf;
    var front := ts[..|ts| - 1];
    assert ts == front + [Last(ts)];
    if t in front {
      AbsorbOne(reg, front, t, c, v);
    } else {
      FoldOne(reg, t, c, v);
      FoldOne(reg, t, c, FoldTicks(reg, front, c, v));
      FoldOne(reg, t, c, FoldTicks(reg, front, c, FoldTick(reg, t, c, v)));
      if Submits(reg, t, c) && OnBestBoard(reg, c) {
        BestThrough(reg, front, t, c, v);
      }
    }
  }

  lemma {:induction false} AbsorbAll(reg: Registry, ts: seq<Tick>, some: seq<Tick>, c: Cell, v: Option<real>)
    requires ValidRegistry(reg) && Absorbing(reg, c) && forall t :: t in some ==> t in ts
    ensures FoldTicks(reg, ts, c, FoldTicks(reg, some, c, v)) == FoldTicks(reg, ts, c, v)
  {
    hide FoldTick, ValidRegistry, Absorbing;
    if some != [] {
      var front := some[..|some| - 1];
      assert some == front + [Last(some)];
      AbsorbAll(reg, ts, front, c, v);
      AbsorbOne(reg, ts, Last(some), c, FoldTicks(reg, front, c, v));
    }
  }

  /** A value that a pass leaves as it is, the end of the pass leaves as it is. */
  lemma AbsorbEnd(reg: Registry, a: seq<Tick>, b: seq<Tick>, c: Cell, v: Option<real>)
    requires ValidRegistry(reg) && Absorbing(reg, c) && FoldTicks(reg, a + b, c, v) == v
    ensures FoldTicks(reg, b, c, v) == v
  {
    hide FoldTicks, ValidRegistry, Absorbing;
    FoldConcat(reg, a, b, c, v);
    AbsorbAll(reg, b, b, c, FoldTicks(reg, a, c, v));
  }
}
