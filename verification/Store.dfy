/** The Redis state behind the ranking engine and what each engine command does to it
    (pkg/engine/redis_engine.go, pkg/engine/histogram.go). Sorted sets are one flat map from
    (board, member) to the stored value: a sorted set without members does not exist in Redis. */
module Store {
  import opened Basics
  import opened Boards
  import opened Codec
  import opened Keys

  datatype Cell = Cell(key: BoardKey, member: string)
  datatype Bin = Bin(key: BoardKey, bucket: int)
  datatype Db = Db(z: map<Cell, real>, h: map<Bin, int>)

  const EMPTY: Db := Db(map[], map[])

  datatype SubmitOp = SubmitOp(key: BoardKey, cfg: Config, member: string, score: real, time: Instant)

  datatype Error = InvalidBoardKey | InvalidConfig | ScoreNotEncodable | MemberNotFound | ApproxDisabled

  datatype SubmitResult = SubmitResult(updated: bool, score: real)

  // ---------------------------------------------------------------- histogram buckets

  function BucketCount(cfg: Config): (n: int)
    ensures n >= 1
  {
    var n := WithDefaults(cfg).approxBuckets;
    if n < 1 then 1 else n
  }

  function BucketIndex(cfg: Config, score: real): (i: int)
    ensures 0 <= i < BucketCount(cfg)
  {
    var n := BucketCount(cfg);
    if score <= cfg.approxMin then 0
    else if score >= cfg.approxMax then n - 1
    else
      var idx := Scaled(score - cfg.approxMin, cfg.approxMax - cfg.approxMin, n);
      if idx >= n then n - 1 else idx
  }

  /** The fraction x / width of the range, in units of n buckets. */
  function Scaled(x: real, width: real, n: int): (i: int)
    requires x >= 0.0 && width > 0.0 && n >= 1
    ensures i >= 0
  {
    ProductNonNegative(x / width, n as real);
    (x / width * n as real).Floor
  }

  lemma ProductNonNegative(a: real, b: real)
    requires a >= 0.0 && b >= 0.0
    ensures a * b >= 0.0
  {
  }

  function BucketOf(cfg: Config, stored: real): (i: int)
    ensures 0 <= i < BucketCount(cfg)
  {
    BucketIndex(cfg, Decode(cfg, stored))
  }

  function HGet(h: map<Bin, int>, f: Bin): int { if f in h then h[f] else 0 }

  function HIncr(h: map<Bin, int>, f: Bin, d: int): map<Bin, int> { h[f := HGet(h, f) + d] }

  // ---------------------------------------------------------------- submits

  function CheckOp(op: SubmitOp): Result<real, Error> {
    if !ValidKey(op.key) then Err(InvalidBoardKey)
    else if !ValidConfig(op.cfg) then Err(InvalidConfig)
    else
      match Encode(op.cfg, op.score, op.time)
      case None => Err(ScoreNotEncodable)
      case Some(enc) => Ok(enc)
  }

  function CellOf(op: SubmitOp): Cell { Cell(Norm(op.key), op.member) }

  /** The value a sorted set holds after ZINCRBY, ZADD, ZADD GT or ZADD LT. */
  function NewValue(cfg: Config, prev: Option<real>, score: real, enc: real): real {
    var c := WithDefaults(cfg);
    if c.policy.Increment? then (if prev.Some? then prev.value + score else score)
    else if c.policy.Best? && prev.Some? then
      if c.order.Asc? then (if enc < prev.value then enc else prev.value)
      else (if enc > prev.value then enc else prev.value)
    else enc
  }

  /** The histogram after a member's value on an approx board went from `prev` to `next`. */
  function Moved(h: map<Bin, int>, key: BoardKey, cfg: Config, prev: Option<real>, next: real): map<Bin, int> {
    if !IsApprox(cfg) then h
    else
      var b := Bin(key, BucketOf(cfg, next));
      if prev.None? then HIncr(h, b, 1)
      else if Decode(cfg, prev.value) == Decode(cfg, next) then h
      else HIncr(HIncr(h, Bin(key, BucketOf(cfg, prev.value)), -1), b, 1)
  }

  /** One submit on its own: the write, then the histogram move it causes. */
  function ApplyOp(db: Db, op: SubmitOp): Db {
    match CheckOp(op)
    case Err(_) => db
    case Ok(enc) =>
      var c := CellOf(op);
      var prev := Lookup(db.z, c);
      var next := NewValue(op.cfg, prev, op.score, enc);
      Db(db.z[c := next], Moved(db.h, c.key, op.cfg, prev, next))
  }

  function ResultOf(db: Db, op: SubmitOp): SubmitResult {
    var c := CellOf(op);
    var z' := ApplyOp(db, op).z;
    var next := if c in z' then z'[c] else 0.0;
    SubmitResult(WithDefaults(op.cfg).policy.Increment? || Lookup(db.z, c) != Some(next), Decode(op.cfg, next))
  }

  predicate AllOk(ops: seq<SubmitOp>) { forall i :: 0 <= i < |ops| ==> CheckOp(ops[i]).Ok? }

  /** Submits one after the other. */
  function RunOps(db: Db, ops: seq<SubmitOp>): Db {
    if ops == [] then db else ApplyOp(RunOps(db, ops[..|ops| - 1]), Last(ops))
  }

  lemma {:induction false} RunOpsConcat(db: Db, a: seq<SubmitOp>, b: seq<SubmitOp>)
    ensures RunOps(db, a + b) == RunOps(RunOps(db, a), b)
  {
    if b == [] {
      assert a + b == a;
    } else {
      assert (a + b)[..|a + b| - 1] == a + b[..|b| - 1];
      RunOpsConcat(db, a, b[..|b| - 1]);
    }
  }

  // ---------------------------------------------------------------- removals

  /** Removing one member from a set of boards: each board loses one cell and, on an approx board
      that held it, one unit of the bucket the member was in. */
  function RemoveOn(db: Db, keys: set<BoardKey>, cfg: Config, member: string): Db {
    Db(map c | c in db.z && !(c.key in keys && c.member == member) :: db.z[c],
       map f | f in db.h.Keys + Vacated(db.z, keys, cfg, member) ::
         HGet(db.h, f) - (if f in Vacated(db.z, keys, cfg, member) then 1 else 0))
  }

  function Vacated(z: map<Cell, real>, keys: set<BoardKey>, cfg: Config, member: string): set<Bin> {
    if !IsApprox(cfg) then {}
    else set k | k in keys && Cell(k, member) in z :: Bin(k, BucketOf(cfg, z[Cell(k, member)]))
  }

  function LiveKeys(z: map<Cell, real>): set<BoardKey> { set c | c in z :: c.key }

  /** The keys a scan for one logical board returns. */
  function ScanKeys(z: map<Cell, real>, app: string, board: string): set<BoardKey> {
    set k | k in LiveKeys(z) && Glob(ScanPattern(app, board), ZKey(k))
  }

  function RemoveAll(db: Db, app: string, board: string, cfg: Config, member: string): Db {
    RemoveOn(db, ScanKeys(db.z, app, board), cfg, member)
  }

  /** DEL of a board's keys. */
  function Reset(db: Db, keys: set<BoardKey>): Db {
    Db(map c | c in db.z && c.key !in keys :: db.z[c], map f | f in db.h && f.key !in keys :: db.h[f])
  }

  lemma RemoveOnSplit(db: Db, a: set<BoardKey>, b: set<BoardKey>, cfg: Config, member: string)
    requires a !! b
    ensures RemoveOn(RemoveOn(db, a, cfg, member), b, cfg, member) == RemoveOn(db, a + b, cfg, member)
  {
    var d := RemoveOn(db, a, cfg, member);
    assert Vacated(db.z, a + b, cfg, member) == Vacated(db.z, a, cfg, member) + Vacated(d.z, b, cfg, member);
    var l, r := RemoveOn(d, b, cfg, member), RemoveOn(db, a + b, cfg, member);
    assert l.z == r.z;
    assert l.h.Keys == r.h.Keys;
    forall f | f in r.h
      ensures l.h[f] == r.h[f]
    {
    }
  }

  // ---------------------------------------------------------------- one cell at a time

  /** What one submit does to one cell. */
  function CellOp(op: SubmitOp, c: Cell, v: Option<real>): Option<real> {
    if CellOf(op) == c && CheckOp(op).Ok? then Some(NewValue(op.cfg, v, op.score, CheckOp(op).value)) else v
  }

  function CellOps(ops: seq<SubmitOp>, c: Cell, v: Option<real>): Option<real> {
    if ops == [] then v else CellOp(Last(ops), c, CellOps(ops[..|ops| - 1], c, v))
  }

  lemma {:induction false} RunOpsCell(db: Db, ops: seq<SubmitOp>, c: Cell)
    ensures Lookup(RunOps(db, ops).z, c) == CellOps(ops, c, Lookup(db.z, c))
  {
    if ops != [] {
      RunOpsCell(db, ops[..|ops| - 1], c);
    }
  }

  // ---------------------------------------------------------------- what every command keeps

  /** Live boards have valid, normalised keys. */
  predicate KeysValid(z: map<Cell, real>) {
    forall c :: c in z ==> ValidKey(c.key) && Norm(c.key) == c.key
  }

  /** The members of board k whose score is in bucket b. */
  function Census(z: map<Cell, real>, k: BoardKey, cfg: Config, b: int): set<Cell> {
    set c | c in z && c.key == k && BucketOf(cfg, z[c]) == b
  }

  function Population(z: map<Cell, real>, k: BoardKey, cfg: Config, b: int): nat {
    if IsApprox(cfg) then |Census(z, k, cfg, b)| else 0
  }

  /** Every board's histogram counts its members bucket by bucket. */
  ghost predicate HistInv(db: Db, cfgs: BoardKey -> Config) {
    forall k: BoardKey, b: int :: HGet(db.h, Bin(k, b)) == Population(db.z, k, cfgs(k), b)
  }

  /** Values on firstToReach boards are composites. */
  ghost predicate StoredInv(z: map<Cell, real>, cfgs: BoardKey -> Config) {
    forall c :: c in z && WithDefaults(cfgs(c.key)).tie.FirstToReach? ==> 0.0 <= z[c] < TWO53 as real
  }

  ghost predicate Inv(db: Db, cfgs: BoardKey -> Config) {
    KeysValid(db.z) && HistInv(db, cfgs) && StoredInv(db.z, cfgs)
  }

  lemma EmptyInv(cfgs: BoardKey -> Config)
    ensures Inv(EMPTY, cfgs)
  {
    forall k: BoardKey, b: int
      ensures HGet(EMPTY.h, Bin(k, b)) == Population(EMPTY.z, k, cfgs(k), b)
    {
      assert Census(EMPTY.z, k, cfgs(k), b) == {};
    }
  }

  lemma CensusUpdate(z: map<Cell, real>, c: Cell, v: real, k: BoardKey, cfg: Config, b: int)
    ensures Census(z[c := v], k, cfg, b)
            == (Census(z, k, cfg, b) - {c}) + (if c.key == k && BucketOf(cfg, v) == b then {c} else {})
  {
  }

  lemma PopulationUpdate(z: map<Cell, real>, c: Cell, v: real, k: BoardKey, cfg: Config, b: int)
    requires IsApprox(cfg)
    ensures Population(z[c := v], k, cfg, b)
            == Population(z, k, cfg, b)
               - (if c in z && c.key == k && BucketOf(cfg, z[c]) == b then 1 else 0)
               + (if c.key == k && BucketOf(cfg, v) == b then 1 else 0)
  {
    hide BucketOf;
    CensusUpdate(z, c, v, k, cfg, b);
    var s := Census(z, k, cfg, b);
    if c in s {
      assert |s - {c}| == |s| - 1;
    } else {
      assert s - {c} == s;
    }
  }

  /** A submit keeps the histogram equal to the census. */
  lemma ApplyOpKeepsHist(db: Db, op: SubmitOp, cfgs: BoardKey -> Config)
    requires HistInv(db, cfgs) && op.cfg == cfgs(Norm(op.key))
    ensures HistInv(ApplyOp(db, op), cfgs)
  {
    hide BucketOf, Decode, NewValue;
    if CheckOp(op).Ok? {
      var c := CellOf(op);
      var d := ApplyOp(db, op);
      forall k: BoardKey, b: int
        ensures HGet(d.h, Bin(k, b)) == Population(d.z, k, cfgs(k), b)
      {
        if IsApprox(cfgs(k)) {
          PopulationUpdate(db.z, c, d.z[c], k, cfgs(k), b);
          if c in db.z {
            SamePrimarySameBucket(op.cfg, db.z[c], d.z[c]);
          }
        }
      }
    }
  }

  lemma SamePrimarySameBucket(cfg: Config, a: real, b: real)
    ensures Decode(cfg, a) == Decode(cfg, b) ==> BucketOf(cfg, a) == BucketOf(cfg, b)
  {
  }

  lemma EncodeStored(cfg: Config, score: real, t: Instant)
    requires ValidConfig(cfg) && WithDefaults(cfg).tie.FirstToReach? && Encode(cfg, score, t).Some?
    ensures 0.0 <= Encode(cfg, score, t).value < TWO53 as real
  {
    if score < TWO63 as real {
      EncodeFits(cfg, score, t, AMD64_OVERFLOW);
    } else {
      EncodeOverflowValue(cfg, score, t);
    }
  }

  lemma ApplyOpKeeps(db: Db, op: SubmitOp, cfgs: BoardKey -> Config)
    requires Inv(db, cfgs) && op.cfg == cfgs(Norm(op.key))
    ensures Inv(ApplyOp(db, op), cfgs)
  {
    ApplyOpKeepsHist(db, op, cfgs);
    hide BucketOf, Decode, HistInv, Moved, Encode, ValidConfig, BucketCount;
    if CheckOp(op).Ok? && WithDefaults(op.cfg).tie.FirstToReach? {
      EncodeStored(op.cfg, op.score, op.time);
    }
  }

  lemma {:induction false} RunOpsKeeps(db: Db, ops: seq<SubmitOp>, cfgs: BoardKey -> Config)
    requires Inv(db, cfgs)
    requires forall i :: 0 <= i < |ops| ==> ops[i].cfg == cfgs(Norm(ops[i].key))
    ensures Inv(RunOps(db, ops), cfgs)
  {
    if ops != [] {
      RunOpsKeeps(db, ops[..|ops| - 1], cfgs);
      ApplyOpKeeps(RunOps(db, ops[..|ops| - 1]), Last(ops), cfgs);
    }
  }

  /** So does removing a member from any set of boards that share the removal's config. */
  lemma RemoveOnKeeps(db: Db, keys: set<BoardKey>, cfg: Config, member: string, cfgs: BoardKey -> Config)
    requires Inv(db, cfgs)
    requires forall k :: k in keys && Cell(k, member) in db.z ==> cfgs(k) == cfg
    ensures Inv(RemoveOn(db, keys, cfg, member), cfgs)
  {
    hide BucketOf, ValidKey, Norm, RemoveOn;
    var d := RemoveOn(db, keys, cfg, member);
    forall k: BoardKey, b: int
      ensures HGet(d.h, Bin(k, b)) == Population(d.z, k, cfgs(k), b)
    {
      assert HGet(db.h, Bin(k, b)) == Population(db.z, k, cfgs(k), b);
      RemoveOnPopulation(db, keys, cfg, member, k, cfgs(k), b);
    }
    RemoveOnShrinks(db, keys, cfg, member);
  }

  lemma RemoveOnShrinks(db: Db, keys: set<BoardKey>, cfg: Config, member: string)
    ensures var d := RemoveOn(db, keys, cfg, member);
            forall c :: c in d.z ==> c in db.z && d.z[c] == db.z[c]
  {
  }

  lemma RemovedKeysValid(db: Db, keys: set<BoardKey>, cfg: Config, member: string)
    requires KeysValid(db.z)
    ensures KeysValid(RemoveOn(db, keys, cfg, member).z)
  {
    hide RemoveOn, ValidKey, Norm;
    RemoveOnShrinks(db, keys, cfg, member);
  }

  lemma RemoveOnPopulation(db: Db, keys: set<BoardKey>, cfg: Config, member: string, k: BoardKey, own: Config, b: int)
    requires HGet(db.h, Bin(k, b)) == Population(db.z, k, own, b)
    requires k in keys && Cell(k, member) in db.z ==> own == cfg
    ensures var d := RemoveOn(db, keys, cfg, member);
            HGet(d.h, Bin(k, b)) == Population(d.z, k, own, b)
  {
    hide BucketOf, Census;
    var c := Cell(k, member);
    var s := Census(db.z, k, own, b);
    RemoveOnCensus(db, keys, cfg, member, k, own, b);
    if c in s {
      assert |s - {c}| == |s| - 1;
    } else {
      assert s - {c} == s;
    }
  }

  lemma RemoveOnCensus(db: Db, keys: set<BoardKey>, cfg: Config, member: string, k: BoardKey, own: Config, b: int)
    ensures var s, c := Census(db.z, k, own, b), Cell(k, member);
            && Census(RemoveOn(db, keys, cfg, member).z, k, own, b) == (if k in keys then s - {c} else s)
            && (c in s <==> c in db.z && BucketOf(own, db.z[c]) == b)
  {
    hide BucketOf;
  }

  /** No score and no counter of the given boards is left, and all others are as before. */
  ghost predicate ClearedFrom(db: Db, d: Db, keys: set<BoardKey>) {
    && (forall c :: Lookup(d.z, c) == if c.key in keys then None else Lookup(db.z, c))
    && (forall f :: Lookup(d.h, f) == if f.key in keys then None else Lookup(db.h, f))
  }

  lemma ClearedIsReset(db: Db, d: Db, keys: set<BoardKey>)
    requires ClearedFrom(db, d, keys)
    ensures d == Reset(db, keys)
  {
    var r := Reset(db, keys);
    assert d.z == r.z by {
      assert forall c :: Lookup(d.z, c) == Lookup(r.z, c);
      SameMap(d.z, r.z);
    }
    assert d.h == r.h by {
      assert forall f :: Lookup(d.h, f) == Lookup(r.h, f);
      SameMap(d.h, r.h);
    }
  }

  lemma SameMap<K, V>(a: map<K, V>, b: map<K, V>)
    requires forall k :: Lookup(a, k) == Lookup(b, k)
    ensures a == b
  {
    assert forall k :: k in a <==> Lookup(a, k).Some?;
    assert forall k :: k in b <==> Lookup(b, k).Some?;
  }

  lemma ResetNowhere(db: Db)
    ensures Reset(db, {}) == db
  {
  }

  lemma ResetSplit(db: Db, a: set<BoardKey>, b: set<BoardKey>)
    ensures Reset(Reset(db, a), b) == Reset(db, a + b)
  {
  }

  lemma ResetKeeps(db: Db, keys: set<BoardKey>, cfgs: BoardKey -> Config)
    requires Inv(db, cfgs)
    ensures Inv(Reset(db, keys), cfgs)
  {
    hide BucketOf;
    var d := Reset(db, keys);
    forall k: BoardKey, b: int
      ensures HGet(d.h, Bin(k, b)) == Population(d.z, k, cfgs(k), b)
    {
      assert HGet(db.h, Bin(k, b)) == Population(db.z, k, cfgs(k), b);
      var s := Census(db.z, k, cfgs(k), b);
      if k in keys {
        assert Census(d.z, k, cfgs(k), b) == {};
      } else {
        assert Census(d.z, k, cfgs(k), b) == s;
      }
    }
  }
}
