/** Concurrent writers on one approx board (pkg/engine/redis_engine.go:56-168, 393-422). A submit reads
    the member's old value, writes, reads the new value and queues its histogram increments for a later
    pipeline; on increment boards the write's own reply is the second read. A removal reads the old value
    and removes, and queues nothing if there was nothing to remove. Steps of all writers interleave, and a
    writer can crash with its group open or with its increments not sent yet. */
module HistogramRace {
  import opened Basics
  import opened Boards
  import opened Codec
  import opened Store

  /** One queued HINCRBY. */
  datatype Incr = Incr(bucket: int, amount: int)

  /** A group in progress: whose value it is about, what the first read returned, and whether it has
      written. */
  datatype Group = Group(member: string, pre: Option<real>, wrote: bool := false)

  datatype State = State(z: map<string, real>, open: seq<Group>, queue: seq<Incr>, hist: map<int, int>)

  const INIT: State := State(map[], [], [], map[])

  datatype Step =
    | Begin(member: string)
    | Write(g: nat, value: real)
    | End(g: nat)
    | Add(g: nat, value: real)
    | Remove(g: nat)
    | Crash(g: nat)
    | Flush(i: nat)
    | Drop(i: nat)

  function HistAt(h: map<int, int>, b: int): int { if b in h then h[b] else 0 }

  function Without<T>(s: seq<T>, i: nat): seq<T>
    requires i < |s|
  {
    s[..i] + s[i + 1..]
  }

  predicate Enabled(st: State, step: Step) {
    match step
    case Begin(m) => true
    case Write(g, v) => g < |st.open| && !st.open[g].wrote
    case End(g) => g < |st.open| && st.open[g].wrote
    case Add(g, v) => g < |st.open| && !st.open[g].wrote
    case Remove(g) => g < |st.open| && !st.open[g].wrote
    case Crash(g) => g < |st.open|
    case Flush(i) => i < |st.queue|
    case Drop(i) => i < |st.queue|
  }

  /** The increments of a move: one unit out of the old bucket, one into the new, none when the decoded
      score is the same. */
  function Increments(cfg: Config, pre: Option<real>, post: Option<real>): seq<Incr> {
    if pre.Some? && post.Some? && Decode(cfg, pre.value) == Decode(cfg, post.value) then []
    else
      (if pre.Some? then [Incr(BucketOf(cfg, pre.value), -1)] else [])
      + (if post.Some? then [Incr(BucketOf(cfg, post.value), 1)] else [])
  }

  function Written(z: map<string, real>, m: string, v: Option<real>): map<string, real> {
    if v.None? then z - {m} else z[m := v.value]
  }

  /** A group closes and queues its move. */
  function Close(cfg: Config, st: State, g: nat, post: Option<real>): State
    requires g < |st.open|
  {
    st.(open := Without(st.open, g), queue := st.queue + Increments(cfg, st.open[g].pre, post))
  }

  function Do(cfg: Config, st: State, step: Step): State
    requires Enabled(st, step)
  {
    match step
    case Begin(m) => st.(open := st.open + [Group(m, Lookup(st.z, m))])
    case Write(g, v) =>
      st.(z := Written(st.z, st.open[g].member, Some(v)), open := st.open[g := st.open[g].(wrote := true)])
    // a member gone by the second read fails the batch before its increments
    case End(g) =>
      var post := Lookup(st.z, st.open[g].member);
      if post.None? then st.(open := Without(st.open, g)) else Close(cfg, st, g, post)
    case Add(g, v) => Close(cfg, st.(z := Written(st.z, st.open[g].member, Some(v))), g, Some(v))
    case Remove(g) =>
      var m := st.open[g].member;
      if m !in st.z then st.(open := Without(st.open, g)) else Close(cfg, st.(z := Written(st.z, m, None)), g, None)
    case Crash(g) => st.(open := Without(st.open, g))
    case Flush(i) =>
      var d := st.queue[i];
      st.(queue := Without(st.queue, i), hist := st.hist[d.bucket := HistAt(st.hist, d.bucket) + d.amount])
    case Drop(i) => st.(queue := Without(st.queue, i))
  }

  function RunFrom(cfg: Config, st: State, steps: seq<Step>): Option<State>
    decreases |steps|
  {
    if steps == [] then Some(st)
    else if Enabled(st, steps[0]) then RunFrom(cfg, Do(cfg, st, steps[0]), steps[1..])
    else None
  }

  // ---------------------------------------------------------------- what the counters stand for

  /** The members in bucket b. */
  function InBucket(cfg: Config, z: map<string, real>, b: int): set<string> {
    set m | m in z && BucketOf(cfg, z[m]) == b
  }

  /** One if a value is in bucket b. */
  function Unit(cfg: Config, v: Option<real>, b: int): int {
    if v.Some? && BucketOf(cfg, v.value) == b then 1 else 0
  }

  function Owed(q: seq<Incr>, b: int): int {
    if q == [] then 0 else Owed(q[..|q| - 1], b) + (if Last(q).bucket == b then Last(q).amount else 0)
  }

  /** What a group would queue if it read its member now. */
  function GroupOwes(cfg: Config, z: map<string, real>, g: Group, b: int): int {
    Unit(cfg, Lookup(z, g.member), b) - Unit(cfg, g.pre, b)
  }

  function OwedOpen(cfg: Config, z: map<string, real>, open: seq<Group>, b: int): int {
    if open == [] then 0 else OwedOpen(cfg, z, open[..|open| - 1], b) + GroupOwes(cfg, z, Last(open), b)
  }

  /** The groups open on a member. */
  function OpenOn(open: seq<Group>, m: string): nat {
    if open == [] then 0 else OpenOn(open[..|open| - 1], m) + (if Last(open).member == m then 1 else 0)
  }

  /** The value a step stores for its group's member, if it stores one. */
  function Stores(st: State, step: Step): Option<Option<real>>
    requires Enabled(st, step)
  {
    match step
    case Write(g, v) => Some(Some(v))
    case Add(g, v) => Some(Some(v))
    case Remove(g) => if st.open[g].member in st.z then Some(None) else None
    case _ => None
  }

  /** The group a step closes without its increments, if it does. */
  predicate Loses(st: State, step: Step)
    requires Enabled(st, step)
  {
    match step
    case End(g) => st.open[g].member !in st.z
    case Remove(g) => st.open[g].member !in st.z
    case Crash(g) => true
    case _ => false
  }

  /** What one step makes the counters wrong by: a value stored while other groups are open on its member
      is counted by each of them, and a group or an increment that is lost counts nothing. */
  function StepDrift(cfg: Config, st: State, step: Step, b: int): int
    requires Enabled(st, step)
  {
    if Stores(st, step).Some? then
      var m := st.open[step.g].member;
      (OpenOn(st.open, m) - 1) * (Unit(cfg, Stores(st, step).value, b) - Unit(cfg, Lookup(st.z, m), b))
    else if Loses(st, step) then -GroupOwes(cfg, st.z, st.open[step.g], b)
    else if step.Drop? then -(if st.queue[step.i].bucket == b then st.queue[step.i].amount else 0)
    else 0
  }

  function Drift(cfg: Config, st: State, steps: seq<Step>, b: int): int
    decreases |steps|
  {
    if steps == [] || !Enabled(st, steps[0]) then 0
    else StepDrift(cfg, st, steps[0], b) + Drift(cfg, Do(cfg, st, steps[0]), steps[1..], b)
  }

  /** Histogram, queued increments and open groups, against the board. */
  function Balance(cfg: Config, st: State, b: int): int {
    HistAt(st.hist, b) + Owed(st.queue, b) + OwedOpen(cfg, st.z, st.open, b) - |InBucket(cfg, st.z, b)|
  }

  // ---------------------------------------------------------------- sums

  lemma {:induction false} OwedConcat(p: seq<Incr>, q: seq<Incr>, b: int)
    ensures Owed(p + q, b) == Owed(p, b) + Owed(q, b)
  {
    if q == [] {
      assert p + q == p;
    } else {
      assert (p + q)[..|p + q| - 1] == p + q[..|q| - 1];
      OwedConcat(p, q[..|q| - 1], b);
    }
  }

  lemma OwedOne(d: Incr, b: int)
    ensures Owed([d], b) == if d.bucket == b then d.amount else 0
  {
    assert [d][..0] == [];
  }

  lemma OwedWithout(q: seq<Incr>, i: nat, b: int)
    requires i < |q|
    ensures Owed(Without(q, i), b) == Owed(q, b) - if q[i].bucket == b then q[i].amount else 0
  {
    hide Owed;
    assert q == q[..i] + [q[i]] + q[i + 1..];
    OwedConcat(q[..i] + [q[i]], q[i + 1..], b);
    OwedConcat(q[..i], [q[i]], b);
    OwedConcat(q[..i], q[i + 1..], b);
    OwedOne(q[i], b);
  }

  lemma OwedIncrements(cfg: Config, pre: Option<real>, post: Option<real>, b: int)
    ensures Owed(Increments(cfg, pre, post), b) == Unit(cfg, post, b) - Unit(cfg, pre, b)
  {
    hide BucketOf, Decode;
    var out := if pre.Some? then [Incr(BucketOf(cfg, pre.value), -1)] else [];
    var into := if post.Some? then [Incr(BucketOf(cfg, post.value), 1)] else [];
    if pre.Some? && post.Some? && Decode(cfg, pre.value) == Decode(cfg, post.value) {
      SamePrimarySameBucket(cfg, pre.value, post.value);
    }
    OwedConcat(out, into, b);
    if pre.Some? {
      OwedOne(out[0], b);
    }
    if post.Some? {
      OwedOne(into[0], b);
    }
  }

  lemma {:induction false} OpenConcat(cfg: Config, z: map<string, real>, p: seq<Group>, q: seq<Group>, b: int)
    ensures OwedOpen(cfg, z, p + q, b) == OwedOpen(cfg, z, p, b) + OwedOpen(cfg, z, q, b)
  {
    hide GroupOwes;
    if q == [] {
      assert p + q == p;
    } else {
      assert (p + q)[..|p + q| - 1] == p + q[..|q| - 1];
      OpenConcat(cfg, z, p, q[..|q| - 1], b);
    }
  }

  lemma OpenOne(cfg: Config, z: map<string, real>, g: Group, b: int)
    ensures OwedOpen(cfg, z, [g], b) == GroupOwes(cfg, z, g, b)
  {
    hide GroupOwes;
    assert [g][..0] == [];
  }

  lemma OpenWithout(cfg: Config, z: map<string, real>, open: seq<Group>, i: nat, b: int)
    requires i < |open|
    ensures OwedOpen(cfg, z, Without(open, i), b) == OwedOpen(cfg, z, open, b) - GroupOwes(cfg, z, open[i], b)
  {
    hide OwedOpen, GroupOwes;
    assert open == open[..i] + [open[i]] + open[i + 1..];
    OpenConcat(cfg, z, open[..i] + [open[i]], open[i + 1..], b);
    OpenConcat(cfg, z, open[..i], [open[i]], b);
    OpenConcat(cfg, z, open[..i], open[i + 1..], b);
    OpenOne(cfg, z, open[i], b);
  }

  lemma OpenUpdate(cfg: Config, z: map<string, real>, open: seq<Group>, i: nat, g: Group, b: int)
    requires i < |open| && g.member == open[i].member && g.pre == open[i].pre
    ensures OwedOpen(cfg, z, open[i := g], b) == OwedOpen(cfg, z, open, b)
  {
    hide OwedOpen, Unit;
    var o := open[i := g];
    assert o == o[..i] + [g] + o[i + 1..] && o[..i] == open[..i] && o[i + 1..] == open[i + 1..];
    assert open == open[..i] + [open[i]] + open[i + 1..];
    OpenConcat(cfg, z, open[..i] + [open[i]], open[i + 1..], b);
    OpenConcat(cfg, z, open[..i], [open[i]], b);
    OpenConcat(cfg, z, open[..i] + [g], open[i + 1..], b);
    OpenConcat(cfg, z, open[..i], [g], b);
    OpenOne(cfg, z, g, b);
    OpenOne(cfg, z, open[i], b);
  }

  /** A write changes what every group on its member owes. */
  lemma {:induction false} OpenAfterWrite(cfg: Config, z: map<string, real>, open: seq<Group>, m: string, v: Option<real>, b: int)
    ensures OwedOpen(cfg, Written(z, m, v), open, b)
            == OwedOpen(cfg, z, open, b) + OpenOn(open, m) * (Unit(cfg, v, b) - Unit(cfg, Lookup(z, m), b))
  {
    hide Unit;
    if open != [] {
      OpenAfterWrite(cfg, z, open[..|open| - 1], m, v, b);
      var n, d := OpenOn(open[..|open| - 1], m), Unit(cfg, v, b) - Unit(cfg, Lookup(z, m), b);
      assert (n + 1) * d == n * d + d;
    }
  }

  lemma BucketAfterWrite(cfg: Config, z: map<string, real>, m: string, v: Option<real>, b: int)
    ensures |InBucket(cfg, Written(z, m, v), b)| == |InBucket(cfg, z, b)| + Unit(cfg, v, b) - Unit(cfg, Lookup(z, m), b)
  {
    hide BucketOf, InBucket, Written, Unit;
    var y := Written(z, m, v);
    OthersStay(cfg, z, m, v, b);
    MemberUnit(cfg, z, m, b);
    MemberUnit(cfg, y, m, b);
    assert Lookup(y, m) == v by {
      WrittenValue(z, m, v);
    }
    WithoutOne(InBucket(cfg, z, b), m);
    WithoutOne(InBucket(cfg, y, b), m);
  }

  lemma WrittenValue(z: map<string, real>, m: string, v: Option<real>)
    ensures Lookup(Written(z, m, v), m) == v
  {
  }

  lemma MemberUnit(cfg: Config, z: map<string, real>, m: string, b: int)
    ensures Unit(cfg, Lookup(z, m), b) == if m in InBucket(cfg, z, b) then 1 else 0
  {
    hide BucketOf;
  }

  lemma OthersStay(cfg: Config, z: map<string, real>, m: string, v: Option<real>, b: int)
    ensures InBucket(cfg, Written(z, m, v), b) - {m} == InBucket(cfg, z, b) - {m}
  {
    hide BucketOf;
  }

  lemma WithoutOne(s: set<string>, m: string)
    ensures |s| == |s - {m}| + (if m in s then 1 else 0)
  {
    if m in s {
      assert s == (s - {m}) + {m};
    } else {
      assert s - {m} == s;
    }
  }

  // ---------------------------------------------------------------- every run

  /** Storing a value: every other group on the member counts it too. */
  lemma StoreBalance(cfg: Config, st: State, g: nat, v: Option<real>, b: int)
    requires g < |st.open|
    ensures var m := st.open[g].member;
            Balance(cfg, st.(z := Written(st.z, m, v)), b)
            == Balance(cfg, st, b) + (OpenOn(st.open, m) - 1) * (Unit(cfg, v, b) - Unit(cfg, Lookup(st.z, m), b))
  {
    hide InBucket, Unit, Owed, OwedOpen, OpenOn, Written;
    var m := st.open[g].member;
    OpenAfterWrite(cfg, st.z, st.open, m, v, b);
    BucketAfterWrite(cfg, st.z, m, v, b);
    var n, d := OpenOn(st.open, m), Unit(cfg, v, b) - Unit(cfg, Lookup(st.z, m), b);
    assert (n - 1) * d == n * d - d;
  }

  /** Closing a group on what its member holds changes nothing. */
  lemma CloseBalance(cfg: Config, st: State, g: nat, b: int)
    requires g < |st.open|
    ensures Balance(cfg, Close(cfg, st, g, Lookup(st.z, st.open[g].member)), b) == Balance(cfg, st, b)
  {
    hide InBucket, Unit, Owed, OwedOpen, Increments;
    var gr := st.open[g];
    OpenWithout(cfg, st.z, st.open, g, b);
    OwedConcat(st.queue, Increments(cfg, gr.pre, Lookup(st.z, gr.member)), b);
    OwedIncrements(cfg, gr.pre, Lookup(st.z, gr.member), b);
  }

  lemma BalanceStep(cfg: Config, st: State, step: Step, b: int)
    requires Enabled(st, step)
    ensures Balance(cfg, Do(cfg, st, step), b) == Balance(cfg, st, b) + StepDrift(cfg, st, step, b)
  {
    hide InBucket, Unit, Owed, OwedOpen, OpenOn, Increments, Written, Close;
    match step
    case Begin(m) =>
      var g := Group(m, Lookup(st.z, m));
      OpenConcat(cfg, st.z, st.open, [g], b);
      OpenOne(cfg, st.z, g, b);
    case Write(g, v) => WriteBalance(cfg, st, g, v, b);
    case End(g) =>
      OpenWithout(cfg, st.z, st.open, g, b);
      CloseBalance(cfg, st, g, b);
    case Add(g, v) => ReplyBalance(cfg, st, g, Some(v), b);
    case Remove(g) =>
      OpenWithout(cfg, st.z, st.open, g, b);
      ReplyBalance(cfg, st, g, None, b);
    case Crash(g) => OpenWithout(cfg, st.z, st.open, g, b);
    case Flush(i) => OwedWithout(st.queue, i, b);
    case Drop(i) => OwedWithout(st.queue, i, b);
  }

  lemma WriteBalance(cfg: Config, st: State, g: nat, v: real, b: int)
    requires Enabled(st, Write(g, v))
    ensures Balance(cfg, Do(cfg, st, Write(g, v)), b) == Balance(cfg, st, b) + StepDrift(cfg, st, Write(g, v), b)
  {
    hide InBucket, Unit, Owed, OwedOpen, OpenOn, Written;
    StoreBalance(cfg, st, g, Some(v), b);
    OpenUpdate(cfg, Written(st.z, st.open[g].member, Some(v)), st.open, g, st.open[g].(wrote := true), b);
  }

  /** Storing and closing on the reply. */
  lemma ReplyBalance(cfg: Config, st: State, g: nat, v: Option<real>, b: int)
    requires g < |st.open|
    ensures var m := st.open[g].member;
            Balance(cfg, Close(cfg, st.(z := Written(st.z, m, v)), g, v), b)
            == Balance(cfg, st, b) + (OpenOn(st.open, m) - 1) * (Unit(cfg, v, b) - Unit(cfg, Lookup(st.z, m), b))
  {
    hide Balance, Unit, OpenOn, Written, Close;
    var m := st.open[g].member;
    StoreBalance(cfg, st, g, v, b);
    WrittenValue(st.z, m, v);
    CloseBalance(cfg, st.(z := Written(st.z, m, v)), g, b);
  }

  lemma {:induction false} RunBalance(cfg: Config, st: State, steps: seq<Step>, b: int)
    requires RunFrom(cfg, st, steps).Some?
    ensures Balance(cfg, RunFrom(cfg, st, steps).value, b) == Balance(cfg, st, b) + Drift(cfg, st, steps, b)
    decreases |steps|
  {
    hide Balance, Enabled, Do, StepDrift;
    if steps != [] {
      BalanceStep(cfg, st, steps[0], b);
      RunBalance(cfg, Do(cfg, st, steps[0]), steps[1..], b);
    }
  }

  /** In every run, with any overlap and any crashes: histogram, queued increments and open groups add up
      to the bucket's population plus the drift of the steps taken. So once no group is open and nothing
      is queued, a counter is exact if and only if the overlapped writes and the losses cancel out. */
  lemma HistogramExactIff(cfg: Config, steps: seq<Step>, b: int)
    requires RunFrom(cfg, INIT, steps).Some?
    ensures var st := RunFrom(cfg, INIT, steps).value;
            && HistAt(st.hist, b) + Owed(st.queue, b) + OwedOpen(cfg, st.z, st.open, b)
               == |InBucket(cfg, st.z, b)| + Drift(cfg, INIT, steps, b)
            && (st.open == [] && st.queue == [] ==>
                  (HistAt(st.hist, b) == |InBucket(cfg, st.z, b)| <==> Drift(cfg, INIT, steps, b) == 0))
  {
    hide RunFrom, Drift, BucketOf;
    RunBalance(cfg, INIT, steps, b);
    assert InBucket(cfg, INIT.z, b) == {};
  }

  // ---------------------------------------------------------------- undisturbed runs

  /** A value is stored inside no other group on its member; no group is lost between its write and its
      increments, and no increment is lost. */
  ghost predicate Undisturbed(st: State, step: Step)
    requires Enabled(st, step)
  {
    && (Stores(st, step).Some? ==> OpenOn(st.open, st.open[step.g].member) == 1)
    && (step.Crash? ==> !st.open[step.g].wrote)
    && !step.Drop?
  }

  ghost predicate UndisturbedRun(cfg: Config, st: State, steps: seq<Step>)
    decreases |steps|
  {
    steps != [] && Enabled(st, steps[0]) ==>
      Undisturbed(st, steps[0]) && UndisturbedRun(cfg, Do(cfg, st, steps[0]), steps[1..])
  }

  /** A group that has not written finds its member as it read it, one that has finds it there. */
  ghost predicate Quiet(st: State) {
    forall i :: 0 <= i < |st.open| ==>
      if st.open[i].wrote then st.open[i].member in st.z else Lookup(st.z, st.open[i].member) == st.open[i].pre
  }

  lemma {:induction false} OpenOnAtLeast(open: seq<Group>, m: string, i: nat)
    requires i < |open| && open[i].member == m
    ensures OpenOn(open, m) >= 1
    ensures OpenOn(open, m) == 1 ==> forall j :: 0 <= j < |open| && j != i ==> open[j].member != m
  {
    var front := open[..|open| - 1];
    if i < |front| {
      OpenOnAtLeast(front, m, i);
      assert forall j :: 0 <= j < |front| ==> front[j] == open[j];
    } else {
      OpenOnNone(front, m);
      assert forall j :: 0 <= j < |front| ==> front[j] == open[j];
    }
  }

  lemma {:induction false} OpenOnNone(open: seq<Group>, m: string)
    ensures OpenOn(open, m) == 0 ==> forall j :: 0 <= j < |open| ==> open[j].member != m
  {
    if open != [] {
      var front := open[..|open| - 1];
      OpenOnNone(front, m);
      assert forall j :: 0 <= j < |front| ==> front[j] == open[j];
    }
  }

  lemma QuietStep(cfg: Config, st: State, step: Step)
    requires Quiet(st) && Enabled(st, step) && Undisturbed(st, step)
    ensures Quiet(Do(cfg, st, step))
  {
    hide Increments, OpenOn;
    if Stores(st, step).Some? {
      OpenOnAtLeast(st.open, st.open[step.g].member, step.g);
    }
  }

  lemma QuietDrift(cfg: Config, st: State, step: Step, b: int)
    requires Quiet(st) && Enabled(st, step) && Undisturbed(st, step)
    ensures StepDrift(cfg, st, step, b) == 0
  {
    hide OpenOn, Unit;
  }

  lemma {:induction false} NoDrift(cfg: Config, st: State, steps: seq<Step>, b: int)
    requires Quiet(st) && UndisturbedRun(cfg, st, steps)
    ensures Drift(cfg, st, steps, b) == 0
    decreases |steps|
  {
    hide Do, Quiet, Undisturbed, StepDrift;
    if steps != [] && Enabled(st, steps[0]) {
      QuietDrift(cfg, st, steps[0], b);
      QuietStep(cfg, st, steps[0]);
      NoDrift(cfg, Do(cfg, st, steps[0]), steps[1..], b);
    }
  }

  /** With many writers in flight, provided no other write to a member falls inside a group on it and no
      writer is lost between its write and its increments: histogram plus what is queued and open is the
      bucket distribution in every reachable state. */
  lemma HistogramPlusQueue(cfg: Config, steps: seq<Step>, b: int)
    requires RunFrom(cfg, INIT, steps).Some? && UndisturbedRun(cfg, INIT, steps)
    ensures var st := RunFrom(cfg, INIT, steps).value;
            HistAt(st.hist, b) + Owed(st.queue, b) + OwedOpen(cfg, st.z, st.open, b) == |InBucket(cfg, st.z, b)|
  {
    hide RunFrom, Drift, UndisturbedRun, InBucket, Owed, OwedOpen;
    HistogramExactIff(cfg, steps, b);
    NoDrift(cfg, INIT, steps, b);
  }

  // ---------------------------------------------------------------- two disturbed runs

  lemma RunStep(cfg: Config, st: State, step: Step, rest: seq<Step>)
    requires Enabled(st, step)
    ensures RunFrom(cfg, st, [step] + rest) == RunFrom(cfg, Do(cfg, st, step), rest)
  {
    assert ([step] + rest)[1..] == rest;
  }

  lemma RunNone(cfg: Config, st: State)
    ensures RunFrom(cfg, st, []) == Some(st)
  {
  }

  /** Two overlapping first submits of one member. */
  function Overlap(m: string, v: real): seq<Step> {
    [Begin(m)] + ([Begin(m)] + ([Write(0, v)] + ([Write(1, v)] + ([End(0)] + ([End(0)] + [])))))
  }

  lemma OverlapOpen(cfg: Config, m: string, v: real)
    ensures var g := Group(m, None, true);
            RunFrom(cfg, INIT, Overlap(m, v))
            == RunFrom(cfg, State(map[m := v], [g, g], [], map[]), [End(0)] + ([End(0)] + []))
  {
    hide RunFrom;
    var g, h := Group(m, None), Group(m, None, true);
    var s1 := State(map[], [g], [], map[]);
    var s2 := State(map[], [g, g], [], map[]);
    var s3 := State(map[m := v], [h, g], [], map[]);
    var s4 := State(map[m := v], [h, h], [], map[]);
    var r4 := [End(0)] + ([End(0)] + []);
    assert Do(cfg, INIT, Begin(m)) == s1;
    assert Do(cfg, s1, Begin(m)) == s2;
    assert Do(cfg, s2, Write(0, v)) == s3;
    assert Do(cfg, s3, Write(1, v)) == s4;
    RunStep(cfg, INIT, Begin(m), [Begin(m)] + ([Write(0, v)] + ([Write(1, v)] + r4)));
    RunStep(cfg, s1, Begin(m), [Write(0, v)] + ([Write(1, v)] + r4));
    RunStep(cfg, s2, Write(0, v), [Write(1, v)] + r4);
    RunStep(cfg, s3, Write(1, v), r4);
  }

  /** Both of them count the member: the histogram drifts. */
  lemma OverlapDrifts(cfg: Config, m: string, v: real)
    ensures var st := RunFrom(cfg, INIT, Overlap(m, v));
            && st.Some? && st.value.open == [] && st.value.z == map[m := v]
            && Owed(st.value.queue, BucketOf(cfg, v)) == 2
  {
    hide BucketOf, RunFrom, Owed, Overlap;
    OverlapOpen(cfg, m, v);
    var g := Group(m, None, true);
    var d := Incr(BucketOf(cfg, v), 1);
    var s3 := State(map[m := v], [g, g], [], map[]);
    var s4 := State(map[m := v], [g], [d], map[]);
    var s5 := State(map[m := v], [], [d, d], map[]);
    assert Increments(cfg, None, Some(v)) == [d];
    assert Do(cfg, s3, End(0)) == s4;
    assert Do(cfg, s4, End(0)) == s5;
    RunStep(cfg, s3, End(0), [End(0)] + []);
    RunStep(cfg, s4, End(0), []);
    RunNone(cfg, s5);
    OwedConcat([d], [d], d.bucket);
    OwedOne(d, d.bucket);
    assert [d] + [d] == [d, d];
  }

  /** A writer that crashes between its write and its increments, and the redelivered write. */
  function CrashAndRetry(m: string, v: real): seq<Step> {
    [Begin(m)] + ([Write(0, v)] + ([Crash(0)] + Retry(m, v)))
  }

  function Retry(m: string, v: real): seq<Step> { [Begin(m)] + ([Write(0, v)] + ([End(0)] + [])) }

  lemma Retried(cfg: Config, m: string, v: real)
    ensures var s := State(map[m := v], [], [], map[]);
            RunFrom(cfg, s, Retry(m, v)) == Some(s)
  {
    hide RunFrom;
    var s := State(map[m := v], [], [], map[]);
    var s1 := State(map[m := v], [Group(m, Some(v))], [], map[]);
    var s2 := State(map[m := v], [Group(m, Some(v), true)], [], map[]);
    assert Do(cfg, s, Begin(m)) == s1;
    assert Do(cfg, s1, Write(0, v)) == s2;
    assert Do(cfg, s2, End(0)) == s;
    RunStep(cfg, s, Begin(m), [Write(0, v)] + ([End(0)] + []));
    RunStep(cfg, s1, Write(0, v), [End(0)] + []);
    RunStep(cfg, s2, End(0), []);
    RunNone(cfg, s);
  }

  /** The retry finds the value unchanged and queues nothing: the member is never counted. */
  lemma CrashDrifts(cfg: Config, m: string, v: real)
    ensures RunFrom(cfg, INIT, CrashAndRetry(m, v)) == Some(State(map[m := v], [], [], map[]))
    ensures HistAt(map[], BucketOf(cfg, v)) == 0 && InBucket(cfg, map[m := v], BucketOf(cfg, v)) == {m}
  {
    hide RunFrom, BucketOf, Retry;
    var g := Group(m, None);
    var s1 := State(map[], [g], [], map[]);
    var s2 := State(map[m := v], [g.(wrote := true)], [], map[]);
    var s3 := State(map[m := v], [], [], map[]);
    assert Do(cfg, INIT, Begin(m)) == s1;
    assert Do(cfg, s1, Write(0, v)) == s2;
    assert Do(cfg, s2, Crash(0)) == s3;
    RunStep(cfg, INIT, Begin(m), [Write(0, v)] + ([Crash(0)] + Retry(m, v)));
    RunStep(cfg, s1, Write(0, v), [Crash(0)] + Retry(m, v));
    RunStep(cfg, s2, Crash(0), Retry(m, v));
    Retried(cfg, m, v);
  }

  /** Two overlapping removals decrement once: the second finds nothing to remove. */
  lemma RemovalsOnce(cfg: Config, m: string, v: real, h: map<int, int>)
    ensures var d := Incr(BucketOf(cfg, v), -1);
            RunFrom(cfg, State(map[m := v], [], [], h), [Begin(m)] + ([Begin(m)] + ([Remove(0)] + ([Remove(0)] + []))))
            == Some(State(map[], [], [d], h))
  {
    hide RunFrom, BucketOf;
    var g, d := Group(m, Some(v)), Incr(BucketOf(cfg, v), -1);
    var s0 := State(map[m := v], [], [], h);
    var s1 := State(map[m := v], [g], [], h);
    var s2 := State(map[m := v], [g, g], [], h);
    var s3 := State(map[], [g], [d], h);
    var s4 := State(map[], [], [d], h);
    assert Do(cfg, s0, Begin(m)) == s1;
    assert Do(cfg, s1, Begin(m)) == s2;
    assert Do(cfg, s2, Remove(0)) == s3;
    assert Do(cfg, s3, Remove(0)) == s4;
    RunStep(cfg, s0, Begin(m), [Begin(m)] + ([Remove(0)] + ([Remove(0)] + [])));
    RunStep(cfg, s1, Begin(m), [Remove(0)] + ([Remove(0)] + []));
    RunStep(cfg, s2, Remove(0), [Remove(0)] + []);
    RunStep(cfg, s3, Remove(0), []);
    RunNone(cfg, s4);
  }
}
