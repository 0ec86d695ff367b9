/** Idempotent submission (pkg/ingest/ingestor.go, pkg/ingest/dedup.go): reserve the key, append, and
    roll the reservation back when the append fails, with any number of callers interleaving. */
module Dedup {
  import opened Basics
  import opened Ingest
  import opened Keys

  /** The key a submission reserves. */
  function DedupKey(app: string, idem: string): string { Tag(app, idem) }

  function KeyOf(rec: Record): string { DedupKey(rec.app, rec.idem) }

  /** Two submissions share a key exactly when they have the same app and key, or one app is the other
      up to a colon and the keys make up for the rest. */
  lemma DedupKeysEqualIff(app1: string, idem1: string, app2: string, idem2: string)
    ensures DedupKey(app1, idem1) == DedupKey(app2, idem2)
            <==> (app1 == app2 && idem1 == idem2)
                 || (app1 + [':'] <= app2 && idem1 == Tag(app2[|app1| + 1..], idem2))
                 || (app2 + [':'] <= app1 && idem2 == Tag(app1[|app2| + 1..], idem1))
  {
    if |app1| <= |app2| {
      KeysEqualWhen(app1, idem1, app2, idem2);
    } else {
      KeysEqualWhen(app2, idem2, app1, idem1);
    }
  }

  lemma KeysEqualWhen(a: string, i: string, b: string, j: string)
    requires |a| <= |b|
    ensures DedupKey(a, i) == DedupKey(b, j)
            <==> (a == b && i == j) || (a + [':'] <= b && i == Tag(b[|a| + 1..], j))
  {
    var s, t := DedupKey(a, i), DedupKey(b, j);
    assert s[..|a| + 1] == a + [':'] && s[|a| + 1..] == i;
    if |a| == |b| {
      assert t[..|a| + 1] == b + [':'] && t[|a| + 1..] == j;
      assert a + [':'] == b + [':'] <==> a == b by {
        assert (a + [':'])[..|a|] == a && (b + [':'])[..|b|] == b;
      }
    } else {
      assert t[..|a| + 1] == b[..|a| + 1];
      assert t[|a| + 1..] == Tag(b[|a| + 1..], j);
      assert s == s[..|a| + 1] + s[|a| + 1..] && t == t[..|a| + 1] + t[|a| + 1..];
    }
  }

  /** Two different apps can collide exactly when one of them is the other followed by a colon and more;
      in particular apps without colons never do. */
  lemma AppsCollideIff(app1: string, app2: string)
    requires app1 != app2
    ensures (exists i, j :: DedupKey(app1, i) == DedupKey(app2, j)) <==> app1 + [':'] <= app2 || app2 + [':'] <= app1
    ensures ColonFree(app1) && ColonFree(app2) ==> forall i, j :: DedupKey(app1, i) != DedupKey(app2, j)
  {
    hide DedupKey;
    forall i, j
      ensures DedupKey(app1, i) == DedupKey(app2, j) ==> app1 + [':'] <= app2 || app2 + [':'] <= app1
    {
      DedupKeysEqualIff(app1, i, app2, j);
    }
    if app1 + [':'] <= app2 {
      DedupKeysEqualIff(app1, Tag(app2[|app1| + 1..], ""), app2, "");
    }
    if app2 + [':'] <= app1 {
      DedupKeysEqualIff(app1, "", app2, Tag(app1[|app2| + 1..], ""));
    }
    ColonPrefix(app1, app2);
    ColonPrefix(app2, app1);
  }

  // ---------------------------------------------------------------- one caller at a time

  class Ingestor {
    const reg: Registry
    var seen: set<string>
    var log: seq<Record>

    constructor (reg: Registry)
      ensures this.reg == reg && seen == {} && log == []
    {
      this.reg, seen, log := reg, {}, [];
    }

    /** Of any calls with the same key and no Unmark between them, only the first answers false. */
    method SeenOrMark(key: string) returns (dup: bool)
      modifies this`seen
      ensures dup <==> key in old(seen)
      ensures forall k :: k in seen <==> k == key || k in old(seen)
    {
      dup := key in seen;
      seen := seen + {key};
    }

    method Unmark(key: string)
      modifies this`seen
      ensures forall k :: k in seen <==> k != key && k in old(seen)
    {
      seen := seen - {key};
    }

    /** Submit; `appendFails` is what the log answers. A failed append leaves no trace. */
    method Submit(rec: Record, appendFails: bool) returns (accepted: bool, failed: bool)
      modifies this
      ensures Resolve(reg, rec).None? ==> !accepted && failed && log == old(log) && seen == old(seen)
      ensures Resolve(reg, rec).Some? && rec.idem != "" && KeyOf(rec) in old(seen) ==>
                !accepted && !failed && log == old(log) && seen == old(seen)
      ensures Resolve(reg, rec).Some? && (rec.idem == "" || KeyOf(rec) !in old(seen)) ==>
                accepted == !appendFails && failed == appendFails
                && log == (if appendFails then old(log) else old(log) + [rec])
                && seen == (if appendFails || rec.idem == "" then old(seen) else old(seen) + {KeyOf(rec)})
    {
      if Resolve(reg, rec).None? {
        return false, true;
      }
      if rec.idem != "" {
        var dup := SeenOrMark(KeyOf(rec));
        if dup {
          assert seen == old(seen);
          return false, false;
        }
      }
      if appendFails {
        if rec.idem != "" {
          Unmark(KeyOf(rec));
        }
        assert seen == old(seen);
        return false, true;
      }
      log := log + [rec];
      return true, false;
    }
  }

  // ---------------------------------------------------------------- many callers

  datatype Phase =
    | Begun(rec: Record)
    | Reserved(rec: Record)
    | RollingBack(rec: Record)
    | Accepted(rec: Record, at: nat)
    | Duplicate(rec: Record)
    | Failed(rec: Record)
    | Abandoned(rec: Record)

  /** `lost` are the log positions of appends that were stored although the caller saw a failure. */
  datatype State = State(marks: set<string>, log: seq<Record>, lost: set<nat>, callers: map<nat, Phase>)

  const INIT: State := State({}, [], {}, map[])

  datatype Step =
    | Begin(c: nat, rec: Record)
    | Mark(c: nat)
    | Append(c: nat)
    | AppendFails(c: nat)
    | AppendLost(c: nat)
    | Unmark(c: nat)
    | Crash(c: nat)

  predicate Enabled(st: State, step: Step) {
    match step
    case Begin(c, rec) => c !in st.callers
    case Mark(c) => c in st.callers && st.callers[c].Begun?
    case Append(c) => c in st.callers && st.callers[c].Reserved?
    case AppendFails(c) => c in st.callers && st.callers[c].Reserved?
    case AppendLost(c) => c in st.callers && st.callers[c].Reserved?
    case Unmark(c) => c in st.callers && st.callers[c].RollingBack?
    case Crash(c) => c in st.callers && (st.callers[c].Begun? || st.callers[c].Reserved? || st.callers[c].RollingBack?)
  }

  function Put(st: State, c: nat, ph: Phase): State { st.(callers := st.callers[c := ph]) }

  /** A caller that holds its key's reservation: no one else can reserve or release it. */
  predicate Holds(ph: Phase) { (ph.Reserved? || ph.RollingBack?) && ph.rec.idem != "" }

  function Do(reg: Registry, st: State, step: Step): State
    requires Enabled(st, step)
  {
    match step
    case Begin(c, rec) => Put(st, c, if Resolve(reg, rec).Some? then Begun(rec) else Failed(rec))
    case Mark(c) =>
      var rec := st.callers[c].rec;
      if rec.idem == "" then Put(st, c, Reserved(rec))
      else if KeyOf(rec) in st.marks then Put(st, c, Duplicate(rec))
      else Put(st, c, Reserved(rec)).(marks := st.marks + {KeyOf(rec)})
    case Append(c) =>
      var rec := st.callers[c].rec;
      Put(st, c, Accepted(rec, |st.log|)).(log := st.log + [rec])
    case AppendFails(c) =>
      var rec := st.callers[c].rec;
      Put(st, c, if rec.idem == "" then Failed(rec) else RollingBack(rec))
    // the entry is stored but the caller sees an error
    case AppendLost(c) =>
      var rec := st.callers[c].rec;
      Put(st, c, if rec.idem == "" then Failed(rec) else RollingBack(rec))
        .(log := st.log + [rec], lost := st.lost + {|st.log|})
    case Unmark(c) =>
      var rec := st.callers[c].rec;
      Put(st, c, Failed(rec)).(marks := st.marks - {KeyOf(rec)})
    case Crash(c) =>
      var ph := st.callers[c];
      Put(st, c, if Holds(ph) then Abandoned(ph.rec) else Failed(ph.rec))
  }

  function RunFrom(reg: Registry, st: State, steps: seq<Step>): Option<State>
    decreases |steps|
  {
    if steps == [] then Some(st)
    else if Enabled(st, steps[0]) then RunFrom(reg, Do(reg, st, steps[0]), steps[1..])
    else None
  }

  // ---------------------------------------------------------------- who a reservation belongs to

  /** A caller that reserved its key and did not release it: it holds the key, was accepted with it, or
      crashed while holding it. */
  predicate Claims(ph: Phase) { Holds(ph) || ((ph.Accepted? || ph.Abandoned?) && ph.rec.idem != "") }

  ghost predicate ClaimedBy(st: State, key: string, c: nat) {
    c in st.callers && Claims(st.callers[c]) && KeyOf(st.callers[c].rec) == key
  }

  /** Log entry i was appended by caller c, which was answered so. */
  ghost predicate AcceptedAt(st: State, c: nat, i: nat) {
    c in st.callers && st.callers[c].Accepted? && st.callers[c].at == i
  }

  /** Log entry i belongs to a key. */
  predicate Keyed(log: seq<Record>, i: nat, key: string) { i < |log| && log[i].idem != "" && KeyOf(log[i]) == key }

  /** Every reservation has exactly one claimant. */
  ghost predicate MarksInv(st: State) {
    && (forall key :: key in st.marks <==> exists c :: ClaimedBy(st, key, c))
    && (forall key, c, d :: ClaimedBy(st, key, c) && ClaimedBy(st, key, d) ==> c == d)
    && (forall c :: c in st.callers && st.callers[c].RollingBack? ==> st.callers[c].rec.idem != "")
  }

  /** Log entries come from accepted callers or lost appends, and only a key's last one from the former. */
  ghost predicate LogInv(st: State) {
    && (forall c :: c in st.callers && st.callers[c].Accepted? ==>
          var at := st.callers[c].at;
          at < |st.log| && st.log[at] == st.callers[c].rec && at !in st.lost)
    && (forall i :: i in st.lost ==> i < |st.log|)
    && (forall i, key :: Keyed(st.log, i, key) && i !in st.lost ==> exists c :: AcceptedAt(st, c, i))
    && (forall i, j, key :: i < j && Keyed(st.log, i, key) && Keyed(st.log, j, key) ==> i in st.lost)
  }

  ghost predicate Inv(st: State) { MarksInv(st) && LogInv(st) }

  lemma InitInv()
    ensures Inv(INIT)
  {
  }

  lemma MarksStep(reg: Registry, st: State, step: Step)
    requires MarksInv(st) && Enabled(st, step)
    ensures MarksInv(Do(reg, st, step))
  {
    hide KeyOf, Resolve;
    var next := Do(reg, st, step);
    match step
    case Begin(c, rec) => SameClaims(st, next);
    case Mark(c) => MarkKeeps(reg, st, c);
    case Append(c) => SameClaims(st, next);
    case AppendFails(c) => SameClaims(st, next);
    case AppendLost(c) => SameClaims(st, next);
    case Unmark(c) => UnmarkKeeps(reg, st, c);
    case Crash(c) => SameClaims(st, next);
  }

  lemma SameClaims(st: State, next: State)
    requires MarksInv(st) && next.marks == st.marks
    requires forall c, key :: ClaimedBy(next, key, c) <==> ClaimedBy(st, key, c)
    requires forall c :: c in next.callers && next.callers[c].RollingBack? ==> next.callers[c].rec.idem != ""
    ensures MarksInv(next)
  {
    hide ClaimedBy;
  }

  lemma MarkKeeps(reg: Registry, st: State, c: nat)
    requires MarksInv(st) && Enabled(st, Mark(c))
    ensures MarksInv(Do(reg, st, Mark(c)))
  {
    hide KeyOf;
    var next := Do(reg, st, Mark(c));
    var rec := st.callers[c].rec;
    assert forall d, key :: d != c ==> (ClaimedBy(next, key, d) <==> ClaimedBy(st, key, d));
    assert forall key :: !ClaimedBy(st, key, c);
    if rec.idem == "" || KeyOf(rec) in st.marks {
      SameClaims(st, next);
    } else {
      assert ClaimedBy(next, KeyOf(rec), c);
      forall key
        ensures key in next.marks <==> exists d :: ClaimedBy(next, key, d)
      {
        if key in st.marks {
          var d :| ClaimedBy(st, key, d);
          assert ClaimedBy(next, key, d);
        }
      }
    }
  }

  lemma UnmarkKeeps(reg: Registry, st: State, c: nat)
    requires MarksInv(st) && Enabled(st, Step.Unmark(c))
    ensures MarksInv(Do(reg, st, Step.Unmark(c)))
  {
    hide KeyOf;
    var next := Do(reg, st, Step.Unmark(c));
    var k := KeyOf(st.callers[c].rec);
    assert ClaimedBy(st, k, c);
    assert forall d, key :: ClaimedBy(next, key, d) <==> d != c && ClaimedBy(st, key, d);
    forall key
      ensures key in next.marks <==> exists d :: ClaimedBy(next, key, d)
    {
      if key in next.marks {
        var d :| ClaimedBy(st, key, d);
        assert ClaimedBy(next, key, d);
      }
    }
  }

  lemma LogStep(reg: Registry, st: State, step: Step)
    requires Inv(st) && Enabled(st, step)
    ensures LogInv(Do(reg, st, step))
  {
    hide KeyOf, Resolve, MarksInv;
    if step.Append? || step.AppendLost? {
      StoredKeeps(reg, st, step);
    } else {
      var next := Do(reg, st, step);
      assert forall c, i :: AcceptedAt(next, c, i) <==> AcceptedAt(st, c, i);
    }
  }

  lemma StoredKeeps(reg: Registry, st: State, step: Step)
    requires Inv(st) && Enabled(st, step) && (step.Append? || step.AppendLost?)
    ensures LogInv(Do(reg, st, step))
  {
    hide KeyOf, Resolve, MarksInv;
    var next, n, rec := Do(reg, st, step), |st.log|, st.callers[step.c].rec;
    assert forall i: nat, key :: i < n ==> (Keyed(next.log, i, key) <==> Keyed(st.log, i, key));
    assert forall c, i: nat :: i < n ==> (AcceptedAt(next, c, i) <==> AcceptedAt(st, c, i));
    assert step.Append? ==> AcceptedAt(next, step.c, n);
    forall i: nat, key | i < n && Keyed(next.log, i, key) && Keyed(next.log, n, key)
      ensures i in st.lost
    {
      EarlierIsLost(st, step.c, i);
    }
  }

  /** While a caller is reserved, earlier entries of its key are from lost appends. */
  lemma EarlierIsLost(st: State, c: nat, i: nat)
    requires Inv(st) && c in st.callers && st.callers[c].Reserved? && st.callers[c].rec.idem != ""
    requires Keyed(st.log, i, KeyOf(st.callers[c].rec))
    ensures i in st.lost
  {
    hide KeyOf;
    var k := KeyOf(st.callers[c].rec);
    assert ClaimedBy(st, k, c);
    assert forall d :: AcceptedAt(st, d, i) ==> ClaimedBy(st, k, d);
  }

  lemma InvStep(reg: Registry, st: State, step: Step)
    requires Inv(st) && Enabled(st, step)
    ensures Inv(Do(reg, st, step))
  {
    hide MarksInv, LogInv, Enabled, Do;
    MarksStep(reg, st, step);
    LogStep(reg, st, step);
  }

  lemma {:induction false} RunInv(reg: Registry, st: State, steps: seq<Step>)
    requires Inv(st) && RunFrom(reg, st, steps).Some?
    ensures Inv(RunFrom(reg, st, steps).value)
    decreases |steps|
  {
    hide Inv, Enabled, Do;
    if steps != [] {
      InvStep(reg, st, steps[0]);
      RunInv(reg, Do(reg, st, steps[0]), steps[1..]);
    }
  }

  // ---------------------------------------------------------------- what callers can rely on

  /** In every interleaving of submissions with failing and lost appends, rollbacks and crashes: a key has
      two records exactly when a lost append of that key was followed by another append of it, so at most
      one when it had no lost append; and accepted goes only to callers whose record is in the log. */
  lemma LoggedTwiceIff(reg: Registry, steps: seq<Step>, key: string)
    requires RunFrom(reg, INIT, steps).Some?
    ensures var st := RunFrom(reg, INIT, steps).value;
            && ((exists i, j :: i < j && Keyed(st.log, i, key) && Keyed(st.log, j, key))
                <==> exists i, j :: i in st.lost && i < j && Keyed(st.log, i, key) && Keyed(st.log, j, key))
            && (forall c :: c in st.callers && st.callers[c].Accepted? ==>
                  st.callers[c].at < |st.log| && st.log[st.callers[c].at] == st.callers[c].rec)
  {
    hide RunFrom, KeyOf, MarksInv, Keyed;
    InitInv();
    RunInv(reg, INIT, steps);
  }

  lemma AtMostOneRecord(reg: Registry, steps: seq<Step>, key: string)
    requires RunFrom(reg, INIT, steps).Some?
    requires var st := RunFrom(reg, INIT, steps).value;
             forall i :: i in st.lost ==> !Keyed(st.log, i, key)
    ensures var st := RunFrom(reg, INIT, steps).value;
            forall i, j :: Keyed(st.log, i, key) && Keyed(st.log, j, key) ==> i == j
  {
    hide RunFrom, KeyOf, Keyed;
    LoggedTwiceIff(reg, steps, key);
  }

  /** A key has a record exactly when some caller was accepted with it or an append of it was lost: this
      is what a duplicate answer is worth. */
  lemma RecordedIff(reg: Registry, steps: seq<Step>, key: string)
    requires RunFrom(reg, INIT, steps).Some?
    ensures var st := RunFrom(reg, INIT, steps).value;
            (exists i :: Keyed(st.log, i, key))
            <==> (exists c :: ClaimedBy(st, key, c) && st.callers[c].Accepted?)
                 || (exists i :: i in st.lost && Keyed(st.log, i, key))
  {
    hide RunFrom, KeyOf, MarksInv;
    InitInv();
    RunInv(reg, INIT, steps);
    var st := RunFrom(reg, INIT, steps).value;
    if c :| ClaimedBy(st, key, c) && st.callers[c].Accepted? {
      assert Keyed(st.log, st.callers[c].at, key);
    }
    if i :| Keyed(st.log, i, key) && i !in st.lost {
      var c :| AcceptedAt(st, c, i);
      assert ClaimedBy(st, key, c);
    }
  }

  /** When nobody holds a key and no append of it was lost: it is reserved without a record, so that every
      retry is answered duplicate, exactly when a caller crashed while holding it. */
  lemma StuckIff(reg: Registry, steps: seq<Step>, key: string)
    requires RunFrom(reg, INIT, steps).Some?
    requires var st := RunFrom(reg, INIT, steps).value;
             && (forall i :: i in st.lost ==> !Keyed(st.log, i, key))
             && (forall c :: ClaimedBy(st, key, c) ==> !Holds(st.callers[c]))
    ensures var st := RunFrom(reg, INIT, steps).value;
            (key in st.marks && forall i :: !Keyed(st.log, i, key))
            <==> exists c :: ClaimedBy(st, key, c) && st.callers[c].Abandoned?
  {
    hide RunFrom, KeyOf, Keyed;
    InitInv();
    RunInv(reg, INIT, steps);
    RecordedIff(reg, steps, key);
    var st := RunFrom(reg, INIT, steps).value;
    if key in st.marks {
      var c :| ClaimedBy(st, key, c);
      assert st.callers[c].Accepted? || st.callers[c].Abandoned?;
    }
  }

  /** Two submissions of one record: the second loses to a reservation that is then rolled back. */
  function LosingRace(rec: Record): seq<Step> {
    [Begin(0, rec)] + ([Begin(1, rec)] + ([Mark(0)] + ([Mark(1)] + ([AppendFails(0)] + ([Step.Unmark(0)] + [])))))
  }

  lemma LosingRaceMarked(reg: Registry, rec: Record)
    requires Resolve(reg, rec).Some? && rec.idem != ""
    ensures RunFrom(reg, INIT, LosingRace(rec))
            == RunFrom(reg, State({KeyOf(rec)}, [], {}, map[0 := Reserved(rec), 1 := Duplicate(rec)]),
                       [AppendFails(0)] + ([Step.Unmark(0)] + []))
  {
    hide RunFrom, KeyOf, Resolve;
    var k := KeyOf(rec);
    var s1 := State({}, [], {}, map[0 := Begun(rec)]);
    var s2 := State({}, [], {}, map[0 := Begun(rec), 1 := Begun(rec)]);
    var s3 := State({k}, [], {}, map[0 := Reserved(rec), 1 := Begun(rec)]);
    var s4 := State({k}, [], {}, map[0 := Reserved(rec), 1 := Duplicate(rec)]);
    assert Do(reg, INIT, Begin(0, rec)) == s1;
    assert Do(reg, s1, Begin(1, rec)) == s2;
    assert Do(reg, s2, Mark(0)) == s3;
    assert Do(reg, s3, Mark(1)) == s4;
    var r4 := [AppendFails(0)] + ([Step.Unmark(0)] + []);
    RunStep(reg, INIT, Begin(0, rec), [Begin(1, rec)] + ([Mark(0)] + ([Mark(1)] + r4)));
    RunStep(reg, s1, Begin(1, rec), [Mark(0)] + ([Mark(1)] + r4));
    RunStep(reg, s2, Mark(0), [Mark(1)] + r4);
    RunStep(reg, s3, Mark(1), r4);
  }

  /** A duplicate answer does not mean the record is in the log: the reservation it lost to may be
      rolled back afterwards. */
  lemma DuplicateWithoutRecord(reg: Registry, rec: Record)
    requires Resolve(reg, rec).Some? && rec.idem != ""
    ensures var st := RunFrom(reg, INIT, LosingRace(rec));
            st.Some? && Lookup(st.value.callers, 1) == Some(Duplicate(rec)) && st.value.log == []
  {
    hide RunFrom, KeyOf, Resolve, LosingRace;
    LosingRaceMarked(reg, rec);
    var k := KeyOf(rec);
    var s4 := State({k}, [], {}, map[0 := Reserved(rec), 1 := Duplicate(rec)]);
    var s5 := State({k}, [], {}, map[0 := RollingBack(rec), 1 := Duplicate(rec)]);
    var s6 := State({}, [], {}, map[0 := Failed(rec), 1 := Duplicate(rec)]);
    assert Do(reg, s4, AppendFails(0)) == s5;
    assert Do(reg, s5, Step.Unmark(0)) == s6;
    RunStep(reg, s4, AppendFails(0), [Step.Unmark(0)] + []);
    RunStep(reg, s5, Step.Unmark(0), []);
    RunNone(reg, s6);
  }

  lemma RunStep(reg: Registry, st: State, step: Step, rest: seq<Step>)
    requires Enabled(st, step)
    ensures RunFrom(reg, st, [step] + rest) == RunFrom(reg, Do(reg, st, step), rest)
  {
    assert ([step] + rest)[1..] == rest;
  }

  lemma RunNone(reg: Registry, st: State)
    ensures RunFrom(reg, st, []) == Some(st)
  {
  }

  /** A record stored by an append that reports failure, and the retry after the rollback. */
  function LostAppend(rec: Record): seq<Step> {
    [Begin(0, rec)] + ([Mark(0)] + ([AppendLost(0)] + ([Step.Unmark(0)] + Retry(rec))))
  }

  function Retry(rec: Record): seq<Step> { [Begin(1, rec)] + ([Mark(1)] + ([Append(1)] + [])) }

  lemma LostAppendRolledBack(reg: Registry, rec: Record)
    requires Resolve(reg, rec).Some? && rec.idem != ""
    ensures RunFrom(reg, INIT, LostAppend(rec))
            == RunFrom(reg, State({}, [rec], {0}, map[0 := Failed(rec)]), Retry(rec))
  {
    hide RunFrom, KeyOf, Resolve, Retry;
    var k := KeyOf(rec);
    var s1 := State({}, [], {}, map[0 := Begun(rec)]);
    var s2 := State({k}, [], {}, map[0 := Reserved(rec)]);
    var s3 := State({k}, [rec], {0}, map[0 := RollingBack(rec)]);
    var s4 := State({}, [rec], {0}, map[0 := Failed(rec)]);
    assert Do(reg, INIT, Begin(0, rec)) == s1;
    assert Do(reg, s1, Mark(0)) == s2;
    assert Do(reg, s2, AppendLost(0)) == s3;
    assert Do(reg, s3, Step.Unmark(0)) == s4;
    var r4 := Retry(rec);
    RunStep(reg, INIT, Begin(0, rec), [Mark(0)] + ([AppendLost(0)] + ([Step.Unmark(0)] + r4)));
    RunStep(reg, s1, Mark(0), [AppendLost(0)] + ([Step.Unmark(0)] + r4));
    RunStep(reg, s2, AppendLost(0), [Step.Unmark(0)] + r4);
    RunStep(reg, s3, Step.Unmark(0), r4);
  }

  /** If an append can be stored although it reports failure, a retry logs the record twice. */
  lemma LostAppendDuplicates(reg: Registry, rec: Record)
    requires Resolve(reg, rec).Some? && rec.idem != ""
    ensures var st := RunFrom(reg, INIT, LostAppend(rec));
            st.Some? && st.value.log == [rec, rec]
  {
    hide RunFrom, KeyOf, Resolve, LostAppend;
    LostAppendRolledBack(reg, rec);
    var k := KeyOf(rec);
    var s4 := State({}, [rec], {0}, map[0 := Failed(rec)]);
    var s5 := State({}, [rec], {0}, map[0 := Failed(rec), 1 := Begun(rec)]);
    var s6 := State({k}, [rec], {0}, map[0 := Failed(rec), 1 := Reserved(rec)]);
    var s7 := State({k}, [rec, rec], {0}, map[0 := Failed(rec), 1 := Accepted(rec, 1)]);
    assert Do(reg, s4, Begin(1, rec)) == s5;
    assert Do(reg, s5, Mark(1)) == s6;
    assert Do(reg, s6, Append(1)) == s7;
    RunStep(reg, s4, Begin(1, rec), [Mark(1)] + ([Append(1)] + []));
    RunStep(reg, s5, Mark(1), [Append(1)] + []);
    RunStep(reg, s6, Append(1), []);
    RunNone(reg, s7);
  }
}
