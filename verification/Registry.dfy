/** Concurrent use of the Redis player registry (pkg/users/redisstore.go): every snapshot read and
    every script is a step of its own, any number of calls interleave, and the outcome is that of the
    in-memory store (pkg/users/memstore.go) run one operation at a time. */
module Registry {
  import opened Basics
  import opened Players

  const MAX_ATTEMPTS: nat := 32

  /** One lost attempt: the event log was at `readAt` when the snapshot was taken and at `scriptAt`
      when the script found it stale; event number `event` is the move that made it so. */
  datatype Charge = Charge(readAt: nat, event: nat, scriptAt: nat)

  datatype Call =
    | Started(op: Op, charges: seq<Charge>)
    | Snapshot(op: Op, oldKey: string, readAt: nat, charges: seq<Charge>)
    | Finished(op: Op, outcome: Outcome, charges: seq<Charge>)

  /** A linearised call: what it did and what it answered. */
  datatype Lin = Lin(call: nat, op: Op, outcome: Outcome)

  /** `reg` is the real state. `lin` records the calls in the order they took effect, and `events` the
      players whose nickname claim a successful rename moved or a delete released. */
  datatype State = State(reg: Reg, calls: map<nat, Call>, lin: seq<Lin>, events: seq<string>)

  const INIT: State := State(EMPTY_REG, map[], [], [])

  datatype Step =
    | Invoke(c: nat, op: Op)
    | Read(c: nat)
    | Script(c: nat)

  predicate Enabled(st: State, step: Step) {
    match step
    case Invoke(c, op) => c !in st.calls
    case Read(c) => c in st.calls && st.calls[c].Started? && !st.calls[c].op.Create?
    case Script(c) =>
      c in st.calls && ((st.calls[c].Started? && st.calls[c].op.Create?) || st.calls[c].Snapshot?)
  }

  /** A call takes effect and answers. */
  function Finish(st: State, c: nat, op: Op, reg: Reg, outcome: Outcome, charges: seq<Charge>): State {
    st.(reg := reg, calls := st.calls[c := Finished(op, outcome, charges)], lin := st.lin + [Lin(c, op, outcome)])
  }

  /** A stale script: charge the attempt to an interfering event, then retry or give up. */
  ghost function Stale(st: State, c: nat): State
    requires c in st.calls && st.calls[c].Snapshot?
  {
    var call := st.calls[c];
    var e := Culprit(st, call);
    var charges := call.charges + [Charge(call.readAt, e, |st.events|)];
    if |charges| < MAX_ATTEMPTS then st.(calls := st.calls[c := Started(call.op, charges)])
    else st.(calls := st.calls[c := Finished(call.op, Contention, charges)])
  }

  /** An event about the player since the snapshot, if there is one. */
  ghost function Culprit(st: State, call: Call): nat
    requires call.Snapshot?
  {
    if exists i: nat :: call.readAt <= i < |st.events| && st.events[i] == Target(call.op) then
      var i: nat :| call.readAt <= i < |st.events| && st.events[i] == Target(call.op); i
    else 0
  }

  function Target(op: Op): string { if op.Create? then "" else op.id }

  ghost function Do(tx: Text, st: State, step: Step): State
    requires Enabled(st, step)
  {
    match step
    case Invoke(c, op) => st.(calls := st.calls[c := Started(op, [])])
    case Read(c) => DoRead(tx, st, c)
    case Script(c) => DoScript(tx, st, c)
  }

  /** Get, and the normalisation of what it returned. */
  function DoRead(tx: Text, st: State, c: nat): State
    requires Enabled(st, Read(c))
  {
    var call := st.calls[c];
    var op := call.op;
    if op.Rename? && tx.Nickname(op.nickname).None? then Finish(st, c, op, st.reg, InvalidNickname, call.charges)
    else if op.id !in st.reg.recs then
      Finish(st, c, op, st.reg, if op.Rename? then NotFound else Deleted, call.charges)
    else
      match tx.Nickname(st.reg.recs[op.id])
      case None => Finish(st, c, op, st.reg, InvalidNickname, call.charges)
      case Some((_, oldKey)) => st.(calls := st.calls[c := Snapshot(op, oldKey, |st.events|, call.charges)])
  }

  ghost function DoScript(tx: Text, st: State, c: nat): State
    requires Enabled(st, Script(c))
  {
    var call := st.calls[c];
    match call.op
    case Create(nickname, member, minted) =>
      (match (tx.Nickname(nickname), CreateId(tx, call.op))
       case (None, _) => Finish(st, c, call.op, st.reg, InvalidNickname, call.charges)
       case (_, None) => Finish(st, c, call.op, st.reg, InvalidMember, call.charges)
       case (Some((display, key)), Some(id)) =>
         var (reg, code) := CreateScript(st.reg, key, id, display);
         Finish(st, c, call.op, reg,
                if code == 0 then NicknameTaken else if code == -2 then MemberTaken else Registered(id, display),
                call.charges))
    case Rename(id, nickname) =>
      (match tx.Nickname(nickname)
       case None => Finish(st, c, call.op, st.reg, InvalidNickname, call.charges)
       case Some((display, key)) =>
         if call.Snapshot? then
           var (reg, code) := RenameScript(st.reg, key, call.oldKey, id, display);
           if code == -1 then Stale(st, c)
           else if code == 0 then Finish(st, c, call.op, reg, NicknameTaken, call.charges)
           else Note(Finish(st, c, call.op, reg, Registered(id, display), call.charges), key != call.oldKey, id)
         else st)
    case Delete(id) =>
      if call.Snapshot? then
        var (reg, code) := DeleteScript(st.reg, call.oldKey, id);
        if code == -1 then Stale(st, c)
        else Note(Finish(st, c, call.op, reg, Deleted, call.charges), id in st.reg.recs, id)
      else st
  }

  function Note(st: State, moved: bool, id: string): State {
    if moved then st.(events := st.events + [id]) else st
  }

  ghost function Run(tx: Text, steps: seq<Step>): Option<State> {
    if steps == [] then Some(INIT)
    else
      match Run(tx, steps[..|steps| - 1])
      case None => None
      case Some(st) => if Enabled(st, Last(steps)) then Some(Do(tx, st, Last(steps))) else None
  }

  // ---------------------------------------------------------------- the sequential execution

  /** The in-memory store after the linearised operations, one at a time. */
  function MemRun(tx: Text, lin: seq<Lin>): Mem {
    if lin == [] then NO_PLAYERS else MemStep(tx, MemRun(tx, lin[..|lin| - 1]), Last(lin).op).0
  }

  /** Each answered what the in-memory store answers at that point. */
  predicate Agrees(tx: Text, lin: seq<Lin>) {
    lin == [] || (Agrees(tx, lin[..|lin| - 1])
                  && MemStep(tx, MemRun(tx, lin[..|lin| - 1]), Last(lin).op).1 == Last(lin).outcome)
  }

  function Abs(r: Reg): Mem { Mem(r.recs, r.nick) }

  /** Records, display names and nickname claims in one-to-one correspondence. */
  ghost predicate RegInv(tx: Text, r: Reg) {
    r.names == r.recs && MemInv(tx, Abs(r))
  }

  /** Every answered call that took effect is linearised once, with its own answer. */
  ghost predicate Linearised(st: State) {
    && (forall i :: 0 <= i < |st.lin| ==>
          var l := st.lin[i];
          l.call in st.calls && st.calls[l.call].Finished?
          && st.calls[l.call].op == l.op && st.calls[l.call].outcome == l.outcome)
    && (forall i, j :: 0 <= i < j < |st.lin| ==> st.lin[i].call != st.lin[j].call)
    && (forall c :: c in st.calls && st.calls[c].Finished? && st.calls[c].outcome != Contention ==>
          Lin(c, st.calls[c].op, st.calls[c].outcome) in st.lin)
  }

  ghost predicate ChargesInv(st: State, call: Call) {
    && (forall i :: 0 <= i < |call.charges| ==>
          var ch := call.charges[i];
          ch.readAt <= ch.event < ch.scriptAt <= |st.events| && st.events[ch.event] == Target(call.op))
    && (forall i, j :: 0 <= i < j < |call.charges| ==> call.charges[i].scriptAt <= call.charges[j].readAt)
    && (!call.Finished? ==> |call.charges| < MAX_ATTEMPTS)
    && (call.Finished? && call.outcome == Contention ==> |call.charges| == MAX_ATTEMPTS)
    && (call.Snapshot? ==>
          && !call.op.Create? && call.readAt <= |st.events|
          && (forall i :: 0 <= i < |call.charges| ==> call.charges[i].scriptAt <= call.readAt)
          && (Untouched(st, call) ==> Lookup(st.reg.nick, call.oldKey) == Some(Target(call.op))))
  }

  /** No event about the player since the snapshot. */
  ghost predicate Untouched(st: State, call: Call)
    requires call.Snapshot?
  {
    forall i: nat :: call.readAt <= i < |st.events| ==> st.events[i] != Target(call.op)
  }

  ghost predicate Inv(tx: Text, st: State) {
    && RegInv(tx, st.reg)
    && Agrees(tx, st.lin) && MemRun(tx, st.lin) == Abs(st.reg)
    && Linearised(st)
    && forall c :: c in st.calls ==> ChargesInv(st, st.calls[c])
  }

  // ---------------------------------------------------------------- a call taking effect

  lemma FinishLinearised(st: State, c: nat, op: Op, reg: Reg, outcome: Outcome, charges: seq<Charge>)
    requires Linearised(st) && c in st.calls && !st.calls[c].Finished? && outcome != Contention
    ensures Linearised(Finish(st, c, op, reg, outcome, charges))
  {
    var next := Finish(st, c, op, reg, outcome, charges);
    forall i | 0 <= i < |st.lin|
      ensures st.lin[i].call != c
    {
    }
    assert Last(next.lin) in next.lin;
  }

  lemma FinishMem(tx: Text, st: State, c: nat, op: Op, reg: Reg, outcome: Outcome, charges: seq<Charge>)
    requires Agrees(tx, st.lin) && MemRun(tx, st.lin) == Abs(st.reg)
    requires MemStep(tx, Abs(st.reg), op) == (Abs(reg), outcome)
    ensures var next := Finish(st, c, op, reg, outcome, charges);
            Agrees(tx, next.lin) && MemRun(tx, next.lin) == Abs(next.reg)
  {
    hide MemStep;
    var next := Finish(st, c, op, reg, outcome, charges);
    assert next.lin[..|st.lin|] == st.lin && Last(next.lin) == Lin(c, op, outcome);
  }

  /** The script of a create does what the in-memory create does. */
  lemma CreateMatches(tx: Text, r: Reg, op: Op)
    requires RegInv(tx, r) && op.Create? && tx.Nickname(op.nickname).Some? && CreateId(tx, op).Some?
    ensures var (display, key) := tx.Nickname(op.nickname).value;
            var id := CreateId(tx, op).value;
            var (reg, code) := CreateScript(r, key, id, display);
            && RegInv(tx, reg)
            && MemStep(tx, Abs(r), op)
               == (Abs(reg), if code == 0 then NicknameTaken else if code == -2 then MemberTaken else Registered(id, display))
  {
    MemStepKeeps(tx, Abs(r), op);
    hide MemInv;
  }

  /** A claim leads to a record whose nickname has that key. */
  lemma HolderOf(tx: Text, r: Reg, key: string)
    requires RegInv(tx, r) && key in r.nick
    ensures r.nick[key] in r.recs && KeyOf(tx, r.recs[r.nick[key]]) == key
  {
    hide KeyOf;
  }

  /** A rename script that is not stale does what the in-memory rename does. */
  lemma RenameMatches(tx: Text, r: Reg, op: Op, oldKey: string)
    requires RegInv(tx, r) && op.Rename? && tx.Nickname(op.nickname).Some? && Lookup(r.nick, oldKey) == Some(op.id)
    ensures var (display, key) := tx.Nickname(op.nickname).value;
            var (reg, code) := RenameScript(r, key, oldKey, op.id, display);
            && RegInv(tx, reg) && op.id in r.recs && KeyOf(tx, r.recs[op.id]) == oldKey
            && (code == 0 || code == 1)
            && MemStep(tx, Abs(r), op) == (Abs(reg), if code == 0 then NicknameTaken else Registered(op.id, display))
  {
    hide KeyOf, MemInv;
    var (display, key) := tx.Nickname(op.nickname).value;
    HolderOf(tx, r, oldKey);
    MemStepKeeps(tx, Abs(r), op);
    if key != oldKey {
      assert r.nick[key := op.id] - {oldKey} == (r.nick - {oldKey})[key := op.id];
    }
  }

  lemma DeleteMatches(tx: Text, r: Reg, op: Op, oldKey: string)
    requires RegInv(tx, r) && op.Delete? && (op.id in r.recs ==> Lookup(r.nick, oldKey) == Some(op.id))
    ensures var (reg, code) := DeleteScript(r, oldKey, op.id);
            && RegInv(tx, reg) && code == 1
            && MemStep(tx, Abs(r), op) == (Abs(reg), Deleted)
  {
    if op.id in r.recs {
      assert r.nick[oldKey] == op.id;
      assert KeyOf(tx, r.recs[op.id]) == oldKey;
    }
    MemStepKeeps(tx, Abs(r), op);
  }

  // ---------------------------------------------------------------- charges

  /** A snapshot that is not up to date any more has a culprit. */
  lemma StaleHasCulprit(st: State, call: Call)
    requires call.Snapshot? && ChargesInv(st, call) && Lookup(st.reg.nick, call.oldKey) != Some(Target(call.op))
    ensures var e := Culprit(st, call);
            call.readAt <= e < |st.events| && st.events[e] == Target(call.op)
  {
    assert !Untouched(st, call);
  }

  lemma LinearisedStays(st: State, c: nat, call: Call)
    requires Linearised(st) && (c in st.calls ==> !st.calls[c].Finished?)
    requires call.Finished? ==> call.outcome == Contention
    ensures Linearised(st.(calls := st.calls[c := call]))
  {
  }

  /** Replacing a call that has not taken effect keeps the invariant, whatever becomes of it. */
  lemma OneCall(tx: Text, st: State, c: nat, call: Call)
    requires Inv(tx, st) && (c in st.calls ==> !st.calls[c].Finished?)
    requires ChargesInv(st, call) && (call.Finished? ==> call.outcome == Contention)
    ensures Inv(tx, st.(calls := st.calls[c := call]))
  {
    hide Agrees, RegInv, MemRun, ChargesInv, Linearised;
    var next := st.(calls := st.calls[c := call]);
    LinearisedStays(st, c, call);
    forall d | d in next.calls
      ensures ChargesInv(next, next.calls[d])
    {
      assert ChargesInv(st, next.calls[d]);
      SameUntouched(st, next, next.calls[d]);
    }
  }

  lemma StaleCharges(st: State, c: nat)
    requires c in st.calls && st.calls[c].Snapshot? && ChargesInv(st, st.calls[c])
    requires Lookup(st.reg.nick, st.calls[c].oldKey) != Some(Target(st.calls[c].op))
    ensures ChargesInv(st, Stale(st, c).calls[c])
  {
    hide Culprit, Untouched;
    StaleHasCulprit(st, st.calls[c]);
  }

  lemma StaleKeeps(tx: Text, st: State, c: nat)
    requires Inv(tx, st) && c in st.calls && st.calls[c].Snapshot?
    requires Lookup(st.reg.nick, st.calls[c].oldKey) != Some(Target(st.calls[c].op))
    ensures Inv(tx, Stale(st, c))
  {
    hide Agrees, RegInv, MemRun, Culprit, ChargesInv, Linearised;
    StaleCharges(st, c);
    OneCall(tx, st, c, Stale(st, c).calls[c]);
  }

  lemma SameUntouched(st: State, next: State, call: Call)
    requires ChargesInv(st, call) && next.events == st.events && next.reg == st.reg
    ensures ChargesInv(next, call)
  {
    if call.Snapshot? {
      assert Untouched(next, call) <==> Untouched(st, call);
    }
  }

  /** Another call's charges survive a change of one player's claim, provided the change is noted. */
  lemma ChargesSurvive(st: State, next: State, call: Call, id: string, moved: bool)
    requires ChargesInv(st, call)
    requires next.events == if moved then st.events + [id] else st.events
    requires forall key, x :: x != id || !moved ==> (Lookup(st.reg.nick, key) == Some(x) ==> Lookup(next.reg.nick, key) == Some(x))
    ensures ChargesInv(next, call)
  {
    if call.Snapshot? {
      if Untouched(next, call) {
        forall i: nat | call.readAt <= i < |st.events|
          ensures st.events[i] != Target(call.op)
        {
          assert next.events[i] == st.events[i];
        }
        assert Untouched(st, call);
        if moved && Target(call.op) == id {
          assert next.events[|st.events|] == id;
        }
      }
    }
  }

  // ---------------------------------------------------------------- steps

  lemma FinishKeeps(tx: Text, st: State, c: nat, reg: Reg, outcome: Outcome, id: string, moved: bool)
    requires Inv(tx, st) && c in st.calls && !st.calls[c].Finished? && outcome != Contention
    requires RegInv(tx, reg) && MemStep(tx, Abs(st.reg), st.calls[c].op) == (Abs(reg), outcome)
    requires forall key, x :: x != id || !moved ==> (Lookup(st.reg.nick, key) == Some(x) ==> Lookup(reg.nick, key) == Some(x))
    ensures Inv(tx, Note(Finish(st, c, st.calls[c].op, reg, outcome, st.calls[c].charges), moved, id))
  {
    hide MemStep, RegInv, Agrees, MemRun, ChargesInv, Linearised;
    var call := st.calls[c];
    var fin := Finish(st, c, call.op, reg, outcome, call.charges);
    var next := Note(fin, moved, id);
    FinishLinearised(st, c, call.op, reg, outcome, call.charges);
    NoteLinearised(fin, moved, id);
    FinishMem(tx, st, c, call.op, reg, outcome, call.charges);
    forall d | d in next.calls
      ensures ChargesInv(next, next.calls[d])
    {
      assert ChargesInv(st, st.calls[d]);
      ChargesSurvive(st, next, st.calls[d], id, moved);
      if d == c {
        FinishedCharges(next, call, outcome);
      }
    }
  }

  lemma NoteLinearised(st: State, moved: bool, id: string)
    requires Linearised(st)
    ensures Linearised(Note(st, moved, id))
  {
  }

  lemma FinishedCharges(st: State, call: Call, outcome: Outcome)
    requires ChargesInv(st, call) && outcome != Contention
    ensures ChargesInv(st, Finished(call.op, outcome, call.charges))
  {
  }

  lemma ReadKeeps(tx: Text, st: State, c: nat)
    requires Inv(tx, st) && Enabled(st, Read(c))
    ensures Inv(tx, DoRead(tx, st, c))
  {
    hide Agrees, MemRun, Linearised, ChargesInv;
    var call := st.calls[c];
    var op := call.op;
    if op.Rename? && tx.Nickname(op.nickname).None? {
      FinishKeeps(tx, st, c, st.reg, InvalidNickname, "", false);
    } else if op.id !in st.reg.recs {
      FinishKeeps(tx, st, c, st.reg, if op.Rename? then NotFound else Deleted, "", false);
    } else {
      assert tx.Nickname(Abs(st.reg).users[op.id]).Some?;
      SnapshotKeeps(tx, st, c);
    }
  }

  lemma SnapshotKeeps(tx: Text, st: State, c: nat)
    requires Inv(tx, st) && Enabled(st, Read(c)) && st.calls[c].op.id in st.reg.recs
    ensures var oldKey := KeyOf(tx, st.reg.recs[st.calls[c].op.id]);
            Inv(tx, st.(calls := st.calls[c := Snapshot(st.calls[c].op, oldKey, |st.events|, st.calls[c].charges)]))
  {
    hide Agrees, MemRun, KeyOf, MemInv, Linearised;
    var call := st.calls[c];
    var oldKey := KeyOf(tx, st.reg.recs[call.op.id]);
    assert ChargesInv(st, call);
    ClaimHeld(tx, Abs(st.reg), call.op.id);
    OneCall(tx, st, c, Snapshot(call.op, oldKey, |st.events|, call.charges));
  }

  lemma ScriptKeeps(tx: Text, st: State, c: nat)
    requires Inv(tx, st) && Enabled(st, Script(c))
    ensures Inv(tx, DoScript(tx, st, c))
  {
    hide Agrees, MemRun, Linearised, ChargesInv, RegInv, Stale;
    var call := st.calls[c];
    match call.op
    case Create(nickname, member, minted) => CreateKeeps(tx, st, c);
    case Rename(id, nickname) => RenameKeeps(tx, st, c);
    case Delete(id) => DeleteKeeps(tx, st, c);
  }

  lemma CreateKeeps(tx: Text, st: State, c: nat)
    requires Inv(tx, st) && Enabled(st, Script(c)) && st.calls[c].op.Create?
    ensures Inv(tx, DoScript(tx, st, c))
  {
    hide Agrees, MemRun, Linearised, ChargesInv, RegInv;
    var op := st.calls[c].op;
    if tx.Nickname(op.nickname).None? {
      FinishKeeps(tx, st, c, st.reg, InvalidNickname, "", false);
    } else if CreateId(tx, op).None? {
      FinishKeeps(tx, st, c, st.reg, InvalidMember, "", false);
    } else {
      var (display, key) := tx.Nickname(op.nickname).value;
      var id := CreateId(tx, op).value;
      var (reg, code) := CreateScript(st.reg, key, id, display);
      CreateMatches(tx, st.reg, op);
      FinishKeeps(tx, st, c, reg,
                  if code == 0 then NicknameTaken else if code == -2 then MemberTaken else Registered(id, display),
                  "", false);
    }
  }

  lemma RenameKeeps(tx: Text, st: State, c: nat)
    requires Inv(tx, st) && Enabled(st, Script(c)) && st.calls[c].op.Rename?
    ensures Inv(tx, DoScript(tx, st, c))
  {
    hide Agrees, MemRun, Linearised, ChargesInv, RegInv, Stale;
    var call := st.calls[c];
    var op := call.op;
    if tx.Nickname(op.nickname).None? {
      FinishKeeps(tx, st, c, st.reg, InvalidNickname, "", false);
    } else if Lookup(st.reg.nick, call.oldKey) != Some(op.id) {
      StaleKeeps(tx, st, c);
    } else {
      var (display, key) := tx.Nickname(op.nickname).value;
      var (reg, code) := RenameScript(st.reg, key, call.oldKey, op.id, display);
      RenameMatches(tx, st.reg, op, call.oldKey);
      if code == 0 {
        FinishKeeps(tx, st, c, reg, NicknameTaken, "", false);
      } else {
        FinishKeeps(tx, st, c, reg, Registered(op.id, display), op.id, key != call.oldKey);
      }
    }
  }

  lemma DeleteKeeps(tx: Text, st: State, c: nat)
    requires Inv(tx, st) && Enabled(st, Script(c)) && st.calls[c].op.Delete?
    ensures Inv(tx, DoScript(tx, st, c))
  {
    hide Agrees, MemRun, Linearised, ChargesInv, RegInv, Stale;
    var call := st.calls[c];
    var op := call.op;
    if op.id in st.reg.recs && Lookup(st.reg.nick, call.oldKey) != Some(op.id) {
      StaleKeeps(tx, st, c);
    } else {
      var (reg, code) := DeleteScript(st.reg, call.oldKey, op.id);
      DeleteMatches(tx, st.reg, op, call.oldKey);
      FinishKeeps(tx, st, c, reg, Deleted, op.id, op.id in st.reg.recs);
    }
  }

  lemma InvokeKeeps(tx: Text, st: State, c: nat, op: Op)
    requires Inv(tx, st) && Enabled(st, Invoke(c, op))
    ensures Inv(tx, Do(tx, st, Invoke(c, op)))
  {
    hide Agrees, MemRun, RegInv;
    var next := Do(tx, st, Invoke(c, op));
    forall d | d in next.calls
      ensures ChargesInv(next, next.calls[d])
    {
      if d != c {
        SameUntouched(st, next, st.calls[d]);
      }
    }
  }

  lemma {:induction false} RunInv(tx: Text, steps: seq<Step>)
    requires Run(tx, steps).Some?
    ensures Inv(tx, Run(tx, steps).value)
  {
    hide Inv, Enabled, DoRead, DoScript;
    if steps == [] {
      InitInv(tx);
    } else {
      RunInv(tx, steps[..|steps| - 1]);
      var st := Run(tx, steps[..|steps| - 1]).value;
      match Last(steps)
      case Invoke(c, op) => InvokeKeeps(tx, st, c, op);
      case Read(c) => ReadKeeps(tx, st, c);
      case Script(c) => ScriptKeeps(tx, st, c);
    }
  }

  lemma InitInv(tx: Text)
    ensures Inv(tx, INIT)
  {
  }

  // ---------------------------------------------------------------- the results

  /** Call a was answered at a moment of the run, after n steps, at which call b was not yet invoked. */
  ghost predicate AnsweredBefore(tx: Text, steps: seq<Step>, n: nat, a: nat, b: nat) {
    && n <= |steps| && Run(tx, steps[..n]).Some?
    && var st := Run(tx, steps[..n]).value;
       a in st.calls && st.calls[a].Finished? && b !in st.calls
  }

  lemma {:induction false} LinGrows(tx: Text, steps: seq<Step>, n: nat)
    requires Run(tx, steps).Some? && n <= |steps|
    ensures Run(tx, steps[..n]).Some?
    ensures var p, st := Run(tx, steps[..n]).value, Run(tx, steps).value;
            && p.lin <= st.lin
            && forall c :: c in p.calls && p.calls[c].Finished? ==> c in st.calls && st.calls[c] == p.calls[c]
  {
    if n == |steps| {
      assert steps[..n] == steps;
    } else {
      hide Enabled, Do;
      LinGrows(tx, steps[..|steps| - 1], n);
      assert steps[..|steps| - 1][..n] == steps[..n];
      StepGrows(tx, Run(tx, steps[..|steps| - 1]).value, Last(steps));
    }
  }

  lemma StepGrows(tx: Text, st: State, step: Step)
    requires Enabled(st, step)
    ensures var next := Do(tx, st, step);
            && st.lin <= next.lin
            && forall c :: c in st.calls && st.calls[c].Finished? ==> c in next.calls && next.calls[c] == st.calls[c]
  {
    hide CreateScript, RenameScript, DeleteScript, KeyOf, Culprit;
  }

  lemma {:induction false} NeverGaveUp(tx: Text, lin: seq<Lin>, i: nat)
    requires Agrees(tx, lin) && i < |lin|
    ensures lin[i].outcome != Contention
  {
    hide MemRun;
    if i < |lin| - 1 {
      NeverGaveUp(tx, lin[..|lin| - 1], i);
    }
  }

  /** Every interleaving is equivalent to running the linearised operations on the in-memory store one
      at a time: same state, same answers; each answered call appears once, unless it gave up; and a call
      answered before another is invoked comes before it. */
  lemma Linearizable(tx: Text, steps: seq<Step>)
    requires Run(tx, steps).Some?
    ensures var st := Run(tx, steps).value;
            && Agrees(tx, st.lin) && MemRun(tx, st.lin) == Abs(st.reg) && Linearised(st)
            && forall n, i, j | 0 <= i < |st.lin| && 0 <= j < |st.lin| ::
                 AnsweredBefore(tx, steps, n, st.lin[i].call, st.lin[j].call) ==> i < j
  {
    hide Run, Agrees, MemRun;
    RunInv(tx, steps);
    var st := Run(tx, steps).value;
    forall n, i, j | 0 <= i < |st.lin| && 0 <= j < |st.lin| && AnsweredBefore(tx, steps, n, st.lin[i].call, st.lin[j].call)
      ensures i < j
    {
      InRealTime(tx, steps, n, i, j);
    }
  }

  lemma {:induction false} EachAnswer(tx: Text, lin: seq<Lin>, i: nat)
    requires Agrees(tx, lin) && i < |lin|
    ensures MemInv(tx, MemRun(tx, lin[..i]))
    ensures Answers(tx, MemRun(tx, lin[..i]).users, lin[i].op, MemRun(tx, lin[..i + 1]).users, lin[i].outcome)
  {
    hide MemStep, MemInv;
    var front := lin[..|lin| - 1];
    if i < |front| {
      EachAnswer(tx, front, i);
      assert front[..i] == lin[..i] && front[..i + 1] == lin[..i + 1];
    } else {
      assert lin[..i] == front && lin[..i + 1] == lin;
      MemRunKeeps(tx, front);
      AnswerMeans(tx, MemRun(tx, front), lin[i].op);
    }
  }

  lemma {:induction false} MemRunKeeps(tx: Text, lin: seq<Lin>)
    ensures MemInv(tx, MemRun(tx, lin))
  {
    hide MemStep, MemInv;
    if lin == [] {
      NobodyYet(tx);
    } else {
      MemRunKeeps(tx, lin[..|lin| - 1]);
      MemStepKeeps(tx, MemRun(tx, lin[..|lin| - 1]), Last(lin).op);
    }
  }

  /** In terms of players and names alone: in every run each call that took effect answered what it must
      for the players of that moment, starting from none, the last moment's players are the stored
      records, and no two of them have the same name up to `lower`. */
  lemma LinearizedAnswers(tx: Text, steps: seq<Step>)
    requires Run(tx, steps).Some?
    ensures var st := Run(tx, steps).value;
            && Unique(tx, st.reg.recs)
            && MemRun(tx, st.lin).users == st.reg.recs && MemRun(tx, []).users == map[]
            && forall i :: 0 <= i < |st.lin| ==>
                 Answers(tx, MemRun(tx, st.lin[..i]).users, st.lin[i].op, MemRun(tx, st.lin[..i + 1]).users, st.lin[i].outcome)
  {
    hide Run, Agrees, MemInv, Unique, Answers, Linearised;
    RunInv(tx, steps);
    var st := Run(tx, steps).value;
    NamesUnique(tx, Abs(st.reg));
    forall i | 0 <= i < |st.lin|
      ensures Answers(tx, MemRun(tx, st.lin[..i]).users, st.lin[i].op, MemRun(tx, st.lin[..i + 1]).users, st.lin[i].outcome)
    {
      EachAnswer(tx, st.lin, i);
    }
  }

  lemma InRealTime(tx: Text, steps: seq<Step>, n: nat, i: nat, j: nat)
    requires Run(tx, steps).Some? && i < |Run(tx, steps).value.lin| && j < |Run(tx, steps).value.lin|
    requires var lin := Run(tx, steps).value.lin;
             AnsweredBefore(tx, steps, n, lin[i].call, lin[j].call)
    ensures i < j
  {
    hide Run, Agrees, MemRun, RegInv, ChargesInv;
    RunInv(tx, steps);
    RunInv(tx, steps[..n]);
    LinGrows(tx, steps, n);
    var p, st := Run(tx, steps[..n]).value, Run(tx, steps).value;
    var a := st.lin[i].call;
    NeverGaveUp(tx, st.lin, i);
    assert Lin(a, p.calls[a].op, p.calls[a].outcome) in p.lin;
    var x :| 0 <= x < |p.lin| && p.lin[x].call == a;
    assert st.lin[x] == p.lin[x];
    assert x == i;
    assert forall y :: 0 <= y < |p.lin| ==> st.lin[y] == p.lin[y] && p.lin[y].call in p.calls;
  }

  /** In every reachable state records, display names and claims correspond one to one, so the length
      of the names hash is the number of players and of claimed nicknames. */
  lemma CountIsExact(tx: Text, steps: seq<Step>)
    requires Run(tx, steps).Some?
    ensures var r := Run(tx, steps).value.reg;
            RegInv(tx, r) && |r.names| == |r.recs| == |r.nick|
  {
    hide Run, Agrees, MemRun, Linearised, MemInv;
    RunInv(tx, steps);
    ClaimsCount(tx, Abs(Run(tx, steps).value.reg));
  }

  /** How many steps of its own a call can still take. */
  function StepsLeft(call: Call): int {
    match call
    case Finished(_, _, _) => 0
    case Started(op, charges) => if op.Create? then 1 else 2 * (32 - |charges|)
    case Snapshot(_, _, _, charges) => 2 * (32 - |charges|) - 1
  }

  /** No call is ever stuck, and none takes more than 64 steps of its own, whatever the others do. */
  lemma CallsEnd(tx: Text, steps: seq<Step>, c: nat, op: Op)
    requires Run(tx, steps).Some?
    ensures var st := Run(tx, steps).value;
            && (c !in st.calls ==>
                  Enabled(st, Invoke(c, op)) && Do(tx, st, Invoke(c, op)).calls[c] == Started(op, []) && StepsLeft(Started(op, [])) <= 64)
            && (c in st.calls && !st.calls[c].Finished? ==> Enabled(st, Read(c)) || Enabled(st, Script(c)))
            && (c in st.calls && st.calls[c].Finished? ==> !Enabled(st, Read(c)) && !Enabled(st, Script(c)))
            && (Enabled(st, Read(c)) ==> 0 <= StepsLeft(Do(tx, st, Read(c)).calls[c]) < StepsLeft(st.calls[c]))
            && (Enabled(st, Script(c)) ==> 0 <= StepsLeft(Do(tx, st, Script(c)).calls[c]) < StepsLeft(st.calls[c]))
  {
    hide Run, Agrees, MemRun, Linearised, RegInv, Culprit, KeyOf, Untouched, CreateScript, RenameScript, DeleteScript;
    RunInv(tx, steps);
    var st := Run(tx, steps).value;
    if c in st.calls {
      assert ChargesInv(st, st.calls[c]);
    }
  }

  /** A script takes effect unless the player's claim has moved since the call read it. */
  lemma ScriptTakesEffect(tx: Text, steps: seq<Step>, c: nat)
    requires Run(tx, steps).Some? && Enabled(Run(tx, steps).value, Script(c))
    ensures var st := Run(tx, steps).value;
            var call, next := st.calls[c], Do(tx, st, Script(c));
            if call.Snapshot? && !Untouched(st, call) && Lookup(st.reg.nick, call.oldKey) != Some(Target(call.op))
               && (call.op.Rename? ==> tx.Nickname(call.op.nickname).Some?) && (call.op.Delete? ==> call.op.id in st.reg.recs)
            then next.lin == st.lin && next.reg == st.reg && |next.calls[c].charges| == |call.charges| + 1
            else next.calls[c].Finished? && next.calls[c].op == call.op
                 && next.lin == st.lin + [Lin(c, call.op, next.calls[c].outcome)]
  {
    hide Run, Agrees, MemRun, Linearised, RegInv, Culprit, KeyOf;
    RunInv(tx, steps);
    assert ChargesInv(Run(tx, steps).value, Run(tx, steps).value.calls[c]);
  }

  /** A contention error stands for 32 distinct renames or deletes of the same player, one inside each
      attempt's own window between its read and its script. */
  lemma ContentionIsCharged(tx: Text, steps: seq<Step>, c: nat)
    requires Run(tx, steps).Some? && c in Run(tx, steps).value.calls
    requires var call := Run(tx, steps).value.calls[c];
             call.Finished? && call.outcome == Contention
    ensures var st := Run(tx, steps).value;
            var charges := st.calls[c].charges;
            && |charges| == 32
            && (forall i :: 0 <= i < 32 ==>
                  charges[i].readAt <= charges[i].event < charges[i].scriptAt <= |st.events|
                  && st.events[charges[i].event] == Target(st.calls[c].op))
            && (forall i, j :: 0 <= i < j < 32 ==> charges[i].event < charges[j].event)
  {
    hide Run, Agrees, MemRun, Linearised, RegInv, Untouched;
    RunInv(tx, steps);
    var st := Run(tx, steps).value;
    assert ChargesInv(st, st.calls[c]);
  }
}
