/** The player registry of one app (pkg/users): normalisation, the in-memory store that specifies it,
    and the Lua scripts of the Redis store. Timestamps are not modelled. */
module Players {
  import opened Basics

  /** Character classes and the lowercase map of the text library; any will do. */
  datatype Text = Text(space: char -> bool, control: char -> bool, lower: string -> string) {

    function TrimLeft(s: string): string {
      if s != [] && space(s[0]) then TrimLeft(s[1..]) else s
    }

    function TrimRight(s: string): string {
      if s != [] && space(Last(s)) then TrimRight(s[..|s| - 1]) else s
    }

    function Trim(s: string): string { TrimRight(TrimLeft(s)) }

    predicate Printable(s: string) { forall i :: 0 <= i < |s| ==> !control(s[i]) }

    /** The display form and the uniqueness key of a nickname. */
    function Nickname(nick: string): Option<(string, string)> {
      var display := Trim(nick);
      if display == "" || |display| > 32 || !Printable(display) then None
      else Some((display, lower(display)))
    }

    /** A caller-supplied member id; the minted prefix is reserved. */
    function Member(member: string): Option<string> {
      var m := Trim(member);
      if m == "" || |m| > 64 || "plr_" <= m || !Printable(m) then None else Some(m)
    }

    lemma {:induction false} TrimRightKeepsHead(s: string)
      ensures TrimRight(s) == [] || (s != [] && TrimRight(s)[0] == s[0])
      ensures TrimRight(s) == [] || !space(Last(TrimRight(s)))
    {
      if s != [] && space(Last(s)) {
        TrimRightKeepsHead(s[..|s| - 1]);
      }
    }

    lemma {:induction false} TrimLeftHead(s: string)
      ensures TrimLeft(s) == [] || !space(TrimLeft(s)[0])
    {
      if s != [] && space(s[0]) {
        TrimLeftHead(s[1..]);
      }
    }

    lemma {:induction false} TrimLeftParts(s: string) returns (pre: string)
      ensures s == pre + TrimLeft(s) && forall i :: 0 <= i < |pre| ==> space(pre[i])
    {
      if s != [] && space(s[0]) {
        pre := TrimLeftParts(s[1..]);
        assert s == [s[0]] + s[1..];
        pre := [s[0]] + pre;
      } else {
        pre := [];
      }
    }

    lemma {:induction false} TrimRightParts(s: string) returns (post: string)
      ensures s == TrimRight(s) + post && forall i :: 0 <= i < |post| ==> space(post[i])
    {
      if s != [] && space(Last(s)) {
        post := TrimRightParts(s[..|s| - 1]);
        assert s == s[..|s| - 1] + [Last(s)];
        post := post + [Last(s)];
      } else {
        post := [];
      }
    }

    /** Trimming takes off white space only, and all of it at both ends. */
    lemma TrimParts(s: string) returns (pre: string, post: string)
      ensures s == pre + Trim(s) + post
      ensures forall c :: c in pre || c in post ==> space(c)
      ensures Trim(s) != [] ==> !space(Trim(s)[0]) && !space(Last(Trim(s)))
    {
      pre := TrimLeftParts(s);
      post := TrimRightParts(TrimLeft(s));
      TrimLeftHead(s);
      TrimRightKeepsHead(TrimLeft(s));
    }

    /** A nickname within the limits once trimmed. */
    predicate ValidNick(nick: string) {
      1 <= |Trim(nick)| <= 32 && forall i :: 0 <= i < |Trim(nick)| ==> !control(Trim(nick)[i])
    }

    /** A member id a caller may claim. */
    predicate ValidMember(member: string) {
      && 1 <= |Trim(member)| <= 64 && !("plr_" <= Trim(member))
      && forall i :: 0 <= i < |Trim(member)| ==> !control(Trim(member)[i])
    }

    /** Normalising a display form changes nothing. */
    lemma NicknameStable(nick: string)
      requires Nickname(nick).Some?
      ensures Nickname(Nickname(nick).value.0) == Nickname(nick)
    {
      TrimLeftHead(nick);
      TrimRightKeepsHead(TrimLeft(nick));
    }
  }

  datatype Op =
    | Create(nickname: string, member: string, minted: string)
    | Rename(id: string, nickname: string)
    | Delete(id: string)

  datatype Outcome =
    | Registered(id: string, display: string)
    | Deleted
    | NotFound
    | NicknameTaken
    | MemberTaken
    | InvalidNickname
    | InvalidMember
    | Contention

  // ---------------------------------------------------------------- the in-memory store

  datatype Mem = Mem(users: map<string, string>, nicks: map<string, string>)

  const NO_PLAYERS: Mem := Mem(map[], map[])

  /** The id a create works with: the member claimed, or the minted one. */
  function CreateId(tx: Text, op: Op): Option<string>
    requires op.Create?
  {
    if op.member == "" then Some(op.minted) else tx.Member(op.member)
  }

  function MemStep(tx: Text, m: Mem, op: Op): (Mem, Outcome) {
    match op
    case Create(nickname, member, minted) =>
      (match (tx.Nickname(nickname), CreateId(tx, op))
       case (None, _) => (m, InvalidNickname)
       case (_, None) => (m, InvalidMember)
       case (Some((display, key)), Some(id)) =>
         if id in m.users then (m, MemberTaken)
         else if key in m.nicks then (m, NicknameTaken)
         else (Mem(m.users[id := display], m.nicks[key := id]), Registered(id, display)))
    case Rename(id, nickname) =>
      (match tx.Nickname(nickname)
       case None => (m, InvalidNickname)
       case Some((display, key)) =>
         if id !in m.users then (m, NotFound)
         else
           var oldKey := KeyOf(tx, m.users[id]);
           if key == oldKey then (m.(users := m.users[id := display]), Registered(id, display))
           else if key in m.nicks then (m, NicknameTaken)
           else (Mem(m.users[id := display], (m.nicks - {oldKey})[key := id]), Registered(id, display)))
    case Delete(id) =>
      if id !in m.users then (m, Deleted)
      else
        var key := tx.Nickname(m.users[id]);
        var nicks := if key.Some? && Lookup(m.nicks, key.value.1) == Some(id) then m.nicks - {key.value.1} else m.nicks;
        (Mem(m.users - {id}, nicks), Deleted)
  }

  /** The uniqueness key of a stored nickname ("" when it does not normalise). */
  function KeyOf(tx: Text, display: string): string {
    match tx.Nickname(display)
    case None => ""
    case Some((_, key)) => key
  }

  /** Players, display names and nickname claims correspond one to one. */
  ghost predicate MemInv(tx: Text, m: Mem) {
    && (forall id :: id in m.users ==>
          tx.Nickname(m.users[id]) == Some((m.users[id], KeyOf(tx, m.users[id])))
          && Lookup(m.nicks, KeyOf(tx, m.users[id])) == Some(id))
    && (forall key :: key in m.nicks ==> m.nicks[key] in m.users && KeyOf(tx, m.users[m.nicks[key]]) == key)
  }

  /** A new player with a free nickname keeps the correspondence. */
  lemma ClaimKeeps(tx: Text, m: Mem, id: string, display: string, key: string)
    requires MemInv(tx, m) && id !in m.users && key !in m.nicks
    requires tx.Nickname(display) == Some((display, key))
    ensures MemInv(tx, Mem(m.users[id := display], m.nicks[key := id]))
  {
    assert KeyOf(tx, display) == key;
    hide KeyOf;
  }

  /** So does a player that leaves together with its claim. */
  lemma ReleaseKeeps(tx: Text, m: Mem, id: string)
    requires MemInv(tx, m) && id in m.users
    ensures MemInv(tx, Mem(m.users - {id}, m.nicks - {KeyOf(tx, m.users[id])}))
  {
    hide KeyOf;
  }

  /** A rename is a release followed by a claim. */
  lemma RenameKeeps(tx: Text, m: Mem, id: string, nickname: string)
    requires MemInv(tx, m)
    ensures MemInv(tx, MemStep(tx, m, Rename(id, nickname)).0)
  {
    hide MemInv, KeyOf;
    if tx.Nickname(nickname).Some? && id in m.users {
      tx.NicknameStable(nickname);
      var (display, key) := tx.Nickname(nickname).value;
      var oldKey := KeyOf(tx, m.users[id]);
      var left := Mem(m.users - {id}, m.nicks - {oldKey});
      ReleaseKeeps(tx, m, id);
      assert left.users[id := display] == m.users[id := display];
      if key == oldKey {
        ClaimHeld(tx, m, id);
        assert left.nicks[key := id] == m.nicks;
        ClaimKeeps(tx, left, id, display, key);
      } else if key !in m.nicks {
        ClaimKeeps(tx, left, id, display, key);
      }
    }
  }

  lemma ClaimHeld(tx: Text, m: Mem, id: string)
    requires MemInv(tx, m) && id in m.users
    ensures tx.Nickname(m.users[id]) == Some((m.users[id], KeyOf(tx, m.users[id])))
    ensures Lookup(m.nicks, KeyOf(tx, m.users[id])) == Some(id)
  {
    hide KeyOf;
  }

  lemma MemStepKeeps(tx: Text, m: Mem, op: Op)
    requires MemInv(tx, m)
    ensures MemInv(tx, MemStep(tx, m, op).0)
  {
    hide MemInv, KeyOf;
    match op
    case Create(nickname, member, minted) =>
      if tx.Nickname(nickname).Some? && CreateId(tx, op).Some? {
        tx.NicknameStable(nickname);
        var (display, key) := tx.Nickname(nickname).value;
        var id := CreateId(tx, op).value;
        if id !in m.users && key !in m.nicks {
          ClaimKeeps(tx, m, id, display, key);
        }
      }
    case Rename(id, nickname) =>
      RenameKeeps(tx, m, id, nickname);
    case Delete(id) =>
      if id in m.users {
        ClaimHeld(tx, m, id);
        ReleaseKeeps(tx, m, id);
      }
  }

  /** One claim per player. */
  lemma ClaimsCount(tx: Text, m: Mem)
    requires MemInv(tx, m)
    ensures |m.users| == |m.nicks|
  {
    hide KeyOf;
    var f := (id: string) => if id in m.users then KeyOf(tx, m.users[id]) else "";
    forall key | key in m.nicks.Keys
      ensures exists id :: id in m.users.Keys && f(id) == key
    {
      assert f(m.nicks[key]) == key;
    }
    ImageCard(m.users.Keys, m.nicks.Keys, f);
  }

  // ---------------------------------------------------------------- in terms of players and names alone

  /** No two players have display names that differ only in what `lower` ignores. */
  ghost predicate Unique(tx: Text, users: map<string, string>) {
    forall a, b :: a in users && b in users && tx.lower(users[a]) == tx.lower(users[b]) ==> a == b
  }

  /** Some player other than `id` goes by the name. */
  ghost predicate GoesBy(tx: Text, users: map<string, string>, id: string, name: string) {
    exists b :: b in users && b != id && tx.lower(users[b]) == tx.lower(name)
  }

  /** What an operation answers, and the players after it. */
  ghost predicate Answers(tx: Text, users: map<string, string>, op: Op, after: map<string, string>, out: Outcome) {
    match op
    case Create(nickname, member, minted) =>
      var name, id := tx.Trim(nickname), if member == "" then minted else tx.Trim(member);
      if !tx.ValidNick(nickname) then out == InvalidNickname && after == users
      else if member != "" && !tx.ValidMember(member) then out == InvalidMember && after == users
      else if id in users then out == MemberTaken && after == users
      else if GoesBy(tx, users, id, name) then out == NicknameTaken && after == users
      else out == Registered(id, name) && after == users[id := name]
    case Rename(id, nickname) =>
      var name := tx.Trim(nickname);
      if !tx.ValidNick(nickname) then out == InvalidNickname && after == users
      else if id !in users then out == NotFound && after == users
      else if GoesBy(tx, users, id, name) then out == NicknameTaken && after == users
      else out == Registered(id, name) && after == users[id := name]
    case Delete(id) => out == Deleted && after == users - {id}
  }

  lemma ClaimIff(tx: Text, m: Mem, name: string)
    requires MemInv(tx, m) && tx.Nickname(name).Some?
    ensures var key := tx.Nickname(name).value.1;
            && key == tx.lower(tx.Trim(name))
            && (key in m.nicks <==> exists b :: b in m.users && tx.lower(m.users[b]) == key)
            && (forall b :: b in m.users && tx.lower(m.users[b]) == key ==> Lookup(m.nicks, key) == Some(b))
  {
    forall b | b in m.users
      ensures tx.lower(m.users[b]) == KeyOf(tx, m.users[b])
    {
      assert tx.Nickname(m.users[b]) == Some((m.users[b], KeyOf(tx, m.users[b])));
    }
    hide KeyOf;
    var key := tx.Nickname(name).value.1;
    if key in m.nicks {
      assert tx.lower(m.users[m.nicks[key]]) == key;
    }
  }

  lemma NamesUnique(tx: Text, m: Mem)
    requires MemInv(tx, m)
    ensures Unique(tx, m.users)
  {
    forall a, b | a in m.users && b in m.users && tx.lower(m.users[a]) == tx.lower(m.users[b])
      ensures a == b
    {
      assert tx.Nickname(m.users[a]).Some?;
      ClaimIff(tx, m, m.users[a]);
      assert tx.Nickname(m.users[a]).value.0 == m.users[a];
    }
  }

  lemma NickParts(tx: Text, nick: string)
    ensures tx.Nickname(nick) == if tx.ValidNick(nick) then Some((tx.Trim(nick), tx.lower(tx.Trim(nick)))) else None
    ensures tx.Member(nick) == if tx.ValidMember(nick) then Some(tx.Trim(nick)) else None
  {
    hide Text.Trim;
  }

  lemma CreateMeans(tx: Text, m: Mem, op: Op)
    requires MemInv(tx, m) && op.Create?
    ensures var (after, out) := MemStep(tx, m, op);
            Answers(tx, m.users, op, after.users, out)
  {
    hide MemInv, Text.Nickname, Text.Member, Text.ValidNick, Text.ValidMember, Text.Trim, KeyOf;
    NickParts(tx, op.nickname);
    NickParts(tx, op.member);
    if tx.ValidNick(op.nickname) {
      ClaimIff(tx, m, op.nickname);
    }
  }

  lemma RenameMeans(tx: Text, m: Mem, op: Op)
    requires MemInv(tx, m) && op.Rename?
    ensures var (after, out) := MemStep(tx, m, op);
            Answers(tx, m.users, op, after.users, out)
  {
    hide MemInv, Text.Nickname, Text.Member, Text.ValidNick, Text.Trim, KeyOf;
    NickParts(tx, op.nickname);
    if tx.ValidNick(op.nickname) && op.id in m.users {
      ClaimIff(tx, m, op.nickname);
      ClaimHeld(tx, m, op.id);
      NickParts(tx, m.users[op.id]);
      ClaimIff(tx, m, m.users[op.id]);
    }
  }

  /** Names clash exactly when another player's is the same up to `lower`; nothing else is refused but
      malformed names and ids, unknown players and ids in use. */
  lemma AnswerMeans(tx: Text, m: Mem, op: Op)
    requires MemInv(tx, m)
    ensures var (after, out) := MemStep(tx, m, op);
            Answers(tx, m.users, op, after.users, out) && MemInv(tx, after) && Unique(tx, after.users)
  {
    MemStepKeeps(tx, m, op);
    NamesUnique(tx, MemStep(tx, m, op).0);
    hide MemInv, Unique;
    match op
    case Create(_, _, _) => CreateMeans(tx, m, op);
    case Rename(_, _) => RenameMeans(tx, m, op);
    case Delete(id) =>
      assert id !in m.users ==> m.users - {id} == m.users;
  }

  /** The store after any operations. */
  function MemAfter(tx: Text, ops: seq<Op>): Mem {
    if ops == [] then NO_PLAYERS else MemStep(tx, MemAfter(tx, ops[..|ops| - 1]), Last(ops)).0
  }

  /** So in every reachable state. */
  lemma {:induction false} AlwaysUnique(tx: Text, ops: seq<Op>)
    ensures MemInv(tx, MemAfter(tx, ops)) && Unique(tx, MemAfter(tx, ops).users)
  {
    hide MemInv, MemStep;
    if ops == [] {
      NobodyYet(tx);
    } else {
      AlwaysUnique(tx, ops[..|ops| - 1]);
      AnswerMeans(tx, MemAfter(tx, ops[..|ops| - 1]), Last(ops));
    }
  }

  lemma NobodyYet(tx: Text)
    ensures MemInv(tx, NO_PLAYERS) && Unique(tx, NO_PLAYERS.users)
  {
  }

  class MemStore {
    const tx: Text
    var users: map<string, string>
    var nicks: map<string, string>

    ghost function State(): Mem
      reads this
    {
      Mem(users, nicks)
    }

    constructor (tx: Text)
      ensures this.tx == tx && State() == NO_PLAYERS && MemInv(tx, State())
    {
      this.tx, users, nicks := tx, map[], map[];
    }

    method Create(nickname: string, member: string, minted: string) returns (out: Outcome)
      modifies this
      ensures (State(), out) == MemStep(tx, old(State()), Op.Create(nickname, member, minted))
      ensures MemInv(tx, old(State())) ==>
        Answers(tx, old(users), Op.Create(nickname, member, minted), users, out) && MemInv(tx, State()) && Unique(tx, users)
    {
      hide MemInv, Unique, Answers, Text.Nickname, Text.Member, KeyOf;
      if MemInv(tx, State()) {
        AnswerMeans(tx, State(), Op.Create(nickname, member, minted));
      }
      var norm := tx.Nickname(nickname);
      if norm.None? {
        return InvalidNickname;
      }
      var id := minted;
      if member != "" {
        var claimed := tx.Member(member);
        if claimed.None? {
          return InvalidMember;
        }
        id := claimed.value;
      }
      if id in users {
        return MemberTaken;
      }
      if norm.value.1 in nicks {
        return NicknameTaken;
      }
      users := users[id := norm.value.0];
      nicks := nicks[norm.value.1 := id];
      return Registered(id, norm.value.0);
    }

    method Rename(id: string, nickname: string) returns (out: Outcome)
      modifies this
      ensures (State(), out) == MemStep(tx, old(State()), Op.Rename(id, nickname))
      ensures MemInv(tx, old(State())) ==>
        Answers(tx, old(users), Op.Rename(id, nickname), users, out) && MemInv(tx, State()) && Unique(tx, users)
    {
      hide MemInv, Unique, Answers, Text.Nickname, Text.Member, KeyOf;
      if MemInv(tx, State()) {
        AnswerMeans(tx, State(), Op.Rename(id, nickname));
      }
      var norm := tx.Nickname(nickname);
      if norm.None? {
        return InvalidNickname;
      }
      if id !in users {
        return NotFound;
      }
      var display, key := norm.value.0, norm.value.1;
      var oldKey := KeyOf(tx, users[id]);
      if key != oldKey {
        if key in nicks {
          return NicknameTaken;
        }
        nicks := nicks - {oldKey};
        nicks := nicks[key := id];
      }
      users := users[id := display];
      return Registered(id, display);
    }

    method Delete(id: string) returns (out: Outcome)
      modifies this
      ensures (State(), out) == MemStep(tx, old(State()), Op.Delete(id))
      ensures MemInv(tx, old(State())) ==>
        Answers(tx, old(users), Op.Delete(id), users, out) && MemInv(tx, State()) && Unique(tx, users)
    {
      hide MemInv, Unique, Answers, Text.Nickname, Text.Member, KeyOf;
      if MemInv(tx, State()) {
        AnswerMeans(tx, State(), Op.Delete(id));
      }
      if id !in users {
        return Deleted;
      }
      var norm := tx.Nickname(users[id]);
      if norm.Some? && norm.value.1 in nicks && nicks[norm.value.1] == id {
        nicks := nicks - {norm.value.1};
      }
      users := users - {id};
      return Deleted;
    }

    method Count() returns (n: nat)
      ensures n == |users|
      ensures MemInv(tx, State()) ==> n == |nicks|
    {
      if MemInv(tx, State()) {
        ClaimsCount(tx, State());
      }
      n := |users|;
    }
  }

  // ---------------------------------------------------------------- the Redis scripts

  /** The nick hash, the names hash and the user records of one app. */
  datatype Reg = Reg(nick: map<string, string>, names: map<string, string>, recs: map<string, string>)

  const EMPTY_REG: Reg := Reg(map[], map[], map[])

  function CreateScript(r: Reg, key: string, id: string, display: string): (Reg, int) {
    if id in r.recs then (r, -2)
    else if key in r.nick then (r, 0)
    else (Reg(r.nick[key := id], r.names[id := display], r.recs[id := display]), 1)
  }

  function RenameScript(r: Reg, key: string, oldKey: string, id: string, display: string): (Reg, int) {
    if Lookup(r.nick, oldKey) != Some(id) then (r, -1)
    else if key != oldKey && key in r.nick then (r, 0)
    else
      var nick := if key != oldKey then r.nick[key := id] - {oldKey} else r.nick;
      (Reg(nick, r.names[id := display], r.recs[id := display]), 1)
  }

  function DeleteScript(r: Reg, key: string, id: string): (Reg, int) {
    if id !in r.recs then (r, 1)
    else if Lookup(r.nick, key) != Some(id) then (r, -1)
    else (Reg(r.nick - {key}, r.names - {id}, r.recs - {id}), 1)
  }

  /** The Redis server running the scripts, command by command. */
  class Redis {
    var nick: map<string, string>
    var names: map<string, string>
    var recs: map<string, string>

    ghost function State(): Reg
      reads this
    {
      Reg(nick, names, recs)
    }

    constructor ()
      ensures State() == EMPTY_REG
    {
      nick, names, recs := map[], map[], map[];
    }

    method RunCreate(key: string, id: string, display: string) returns (code: int)
      modifies this
      ensures (State(), code) == CreateScript(old(State()), key, id, display)
    {
      if id in recs {
        return -2;
      }
      if key in nick {
        return 0;
      }
      nick := nick[key := id];
      names := names[id := display];
      recs := recs[id := display];
      return 1;
    }

    method RunRename(key: string, oldKey: string, id: string, display: string) returns (code: int)
      modifies this
      ensures (State(), code) == RenameScript(old(State()), key, oldKey, id, display)
    {
      if oldKey !in nick || nick[oldKey] != id {
        return -1;
      }
      if key != oldKey {
        if key in nick {
          return 0;
        }
        nick := nick[key := id];
        nick := nick - {oldKey};
      }
      names := names[id := display];
      recs := recs[id := display];
      return 1;
    }

    method RunDelete(key: string, id: string) returns (code: int)
      modifies this
      ensures (State(), code) == DeleteScript(old(State()), key, id)
    {
      if id !in recs {
        return 1;
      }
      if key !in nick || nick[key] != id {
        return -1;
      }
      nick := nick - {key};
      names := names - {id};
      recs := recs - {id};
      return 1;
    }
  }
}
