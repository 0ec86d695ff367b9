/** Physical board keys: validation, the key string, the escaped scan pattern and its parser
    (pkg/engine/board.go, pkg/engine/redis_engine.go), and per-shard names
    (pkg/engine/sharded_engine.go). */
module Keys {
  import opened Basics

  datatype BoardKey = BoardKey(app: string, board: string, segment: string, window: string)

  function OrAll(s: string): string { if s == "" then "all" else s }

  /** The key with the default segment and window filled in; every Redis key is built from this. */
  function Norm(k: BoardKey): (r: BoardKey)
    ensures r.segment != "" && r.window != ""
  {
    k.(segment := OrAll(k.segment), window := OrAll(k.window))
  }

  const STRUCTURAL: string := ":{}\t\n\r "

  predicate InvalidComponent(s: string) {
    s == "" || exists i :: 0 <= i < |s| && s[i] in STRUCTURAL
  }

  predicate ValidKey(k: BoardKey) {
    && !InvalidComponent(k.app) && !InvalidComponent(k.board)
    && !InvalidComponent(OrAll(k.segment)) && !InvalidComponent(OrAll(k.window))
  }

  /** One key component, a colon, and what follows. */
  function Tag(part: string, rest: string): string { part + [':'] + rest }

  function HashTag(k: BoardKey): string {
    Tag(k.app, Tag(k.board, Tag(OrAll(k.segment), OrAll(k.window))))
  }

  const HEAD: string := "lb:{"
  const TAIL: string := "}:z"

  function ZKey(k: BoardKey): string { HEAD + (HashTag(k) + TAIL) }

  // ---------------------------------------------------------------- glob patterns

  const META: string := "*?[]^\\"

  function EscapeChar(c: char): string { if c in META then ['\\', c] else [c] }

  function Escape(s: string): string {
    if s == [] then [] else EscapeChar(s[0]) + Escape(s[1..])
  }

  function InRange(lo: char, hi: char, c: char): bool {
    if lo <= hi then lo <= c <= hi else hi <= c <= lo
  }

  /** The body of a [...] class: whether c is in it, and the pattern after it. */
  function ClassScan(p: string, c: char, hit: bool): (r: (bool, string))
    ensures |r.1| <= |p|
    decreases |p|
  {
    if p == [] then (hit, [])
    else if p[0] == '\\' && |p| >= 2 then ClassScan(p[2..], c, hit || p[1] == c)
    else if p[0] == ']' then (hit, p[1..])
    else if |p| >= 3 && p[1] == '-' then ClassScan(p[3..], c, hit || InRange(p[0], p[2], c))
    else ClassScan(p[1..], c, hit || p[0] == c)
  }

  /** Redis MATCH: star, question mark, character classes, backslash escapes, literals. */
  predicate Glob(p: string, s: string)
    decreases |p| + |s|
  {
    if p == [] then s == []
    else if p[0] == '*' then Glob(p[1..], s) || (s != [] && Glob(p, s[1..]))
    else if s == [] then false
    else if p[0] == '?' then Glob(p[1..], s[1..])
    else if p[0] == '[' then
      var negated := |p| > 1 && p[1] == '^';
      var body := if negated then p[2..] else p[1..];
      var (hit, rest) := ClassScan(body, s[0], false);
      hit != negated && Glob(rest, s[1..])
    else if p[0] == '\\' && |p| >= 2 then p[1] == s[0] && Glob(p[2..], s[1..])
    else p[0] == s[0] && Glob(p[1..], s[1..])
  }

  function ScanPattern(app: string, board: string): string {
    HEAD + Tag(Escape(app), Tag(Escape(board), "*" + TAIL))
  }

  /** Escaped text matches itself and nothing else. */
  lemma {:induction false} GlobLiteral(a: string, p: string, s: string)
    ensures Glob(Escape(a) + p, s) <==> a <= s && Glob(p, s[|a|..])
  {
    if a == [] {
      assert Escape(a) + p == p;
    } else {
      var e := EscapeChar(a[0]);
      assert Escape(a) + p == e + (Escape(a[1..]) + p);
      assert (e + (Escape(a[1..]) + p))[|e|..] == Escape(a[1..]) + p;
      if s != [] {
        GlobLiteral(a[1..], p, s[1..]);
        assert a <= s <==> a[0] == s[0] && a[1..] <= s[1..];
        if a <= s {
          assert s[1..][|a[1..]|..] == s[|a|..];
        }
      }
    }
  }

  lemma {:induction false} EscapePlain(s: string)
    requires forall i :: 0 <= i < |s| ==> s[i] !in META
    ensures Escape(s) == s
  {
    if s != [] {
      EscapePlain(s[1..]);
    }
  }

  lemma {:induction false} StarTail(s: string)
    ensures Glob("*" + TAIL, s) <==> |s| >= 3 && s[|s| - 3..] == TAIL
  {
    var p := "*" + TAIL;
    assert p[0] == '*' && p[1..] == TAIL;
    TailOnly(s);
    if s != [] {
      StarTail(s[1..]);
      if |s| > 3 {
        assert s[1..][|s| - 4..] == s[|s| - 3..];
      }
    }
  }

  lemma TailOnly(s: string)
    ensures Glob(TAIL, s) <==> s == TAIL
  {
    EscapePlain(TAIL);
    GlobLiteral(TAIL, [], s);
    assert Escape(TAIL) + [] == TAIL;
  }

  predicate ColonFree(s: string) { ':' !in s }

  predicate CleanText(s: string) { forall c :: c in STRUCTURAL ==> c !in s }

  lemma ValidParts(k: BoardKey)
    requires ValidKey(k)
    ensures CleanText(k.app) && CleanText(k.board) && CleanText(OrAll(k.segment)) && CleanText(OrAll(k.window))
    ensures ColonFree(k.app) && ColonFree(k.board) && ColonFree(OrAll(k.segment)) && ColonFree(OrAll(k.window))
  {
    assert ':' in STRUCTURAL;
  }

  lemma GlobHead(p: string, s: string)
    ensures Glob(HEAD + p, HEAD + s) <==> Glob(p, s)
  {
    EscapePlain(HEAD);
    GlobLiteral(HEAD, p, HEAD + s);
    assert (HEAD + s)[|HEAD|..] == s;
  }

  lemma {:induction false} EscapeTag(a: string, b: string)
    ensures Escape(Tag(a, b)) == Tag(Escape(a), Escape(b))
  {
    var s := Tag(a, b);
    if a == [] {
      assert s[0] == ':' && s[1..] == b;
    } else {
      EscapeTag(a[1..], b);
      assert s[0] == a[0] && s[1..] == Tag(a[1..], b);
      assert Escape(s) == EscapeChar(a[0]) + Tag(Escape(a[1..]), Escape(b));
      hide Escape, EscapeChar;
      assert Tag(Escape(a[1..]), Escape(b)) == Escape(a[1..]) + ([':'] + Escape(b));
      Associates(EscapeChar(a[0]), Escape(a[1..]), [':'] + Escape(b));
    }
  }

  /** For any requested names the escaped scan pattern selects a key exactly when "app:board:" starts its
      hash tag. */
  lemma ScanSelects(app: string, board: string, k: BoardKey)
    ensures Glob(ScanPattern(app, board), ZKey(k)) <==> Tag(app, Tag(board, "")) <= HashTag(k)
  {
    hide Glob, Escape;
    var t, h := Tag(app, Tag(board, "")), HashTag(k);
    EscapeTag(app, Tag(board, ""));
    EscapeTag(board, "");
    EscapeNone();
    assert Tag(Escape(app), Tag(Escape(board), "*" + TAIL)) == Escape(t) + ("*" + TAIL);
    GlobHead(Escape(t) + ("*" + TAIL), h + TAIL);
    GlobLiteral(t, "*" + TAIL, h + TAIL);
    if t <= h + TAIL {
      StarTail((h + TAIL)[|t|..]);
      TailBeyond(t, h);
    }
  }

  lemma EscapeNone()
    ensures Escape("") == ""
  {
  }

  lemma TailBeyond(t: string, h: string)
    requires t <= h + TAIL
    ensures var rest := (h + TAIL)[|t|..];
            (|rest| >= 3 && rest[|rest| - 3..] == TAIL) <==> t <= h
  {
    var s := h + TAIL;
    if |t| <= |h| {
      assert s[|t|..][|s| - |t| - 3..] == s[|h|..] == TAIL;
      assert t == s[..|t|] == h[..|t|];
    }
  }

  /** Text before a colon in a tag is its first component, or runs past it. */
  lemma ColonCut(x: string, a: string, r: string)
    requires ColonFree(a)
    ensures x + [':'] <= Tag(a, r) <==> x == a || (a + [':'] <= x && x[|a| + 1..] + [':'] <= r)
  {
    var t, y := Tag(a, r), x + [':'];
    if |x| < |a| {
      assert y[|x|] == ':' && t[|x|] == a[|x|];
    } else if |x| == |a| {
      assert y <= t <==> x == a by {
        assert t[..|a|] == a && t[|a|] == ':';
      }
    } else {
      assert t == (a + [':']) + r;
      assert y <= t ==> (a + [':']) == t[..|a| + 1] == y[..|a| + 1] == x[..|a| + 1];
      if a + [':'] <= x {
        assert y == (a + [':']) + (x[|a| + 1..] + [':']);
        PrefixCancel(a + [':'], x[|a| + 1..] + [':'], r);
      }
    }
  }

  lemma PrefixCancel(p: string, x: string, y: string)
    ensures p + x <= p + y <==> x <= y
  {
    assert (p + x)[|p|..] == x && (p + y)[|p|..] == y;
    if p + x <= p + y {
      assert x == (p + y)[..|p| + |x|][|p|..] == y[..|x|];
    }
  }

  /** Two tags of two components, one of them without further colons, agree only part by part. */
  lemma TagSame(a: string, b: string, x: string, y: string)
    requires ColonFree(x) && ColonFree(y)
    ensures Tag(a, b) == Tag(x, y) <==> a == x && b == y
  {
    var s, t := Tag(a, b), Tag(x, y);
    if s == t {
      assert s[|a|] == ':';
      assert t[|x|] == ':' && forall i :: 0 <= i < |t| && i != |x| ==> t[i] != ':' by {
        assert forall i :: |x| < i < |t| ==> t[i] == y[i - |x| - 1] && y[i - |x| - 1] in y;
        assert forall i :: 0 <= i < |x| ==> t[i] == x[i] && x[i] in x;
      }
      assert s[..|a|] == a && t[..|x|] == x && s[|a| + 1..] == b && t[|x| + 1..] == y;
    }
  }

  /** So a live key is selected exactly when its app and board are the requested ones, or the requested
      names run together to its app, board and segment. */
  lemma ScanSelectsIff(app: string, board: string, k: BoardKey)
    requires ValidKey(k)
    ensures Glob(ScanPattern(app, board), ZKey(k))
            <==> (k.app == app && k.board == board)
                 || Tag(app, board) == Tag(k.app, Tag(k.board, OrAll(k.segment)))
  {
    hide Glob, ScanPattern, ZKey, ValidKey, Tag;
    ValidParts(k);
    ScanSelects(app, board, k);
    TagEnd(app, board);
    ColonsOfTag(Tag(app, board), k.app, k.board, OrAll(k.segment), OrAll(k.window));
    TagSame(app, board, k.app, k.board);
  }

  lemma TagEnd(a: string, b: string)
    ensures Tag(a, Tag(b, "")) == Tag(a, b) + [':'] && !ColonFree(Tag(a, b))
  {
    assert Tag(a, b)[|a|] == ':';
  }

  /** Text that holds a colon and ends before one in a tag of four components covers two or three of them. */
  lemma ColonsOfTag(x: string, a: string, b: string, s: string, w: string)
    requires ColonFree(a) && ColonFree(b) && ColonFree(s) && ColonFree(w) && !ColonFree(x)
    ensures x + [':'] <= Tag(a, Tag(b, Tag(s, w))) <==> x == Tag(a, b) || x == Tag(a, Tag(b, s))
  {
    ColonCut(x, a, Tag(b, Tag(s, w)));
    if a + [':'] <= x {
      var y := x[|a| + 1..];
      assert x == Tag(a, y);
      TagCancel(a, y, b);
      TagCancel(a, y, Tag(b, s));
      ColonsOfRest(y, b, s, w);
    } else {
      assert a + [':'] <= Tag(a, b) && a + [':'] <= Tag(a, Tag(b, s));
    }
  }

  lemma ColonsOfRest(y: string, b: string, s: string, w: string)
    requires ColonFree(b) && ColonFree(s) && ColonFree(w)
    ensures y + [':'] <= Tag(b, Tag(s, w)) <==> y == b || y == Tag(b, s)
  {
    ColonCut(y, b, Tag(s, w));
    if b + [':'] <= y {
      var z := y[|b| + 1..];
      assert y == Tag(b, z);
      TagCancel(b, z, s);
      ColonCut(z, s, w);
      if s + [':'] <= z {
        ColonPrefix(z[|s| + 1..], w);
      }
    } else {
      assert b + [':'] <= Tag(b, s);
    }
  }

  lemma TagCancel(a: string, b: string, c: string)
    ensures Tag(a, b) == Tag(a, c) <==> b == c
  {
    assert Tag(a, b)[|a| + 1..] == b && Tag(a, c)[|a| + 1..] == c;
  }

  lemma ColonPrefix(x: string, s: string)
    ensures x + [':'] <= s ==> !ColonFree(s)
  {
    if x + [':'] <= s {
      assert s[|x|] == ':';
    }
  }

  /** Names without colons select exactly their own board. */
  lemma ScanExact(app: string, board: string, k: BoardKey)
    requires ColonFree(app) && ColonFree(board) && ValidKey(k)
    ensures Glob(ScanPattern(app, board), ZKey(k)) <==> k.app == app && k.board == board
  {
    hide Glob, ScanPattern, ZKey, ValidKey;
    ScanSelectsIff(app, board, k);
    TagSame(k.app, Tag(k.board, OrAll(k.segment)), app, board);
    assert Tag(k.board, OrAll(k.segment))[|k.board|] == ':';
  }

  /** With a colon in a name other boards are selected: asking for app "a:b" and board "c" selects every
      key of app "a", board "b", segment "c". */
  lemma ScanLeaksOnColon(k: BoardKey)
    requires ValidKey(k)
    ensures Glob(ScanPattern(Tag(k.app, k.board), OrAll(k.segment)), ZKey(k))
  {
    hide Glob, ScanPattern, ZKey, ValidKey;
    ScanSelectsIff(Tag(k.app, k.board), OrAll(k.segment), k);
  }

  // ---------------------------------------------------------------- parsing a key

  /** strings.IndexByte, with None for the Go result -1. */
  function IndexOf(s: string, c: char): (r: Option<nat>)
    ensures r.Some? ==> r.value < |s| && s[r.value] == c && c !in s[..r.value]
    ensures r.None? ==> c !in s
  {
    if s == [] then None
    else if s[0] == c then Some(0)
    else
      match IndexOf(s[1..], c)
      case None => None
      case Some(i) =>
        assert s[..i + 1] == [s[0]] + s[1..][..i];
        Some(i + 1)
  }

  /** strings.Split on one separator character. */
  function Split(s: string, sep: char): seq<string>
    decreases |s|
  {
    match IndexOf(s, sep)
    case None => [s]
    case Some(i) => [s[..i]] + Split(s[i + 1..], sep)
  }

  lemma {:induction false} IndexOfFirst(a: string, c: char, r: string)
    requires c !in a
    ensures IndexOf(a + [c] + r, c) == Some(|a|)
  {
    var s := a + [c] + r;
    if a != [] {
      IndexOfFirst(a[1..], c, r);
      assert s[0] == a[0] && a[0] in a;
      assert s[1..] == a[1..] + [c] + r;
    }
  }

  lemma SplitTag(a: string, r: string)
    requires ColonFree(a)
    ensures Split(Tag(a, r), ':') == [a] + Split(r, ':')
  {
    IndexOfFirst(a, ':', r);
    assert Tag(a, r)[..|a|] == a && Tag(a, r)[|a| + 1..] == r;
  }

  /** What scanBoardKeys and windowFromZKey do with one raw key. */
  function ParseTag(raw: string): Option<seq<string>> {
    match (IndexOf(raw, '{'), IndexOf(raw, '}'))
    case (Some(open), Some(close)) =>
      if close < open then None
      else
        var parts := Split(raw[open + 1..close], ':');
        if |parts| != 4 then None else Some(parts)
    case _ => None
  }

  function ParseKey(raw: string): Option<BoardKey> {
    match ParseTag(raw)
    case None => None
    case Some(parts) =>
      if |parts| == 4 then Some(BoardKey(parts[0], parts[1], parts[2], parts[3])) else None
  }

  function WindowFromZKey(raw: string): Option<string> {
    match ParseTag(raw)
    case None => None
    case Some(parts) => if |parts| == 4 then Some(parts[3]) else None
  }

  lemma TagClean(a: string, r: string, c: char)
    requires c !in a && c != ':' && c !in r
    ensures c !in Tag(a, r)
  {
  }

  /** Parsing a valid board's key string returns the board's own normalised key. */
  lemma ParseZKey(k: BoardKey)
    requires ValidKey(k)
    ensures ParseKey(ZKey(k)) == Some(Norm(k))
    ensures WindowFromZKey(ZKey(k)) == Some(OrAll(k.window))
  {
    TagHasNoBrace(k);
    ParseBraces(HashTag(k));
    SplitHashTag(k);
  }

  lemma TagHasNoBrace(k: BoardKey)
    requires ValidKey(k)
    ensures '}' !in HashTag(k)
  {
    ValidParts(k);
    assert '}' in STRUCTURAL;
    var seg, win := OrAll(k.segment), OrAll(k.window);
    TagClean(seg, win, '}');
    TagClean(k.board, Tag(seg, win), '}');
    TagClean(k.app, Tag(k.board, Tag(seg, win)), '}');
  }

  lemma SplitHashTag(k: BoardKey)
    requires ValidKey(k)
    ensures Split(HashTag(k), ':') == [k.app, k.board, OrAll(k.segment), OrAll(k.window)]
  {
    hide Split, Tag;
    ValidParts(k);
    var seg, win := OrAll(k.segment), OrAll(k.window);
    SplitNone(win);
    SplitTag(seg, win);
    SplitTag(k.board, Tag(seg, win));
    SplitTag(k.app, Tag(k.board, Tag(seg, win)));
  }

  lemma SplitNone(s: string)
    requires ColonFree(s)
    ensures Split(s, ':') == [s]
  {
  }

  lemma ParseBraces(tag: string)
    requires '}' !in tag
    ensures var raw := HEAD + (tag + TAIL);
            && IndexOf(raw, '{') == Some(3) && IndexOf(raw, '}') == Some(4 + |tag|)
            && raw[4..4 + |tag|] == tag
  {
    var raw := HEAD + (tag + TAIL);
    assert raw == "lb:" + ['{'] + (tag + TAIL);
    IndexOfFirst("lb:", '{', tag + TAIL);
    assert raw == (HEAD + tag) + ['}'] + ":z";
    IndexOfFirst(HEAD + tag, '}', ":z");
  }

  // ---------------------------------------------------------------- shard names

  function ShardName(board: string, i: nat): string { board + "#s" + Itoa(i) }

  function ShardKey(k: BoardKey, i: nat): BoardKey { k.(board := ShardName(k.board, i)) }

  /** The board a shard name was made from: everything before the last hash sign. */
  function StripShard(name: string): string {
    if name == [] then []
    else if Last(name) == '#' then name[..|name| - 1]
    else StripShard(name[..|name| - 1])
  }

  lemma {:induction false} StripDigits(head: string, tail: string)
    requires '#' !in tail
    ensures StripShard(head + ['#'] + tail) == head
    decreases |tail|
  {
    var s := head + ['#'] + tail;
    if tail == [] {
      assert s[..|s| - 1] == head;
    } else {
      assert s[..|s| - 1] == head + ['#'] + tail[..|tail| - 1];
      StripDigits(head, tail[..|tail| - 1]);
    }
  }

  lemma StripShardName(board: string, i: nat)
    ensures StripShard(ShardName(board, i)) == board
  {
    var tail := ['s'] + Itoa(i);
    assert ShardName(board, i) == board + ['#'] + tail;
    StripDigits(board, tail);
  }

  /** The key as Redis sees it, on one set and on shard i. */
  lemma KeyText(k: BoardKey, i: nat)
    ensures ZKey(k) == "lb:{" + k.app + ":" + k.board + ":" + OrAll(k.segment) + ":" + OrAll(k.window) + "}:z"
    ensures ShardKey(k, i) == BoardKey(k.app, k.board + "#s" + Itoa(i), k.segment, k.window)
  {
    hide OrAll;
  }

  /** Different boards and different shards never share a shard key. */
  lemma ShardKeyInjective(k: BoardKey, i: nat, l: BoardKey, j: nat)
    requires ShardKey(k, i) == ShardKey(l, j)
    ensures k == l && i == j
  {
    StripShardName(k.board, i);
    StripShardName(l.board, j);
    assert ShardName(k.board, i)[|k.board| + 2..] == Itoa(i);
    assert ShardName(l.board, j)[|l.board| + 2..] == Itoa(j);
    ItoaValue(i);
    ItoaValue(j);
  }

  /** Sharding changes whether a key is accepted only for the empty board name. */
  lemma ShardKeyValid(k: BoardKey, i: nat)
    ensures Norm(ShardKey(k, i)) == ShardKey(Norm(k), i)
    ensures ValidKey(ShardKey(k, i)) <==> ValidKey(k.(board := if k.board == "" then "x" else k.board))
    ensures k.board != "" ==> (ValidKey(ShardKey(k, i)) <==> ValidKey(k))
    ensures ColonFree(k.board) <==> ColonFree(ShardName(k.board, i))
  {
    var name := ShardName(k.board, i);
    var d := Itoa(i);
    assert forall j :: 0 <= j < |d| ==> IsDigit(d[j]) && d[j] !in STRUCTURAL;
    forall j | 0 <= j < |name|
      ensures name[j] in STRUCTURAL <==> j < |k.board| && k.board[j] in STRUCTURAL
      ensures name[j] == ':' <==> j < |k.board| && k.board[j] == ':'
    {
      if j >= |k.board| + 2 {
        assert name[j] == d[j - |k.board| - 2];
      }
    }
    assert forall j :: 0 <= j < |k.board| ==> name[j] == k.board[j];
    assert InvalidComponent(name) <==> k.board != "" && InvalidComponent(k.board);
    assert "x"[0] !in STRUCTURAL;
  }
}
