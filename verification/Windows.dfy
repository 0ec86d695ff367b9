/** Window ids: printing (pkg/engine/board.go), parsing (pkg/window/window.go) and the reaper's
    expiry decision (pkg/window/reaper.go). */
module Windows {
  import opened Basics
  import opened Boards
  import opened Calendar
  import opened Keys

  datatype WindowKind = AllTime | Daily | Weekly | Monthly | Custom | KindOther

  datatype WindowSpec = WindowSpec(kind: WindowKind, customId: string)

  /** Zero padding of a possibly negative year; `signed` is the width used below year 0. */
  function Year4(y: int, signed: nat): string {
    if y >= 0 then Pad(4, Itoa(y)) else "-" + Pad(signed, Itoa(-y))
  }

  function Two(n: nat): string { Pad(2, Itoa(n)) }

  function WeekBody(day: int): string {
    IsoWeekRoundTrip(day);
    var (y, w) := IsoWeek(day);
    Year4(y, 3) + "-W" + Two(w)
  }

  function MonthBody(d: Date): string { Year4(d.year, 4) + "-" + Two(d.month) }

  function DayBody(d: Date): string { MonthBody(d) + "-" + Two(d.day) }

  function WindowID(w: WindowSpec, t: Instant): string {
    var d := Civil(DayOf(t));
    match w.kind
    case Daily => "d=" + DayBody(d)
    case Weekly => "w=" + WeekBody(DayOf(t))
    case Monthly => "m=" + MonthBody(d)
    case Custom => w.customId
    case _ => "all"
  }

  // ---------------------------------------------------------------- parsing

  function Digits(s: string): Option<nat> {
    if s != [] && AllDigits(s) then Some(DigitsValue(s)) else None
  }

  /** time.Parse("2006-01"): four digits, a dash, a two-digit month in range. */
  function ParseMonth(s: string): Option<Date> {
    if |s| != 7 || s[4] != '-' then None
    else
      match (Digits(s[..4]), Digits(s[5..7]))
      case (Some(y), Some(m)) => if 1 <= m <= 12 then Some(Date(y, m, 1)) else None
      case _ => None
  }

  /** time.Parse("2006-01-02"): a month, a dash, a two-digit day that exists in it. */
  function ParseDay(s: string): Option<Date> {
    if |s| != 10 || s[7] != '-' then None
    else
      match (ParseMonth(s[..7]), Digits(s[8..10]))
      case (Some(d), Some(n)) => if ValidDate(d.(day := n)) then Some(d.(day := n)) else None
      case _ => None
  }

  /** strings.SplitN(body, "-W", 2): the text before and after the first "-W". */
  function SplitWeek(s: string): Option<(string, string)> {
    if |s| < 2 then None
    else if s[0] == '-' && s[1] == 'W' then Some(([], s[2..]))
    else
      match SplitWeek(s[1..])
      case None => None
      case Some((a, b)) => Some(([s[0]] + a, b))
  }

  function DailyEnd(body: string): Option<Instant> {
    match ParseDay(body)
    case Some(d) => if ValidDate(d) then Some(Midnight(DayNumber(d) + 1)) else None
    case None => None
  }

  function MonthlyEnd(body: string): Option<Instant> {
    match ParseMonth(body)
    case Some(d) =>
      if 1 <= d.month <= 12 then
        Some(Midnight(YearStart(d.year) + MonthStart(Leap(d.year), d.month + 1)))
      else None
    case None => None
  }

  function WeeklyEnd(body: string): Option<Instant> {
    match SplitWeek(body)
    case Some((a, b)) =>
      (match (Atoi(a), Atoi(b))
       case (Some(y), Some(w)) => Some(Midnight(IsoWeekStart(y, w) + 7))
       case _ => None)
    case None => None
  }

  function ParseEnd(id: string): Option<Instant> {
    if |id| < 2 || id[1] != '=' then None
    else if id[0] == 'd' then DailyEnd(id[2..])
    else if id[0] == 'm' then MonthlyEnd(id[2..])
    else if id[0] == 'w' then WeeklyEnd(id[2..])
    else None
  }

  // ---------------------------------------------------------------- the period an instant is in

  predicate Dated(k: WindowKind) { k.Daily? || k.Weekly? || k.Monthly? }

  function PeriodStart(k: WindowKind, t: Instant): Instant
    requires Dated(k)
  {
    var day := DayOf(t);
    Midnight(match k
             case Daily => day
             case Weekly => MondayOf(day)
             case Monthly => MonthBegin(day))
  }

  function PeriodEnd(k: WindowKind, t: Instant): Instant
    requires Dated(k)
  {
    var day := DayOf(t);
    Midnight(match k
             case Daily => day + 1
             case Weekly => MondayOf(day) + 7
             case Monthly => MonthEnd(day))
  }

  /** Years 1 to 9999. */
  predicate InRange(t: Instant) { 0 <= t < Midnight(YearStart(10000)) }

  lemma YearInRange(t: Instant)
    requires InRange(t)
    ensures 1 <= Civil(DayOf(t)).year <= 9999
  {
    var y := YearOf(DayOf(t));
    assert 0 <= DayOf(t) < YearStart(10000);
    if y < 1 {
      YearOrder(y, 1);
    } else if y > 9999 {
      if y > 10000 {
        YearOrder(10000, y);
      }
    }
  }

  lemma Numeral(width: nat, n: nat)
    requires width > 0 && n < Pow10(width)
    ensures |Pad(width, Itoa(n))| == width && AllDigits(Pad(width, Itoa(n)))
    ensures DigitsValue(Pad(width, Itoa(n))) == n
  {
    ItoaLength(n, width);
    PadValue(width, Itoa(n));
    ItoaValue(n);
  }

  lemma ParseMonthPrint(d: Date)
    requires 0 <= d.year <= 9999 && 1 <= d.month <= 12
    ensures ParseMonth(MonthBody(d)) == Some(Date(d.year, d.month, 1)) && |MonthBody(d)| == 7
  {
    assert Pow10(4) == 10000 && Pow10(2) == 100;
    Numeral(4, d.year);
    Numeral(2, d.month);
    var s := MonthBody(d);
    assert s[..4] == Year4(d.year, 4) && s[5..7] == Two(d.month);
  }

  lemma ParseDayPrint(d: Date)
    requires ValidDate(d) && 0 <= d.year <= 9999
    ensures ParseDay(DayBody(d)) == Some(d)
  {
    ParseMonthPrint(d);
    assert Pow10(2) == 100;
    Numeral(2, d.day);
    var s := DayBody(d);
    assert s[..7] == MonthBody(d) && s[8..10] == Two(d.day);
  }

  lemma {:induction false} SplitWeekPrint(a: string, b: string)
    requires '-' !in a
    ensures SplitWeek(a + "-W" + b) == Some((a, b))
  {
    var s := a + "-W" + b;
    if a == [] {
      assert s[2..] == b;
    } else {
      assert s[0] == a[0] && a[0] in a;
      assert s[1..] == a[1..] + "-W" + b;
      SplitWeekPrint(a[1..], b);
      assert [a[0]] + a[1..] == a;
    }
  }

  lemma ParseWeekPrint(day: int)
    requires day >= 0
    ensures var (y, w) := IsoWeek(day);
            SplitWeek(Year4(y, 3) + "-W" + Two(w)) == Some((Year4(y, 3), Two(w)))
            && Atoi(Year4(y, 3)) == Some(y) && Atoi(Two(w)) == Some(w)
  {
    var (y, w) := IsoWeek(day);
    IsoWeekRoundTrip(day);
    IsoYearPositive(day);
    var a := Year4(y, 3);
    assert AllDigits(a);
    assert '-' !in a;
    SplitWeekPrint(a, Two(w));
    AtoiPad(4, y);
    AtoiPad(2, w);
  }

  /** Parsing a printed id gives the end of the day, ISO week or month the instant is in. */
  lemma WindowRoundTrip(w: WindowSpec, t: Instant)
    requires Dated(w.kind) && InRange(t)
    ensures ParseEnd(WindowID(w, t)) == Some(PeriodEnd(w.kind, t))
  {
    match w.kind
    case Daily => DailyRoundTrip(w, t);
    case Monthly => MonthlyRoundTrip(w, t);
    case Weekly => WeeklyRoundTrip(w, t);
  }

  lemma DailyRoundTrip(w: WindowSpec, t: Instant)
    requires w.kind.Daily? && InRange(t)
    ensures ParseEnd(WindowID(w, t)) == Some(PeriodEnd(w.kind, t))
  {
    hide DailyEnd, MonthlyEnd, WeeklyEnd, DayBody, YearOf, DayNumber;
    YearInRange(t);
    DayEndPrint(Civil(DayOf(t)));
  }

  lemma MonthlyRoundTrip(w: WindowSpec, t: Instant)
    requires w.kind.Monthly? && InRange(t)
    ensures ParseEnd(WindowID(w, t)) == Some(PeriodEnd(w.kind, t))
  {
    hide ParseEnd, MonthBody, YearOf;
    YearInRange(t);
    MonthIdEnd(DayOf(t));
  }

  lemma WeeklyRoundTrip(w: WindowSpec, t: Instant)
    requires w.kind.Weekly? && InRange(t)
    ensures ParseEnd(WindowID(w, t)) == Some(PeriodEnd(w.kind, t))
  {
    hide ParseEnd, WeekBody, MonthBody, DayBody, Civil, MondayOf;
    WeekEndPrint(DayOf(t));
  }

  lemma DayEndPrint(d: Date)
    requires ValidDate(d) && 0 <= d.year <= 9999
    ensures ParseEnd("d=" + DayBody(d)) == Some(Midnight(DayNumber(d) + 1))
  {
    ParseDayPrint(d);
    assert ("d=" + DayBody(d))[2..] == DayBody(d);
  }

  lemma MonthEndPrint(d: Date)
    requires 0 <= d.year <= 9999 && 1 <= d.month <= 12
    ensures ParseEnd("m=" + MonthBody(d))
            == Some(Midnight(YearStart(d.year) + MonthStart(Leap(d.year), d.month + 1)))
  {
    ParseMonthPrint(d);
    assert ("m=" + MonthBody(d))[2..] == MonthBody(d);
  }

  lemma MonthIdEnd(day: int)
    requires 1 <= Civil(day).year <= 9999
    ensures ParseEnd("m=" + MonthBody(Civil(day))) == Some(Midnight(MonthEnd(day)))
  {
    hide ParseEnd, MonthBody, YearOf;
    MonthEndPrint(Civil(day));
  }

  lemma WeekEndPrint(day: int)
    requires day >= 0
    ensures ParseEnd("w=" + WeekBody(day)) == Some(Midnight(MondayOf(day) + 7))
  {
    hide WeekBody, MondayOf, WeeklyEnd;
    WeekBodyEnd(day);
    assert ("w=" + WeekBody(day))[2..] == WeekBody(day);
  }

  lemma WeekBodyEnd(day: int)
    requires day >= 0
    ensures WeeklyEnd(WeekBody(day)) == Some(Midnight(MondayOf(day) + 7))
  {
    hide IsoWeek, MondayOf, IsoWeekStart, SplitWeek, Atoi, Year4, Two, Midnight;
    ParseWeekPrint(day);
    IsoWeekRoundTrip(day);
  }

  /** The period holds the instant, and every instant of it has the same period. */
  lemma PeriodHolds(k: WindowKind, t: Instant, u: Instant)
    requires Dated(k)
    ensures PeriodStart(k, t) <= t < PeriodEnd(k, t)
    ensures PeriodStart(k, t) <= u < PeriodEnd(k, t) <==> PeriodStart(k, u) == PeriodStart(k, t)
  {
    var a, b := DayOf(t), DayOf(u);
    DayBounds(t);
    DayBounds(u);
    match k
    case Daily =>
    case Weekly => SameWeek(a, b);
    case Monthly => SameMonthIff(a, b);
  }

  lemma SameMonthIff(a: int, b: int)
    ensures MonthBegin(a) <= a < MonthEnd(a)
    ensures MonthBegin(a) <= b < MonthEnd(a) <==> MonthBegin(a) == MonthBegin(b)
  {
    assert MonthBegin(b) <= b < MonthEnd(b);
    if MonthBegin(a) <= b < MonthEnd(a) {
      SameMonth(a, b);
    } else if MonthBegin(a) == MonthBegin(b) {
      SameMonth(b, MonthBegin(a));
      SameMonth(a, MonthBegin(a));
    }
  }

  lemma DayBounds(t: Instant)
    ensures Midnight(DayOf(t)) <= t < Midnight(DayOf(t) + 1)
  {
  }

  lemma SameWeek(a: int, b: int)
    ensures MondayOf(a) <= b < MondayOf(a) + 7 <==> MondayOf(a) == MondayOf(b)
  {
    MondayResidue(a);
    MondayResidue(b);
    if MondayOf(a) <= b < MondayOf(a) + 7 {
      SameResidue(MondayOf(a), MondayOf(b), b - 6);
    }
  }

  /** Two instants share a window id exactly when the second lies in the first one's period. */
  lemma SameIdSamePeriod(w: WindowSpec, t: Instant, u: Instant)
    requires Dated(w.kind) && InRange(t) && InRange(u)
    ensures WindowID(w, t) == WindowID(w, u) <==> PeriodStart(w.kind, t) <= u < PeriodEnd(w.kind, t)
  {
    PeriodHolds(w.kind, t, u);
    PeriodHolds(w.kind, u, t);
    if WindowID(w, t) == WindowID(w, u) {
      WindowRoundTrip(w, t);
      WindowRoundTrip(w, u);
    } else if PeriodStart(w.kind, t) <= u < PeriodEnd(w.kind, t) {
      SameDateFields(w, t, u);
    }
  }

  lemma SameDateFields(w: WindowSpec, t: Instant, u: Instant)
    requires Dated(w.kind) && PeriodStart(w.kind, t) == PeriodStart(w.kind, u)
    ensures WindowID(w, t) == WindowID(w, u)
  {
    var a, b := DayOf(t), DayOf(u);
    match w.kind
    case Daily =>
    case Weekly => WeekFields(a, b);
    case Monthly => MonthFields(a, b);
  }

  lemma WeekFields(a: int, b: int)
    requires MondayOf(a) == MondayOf(b)
    ensures WeekBody(a) == WeekBody(b)
  {
    hide MondayOf, YearOf, YearStart, Year4, Two, IsoWeekStart;
    assert IsoWeek(a) == IsoWeek(b);
  }

  lemma MonthFields(a: int, b: int)
    requires MonthBegin(a) == MonthBegin(b)
    ensures MonthBody(Civil(a)) == MonthBody(Civil(b))
  {
    SameMonthIff(a, b);
    SameMonth(a, b);
  }

  lemma Decimals()
    ensures Year4(2026, 3) == "2026" && Year4(2026, 4) == "2026" && Two(6) == "06" && Two(13) == "13" && Two(24) == "24"
  {
    assert Itoa(2) == "2";
    assert Itoa(20) == "20";
    assert Itoa(202) == "202";
    assert Itoa(2026) == "2026";
    assert Itoa(1) == "1" && Itoa(13) == "13" && Itoa(24) == "24" && Itoa(6) == "6";
  }

  lemma June2026()
    ensures YearStart(2026) == 739616 && !Leap(2026)
    ensures ValidDate(Date(2026, 6, 13)) && DayNumber(Date(2026, 6, 13)) == 739779 && MondayOf(739779) == 739774
  {
  }

  lemma Week24(day: int)
    requires day == 739779
    ensures IsoWeek(day) == (2026, 24)
  {
    hide YearOf;
    June2026();
    YearUnique(2026, day - 2);
  }

  lemma June13Month()
    ensures MonthBody(Date(2026, 6, 13)) == "2026-06"
  {
    hide Year4, Two;
    Decimals();
    Joined("2026", "-", "06", "2026-06");
  }

  lemma June13Day()
    ensures DayBody(Date(2026, 6, 13)) == "2026-06-13"
  {
    hide Two, MonthBody;
    Decimals();
    June13Month();
    Joined("2026-06", "-", "13", "2026-06-13");
  }

  lemma June13Week(day: int)
    requires day == 739779
    ensures WeekBody(day) == "2026-W24"
  {
    hide Year4, Two, IsoWeek, Civil, WeekBody;
    Week24(day);
    WeekText(day, 2026, 24);
    Decimals();
    Joined("2026", "-W", "24", "2026-W24");
  }

  lemma WeekText(day: int, y: int, w: nat)
    requires IsoWeek(day) == (y, w)
    ensures WeekBody(day) == Year4(y, 3) + "-W" + Two(w)
  {
    hide Year4, Two, IsoWeek, IsoWeekStart, MondayOf;
  }

  lemma Joined(a: string, sep: string, b: string, r: string)
    requires |r| == |a| + |sep| + |b| && r[..|a|] == a && r[|a|..|a| + |sep|] == sep && r[|a| + |sep|..] == b
    ensures a + sep + b == r
  {
  }

  /** The ids of 13 June 2026, a Saturday in ISO week 24, and the ends of its day, week and month. */
  lemma KnownIds(t: Instant)
    requires DayOf(t) == 739779
    ensures WindowID(WindowSpec(Daily, ""), t) == "d=2026-06-13"
    ensures WindowID(WindowSpec(Weekly, ""), t) == "w=2026-W24"
    ensures WindowID(WindowSpec(Monthly, ""), t) == "m=2026-06"
  {
    hide Civil, DayBody, WeekBody, MonthBody, DayOf;
    June2026();
    CivilOfDate(Date(2026, 6, 13));
    June13Day();
    June13Week(DayOf(t));
    June13Month();
    assert "d=" + "2026-06-13" == "d=2026-06-13";
    assert "w=" + "2026-W24" == "w=2026-W24";
    assert "m=" + "2026-06" == "m=2026-06";
  }

  lemma KnownEnds(t: Instant)
    requires DayOf(t) == 739779
    ensures PeriodEnd(Daily, t) == 86400 * 739780
    ensures PeriodEnd(Weekly, t) == 86400 * 739781
    ensures PeriodEnd(Monthly, t) == 86400 * 739797
  {
    hide Civil, YearStart, DayOf;
    June2026();
    CivilOfDate(Date(2026, 6, 13));
  }

  // ---------------------------------------------------------------- reading a cadence

  function Keyword(k: WindowKind): string {
    match k
    case Daily => "daily"
    case Weekly => "weekly"
    case Monthly => "monthly"
    case _ => "alltime"
  }

  /** Resolve; `lower` is the lower-casing of the query parameter. */
  function ResolveParam(lower: string -> string, param: string, now: Instant): string {
    var p := lower(param);
    if p == "" || p == "all" || p == "alltime" then "all"
    else if p == "daily" then WindowID(WindowSpec(Daily, ""), now)
    else if p == "weekly" then WindowID(WindowSpec(Weekly, ""), now)
    else if p == "monthly" then WindowID(WindowSpec(Monthly, ""), now)
    else param
  }

  /** Asking for a cadence reads the board a score of time t went to exactly when t is in the current
      period. */
  lemma ResolveFinds(lower: string -> string, param: string, w: WindowSpec, now: Instant, t: Instant)
    requires Dated(w.kind) && InRange(now) && InRange(t) && lower(param) == Keyword(w.kind)
    ensures WindowID(w, t) == ResolveParam(lower, param, now)
            <==> PeriodStart(w.kind, now) <= t < PeriodEnd(w.kind, now)
  {
    hide PeriodStart, PeriodEnd, DayBody, WeekBody, MonthBody, Civil;
    SameIdSamePeriod(w, now, t);
  }

  /** Anything but a cadence is taken as the id of a board itself, "" and "alltime" as the all-time one. */
  lemma ResolveLiteral(lower: string -> string, param: string, now: Instant)
    requires lower(param) !in {"daily", "weekly", "monthly"}
    ensures ResolveParam(lower, param, now) == if lower(param) in {"", "all", "alltime"} then "all" else param
  {
  }

  /** Ids that are not dated: a custom one is taken as given, anything else is the all-time one. */
  lemma UndatedId(w: WindowSpec, t: Instant)
    requires !Dated(w.kind)
    ensures WindowID(w, t) == if w.kind.Custom? then w.customId else "all"
  {
  }

  // ---------------------------------------------------------------- the reaper

  /** Whether a sweep at `now` sets a TTL on a key. */
  predicate Expires(raw: string, now: Instant, retain: int) {
    match WindowFromZKey(raw)
    case None => false
    case Some(win) =>
      match ParseEnd(win)
      case None => false
      case Some(end) => now > end + retain
  }

  /** Reaper.Sweep over the keys SCAN returned, in any order and with repetitions. */
  method Sweep(raw: seq<string>, now: Instant, retain: int) returns (expired: set<string>, count: nat)
    ensures expired == set r | r in raw && Expires(r, now, retain)
    ensures count == |raw| - Kept(raw, now, retain)
  {
    hide Expires, Kept;
    expired, count := {}, 0;
    KeptNone(now, retain);
    for i := 0 to |raw|
      invariant expired == set r | r in raw[..i] && Expires(r, now, retain)
      invariant count == i - Kept(raw[..i], now, retain)
    {
      var due := Due(raw[i], now, retain);
      SweepStep(raw, i, now, retain);
      if due {
        expired := expired + {raw[i]};
        count := count + 1;
      }
    }
    assert raw[..|raw|] == raw;
  }

  lemma KeptNone(now: Instant, retain: int)
    ensures Kept([], now, retain) == 0
  {
  }

  /** The decision on one key. */
  method Due(raw: string, now: Instant, retain: int) returns (due: bool)
    ensures due <==> Expires(raw, now, retain)
  {
    hide WindowFromZKey, ParseEnd;
    var win := WindowFromZKey(raw);
    if win.None? {
      return false;
    }
    var end := ParseEnd(win.value);
    return end.Some? && now > end.value + retain;
  }

  lemma SweepStep(raw: seq<string>, i: nat, now: Instant, retain: int)
    requires i < |raw|
    ensures Kept(raw[..i + 1], now, retain) == Kept(raw[..i], now, retain) + if Expires(raw[i], now, retain) then 0 else 1
    ensures (set r | r in raw[..i + 1] && Expires(r, now, retain))
            == (set r | r in raw[..i] && Expires(r, now, retain)) + (if Expires(raw[i], now, retain) then {raw[i]} else {})
  {
    hide Expires;
    assert raw[..i + 1][..i] == raw[..i];
    assert raw[..i + 1] == raw[..i] + [raw[i]];
  }

  /** How many scanned keys a sweep leaves alone. */
  function Kept(raw: seq<string>, now: Instant, retain: int): (n: nat)
    ensures n <= |raw|
  {
    if raw == [] then 0
    else Kept(raw[..|raw| - 1], now, retain) + (if Expires(Last(raw), now, retain) then 0 else 1)
  }

  /** A board's dated window is expired exactly when its period ended more than `retain` ago; in
      particular never while it could hold an instant newer than now - retain. */
  lemma ReaperSafe(k: BoardKey, w: WindowSpec, t: Instant, now: Instant, retain: int)
    requires ValidKey(k) && Dated(w.kind) && InRange(t) && k.window == WindowID(w, t)
    ensures Expires(ZKey(k), now, retain) <==> now > PeriodEnd(w.kind, t) + retain
    ensures Expires(ZKey(k), now, retain) ==>
              forall u :: InRange(u) && WindowID(w, u) == k.window ==> u < now - retain
  {
    ParseZKey(k);
    WindowRoundTrip(w, t);
    forall u | InRange(u) && WindowID(w, u) == k.window
      ensures u < PeriodEnd(w.kind, t)
    {
      SameIdSamePeriod(w, t, u);
    }
  }

  lemma NoPeriod(id: string)
    requires id == "all" || |id| < 2 || id[1] != '=' || id[0] !in {'d', 'm', 'w'}
    ensures ParseEnd(id) == None
  {
  }

  /** Boards without a dated window are never expired: the all-time board, and custom ids of any other form
      than the dated ones. */
  lemma UndatedStays(k: BoardKey, now: Instant, retain: int)
    requires ValidKey(k)
    requires k.window in {"", "all"} || |k.window| < 2 || k.window[1] != '=' || k.window[0] !in {'d', 'm', 'w'}
    ensures !Expires(ZKey(k), now, retain)
  {
    hide ParseEnd, ValidKey;
    ParseZKey(k);
    NoPeriod(OrAll(k.window));
  }
}
