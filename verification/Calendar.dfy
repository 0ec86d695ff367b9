/** The proleptic Gregorian calendar and ISO weeks, as day numbers counted from 0001-01-01 (day 0,
    a Monday). */
module Calendar {

  predicate Leap(y: int) { y % 4 == 0 && (y % 100 != 0 || y % 400 == 0) }

  /** Days before January 1st of year y. */
  function YearStart(y: int): int {
    var n := y - 1;
    365 * n + n / 4 - n / 100 + n / 400
  }

  function YearLength(y: int): int { if Leap(y) then 366 else 365 }

  lemma NextYear(y: int)
    ensures YearStart(y + 1) == YearStart(y) + YearLength(y)
  {
    Every4(y - 1);
    Every100(y - 1);
    Every400(y - 1);
    Centuries(y);
  }

  lemma Every4(n: int)
    ensures (n + 1) / 4 == n / 4 + (if (n + 1) % 4 == 0 then 1 else 0)
  {
  }

  lemma Every100(n: int)
    ensures (n + 1) / 100 == n / 100 + (if (n + 1) % 100 == 0 then 1 else 0)
  {
  }

  lemma Every400(n: int)
    ensures (n + 1) / 400 == n / 400 + (if (n + 1) % 400 == 0 then 1 else 0)
  {
  }

  lemma Centuries(y: int)
    ensures y % 100 == 0 ==> y % 4 == 0
    ensures y % 400 == 0 ==> y % 100 == 0
  {
    if y % 100 == 0 {
      Hundreds(y / 100);
    }
    if y % 400 == 0 {
      FourHundreds(y / 400);
    }
  }

  lemma Hundreds(q: int)
    ensures (100 * q) % 4 == 0
  {
    assert 100 * q == 4 * (25 * q);
  }

  lemma FourHundreds(q: int)
    ensures (400 * q) % 100 == 0
  {
    assert 400 * q == 100 * (4 * q);
  }

  lemma {:induction false} YearOrder(y: int, z: int)
    requires y < z
    ensures YearStart(y) + YearLength(y) <= YearStart(z)
    decreases z - y
  {
    NextYear(z - 1);
    if y < z - 1 {
      YearOrder(y, z - 1);
    } 
  }

  function YearFrom(y: int, day: int): (r: int)
    requires YearStart(y) <= day
    ensures YearStart(r) <= day < YearStart(r) + YearLength(r)
    decreases day - YearStart(y)
  {
    NextYear(y);
    if day < YearStart(y + 1) then y else YearFrom(y + 1, day)
  }

  /** The year a day falls in. */
  function YearOf(day: int): (r: int)
    ensures YearStart(r) <= day < YearStart(r) + YearLength(r)
  {
    var n := if day >= 0 then day / 366 else day / 365 - 1;
    assert YearStart(n + 1) <= day;
    YearFrom(n + 1, day)
  }

  const MONTHS: seq<int> := [0, 31, 59, 90, 120, 151, 181, 212, 243, 273, 304, 334, 365]

  /** Days before the first of month m within a year; month 13 stands for the year's end. */
  function MonthStart(leap: bool, m: nat): int
    requires 1 <= m <= 13
  {
    MONTHS[m - 1] + (if leap && m > 2 then 1 else 0)
  }

  function MonthLength(leap: bool, m: nat): int
    requires 1 <= m <= 12
  {
    MonthStart(leap, m + 1) - MonthStart(leap, m)
  }

  function MonthFrom(leap: bool, yday: int, m: nat): (r: nat)
    requires 1 <= m <= 12 && MonthStart(leap, m) <= yday < MonthStart(leap, 13)
    ensures 1 <= r <= 12 && MonthStart(leap, r) <= yday < MonthStart(leap, r + 1)
    decreases 12 - m
  {
    if yday < MonthStart(leap, m + 1) then m else MonthFrom(leap, yday, m + 1)
  }

  datatype Date = Date(year: int, month: nat, day: nat)

  predicate ValidDate(d: Date) {
    1 <= d.month <= 12 && 1 <= d.day <= MonthLength(Leap(d.year), d.month)
  }

  function DayNumber(d: Date): int
    requires ValidDate(d)
  {
    YearStart(d.year) + MonthStart(Leap(d.year), d.month) + d.day - 1
  }

  /** The civil date of a day number. */
  function Civil(day: int): (d: Date)
    ensures ValidDate(d) && DayNumber(d) == day
  {
    var y := YearOf(day);
    var yday := day - YearStart(y);
    var m := MonthFrom(Leap(y), yday, 1);
    Date(y, m, yday - MonthStart(Leap(y), m) + 1)
  }

  /** The first day of the month holding `day`, and of the month after it. */
  function MonthBegin(day: int): int {
    var d := Civil(day);
    YearStart(d.year) + MonthStart(Leap(d.year), d.month)
  }

  function MonthEnd(day: int): int {
    var d := Civil(day);
    YearStart(d.year) + MonthStart(Leap(d.year), d.month + 1)
  }

  lemma {:induction false} MonthOrder(leap: bool, a: nat, b: nat)
    requires 1 <= a < b <= 13
    ensures MonthStart(leap, a) < MonthStart(leap, b)
  {
  }

  lemma YearUnique(y: int, day: int)
    requires YearStart(y) <= day < YearStart(y) + YearLength(y)
    ensures YearOf(day) == y
  {
    var r := YearOf(day);
    if r < y {
      YearOrder(r, y);
    } else if y < r {
      YearOrder(y, r);
    }
  }

  lemma MonthsInYear(leap: bool, m: nat)
    requires 1 <= m <= 12
    ensures 0 <= MonthStart(leap, m) < MonthStart(leap, m + 1) <= (if leap then 366 else 365)
  {
  }

  lemma MonthUnique(leap: bool, m: nat, n: nat, yday: int)
    requires 1 <= m <= 12 && 1 <= n <= 12
    requires MonthStart(leap, m) <= yday < MonthStart(leap, m + 1)
    requires MonthStart(leap, n) <= yday < MonthStart(leap, n + 1)
    ensures m == n
  {
    if n + 1 < m {
      MonthOrder(leap, n + 1, m);
    } else if m + 1 < n {
      MonthOrder(leap, m + 1, n);
    }
  }

  /** A date is recovered from its day number. */
  lemma CivilOfDate(d: Date)
    requires ValidDate(d)
    ensures Civil(DayNumber(d)) == d
  {
    var day, leap := DayNumber(d), Leap(d.year);
    MonthsInYear(leap, d.month);
    YearUnique(d.year, day);
    MonthUnique(leap, d.month, Civil(day).month, day - YearStart(d.year));
  }

  lemma MonthLengths(leap: bool, m: nat)
    requires 1 <= m <= 12
    ensures MonthLength(leap, m) == if m == 2 then (if leap then 29 else 28) else if m in {4, 6, 9, 11} then 30 else 31
    ensures MonthStart(leap, 1) == 0
  {
  }

  /** Where the day count is anchored: day 0 is Monday 0001-01-01, and the Gregorian cycle of 400 years
      is a whole number of weeks. */
  lemma Anchored(d: Date)
    requires ValidDate(d)
    ensures DayNumber(Date(1, 1, 1)) == 0 && Weekday(0) == 0
    ensures ValidDate(d.(year := d.year + 400)) && DayNumber(d.(year := d.year + 400)) == DayNumber(d) + 146097
    ensures Weekday(DayNumber(d) + 146097) == Weekday(DayNumber(d))
  {
    FourCenturies(d.year);
    assert 146097 == 7 * 20871;
  }

  lemma FourCenturies(y: int)
    ensures Leap(y + 400) == Leap(y) && YearStart(y + 400) == YearStart(y) + 146097
  {
    var n := y - 1;
    assert (n + 400) / 4 == n / 4 + 100;
    assert (n + 400) / 100 == n / 100 + 4;
    assert (n + 400) / 400 == n / 400 + 1;
  }

  /** Every day of a month has that month's date fields. */
  lemma SameMonth(day: int, other: int)
    requires MonthBegin(day) <= other < MonthEnd(day)
    ensures Civil(other).year == Civil(day).year && Civil(other).month == Civil(day).month
    ensures MonthBegin(other) == MonthBegin(day)
  {
    var y := Civil(day).year;
    var m := Civil(day).month;
    MonthsInYear(Leap(y), m);
    YearUnique(y, other);
    MonthUnique(Leap(y), m, Civil(other).month, other - YearStart(y));
  }

  // ---------------------------------------------------------------- ISO 8601 weeks

  /** Monday = 0 .. Sunday = 6. */
  function Weekday(day: int): int { day % 7 }

  function MondayOf(day: int): int { day - Weekday(day) }

  /** time.Time.ISOWeek: the year and week number of the Thursday of the day's week. */
  function IsoWeek(day: int): (int, int) {
    var thursday := MondayOf(day) + 3;
    var y := YearOf(thursday);
    (y, (thursday - YearStart(y)) / 7 + 1)
  }

  /** Monday of a numbered ISO week: week 1 is the one holding January 4th. */
  function IsoWeekStart(year: int, week: int): int {
    var jan4 := YearStart(year) + 3;
    MondayOf(jan4) + (week - 1) * 7
  }

  /** Numbering a week and finding its Monday are inverse. */
  lemma IsoWeekRoundTrip(day: int)
    ensures var (y, w) := IsoWeek(day);
            IsoWeekStart(y, w) == MondayOf(day) && 1 <= w <= 53
  {
    var thursday := MondayOf(day) + 3;
    MondayResidue(day);
    WeekArithmetic(thursday, YearStart(YearOf(thursday)));
  }

  lemma MondayResidue(day: int)
    ensures MondayOf(day) % 7 == 0 && (MondayOf(day) + 3) % 7 == 3
  {
    assert MondayOf(day) == 7 * (day / 7);
  }

  lemma WeekArithmetic(thursday: int, a: int)
    requires thursday % 7 == 3 && 0 <= thursday - a < 366
    ensures var w := (thursday - a) / 7 + 1;
            MondayOf(a + 3) + (w - 1) * 7 == thursday - 3 && 1 <= w <= 53
  {
    var k := (thursday - a) / 7;
    var p := thursday - 7 * k;
    MondayResidue(a + 3);
    SameResidue(p, MondayOf(a + 3) + 3, a);
  }

  /** Two numbers a multiple of seven apart within one window of seven are equal. */
  lemma SameResidue(p: int, q: int, a: int)
    requires a <= p < a + 7 && a <= q < a + 7 && p % 7 == q % 7
    ensures p == q
  {
  }

  /** The ISO year of a day in year 1 or later is at least 1. */
  lemma IsoYearPositive(day: int)
    requires day >= 0
    ensures IsoWeek(day).0 >= 1
  {
    var thursday := MondayOf(day) + 3;
    assert thursday >= 0;
    var y := YearOf(thursday);
    if y < 1 {
      YearOrder(y, 1);
    }
  }
}
