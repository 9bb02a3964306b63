/**
 * Calendar arithmetic shared by the dashboard scripts and the proxy:
 * ISO dates, their order, the day after a date, the Jul 1 .. Jun 30 snow
 * season and the Nov 1 .. Mar 31 contest window, weekdays, the nth weekday
 * of a month (holidays) and the contest stage.
 */
module Calendar {
  import opened Options
  import Text

  /** A calendar day, as written in an ISO `YYYY-MM-DD` string. */
  datatype Date = Date(year: int, month: int, day: int)

  predicate IsLeapYear(y: int) {
    (y % 4 == 0 && y % 100 != 0) || y % 400 == 0
  }

  function DaysInMonth(y: int, m: int): (n: int)
    requires 1 <= m <= 12
    ensures 28 <= n <= 31
    ensures n == 29 <==> m == 2 && IsLeapYear(y)
  {
    if m == 2 then (if IsLeapYear(y) then 29 else 28)
    else if m == 4 || m == 6 || m == 9 || m == 11 then 30
    else 31
  }

  predicate ValidDate(d: Date) {
    1 <= d.month <= 12 && 1 <= d.day <= DaysInMonth(d.year, d.month)
  }

  /**
   * ISO date strings with four-digit years compare character by character,
   * which is year first, then month, then day.
   */
  predicate Before(a: Date, b: Date) {
    a.year < b.year ||
    (a.year == b.year && (a.month < b.month || (a.month == b.month && a.day < b.day)))
  }

  predicate AtOrBefore(a: Date, b: Date) {
    Before(a, b) || a == b
  }

  /** An integer that orders valid dates as `Before` does (used as a termination measure). */
  function Key(d: Date): int {
    d.year * 512 + d.month * 32 + d.day
  }

  lemma KeyOrder(a: Date, b: Date)
    requires ValidDate(a) && ValidDate(b)
    ensures Before(a, b) <==> Key(a) < Key(b)
    ensures a == b <==> Key(a) == Key(b)
  {
  }

  lemma BeforeTransitive(a: Date, b: Date, c: Date)
    requires AtOrBefore(a, b) && AtOrBefore(b, c)
    ensures AtOrBefore(a, c)
    ensures Before(a, b) || Before(b, c) ==> Before(a, c)
  {
  }

  /** The calendar day after `d` (PHP `modify('+1 day')`). */
  function NextDay(d: Date): (r: Date)
    requires ValidDate(d)
    ensures ValidDate(r) && Before(d, r)
    ensures forall x :: ValidDate(x) && Before(d, x) ==> AtOrBefore(r, x)
  {
    if d.day < DaysInMonth(d.year, d.month) then Date(d.year, d.month, d.day + 1)
    else if d.month < 12 then Date(d.year, d.month + 1, 1)
    else Date(d.year + 1, 1, 1)
  }

  /** Every calendar day from `from` to `to` inclusive, in order; empty when `to` is before `from`. */
  function CalendarDays(from: Date, to: Date): (r: seq<Date>)
    requires ValidDate(from) && ValidDate(to)
    decreases Key(to) - Key(from)
  {
    if Before(to, from) then []
    else if from == to then [from]
    else
      KeyOrder(from, to);
      KeyOrder(NextDay(from), to);
      [from] + CalendarDays(NextDay(from), to)
  }

  /** The day list of a non-empty range starts at `from`, ends at `to` and steps one day at a time. */
  lemma {:induction false} CalendarDaysShape(from: Date, to: Date)
    requires ValidDate(from) && ValidDate(to) && AtOrBefore(from, to)
    ensures var r := CalendarDays(from, to);
      && |r| >= 1 && r[0] == from && r[|r| - 1] == to
      && (forall i :: 0 <= i < |r| ==> ValidDate(r[i]) && AtOrBefore(from, r[i]) && AtOrBefore(r[i], to))
      && (forall i :: 0 <= i < |r| - 1 ==> r[i + 1] == NextDay(r[i]))
    decreases Key(to) - Key(from)
  {
    if from != to {
      KeyOrder(from, to);
      KeyOrder(NextDay(from), to);
      CalendarDaysShape(NextDay(from), to);
      var r := CalendarDays(from, to);
      var rest := CalendarDays(NextDay(from), to);
      assert r == [from] + rest;
      forall i | 0 <= i < |r|
        ensures ValidDate(r[i]) && AtOrBefore(from, r[i]) && AtOrBefore(r[i], to)
      {
        if i > 0 {
          assert r[i] == rest[i - 1];
          BeforeTransitive(from, NextDay(from), r[i]);
        }
      }
    }
  }

  /**
   * A day-by-day walk over `days`: after `k` steps the cursor `dt` is
   * `days[k]`, or lies past `to` once every day has been visited.
   */
  ghost predicate WalkAt(days: seq<Date>, k: nat, dt: Date, to: Date) {
    ValidDate(dt) && k <= |days| && (k < |days| ==> dt == days[k]) && (k == |days| ==> Before(to, dt))
  }

  /** While the cursor is not past `to`, one more day is left, and the day after it is where the walk goes next. */
  lemma WalkStep(from: Date, to: Date, k: nat, dt: Date)
    requires ValidDate(from) && ValidDate(to) && AtOrBefore(from, to)
    requires WalkAt(CalendarDays(from, to), k, dt, to) && AtOrBefore(dt, to)
    ensures k < |CalendarDays(from, to)| && WalkAt(CalendarDays(from, to), k + 1, NextDay(dt), to)
  {
    var days := CalendarDays(from, to);
    CalendarDaysShape(from, to);
    if k == |days| {
      assert false;
    }
    if k + 1 < |days| {
      assert days[k + 1] == NextDay(days[k]);
    } else {
      assert dt == to;
    }
  }

  /** Consecutive days are strictly increasing, so no date appears twice. */
  lemma {:induction false} CalendarDaysIncreasing(from: Date, to: Date, i: int, j: int)
    requires ValidDate(from) && ValidDate(to)
    requires 0 <= i < j < |CalendarDays(from, to)|
    ensures Before(CalendarDays(from, to)[i], CalendarDays(from, to)[j])
    decreases Key(to) - Key(from)
  {
    KeyOrder(from, to);
    KeyOrder(NextDay(from), to);
    var rest := CalendarDays(NextDay(from), to);
    assert CalendarDays(from, to) == [from] + rest;
    if i == 0 {
      CalendarDaysShape(NextDay(from), to);
      BeforeTransitive(from, NextDay(from), rest[j - 1]);
    } else {
      CalendarDaysIncreasing(NextDay(from), to, i - 1, j - 1);
    }
  }

  /** No day of the range is skipped: every valid date between the bounds is listed. */
  lemma {:induction false} CalendarDaysComplete(from: Date, to: Date, d: Date)
    requires ValidDate(from) && ValidDate(to) && ValidDate(d)
    requires AtOrBefore(from, d) && AtOrBefore(d, to)
    ensures d in CalendarDays(from, to)
    decreases Key(to) - Key(from)
  {
    if d != from {
      KeyOrder(from, to);
      KeyOrder(NextDay(from), to);
      assert CalendarDays(from, to) == [from] + CalendarDays(NextDay(from), to);
      CalendarDaysComplete(NextDay(from), to, d);
    }
  }

  // ---------------------------------------------------------------------
  // ISO text

  /** A month or day number with a leading zero below ten (`padStart(2, "0")`). */
  function Pad2(n: nat): string {
    if n < 10 then "0" + Text.NatToString(n) else Text.NatToString(n)
  }

  /** The ISO text of a date, `YYYY-MM-DD`. */
  function IsoText(d: Date): string {
    Text.IntToString(d.year) + "-" + Pad2(if d.month < 0 then 0 else d.month) + "-" + Pad2(if d.day < 0 then 0 else d.day)
  }

  // ---------------------------------------------------------------------
  // Seasons

  /**
   * The snow season a (year, month) belongs to: it starts on Jul 1, so
   * January to June belong to the season that began the previous July.
   */
  function SeasonStartYear(year: int, month: int): (y: int)
    requires 1 <= month <= 12
    ensures month >= 7 ==> y == year
    ensures month < 7 ==> y == year - 1
  {
    if month >= 7 then year else year - 1
  }

  function SeasonStart(startYear: int): Date { Date(startYear, 7, 1) }

  /** The season's label, "2024-2025". */
  function SeasonLabel(year: int): string {
    Text.IntToString(year) + "-" + Text.IntToString(year + 1)
  }

  function SeasonEnd(startYear: int): Date { Date(startYear + 1, 6, 30) }

  predicate InSeason(d: Date, startYear: int) {
    AtOrBefore(SeasonStart(startYear), d) && AtOrBefore(d, SeasonEnd(startYear))
  }

  /** The season chosen for a date is the one and only season whose window holds it. */
  lemma SeasonOfDate(d: Date, y: int)
    requires ValidDate(d)
    ensures InSeason(d, SeasonStartYear(d.year, d.month))
    ensures InSeason(d, y) <==> y == SeasonStartYear(d.year, d.month)
  {
  }

  /** A later date never belongs to an earlier season. */
  lemma SeasonStartYearMonotone(a: Date, b: Date)
    requires ValidDate(a) && ValidDate(b) && AtOrBefore(a, b)
    ensures SeasonStartYear(a.year, a.month) <= SeasonStartYear(b.year, b.month)
  {
  }

  /** The contest window of the older proxy runs from Nov 1 to Mar 31; it starts in November. */
  function ContestStartYear(year: int, month: int): (y: int)
    requires 1 <= month <= 12
    ensures month >= 11 ==> y == year
    ensures month < 11 ==> y == year - 1
  {
    if month >= 11 then year else year - 1
  }

  function ContestStart(startYear: int): Date { Date(startYear, 11, 1) }

  function ContestEnd(startYear: int): Date { Date(startYear + 1, 3, 31) }

  predicate InContest(d: Date, startYear: int) {
    AtOrBefore(ContestStart(startYear), d) && AtOrBefore(d, ContestEnd(startYear))
  }

  /**
   * A date inside some contest window selects that window; a date between
   * April and October selects the window that closed the previous March.
   */
  lemma ContestOfDate(d: Date, y: int)
    requires ValidDate(d)
    ensures InContest(d, y) ==> ContestStartYear(d.year, d.month) == y
    ensures 4 <= d.month <= 10 ==> Before(ContestEnd(ContestStartYear(d.year, d.month)), d)
  {
  }

  // ---------------------------------------------------------------------
  // Weekdays and holidays

  /** Day of the week, 0 = Sunday .. 6 = Saturday (Sakamoto's method; stands for JS `getDay`). */
  function Weekday(d: Date): (w: int)
    requires 1 <= d.month <= 12
    ensures 0 <= w < 7
  {
    var t := [0, 3, 2, 5, 0, 3, 5, 1, 4, 6, 2, 4];
    var y := if d.month < 3 then d.year - 1 else d.year;
    (y + y / 4 - y / 100 + y / 400 + t[d.month - 1] + d.day) % 7
  }

  /** Within one month the weekday advances by one per day. */
  lemma WeekdayInMonth(y: int, m: int, d: int)
    requires 1 <= m <= 12
    ensures Weekday(Date(y, m, d)) == (Weekday(Date(y, m, 1)) + d - 1) % 7
  {
    var t := [0, 3, 2, 5, 0, 3, 5, 1, 4, 6, 2, 4];
    var yy := if m < 3 then y - 1 else y;
    var c := yy + yy / 4 - yy / 100 + yy / 400 + t[m - 1];
    assert Weekday(Date(y, m, d)) == (c + d) % 7;
    assert Weekday(Date(y, m, 1)) == (c + 1) % 7;
    ModShift(c + 1, d - 1);
  }

  lemma DivModUnique(x: int, q: int, r: int)
    requires x == 7 * q + r && 0 <= r < 7
    ensures x / 7 == q && x % 7 == r
  {
    var q', r' := x / 7, x % 7;
    assert 7 * q' + r' == 7 * q + r;
    assert 7 * (q - q') == r' - r;
  }

  lemma ModShift(a: int, b: int)
    ensures (a + b) % 7 == (a % 7 + b) % 7
  {
    var q := a / 7;
    var k := (a % 7 + b) / 7;
    var r := (a % 7 + b) % 7;
    assert a + b == 7 * (q + k) + r;
    DivModUnique(a + b, q + k, r);
  }

  /**
   * `getNthWeekdayOfMonth`: the `nth` day of the month that falls on
   * `weekday`, or None when that day would spill out of the month.
   */
  function NthWeekdayOfMonth(year: int, month: int, weekday: int, nth: int): (r: Option<Date>)
    requires 1 <= month <= 12 && 0 <= weekday <= 6
    ensures r.Some? ==>
      && r.value.year == year && r.value.month == month && ValidDate(r.value)
      && Weekday(r.value) == weekday && (r.value.day - 1) / 7 == nth - 1
    ensures r.None? ==>
      forall d :: 1 <= d <= DaysInMonth(year, month) && Weekday(Date(year, month, d)) == weekday
        ==> (d - 1) / 7 != nth - 1
  {
    var first := Weekday(Date(year, month, 1));
    var offset := (7 + weekday - first) % 7;
    var day := 1 + offset + (nth - 1) * 7;
    NthWeekdayFacts(year, month, weekday, nth, first, offset, day);
    if 1 <= day <= DaysInMonth(year, month) then Some(Date(year, month, day)) else None
  }

  lemma NthWeekdayFacts(year: int, month: int, weekday: int, nth: int, first: int, offset: int, day: int)
    requires 1 <= month <= 12 && 0 <= weekday <= 6
    requires first == Weekday(Date(year, month, 1))
    requires offset == (7 + weekday - first) % 7
    requires day == 1 + offset + (nth - 1) * 7
    ensures Weekday(Date(year, month, day)) == weekday && (day - 1) / 7 == nth - 1
    ensures forall d :: Weekday(Date(year, month, d)) == weekday && (d - 1) / 7 == nth - 1 ==> d == day
  {
    WeekdayInMonth(year, month, day);
    NthDayArithmetic(first, weekday, nth, offset, day, day);
    forall d | Weekday(Date(year, month, d)) == weekday && (d - 1) / 7 == nth - 1
      ensures d == day
    {
      WeekdayInMonth(year, month, d);
      NthDayArithmetic(first, weekday, nth, offset, day, d);
    }
  }

  /** The arithmetic behind `getNthWeekdayOfMonth`, with the weekday of the 1st as `first`. */
  lemma NthDayArithmetic(first: int, weekday: int, nth: int, offset: int, day: int, d: int)
    requires 0 <= first < 7 && 0 <= weekday < 7
    requires offset == (7 + weekday - first) % 7
    requires day == 1 + offset + (nth - 1) * 7
    ensures (first + day - 1) % 7 == weekday && (day - 1) / 7 == nth - 1
    ensures (first + d - 1) % 7 == weekday && (d - 1) / 7 == nth - 1 ==> d == day
  {
    var lap := if first <= weekday then 0 else 1;
    DivModUnique(7 + weekday - first, 1 - lap, weekday + 7 * lap - first);
    assert first + offset == weekday + 7 * lap;
    DivModUnique(first + day - 1, nth - 1 + lap, weekday);
    DivModUnique(day - 1, nth - 1, offset);
    if (first + d - 1) % 7 == weekday && (d - 1) / 7 == nth - 1 {
      var r := (d - 1) % 7;
      DivModUnique(d - 1, nth - 1, r);
      var k := (first + r) / 7;
      assert first + d - 1 == 7 * (nth - 1 + k) + (first + r) % 7;
      DivModUnique(first + d - 1, nth - 1 + k, (first + r) % 7);
      assert first + r == 7 * k + weekday;
    }
  }

  /** The first four occurrences of a weekday always fall inside the month (every month has 28 days). */
  lemma {:induction false} UpToFourthAlwaysExists(year: int, month: int, weekday: int, nth: int)
    requires 1 <= month <= 12 && 0 <= weekday <= 6 && 1 <= nth <= 4
    ensures NthWeekdayOfMonth(year, month, weekday, nth).Some?
  {
    var first := Weekday(Date(year, month, 1));
    var offset := (7 + weekday - first) % 7;
    assert 0 <= offset < 7;
    assert 1 + offset + (nth - 1) * 7 <= 28;
  }

  // ---------------------------------------------------------------------
  // Contest stage

  datatype Stage = Unknown | Pre | Active | Done

  /**
   * `getStage`: instants are JS `Date` times (milliseconds); None stands for
   * a missing or invalid date.
   */
  function GetStage(now: Option<int>, start: Option<int>, end: Option<int>): (s: Stage)
    ensures s == Unknown <==> now.None? || start.None? || end.None?
    ensures s == Pre <==> now.Some? && start.Some? && end.Some? && now.value < start.value
    ensures s == Done <==> now.Some? && start.Some? && end.Some? && start.value <= now.value && end.value < now.value
    ensures s == Active <==> now.Some? && start.Some? && end.Some? && start.value <= now.value <= end.value
  {
    if now.None? || start.None? || end.None? then Unknown
    else if now.value < start.value then Pre
    else if now.value > end.value then Done
    else Active
  }
}
