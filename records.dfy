/**
 * `computeSeasonStats` of the records page: one pass over a season's daily
 * rows for the total, the heavy and major day counts, the largest day and
 * the longest streak; the longest lull between the first and the last
 * measurable day; the five holidays; and the record-holder selections of
 * `renderSummary`.
 */
module Records {
  import opened Options
  import opened Calendar
  import opened Series
  import opened Streaks
  import Text

  // ---------------------------------------------------------------------
  // The forward pass

  /** The accumulators of the `forEach` over the daily rows. */
  datatype Pass = Pass(total: real, heavy: nat, major: nat, largest: Option<nat>, streak: Best)

  /** The running sum and the heavy and major day counts over the first `i` days. */
  ghost predicate Tallied(s: seq<Day>, i: nat, total: real, heavy: nat, major: nat)
    requires i <= |s|
  {
    && total == TotalTo(s, i)
    && heavy == CountAtLeast(s, i, HeavyDayThreshold)
    && major == CountAtLeast(s, i, MajorDayThreshold)
  }

  /** Day `i` adds its numeric snow to the sum and counts as heavy or major when it reaches the threshold. */
  lemma TallyStep(s: seq<Day>, i: nat, total: real, heavy: nat, major: nat)
    requires i < |s| && Tallied(s, i, total, heavy, major)
    ensures Tallied(s, i + 1, total + Amount(s[i]),
      heavy + (if AtLeast(s[i], HeavyDayThreshold) then 1 else 0),
      major + (if AtLeast(s[i], MajorDayThreshold) then 1 else 0))
  {
  }

  /** `largest` is the first largest numeric day among the first `i`, absent when none of them is numeric. */
  ghost predicate LargestSoFar(s: seq<Day>, i: nat, largest: Option<nat>)
    requires i <= |s|
  {
    && (largest.Some? ==> IsFirstLargest(s, i, largest.value))
    && (largest.None? ==> NoNumericBefore(s, i))
  }

  /**
   * The `forEach` of `computeSeasonStats` and the closing `finalizeStreak()`:
   * sums the numeric snow, counts heavy and major days, keeps the first
   * largest day and the longest streak with its tie count and tie-break.
   */
  method ScanDays(s: seq<Day>) returns (r: Pass)
    ensures r.total == Total(s)
    ensures r.heavy == CountAtLeast(s, |s|, HeavyDayThreshold)
    ensures r.major == CountAtLeast(s, |s|, MajorDayThreshold)
    ensures r.largest.Some? ==> IsFirstLargest(s, |s|, r.largest.value)
    ensures r.largest.None? ==> NoNumericBefore(s, |s|)
    ensures LongestAmong(s, |s|, r.streak)
  {
    var total, heavy, major, largest := 0.0, 0, 0, None;
    var run, best := Idle, NoStreak;
    for i := 0 to |s|
      invariant Tallied(s, i, total, heavy, major)
      invariant LargestSoFar(s, i, largest)
      invariant Scanned(s, i, run, best)
    {
      var d := s[i];
      TallyStep(s, i, total, heavy, major);
      if d.snow.Measured? {
        total := total + d.snow.inches;
      }
      if d.snow.Measured? && d.snow.inches >= HeavyDayThreshold {
        heavy := heavy + 1;
      }
      if d.snow.Measured? && d.snow.inches >= MajorDayThreshold {
        major := major + 1;
      }
      largest := UpdateLargest(s, i, largest);
      run, best := StreakStep(s, i, d, run, best);
    }
    best, run := FinalizeStreak(s, |s|, run, best);
    r := Pass(total, heavy, major, largest, best);
  }

  // ---------------------------------------------------------------------
  // Holidays

  datatype Holiday = Holiday(key: string, name: string, date: Option<Date>)

  /** `getHolidayListForSeason`: Thanksgiving, Christmas, New Year's Day, MLK Day and Presidents Day. */
  function HolidayList(startYear: int): (r: seq<Holiday>)
    ensures |r| == 5
  {
    var next := startYear + 1;
    [ Holiday("thanksgiving", "Thanksgiving", NthWeekdayOfMonth(startYear, 11, 4, 4)),
      Holiday("christmas", "Christmas", Some(Date(startYear, 12, 25))),
      Holiday("newyear", "New Year\U{2019}s Day", Some(Date(next, 1, 1))),
      Holiday("mlk", "MLK Day", NthWeekdayOfMonth(next, 1, 1, 3)),
      Holiday("presidents", "Presidents Day", NthWeekdayOfMonth(next, 2, 1, 3)) ]
  }

  /** Every holiday of a season has a date, and that date lies in the season. */
  lemma HolidaysInSeason(startYear: int)
    ensures forall h :: h in HolidayList(startYear) ==>
      h.date.Some? && ValidDate(h.date.value) && InSeason(h.date.value, startYear)
  {
    UpToFourthAlwaysExists(startYear, 11, 4, 4);
    UpToFourthAlwaysExists(startYear + 1, 1, 1, 3);
    UpToFourthAlwaysExists(startYear + 1, 2, 1, 3);
  }

  /** A holiday with the snow of the first row carrying its date. */
  datatype HolidaySnow = HolidaySnow(holiday: Holiday, amount: Option<real>, measurable: bool)

  /** Position of the first row dated `date` (`daily.find(entry => entry.date === iso)`). */
  function FirstRowOn(s: seq<Day>, date: Date): (r: Option<nat>)
    ensures r.Some? ==>
      r.value < |s| && s[r.value].date == date && forall j :: 0 <= j < r.value ==> s[j].date != date
    ensures r.None? ==> forall j :: 0 <= j < |s| ==> s[j].date != date
  {
    FirstIndexWhere(s, (d: Day) => d.date == date)
  }

  /**
   * The snow on a holiday: the amount when the first row with its date is
   * numeric, and whether that amount is measurable; nothing otherwise.
   */
  function HolidayOutcome(s: seq<Day>, h: Holiday): (r: HolidaySnow)
    ensures r.holiday == h
    ensures r.measurable <==> r.amount.Some? && r.amount.value >= MeasurableThreshold
    ensures r.amount.Some? <==>
      h.date.Some? && FirstRowOn(s, h.date.value).Some? && IsNumeric(s[FirstRowOn(s, h.date.value).value])
    ensures r.amount.Some? ==> r.amount.value == s[FirstRowOn(s, h.date.value).value].snow.inches
  {
    if h.date.None? then HolidaySnow(h, None, false)
    else
      match FirstRowOn(s, h.date.value)
      case None => HolidaySnow(h, None, false)
      case Some(i) =>
        if IsNumeric(s[i]) then HolidaySnow(h, Some(s[i].snow.inches), s[i].snow.inches >= MeasurableThreshold)
        else HolidaySnow(h, None, false)
  }

  function Outcomes(s: seq<Day>, hs: seq<Holiday>): (r: seq<HolidaySnow>)
    ensures |r| == |hs| && forall i :: 0 <= i < |hs| ==> r[i] == HolidayOutcome(s, hs[i])
  {
    if |hs| == 0 then [] else [HolidayOutcome(s, hs[0])] + Outcomes(s, hs[1..])
  }

  /** `holidayHits`: the number of holidays with measurable snow. */
  function Hits(hs: seq<HolidaySnow>): (n: nat)
    ensures n <= |hs|
    ensures n == |hs| <==> forall i :: 0 <= i < |hs| ==> hs[i].measurable
  {
    if |hs| == 0 then 0 else Hits(hs[..|hs| - 1]) + (if hs[|hs| - 1].measurable then 1 else 0)
  }

  // ---------------------------------------------------------------------
  // computeSeasonStats

  datatype Largest = Largest(index: nat, value: real, date: Date)

  datatype SeasonStats = SeasonStats(
    startYear: int,
    seasonLabel: string,
    firstIndex: Option<nat>,
    lastIndex: Option<nat>,
    firstSnow: Option<Date>,
    lastSnow: Option<Date>,
    heavyDayCount: nat,
    majorDayCount: nat,
    longestLull: Lull,
    longestStreak: Best,
    largestDaily: Option<Largest>,
    totalSnow: real,
    holidays: seq<HolidaySnow>,
    holidayHits: nat,
    holidayTotal: nat,
    allHolidaysSnowed: bool,
    dataLastUpdated: Option<Date>)


  /** A lull found in a window that starts at `offset`, moved to positions of the whole season. */
  function Shift(b: Lull, offset: nat): (r: Lull)
    ensures r.length == b.length && r.span.Some? == b.span.Some?
  {
    if b.span.None? then b
    else Lull(b.length, Some(Span(b.span.value.first + offset, b.span.value.last + offset)))
  }

  function Unshift(b: Lull, offset: nat): Lull
    requires b.span.Some? ==> b.span.value.first >= offset && b.span.value.last >= offset
  {
    if b.span.None? then b
    else Lull(b.length, Some(Span(b.span.value.first - offset, b.span.value.last - offset)))
  }

  /** `computeSeasonStats(json, startYear)` over the season's daily rows. */
  method ComputeSeasonStats(s: seq<Day>, startYear: int) returns (st: SeasonStats)
    ensures st.startYear == startYear && st.seasonLabel == SeasonLabel(startYear)
    // first and last measurable day
    ensures IsMeasurableBounds(s, st.firstIndex, st.lastIndex)
    ensures st.firstIndex.Some? ==>
      st.firstSnow == Some(s[st.firstIndex.value].date) && st.lastSnow == Some(s[st.lastIndex.value].date)
    ensures st.firstIndex.None? ==> st.firstSnow.None? && st.lastSnow.None?
    // the forward pass
    ensures st.totalSnow == Total(s)
    ensures st.heavyDayCount == CountAtLeast(s, |s|, HeavyDayThreshold)
    ensures st.majorDayCount == CountAtLeast(s, |s|, MajorDayThreshold)
    ensures st.majorDayCount <= st.heavyDayCount <= |s|
    ensures st.largestDaily.Some? ==>
      var x := st.largestDaily.value;
      IsFirstLargest(s, |s|, x.index) && x.value == s[x.index].snow.inches && x.date == s[x.index].date
    ensures st.largestDaily.None? ==> NoNumericBefore(s, |s|)
    ensures LongestAmong(s, |s|, st.longestStreak)
    // the lull between the first and the last measurable day
    ensures IsSeasonLull(s, st.firstIndex, st.lastIndex, st.longestLull)
    // holidays
    ensures st.holidays == Outcomes(s, HolidayList(startYear))
    ensures st.holidayTotal == 5 && st.holidayHits == Hits(st.holidays) <= st.holidayTotal
    ensures st.allHolidaysSnowed <==> forall i :: 0 <= i < |st.holidays| ==> st.holidays[i].measurable
    // the last row with data
    ensures st.dataLastUpdated.None? <==> forall j :: 0 <= j < |s| ==> !IsNumeric(s[j])
    ensures st.dataLastUpdated.Some? ==>
      exists i :: (0 <= i < |s| && IsNumeric(s[i]) && s[i].date == st.dataLastUpdated.value &&
                   forall j :: i < j < |s| ==> !IsNumeric(s[j]))
  {
    var first, last := MeasurableBounds(s);
    var firstSnow := if first.Some? then Some(s[first.value].date) else None;
    var lastSnow := if last.Some? then Some(s[last.value].date) else None;

    var pass := ScanDays(s);
    CountAtLeastAntitone(s, |s|, HeavyDayThreshold, MajorDayThreshold);
    var largest := None;
    if pass.largest.Some? {
      var i := pass.largest.value;
      largest := Some(Largest(i, s[i].snow.inches, s[i].date));
    }

    var lull := SeasonLull(s, first, last);
    var holidays := Outcomes(s, HolidayList(startYear));
    var hits := Hits(holidays);
    var updated := LastDataDate(s);
    st := SeasonStats(startYear, SeasonLabel(startYear), first, last, firstSnow, lastSnow,
                      pass.heavy, pass.major, lull, pass.streak, largest, pass.total,
                      holidays, hits, |holidays|, |holidays| > 0 && hits == |holidays|, updated);
  }

  /**
   * `first` is the first and `last` the last measurable day, both absent
   * exactly when no day is measurable.
   */
  predicate IsMeasurableBounds(s: seq<Day>, first: Option<nat>, last: Option<nat>) {
    && (first.None? <==> last.None?)
    && (first.None? ==> forall j :: 0 <= j < |s| ==> !IsMeasurable(s[j]))
    && (first.Some? ==>
          var f, l := first.value, last.value;
          && f <= l < |s| && IsMeasurable(s[f]) && IsMeasurable(s[l])
          && (forall j :: 0 <= j < f ==> !IsMeasurable(s[j]))
          && (forall j :: l < j < |s| ==> !IsMeasurable(s[j])))
  }

  /** `firstIndex` (`findIndex`) and `lastIndex` (a reverse loop): the first and the last measurable day. */
  method MeasurableBounds(s: seq<Day>) returns (first: Option<nat>, last: Option<nat>)
    ensures IsMeasurableBounds(s, first, last)
  {
    first := FirstIndexWhere(s, IsMeasurable);
    last := LastIndexWhere(s, IsMeasurable);
  }

  /**
   * No lull without a measurable day; otherwise the longest (earliest
   * longest) lull of the days from the first to the last measurable day,
   * which lies strictly between them.
   */
  predicate IsSeasonLull(s: seq<Day>, first: Option<nat>, last: Option<nat>, lull: Lull)
    requires IsMeasurableBounds(s, first, last)
  {
    && (first.None? ==> lull == NoLull)
    && (first.Some? ==>
          var f, l := first.value, last.value;
          && (lull.span.Some? ==> f < lull.span.value.first <= lull.span.value.last < l)
          && LongestLullAmong(s[f..l + 1], l + 1 - f, Unshift(lull, f)))
  }

  /**
   * The lull loop of `computeSeasonStats`: over the days from the first to
   * the last measurable day, when there are such days.
   */
  method SeasonLull(s: seq<Day>, first: Option<nat>, last: Option<nat>) returns (lull: Lull)
    requires IsMeasurableBounds(s, first, last)
    ensures IsSeasonLull(s, first, last, lull)
  {
    lull := NoLull;
    if first.Some? && last.Some? && last.value >= first.value {
      var f, l := first.value, last.value;
      var w := s[f..l + 1];
      var found := ScanLull(w);
      LullInsideWindow(w, found);
      lull := Shift(found, f);
      assert Unshift(lull, f) == found;
    }
  }

  // ---------------------------------------------------------------------
  // renderSummary

  /**
   * `key` is largest at position `r` among the positions that have a key,
   * and no earlier position has as large a key; no position is chosen only
   * when no position has a key.
   */
  predicate IsFirstMax(keys: seq<Option<real>>, r: Option<nat>) {
    && (r.None? <==> forall j :: 0 <= j < |keys| ==> keys[j].None?)
    && (r.Some? ==>
          && r.value < |keys| && keys[r.value].Some?
          && (forall j :: 0 <= j < |keys| && keys[j].Some? ==> keys[j].value <= keys[r.value].value)
          && (forall j :: 0 <= j < r.value && keys[j].Some? ==> keys[j].value < keys[r.value].value))
  }

  /**
   * The `reduce` of `renderSummary` after its `filter`: left to right, a
   * record replaces the current best only when its key is strictly greater.
   */
  function FirstMax(keys: seq<Option<real>>): (r: Option<nat>)
    ensures IsFirstMax(keys, r)
  {
    if |keys| == 0 then None
    else
      var last := |keys| - 1;
      var b := FirstMax(keys[..last]);
      assert forall j :: 0 <= j < last ==> keys[..last][j] == keys[j];
      if keys[last].None? then b
      else if b.None? || keys[last].value > keys[b.value].value then Some(last)
      else b
  }

  /** The record holders (positions in the list of seasons); `None` where no season qualifies. */
  datatype Summary = Summary(
    earliestFirst: Option<nat>,
    latestFirst: Option<nat>,
    earliestLast: Option<nat>,
    latestLast: Option<nat>,
    longestDrought: Option<nat>,
    longestStreak: Option<nat>,
    largestDaily: Option<nat>,
    snowiestSeason: Option<nat>,
    mostHeavyDays: Option<nat>,
    mostMajorDays: Option<nat>,
    cleanSweepSeasons: seq<nat>)

  /** A date as a key: later dates have greater keys (negated for "earliest"). */
  function DateKey(d: Option<Date>, latest: bool): Option<real> {
    if d.None? then None else Some(if latest then Key(d.value) as real else -(Key(d.value) as real))
  }

  function FirstSnowKeys(rs: seq<SeasonStats>, latest: bool): seq<Option<real>> {
    seq(|rs|, i requires 0 <= i < |rs| => DateKey(rs[i].firstSnow, latest))
  }

  function LastSnowKeys(rs: seq<SeasonStats>, latest: bool): seq<Option<real>> {
    seq(|rs|, i requires 0 <= i < |rs| => DateKey(rs[i].lastSnow, latest))
  }

  function LullKeys(rs: seq<SeasonStats>): seq<Option<real>> {
    seq(|rs|, i requires 0 <= i < |rs| => Some(rs[i].longestLull.length as real))
  }

  function StreakKeys(rs: seq<SeasonStats>): seq<Option<real>> {
    seq(|rs|, i requires 0 <= i < |rs| => Some(rs[i].longestStreak.length as real))
  }

  function LargestKeys(rs: seq<SeasonStats>): seq<Option<real>> {
    seq(|rs|, i requires 0 <= i < |rs| =>
      if rs[i].largestDaily.Some? then Some(rs[i].largestDaily.value.value) else None)
  }

  function TotalKeys(rs: seq<SeasonStats>): seq<Option<real>> {
    seq(|rs|, i requires 0 <= i < |rs| => Some(rs[i].totalSnow))
  }

  function HeavyKeys(rs: seq<SeasonStats>): seq<Option<real>> {
    seq(|rs|, i requires 0 <= i < |rs| => Some(rs[i].heavyDayCount as real))
  }

  function MajorKeys(rs: seq<SeasonStats>): seq<Option<real>> {
    seq(|rs|, i requires 0 <= i < |rs| => Some(rs[i].majorDayCount as real))
  }

  /** `records.filter(rec => rec.allHolidaysSnowed)`, as positions in order. */
  function CleanSweeps(rs: seq<SeasonStats>): (r: seq<nat>)
    ensures forall k :: 0 <= k < |r| ==> r[k] < |rs| && rs[r[k]].allHolidaysSnowed
    ensures forall i :: 0 <= i < |rs| && rs[i].allHolidaysSnowed ==> i in r
    ensures forall k, m :: 0 <= k < m < |r| ==> r[k] < r[m]
  {
    if |rs| == 0 then []
    else
      var last := |rs| - 1;
      var r := CleanSweeps(rs[..last]);
      assert forall i :: 0 <= i < last ==> rs[..last][i] == rs[i];
      if rs[last].allHolidaysSnowed then r + [last] else r
  }

  /** The record holders of `renderSummary`: each is the first season holding the extreme value. */
  function Summarize(rs: seq<SeasonStats>): (r: Summary)
    ensures IsFirstMax(FirstSnowKeys(rs, false), r.earliestFirst)
    ensures IsFirstMax(FirstSnowKeys(rs, true), r.latestFirst)
    ensures IsFirstMax(LastSnowKeys(rs, false), r.earliestLast)
    ensures IsFirstMax(LastSnowKeys(rs, true), r.latestLast)
    ensures IsFirstMax(LullKeys(rs), r.longestDrought)
    ensures IsFirstMax(StreakKeys(rs), r.longestStreak)
    ensures IsFirstMax(LargestKeys(rs), r.largestDaily)
    ensures IsFirstMax(TotalKeys(rs), r.snowiestSeason)
    ensures IsFirstMax(HeavyKeys(rs), r.mostHeavyDays)
    ensures IsFirstMax(MajorKeys(rs), r.mostMajorDays)
    ensures forall k :: 0 <= k < |r.cleanSweepSeasons| ==>
      r.cleanSweepSeasons[k] < |rs| && rs[r.cleanSweepSeasons[k]].allHolidaysSnowed
    ensures forall i :: 0 <= i < |rs| && rs[i].allHolidaysSnowed ==> i in r.cleanSweepSeasons
  {
    var earliestFirst, latestFirst := FirstMax(FirstSnowKeys(rs, false)), FirstMax(FirstSnowKeys(rs, true));
    var earliestLast, latestLast := FirstMax(LastSnowKeys(rs, false)), FirstMax(LastSnowKeys(rs, true));
    var drought, streak := FirstMax(LullKeys(rs)), FirstMax(StreakKeys(rs));
    var largest, snowiest := FirstMax(LargestKeys(rs)), FirstMax(TotalKeys(rs));
    var heavy, major := FirstMax(HeavyKeys(rs)), FirstMax(MajorKeys(rs));
    Summary(earliestFirst, latestFirst, earliestLast, latestLast, drought, streak,
            largest, snowiest, heavy, major, CleanSweeps(rs))
  }

  /** The earliest first snow: no season with a first snow has an earlier one, and ties go to the earlier season. */
  lemma EarliestFirstSnow(rs: seq<SeasonStats>, j: nat)
    requires forall i :: 0 <= i < |rs| && rs[i].firstSnow.Some? ==> ValidDate(rs[i].firstSnow.value)
    requires j < |rs| && rs[j].firstSnow.Some?
    ensures var e := Summarize(rs).earliestFirst;
      && e.Some? && rs[e.value].firstSnow.Some?
      && AtOrBefore(rs[e.value].firstSnow.value, rs[j].firstSnow.value)
      && (j < e.value ==> Before(rs[e.value].firstSnow.value, rs[j].firstSnow.value))
  {
    var keys := FirstSnowKeys(rs, false);
    var e := Summarize(rs).earliestFirst;
    assert keys[j].Some?;
    KeyOrder(rs[e.value].firstSnow.value, rs[j].firstSnow.value);
  }

  // ---------------------------------------------------------------------
  // A worked season

  /**
   * Three days of 1.0", 0.0" and 3.0": the streak is one day long, two
   * streaks share that length, and the snowier one (the third day) is
   * reported; the largest day is the third and the measurable days are the
   * first and the third.
   */
  lemma ThreeDaySeason(d1: Date, d2: Date, d3: Date, b: Best, largest: nat)
    requires var s := [Day(d1, Measured(1.0)), Day(d2, Measured(0.0)), Day(d3, Measured(3.0))];
      LongestAmong(s, |s|, b) && IsFirstLargest(s, |s|, largest)
    ensures b == Best(1, Some(Span(2, 2)), 3.0, 2)
    ensures largest == 2
  {
    var s := [Day(d1, Measured(1.0)), Day(d2, Measured(0.0)), Day(d3, Measured(3.0))];
    assert RunLen(s, 1) == 1 && RunLen(s, 2) == 0 && RunLen(s, 3) == 1;
    assert RunTotal(s, 1) == 1.0 && RunTotal(s, 3) == 3.0;
    assert EndsRun(s, 0) && !EndsRun(s, 1) && EndsRun(s, 2);
    assert RunsOfLength(s, 1, 1) == 1;
    assert RunsOfLength(s, 1, 2) == 1;
    assert RunsOfLength(s, 1, 3) == 2;
    assert b.span.Some?;
    var e := b.span.value.last;
    assert e == 0 || e == 2;
    assert RunTotal(s, 3) <= b.total;
    assert e == 2;
  }

  /** The same days in the opposite order: the snowier streak is now the first one, and it is still reported. */
  lemma ThreeDaySeasonReversed(d1: Date, d2: Date, d3: Date, b: Best)
    requires var s := [Day(d1, Measured(3.0)), Day(d2, Measured(0.0)), Day(d3, Measured(1.0))];
      LongestAmong(s, |s|, b)
    ensures b == Best(1, Some(Span(0, 0)), 3.0, 2)
  {
    var s := [Day(d1, Measured(3.0)), Day(d2, Measured(0.0)), Day(d3, Measured(1.0))];
    assert RunLen(s, 1) == 1 && RunLen(s, 2) == 0 && RunLen(s, 3) == 1;
    assert RunTotal(s, 1) == 3.0 && RunTotal(s, 3) == 1.0;
    assert EndsRun(s, 0) && !EndsRun(s, 1) && EndsRun(s, 2);
    assert RunsOfLength(s, 1, 1) == 1;
    assert RunsOfLength(s, 1, 2) == 1;
    assert RunsOfLength(s, 1, 3) == 2;
    assert b.span.Some?;
    var e := b.span.value.last;
    assert e == 0 || e == 2;
    assert RunTotal(s, 1) <= b.total;
    assert e == 0;
  }

  /** A season whose measurable days form one unbroken run reports that run, counted once. */
  lemma SingleRunSeason(s: seq<Day>, a: nat, c: nat, b: Best)
    requires a < c <= |s|
    requires forall j :: 0 <= j < |s| ==> (IsMeasurable(s[j]) <==> a <= j < c)
    requires LongestAmong(s, |s|, b)
    ensures b.length == c - a && b.count == 1 && b.span == Some(Span(a, c - 1))
  {
    LongestStreakIsMaximum(s, b, a, c);
    var e := b.span.value.last;
    assert e == c - 1;
    RunInterior(s, c, c - RunLen(s, c));
    assert forall j :: 0 <= j < c - 1 ==> !EndsRun(s, j) by {
      forall j | 0 <= j < c - 1
        ensures !EndsRun(s, j)
      {
        if IsMeasurable(s[j]) {
          assert IsMeasurable(s[j + 1]);
        }
      }
    }
    assert forall j :: c <= j < |s| ==> !EndsRun(s, j);
    RunsOfLengthSkip(s, b.length, 0, c - 1);
    RunsOfLengthSkip(s, b.length, c, |s|);
  }
}
