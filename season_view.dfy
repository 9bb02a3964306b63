/**
 * The season page of the dashboard (`loadSeason`): the card scan for the
 * largest day, the first and last measurable day and the measurable-day
 * average; the lull card, bounded by the first and last measurable day and
 * by a limit date; and the contest-window total of `computeWindowTotal`.
 */
module SeasonView {
  import opened Options
  import opened Calendar
  import opened Series
  import opened Streaks
  import opened Records

  // ---------------------------------------------------------------------
  // The card scan

  /** Snow over the measurable days among the first `k`. */
  function MeasurableSum(s: seq<Day>, k: nat): real
    requires k <= |s|
  {
    if k == 0 then 0.0
    else MeasurableSum(s, k - 1) + (if IsMeasurable(s[k - 1]) then s[k - 1].snow.inches else 0.0)
  }

  /** Each measurable day adds at least a tenth, so the average of the measurable days is at least 0.1". */
  lemma {:induction false} MeasurableSumAtLeast(s: seq<Day>, k: nat)
    requires k <= |s|
    ensures MeasurableSum(s, k) >= MeasurableThreshold * (CountAtLeast(s, k, MeasurableThreshold) as real)
  {
    if k > 0 {
      MeasurableSumAtLeast(s, k - 1);
    }
  }

  datatype Card = Card(
    largestValue: Option<real>,
    largestDate: Option<Date>,
    firstSnowDay: Option<Date>,
    lastSnowDay: Option<Date>,
    sumMeasurableSnow: real,
    countMeasurableDays: nat)

  /** `first` and `last` are the first and the last measurable day among the first `i`, absent while there is none. */
  ghost predicate BoundsSoFar(s: seq<Day>, i: nat, first: Option<nat>, last: Option<nat>)
    requires i <= |s|
  {
    && (first.None? <==> last.None?)
    && (first.None? ==> forall j :: 0 <= j < i ==> !IsMeasurable(s[j]))
    && (first.Some? ==>
          && first.value <= last.value < i && IsMeasurable(s[first.value]) && IsMeasurable(s[last.value])
          && (forall j :: 0 <= j < first.value ==> !IsMeasurable(s[j]))
          && (forall j :: last.value < j < i ==> !IsMeasurable(s[j])))
  }

  /** A measurable day `i` becomes the last one, and the first one when there was none. */
  lemma BoundsStep(s: seq<Day>, i: nat, first: Option<nat>, last: Option<nat>)
    requires i < |s| && BoundsSoFar(s, i, first, last)
    ensures IsMeasurable(s[i]) ==> BoundsSoFar(s, i + 1, if first.None? then Some(i) else first, Some(i))
    ensures !IsMeasurable(s[i]) ==> BoundsSoFar(s, i + 1, first, last)
  {
  }

  /** The snow and the number of the measurable days among the first `i`. */
  ghost predicate MeasurableSoFar(s: seq<Day>, i: nat, sum: real, count: nat)
    requires i <= |s|
  {
    sum == MeasurableSum(s, i) && count == CountAtLeast(s, i, MeasurableThreshold)
  }

  /** The `forEach` of `loadSeason` that fills the season cards. */
  method ScanCards(s: seq<Day>) returns (c: Card)
    ensures c.largestValue.None? <==> NoNumericBefore(s, |s|)
    ensures c.largestValue.Some? ==>
      exists i: nat :: IsFirstLargest(s, |s|, i) && c.largestValue == Some(s[i].snow.inches) && c.largestDate == Some(s[i].date)
    ensures c.firstSnowDay.None? <==> c.lastSnowDay.None?
    ensures c.firstSnowDay.None? <==> forall j :: 0 <= j < |s| ==> !IsMeasurable(s[j])
    ensures c.firstSnowDay.Some? ==>
      exists f: nat, l: nat :: (IsMeasurableBounds(s, Some(f), Some(l)) &&
                      c.firstSnowDay == Some(s[f].date) && c.lastSnowDay == Some(s[l].date))
    ensures c.sumMeasurableSnow == MeasurableSum(s, |s|)
    ensures c.countMeasurableDays == CountAtLeast(s, |s|, MeasurableThreshold) <= |s|
  {
    var largest: Option<nat> := None;
    var first: Option<nat> := None;
    var last: Option<nat> := None;
    var sum, count := 0.0, 0;
    for i := 0 to |s|
      invariant LargestSoFar(s, i, largest)
      invariant BoundsSoFar(s, i, first, last)
      invariant MeasurableSoFar(s, i, sum, count)
    {
      BoundsStep(s, i, first, last);
      var d := s[i];
      if d.snow.Measured? {
        if largest.None? || d.snow.inches > s[largest.value].snow.inches {
          largest := Some(i);
        }
        if d.snow.inches >= MeasurableThreshold {
          if first.None? {
            first := Some(i);
          }
          last := Some(i);
          sum := sum + d.snow.inches;
          count := count + 1;
        }
      }
    }
    CountAtLeastAntitone(s, |s|, MeasurableThreshold, MeasurableThreshold);
    c := Card(
      if largest.Some? then Some(s[largest.value].snow.inches) else None,
      if largest.Some? then Some(s[largest.value].date) else None,
      if first.Some? then Some(s[first.value].date) else None,
      if last.Some? then Some(s[last.value].date) else None,
      sum, count);
    if first.Some? {
      assert IsMeasurableBounds(s, first, last);
    }
  }

  // ---------------------------------------------------------------------
  // The lull card

  function EarlierOf(a: Date, b: Date): Date {
    if Before(b, a) then b else a
  }

  /**
   * `limitDate`: the season's end (or, without one, the last row's date, or
   * today), brought back to the last row's date and to today when those
   * are earlier.
   */
  function LimitDate(seasonEnd: Option<Date>, lastRowDate: Option<Date>, today: Date): (r: Date)
    ensures AtOrBefore(r, today)
    ensures seasonEnd.Some? ==> AtOrBefore(r, seasonEnd.value)
    ensures lastRowDate.Some? ==> AtOrBefore(r, lastRowDate.value)
    ensures r == today || Some(r) == seasonEnd || Some(r) == lastRowDate
  {
    var initial := if seasonEnd.Some? then seasonEnd.value else if lastRowDate.Some? then lastRowDate.value else today;
    var capped := if lastRowDate.Some? then EarlierOf(initial, lastRowDate.value) else initial;
    var r := EarlierOf(capped, today);
    EarlierOfBelow(initial, if lastRowDate.Some? then lastRowDate.value else initial);
    EarlierOfBelow(capped, today);
    BeforeTransitive(r, capped, initial);
    if lastRowDate.Some? then BeforeTransitive(r, capped, lastRowDate.value); r else r
  }

  lemma EarlierOfBelow(a: Date, b: Date)
    ensures AtOrBefore(EarlierOf(a, b), a) && AtOrBefore(EarlierOf(a, b), b)
  {
  }

  predicate InLullWindow(d: Day, first: Date, last: Date, limit: Date) {
    AtOrBefore(first, d.date) && AtOrBefore(d.date, last) && AtOrBefore(d.date, limit)
  }

  /** The rows the lull loop looks at: the others are skipped with no effect on the running lull. */
  function LullWindow(s: seq<Day>, first: Date, last: Date, limit: Date): (w: seq<Day>)
    ensures |w| <= |s|
    ensures forall k :: 0 <= k < |w| ==> w[k] in s && InLullWindow(w[k], first, last, limit)
    ensures forall i :: 0 <= i < |s| && InLullWindow(s[i], first, last, limit) ==> s[i] in w
  {
    if |s| == 0 then []
    else
      var rest := LullWindow(s[1..], first, last, limit);
      assert forall i :: 1 <= i < |s| ==> s[i] == s[1..][i - 1];
      if InLullWindow(s[0], first, last, limit) then [s[0]] + rest else rest
  }

  /** The window of `a + b` is the window of `a` followed by that of `b`: rows keep their order. */
  lemma {:induction false} LullWindowAppend(a: seq<Day>, b: seq<Day>, first: Date, last: Date, limit: Date)
    ensures LullWindow(a + b, first, last, limit) == LullWindow(a, first, last, limit) + LullWindow(b, first, last, limit)
  {
    if |a| > 0 {
      assert (a + b)[1..] == a[1..] + b;
      LullWindowAppend(a[1..], b, first, last, limit);
    } else {
      assert a + b == b;
    }
  }

  /** Each row in the window occurs as often as in the series, and no other row occurs. */
  lemma {:induction false} LullWindowCounts(s: seq<Day>, first: Date, last: Date, limit: Date)
    ensures forall d :: multiset(LullWindow(s, first, last, limit))[d] ==
                        if InLullWindow(d, first, last, limit) then multiset(s)[d] else 0
  {
    if |s| > 0 {
      LullWindowCounts(s[1..], first, last, limit);
      assert s == [s[0]] + s[1..];
    }
  }

  /**
   * The lull card: zero without a measurable day or with a single one;
   * otherwise the longest (earliest longest) run of dry rows among the rows
   * dated from the first to the last measurable day and not after `limit`.
   */
  method LoadSeasonLull(s: seq<Day>, firstSnowDay: Option<Date>, lastSnowDay: Option<Date>, limit: Date)
    returns (lull: Lull)
    ensures firstSnowDay.None? || lastSnowDay.None? || firstSnowDay == lastSnowDay ==> lull == NoLull
    ensures firstSnowDay.Some? && lastSnowDay.Some? && firstSnowDay != lastSnowDay ==>
      var w := LullWindow(s, firstSnowDay.value, lastSnowDay.value, limit);
      LongestLullAmong(w, |w|, lull)
  {
    if firstSnowDay.None? || lastSnowDay.None? || firstSnowDay == lastSnowDay {
      lull := NoLull;
    } else {
      var w := LullWindow(s, firstSnowDay.value, lastSnowDay.value, limit);
      lull := ScanLull(w);
    }
  }

  // ---------------------------------------------------------------------
  // computeWindowTotal

  predicate InWindow(d: Day, start: Date, end: Date) {
    AtOrBefore(start, d.date) && AtOrBefore(d.date, end)
  }

  /** Snow over the rows of the first `k` dated within `[start, end]`. */
  function WindowSum(s: seq<Day>, k: nat, start: Date, end: Date): real
    requires k <= |s|
  {
    if k == 0 then 0.0
    else WindowSum(s, k - 1, start, end) + (if InWindow(s[k - 1], start, end) then Amount(s[k - 1]) else 0.0)
  }

  /**
   * `computeWindowTotal(daily, startIso, endIso)`: no total when a bound is
   * missing or no row lies in the window; otherwise the numeric snow of the
   * rows in the window.
   */
  method ComputeWindowTotal(s: seq<Day>, start: Option<Date>, end: Option<Date>) returns (r: Option<real>)
    ensures r.None? <==>
      start.None? || end.None? || forall i :: 0 <= i < |s| ==> !InWindow(s[i], start.value, end.value)
    ensures r.Some? ==> r.value == WindowSum(s, |s|, start.value, end.value)
  {
    if start.None? || end.None? {
      return None;
    }
    var total := 0.0;
    var included := false;
    for i := 0 to |s|
      invariant total == WindowSum(s, i, start.value, end.value)
      invariant included <==> exists j :: 0 <= j < i && InWindow(s[j], start.value, end.value)
    {
      var d := s[i];
      if Before(d.date, start.value) || Before(end.value, d.date) {
        continue;
      }
      included := true;
      if d.snow.Measured? {
        total := total + d.snow.inches;
      }
    }
    if !included {
      return None;
    }
    return Some(total);
  }

  /** A window that holds every row sums the whole season. */
  lemma {:induction false} WindowSumAll(s: seq<Day>, k: nat, start: Date, end: Date)
    requires k <= |s| && forall i :: 0 <= i < |s| ==> InWindow(s[i], start, end)
    ensures WindowSum(s, k, start, end) == TotalTo(s, k)
  {
    if k > 0 {
      WindowSumAll(s, k - 1, start, end);
    }
  }

  /** Rows outside the window contribute nothing: only the in-window rows matter. */
  lemma {:induction false} WindowSumIgnoresOutside(s: seq<Day>, t: seq<Day>, k: nat, start: Date, end: Date)
    requires k <= |s| && k <= |t|
    requires forall i :: 0 <= i < k ==>
      (InWindow(s[i], start, end) || InWindow(t[i], start, end) ==> s[i] == t[i])
    ensures WindowSum(s, k, start, end) == WindowSum(t, k, start, end)
  {
    if k > 0 {
      WindowSumIgnoresOutside(s, t, k - 1, start, end);
    }
  }
}
