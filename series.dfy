/**
 * The normalised daily series every statistic is computed from: one row per
 * day holding either a number of inches or "missing" (the proxy's `null`,
 * ACIS's "M"), together with the thresholds the dashboard uses.
 */
module Series {
  import opened Options
  import opened Calendar

  /** A day's snowfall: a number of inches (a trace is 0.0), or no report. */
  datatype Snow = Measured(inches: real) | Missing

  datatype Day = Day(date: Date, snow: Snow)

  /** A "measurable" day has at least a tenth of an inch. */
  const MeasurableThreshold: real := 0.1
  const HeavyDayThreshold: real := 2.0
  const MajorDayThreshold: real := 6.0

  predicate IsNumeric(d: Day) {
    d.snow.Measured?
  }

  /** The inches when numeric; a missing report adds nothing to a sum. */
  function Inches(s: Snow): real {
    if s.Measured? then s.inches else 0.0
  }

  /** The day's snow when numeric; a missing day adds nothing to a sum. */
  function Amount(d: Day): real {
    Inches(d.snow)
  }

  predicate AtLeast(d: Day, t: real) {
    d.snow.Measured? && d.snow.inches >= t
  }

  predicate IsMeasurable(d: Day) {
    AtLeast(d, MeasurableThreshold)
  }

  /** A numeric day below the measurable threshold; a missing day is not dry. */
  predicate IsDry(d: Day) {
    d.snow.Measured? && d.snow.inches < MeasurableThreshold
  }

  /** Sum of the numeric snow over the first `k` days. */
  function TotalTo(s: seq<Day>, k: nat): real
    requires k <= |s|
  {
    if k == 0 then 0.0 else TotalTo(s, k - 1) + Amount(s[k - 1])
  }

  function Total(s: seq<Day>): real {
    TotalTo(s, |s|)
  }

  /** Number of days among the first `k` whose numeric snow is at least `t`. */
  function CountAtLeast(s: seq<Day>, k: nat, t: real): nat
    requires k <= |s|
  {
    if k == 0 then 0 else CountAtLeast(s, k - 1, t) + (if AtLeast(s[k - 1], t) then 1 else 0)
  }

  /** Raising the threshold never adds days: hence major days never outnumber heavy days. */
  lemma {:induction false} CountAtLeastAntitone(s: seq<Day>, k: nat, lo: real, hi: real)
    requires k <= |s| && lo <= hi
    ensures CountAtLeast(s, k, hi) <= CountAtLeast(s, k, lo) <= k
  {
    if k > 0 {
      CountAtLeastAntitone(s, k - 1, lo, hi);
    }
  }

  /** Only in-range days count: a window that starts later sums to the difference. */
  lemma {:induction false} TotalToSplit(s: seq<Day>, j: nat, k: nat)
    requires j <= k <= |s|
    ensures TotalTo(s, k) == TotalTo(s, j) + TotalTo(s[j..k], k - j)
    decreases k
  {
    if k > j {
      TotalToSplit(s, j, k - 1);
      assert s[j..k][..k - 1 - j] == s[j..k - 1];
      TotalToPrefix(s[j..k], s[j..k - 1], k - 1 - j);
      assert s[j..k][k - 1 - j] == s[k - 1];
    }
  }

  /** The running total only looks at the days it has passed. */
  lemma {:induction false} TotalToPrefix(s: seq<Day>, t: seq<Day>, k: nat)
    requires k <= |s| && k <= |t| && s[..k] == t[..k]
    ensures TotalTo(s, k) == TotalTo(t, k)
  {
    if k > 0 {
      assert s[k - 1] == s[..k][k - 1] == t[..k][k - 1] == t[k - 1];
      assert s[..k - 1] == s[..k][..k - 1];
      assert t[..k - 1] == t[..k][..k - 1];
      TotalToPrefix(s, t, k - 1);
    }
  }

  /**
   * Day `i` holds the largest numeric snowfall of the first `n` days, and is
   * the first day to hold it (a later equal day does not replace it).
   */
  predicate IsFirstLargest(s: seq<Day>, n: nat, i: nat)
    requires n <= |s|
  {
    && i < n && IsNumeric(s[i])
    && (forall j :: 0 <= j < n && IsNumeric(s[j]) ==> s[j].snow.inches <= s[i].snow.inches)
    && (forall j :: 0 <= j < i && IsNumeric(s[j]) ==> s[j].snow.inches < s[i].snow.inches)
  }

  predicate NoNumericBefore(s: seq<Day>, n: nat)
    requires n <= |s|
  {
    forall j :: 0 <= j < n ==> !IsNumeric(s[j])
  }

  /** One step of the "largest single day" update (`snow > largest.value`, first occurrence wins). */
  function UpdateLargest(s: seq<Day>, i: nat, largest: Option<nat>): (r: Option<nat>)
    requires i < |s|
    requires largest.Some? ==> IsFirstLargest(s, i, largest.value)
    requires largest.None? ==> NoNumericBefore(s, i)
    ensures r.Some? ==> IsFirstLargest(s, i + 1, r.value)
    ensures r.None? ==> NoNumericBefore(s, i + 1)
  {
    if IsNumeric(s[i]) && (largest.None? || s[i].snow.inches > s[largest.value].snow.inches)
    then Some(i)
    else largest
  }

  /** `findIndex`: the first day satisfying `p`. */
  function FirstIndexWhere(s: seq<Day>, p: Day -> bool): (r: Option<nat>)
    ensures r.Some? ==> r.value < |s| && p(s[r.value]) && forall j :: 0 <= j < r.value ==> !p(s[j])
    ensures r.None? ==> forall j :: 0 <= j < |s| ==> !p(s[j])
  {
    if |s| == 0 then None
    else if p(s[0]) then Some(0)
    else
      var r := FirstIndexWhere(s[1..], p);
      if r.Some? then Some(r.value + 1) else None
  }

  /** A reverse `for` loop that stops at the last day satisfying `p`. */
  method LastIndexWhere(s: seq<Day>, p: Day -> bool) returns (r: Option<nat>)
    ensures r.Some? ==> r.value < |s| && p(s[r.value]) && forall j :: r.value < j < |s| ==> !p(s[j])
    ensures r.None? ==> forall j :: 0 <= j < |s| ==> !p(s[j])
  {
    var i := |s|;
    while i > 0
      invariant 0 <= i <= |s|
      invariant forall j :: i <= j < |s| ==> !p(s[j])
    {
      i := i - 1;
      if p(s[i]) {
        return Some(i);
      }
    }
    return None;
  }

  /**
   * `determineLastDataDate`: the date of the last row whose snow is a value
   * (neither null nor "M"), or None.
   */
  method LastDataDate(s: seq<Day>) returns (r: Option<Date>)
    ensures r.None? <==> forall j :: 0 <= j < |s| ==> !IsNumeric(s[j])
    ensures r.Some? ==>
      exists i :: (0 <= i < |s| && IsNumeric(s[i]) && s[i].date == r.value &&
                   forall j :: i < j < |s| ==> !IsNumeric(s[j]))
  {
    var i := LastIndexWhere(s, (d: Day) => IsNumeric(d));
    if i.Some? {
      r := Some(s[i.value].date);
    } else {
      r := None;
    }
  }
}
