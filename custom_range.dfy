/**
 * The custom date-range page: which seasons a range needs, the rows of the
 * range sorted by date with their running total, measurable-day count and
 * peak day, and the CSV export of that table.
 */
module CustomRange {
  import opened Options
  import opened Calendar
  import opened Series
  import Text

  // ---------------------------------------------------------------------
  // Filtering and sorting

  predicate InRange(d: Day, start: Date, end: Date) {
    AtOrBefore(start, d.date) && AtOrBefore(d.date, end)
  }

  /** `dailyRows.filter(row => row.date >= startISO && row.date <= endISO)`. */
  function RowsInRange(s: seq<Day>, start: Date, end: Date): (r: seq<Day>)
    ensures forall k :: 0 <= k < |r| ==> InRange(r[k], start, end)
    ensures forall d :: multiset(r)[d] == if InRange(d, start, end) then multiset(s)[d] else 0
  {
    if |s| == 0 then []
    else
      var rest := RowsInRange(s[1..], start, end);
      assert s == [s[0]] + s[1..];
      if InRange(s[0], start, end) then [s[0]] + rest else rest
  }

  /** Rows in ascending date order. */
  predicate SortedByDate(r: seq<Day>) {
    forall i, j :: 0 <= i < j < |r| ==> AtOrBefore(r[i].date, r[j].date)
  }

  /** Places `x` before the first row dated on or after it, so it goes ahead of rows with its own date. */
  function Insert(x: Day, r: seq<Day>): (q: seq<Day>)
    requires SortedByDate(r)
    ensures SortedByDate(q) && multiset(q) == multiset(r) + multiset{x}
  {
    if |r| == 0 then [x]
    else if AtOrBefore(x.date, r[0].date) then
      forall j | 0 <= j < |r|
        ensures AtOrBefore(x.date, r[j].date)
      {
        BeforeTransitive(x.date, r[0].date, r[j].date);
      }
      [x] + r
    else
      var rest := Insert(x, r[1..]);
      assert r == [r[0]] + r[1..];
      HeadStaysFirst(r, x, rest);
      [r[0]] + rest
  }

  /** Every row of `r` is dated on or after `date`. */
  ghost predicate NoneBefore(date: Date, r: seq<Day>) {
    forall k :: 0 <= k < |r| ==> AtOrBefore(date, r[k].date)
  }

  /** Inserting a row not before the head of a sorted `r` into its tail keeps the head first. */
  lemma HeadStaysFirst(r: seq<Day>, x: Day, rest: seq<Day>)
    requires |r| > 0 && SortedByDate(r) && Before(r[0].date, x.date)
    requires multiset(rest) == multiset(r[1..]) + multiset{x}
    ensures NoneBefore(r[0].date, rest)
  {
    forall k | 0 <= k < |rest|
      ensures AtOrBefore(r[0].date, rest[k].date)
    {
      assert rest[k] in multiset(rest);
      if rest[k] != x {
        assert rest[k] in multiset(r[1..]);
        var m :| 0 <= m < |r[1..]| && r[1..][m] == rest[k];
        assert r[m + 1] == rest[k];
      }
    }
  }

  /** `.sort((a, b) => a.date < b.date ? -1 : a.date > b.date ? 1 : 0)`. */
  function SortByDate(s: seq<Day>): (r: seq<Day>)
    ensures SortedByDate(r) && multiset(r) == multiset(s)
  {
    if |s| == 0 then []
    else
      assert s == [s[0]] + s[1..];
      Insert(s[0], SortByDate(s[1..]))
  }

  /** The rows dated `d`, in order. */
  function OnDate(s: seq<Day>, d: Date): seq<Day> {
    if |s| == 0 then [] else (if s[0].date == d then [s[0]] else []) + OnDate(s[1..], d)
  }

  lemma OnDateCons(a: Day, t: seq<Day>, d: Date)
    ensures OnDate([a] + t, d) == (if a.date == d then [a] else []) + OnDate(t, d)
  {
    assert ([a] + t)[1..] == t;
  }

  /** Inserting `x` puts it ahead of the rows sharing its date and leaves the other dates' rows alone. */
  lemma {:induction false} InsertOnDate(x: Day, r: seq<Day>, d: Date)
    requires SortedByDate(r)
    ensures OnDate(Insert(x, r), d) == (if x.date == d then [x] else []) + OnDate(r, d)
  {
    var hx := if x.date == d then [x] else [];
    if |r| == 0 {
      OnDateCons(x, [], d);
      assert [x] + [] == [x];
      assert OnDate(Insert(x, r), d) == hx + OnDate(r, d);
    } else if AtOrBefore(x.date, r[0].date) {
      OnDateCons(x, r, d);
      assert Insert(x, r) == [x] + r;
      assert OnDate(Insert(x, r), d) == hx + OnDate(r, d);
    } else {
      var tail := r[1..];
      SortedTail(r);
      var rest := Insert(x, tail);
      InsertOnDate(x, tail, d);
      InsertAfterHead(x, r);
      OnDateCons(r[0], rest, d);
      OnDateCons(r[0], tail, d);
      assert r == [r[0]] + tail;
      var h0 := if r[0].date == d then [r[0]] else [];
      assert OnDate(Insert(x, r), d) == h0 + OnDate(rest, d);
      assert OnDate(r, d) == h0 + OnDate(tail, d);
      if x.date == d {
        assert h0 == [];
      } else {
        assert OnDate(rest, d) == OnDate(tail, d);
      }
      assert OnDate(Insert(x, r), d) == hx + OnDate(r, d);
    }
  }

  lemma SortedTail(r: seq<Day>)
    requires |r| > 0 && SortedByDate(r)
    ensures SortedByDate(r[1..])
  {
    assert forall i :: 0 <= i < |r| - 1 ==> r[1..][i] == r[i + 1];
  }

  lemma InsertAfterHead(x: Day, r: seq<Day>)
    requires SortedByDate(r) && |r| > 0 && !AtOrBefore(x.date, r[0].date)
    ensures SortedByDate(r[1..]) && Insert(x, r) == [r[0]] + Insert(x, r[1..])
  {
    SortedTail(r);
  }

  /** The sort is stable: the rows of each date keep their input order. */
  lemma {:induction false} SortByDateStable(s: seq<Day>, d: Date)
    ensures OnDate(SortByDate(s), d) == OnDate(s, d)
  {
    if |s| > 0 {
      SortByDateStable(s[1..], d);
      InsertOnDate(s[0], SortByDate(s[1..]), d);
    }
  }

  // ---------------------------------------------------------------------
  // computeRangeData

  datatype RangeData = RangeData(
    labels: seq<Date>,
    dailyValues: seq<Option<real>>,
    cumulativeValues: seq<real>,
    totalSnow: real,
    measurableDays: nat,
    peakValue: Option<real>,
    peakDate: Option<Date>,
    filtered: seq<Day>)

  /** The `forEach` over the sorted rows of the range. */
  method Tabulate(f: seq<Day>) returns (r: RangeData)
    ensures r.filtered == f
    ensures |r.labels| == |r.dailyValues| == |r.cumulativeValues| == |f|
    ensures forall i :: 0 <= i < |f| ==> r.labels[i] == f[i].date
    ensures forall i :: 0 <= i < |f| ==>
      (r.dailyValues[i].Some? <==> IsNumeric(f[i])) &&
      (r.dailyValues[i].Some? ==> r.dailyValues[i].value == f[i].snow.inches)
    ensures forall i :: 0 <= i < |f| ==> r.cumulativeValues[i] == TotalTo(f, i + 1)
    ensures r.totalSnow == Total(f)
    ensures |f| > 0 ==> r.cumulativeValues[|f| - 1] == r.totalSnow
    ensures r.measurableDays == CountAtLeast(f, |f|, MeasurableThreshold) <= |f|
    ensures r.peakValue.None? <==> NoNumericBefore(f, |f|)
    ensures r.peakValue.Some? ==> exists i: nat ::
      IsFirstLargest(f, |f|, i) && r.peakValue == Some(f[i].snow.inches) && r.peakDate == Some(f[i].date)
  {
    var cumulative, totalSnow := 0.0, 0.0;
    var labels: seq<Date>, dailyValues: seq<Option<real>>, cumulativeValues: seq<real> := [], [], [];
    var measurableDays := 0;
    var peak: Option<nat> := None;
    for i := 0 to |f|
      invariant |labels| == |dailyValues| == |cumulativeValues| == i
      invariant forall k :: 0 <= k < i ==> labels[k] == f[k].date
      invariant forall k :: 0 <= k < i ==>
        (dailyValues[k].Some? <==> IsNumeric(f[k])) &&
        (dailyValues[k].Some? ==> dailyValues[k].value == f[k].snow.inches)
      invariant forall k :: 0 <= k < i ==> cumulativeValues[k] == TotalTo(f, k + 1)
      invariant cumulative == TotalTo(f, i) && totalSnow == cumulative
      invariant measurableDays == CountAtLeast(f, i, MeasurableThreshold)
      invariant peak.Some? ==> IsFirstLargest(f, i, peak.value)
      invariant peak.None? ==> NoNumericBefore(f, i)
    {
      var row := f[i];
      labels := labels + [row.date];
      var snow := if row.snow.Measured? then Some(row.snow.inches) else None;
      dailyValues := dailyValues + [snow];
      if snow.Some? {
        cumulative := cumulative + snow.value;
        if snow.value >= MeasurableThreshold {
          measurableDays := measurableDays + 1;
        }
        totalSnow := totalSnow + snow.value;
        if peak.None? || snow.value > f[peak.value].snow.inches {
          peak := Some(i);
        }
      }
      cumulativeValues := cumulativeValues + [cumulative];
    }
    CountAtLeastAntitone(f, |f|, MeasurableThreshold, MeasurableThreshold);
    var peakValue := if peak.Some? then Some(f[peak.value].snow.inches) else None;
    var peakDate := if peak.Some? then Some(f[peak.value].date) else None;
    r := RangeData(labels, dailyValues, cumulativeValues, totalSnow, measurableDays, peakValue, peakDate, f);
  }

  /** `computeRangeData(dailyRows, startISO, endISO)`. */
  method ComputeRangeData(rows: seq<Day>, start: Date, end: Date) returns (r: RangeData)
    ensures SortedByDate(r.filtered)
    ensures multiset(r.filtered) == multiset(RowsInRange(rows, start, end))
    ensures forall k :: 0 <= k < |r.filtered| ==> InRange(r.filtered[k], start, end)
    ensures |r.labels| == |r.dailyValues| == |r.cumulativeValues| == |r.filtered|
    ensures forall i :: 0 <= i < |r.filtered| ==> r.labels[i] == r.filtered[i].date
    ensures forall i :: 0 <= i < |r.filtered| ==>
      (r.dailyValues[i].Some? <==> IsNumeric(r.filtered[i])) &&
      (r.dailyValues[i].Some? ==> r.dailyValues[i].value == r.filtered[i].snow.inches)
    ensures forall i :: 0 <= i < |r.filtered| ==> r.cumulativeValues[i] == TotalTo(r.filtered, i + 1)
    ensures r.totalSnow == Total(r.filtered)
    ensures r.measurableDays == CountAtLeast(r.filtered, |r.filtered|, MeasurableThreshold) <= |r.labels|
    ensures r.peakValue.None? <==> NoNumericBefore(r.filtered, |r.filtered|)
    ensures r.peakValue.Some? ==> exists i: nat ::
      IsFirstLargest(r.filtered, |r.filtered|, i) && r.peakValue == Some(r.filtered[i].snow.inches) && r.peakDate == Some(r.filtered[i].date)
  {
    var filtered := SortByDate(RowsInRange(rows, start, end));
    forall k | 0 <= k < |filtered|
      ensures InRange(filtered[k], start, end)
    {
      assert filtered[k] in multiset(RowsInRange(rows, start, end));
    }
    r := Tabulate(filtered);
  }

  /** A missing day repeats the previous cumulative value; a numeric day adds its snow. */
  lemma CumulativeStep(f: seq<Day>, i: nat)
    requires i < |f|
    ensures f[i].snow.Missing? ==> TotalTo(f, i + 1) == TotalTo(f, i)
    ensures f[i].snow.Measured? ==> TotalTo(f, i + 1) == TotalTo(f, i) + f[i].snow.inches
  {
  }

  // ---------------------------------------------------------------------
  // handleSubmit

  datatype RangeError = MissingDate | StartAfterEnd | UnknownSeason

  datatype Outcome = Ok(seasons: seq<int>) | Err(error: RangeError)

  /**
   * The date checks of `handleSubmit` and the list of season start years it
   * fetches: from the start date's season to the end date's season.
   */
  method SeasonsForRange(start: Option<Date>, end: Option<Date>) returns (r: Outcome)
    ensures start.None? || end.None? ==> r == Err(MissingDate)
    ensures start.Some? && end.Some? && Before(end.value, start.value) ==> r == Err(StartAfterEnd)
    ensures start.Some? && end.Some? && !Before(end.value, start.value) ==>
      (r.Ok? <==> ValidDate(start.value) && ValidDate(end.value)) && (r.Err? ==> r.error == UnknownSeason)
    ensures r.Ok? ==>
      start.Some? && end.Some? && ValidDate(start.value) && ValidDate(end.value) && AtOrBefore(start.value, end.value)
    ensures r.Ok? ==>
      var first, last := SeasonStartYear(start.value.year, start.value.month), SeasonStartYear(end.value.year, end.value.month);
      |r.seasons| == last - first + 1 && forall k :: 0 <= k < |r.seasons| ==> r.seasons[k] == first + k
    ensures r.Ok? ==> forall d :: ValidDate(d) && AtOrBefore(start.value, d) && AtOrBefore(d, end.value) ==>
      SeasonStartYear(d.year, d.month) in r.seasons
  {
    if start.None? || end.None? {
      return Err(MissingDate);
    }
    var s, e := start.value, end.value;
    if Before(e, s) {
      return Err(StartAfterEnd);
    }
    if !ValidDate(s) || !ValidDate(e) {
      return Err(UnknownSeason);
    }
    var startYear, endYear := SeasonStartYear(s.year, s.month), SeasonStartYear(e.year, e.month);
    SeasonStartYearMonotone(s, e);
    var seasons := [];
    var year := startYear;
    while year <= endYear
      invariant startYear <= year <= endYear + 1
      invariant |seasons| == year - startYear
      invariant forall k :: 0 <= k < |seasons| ==> seasons[k] == startYear + k
    {
      seasons := seasons + [year];
      year := year + 1;
    }
    forall d | ValidDate(d) && AtOrBefore(s, d) && AtOrBefore(d, e)
      ensures SeasonStartYear(d.year, d.month) in seasons
    {
      SeasonStartYearMonotone(s, d);
      SeasonStartYearMonotone(d, e);
      var k := SeasonStartYear(d.year, d.month) - startYear;
      assert seasons[k] == SeasonStartYear(d.year, d.month);
    }
    return Ok(seasons);
  }

  // ---------------------------------------------------------------------
  // updateExport

  const ExportHeader: seq<Option<string>> := [Some("date"), Some("daily_snow_in"), Some("cumulative_snow_in")]

  /** One exported row: the date, the day's snow (empty when missing), the cumulative value. */
  function ExportRow(r: RangeData, format: real -> string, i: nat): (row: seq<Option<string>>)
    requires i < |r.labels| == |r.dailyValues| == |r.cumulativeValues|
    ensures |row| == 3
  {
    [ Some(IsoText(r.labels[i])),
      Some(if r.dailyValues[i].None? then "" else format(r.dailyValues[i].value)),
      Some(format(r.cumulativeValues[i])) ]
  }

  /**
   * The table the export writes: a header, then one row per label;
   * `format` stands for `toFixed(2)`.
   */
  function ExportTable(r: RangeData, format: real -> string): (t: seq<seq<Option<string>>>)
    requires |r.labels| == |r.dailyValues| == |r.cumulativeValues|
    ensures |t| == |r.labels| + 1 && t[0] == ExportHeader
    ensures forall j :: 0 <= j < |t| ==> |t[j]| == 3
  {
    [ExportHeader] + seq(|r.labels|, i requires 0 <= i < |r.labels| => ExportRow(r, format, i))
  }

  /** Row `j` after the header is the export row of label `j - 1`. */
  lemma ExportTableRow(r: RangeData, format: real -> string, j: nat)
    requires 1 <= j <= |r.labels| == |r.dailyValues| == |r.cumulativeValues|
    ensures ExportTable(r, format)[j] == ExportRow(r, format, j - 1)
  {
  }

  /**
   * Reading the exported file back gives one row per label after the
   * header, and a day's snow cell is empty exactly when the day was missing
   * (the number format never yields empty text).
   */
  lemma ExportReadsBack(r: RangeData, format: real -> string)
    requires |r.labels| == |r.dailyValues| == |r.cumulativeValues|
    requires forall x :: format(x) != ""
    ensures var rows := Text.ParseCsv(Text.Csv(ExportTable(r, format)));
      && rows.Some? && |rows.value| == |r.labels| + 1
      && forall j :: 1 <= j < |rows.value| ==>
           |rows.value[j]| == 3 && (rows.value[j][1] == "" <==> r.dailyValues[j - 1].None?)
  {
    Text.CsvRoundTrip(ExportTable(r, format));
    ExportTextsRead(r, format);
  }

  /** The cell texts of every data row: three cells, the daily one empty exactly when the day is missing. */
  lemma ExportTextsRead(r: RangeData, format: real -> string)
    requires |r.labels| == |r.dailyValues| == |r.cumulativeValues|
    requires forall x :: format(x) != ""
    ensures var rows := Text.CellTextRows(ExportTable(r, format));
      forall j :: 1 <= j < |rows| ==> |rows[j]| == 3 && (rows[j][1] == "" <==> r.dailyValues[j - 1].None?)
  {
    var rows := Text.CellTextRows(ExportTable(r, format));
    forall j | 1 <= j < |rows|
      ensures |rows[j]| == 3 && (rows[j][1] == "" <==> r.dailyValues[j - 1].None?)
    {
      var daily := r.dailyValues[j - 1];
      if daily.Some? {
        var v: real := daily.value;
        assert format(v) != "";
      }
      ExportRowReadsBack(r, format, j);
    }
  }

  /** Data row `j` read back: three cells, the daily one empty exactly when the day is missing. */
  lemma ExportRowReadsBack(r: RangeData, format: real -> string, j: nat)
    requires 1 <= j <= |r.labels| == |r.dailyValues| == |r.cumulativeValues|
    requires r.dailyValues[j - 1].Some? ==> format(r.dailyValues[j - 1].value) != ""
    ensures var rows := Text.CellTextRows(ExportTable(r, format));
      |rows[j]| == 3 && (rows[j][1] == "" <==> r.dailyValues[j - 1].None?)
  {
    var t := ExportTable(r, format);
    var row := ExportRow(r, format, j - 1);
    ExportTableRow(r, format, j);
    Text.CellTextRowsAt(t, j);
    CellTextsOfThree(row);
    var daily := r.dailyValues[j - 1];
    assert row[1] == Some(if daily.None? then "" else format(daily.value));
  }

  lemma CellTextsOfThree(cells: seq<Option<string>>)
    requires |cells| == 3
    ensures Text.CellTexts(cells) == [Text.CellText(cells[0]), Text.CellText(cells[1]), Text.CellText(cells[2])]
  {
    var c1, c2 := cells[1..], cells[1..][1..];
    assert c1[0] == cells[1] && c2 == [cells[2]] && c2[0] == cells[2] && c2[1..] == [];
    assert Text.CellTexts(c2) == [Text.CellText(cells[2])];
  }
}
