/**
 * The single-station proxy: which season a request asks for, how long a
 * cached season stays fresh, the daily series it builds from the ACIS rows
 * (one row per calendar day with its running total), the back-compat
 * upgrade applied to a cached payload, and the CSV records it streams.
 */
module Proxy {
  import opened Options
  import opened Calendar
  import opened Series
  import Text

  // ---------------------------------------------------------------------
  // Season selection

  /**
   * `preg_match('/^\d{4}$/', p)`: four ASCII digits; without the `D`
   * modifier `$` also matches just before one final newline.
   */
  predicate IsYearParam(p: string) {
    (|p| == 4 || (|p| == 5 && p[4] == '\n')) && Text.AllDigits(p[..4])
  }

  /**
   * The start year of the season served: the `startYear` parameter when it
   * is a four-digit year (`intval` of it), otherwise the season the current
   * (year, month) falls in.
   */
  function StartYear(param: Option<string>, nowYear: int, nowMonth: int): int
    requires 1 <= nowMonth <= 12
  {
    if param.Some? && IsYearParam(param.value) then Text.DigitsValue(param.value[..4])
    else SeasonStartYear(nowYear, nowMonth)
  }

  lemma FourDigitText(y: nat)
    requires 1000 <= y <= 9999
    ensures |Text.NatToString(y)| == 4
  {
    assert |Text.NatToString(y / 10 / 10 / 10)| == 1;
    assert Text.NatToString(y / 10 / 10) == Text.NatToString(y / 10 / 10 / 10) + [Text.DigitChar(y / 10 / 10 % 10)];
    assert Text.NatToString(y / 10) == Text.NatToString(y / 10 / 10) + [Text.DigitChar(y / 10 % 10)];
  }

  /** A year written with four digits, with or without a trailing newline, selects that year. */
  lemma StartYearParamRoundTrip(y: nat, nowYear: int, nowMonth: int)
    requires 1000 <= y <= 9999 && 1 <= nowMonth <= 12
    ensures StartYear(Some(Text.NatToString(y)), nowYear, nowMonth) == y
    ensures StartYear(Some(Text.NatToString(y) + "\n"), nowYear, nowMonth) == y
  {
    var p := Text.NatToString(y);
    FourDigitText(y);
    Text.DigitsValueOfNatToString(y);
    assert p[..4] == p && (p + "\n")[..4] == p;
  }

  /** Without a usable parameter the season served is the one today lies in. */
  lemma DefaultSeasonHoldsToday(today: Date, param: Option<string>)
    requires ValidDate(today)
    requires param.None? || !IsYearParam(param.value)
    ensures InSeason(today, StartYear(param, today.year, today.month))
  {
    SeasonOfDate(today, SeasonStartYear(today.year, today.month));
  }

  // ---------------------------------------------------------------------
  // Cache policy

  const ActiveSeasonTtl: int := 3600
  const PastSeasonTtl: int := 31536000

  /** Seconds a cached season stays fresh: an hour while today lies in it, about a year otherwise. */
  function CacheTtl(today: Date, startYear: int): (ttl: int)
    ensures ttl == ActiveSeasonTtl <==> InSeason(today, startYear)
    ensures ttl == PastSeasonTtl <==> !InSeason(today, startYear)
  {
    if InSeason(today, startYear) then ActiveSeasonTtl else PastSeasonTtl
  }

  /** Only the season today belongs to gets the short lifetime. */
  lemma ShortTtlOnlyForCurrentSeason(today: Date, startYear: int)
    requires ValidDate(today)
    ensures CacheTtl(today, startYear) == ActiveSeasonTtl <==> startYear == SeasonStartYear(today.year, today.month)
  {
    SeasonOfDate(today, startYear);
  }

  // ---------------------------------------------------------------------
  // JSON payloads

  /** A scalar JSON value of the payload (PHP `null`, a string, a number). */
  datatype Value = Null | Str(text: string) | Num(x: real)

  /**
   * A row of `daily`: the keys the proxy reads or writes by name (`None`
   * when the key is absent, `Some(Null)` when it holds `null`), and any
   * other keys a cached file may carry.
   */
  datatype Row = Row(
    date: Option<Value>, snow: Option<Value>,
    contestCum: Option<Value>, seasonalCum: Option<Value>,
    extra: map<string, Value>)

  /**
   * A decoded payload: its named top-level keys, its `daily` list (`None`
   * when absent or not a list) and any other top-level keys.
   */
  datatype Payload = Payload(
    stationName: Option<Value>, stationSid: Option<Value>, seasonLabel: Option<Value>,
    seasonStart: Option<Value>, seasonEnd: Option<Value>, seasonalTotal: Option<Value>,
    startDate: Option<Value>, endDate: Option<Value>, totalSnow: Option<Value>,
    contestStart: Option<Value>, contestEnd: Option<Value>, contestTotal: Option<Value>,
    seasonalStart: Option<Value>, seasonalEnd: Option<Value>,
    daily: Option<seq<Row>>,
    extra: map<string, Value>)

  /** `$a[k] ?? null`. */
  function ValueOf(field: Option<Value>): Value {
    if field.Some? then field.value else Null
  }

  /** `$a[k] ?? $v`: the value at the key unless it is absent or null. */
  function OrElse(field: Option<Value>, v: Value): (r: Value)
    ensures ValueOf(field) != Null ==> r == field.value
    ensures ValueOf(field) == Null ==> r == v
  {
    if ValueOf(field) != Null then field.value else v
  }

  /** A PHP array is falsy exactly when it has no key at all. */
  predicate IsEmpty(p: Payload) {
    p == Payload(None, None, None, None, None, None, None, None, None, None, None, None, None, None, None, map[])
  }

  /** A daily row gets `contest_cum` (a copy of `seasonal_cum`) only when it has no such key. */
  function UpgradedRow(row: Row): (r: Row)
    ensures r.contestCum.Some?
    ensures row.contestCum.Some? ==> r == row
    ensures row.contestCum.None? ==> r == row.(contestCum := Some(ValueOf(row.seasonalCum)))
  {
    if row.contestCum.Some? then row else row.(contestCum := Some(ValueOf(row.seasonalCum)))
  }

  function UpgradedDaily(daily: Option<seq<Row>>): (r: Option<seq<Row>>)
    ensures r.Some? == daily.Some?
    ensures daily.Some? ==> |r.value| == |daily.value|
    ensures daily.Some? ==> forall i :: 0 <= i < |daily.value| ==> r.value[i] == UpgradedRow(daily.value[i])
  {
    if daily.None? then None
    else Some(seq(|daily.value|, i requires 0 <= i < |daily.value| => UpgradedRow(daily.value[i])))
  }

  /** An alias that already held a non-null value keeps it; one that was absent or null now holds `v`. */
  predicate FilledFrom(before: Option<Value>, after: Option<Value>, v: Value) {
    after == Some(OrElse(before, v))
  }

  /**
   * `$upgrade` for the season window `start` .. `end`: the season bounds
   * default to the window, the date aliases copy the (defaulted) bounds, the
   * total aliases copy `seasonal_total_in`, daily rows gain `contest_cum`;
   * station keys, the total, and every other key are left alone. An empty
   * payload is returned as it is.
   */
  function Upgraded(p: Payload, start: string, end: string): (q: Payload)
    ensures IsEmpty(p) ==> q == p
    ensures !IsEmpty(p) ==>
      && FilledFrom(p.seasonStart, q.seasonStart, Str(start))
      && FilledFrom(p.seasonEnd, q.seasonEnd, Str(end))
      && FilledFrom(p.startDate, q.startDate, q.seasonStart.value)
      && FilledFrom(p.contestStart, q.contestStart, q.seasonStart.value)
      && FilledFrom(p.seasonalStart, q.seasonalStart, q.seasonStart.value)
      && FilledFrom(p.endDate, q.endDate, q.seasonEnd.value)
      && FilledFrom(p.contestEnd, q.contestEnd, q.seasonEnd.value)
      && FilledFrom(p.seasonalEnd, q.seasonalEnd, q.seasonEnd.value)
      && FilledFrom(p.totalSnow, q.totalSnow, ValueOf(p.seasonalTotal))
      && FilledFrom(p.contestTotal, q.contestTotal, ValueOf(p.seasonalTotal))
      && q.stationName == p.stationName && q.stationSid == p.stationSid && q.seasonLabel == p.seasonLabel
      && q.seasonalTotal == p.seasonalTotal && q.extra == p.extra
      && q.daily == UpgradedDaily(p.daily)
  {
    if IsEmpty(p) then p
    else
      var total := ValueOf(p.seasonalTotal);
      var ss := OrElse(p.seasonStart, Str(start));
      var se := OrElse(p.seasonEnd, Str(end));
      p.(daily := UpgradedDaily(p.daily),
         seasonStart := Some(ss), seasonEnd := Some(se),
         startDate := Some(OrElse(p.startDate, ss)), endDate := Some(OrElse(p.endDate, se)),
         totalSnow := Some(OrElse(p.totalSnow, total)),
         contestStart := Some(OrElse(p.contestStart, ss)), contestEnd := Some(OrElse(p.contestEnd, se)),
         contestTotal := Some(OrElse(p.contestTotal, total)),
         seasonalStart := Some(OrElse(p.seasonalStart, ss)), seasonalEnd := Some(OrElse(p.seasonalEnd, se)))
  }

  /** `$upgrade`, step by step: the daily loop, then the aliases in the order the closure assigns them. */
  method Upgrade(p: Payload, start: string, end: string) returns (q: Payload)
    ensures q == Upgraded(p, start, end)
  {
    if IsEmpty(p) {
      return p;
    }
    q := p;
    if q.daily.Some? {
      var rows := q.daily.value;
      var i := 0;
      while i < |rows|
        invariant 0 <= i <= |rows| == |p.daily.value|
        invariant forall j :: 0 <= j < i ==> rows[j] == UpgradedRow(p.daily.value[j])
        invariant forall j :: i <= j < |rows| ==> rows[j] == p.daily.value[j]
      {
        var seasonalCum := ValueOf(rows[i].seasonalCum);
        if rows[i].contestCum.None? {
          rows := rows[i := rows[i].(contestCum := Some(seasonalCum))];
        }
        i := i + 1;
      }
      assert rows == UpgradedDaily(p.daily).value;
      q := q.(daily := Some(rows));
    }
    var seasonTotal := ValueOf(q.seasonalTotal);
    q := q.(seasonStart := Some(OrElse(q.seasonStart, Str(start))));
    q := q.(seasonEnd := Some(OrElse(q.seasonEnd, Str(end))));
    q := q.(startDate := Some(OrElse(q.startDate, q.seasonStart.value)));
    q := q.(endDate := Some(OrElse(q.endDate, q.seasonEnd.value)));
    q := q.(totalSnow := Some(OrElse(q.totalSnow, seasonTotal)));
    q := q.(contestStart := Some(OrElse(q.contestStart, q.seasonStart.value)));
    q := q.(contestEnd := Some(OrElse(q.contestEnd, q.seasonEnd.value)));
    q := q.(contestTotal := Some(OrElse(q.contestTotal, seasonTotal)));
    q := q.(seasonalStart := Some(OrElse(q.seasonalStart, q.seasonStart.value)));
    q := q.(seasonalEnd := Some(OrElse(q.seasonalEnd, q.seasonEnd.value)));
  }

  /** Upgrading an upgraded payload changes nothing. */
  lemma UpgradeIdempotent(p: Payload, start: string, end: string)
    ensures Upgraded(Upgraded(p, start, end), start, end) == Upgraded(p, start, end)
  {
    var q := Upgraded(p, start, end);
    if !IsEmpty(p) {
      assert !IsEmpty(q) by { assert q.seasonStart.Some?; }
      var d := q.daily;
      if d.Some? {
        assert forall i :: 0 <= i < |d.value| ==> UpgradedRow(d.value[i]) == d.value[i];
        assert UpgradedDaily(d).value == d.value;
      }
    }
  }

  // ---------------------------------------------------------------------
  // Cache freshness

  /** A cache file: seconds since it was written, and its decoded content (`None` when unreadable). */
  datatype CacheFile = CacheFile(age: int, content: Option<Payload>)

  /**
   * A cached payload is served only when it carries the current fields:
   * a non-null `seasonal_total_in`, the requested `season_start`, and a
   * first daily row that has the `seasonal_cum` key.
   */
  predicate HasCurrentFields(cached: Option<Payload>, seasonStart: string) {
    && cached.Some?
    && ValueOf(cached.value.seasonalTotal) != Null
    && ValueOf(cached.value.seasonStart) == Str(seasonStart)
    && cached.value.daily.Some? && |cached.value.daily.value| > 0
    && cached.value.daily.value[0].seasonalCum.Some?
  }

  /** The cache file exists, is younger than the lifetime, and decodes to a current payload. */
  predicate ServesCache(cache: Option<CacheFile>, ttl: int, seasonStart: string) {
    cache.Some? && cache.value.age < ttl && HasCurrentFields(cache.value.content, seasonStart)
  }

  // ---------------------------------------------------------------------
  // Building the daily series

  /** One `[date, value]` row of the ACIS response; either part may be absent. */
  datatype AcisRow = AcisRow(date: Option<string>, raw: Option<string>)

  /** PHP string truthiness: only `""` and `"0"` are falsy. */
  predicate Truthy(s: string) {
    s != "" && s != "0"
  }

  /** `$row[1] ?? 'M'`. */
  function RawOf(row: AcisRow): string {
    if row.raw.Some? then row.raw.value else "M"
  }

  /** Row `i` is the last of the first `n` rows that carries date `k`. */
  predicate LastWithDate(data: seq<AcisRow>, n: nat, i: nat, k: string)
    requires n <= |data|
  {
    i < n && data[i].date == Some(k) && forall j :: i < j < n ==> data[j].date != Some(k)
  }

  /** Some row among the first `n` carries date `k`. */
  ghost predicate Dated(data: seq<AcisRow>, n: nat, k: string)
    requires n <= |data|
  {
    exists i :: 0 <= i < n && data[i].date == Some(k)
  }

  /** The keys of `byDate` are the truthy dates of the first `n` rows. */
  ghost predicate IndexKeys(data: seq<AcisRow>, n: nat, byDate: map<string, string>)
    requires n <= |data|
  {
    forall k :: k in byDate <==> Truthy(k) && Dated(data, n, k)
  }

  /** Each key of `byDate` holds the value of the last of the first `n` rows with that date. */
  ghost predicate IndexValues(data: seq<AcisRow>, n: nat, byDate: map<string, string>)
    requires n <= |data|
  {
    forall k :: k in byDate ==> exists i: nat :: LastWithDate(data, n, i, k) && byDate[k] == RawOf(data[i])
  }

  /** `byDate` is the index of the first `n` rows. */
  ghost predicate Indexes(data: seq<AcisRow>, n: nat, byDate: map<string, string>)
    requires n <= |data|
  {
    IndexKeys(data, n, byDate) && IndexValues(data, n, byDate)
  }

  /** A date occurs among the first `n + 1` rows iff it occurs among the first `n` or on row `n`. */
  lemma DatedStep(data: seq<AcisRow>, n: nat, k: string)
    requires n < |data|
    ensures Dated(data, n + 1, k) <==> Dated(data, n, k) || data[n].date == Some(k)
  {
    if Dated(data, n, k) {
      var i :| 0 <= i < n && data[i].date == Some(k);
      assert 0 <= i < n + 1 && data[i].date == Some(k);
    }
    if data[n].date == Some(k) {
      assert 0 <= n < n + 1 && data[n].date == Some(k);
    }
    if Dated(data, n + 1, k) && data[n].date != Some(k) {
      var i :| 0 <= i < n + 1 && data[i].date == Some(k);
      assert i < n;
    }
  }

  /** `if ($dateKey) $rowsByDate[$dateKey] = $row[1] ?? 'M';` for one row. */
  function Assign(byDate: map<string, string>, row: AcisRow): map<string, string> {
    if row.date.Some? && Truthy(row.date.value) then byDate[row.date.value := RawOf(row)] else byDate
  }

  /** One more row adds its date to the keys when it is truthy. */
  lemma IndexKeysStep(data: seq<AcisRow>, n: nat, byDate: map<string, string>)
    requires n < |data| && IndexKeys(data, n, byDate)
    ensures IndexKeys(data, n + 1, Assign(byDate, data[n]))
  {
    var m := Assign(byDate, data[n]);
    forall k
      ensures k in m <==> Truthy(k) && Dated(data, n + 1, k)
    {
      DatedStep(data, n, k);
    }
  }

  /** One more row with a truthy date makes it the last row of that date. */
  lemma IndexValuesStep(data: seq<AcisRow>, n: nat, byDate: map<string, string>)
    requires n < |data| && IndexValues(data, n, byDate)
    requires forall k :: k in byDate ==> Truthy(k)
    ensures IndexValues(data, n + 1, Assign(byDate, data[n]))
  {
    var m, d := Assign(byDate, data[n]), data[n].date;
    forall k | k in m
      ensures exists i: nat :: LastWithDate(data, n + 1, i, k) && m[k] == RawOf(data[i])
    {
      if d == Some(k) {
        assert Truthy(k) && m[k] == RawOf(data[n]);
        assert LastWithDate(data, n + 1, n, k);
      } else {
        assert k in byDate && m[k] == byDate[k];
        var i: nat :| LastWithDate(data, n, i, k) && byDate[k] == RawOf(data[i]);
        LastWithDateStep(data, n, i, k);
      }
    }
  }

  /** The last row with date `k` stays the last when the next row has another date. */
  lemma LastWithDateStep(data: seq<AcisRow>, n: nat, i: nat, k: string)
    requires n < |data| && LastWithDate(data, n, i, k) && data[n].date != Some(k)
    ensures LastWithDate(data, n + 1, i, k)
  {
  }

  /** One more row: a truthy date is (re)assigned the row's value, anything else leaves the index alone. */
  lemma IndexStep(data: seq<AcisRow>, n: nat)
    requires n < |data| && Indexes(data, n, IndexTo(data, n))
    ensures Indexes(data, n + 1, IndexTo(data, n + 1))
  {
    IndexKeysStep(data, n, IndexTo(data, n));
    IndexValuesStep(data, n, IndexTo(data, n));
  }

  /** The index after the first `n` rows: each row with a truthy date (re)assigns that date its value. */
  function IndexTo(data: seq<AcisRow>, n: nat): map<string, string>
    requires n <= |data|
  {
    if n == 0 then map[] else Assign(IndexTo(data, n - 1), data[n - 1])
  }

  /** Assigning row after row builds the index of the rows so far. */
  lemma {:induction false} IndexToIndexes(data: seq<AcisRow>, n: nat)
    requires n <= |data|
    ensures Indexes(data, n, IndexTo(data, n))
  {
    if n > 0 {
      IndexToIndexes(data, n - 1);
      IndexStep(data, n - 1);
    } else {
      assert IndexKeys(data, 0, map[]) by {
        forall k
          ensures !Dated(data, 0, k)
        {
        }
      }
    }
  }

  /**
   * `$rowsByDate`: every truthy date of the response maps to the value of
   * the last row carrying that date (a later row overwrites an earlier one).
   */
  method IndexByDate(data: seq<AcisRow>) returns (byDate: map<string, string>)
    ensures forall k :: k in byDate <==> Truthy(k) && exists i :: 0 <= i < |data| && data[i].date == Some(k)
    ensures forall k :: k in byDate ==> exists i: nat :: LastWithDate(data, |data|, i, k) && byDate[k] == RawOf(data[i])
    ensures Indexes(data, |data|, byDate)
  {
    byDate := map[];
    var n := 0;
    while n < |data|
      invariant 0 <= n <= |data|
      invariant byDate == IndexTo(data, n)
    {
      var dateKey := data[n].date;
      if dateKey.Some? && Truthy(dateKey.value) {
        byDate := byDate[dateKey.value := RawOf(data[n])];
      }
      n := n + 1;
    }
    IndexToIndexes(data, |data|);
  }

  /** ACIS text to snow: `M` is no report, `T` (trace) is 0.0, anything else goes through `floatval`. */
  function Convert(raw: string, floatval: string -> real): (s: Snow)
    ensures s.Missing? <==> raw == "M"
    ensures raw == "T" ==> s == Measured(0.0)
  {
    if raw == "M" then Missing else if raw == "T" then Measured(0.0) else Measured(floatval(raw))
  }

  /** The ACIS text for a day; a day the response lacks reads as `M`. */
  function RawFor(byDate: map<string, string>, d: Date): string {
    if IsoText(d) in byDate then byDate[IsoText(d)] else "M"
  }

  /**
   * Reference reading of the response, without an index: the text of the
   * last of the first `n` rows that carries date `k`, `M` when none does.
   */
  function LastRaw(data: seq<AcisRow>, n: nat, k: string): string
    requires n <= |data|
  {
    if n == 0 then "M"
    else if data[n - 1].date == Some(k) then RawOf(data[n - 1])
    else LastRaw(data, n - 1, k)
  }

  /** The search finds the row that the index keeps. */
  lemma {:induction false} LastRawFinds(data: seq<AcisRow>, n: nat, i: nat, k: string)
    requires n <= |data|
    requires LastWithDate(data, n, i, k)
    ensures LastRaw(data, n, k) == RawOf(data[i])
  {
    if i != n - 1 {
      assert data[n - 1].date != Some(k);
      assert LastWithDate(data, n - 1, i, k);
      LastRawFinds(data, n - 1, i, k);
    }
  }

  /** The search gives `M` for a date no row carries. */
  lemma {:induction false} LastRawMissing(data: seq<AcisRow>, n: nat, k: string)
    requires n <= |data|
    requires !Dated(data, n, k)
    ensures LastRaw(data, n, k) == "M"
  {
    if n > 0 {
      assert data[n - 1].date != Some(k);
      assert !Dated(data, n - 1, k);
      LastRawMissing(data, n - 1, k);
    }
  }

  /** A date's ISO text is never one that PHP reads as false. */
  lemma IsoTextTruthy(d: Date)
    ensures Truthy(IsoText(d))
  {
    var t := IsoText(d);
    assert |t| >= 2;
  }

  /** Reading a day through the index is reading the response directly. */
  lemma RawForIsLastRaw(data: seq<AcisRow>, byDate: map<string, string>, d: Date)
    requires Indexes(data, |data|, byDate)
    ensures RawFor(byDate, d) == LastRaw(data, |data|, IsoText(d))
  {
    var k := IsoText(d);
    IsoTextTruthy(d);
    if k in byDate {
      var i: nat :| LastWithDate(data, |data|, i, k) && byDate[k] == RawOf(data[i]);
      LastRawFinds(data, |data|, i, k);
    } else {
      LastRawMissing(data, |data|, k);
    }
  }

  function SeasonDays(startYear: int): seq<Date> {
    CalendarDays(SeasonStart(startYear), SeasonEnd(startYear))
  }

  /** A row of `daily`: the day, its snow (`null` when missing), and the two running totals. */
  datatype DailyRow = DailyRow(date: Date, snow: Snow, contestCum: real, seasonalCum: real)

  /** The rows as the series the dashboard reads. */
  function SeriesOf(rows: seq<DailyRow>): (s: seq<Day>)
    ensures |s| == |rows| && forall i :: 0 <= i < |rows| ==> s[i] == Day(rows[i].date, rows[i].snow)
  {
    seq(|rows|, i requires 0 <= i < |rows| => Day(rows[i].date, rows[i].snow))
  }

  /**
   * The daily loop: one row per calendar day of the season in order, its
   * snow converted from the ACIS text, both running totals equal to the sum
   * of the numeric snow so far, and the season total equal to the sum of
   * all of it.
   */
  method BuildDaily(byDate: map<string, string>, startYear: int, floatval: string -> real)
    returns (rows: seq<DailyRow>, total: real)
    ensures |rows| == |SeasonDays(startYear)|
    ensures forall i :: 0 <= i < |rows| ==>
      rows[i].date == SeasonDays(startYear)[i] && rows[i].snow == Convert(RawFor(byDate, rows[i].date), floatval)
    ensures IsRunningTotal(rows) && total == Total(SeriesOf(rows))
  {
    ghost var days := SeasonDays(startYear);
    var seasonEnd := SeasonEnd(startYear);
    CalendarDaysShape(SeasonStart(startYear), seasonEnd);
    rows := [];
    var seasonalCum := 0.0;
    var dt := SeasonStart(startYear);
    while AtOrBefore(dt, seasonEnd)
      invariant WalkAt(days, |rows|, dt, seasonEnd)
      invariant RowsFollow(rows, days, byDate, floatval)
      invariant IsRunningTotal(rows) && seasonalCum == Total(SeriesOf(rows))
      decreases |days| - |rows|
    {
      WalkStep(SeasonStart(startYear), seasonEnd, |rows|, dt);
      var snow := Convert(RawFor(byDate, dt), floatval);
      if snow.Measured? {
        seasonalCum := seasonalCum + snow.inches;
      }
      AppendRow(rows, DailyRow(dt, snow, seasonalCum, seasonalCum));
      FollowAppend(rows, days, byDate, floatval, DailyRow(dt, snow, seasonalCum, seasonalCum));
      rows := rows + [DailyRow(dt, snow, seasonalCum, seasonalCum)];
      dt := NextDay(dt);
    }
    total := seasonalCum;
  }

  /** Row `i` is season day `i` with the snow the response gives for it. */
  ghost predicate RowsFollow(rows: seq<DailyRow>, days: seq<Date>, byDate: map<string, string>, floatval: string -> real)
    requires |rows| <= |days|
  {
    forall i :: 0 <= i < |rows| ==>
      rows[i].date == days[i] && rows[i].snow == Convert(RawFor(byDate, rows[i].date), floatval)
  }

  /** Appending the next season day with its converted snow keeps the rows in step with the days. */
  lemma FollowAppend(rows: seq<DailyRow>, days: seq<Date>, byDate: map<string, string>, floatval: string -> real, r: DailyRow)
    requires |rows| < |days| && RowsFollow(rows, days, byDate, floatval)
    requires r.date == days[|rows|] && r.snow == Convert(RawFor(byDate, r.date), floatval)
    ensures RowsFollow(rows + [r], days, byDate, floatval)
  {
    var rows' := rows + [r];
    forall i | 0 <= i < |rows'|
      ensures rows'[i].date == days[i] && rows'[i].snow == Convert(RawFor(byDate, rows'[i].date), floatval)
    {
      if i < |rows| {
        assert rows'[i] == rows[i];
      }
    }
  }

  /** Both running totals of every row are the sum of the numeric snow up to and including that row. */
  predicate IsRunningTotal(rows: seq<DailyRow>) {
    forall i :: 0 <= i < |rows| ==> rows[i].contestCum == rows[i].seasonalCum == TotalTo(SeriesOf(rows), i + 1)
  }

  /** Appending the next day with the total so far plus its snow keeps the running totals right. */
  lemma AppendRow(rows: seq<DailyRow>, r: DailyRow)
    requires IsRunningTotal(rows)
    requires r.contestCum == r.seasonalCum == Total(SeriesOf(rows)) + Amount(Day(r.date, r.snow))
    ensures IsRunningTotal(rows + [r]) && Total(SeriesOf(rows + [r])) == r.seasonalCum
  {
    var s, s' := SeriesOf(rows), SeriesOf(rows + [r]);
    forall k: nat | k <= |rows|
      ensures TotalTo(s', k) == TotalTo(s, k)
    {
      assert s'[..k] == s[..k];
      TotalToPrefix(s', s, k);
    }
    assert (rows + [r])[|rows|] == r;
  }

  /** The running total moves by exactly the day's numeric snow, so with no negative report it never falls. */
  lemma {:induction false} CumulativeSteps(rows: seq<DailyRow>, i: nat)
    requires 0 < i < |rows|
    requires IsRunningTotal(rows)
    ensures rows[i].seasonalCum == rows[i - 1].seasonalCum + Amount(SeriesOf(rows)[i])
    ensures (rows[i].snow.Missing? || rows[i].snow.inches >= 0.0) ==> rows[i - 1].seasonalCum <= rows[i].seasonalCum
  {
  }

  /** Every day of the season is present exactly once: the row dates strictly increase and cover the window. */
  lemma DailyCoversSeason(rows: seq<DailyRow>, startYear: int, d: Date)
    requires |rows| == |SeasonDays(startYear)|
    requires forall i :: 0 <= i < |rows| ==> rows[i].date == SeasonDays(startYear)[i]
    requires ValidDate(d) && InSeason(d, startYear)
    ensures exists i :: 0 <= i < |rows| && rows[i].date == d
    ensures forall i, j :: 0 <= i < j < |rows| ==> Before(rows[i].date, rows[j].date)
  {
    CalendarDaysComplete(SeasonStart(startYear), SeasonEnd(startYear), d);
    var days := SeasonDays(startYear);
    var i :| 0 <= i < |days| && days[i] == d;
    assert rows[i].date == d;
    forall i, j | 0 <= i < j < |rows|
      ensures Before(rows[i].date, rows[j].date)
    {
      CalendarDaysIncreasing(SeasonStart(startYear), SeasonEnd(startYear), i, j);
    }
  }

  // ---------------------------------------------------------------------
  // The payload

  const StationSid: string := "208941"
  const StationName: string := "WHITE LAKE 4E"

  function SnowValue(s: Snow): Value {
    if s.Missing? then Null else Num(s.inches)
  }

  function RowOf(r: DailyRow): Row {
    Row(Some(Str(IsoText(r.date))), Some(SnowValue(r.snow)), Some(Num(r.contestCum)), Some(Num(r.seasonalCum)), map[])
  }

  /** The payload written for a season: every alias already holds the season window or its total. */
  function FreshPayload(startYear: int, rows: seq<DailyRow>, total: real): Payload {
    var start := Some(Str(IsoText(SeasonStart(startYear))));
    var end := Some(Str(IsoText(SeasonEnd(startYear))));
    var sum := Some(Num(total));
    Payload(
      Some(Str(StationName)), Some(Str(StationSid)), Some(Str(SeasonLabel(startYear))),
      start, end, sum,
      start, end, sum,
      start, end, sum,
      start, end,
      Some(seq(|rows|, i requires 0 <= i < |rows| => RowOf(rows[i]))),
      map[])
  }

  /**
   * `p` is the payload built for season `startYear` from the ACIS rows
   * `data`: one row per season day in order, each day's snow converted from
   * the last response row carrying that date (`M` when none does), both
   * running totals and the season total summing the numeric snow.
   */
  ghost predicate BuiltFromAcis(p: Payload, startYear: int, data: seq<AcisRow>, floatval: string -> real) {
    exists rows: seq<DailyRow>, total: real ::
      && p == FreshPayload(startYear, rows, total)
      && |rows| == |SeasonDays(startYear)|
      && (forall i :: 0 <= i < |rows| ==>
            rows[i].date == SeasonDays(startYear)[i]
            && rows[i].snow == Convert(LastRaw(data, |data|, IsoText(rows[i].date)), floatval))
      && IsRunningTotal(rows) && total == Total(SeriesOf(rows))
  }

  /**
   * What a request promises about the payload it builds for season
   * `startYear` from `data`: it is built from the ACIS rows, needs no
   * upgrade, has the date of every season day in order, and passes the
   * freshness check of its own season.
   */
  ghost predicate FreshForSeason(p: Payload, startYear: int, data: seq<AcisRow>, floatval: string -> real) {
    var start := IsoText(SeasonStart(startYear));
    && BuiltFromAcis(p, startYear, data, floatval)
    && Upgraded(p, start, IsoText(SeasonEnd(startYear))) == p
    && p.daily.Some? && |p.daily.value| == |SeasonDays(startYear)|
    && (forall i :: 0 <= i < |SeasonDays(startYear)| ==>
          p.daily.value[i].date == Some(Str(IsoText(SeasonDays(startYear)[i]))))
    && (|SeasonDays(startYear)| > 0 ==> HasCurrentFields(Some(p), start))
  }

  /** Rows built through the index of `data` make the payload that `data` itself determines. */
  lemma BuiltThroughIndex(data: seq<AcisRow>, byDate: map<string, string>, startYear: int,
                          rows: seq<DailyRow>, total: real, floatval: string -> real)
    requires Indexes(data, |data|, byDate)
    requires |rows| == |SeasonDays(startYear)|
    requires forall i :: 0 <= i < |rows| ==>
      rows[i].date == SeasonDays(startYear)[i] && rows[i].snow == Convert(RawFor(byDate, rows[i].date), floatval)
    requires IsRunningTotal(rows) && total == Total(SeriesOf(rows))
    ensures FreshForSeason(FreshPayload(startYear, rows, total), startYear, data, floatval)
  {
    forall i | 0 <= i < |rows|
      ensures rows[i].snow == Convert(LastRaw(data, |data|, IsoText(rows[i].date)), floatval)
    {
      RawForIsLastRaw(data, byDate, rows[i].date);
    }
    FreshPayloadShape(startYear, rows, total);
  }

  /** A payload of one row per season day needs no upgrade, lists the days in order and is current. */
  lemma FreshPayloadShape(startYear: int, rows: seq<DailyRow>, total: real)
    requires |rows| == |SeasonDays(startYear)|
    requires forall i :: 0 <= i < |rows| ==> rows[i].date == SeasonDays(startYear)[i]
    ensures var p, start := FreshPayload(startYear, rows, total), IsoText(SeasonStart(startYear));
      && Upgraded(p, start, IsoText(SeasonEnd(startYear))) == p
      && p.daily.Some? && |p.daily.value| == |SeasonDays(startYear)|
      && (forall i :: 0 <= i < |SeasonDays(startYear)| ==>
            p.daily.value[i].date == Some(Str(IsoText(SeasonDays(startYear)[i]))))
      && (|SeasonDays(startYear)| > 0 ==> HasCurrentFields(Some(p), start))
  {
    FreshPayloadNeedsNoUpgrade(startYear, rows, total, IsoText(SeasonStart(startYear)), IsoText(SeasonEnd(startYear)));
    if |rows| > 0 {
      FreshPayloadIsServed(startYear, rows, total, 0, 1);
    }
  }

  /** The upgrade leaves a freshly built payload exactly as it is. */
  lemma FreshPayloadNeedsNoUpgrade(startYear: int, rows: seq<DailyRow>, total: real, start: string, end: string)
    ensures Upgraded(FreshPayload(startYear, rows, total), start, end) == FreshPayload(startYear, rows, total)
  {
    var p := FreshPayload(startYear, rows, total);
    var d := UpgradedDaily(p.daily);
    assert d.value == p.daily.value;
  }

  /** A season's payload, once written, is accepted for that season while it is younger than the lifetime. */
  lemma FreshPayloadIsServed(startYear: int, rows: seq<DailyRow>, total: real, age: int, ttl: int)
    requires |rows| > 0
    ensures var cache := Some(CacheFile(age, Some(FreshPayload(startYear, rows, total))));
      ServesCache(cache, ttl, IsoText(SeasonStart(startYear))) <==> age < ttl
  {
    var p := FreshPayload(startYear, rows, total);
    assert p.daily.value[0] == RowOf(rows[0]);
  }

  /** A payload for one season is never accepted for another one. */
  lemma CacheIsPerSeason(a: nat, b: nat, rows: seq<DailyRow>, total: real)
    requires a != b
    ensures !HasCurrentFields(Some(FreshPayload(a, rows, total)), IsoText(SeasonStart(b)))
  {
    SeasonStartTextDiffers(a, b);
  }

  /** Two seasons never share the text of their first day. */
  lemma SeasonStartTextDiffers(a: nat, b: nat)
    requires a != b
    ensures IsoText(SeasonStart(a)) != IsoText(SeasonStart(b))
  {
    var sa, sb := Text.NatToString(a), Text.NatToString(b);
    var suffix := "-" + Pad2(7) + "-" + Pad2(1);
    assert IsoText(SeasonStart(a)) == sa + suffix;
    assert IsoText(SeasonStart(b)) == sb + suffix;
    Text.DigitsValueOfNatToString(a);
    Text.DigitsValueOfNatToString(b);
    assert sa != sb;
    assert (sa + suffix)[..|sa|] == sa && (sb + suffix)[..|sb|] == sb;
  }

  // ---------------------------------------------------------------------
  // CSV records

  const CsvHeader: seq<string> := ["date", "snow", "seasonal_cum"]

  /** A value as `fputcsv` receives it: `null` as the empty field, a number through `format`. */
  function CsvField(v: Value, format: real -> string): string {
    match v
    case Null => ""
    case Str(s) => s
    case Num(x) => format(x)
  }

  /** One record: the date, the day's snow and the seasonal running total. */
  function CsvRecord(row: Row, format: real -> string): (r: seq<string>)
    ensures |r| == 3
    ensures ValueOf(row.snow) == Null ==> r[1] == ""
    ensures ValueOf(row.seasonalCum) == Null ==> r[2] == ""
  {
    [CsvField(ValueOf(row.date), format), CsvField(ValueOf(row.snow), format), CsvField(ValueOf(row.seasonalCum), format)]
  }

  /** The streamed table: the header, then one record per daily row (none when `daily` is absent). */
  function CsvTable(p: Payload, format: real -> string): (t: seq<seq<string>>)
    ensures |t| == 1 + (if p.daily.Some? then |p.daily.value| else 0) && t[0] == CsvHeader
    ensures p.daily.Some? ==> forall i :: 0 <= i < |p.daily.value| ==> t[i + 1] == CsvRecord(p.daily.value[i], format)
  {
    var rows := if p.daily.Some? then p.daily.value else [];
    [CsvHeader] + seq(|rows|, i requires 0 <= i < |rows| => CsvRecord(rows[i], format))
  }

  /**
   * In the CSV of a freshly built season, a day's snow field is empty
   * exactly when the day has no report, and its date field is the ISO date.
   */
  lemma CsvOfFreshPayload(startYear: int, rows: seq<DailyRow>, total: real, format: real -> string, i: nat)
    requires i < |rows|
    requires forall x :: format(x) != ""
    ensures var t := CsvTable(FreshPayload(startYear, rows, total), format);
      |t| == |rows| + 1 && t[i + 1][0] == IsoText(rows[i].date) &&
      (t[i + 1][1] == "" <==> rows[i].snow.Missing?)
  {
    var p := FreshPayload(startYear, rows, total);
    assert p.daily.value[i] == RowOf(rows[i]);
    if rows[i].snow.Measured? {
      var x := rows[i].snow.inches;
      assert format(x) != "";
    }
  }

  // ---------------------------------------------------------------------
  // A request

  /** What the proxy sends: a payload, or the soft error when ACIS returned nothing usable. */
  datatype Response = Served(payload: Payload) | NoData(startYear: int)

  /**
   * One request: serve the cache when it is fresh and current (upgraded),
   * otherwise build the season from the ACIS response and write it to the
   * cache; an ACIS failure is answered with an error and never cached.
   * `now` is today's date, `fetched` the ACIS `data` rows (`None` when the
   * call failed or returned no `data`), `floatval` PHP's number parsing.
   */
  method HandleRequest(param: Option<string>, now: Date, cache: Option<CacheFile>,
                       fetched: Option<seq<AcisRow>>, floatval: string -> real)
    returns (response: Response, written: Option<Payload>)
    requires ValidDate(now)
    ensures var y := StartYear(param, now.year, now.month);
      var start := IsoText(SeasonStart(y));
      if ServesCache(cache, CacheTtl(now, y), start) then
        written.None? && response == Served(Upgraded(cache.value.content.value, start, IsoText(SeasonEnd(y))))
      else if fetched.None? then
        written.None? && response == NoData(y)
      else
        response.Served? && written == Some(response.payload) && FreshForSeason(response.payload, y, fetched.value, floatval)
  {
    var y := StartYear(param, now.year, now.month);
    var start, end := IsoText(SeasonStart(y)), IsoText(SeasonEnd(y));
    var ttl := CacheTtl(now, y);
    if ServesCache(cache, ttl, start) {
      var payload := Upgrade(cache.value.content.value, start, end);
      return Served(payload), None;
    }
    if fetched.None? {
      return NoData(y), None;
    }
    var byDate := IndexByDate(fetched.value);
    var rows, total := BuildDaily(byDate, y, floatval);
    BuiltThroughIndex(fetched.value, byDate, y, rows, total, floatval);
    var payload := FreshPayload(y, rows, total);
    return Served(payload), Some(payload);
  }
}
