# snowcontest — season statistics and contest ranking, in Dafny

This project models the computational core of the snowfall dashboard. The dashboard shows one station's daily snowfall for a season, the records across seasons, and an office prediction contest. The proxy it uses fetches the daily series from NOAA ACIS. The model covers:

- **The daily series** (`Proxy`, `LegacyProxy`). The season proxy fills every calendar day from 1 July to 30 June, maps `M` to missing and `T` to zero, and keeps a running total. It also picks the season, decides whether the cache is served, and back-fills older payloads (`$upgrade`). The older contest-window proxy scores and picks a station and builds a running total over Nov 1 – Mar 31.
- **The season statistics** (`Series`, `Streaks`, `Records`, `SeasonView`):
  - the total, and the counts of heavy (≥ 2") and major (≥ 6") days;
  - the largest day, where the first occurrence wins;
  - the longest streak of measurable (≥ 0.1") days, with its tie count and tie-break by total;
  - the longest lull between the first and the last measurable day;
  - the holidays;
  - the record holders across seasons;
  - the cards of the season page.
- **The contest resolvers** (`Contest`): "closest without going over" and "closest to the average", both with epsilon ties.
- **The custom range and the small helpers** (`CustomRange`, `Calendar`, `Text`):
  - the range filter, sort, cumulative series and CSV export;
  - the season of a date and the contest window;
  - the nth weekday of a month;
  - the contest stage;
  - HTML escaping;
  - CSV quoting;
  - the guess name list;
  - the histogram bin size.

Conventions:
- Snow amounts are `real`, so sums and comparisons are exact.
- Dates are `Calendar.Date(year, month, day)`. For years of four digits, their lexicographic order is the order of their ISO text. Outside 1000–9999 the two orders differ, in the PHP proxies, in custom-range.js and in app.js; see "Left out".
- A day's snow is `Measured(inches)` or `Missing`.
- Loops in the source become methods with loop invariants. Each method is proved against a specification function or predicate on the whole input, and the properties the source promises are proved about that specification.
- PHP's `floatval` and the JavaScript number formatting (`toFixed`) are function parameters.
- "Now" is a parameter; so are the ACIS responses and the cache file.

Files:
- `options.dfy`
- `calendar.dfy`
- `text.dfy`
- `series.dfy`
- `streaks.dfy`
- `records.dfy`
- `season_view.dfy`
- `contest.dfy`
- `custom_range.dfy`
- `proxy.dfy`
- `legacy_proxy.dfy`

Where the written description of the system and the code differ, the model follows the code:
- A missing day ends a lull, just as it ends a streak; it does not extend the lull.
- Between two equally long streaks with equal totals, the earlier one is kept.
- The season proxy's day loop with a start after the end produces an empty series. It does not raise an error.
- The percentile forecaster that the description mentions does not exist in the code, so it is not modelled.
- PHP's `/^\d{4}$/` also accepts a four-digit year followed by one newline, because `$` matches before a final newline. `Proxy.IsYearParam` accepts exactly that.

## Model

| member | source | states |
|---|---|---|
| Calendar.NextDay | snowdata.php:201 | `+1 day` gives a valid date strictly after the argument, with no valid date in between |
| Calendar.CalendarDaysShape | snowdata.php:198-224 | the days from `from` to `to` start at `from`, end at `to`, and each is the next day of the one before |
| Calendar.CalendarDaysIncreasing | snowdata.php:198-224 | the days of the loop are strictly increasing |
| Calendar.CalendarDaysComplete | snowdata.php:198-224 | every valid date between `from` and `to` is one of the loop's days |
| Calendar.SeasonStartYear | custom-range.js:57-63 | the season year is the year in July–December and the year before in January–June |
| Calendar.SeasonOfDate | snowdata.php:45-52 | a date lies in exactly one season window (1 July – 30 June), the one `SeasonStartYear` gives |
| Calendar.SeasonStartYearMonotone | custom-range.js:363-372 | a later date never belongs to an earlier season, so the season list of a range is never empty |
| Calendar.ContestStartYear | trash/snowdata.php:14-20 | the contest year is the year from November on and the year before otherwise |
| Calendar.ContestOfDate | trash/snowdata.php:22-24 | a date inside a Nov 1 – Mar 31 window determines its year; between April and October the last window has ended |
| Calendar.NthWeekdayOfMonth | records.js:48-56 | the result, when present, is in the requested month, falls on the requested weekday and is its nth occurrence; it is absent only when no day of the month is the nth occurrence of that weekday (see "Left out" for very large or very negative `nth`) |
| Calendar.NthWeekdayFacts | records.js:50-52 | the day `1 + offset + (nth-1)*7` is the unique day of the month with that weekday in week `nth` |
| Calendar.UpToFourthAlwaysExists | records.js:61-65 | the first to fourth weekday of any month always exists, so the holiday dates are never null |
| Calendar.GetStage | app.js:543-550 | `unknown` iff some instant is invalid; `pre` iff now is before the start; `done` iff now is after the end and not before the start; `active` iff start ≤ now ≤ end |
| Text.EscapeHtml | app.js:464-476 | null becomes `""`; the escaped text contains no `<`, `>`, `"` or `'` |
| Text.EscapeRoundTrip | app.js:464-476 | decoding the five entities recovers the original text, so escaping loses nothing |
| Text.DigitsValueOfNatToString | snowdata.php:35-36 | reading back the decimal text of a number gives the number |
| Text.ReadQuotedOfDoubled | app.js:191-195 | a cell with doubled quotes inside quotes reads back as the cell text, ending at the closing quote |
| Text.CsvRoundTrip | app.js:191-195 | parsing quoted, comma-joined, CRLF-joined rows gives back every row's cells, with null cells read as empty |
| Text.FirstOccurrences | app.js:205-207 | keeps every non-empty name of the list exactly once and nothing else |
| Text.IndexOf | app.js:207 | `indexOf` of a name that occurs is the index of its first occurrence |
| Text.FirstOccurrencesIsIndexOfFilter | app.js:205-207 | skipping the names already seen is exactly the `name && arr.indexOf(name) === idx` filter, so names keep the order of their first occurrence |
| Text.KeptNamesInOrder | app.js:205-207 | the names kept from the whole list are the `indexOf` filter of the whole list |
| Text.DisplayNames | app.js:206 | one display name per entry, in order: the trimmed name, or `Unknown` when it is absent or empty |
| Text.NameCount | app.js:205-208 | as many names are kept as there are distinct non-empty display names |
| Text.FormatGuessNameList | app.js:204-214 | `—` when every display name is blank; otherwise, with n distinct non-empty names in order of first occurrence, the names joined by `, ` when n ≤ 3, and the first three followed by ` +k more` with k = n − 3 when n > 3 |
| Text.NormalizeBinSize | app.js:437-444 | the result is one of the steps; it is the smallest step at least `span / max(bins, 1)`, or 50 when no step is that large |
| Series.CountAtLeastAntitone | records.js:149-154 | fewer days reach a higher threshold, so the major-day count never exceeds the heavy-day count |
| Series.UpdateLargest | records.js:155-157 | after each day the kept index is the first day holding the largest numeric value so far, or none while no day is numeric |
| Series.FirstIndexWhere | records.js:91 | `findIndex`: the first index satisfying the predicate, none iff no element does |
| Series.LastIndexWhere | records.js:93-99 | the backward loop finds the last index satisfying the predicate, none iff no element does |
| Series.LastDataDate | records.js:72-85 | `determineLastDataDate` is the date of the last numeric row, null iff no row is numeric |
| Streaks.FinalizeStreak | records.js:116-141 | closing a run keeps `LongestAmong`: a longer run replaces the best with count 1; an equal run adds one to the count and replaces the best only with a strictly larger total; the run state is reset |
| Streaks.ClosedRunEnds | records.js:158-167 | the run that a non-measurable day or the end closes ends just before it, and no day inside it ends a run |
| Streaks.ClosedRunCount | records.js:158-167 | a run closed by a non-measurable day or the end adds exactly one run of its length to the count of runs of each length, and nothing to other lengths |
| Streaks.LongestStreakIsMaximum | records.js:143-169 | no stretch of consecutive measurable days is longer than the reported streak; the length is 0 iff no day is measurable, and so is the count |
| Streaks.RunsOfLengthCounts | records.js:126-127 | each run that ends is counted among the runs of its length |
| Streaks.FinalizeLull | records.js:177-188 | closing a dry run keeps the earliest longest dry run seen and resets the run |
| Streaks.ScanLull | records.js:190-207 | the scan returns the earliest longest run of numeric days below 0.1"; missing or measurable days end a run |
| Streaks.LullIsMaximum | records.js:190-207 | no stretch of dry days is longer than the reported lull; the length is 0 iff no day is dry |
| Streaks.LullInsideWindow | records.js:172-208 | when the window starts and ends with measurable days, the lull lies strictly inside it |
| Streaks.StreakStep | records.js:157-166 | one day of the scan keeps `Scanned`: a measurable day extends the open run, a non-measurable day closes an open run through `finalizeStreak`, and with no open run nothing changes |
| Records.ScanDays | records.js:143-169 | the forward pass: the sum of numeric snow, the counts of days ≥ 2" and ≥ 6", the first largest day, and the longest streak with its tie count and total |
| Records.MeasurableBounds | records.js:91-99 | the first and last measurable indices; both are absent iff no day is measurable |
| Records.SeasonLull | records.js:171-208 | the longest lull of the days from the first to the last measurable day inclusive; an empty lull when there is no measurable day |
| Records.ComputeSeasonStats | records.js:87-248 | the label, first and last snow, total, heavy ≤ major ordering, largest day, streak, lull, holiday outcomes, hits equal to the number of measurable holidays and at most 5, clean sweep iff every holiday was measurable, and the last numeric row |
| Records.HolidayList | records.js:58-70 | five holidays: Thanksgiving, Christmas, New Year's Day, MLK Day and Presidents Day |
| Records.HolidaysInSeason | records.js:58-70 | every holiday has a date, and the date lies in the season |
| Records.FirstRowOn | records.js:214 | `find`: the first row with the holiday's date, none iff no row has it |
| Records.HolidayOutcome | records.js:210-225 | the amount is present iff the first row on that date is numeric; measurable iff that amount is ≥ 0.1" |
| Records.Hits | records.js:227 | the count of measurable holidays is at most the count of holidays, with equality iff all were measurable |
| Records.FirstMax | records.js:295-300 | the `reduce` keeps the first season holding the strictly greatest key, skipping seasons without a key |
| Records.Summarize | records.js:254-312 | each record holder is the first season with the extreme key (earliest/latest first and last snow, longest drought and streak, largest day, snowiest, most heavy and major days), and the clean sweeps are exactly the seasons where every holiday snowed |
| Records.EarliestFirstSnow | records.js:257-260 | the earliest-first-snow season snowed no later than any season, and strictly earlier than any later-listed season |
| Records.ThreeDaySeason | records.js:126-135 | with runs 1" and 3" separated by a dry day, the reported streak is the later, snowier run, and the tie count is 2 |
| Records.ThreeDaySeasonReversed | records.js:128-135 | with the snowier run first, the earlier run is kept |
| Records.SingleRunSeason | records.js:143-169 | a season whose measurable days form one run reports exactly that run with count 1 |
| SeasonView.MeasurableSumAtLeast | app.js:1027-1032 | the sum of measurable days is at least 0.1" times their count, so the average card is at least 0.1" |
| SeasonView.ScanCards | app.js:1013-1034 | the first largest numeric day (none iff no day is numeric), the first and last measurable days (both absent iff none), and their sum and count |
| SeasonView.LimitDate | app.js:1101-1112 | the limit is no later than today, the season end or the last row's date, and is one of them |
| SeasonView.LullWindow | app.js:1145-1148 | keeps exactly the rows dated from the first to the last measurable day and not after the limit |
| SeasonView.LullWindowAppend | app.js:1145-1148 | the window of `a + b` is the window of `a` followed by that of `b`, so rows keep their order |
| SeasonView.LullWindowCounts | app.js:1145-1148 | a row in the window occurs in it as often as in the series; no other row occurs |
| SeasonView.LoadSeasonLull | app.js:1114-1162 | no lull without two distinct measurable days; otherwise the earliest longest lull among the rows of the window |
| SeasonView.ComputeWindowTotal | app.js:520-541 | null iff a bound is missing or no row's date lies in the window; otherwise the sum of numeric snow over in-window rows |
| SeasonView.WindowSumAll | app.js:526-536 | when every row is in the window, the window total is the plain total |
| SeasonView.WindowSumIgnoresOutside | app.js:528-530 | rows outside the window do not change the total |
| Contest.EligibleOfMembers | app.js:625-635 | the eligible list holds exactly the finite guesses with `target - guess ≥ -ε`, each with margin `max(target-guess, 0)`; it is empty iff no guess is eligible |
| Contest.EligibleOfAppend | app.js:625-635 | the eligible list of `a + b` is that of `a` followed by that of `b`, so entries keep their input order |
| Contest.OverOfMembers | app.js:625-635 | the over list holds exactly the finite guesses with `target - guess < -ε`, each with margin `guess - target`; it is empty iff no guess is over |
| Contest.OverOfAppend | app.js:625-635 | the over list of `a + b` is that of `a` followed by that of `b`, so entries keep their input order |
| Contest.MinMargin | app.js:638 | the minimum margin is attained and is at most every margin |
| Contest.WithinSound | app.js:639-645 | every winner is an item within ε of the minimum, with that item's entry and margin and the group's `wentOver` |
| Contest.WithinComplete | app.js:639-645 | every item within ε of the minimum is a winner |
| Contest.WithinAppend | app.js:639-645 | the winners of `a + b` are those of `a` followed by those of `b`, so winners keep their input order |
| Contest.WinnersAtMembers | app.js:616-662 | the reference winner list holds exactly the guesses of the deciding side within ε of the margin, each with its own margin |
| Contest.WithinEligibleIsWinnersAt | app.js:625-645 | filtering eligible guesses, then those within ε, gives the reference winner list of the eligible side, in input order |
| Contest.WithinOverIsWinnersAt | app.js:625-645 | filtering over guesses, then those within ε, gives the reference winner list of the over side, in input order |
| Contest.PickPriceIsRightResult | app.js:616-662 | the result of the scan equals the resolution `PriceIsRight` describes |
| Contest.PriceIsRightWinners | app.js:616-662 | no winners iff no finite guess, and then no margin. With an eligible guess, the margin is the least under-margin and some eligible guess has it, `allOver` is false, and the winners are all eligible guesses within ε of it and nothing else, in input order. Otherwise the same holds for the over guesses and their overshoot, with `allOver` true |
| Contest.WithinNonEmpty | app.js:637-658 | some item is within ε of the minimum, so a non-empty group always has a winner |
| Contest.AllOverExample | app.js:649-658 | guesses 12 and 15 against 10: only 12 wins, by 2, with `allOver` |
| Contest.FindClosestToAverage | app.js:242-260 | an empty list for a non-array input or a non-finite target; otherwise the result of the incremental scan |
| Contest.ClosestScanInvariant | app.js:246-258 | the kept entries are finite and within ε of the recorded best; the best is at most ε above every finite distance; there is no best iff no guess is finite |
| Contest.ClosestToAverageResult | app.js:242-260 | empty iff no guess is finite; every returned entry is within 2ε of the closest finite guess |
| Contest.ClosestTieExample | app.js:255-256 | two equal guesses are both returned, in order |
| Contest.ClosestMissesCloserGuess | app.js:251-257 | guesses 13, 7 + ε, 20 − ε and 0, whose mean is the target 10: the second guess is the closest, ε closer than the first, but is left out, and only the first is returned |
| Contest.ClosestInclusiveKeepsClosest | app.js:251-257 | with a reset at `delta + ε ≤ best`, every guess at the smallest distance is returned |
| CustomRange.RowsInRange | custom-range.js:136-137 | keeps exactly the rows dated within the range, with their multiplicities |
| CustomRange.Insert | custom-range.js:138 | inserting into a date-sorted list keeps it sorted and adds exactly that row |
| CustomRange.SortByDate | custom-range.js:138 | the result is sorted by date and is a permutation of the input |
| CustomRange.InsertOnDate | custom-range.js:138 | inserting a row puts it ahead of the rows with its date and leaves the rows of every date in order |
| CustomRange.SortByDateStable | custom-range.js:138 | the sort is stable: the rows of each date keep their input order, as `Array.prototype.sort` guarantees |
| CustomRange.Tabulate | custom-range.js:140-176 | one label, value and cumulative entry per row; `cumulativeValues[i]` is the numeric sum of rows 0..i and the last equals `totalSnow`; measurable days ≤ rows; the peak is the first largest numeric row, null iff none |
| CustomRange.ComputeRangeData | custom-range.js:135-177 | the rows kept are sorted, lie within the range, and are a permutation of the in-range rows; over them, one label (the date) and one daily value (null iff missing) per row, `cumulativeValues[i]` the sum of rows 0..i, the total, the measurable count, and the peak as the first largest numeric row (null iff none) |
| CustomRange.CumulativeStep | custom-range.js:153-164 | a missing day repeats the previous cumulative value; a numeric day adds its value |
| CustomRange.SeasonsForRange | custom-range.js:344-372 | missing dates and start after end are rejected; two ordered dates are accepted iff both are valid; the seasons are then consecutive from the start date's season to the end date's, and cover every day of the range |
| CustomRange.ExportTable | custom-range.js:317-323 | a header row, then one three-cell row per label; with no labels the page writes no file (custom-range.js:313-315), so only the non-empty tables are exported |
| CustomRange.ExportReadsBack | custom-range.js:317-330 | the exported CSV parses back to the header plus one three-cell row per day, with an empty daily cell iff the day's value is missing |
| Proxy.StartYearParamRoundTrip | snowdata.php:35-36 | a four-digit year given as the parameter, with or without a final newline, is the season served |
| Proxy.DefaultSeasonHoldsToday | snowdata.php:37-43 | without a valid parameter, the season served is the one containing today |
| Proxy.CacheTtl | snowdata.php:51-57 | one hour iff today lies in the season window, else a year |
| Proxy.ShortTtlOnlyForCurrentSeason | snowdata.php:51-57 | the short TTL applies exactly to the season containing today |
| Proxy.OrElse | snowdata.php:94-104 | `??`: the field when it is present and not null, else the default |
| Proxy.UpgradedRow | snowdata.php:86-91 | a row lacking `contest_cum` gets `seasonal_cum` (or null); any other row is unchanged |
| Proxy.Upgraded | snowdata.php:82-106 | an empty payload is unchanged; otherwise each of the ten aliases is kept if present and not null, else filled from its source (the season dates, then the season start and end, then the seasonal total); every other key is unchanged |
| Proxy.Upgrade | snowdata.php:82-106 | the step-by-step rewrite equals `Upgraded` |
| Proxy.UpgradeIdempotent | snowdata.php:82-106 | upgrading twice equals upgrading once |
| Proxy.IndexByDate | snowdata.php:187-193 | a key exists iff some row has that truthy date; its value is the last such row's raw value (`M` when absent) |
| Proxy.DatedStep | snowdata.php:187-193 | a date appears among the first n+1 rows iff it appears among the first n or is the date of row n |
| Proxy.IndexKeysStep | snowdata.php:187-193 | assigning one more row keeps the keys equal to the truthy dates seen so far |
| Proxy.IndexValuesStep | snowdata.php:187-193 | assigning one more row keeps each value equal to the raw text of the last row with that date |
| Proxy.IndexToIndexes | snowdata.php:187-193 | assigning the rows one after another, in order, builds an index whose keys are the truthy dates and whose values come from each date's last row |
| Proxy.LastRawFinds | snowdata.php:187-193 | the direct backward search finds the last row with that date |
| Proxy.LastRawMissing | snowdata.php:203 | the direct backward search gives `M` when no row has that date |
| Proxy.RawForIsLastRaw | snowdata.php:203 | reading a day through the index equals reading the last ACIS row with that date, `M` when none |
| Proxy.Convert | snowdata.php:203-211 | missing iff the raw value is `M`; `T` is 0.0; otherwise the number |
| Proxy.BuildDaily | snowdata.php:195-226 | one row per day of the season, with its ISO value converted; `contest_cum` = `seasonal_cum` = the running total; the season total equals the sum |
| Proxy.AppendRow | snowdata.php:213-223 | appending a row whose cumulative is the previous total plus its value keeps the running-total invariant |
| Proxy.CumulativeSteps | snowdata.php:213-222 | each cumulative is the previous one plus the day's numeric value, so it never falls when values are non-negative |
| Proxy.DailyCoversSeason | snowdata.php:198-224 | every date of the season has a row, and dates strictly increase |
| Proxy.BuiltThroughIndex | snowdata.php:187-247 | the payload built through the index has one row per season day, in order, each converted from the last ACIS row with that date; it needs no upgrade and carries the current season's fields |
| Proxy.FreshPayloadShape | snowdata.php:229-247 | a payload built for a season has one daily row per season day with that day's ISO date, needs no upgrade, and has the current fields when the season has days |
| Proxy.FreshPayloadNeedsNoUpgrade | snowdata.php:229-247 | a freshly built payload already holds every alias, so upgrading it changes nothing |
| Proxy.FreshPayloadIsServed | snowdata.php:67-78 | a fresh payload with rows, cached for its own season, is served exactly while it is younger than the TTL |
| Proxy.CacheIsPerSeason | snowdata.php:75-78 | a payload built for one season never passes the freshness check of another |
| Proxy.CsvRecord | snowdata.php:124-130 | three fields; a null snow or cumulative value is an empty field |
| Proxy.CsvTable | snowdata.php:122-130 | the header, then one record per daily row |
| Proxy.CsvOfFreshPayload | snowdata.php:261-272 | the CSV of a fresh payload has one line per day with its ISO date, and an empty snow field iff the day is missing |
| Proxy.HandleRequest | snowdata.php:66-278 | a fresh, current cache is served upgraded; otherwise an ACIS failure gives the error and writes nothing. Otherwise the payload is served and written, needs no upgrade and passes the freshness check. It is the season payload with one row per season day, in order. Each row's snow is converted from the last ACIS row with that date (`M` when none), and its running totals and the season total sum the numeric snow |
| LegacyProxy.DefaultWindowIsLatestStarted | trash/snowdata.php:14-24 | without a valid parameter, the window starts on or before today, the next one starts after today, and a window containing today is this one |
| LegacyProxy.Upper | trash/snowdata.php:142 | `strtoupper` maps ASCII lower-case letters to upper case and keeps every other character |
| LegacyProxy.WordsFound | trash/snowdata.php:72-79 | the number of priority words found is at most the number looked for |
| LegacyProxy.ValidCount | trash/snowdata.php:82-90 | the number of non-`M` rows is at most the number of rows |
| LegacyProxy.ScoreStation | trash/snowdata.php:70-93 | the two loops compute 1000 × words found + rows not `M` |
| LegacyProxy.NameDominates | trash/snowdata.php:92 | with fewer than 1000 rows, a name with more priority words always scores higher |
| LegacyProxy.BeforeSpace | trash/snowdata.php:130-131 | `explode(' ')[0]` is the longest space-free prefix, ended by a space or the end |
| LegacyProxy.SidOf | trash/snowdata.php:129-134 | the id is the first `sids` entry cut at its first space; it is absent iff `sids` is missing or empty or that text is falsy; when present it is truthy and has no space |
| LegacyProxy.FirstBestStep | trash/snowdata.php:144-152 | one more station keeps the best unless it is usable and scores strictly higher, in which case it becomes the best |
| LegacyProxy.PickBest | trash/snowdata.php:118-153 | none iff no station is usable; otherwise the first usable station with the highest score, with its id, name, data and score |
| LegacyProxy.BuildDaily | trash/snowdata.php:168-191 | one row per ACIS row in order, with its converted snow and `cum` equal to the running total; the total is the last running total |
| LegacyProxy.CumSteps | trash/snowdata.php:176-184 | `M` and `T` leave the running total unchanged; any other value adds its number |
| LegacyProxy.CumMonotone | trash/snowdata.php:168-191 | with no negative values, the running total never falls |
| LegacyProxy.HandleRequest | trash/snowdata.php:33-207 | the cache is sent iff it is younger than 900 s; otherwise the lookup error iff the lookup failed, the no-station error iff no station is usable. A built payload carries the first best station's id and name, the loop's row for each of its ACIS rows, their total, the season label and the Nov 1 – Mar 31 window. The built payload is what it writes to the cache; the cache answer and the two soft errors write nothing |

## Left out

- DOM, Chart.js, animation and the snow effect (`drawChart`, `animateNumberText`, `renderGuessHistogram`, `contestHighlightPlugin`, `snow.js`): these are presentation, with no computation to state.
- `fetch`, `AbortController`, the request tokens and the `Map` caches of the pages: these are I/O and supersession of stale requests. Fetch results are parameters of the model.
- `fetchGuessSheet` and the XLSX parsing are not part of this model. Guesses arrive as `Contest.Entry` values.
- The PHP HTTP calls, the cache file and `filemtime`, `date()`, headers (including `Cache-Control`) and `Content-Disposition`: the model receives the cache age, today's date and the ACIS rows as parameters, and returns the file it would write.
- Number formatting (`formatInches`, `toFixed`, `describeMargin`, `formatClosestGuessList`, `formatGuessRange`) and PHP `floatval` / `fputcsv` number text: these are parameters, or left out. Floating point is modelled as exact `real` arithmetic, and `NaN`, infinities and non-number guesses are all `NonFinite`.
- JavaScript `Date` and time zones: dates are calendar triples, and the weekday is computed by a day-count formula. `toISOString`'s UTC shift of the holiday `iso` field is not modelled. records.js:214 looks each holiday's row up by that `iso` text. East of UTC, local midnight's `toISOString` gives the previous day, so the source then reads the row of the day before the holiday. `Records.HolidayOutcome` always reads the holiday's own date, so in those time zones its amount and measurable flag can differ from the page's.
- `toLocaleDateString` labels, `formatDateLabel` and the season dropdown's option text.
- The seasonal forecaster: no file of the repository implements it.
- Proxy.HandleRequest: the choice between the JSON and the CSV answer (`$wantCsv`) is not modelled. The CSV it would send is `Proxy.CsvTable` of the same payload.
- Proxy payloads: only the keys the proxy reads or writes are fields. Other keys are kept untouched in `extra`. A `daily` that is not a list is treated as absent.
- LegacyProxy.HandleRequest: the cache file is sent as it is, so its content is not modelled.
- LegacyProxy.Upper: it covers ASCII letters only, like `strtoupper` from PHP 8.2 on; older locale-dependent upper-casing is not modelled.
- Text.TrimStart, Text.TrimEnd: they remove the ASCII white space, the no-break space and the byte-order mark. They do not remove the other Unicode space separators that `String.prototype.trim` also removes.
- Proxy.CacheTtl: it compares dates. The PHP compares the text `$startYear-07-01` (and the end text) with `date('Y-m-d')`. The two agree only when the season's first year lies in 1000–9998. For other years the text order differs; for example, the season starting in year 202 is written `202-07-01`, while today's text is zero-padded. That difference is not modelled.
- Proxy.ShortTtlOnlyForCurrentSeason: it holds for the date comparison of `Proxy.CacheTtl`. For a season whose first year lies outside 1000–9998, the PHP text comparison may disagree with it.
- Calendar.IsoText: the year is written without zero-padding, as `$startYear . '-07-01'` and `$startYear . '-11-01'` write it. `DateTime::format('Y-m-d')` and `toISOString` pad years below 1000 to four digits, so for such years the daily rows' date text of the proxy is not modelled.
- CustomRange.SeasonsForRange, CustomRange.RowsInRange, CustomRange.SortByDate: they compare dates. custom-range.js compares the ISO text: the range filter (custom-range.js:137), the sort comparator (custom-range.js:138) and the start-after-end test (custom-range.js:353). These agree only for four-digit years. For example, the range 9999-12-01 to 10000-01-31 is rejected by the page ("Start date must be on or before the end date"), while `SeasonsForRange` returns `Ok`. Years outside 1000–9999 are not modelled as the page treats them.
- SeasonView.ComputeWindowTotal: it compares dates. app.js:528 compares the ISO text (`date < startIso || date > endIso`), which agrees with the date order only for four-digit years.
- Calendar.NthWeekdayOfMonth: for very large `nth` (from 53 on, in some months) or very negative `nth` (around −51 or less), `new Date(year, month - 1, day)` can overflow by whole years into the same month of another year, and the source then returns that date. For example, 2023, January, Monday, `nth` 53 gives day 366, which is 2024-01-01, and Sunday with `nth` 54 gives day 372, which is 2024-01-07. The model returns None there. The page calls it only with `nth` 3 and 4 (records.js:61-65).
- Rows without a parseable date: the season page (app.js:1027, `day &&`, and app.js:1147, `!day`) and the custom range filter (custom-range.js:137, `row.date &&`) skip them. In the model every `Series.Day` has a date, so that skip is not modelled.
- Contest.FindClosestToAverage: it models the comparisons as written, including the tie gap shown under Findings. `Contest.ClosestScanInclusive` is the corrected scan and is not used by the page.

## Findings

| source | as written | input that shows it | evidently intended | confidence | as-written member | corrected member |
|---|---|---|---|---|---|---|
| app.js:251-257 | a guess replaces the list only when `delta + ε < bestDelta`, and is added only when `abs(delta - bestDelta) < ε`, so a guess exactly ε closer than the best falls through both tests | guesses 13, 7.000001, 19.999999 and 0, whose mean (the target the page passes, app.js:289) is 10: 7.000001 is the closest guess, 0.000001 closer than 13, but is dropped, and only 13 is reported (with exact arithmetic) | the closest guess is always among the reported ones (reset with `delta + ε <= bestDelta`) | low; not executed | Contest.ClosestMissesCloserGuess | Contest.ClosestInclusiveKeepsClosest |
