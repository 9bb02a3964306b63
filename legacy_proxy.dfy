/**
 * The older proxy: it serves the Nov 1 .. Mar 31 contest window, looks up
 * every station of the Detroit/Pontiac forecast office, scores each one by
 * the priority words in its name and the number of reported days, keeps
 * the best, and builds the daily series with a running total in ACIS order.
 */
module LegacyProxy {
  import opened Options
  import opened Calendar
  import opened Series
  import Proxy

  // ---------------------------------------------------------------------
  // Contest window

  /** The parameter when it is a four-digit year, otherwise the contest that started most recently. */
  function StartYear(param: Option<string>, nowYear: int, nowMonth: int): int
    requires 1 <= nowMonth <= 12
  {
    if param.Some? && Proxy.IsYearParam(param.value) then Proxy.StartYear(param, nowYear, nowMonth)
    else ContestStartYear(nowYear, nowMonth)
  }

  /**
   * Without a usable parameter the window served is the latest one that has
   * started: it starts on or before today, the next one starts after today,
   * and today lies in it whenever today lies in any window.
   */
  lemma DefaultWindowIsLatestStarted(today: Date, y: int)
    requires ValidDate(today)
    ensures var s := StartYear(None, today.year, today.month);
      && AtOrBefore(ContestStart(s), today) && Before(today, ContestStart(s + 1))
      && (InContest(today, y) ==> y == s)
  {
    ContestOfDate(today, y);
  }

  /** The cache is served whenever the file is younger than fifteen minutes, without looking inside. */
  const CacheTtl: int := 900

  predicate ServesCache(cacheAge: Option<int>) {
    cacheAge.Some? && cacheAge.value < CacheTtl
  }

  // ---------------------------------------------------------------------
  // Scoring a station

  const PriorityWords: seq<string> := ["WHITE", "LAKE", "NWS", "PONTIAC", "DTX"]

  /** `strtoupper` on one character: ASCII letters only. */
  function UpperChar(c: char): (u: char)
    ensures 'a' <= c <= 'z' ==> u as int == c as int - 32
    ensures !('a' <= c <= 'z') ==> u == c
  {
    if 'a' <= c <= 'z' then (c as int - 32) as char else c
  }

  function Upper(s: string): (u: string)
    ensures |u| == |s| && forall i :: 0 <= i < |s| ==> u[i] == UpperChar(s[i])
  {
    seq(|s|, i requires 0 <= i < |s| => UpperChar(s[i]))
  }

  /** `strpos($haystack, $w) !== false`. */
  predicate Contains(haystack: string, w: string) {
    exists i :: 0 <= i <= |haystack| - |w| && OccursAt(haystack, w, i)
  }

  predicate OccursAt(haystack: string, w: string, i: int) {
    0 <= i <= |haystack| - |w| && haystack[i..i + |w|] == w
  }

  /** How many of the first `k` words occur in the name. */
  function WordsFound(name: string, words: seq<string>, k: nat): (n: nat)
    requires k <= |words|
    ensures n <= k
  {
    if k == 0 then 0 else WordsFound(name, words, k - 1) + (if Contains(name, words[k - 1]) then 1 else 0)
  }

  /** How many of the first `k` rows carry a value other than `M` (an absent value reads as `M`). */
  function ValidCount(data: seq<Proxy.AcisRow>, k: nat): (n: nat)
    requires k <= |data|
    ensures n <= k
  {
    if k == 0 then 0 else ValidCount(data, k - 1) + (if Proxy.RawOf(data[k - 1]) != "M" then 1 else 0)
  }

  /** `score_station`'s value: a thousand per priority word in the name, plus one per reported day. */
  function Score(nameUpper: string, data: Option<seq<Proxy.AcisRow>>): nat {
    1000 * WordsFound(nameUpper, PriorityWords, |PriorityWords|) + (if data.Some? then ValidCount(data.value, |data.value|) else 0)
  }

  /** `score_station`: the word loop and the row loop. */
  method ScoreStation(nameUpper: string, data: Option<seq<Proxy.AcisRow>>) returns (score: int)
    ensures score == Score(nameUpper, data)
  {
    var nameScore := 0;
    var k := 0;
    while k < |PriorityWords|
      invariant 0 <= k <= |PriorityWords|
      invariant nameScore == WordsFound(nameUpper, PriorityWords, k)
    {
      if Contains(nameUpper, PriorityWords[k]) {
        nameScore := nameScore + 1;
      }
      k := k + 1;
    }
    var validCount := 0;
    if data.Some? {
      var rows := data.value;
      var n := 0;
      while n < |rows|
        invariant 0 <= n <= |rows|
        invariant validCount == ValidCount(rows, n)
      {
        if Proxy.RawOf(rows[n]) != "M" {
          validCount := validCount + 1;
        }
        n := n + 1;
      }
    }
    score := nameScore * 1000 + validCount;
  }

  /**
   * With fewer than a thousand rows (a contest window has at most 152 days),
   * a name with more priority words always outscores one with fewer,
   * whatever the reported days.
   */
  lemma NameDominates(a: string, da: Option<seq<Proxy.AcisRow>>, b: string, db: Option<seq<Proxy.AcisRow>>)
    requires db.Some? ==> |db.value| < 1000
    requires WordsFound(a, PriorityWords, 5) > WordsFound(b, PriorityWords, 5)
    ensures Score(a, da) > Score(b, db)
  {
  }

  // ---------------------------------------------------------------------
  // Choosing the station

  /** A station of the `StnMeta` answer: its name and its list of ids (either may be absent). */
  datatype Station = Station(name: Option<string>, sids: Option<seq<string>>)

  /** The text of an id before its first space (`explode(' ', $s)[0]`). */
  function BeforeSpace(s: string): (r: string)
    ensures |r| <= |s| && r == s[..|r|] && ' ' !in r
    ensures |r| < |s| ==> s[|r|] == ' '
  {
    if |s| == 0 || s[0] == ' ' then "" else [s[0]] + BeforeSpace(s[1..])
  }

  /** The station's id: the first entry of `sids` cut at its first space; `None` when it is missing or falsy. */
  function SidOf(st: Station): (r: Option<string>)
    ensures r.None? <==>
      st.sids.None? || |st.sids.value| == 0 || !Proxy.Truthy(BeforeSpace(st.sids.value[0]))
    ensures r.Some? ==> r.value == BeforeSpace(st.sids.value[0]) && Proxy.Truthy(r.value) && ' ' !in r.value
  {
    if st.sids.None? || |st.sids.value| == 0 then None
    else
      var sid := BeforeSpace(st.sids.value[0]);
      if Proxy.Truthy(sid) then Some(sid) else None
  }

  /** A station is tried when it has an id and ACIS returned data for it. */
  predicate Usable(st: Station, fetch: string -> Option<seq<Proxy.AcisRow>>) {
    SidOf(st).Some? && fetch(SidOf(st).value).Some?
  }

  function NameOf(st: Station): string {
    if st.name.Some? then st.name.value else ""
  }

  function StationScore(st: Station, fetch: string -> Option<seq<Proxy.AcisRow>>): nat
    requires Usable(st, fetch)
  {
    Score(Upper(NameOf(st)), fetch(SidOf(st).value))
  }

  datatype Choice = Choice(sid: string, name: string, data: seq<Proxy.AcisRow>, score: int)

  /** What the loop records for a usable station: its id, its name as given, its data and its score. */
  function ChoiceOf(st: Station, fetch: string -> Option<seq<Proxy.AcisRow>>): Choice
    requires Usable(st, fetch)
  {
    Choice(SidOf(st).value, NameOf(st), fetch(SidOf(st).value).value, StationScore(st, fetch))
  }

  /**
   * Station `i` is the first usable station with the highest score among
   * the first `n`: every usable station before it scores strictly less,
   * every one after it no more.
   */
  predicate IsFirstBest(stations: seq<Station>, fetch: string -> Option<seq<Proxy.AcisRow>>, n: nat, i: nat)
    requires n <= |stations|
  {
    && i < n && Usable(stations[i], fetch)
    && (forall j :: 0 <= j < i && Usable(stations[j], fetch) ==> StationScore(stations[j], fetch) < StationScore(stations[i], fetch))
    && (forall j :: i < j < n && Usable(stations[j], fetch) ==> StationScore(stations[j], fetch) <= StationScore(stations[i], fetch))
  }

  /** One more station either leaves the best where it is or, scoring higher, replaces it. */
  lemma FirstBestStep(stations: seq<Station>, fetch: string -> Option<seq<Proxy.AcisRow>>, n: nat, i: nat)
    requires n < |stations| && IsFirstBest(stations, fetch, n, i)
    ensures !Usable(stations[n], fetch) || StationScore(stations[n], fetch) <= StationScore(stations[i], fetch) ==>
      IsFirstBest(stations, fetch, n + 1, i)
    ensures Usable(stations[n], fetch) && StationScore(stations[n], fetch) > StationScore(stations[i], fetch) ==>
      IsFirstBest(stations, fetch, n + 1, n)
  {
    if Usable(stations[n], fetch) && StationScore(stations[n], fetch) > StationScore(stations[i], fetch) {
      FirstBestReplaced(stations, fetch, n, i);
    } else {
      FirstBestKept(stations, fetch, n, i);
    }
  }

  /** A station that is not usable or scores no higher leaves the best where it is. */
  lemma FirstBestKept(stations: seq<Station>, fetch: string -> Option<seq<Proxy.AcisRow>>, n: nat, i: nat)
    requires n < |stations| && IsFirstBest(stations, fetch, n, i)
    requires !Usable(stations[n], fetch) || StationScore(stations[n], fetch) <= StationScore(stations[i], fetch)
    ensures IsFirstBest(stations, fetch, n + 1, i)
  {
  }

  /** A usable station scoring strictly higher becomes the best. */
  lemma FirstBestReplaced(stations: seq<Station>, fetch: string -> Option<seq<Proxy.AcisRow>>, n: nat, i: nat)
    requires n < |stations| && IsFirstBest(stations, fetch, n, i)
    requires Usable(stations[n], fetch) && StationScore(stations[n], fetch) > StationScore(stations[i], fetch)
    ensures IsFirstBest(stations, fetch, n + 1, n)
  {
    var top := StationScore(stations[i], fetch);
    forall j | 0 <= j < n && Usable(stations[j], fetch)
      ensures StationScore(stations[j], fetch) < StationScore(stations[n], fetch)
    {
      assert StationScore(stations[j], fetch) <= top;
    }
  }

  /** The first usable station is the best of a prefix in which no earlier station is usable. */
  lemma FirstUsableStep(stations: seq<Station>, fetch: string -> Option<seq<Proxy.AcisRow>>, n: nat)
    requires n < |stations| && Usable(stations[n], fetch)
    requires forall j :: 0 <= j < n ==> !Usable(stations[j], fetch)
    ensures IsFirstBest(stations, fetch, n + 1, n)
  {
  }

  /**
   * The selection loop: skip stations without an id or without data, score
   * the rest, and keep a station only when it beats the best score so far
   * (which starts at -1). `fetch` stands for the ACIS call for one id.
   */
  method PickBest(stations: seq<Station>, fetch: string -> Option<seq<Proxy.AcisRow>>) returns (best: Option<Choice>)
    ensures best.None? <==> forall j :: 0 <= j < |stations| ==> !Usable(stations[j], fetch)
    ensures best.Some? ==> exists i: nat :: IsFirstBest(stations, fetch, |stations|, i) && best.value == ChoiceOf(stations[i], fetch)
  {
    best := None;
    var bestScore := -1;
    ghost var at: nat := 0;
    var n := 0;
    while n < |stations|
      invariant 0 <= n <= |stations|
      invariant best.None? <==> forall j :: 0 <= j < n ==> !Usable(stations[j], fetch)
      invariant best.None? ==> bestScore == -1
      invariant best.Some? ==> IsFirstBest(stations, fetch, n, at)
      invariant best.Some? ==> best.value == ChoiceOf(stations[at], fetch) && bestScore == best.value.score
    {
      var station := stations[n];
      var sid := SidOf(station);
      if best.Some? {
        FirstBestStep(stations, fetch, n, at);
      }
      if sid.Some? {
        var stnData := fetch(sid.value);
        if stnData.Some? {
          var stationName := NameOf(station);
          var score := ScoreStation(Upper(stationName), stnData);
          if score > bestScore {
            if best.None? {
              FirstUsableStep(stations, fetch, n);
            }
            bestScore := score;
            best := Some(Choice(sid.value, stationName, stnData.value, score));
            at := n;
          }
        }
      }
      n := n + 1;
    }
  }

  // ---------------------------------------------------------------------
  // Daily series

  /** A row of `daily`: the date as ACIS wrote it (absent kept as `null`), the snow and the running total. */
  datatype LegacyRow = LegacyRow(date: Option<string>, snow: Snow, cum: real)

  /** The numeric snow of the first `k` ACIS rows, a missing day adding nothing. */
  function CumTo(data: seq<Proxy.AcisRow>, k: nat, floatval: string -> real): real
    requires k <= |data|
  {
    if k == 0 then 0.0
    else CumTo(data, k - 1, floatval) + Inches(Proxy.Convert(Proxy.RawOf(data[k - 1]), floatval))
  }

  /** The row the daily loop writes for ACIS row `i`. */
  function RowAt(data: seq<Proxy.AcisRow>, i: nat, floatval: string -> real): LegacyRow
    requires i < |data|
  {
    LegacyRow(data[i].date, Proxy.Convert(Proxy.RawOf(data[i]), floatval), CumTo(data, i + 1, floatval))
  }

  /** `daily` holds the rows for the first `n` ACIS rows. */
  ghost predicate DailyTo(data: seq<Proxy.AcisRow>, n: nat, daily: seq<LegacyRow>, floatval: string -> real)
    requires n <= |data|
  {
    |daily| == n && forall i :: 0 <= i < n ==> daily[i] == RowAt(data, i, floatval)
  }

  /**
   * The daily loop: one row per ACIS row in ACIS order (no sorting, no
   * filling of absent days), `cum` the running total of the numeric snow,
   * the season total equal to the last running total.
   */
  method BuildDaily(data: seq<Proxy.AcisRow>, floatval: string -> real) returns (daily: seq<LegacyRow>, total: real)
    ensures |daily| == |data|
    ensures forall i :: 0 <= i < |data| ==>
      daily[i].date == data[i].date && daily[i].snow == Proxy.Convert(Proxy.RawOf(data[i]), floatval)
    ensures forall i :: 0 <= i < |data| ==> daily[i].cum == CumTo(data, i + 1, floatval)
    ensures total == CumTo(data, |data|, floatval)
  {
    daily := [];
    var cumTotal := 0.0;
    var n := 0;
    while n < |data|
      invariant 0 <= n <= |data|
      invariant DailyTo(data, n, daily, floatval)
      invariant cumTotal == CumTo(data, n, floatval)
    {
      var date := data[n].date;
      var snowRaw := Proxy.RawOf(data[n]);
      var snowIn: Snow;
      if snowRaw == "M" {
        snowIn := Missing;
      } else if snowRaw == "T" {
        snowIn := Measured(0.0);
        cumTotal := cumTotal + 0.0;
      } else {
        snowIn := Measured(floatval(snowRaw));
        cumTotal := cumTotal + floatval(snowRaw);
      }
      assert LegacyRow(date, snowIn, cumTotal) == RowAt(data, n, floatval);
      daily := daily + [LegacyRow(date, snowIn, cumTotal)];
      n := n + 1;
    }
    total := cumTotal;
  }

  /** A missing or trace day leaves the running total where it was; any other day adds its value. */
  lemma {:induction false} CumSteps(data: seq<Proxy.AcisRow>, i: nat, floatval: string -> real)
    requires i < |data|
    ensures var raw := Proxy.RawOf(data[i]);
      (raw == "M" || raw == "T" ==> CumTo(data, i + 1, floatval) == CumTo(data, i, floatval))
      && (raw != "M" && raw != "T" ==> CumTo(data, i + 1, floatval) == CumTo(data, i, floatval) + floatval(raw))
  {
  }

  /** With no negative value the running total never falls, and it ends at the season total. */
  lemma {:induction false} CumMonotone(data: seq<Proxy.AcisRow>, i: nat, j: nat, floatval: string -> real)
    requires i <= j <= |data|
    requires forall k :: 0 <= k < |data| ==> floatval(Proxy.RawOf(data[k])) >= 0.0
    ensures CumTo(data, i, floatval) <= CumTo(data, j, floatval)
    decreases j - i
  {
    if i < j {
      CumMonotone(data, i, j - 1, floatval);
      assert floatval(Proxy.RawOf(data[j - 1])) >= 0.0;
    }
  }

  // ---------------------------------------------------------------------
  // A request

  datatype LegacyPayload = LegacyPayload(
    stationName: string, stationSid: string, seasonLabel: string,
    startDate: string, endDate: string, totalSnowIn: real, daily: seq<LegacyRow>)

  /** The answer: the cache file as it is, one of the two soft errors, or a freshly built payload. */
  datatype Response = FromCache | LookupFailed | NoStation | Built(payload: LegacyPayload)

  /**
   * The payload comes from the first best station `i`: its id and name, the
   * row the daily loop writes for each of its ACIS rows, their total.
   */
  ghost predicate BuiltFrom(p: LegacyPayload, stations: seq<Station>, fetch: string -> Option<seq<Proxy.AcisRow>>,
                            i: nat, floatval: string -> real) {
    && IsFirstBest(stations, fetch, |stations|, i)
    && var data := fetch(SidOf(stations[i]).value).value;
    && p.stationSid == SidOf(stations[i]).value && p.stationName == NameOf(stations[i])
    && DailyTo(data, |data|, p.daily, floatval)
    && p.totalSnowIn == CumTo(data, |data|, floatval)
  }

  /**
   * One request: a cache younger than fifteen minutes is sent as it is;
   * otherwise a failed station lookup or no usable station gives an error
   * (never cached), and a chosen station gives a payload that is also
   * written to the cache. `meta` is the `StnMeta` list (`None` when the
   * lookup failed); `written` is what the request writes to the cache file.
   */
  method HandleRequest(param: Option<string>, now: Date, cacheAge: Option<int>, meta: Option<seq<Station>>,
                       fetch: string -> Option<seq<Proxy.AcisRow>>, floatval: string -> real)
    returns (response: Response, written: Option<LegacyPayload>)
    requires ValidDate(now)
    ensures written == (if response.Built? then Some(response.payload) else None)
    ensures response == FromCache <==> ServesCache(cacheAge)
    ensures response == LookupFailed <==> !ServesCache(cacheAge) && meta.None?
    ensures response == NoStation <==>
      !ServesCache(cacheAge) && meta.Some? && forall j :: 0 <= j < |meta.value| ==> !Usable(meta.value[j], fetch)
    ensures response.Built? ==> meta.Some? && exists i: nat :: BuiltFrom(response.payload, meta.value, fetch, i, floatval)
    ensures response.Built? ==> var y := StartYear(param, now.year, now.month);
      && response.payload.seasonLabel == SeasonLabel(y)
      && response.payload.startDate == IsoText(ContestStart(y)) && response.payload.endDate == IsoText(ContestEnd(y))
  {
    if ServesCache(cacheAge) {
      return FromCache, None;
    }
    var y := StartYear(param, now.year, now.month);
    if meta.None? {
      return LookupFailed, None;
    }
    var best := PickBest(meta.value, fetch);
    if best.None? {
      return NoStation, None;
    }
    ghost var i: nat :| IsFirstBest(meta.value, fetch, |meta.value|, i) && best.value == ChoiceOf(meta.value[i], fetch);
    var daily, total := BuildDaily(best.value.data, floatval);
    var payload := LegacyPayload(best.value.name, best.value.sid, SeasonLabel(y),
      IsoText(ContestStart(y)), IsoText(ContestEnd(y)), total, daily);
    assert BuiltFrom(payload, meta.value, fetch, i, floatval);
    response, written := Built(payload), Some(payload);
  }
}
