/**
 * The streak and lull scanners of the records page and the season card.
 *
 * A streak is a run of consecutive measurable days (at least 0.1"); a
 * missing or sub-threshold day ends it.  A lull is a run of consecutive
 * numeric days below 0.1"; a measurable or a missing day ends it.  Both
 * scanners keep a running run and a `finalize` step that compares it with
 * the best run seen so far and resets it.
 */
module Streaks {
  import opened Options
  import opened Series

  /** Positions of the first and the last day of a run. */
  datatype Span = Span(first: nat, last: nat)

  /** The running run of the scan: its length, first and last position, and its snow. */
  datatype Run = Run(length: nat, start: Option<nat>, end: Option<nat>, total: real)

  const Idle := Run(0, None, None, 0.0)

  // ---------------------------------------------------------------------
  // Streak specification

  /** Number of consecutive measurable days ending just before position `k`. */
  function RunLen(s: seq<Day>, k: nat): (n: nat)
    requires k <= |s|
    ensures n <= k
  {
    if k == 0 || !IsMeasurable(s[k - 1]) then 0 else RunLen(s, k - 1) + 1
  }

  /** Snow over those days. */
  function RunTotal(s: seq<Day>, k: nat): real
    requires k <= |s|
  {
    if k == 0 || !IsMeasurable(s[k - 1]) then 0.0 else RunTotal(s, k - 1) + s[k - 1].snow.inches
  }

  /** Day `e` is the last day of a maximal run of measurable days. */
  predicate EndsRun(s: seq<Day>, e: nat) {
    e < |s| && IsMeasurable(s[e]) && (e + 1 == |s| || !IsMeasurable(s[e + 1]))
  }

  /** Number of maximal runs of exactly `len` days whose last day is before position `n`. */
  function RunsOfLength(s: seq<Day>, len: nat, n: nat): nat
    requires n <= |s|
  {
    if n == 0 then 0
    else RunsOfLength(s, len, n - 1) + (if EndsRun(s, n - 1) && RunLen(s, n) == len then 1 else 0)
  }

  /** The reported streak: `longestStreak`, `longestStreakTotal` and `longestStreakCount`. */
  datatype Best = Best(length: nat, span: Option<Span>, total: real, count: nat)

  const NoStreak := Best(0, None, 0.0, 0)

  /**
   * `b` is the longest of the maximal runs that end before position `n`;
   * `count` runs share its length; among those it has the greatest snow,
   * and it is the earliest of the runs with that much snow.
   */
  predicate LongestAmong(s: seq<Day>, n: nat, b: Best)
    requires n <= |s|
  {
    && (forall e :: 0 <= e < n && EndsRun(s, e) ==> RunLen(s, e + 1) <= b.length)
    && b.count == RunsOfLength(s, b.length, n)
    && (b.length == 0 <==> b.span.None?)
    && (b.length == 0 ==> b.total == 0.0)
    && (b.span.Some? ==> ReportedRun(s, n, b))
  }

  predicate ReportedRun(s: seq<Day>, n: nat, b: Best)
    requires n <= |s| && b.span.Some?
  {
    var e := b.span.value.last;
    && e < n && EndsRun(s, e) && RunLen(s, e + 1) == b.length
    && b.span.value.first + b.length == e + 1
    && b.total == RunTotal(s, e + 1)
    && (forall e' :: 0 <= e' < n && EndsRun(s, e') && RunLen(s, e' + 1) == b.length ==> RunTotal(s, e' + 1) <= b.total)
    && (forall e' :: 0 <= e' < e && EndsRun(s, e') && RunLen(s, e' + 1) == b.length ==> RunTotal(s, e' + 1) < b.total)
  }

  /** Every day of the run ending before `k` is measurable, and the run counts up from its first day. */
  lemma {:induction false} RunInterior(s: seq<Day>, k: nat, j: nat)
    requires k <= |s| && k - RunLen(s, k) <= j < k
    ensures IsMeasurable(s[j]) && RunLen(s, j + 1) == j + 1 - (k - RunLen(s, k))
  {
    if j < k - 1 {
      RunInterior(s, k - 1, j);
    }
  }

  /** Positions that end no run do not change the run count. */
  lemma {:induction false} RunsOfLengthSkip(s: seq<Day>, len: nat, a: nat, b: nat)
    requires a <= b <= |s|
    requires forall j :: a <= j < b ==> !EndsRun(s, j)
    ensures RunsOfLength(s, len, b) == RunsOfLength(s, len, a)
  {
    if b > a {
      RunsOfLengthSkip(s, len, a, b - 1);
    }
  }

  /** No run of `len` days is counted where every run is shorter. */
  lemma {:induction false} RunsOfLengthNone(s: seq<Day>, len: nat, n: nat)
    requires n <= |s|
    requires forall e :: 0 <= e < n && EndsRun(s, e) ==> RunLen(s, e + 1) != len
    ensures RunsOfLength(s, len, n) == 0
  {
    if n > 0 {
      RunsOfLengthNone(s, len, n - 1);
    }
  }

  /** A run that ends before `n` is counted. */
  lemma {:induction false} RunsOfLengthCounts(s: seq<Day>, e: nat, n: nat)
    requires e < n <= |s| && EndsRun(s, e)
    ensures RunsOfLength(s, RunLen(s, e + 1), n) >= 1
  {
    if n - 1 != e {
      RunsOfLengthCounts(s, e, n - 1);
    }
  }

  /**
   * `run` is the run of measurable days that ends just before position `k`:
   * its length and snow, and its first and last position when it is not empty.
   */
  ghost predicate OpenRun(s: seq<Day>, k: nat, run: Run)
    requires k <= |s|
  {
    && run.length == RunLen(s, k) && run.total == RunTotal(s, k)
    && (run.length == 0 <==> run.start.None?)
    && (run.start.Some? ==> run.start.value + run.length == k && run.end == Some(k - 1))
  }

  /** A measurable day at position `k` extends the open run by one day and its snow. */
  lemma ExtendRun(s: seq<Day>, k: nat, run: Run)
    requires k < |s| && IsMeasurable(s[k]) && OpenRun(s, k, run)
    ensures OpenRun(s, k + 1, Run(run.length + 1, if run.length == 0 then Some(k) else run.start, Some(k), run.total + s[k].snow.inches))
  {
  }

  /** After a non-measurable day no run is open. */
  lemma NoOpenRun(s: seq<Day>, k: nat)
    requires k < |s| && !IsMeasurable(s[k])
    ensures OpenRun(s, k + 1, Idle)
  {
  }

  /** A non-measurable day at position `n` ends no run, so it changes nothing. */
  lemma LongestAmongExtend(s: seq<Day>, n: nat, b: Best)
    requires n < |s| && !IsMeasurable(s[n]) && LongestAmong(s, n, b)
    ensures LongestAmong(s, n + 1, b)
  {
    assert !EndsRun(s, n);
    assert RunsOfLength(s, b.length, n + 1) == RunsOfLength(s, b.length, n);
  }

  /** The run that ends before a non-measurable day `k` (or the end) ends at `k - 1` and nowhere inside. */
  lemma ClosedRunEnds(s: seq<Day>, k: nat, len: nat)
    requires k <= |s| && (k == |s| || !IsMeasurable(s[k]))
    requires len == RunLen(s, k) > 0
    ensures EndsRun(s, k - 1)
    ensures forall j :: k - len <= j < k - 1 ==> !EndsRun(s, j)
  {
    forall j | k - len <= j < k - 1
      ensures !EndsRun(s, j)
    {
      RunInterior(s, k, j + 1);
    }
    RunInterior(s, k, k - 1);
  }

  /** Closing the run adds one run of its length to the count of runs of length `x`. */
  lemma ClosedRunCount(s: seq<Day>, k: nat, len: nat, x: nat)
    requires k <= |s| && (k == |s| || !IsMeasurable(s[k]))
    requires len == RunLen(s, k) > 0
    ensures RunsOfLength(s, x, k) == RunsOfLength(s, x, k - len) + (if x == len then 1 else 0)
  {
    ClosedRunEnds(s, k, len);
    RunsOfLengthSkip(s, x, k - len, k - 1);
  }

  /** When the runs before the closed one are at most `shorter` long, every run is at most `bound` long. */
  lemma ClosedRunBound(s: seq<Day>, k: nat, len: nat, shorter: nat, bound: nat)
    requires k <= |s| && (k == |s| || !IsMeasurable(s[k]))
    requires 0 < len == RunLen(s, k) <= bound && shorter <= bound
    requires forall e :: 0 <= e < k - len && EndsRun(s, e) ==> RunLen(s, e + 1) <= shorter
    ensures forall e :: 0 <= e < k && EndsRun(s, e) ==> RunLen(s, e + 1) <= bound
  {
    ClosedRunEnds(s, k, len);
    forall e | 0 <= e < k && EndsRun(s, e)
      ensures RunLen(s, e + 1) <= bound
    {
      if k - len <= e < k - 1 {
        assert false;
      }
    }
  }

  /** A strictly longer run becomes the reported streak with a tie count of 1. */
  lemma FinalizeLonger(s: seq<Day>, k: nat, len: nat, best: Best)
    requires k <= |s| && (k == |s| || !IsMeasurable(s[k]))
    requires len == RunLen(s, k) > best.length
    requires LongestAmong(s, k - len, best)
    ensures LongestAmong(s, k, Best(len, Some(Span(k - len, k - 1)), RunTotal(s, k), 1))
  {
    ClosedRunBound(s, k, len, best.length, len);
    ClosedRunCount(s, k, len, len);
    RunsOfLengthNone(s, len, k - len);
    LongerReported(s, k, len, best.length);
  }

  /** A strictly longer run is the reported one: it is the only run of its length. */
  lemma LongerReported(s: seq<Day>, k: nat, len: nat, shorter: nat)
    requires k <= |s| && (k == |s| || !IsMeasurable(s[k]))
    requires len == RunLen(s, k) > shorter
    requires forall e :: 0 <= e < k - len && EndsRun(s, e) ==> RunLen(s, e + 1) <= shorter
    ensures ReportedRun(s, k, Best(len, Some(Span(k - len, k - 1)), RunTotal(s, k), 1))
  {
    ClosedRunEnds(s, k, len);
    forall e' | 0 <= e' < k - 1 && EndsRun(s, e')
      ensures RunLen(s, e' + 1) != len
    {
      if k - len <= e' {
        assert false;
      }
    }
  }

  /** An equally long run with strictly more snow takes over, adding a tie. */
  lemma FinalizeTieMoreSnow(s: seq<Day>, k: nat, len: nat, best: Best)
    requires k <= |s| && (k == |s| || !IsMeasurable(s[k]))
    requires 0 < len == RunLen(s, k) == best.length && RunTotal(s, k) > best.total
    requires LongestAmong(s, k - len, best)
    ensures LongestAmong(s, k, Best(len, Some(Span(k - len, k - 1)), RunTotal(s, k), best.count + 1))
  {
    ClosedRunBound(s, k, len, len, len);
    ClosedRunCount(s, k, len, len);
    TieMoreSnowReported(s, k, len, best);
  }

  /** The snowier tying run is the reported one: no run of its length has more snow, and no earlier one as much. */
  lemma TieMoreSnowReported(s: seq<Day>, k: nat, len: nat, best: Best)
    requires k <= |s| && (k == |s| || !IsMeasurable(s[k]))
    requires 0 < len == RunLen(s, k) == best.length && RunTotal(s, k) > best.total
    requires len <= k && best.span.Some? && ReportedRun(s, k - len, best)
    ensures ReportedRun(s, k, Best(len, Some(Span(k - len, k - 1)), RunTotal(s, k), best.count + 1))
  {
    ClosedRunEnds(s, k, len);
    var b' := Best(len, Some(Span(k - len, k - 1)), RunTotal(s, k), best.count + 1);
    forall e' | 0 <= e' < k && EndsRun(s, e') && RunLen(s, e' + 1) == len
      ensures RunTotal(s, e' + 1) <= b'.total
      ensures e' < k - 1 ==> RunTotal(s, e' + 1) < b'.total
    {
      if e' < k - len {
        assert RunTotal(s, e' + 1) <= best.total;
      } else if e' < k - 1 {
        assert false;
      }
    }
    assert EndsRun(s, k - 1) && RunLen(s, k) == len && b'.total == RunTotal(s, k);
  }

  /** An equally long run without more snow only adds a tie: the earlier run stays. */
  lemma FinalizeTieNoMoreSnow(s: seq<Day>, k: nat, len: nat, best: Best)
    requires k <= |s| && (k == |s| || !IsMeasurable(s[k]))
    requires 0 < len == RunLen(s, k) == best.length && RunTotal(s, k) <= best.total
    requires LongestAmong(s, k - len, best)
    ensures LongestAmong(s, k, best.(count := best.count + 1))
  {
    ClosedRunBound(s, k, len, len, len);
    ClosedRunCount(s, k, len, len);
    StaysReported(s, k, len, best, best.(count := best.count + 1));
  }

  /** A closed run that does not take over leaves the reported run as it was. */
  lemma StaysReported(s: seq<Day>, k: nat, len: nat, best: Best, best': Best)
    requires k <= |s| && (k == |s| || !IsMeasurable(s[k]))
    requires 0 < len == RunLen(s, k) <= best.length
    requires len == best.length ==> RunTotal(s, k) <= best.total
    requires len <= k && best.span.Some? && ReportedRun(s, k - len, best)
    requires best' == best.(count := best'.count)
    ensures ReportedRun(s, k, best')
  {
    ClosedRunEnds(s, k, len);
    forall e' | 0 <= e' < k && EndsRun(s, e') && RunLen(s, e' + 1) == best.length
      ensures RunTotal(s, e' + 1) <= best.total
    {
      if k - len <= e' < k - 1 {
        assert false;
      }
    }
  }

  /** A shorter run is discarded. */
  lemma FinalizeShorter(s: seq<Day>, k: nat, len: nat, best: Best)
    requires k <= |s| && (k == |s| || !IsMeasurable(s[k]))
    requires 0 < len == RunLen(s, k) < best.length
    requires LongestAmong(s, k - len, best)
    ensures LongestAmong(s, k, best)
  {
    ClosedRunBound(s, k, len, best.length, best.length);
    ClosedRunCount(s, k, len, best.length);
    StaysReported(s, k, len, best, best);
  }

  /**
   * `finalizeStreak`: compare the run that ended before position `k` with the
   * best so far — a strictly longer run replaces it and resets the tie count to
   * 1; an equally long run adds a tie and replaces it only with strictly more
   * snow — then reset the running run.
   */
  method FinalizeStreak(ghost s: seq<Day>, ghost k: nat, run: Run, best: Best) returns (best': Best, run': Run)
    requires k <= |s| && (k == |s| || !IsMeasurable(s[k]))
    requires OpenRun(s, k, run) && LongestAmong(s, k - run.length, best)
    ensures LongestAmong(s, k, best')
    ensures run' == Idle
  {
    run' := Idle;
    if run.length <= 0 {
      return best, run';
    }
    var len, start := run.length, run.start.value;
    if len > best.length {
      FinalizeLonger(s, k, len, best);
      best' := Best(len, Some(Span(start, run.end.value)), run.total, 1);
    } else if len == best.length {
      if run.total > best.total {
        FinalizeTieMoreSnow(s, k, len, best);
        best' := Best(len, Some(Span(start, run.end.value)), run.total, best.count + 1);
      } else {
        FinalizeTieNoMoreSnow(s, k, len, best);
        best' := best.(count := best.count + 1);
      }
    } else {
      FinalizeShorter(s, k, len, best);
      best' := best;
    }
  }

  /** After `k` days: `run` is the open run, and `best` is the longest among the runs closed before it. */
  ghost predicate Scanned(s: seq<Day>, k: nat, run: Run, best: Best)
    requires k <= |s|
  {
    OpenRun(s, k, run) && LongestAmong(s, k - run.length, best)
  }

  /**
   * One day of the season scan: a measurable day extends the open run; any
   * other day closes it through `FinalizeStreak`.
   */
  method StreakStep(ghost s: seq<Day>, i: nat, d: Day, run: Run, best: Best) returns (run': Run, best': Best)
    requires i < |s| && d == s[i]
    requires Scanned(s, i, run, best)
    ensures Scanned(s, i + 1, run', best')
  {
    if d.snow.Measured? && d.snow.inches >= MeasurableThreshold {
      var start := if run.length == 0 then Some(i) else run.start;
      run', best' := Run(run.length + 1, start, Some(i), run.total + d.snow.inches), best;
      ScannedExtend(s, i, run, best);
    } else if run.length > 0 {
      best', run' := FinalizeStreak(s, i, run, best);
      ScannedClosed(s, i, best');
    } else {
      run', best' := run, best;
      ScannedIdle(s, i, run, best);
    }
  }

  /** A measurable day extends the open run and leaves the closed runs alone. */
  lemma ScannedExtend(s: seq<Day>, i: nat, run: Run, best: Best)
    requires i < |s| && IsMeasurable(s[i]) && Scanned(s, i, run, best)
    ensures Scanned(s, i + 1, Run(run.length + 1, if run.length == 0 then Some(i) else run.start, Some(i), run.total + s[i].snow.inches), best)
  {
    ExtendRun(s, i, run);
  }

  /** Once the run before a non-measurable day is closed, nothing is open after it. */
  lemma ScannedClosed(s: seq<Day>, i: nat, best: Best)
    requires i < |s| && !IsMeasurable(s[i]) && LongestAmong(s, i, best)
    ensures Scanned(s, i + 1, Idle, best)
  {
    NoOpenRun(s, i);
    LongestAmongExtend(s, i, best);
  }

  /** A non-measurable day with no open run changes nothing. */
  lemma ScannedIdle(s: seq<Day>, i: nat, run: Run, best: Best)
    requires i < |s| && !IsMeasurable(s[i]) && run.length == 0 && Scanned(s, i, run, best)
    ensures Scanned(s, i + 1, run, best)
  {
    NoOpenRun(s, i);
    LongestAmongExtend(s, i, best);
  }

  // ---------------------------------------------------------------------
  // What the reported streak means

  /** Measurable days `a .. b-1` in a row make a run of at least `b - a` before `b`. */
  lemma {:induction false} RunLenAtLeast(s: seq<Day>, a: nat, b: nat)
    requires a <= b <= |s|
    requires forall j :: a <= j < b ==> IsMeasurable(s[j])
    ensures RunLen(s, b) >= b - a
  {
    if b > a {
      RunLenAtLeast(s, a, b - 1);
    }
  }

  lemma {:induction false} RunLenBelowLongest(s: seq<Day>, k: nat, b: Best)
    requires k <= |s| && LongestAmong(s, |s|, b)
    ensures RunLen(s, k) <= b.length
    decreases |s| - k
  {
    if RunLen(s, k) > 0 {
      if k < |s| && IsMeasurable(s[k]) {
        RunLenBelowLongest(s, k + 1, b);
      } else {
        assert EndsRun(s, k - 1);
      }
    }
  }

  /**
   * The reported streak is the longest block of consecutive measurable days,
   * it is 0 exactly when no day is measurable, and then the tie count is 0
   * too; otherwise at least one run (the reported one) has that length.
   */
  lemma LongestStreakIsMaximum(s: seq<Day>, b: Best, a: nat, c: nat)
    requires LongestAmong(s, |s|, b)
    requires a <= c <= |s| && forall j :: a <= j < c ==> IsMeasurable(s[j])
    ensures c - a <= b.length
    ensures b.length == 0 <==> forall j :: 0 <= j < |s| ==> !IsMeasurable(s[j])
    ensures b.length == 0 <==> b.count == 0
  {
    RunLenAtLeast(s, a, c);
    RunLenBelowLongest(s, c, b);
    if b.length == 0 {
      forall j | 0 <= j < |s|
        ensures !IsMeasurable(s[j])
      {
        if IsMeasurable(s[j]) {
          RunLenAtLeast(s, j, j + 1);
          RunLenBelowLongest(s, j + 1, b);
        }
      }
      RunsOfLengthNone(s, 0, |s|);
    } else {
      RunsOfLengthCounts(s, b.span.value.last, |s|);
    }
  }

  // ---------------------------------------------------------------------
  // Lull specification and scanner

  /** Number of consecutive dry days (numeric, below 0.1") ending just before position `k`. */
  function DryLen(w: seq<Day>, k: nat): (n: nat)
    requires k <= |w|
    ensures n <= k
  {
    if k == 0 || !IsDry(w[k - 1]) then 0 else DryLen(w, k - 1) + 1
  }

  /** `longestLull` / `longest`: the length and position of the reported lull. */
  datatype Lull = Lull(length: nat, span: Option<Span>)

  const NoLull := Lull(0, None)

  /**
   * `b` is the longest run of dry days among the first `n` days, and the
   * earliest of the runs with that length.
   */
  predicate LongestLullAmong(w: seq<Day>, n: nat, b: Lull)
    requires n <= |w|
  {
    && (forall k :: 0 <= k <= n ==> DryLen(w, k) <= b.length)
    && (b.length == 0 <==> b.span.None?)
    && (b.span.Some? ==>
          var e := b.span.value.last;
          && e < n && DryLen(w, e + 1) == b.length
          && b.span.value.first + b.length == e + 1
          && forall k :: 0 <= k <= e ==> DryLen(w, k) < b.length)
  }

  /** Within a dry run the dry count climbs by one per day from its first day. */
  lemma {:induction false} DryInterior(w: seq<Day>, k: nat, j: nat)
    requires k <= |w| && k - DryLen(w, k) <= j <= k
    ensures DryLen(w, j) == j - (k - DryLen(w, k))
    ensures j < k ==> IsDry(w[j])
  {
    if j < k {
      DryInterior(w, k - 1, j);
    }
  }

  /** `finalize` of the lull scan: a strictly longer run replaces the best; then reset. */
  method FinalizeLull(ghost w: seq<Day>, ghost k: nat, run: Run, best: Lull) returns (best': Lull, run': Run)
    requires k <= |w| && run.length == DryLen(w, k)
    requires run.length == 0 <==> run.start.None?
    requires run.start.Some? ==> run.start.value + run.length == k && run.end == Some(k - 1)
    requires LongestLullAmong(w, k - run.length, best)
    ensures LongestLullAmong(w, k, best')
    ensures run' == Idle
  {
    run' := Idle;
    forall j | k - run.length <= j <= k
      ensures DryLen(w, j) <= run.length
    {
      DryInterior(w, k, j);
    }
    if run.length > best.length {
      forall j | k - run.length <= j < k
        ensures DryLen(w, j) < run.length
      {
        DryInterior(w, k, j);
      }
      best' := Lull(run.length, Some(Span(run.start.value, run.end.value)));
    } else {
      best' := best;
    }
  }

  /**
   * The lull loop over a window of days: a dry day extends the running lull,
   * a measurable or a missing day finalises it, and the loop ends with one
   * more `finalize()`.
   */
  method ScanLull(w: seq<Day>) returns (best: Lull)
    ensures LongestLullAmong(w, |w|, best)
  {
    var run := Idle;
    best := NoLull;
    for i := 0 to |w|
      invariant run.length == DryLen(w, i)
      invariant run.length == 0 <==> run.start.None?
      invariant run.start.Some? ==> run.start.value + run.length == i && run.end == Some(i - 1)
      invariant LongestLullAmong(w, i - run.length, best)
    {
      var d := w[i];
      if !IsNumeric(d) {
        best, run := FinalizeLull(w, i, run, best);
      } else if d.snow.inches < MeasurableThreshold {
        var start := if run.start.None? then Some(i) else run.start;
        run := Run(run.length + 1, start, Some(i), 0.0);
      } else {
        best, run := FinalizeLull(w, i, run, best);
      }
    }
    best, run := FinalizeLull(w, |w|, run, best);
  }

  /** Dry days `a .. c-1` in a row make a lull at least `c - a` long. */
  lemma {:induction false} DryLenAtLeast(w: seq<Day>, a: nat, c: nat)
    requires a <= c <= |w|
    requires forall j :: a <= j < c ==> IsDry(w[j])
    ensures DryLen(w, c) >= c - a
  {
    if c > a {
      DryLenAtLeast(w, a, c - 1);
    }
  }

  /** The reported lull is the longest block of consecutive dry days, and is 0 when no day is dry. */
  lemma LullIsMaximum(w: seq<Day>, b: Lull, a: nat, c: nat)
    requires LongestLullAmong(w, |w|, b)
    requires a <= c <= |w| && forall j :: a <= j < c ==> IsDry(w[j])
    ensures c - a <= b.length
    ensures b.length == 0 <==> forall j :: 0 <= j < |w| ==> !IsDry(w[j])
  {
    DryLenAtLeast(w, a, c);
    if b.length == 0 {
      forall j | 0 <= j < |w|
        ensures !IsDry(w[j])
      {
        if IsDry(w[j]) {
          DryLenAtLeast(w, j, j + 1);
        }
      }
    } else {
      var e := b.span.value.last;
      DryInterior(w, e + 1, e);
    }
  }

  /** A window that starts and ends on a non-dry day keeps its lull strictly inside. */
  lemma LullInsideWindow(w: seq<Day>, b: Lull)
    requires LongestLullAmong(w, |w|, b) && |w| > 0
    requires !IsDry(w[0]) && !IsDry(w[|w| - 1])
    ensures b.span.Some? ==> 0 < b.span.value.first && b.span.value.last < |w| - 1
  {
    if b.span.Some? {
      var e := b.span.value.last;
      DryInterior(w, e + 1, e);
      DryInterior(w, e + 1, b.span.value.first);
    }
  }
}
