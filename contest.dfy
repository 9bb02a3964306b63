/**
 * The two contest resolvers of the dashboard: "closest without going over"
 * (`pickPriceIsRightResult`) and "closest to the average"
 * (`findClosestToAverage`).  Both skip entries whose guess is not a finite
 * number and treat two distances within epsilon of each other as a tie.
 */
module Contest {
  import opened Options

  /** The tie tolerance of both resolvers, `1e-6` inches. */
  const Epsilon: real := 0.000001

  /** A guess read from the sheet: a finite number, or anything else (empty, NaN, text). */
  datatype Guess = Finite(value: real) | NonFinite

  datatype Entry = Entry(name: Option<string>, dept: Option<string>, guess: Guess)

  function Abs(x: real): real {
    if x < 0.0 then -x else x
  }

  function Max0(x: real): real {
    if x > 0.0 then x else 0.0
  }

  // ---------------------------------------------------------------------
  // pickPriceIsRightResult

  /** An entry with its margin (`{ entry, margin }`). */
  datatype Scored = Scored(entry: Entry, margin: real)

  datatype Winner = Winner(entry: Entry, margin: real, wentOver: bool)

  datatype Resolution = Resolution(winners: seq<Winner>, margin: Option<real>, allOver: bool)

  const NoResult := Resolution([], None, false)

  /** Not over the target, allowing epsilon: `target - guess >= -epsilon`. */
  predicate IsEligible(e: Entry, target: real) {
    e.guess.Finite? && target - e.guess.value >= -Epsilon
  }

  predicate IsOver(e: Entry, target: real) {
    e.guess.Finite? && target - e.guess.value < -Epsilon
  }

  /** The margin of an eligible entry: how far under the target, never negative. */
  function UnderMargin(e: Entry, target: real): real
    requires e.guess.Finite?
  {
    Max0(target - e.guess.value)
  }

  /** The margin of an over entry: by how much it went over. */
  function OverMargin(e: Entry, target: real): real
    requires e.guess.Finite?
  {
    Abs(target - e.guess.value)
  }

  /** `eligible`: the eligible entries in input order with their margins. */
  function EligibleOf(es: seq<Entry>, target: real): (r: seq<Scored>)
    ensures |r| <= |es|
  {
    if |es| == 0 then []
    else
      var n := |es| - 1;
      var init := EligibleOf(es[..n], target);
      if IsEligible(es[n], target) then init + [Scored(es[n], UnderMargin(es[n], target))] else init
  }

  /**
   * The eligible entries are exactly the eligible guesses, each with its
   * margin; there are none iff no guess is eligible.
   */
  lemma {:induction false} EligibleOfMembers(es: seq<Entry>, t: real)
    ensures var r := EligibleOf(es, t);
      && (forall k :: 0 <= k < |r| ==> IsEligible(r[k].entry, t) && r[k].margin == UnderMargin(r[k].entry, t) && r[k].entry in es)
      && (|r| == 0 <==> forall i :: 0 <= i < |es| ==> !IsEligible(es[i], t))
      && (forall i :: 0 <= i < |es| && IsEligible(es[i], t) ==> Scored(es[i], UnderMargin(es[i], t)) in r)
  {
    if |es| > 0 {
      var n := |es| - 1;
      EligibleOfMembers(es[..n], t);
      assert forall i :: 0 <= i < n ==> es[..n][i] == es[i];
      var init := EligibleOf(es[..n], t);
      assert forall k :: 0 <= k < |init| ==> EligibleOf(es, t)[k] == init[k];
    }
  }

  /** `over`: the entries over the target in input order with their overshoot. */
  function OverOf(es: seq<Entry>, target: real): (r: seq<Scored>)
    ensures |r| <= |es|
  {
    if |es| == 0 then []
    else
      var n := |es| - 1;
      var init := OverOf(es[..n], target);
      if IsOver(es[n], target) then init + [Scored(es[n], OverMargin(es[n], target))] else init
  }

  /**
   * The over entries are exactly the over guesses, each with its
   * margin; there are none iff no guess is over.
   */
  lemma {:induction false} OverOfMembers(es: seq<Entry>, t: real)
    ensures var r := OverOf(es, t);
      && (forall k :: 0 <= k < |r| ==> IsOver(r[k].entry, t) && r[k].margin == OverMargin(r[k].entry, t) && r[k].entry in es)
      && (|r| == 0 <==> forall i :: 0 <= i < |es| ==> !IsOver(es[i], t))
      && (forall i :: 0 <= i < |es| && IsOver(es[i], t) ==> Scored(es[i], OverMargin(es[i], t)) in r)
  {
    if |es| > 0 {
      var n := |es| - 1;
      OverOfMembers(es[..n], t);
      assert forall i :: 0 <= i < n ==> es[..n][i] == es[i];
      var init := OverOf(es[..n], t);
      assert forall k :: 0 <= k < |init| ==> OverOf(es, t)[k] == init[k];
    }
  }

  /** `Math.min(...items.map(item => item.margin))`. */
  function MinMargin(items: seq<Scored>): (m: real)
    requires |items| > 0
    ensures exists k :: 0 <= k < |items| && items[k].margin == m
    ensures forall k :: 0 <= k < |items| ==> m <= items[k].margin
  {
    if |items| == 1 then items[0].margin
    else
      var rest := MinMargin(items[1..]);
      assert forall k :: 1 <= k < |items| ==> items[k] == items[1..][k - 1];
      if items[0].margin <= rest then items[0].margin else rest
  }

  /** The items whose margin is within epsilon of `m`, in order, as winners. */
  function Within(items: seq<Scored>, m: real, wentOver: bool): (r: seq<Winner>)
    ensures |r| <= |items|
  {
    if |items| == 0 then []
    else
      var rest := Within(items[1..], m, wentOver);
      if Abs(items[0].margin - m) < Epsilon then [Winner(items[0].entry, items[0].margin, wentOver)] + rest
      else rest
  }

  /** Every winner is an item within epsilon of `m`, marked with the side. */
  lemma {:induction false} WithinSound(items: seq<Scored>, m: real, wentOver: bool)
    ensures forall w :: w in Within(items, m, wentOver) ==>
      w.wentOver == wentOver && Abs(w.margin - m) < Epsilon && Scored(w.entry, w.margin) in items
  {
    if |items| > 0 {
      WithinSound(items[1..], m, wentOver);
      forall w | w in Within(items[1..], m, wentOver)
        ensures Scored(w.entry, w.margin) in items
      {
        var k :| 0 <= k < |items[1..]| && items[1..][k] == Scored(w.entry, w.margin);
        assert items[k + 1] == Scored(w.entry, w.margin);
      }
    }
  }

  /** Every item within epsilon of `m` is a winner. */
  lemma {:induction false} WithinComplete(items: seq<Scored>, m: real, wentOver: bool)
    ensures forall k :: 0 <= k < |items| && Abs(items[k].margin - m) < Epsilon ==>
      Winner(items[k].entry, items[k].margin, wentOver) in Within(items, m, wentOver)
  {
    if |items| > 0 {
      WithinComplete(items[1..], m, wentOver);
      forall k | 1 <= k < |items| && Abs(items[k].margin - m) < Epsilon
        ensures Winner(items[k].entry, items[k].margin, wentOver) in Within(items, m, wentOver)
      {
        assert items[k] == items[1..][k - 1];
      }
    }
  }

  /** The eligible entries of `a + b` are those of `a` followed by those of `b`: the filter keeps input order. */
  lemma {:induction false} EligibleOfAppend(a: seq<Entry>, b: seq<Entry>, t: real)
    ensures EligibleOf(a + b, t) == EligibleOf(a, t) + EligibleOf(b, t)
    decreases |b|
  {
    if |b| > 0 {
      var n := |b| - 1;
      assert (a + b)[..|a| + n] == a + b[..n];
      EligibleOfAppend(a, b[..n], t);
    } else {
      assert a + b == a;
    }
  }

  /** The over entries of `a + b` are those of `a` followed by those of `b`: the filter keeps input order. */
  lemma {:induction false} OverOfAppend(a: seq<Entry>, b: seq<Entry>, t: real)
    ensures OverOf(a + b, t) == OverOf(a, t) + OverOf(b, t)
    decreases |b|
  {
    if |b| > 0 {
      var n := |b| - 1;
      assert (a + b)[..|a| + n] == a + b[..n];
      OverOfAppend(a, b[..n], t);
    } else {
      assert a + b == a;
    }
  }

  /** The winners drawn from `a + b` are those from `a` followed by those from `b`: the filter keeps input order. */
  lemma {:induction false} WithinAppend(a: seq<Scored>, b: seq<Scored>, m: real, wentOver: bool)
    ensures Within(a + b, m, wentOver) == Within(a, m, wentOver) + Within(b, m, wentOver)
  {
    if |a| > 0 {
      assert (a + b)[1..] == a[1..] + b;
      WithinAppend(a[1..], b, m, wentOver);
    } else {
      assert a + b == b;
    }
  }

  /** The margin on the deciding side. */
  function MarginOf(e: Entry, t: real, wentOver: bool): real
    requires e.guess.Finite?
  {
    if wentOver then OverMargin(e, t) else UnderMargin(e, t)
  }

  /** The entry is over the target (`wentOver`) or eligible (otherwise). */
  predicate OnSide(e: Entry, t: real, wentOver: bool) {
    if wentOver then IsOver(e, t) else IsEligible(e, t)
  }

  /** An entry wins at margin `m`: it is on the deciding side and its margin is within epsilon of `m`. */
  predicate Wins(e: Entry, t: real, m: real, wentOver: bool) {
    OnSide(e, t, wentOver) && Abs(MarginOf(e, t, wentOver) - m) < Epsilon
  }

  /**
   * The winners at margin `m` read straight off the guesses: every entry
   * that wins, in input order, with its own margin.
   */
  function WinnersAt(es: seq<Entry>, t: real, m: real, wentOver: bool): (r: seq<Winner>)
    ensures |r| <= |es|
  {
    if |es| == 0 then []
    else
      var n := |es| - 1;
      var e := es[n];
      WinnersAt(es[..n], t, m, wentOver) + if Wins(e, t, m, wentOver) then [Winner(e, MarginOf(e, t, wentOver), wentOver)] else []
  }

  /** Filtering the eligible entries, then the ones within epsilon, picks exactly `WinnersAt`. */
  lemma {:induction false} WithinEligibleIsWinnersAt(es: seq<Entry>, t: real, m: real)
    ensures Within(EligibleOf(es, t), m, false) == WinnersAt(es, t, m, false)
  {
    if |es| > 0 {
      var n := |es| - 1;
      var e := es[n];
      WithinEligibleIsWinnersAt(es[..n], t, m);
      var last := if IsEligible(e, t) then [Scored(e, UnderMargin(e, t))] else [];
      assert EligibleOf(es, t) == EligibleOf(es[..n], t) + last;
      WithinAppend(EligibleOf(es[..n], t), last, m, false);
      var tail := if Wins(e, t, m, false) then [Winner(e, MarginOf(e, t, false), false)] else [];
      assert Within(last, m, false) == tail by {
        if IsEligible(e, t) {
          assert last[1..] == [];
        }
      }
      assert WinnersAt(es, t, m, false) == WinnersAt(es[..n], t, m, false) + tail;
    }
  }

  /** Filtering the over entries, then the ones within epsilon, picks exactly `WinnersAt`. */
  lemma {:induction false} WithinOverIsWinnersAt(es: seq<Entry>, t: real, m: real)
    ensures Within(OverOf(es, t), m, true) == WinnersAt(es, t, m, true)
  {
    if |es| > 0 {
      var n := |es| - 1;
      var e := es[n];
      WithinOverIsWinnersAt(es[..n], t, m);
      var last := if IsOver(e, t) then [Scored(e, OverMargin(e, t))] else [];
      assert OverOf(es, t) == OverOf(es[..n], t) + last;
      WithinAppend(OverOf(es[..n], t), last, m, true);
      var tail := if Wins(e, t, m, true) then [Winner(e, MarginOf(e, t, true), true)] else [];
      assert Within(last, m, true) == tail by {
        if IsOver(e, t) {
          assert last[1..] == [];
        }
      }
      assert WinnersAt(es, t, m, true) == WinnersAt(es[..n], t, m, true) + tail;
    }
  }

  /** Every entry that wins at `m` is among `WinnersAt` with its margin, and nothing else is. */
  lemma {:induction false} WinnersAtMembers(es: seq<Entry>, t: real, m: real, wentOver: bool)
    ensures forall i :: 0 <= i < |es| && Wins(es[i], t, m, wentOver) ==>
      Winner(es[i], MarginOf(es[i], t, wentOver), wentOver) in WinnersAt(es, t, m, wentOver)
    ensures forall w :: w in WinnersAt(es, t, m, wentOver) ==>
      w.entry in es && Wins(w.entry, t, m, wentOver) && w == Winner(w.entry, MarginOf(w.entry, t, wentOver), wentOver)
  {
    if |es| > 0 {
      var n := |es| - 1;
      WinnersAtMembers(es[..n], t, m, wentOver);
      assert forall i :: 0 <= i < n ==> es[..n][i] == es[i];
    }
  }

  /** The resolution `pickPriceIsRightResult` computes, stated over the filters it uses. */
  function PriceIsRight(guesses: Option<seq<Entry>>, target: Option<real>): Resolution {
    if guesses.None? || target.None? then NoResult
    else
      var es, t := guesses.value, target.value;
      var eligible, over := EligibleOf(es, t), OverOf(es, t);
      if |eligible| > 0 then
        var m := MinMargin(eligible);
        Resolution(Within(eligible, m, false), Some(m), false)
      else if |over| > 0 then
        var m := MinMargin(over);
        Resolution(Within(over, m, true), Some(m), true)
      else NoResult
  }

  /**
   * `pickPriceIsRightResult(guesses, target)`; `None` stands for a
   * `guesses` that is not an array and for a target that is not finite.
   */
  method PickPriceIsRightResult(guesses: Option<seq<Entry>>, target: Option<real>) returns (r: Resolution)
    ensures r == PriceIsRight(guesses, target)
  {
    if guesses.None? || target.None? {
      return NoResult;
    }
    var es, t := guesses.value, target.value;
    var eligible, over := [], [];
    for i := 0 to |es|
      invariant eligible == EligibleOf(es[..i], t)
      invariant over == OverOf(es[..i], t)
    {
      assert es[..i + 1][..i] == es[..i];
      var e := es[i];
      if e.guess.Finite? {
        var delta := t - e.guess.value;
        if delta >= -Epsilon {
          eligible := eligible + [Scored(e, Max0(delta))];
        } else {
          over := over + [Scored(e, Abs(delta))];
        }
      }
    }
    assert es[..|es|] == es;
    if |eligible| > 0 {
      var m := MinMargin(eligible);
      return Resolution(Within(eligible, m, false), Some(m), false);
    }
    if |over| > 0 {
      var m := MinMargin(over);
      return Resolution(Within(over, m, true), Some(m), true);
    }
    return NoResult;
  }

  /** The smallest-margin item is always within epsilon of the minimum, so a non-empty list has a winner. */
  lemma WithinNonEmpty(items: seq<Scored>, wentOver: bool)
    requires |items| > 0
    ensures |Within(items, MinMargin(items), wentOver)| > 0
  {
    var m := MinMargin(items);
    WithinComplete(items, m, wentOver);
    var k :| 0 <= k < |items| && items[k].margin == m;
    assert Abs(items[k].margin - m) < Epsilon;
    assert Winner(items[k].entry, items[k].margin, wentOver) in Within(items, m, wentOver);
  }

  /**
   * `r` is decided on one side (`wentOver`): its margin is the least margin
   * of that side and some guess there has it; the winners are the guesses
   * of that side within epsilon of it, all of them, nothing else, in input
   * order; `allOver` says which side it was.
   */
  ghost predicate DecidedOn(es: seq<Entry>, t: real, r: Resolution, wentOver: bool) {
    && r.margin.Some? && r.allOver == wentOver && r.winners != []
    && (exists i :: 0 <= i < |es| && OnSide(es[i], t, wentOver) && MarginOf(es[i], t, wentOver) == r.margin.value)
    && (forall i :: 0 <= i < |es| && OnSide(es[i], t, wentOver) ==> r.margin.value <= MarginOf(es[i], t, wentOver))
    && r.winners == WinnersAt(es, t, r.margin.value, wentOver)
    && (forall i :: 0 <= i < |es| && Wins(es[i], t, r.margin.value, wentOver) ==>
          Winner(es[i], MarginOf(es[i], t, wentOver), wentOver) in r.winners)
    && (forall w :: w in r.winners ==>
          w.entry in es && Wins(w.entry, t, r.margin.value, wentOver) && w == Winner(w.entry, MarginOf(w.entry, t, wentOver), wentOver))
  }

  /**
   * Who wins "closest without going over": while some guess is not over,
   * the eligible guesses decide; otherwise the over guesses decide and
   * `allOver` is set.  There are no winners, and no margin, exactly when no
   * guess is finite.
   */
  lemma PriceIsRightWinners(es: seq<Entry>, t: real)
    ensures var r := PriceIsRight(Some(es), Some(t));
      && (r.winners == [] <==> forall i :: 0 <= i < |es| ==> es[i].guess.NonFinite?)
      && (r.winners == [] ==> r == NoResult)
      && ((exists i :: 0 <= i < |es| && IsEligible(es[i], t)) ==> DecidedOn(es, t, r, false))
      && ((exists i :: 0 <= i < |es| && es[i].guess.Finite?) && (forall i :: 0 <= i < |es| ==> !IsEligible(es[i], t)) ==>
            DecidedOn(es, t, r, true))
  {
    var eligible, over := EligibleOf(es, t), OverOf(es, t);
    EligibleOfMembers(es, t);
    if |eligible| > 0 {
      EligibleWinners(es, t);
    } else if |over| > 0 {
      OverWinners(es, t);
    } else {
      OverOfMembers(es, t);
      assert forall i :: 0 <= i < |es| ==> !IsEligible(es[i], t) && !IsOver(es[i], t);
    }
  }

  /** Some guess is not over: the under-margins decide. */
  lemma EligibleWinners(es: seq<Entry>, t: real)
    requires |EligibleOf(es, t)| > 0
    ensures DecidedOn(es, t, PriceIsRight(Some(es), Some(t)), false)
  {
    var eligible := EligibleOf(es, t);
    var m := MinMargin(eligible);
    EligibleOfMembers(es, t);
    WithinNonEmpty(eligible, false);
    WithinEligibleIsWinnersAt(es, t, m);
    WinnersAtMembers(es, t, m, false);
    var k :| 0 <= k < |eligible| && eligible[k].margin == m;
    var i :| 0 <= i < |es| && es[i] == eligible[k].entry;
    assert OnSide(es[i], t, false) && MarginOf(es[i], t, false) == m;
    forall i | 0 <= i < |es| && IsEligible(es[i], t)
      ensures m <= UnderMargin(es[i], t)
    {
      var k :| 0 <= k < |eligible| && eligible[k] == Scored(es[i], UnderMargin(es[i], t));
    }
  }

  /** Every finite guess is over: the overshoots decide and `allOver` is set. */
  lemma OverWinners(es: seq<Entry>, t: real)
    requires |EligibleOf(es, t)| == 0 && |OverOf(es, t)| > 0
    ensures DecidedOn(es, t, PriceIsRight(Some(es), Some(t)), true)
  {
    var over := OverOf(es, t);
    var m := MinMargin(over);
    OverOfMembers(es, t);
    WithinNonEmpty(over, true);
    WithinOverIsWinnersAt(es, t, m);
    WinnersAtMembers(es, t, m, true);
    var k :| 0 <= k < |over| && over[k].margin == m;
    var i :| 0 <= i < |es| && es[i] == over[k].entry;
    assert OnSide(es[i], t, true) && MarginOf(es[i], t, true) == m;
    forall i | 0 <= i < |es| && IsOver(es[i], t)
      ensures m <= OverMargin(es[i], t)
    {
      var k :| 0 <= k < |over| && over[k] == Scored(es[i], OverMargin(es[i], t));
    }
  }

  /** Guesses of 12 and 15 against a total of 10: both went over, and 12 wins by 2. */
  lemma AllOverExample(a: Entry, b: Entry)
    requires a.guess == Finite(12.0) && b.guess == Finite(15.0)
    ensures PriceIsRight(Some([a, b]), Some(10.0)) == Resolution([Winner(a, 2.0, true)], Some(2.0), true)
  {
    var es := [a, b];
    assert es[..1] == [a];
    assert EligibleOf(es, 10.0) == [];
    assert OverOf([a], 10.0) == [Scored(a, 2.0)];
    assert OverOf(es, 10.0) == [Scored(a, 2.0), Scored(b, 5.0)];
    var over := [Scored(a, 2.0), Scored(b, 5.0)];
    assert MinMargin(over[1..]) == 5.0;
    assert MinMargin(over) == 2.0;
    assert Within(over[1..], 2.0, true) == [];
  }

  // ---------------------------------------------------------------------
  // findClosestToAverage

  function Dist(e: Entry, target: real): real
    requires e.guess.Finite?
  {
    Abs(e.guess.value - target)
  }

  /** One step of the `forEach` over the entries; `None` stands for `bestDelta = Infinity`. */
  function ClosestStep(best: Option<real>, closest: seq<Entry>, e: Entry, target: real): (Option<real>, seq<Entry>) {
    if e.guess.NonFinite? then (best, closest)
    else
      var d := Dist(e, target);
      if best.None? || d + Epsilon < best.value then (Some(d), [e])
      else if Abs(d - best.value) < Epsilon then (best, closest + [e])
      else (best, closest)
  }

  /** `bestDelta` and `closest` after the first `|es|` entries. */
  function ClosestScan(es: seq<Entry>, target: real): (Option<real>, seq<Entry>) {
    if |es| == 0 then (None, [])
    else
      var p := ClosestScan(es[..|es| - 1], target);
      ClosestStep(p.0, p.1, es[|es| - 1], target)
  }

  /**
   * `findClosestToAverage(entries, target)`; `None` stands for entries that
   * are not an array and for a target that is not finite.
   */
  method FindClosestToAverage(entries: Option<seq<Entry>>, target: Option<real>) returns (closest: seq<Entry>)
    ensures entries.None? || target.None? ==> closest == []
    ensures entries.Some? && target.Some? ==> closest == ClosestScan(entries.value, target.value).1
  {
    if entries.None? || |entries.value| == 0 || target.None? {
      return [];
    }
    var es, t := entries.value, target.value;
    var best: Option<real> := None;
    closest := [];
    for i := 0 to |es|
      invariant (best, closest) == ClosestScan(es[..i], t)
    {
      assert es[..i + 1][..i] == es[..i];
      var e := es[i];
      if e.guess.Finite? {
        var delta := Abs(e.guess.value - t);
        if best.None? || delta + Epsilon < best.value {
          best := Some(delta);
          closest := [e];
        } else if Abs(delta - best.value) < Epsilon {
          closest := closest + [e];
        }
      }
    }
    assert es[..|es|] == es;
  }

  /**
   * What the scan keeps: no best and no entry while no guess is finite;
   * otherwise every kept entry is within epsilon of the best distance, and
   * the best distance is at most epsilon above every distance seen.
   */
  predicate ClosestKept(es: seq<Entry>, t: real, best: Option<real>, closest: seq<Entry>) {
    && (best.None? <==> forall i :: 0 <= i < |es| ==> es[i].guess.NonFinite?)
    && (best.None? ==> closest == [])
    && (best.Some? ==> |closest| > 0)
    && (forall e :: e in closest ==> e in es && e.guess.Finite? && best.Some? && Abs(Dist(e, t) - best.value) < Epsilon)
    && (best.Some? ==> forall i :: 0 <= i < |es| && es[i].guess.Finite? ==> best.value <= Dist(es[i], t) + Epsilon)
  }

  /** One more entry keeps what the scan keeps. */
  lemma ClosestStepKeeps(es: seq<Entry>, t: real, best: Option<real>, closest: seq<Entry>, e: Entry)
    requires ClosestKept(es, t, best, closest)
    ensures var (best', closest') := ClosestStep(best, closest, e, t); ClosestKept(es + [e], t, best', closest')
  {
    var es' := es + [e];
    assert forall i :: 0 <= i < |es| ==> es'[i] == es[i];
    assert es'[|es|] == e;
  }

  /** The scan keeps it over every prefix of the entries. */
  lemma {:induction false} ClosestScanInvariant(es: seq<Entry>, t: real)
    ensures ClosestKept(es, t, ClosestScan(es, t).0, ClosestScan(es, t).1)
  {
    if |es| > 0 {
      var n := |es| - 1;
      ClosestScanInvariant(es[..n], t);
      var p := ClosestScan(es[..n], t);
      ClosestStepKeeps(es[..n], t, p.0, p.1, es[n]);
      assert es[..n] + [es[n]] == es;
    }
  }

  /**
   * `findClosestToAverage` returns nothing exactly when the target is not
   * finite or no guess is finite; every entry it returns is finite and
   * less than two epsilons farther from the target than any finite guess.
   */
  lemma ClosestToAverageResult(es: seq<Entry>, t: real)
    ensures var closest := ClosestScan(es, t).1;
      && (closest == [] <==> forall i :: 0 <= i < |es| ==> es[i].guess.NonFinite?)
      && (forall e :: e in closest ==>
            && e in es && e.guess.Finite?
            && forall i :: 0 <= i < |es| && es[i].guess.Finite? ==> Dist(e, t) < Dist(es[i], t) + 2.0 * Epsilon)
  {
    ClosestScanInvariant(es, t);
  }

  /**
   * Guesses 13, 7 + epsilon, 20 - epsilon and 0, whose mean (the page's
   * target) is 10. The second is exactly epsilon closer than the first: it
   * is not more than epsilon closer (so it does not clear the list) and not
   * within epsilon (so it is not added), and the closest guess is left out.
   */
  lemma ClosestMissesCloserGuess(a: Entry, b: Entry, c: Entry, d: Entry)
    requires a.guess == Finite(13.0) && b.guess == Finite(7.0 + Epsilon)
    requires c.guess == Finite(20.0 - Epsilon) && d.guess == Finite(0.0)
    ensures (a.guess.value + b.guess.value + c.guess.value + d.guess.value) / 4.0 == 10.0
    ensures forall e :: e in [a, c, d] ==> Dist(b, 10.0) < Dist(e, 10.0)
    ensures ClosestScan([a, b, c, d], 10.0).1 == [a]
  {
    var es := [a, b, c, d];
    assert es[..1] == [a] && [a][..0] == [];
    assert es[..2] == [a, b] && [a, b][..1] == [a];
    assert es[..3] == [a, b, c] && [a, b, c][..2] == [a, b];
    assert ClosestScan([a], 10.0) == (Some(3.0), [a]);
    assert Dist(b, 10.0) == 3.0 - Epsilon;
    assert ClosestScan([a, b], 10.0) == (Some(3.0), [a]);
    assert ClosestScan([a, b, c], 10.0) == (Some(3.0), [a]);
  }

  /** The step with the reset test `delta + epsilon <= bestDelta`, which leaves no gap between the two tests. */
  function ClosestStepInclusive(best: Option<real>, closest: seq<Entry>, e: Entry, target: real): (Option<real>, seq<Entry>) {
    if e.guess.NonFinite? then (best, closest)
    else
      var d := Dist(e, target);
      if best.None? || d + Epsilon <= best.value then (Some(d), [e])
      else if Abs(d - best.value) < Epsilon then (best, closest + [e])
      else (best, closest)
  }

  function ClosestScanInclusive(es: seq<Entry>, target: real): (Option<real>, seq<Entry>) {
    if |es| == 0 then (None, [])
    else
      var p := ClosestScanInclusive(es[..|es| - 1], target);
      ClosestStepInclusive(p.0, p.1, es[|es| - 1], target)
  }

  /**
   * With the inclusive reset, when no finite guess is closer than `m`, every
   * guess at distance `m` is kept, and the best distance is one of the
   * distances seen.
   */
  lemma {:induction false} InclusiveKeepsAtDistance(es: seq<Entry>, t: real, m: real)
    requires forall i :: 0 <= i < |es| && es[i].guess.Finite? ==> m <= Dist(es[i], t)
    ensures var (best, closest) := ClosestScanInclusive(es, t);
      && (best.None? <==> forall i :: 0 <= i < |es| ==> es[i].guess.NonFinite?)
      && (best.Some? ==> m <= best.value)
      && (forall i :: 0 <= i < |es| && es[i].guess.Finite? && Dist(es[i], t) == m ==>
            es[i] in closest && best.Some? && best.value < m + Epsilon)
  {
    if |es| > 0 {
      var n := |es| - 1;
      assert forall i :: 0 <= i < n ==> es[..n][i] == es[i];
      InclusiveKeepsAtDistance(es[..n], t, m);
    }
  }

  /** With the inclusive reset, every guess at the smallest distance is among the closest. */
  lemma ClosestInclusiveKeepsClosest(es: seq<Entry>, t: real, k: nat)
    requires k < |es| && es[k].guess.Finite?
    requires forall i :: 0 <= i < |es| && es[i].guess.Finite? ==> Dist(es[k], t) <= Dist(es[i], t)
    ensures es[k] in ClosestScanInclusive(es, t).1
  {
    InclusiveKeepsAtDistance(es, t, Dist(es[k], t));
  }

  /** Two guesses of 10 against an average of 10: both are closest. */
  lemma ClosestTieExample(a: Entry, b: Entry)
    requires a.guess == Finite(10.0) && b.guess == Finite(10.0)
    ensures ClosestScan([a, b], 10.0).1 == [a, b]
  {
    assert [a, b][..1] == [a];
    assert [a][..0] == [];
    assert ClosestScan([a], 10.0) == (Some(0.0), [a]);
  }
}
