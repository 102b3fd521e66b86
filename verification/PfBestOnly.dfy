/** The first listing, which ages only the UE it chose: when it serves a UE at all, and when
    it serves it for good. */
module PfBestOnly {
  import opened Reals
  import opened Sums
  import opened PfScheduler

  /** The state after k TTIs; who has data does not change. */
  function After(ues: seq<Ue>, k: nat, alpha: real): (r: seq<Ue>)
    requires 0.0 < alpha < 1.0 && Started(ues)
    ensures |r| == |ues| && Started(r)
    decreases k
  {
    if k == 0 then ues else After(TtiBestOnly(ues, alpha), k - 1, alpha)
  }

  /** b has data and goes before i: a higher metric, or the same and a lower index. */
  predicate Ahead(ues: seq<Ue>, b: nat, i: nat)
    requires b < |ues| && i < |ues|
  {
    && b != i && ues[b].hasData
    && (Times(ues[i].instRate, ues[b].avgRate) < Times(ues[b].instRate, ues[i].avgRate)
        || (Times(ues[i].instRate, ues[b].avgRate) == Times(ues[b].instRate, ues[i].avgRate) && b < i))
  }

  /** The metric that b tends to under service, instRate / actualRate, is below i's. */
  predicate Yields(b: Ue, i: Ue) {
    Times(b.instRate, i.avgRate) < Times(b.actualRate, i.instRate)
  }

  /** What decides, on the state before the first TTI: UE i has data and a positive
      rate, and everyone ahead of it would yield. */
  predicate CanBeChosen(ues: seq<Ue>, i: nat)
    requires i < |ues|
  {
    && ues[i].hasData && ues[i].instRate > 0.0
    && forall b :: 0 <= b < |ues| && Ahead(ues, b, i) ==> Yields(ues[b], ues[i])
  }

  lemma AheadIsHigher(ues: seq<Ue>, b: nat, i: nat)
    requires Started(ues) && b < |ues| && i < |ues| && b != i
    requires ues[i].hasData && ues[i].instRate > 0.0
    ensures var ms := Metrics(ues);
            && ms[i] > 0.0
            && (Ahead(ues, b, i) <==> ms[b] > ms[i] || (ms[b] == ms[i] && b < i))
  {
    RatioPositive(ues[i].instRate, ues[i].avgRate);
    if ues[b].hasData {
      RatioOrder(ues[i].instRate, ues[i].avgRate, ues[b].instRate, ues[b].avgRate);
    }
  }

  lemma ChosenIsAhead(ues: seq<Ue>, i: nat)
    requires Started(ues) && i < |ues| && ues[i].hasData && ues[i].instRate > 0.0
    ensures var c := ChosenByMetric(ues); 0 <= c < |ues| && (c != i ==> Ahead(ues, c, i))
  {
    var c := ChosenByMetric(ues);
    RatioPositive(ues[i].instRate, ues[i].avgRate);
    assert IsBest(Metrics(ues), |ues|, c) && Metrics(ues)[i] > 0.0;
    if c != i { AheadIsHigher(ues, c, i); }
  }

  /** Someone ahead who does not yield stays ahead, and is never overtaken. */
  lemma StaysAhead(ues: seq<Ue>, b: nat, i: nat, alpha: real)
    requires 0.0 < alpha < 1.0 && Started(ues) && b < |ues| && i < |ues|
    requires ues[i].hasData && ues[i].instRate > 0.0
    requires Ahead(ues, b, i) && !Yields(ues[b], ues[i])
    ensures ChosenByMetric(ues) != i
    ensures var next := TtiBestOnly(ues, alpha);
            && next[i] == ues[i] && Ahead(next, b, i) && !Yields(next[b], next[i])
  {
    AheadIsHigher(ues, b, i);
    var ms := Metrics(ues);
    assert ChosenByMetric(ues) != i by {
      assert IsBest(ms, |ms|, ChosenByMetric(ues));
    }
    SmoothBelow(alpha, ues[b].avgRate, ues[b].actualRate, ues[i].instRate, Times(ues[b].instRate, ues[i].avgRate));
  }

  lemma SmoothBelow(alpha: real, x: real, r: real, w: real, top: real)
    requires 0.0 < alpha < 1.0 && Times(w, x) <= top && Times(r, w) <= top
    ensures Times(w, Smooth(alpha, x, r)) <= top
    ensures Times(w, x) < top ==> Times(w, Smooth(alpha, x, r)) < top
  {
    SmoothIsBetween(alpha, Times(w, x), Times(r, w));
    ScaleSmooth(alpha, x, r, w);
  }

  lemma ScaleSmooth(alpha: real, x: real, r: real, w: real)
    ensures Times(w, Smooth(alpha, x, r)) == Smooth(alpha, Times(w, x), Times(r, w))
  {
    assert w * ((1.0 - alpha) * x) == (1.0 - alpha) * (w * x);
    assert w * (alpha * r) == alpha * (r * w);
    TimesAdds(w, (1.0 - alpha) * x, alpha * r);
  }

  lemma {:induction false} BlockedIsNeverChosen(ues: seq<Ue>, b: nat, i: nat, k: nat, alpha: real)
    requires 0.0 < alpha < 1.0 && Started(ues) && b < |ues| && i < |ues|
    requires ues[i].hasData && ues[i].instRate > 0.0
    requires Ahead(ues, b, i) && !Yields(ues[b], ues[i])
    ensures ChosenByMetric(After(ues, k, alpha)) != i
    decreases k
  {
    StaysAhead(ues, b, i, alpha);
    if k > 0 {
      BlockedIsNeverChosen(TtiBestOnly(ues, alpha), b, i, k - 1, alpha);
    }
  }

  lemma {:induction false} IdleIsNeverChosen(ues: seq<Ue>, i: nat, k: nat, alpha: real)
    requires 0.0 < alpha < 1.0 && Started(ues) && i < |ues|
    requires !ues[i].hasData || ues[i].instRate <= 0.0
    ensures ChosenByMetric(After(ues, k, alpha)) != i
    decreases k
  {
    RatioPositive(ues[i].instRate, ues[i].avgRate);
    assert IsBest(Metrics(ues), |ues|, ChosenByMetric(ues));
    assert Metrics(ues)[i] <= 0.0;
    if k > 0 {
      IdleIsNeverChosen(TtiBestOnly(ues, alpha), i, k - 1, alpha);
    }
  }

  /** The average after m services. */
  function AvgAfter(avg: real, actual: real, alpha: real, m: nat): real
    decreases m
  {
    if m == 0 then avg else AvgAfter(Smooth(alpha, avg, actual), actual, alpha, m - 1)
  }

  lemma {:induction false} AvgAfterIs(avg: real, actual: real, alpha: real, m: nat)
    ensures AvgAfter(avg, actual, alpha, m) == actual - Decayed(actual - avg, alpha, m)
    decreases m
  {
    if m > 0 {
      var next := Smooth(alpha, avg, actual);
      AvgAfterIs(next, actual, alpha, m - 1);
      DecayedAgain(actual - avg, alpha, 1, m - 1);
      assert Decayed(actual - avg, alpha, 1) == Smooth(alpha, Decayed(actual - avg, alpha, 0), 0.0);
      assert actual - next == Smooth(alpha, actual - avg, 0.0);
    }
  }

  /** After m services, b is not ahead of i. */
  predicate BehindAfter(ues: seq<Ue>, b: nat, i: nat, m: nat, alpha: real)
    requires b < |ues| && i < |ues|
  {
    b == i || !Ahead(ues[b := ues[b].(avgRate := AvgAfter(ues[b].avgRate, ues[b].actualRate, alpha, m))], b, i)
  }

  lemma ServicesNeeded(ues: seq<Ue>, b: nat, i: nat, alpha: real) returns (m: nat)
    requires 0.0 < alpha < 1.0 && Started(ues) && b < |ues| && i < |ues| && CanBeChosen(ues, i)
    ensures BehindAfter(ues, b, i, m, alpha)
  {
    m := 0;
    assert ues[b := ues[b].(avgRate := AvgAfter(ues[b].avgRate, ues[b].actualRate, alpha, 0))] == ues;
    if Ahead(ues, b, i) {
      var level := Times(ues[b].instRate, ues[i].avgRate);
      m := RisesAbove(ues[b].avgRate, ues[b].actualRate, ues[i].instRate, level, alpha);
    }
  }

  /** Services take an average past every level below the rate. */
  lemma RisesAbove(avg: real, actual: real, w: real, level: real, alpha: real) returns (m: nat)
    requires 0.0 < alpha < 1.0 && 0.0 < w && Times(w, avg) <= level < Times(actual, w)
    ensures Times(w, AvgAfter(avg, actual, alpha, m)) > level
  {
    var gap, margin := actual - avg, Times(actual, w) - level;
    if gap <= 0.0 { LessTimes(actual, avg, w); }
    Quotient(margin, w);
    m := DecaysBelow(gap, margin / w, alpha);
    AvgAfterIs(avg, actual, alpha, m);
    LessTimes(Decayed(gap, alpha, m), margin / w, w);
    TimesSubtracts(actual, Decayed(gap, alpha, m), w);
    assert Times(w, actual - Decayed(gap, alpha, m)) == Times(actual - Decayed(gap, alpha, m), w);
  }

  /** left[b] bounds how many more services b can take before i goes first. */
  ghost predicate Countdown(ues: seq<Ue>, left: seq<nat>, i: nat, alpha: real)
    requires i < |ues|
  {
    |left| == |ues| && forall b :: 0 <= b < |ues| ==> BehindAfter(ues, b, i, left[b], alpha)
  }

  lemma CountdownStep(ues: seq<Ue>, left: seq<nat>, i: nat, alpha: real)
    requires 0.0 < alpha < 1.0 && Started(ues) && i < |ues| && ues[i].hasData && ues[i].instRate > 0.0
    requires Countdown(ues, left, i, alpha) && ChosenByMetric(ues) != i
    ensures var c, next := ChosenByMetric(ues), TtiBestOnly(ues, alpha);
            && 0 <= c < |ues| && left[c] > 0 && next[i] == ues[i]
            && Countdown(next, left[c := left[c] - 1], i, alpha)
  {
    ChosenIsAhead(ues, i);
    var c, next := ChosenByMetric(ues), TtiBestOnly(ues, alpha);
    assert BehindAfter(ues, c, i, left[c], alpha);
    assert ues[c := ues[c].(avgRate := AvgAfter(ues[c].avgRate, ues[c].actualRate, alpha, 0))] == ues;
    var left' := left[c := left[c] - 1];
    forall b | 0 <= b < |next| ensures BehindAfter(next, b, i, left'[b], alpha) {
      assert BehindAfter(ues, b, i, left[b], alpha);
    }
  }

  lemma {:induction false} ChosenWithin(ues: seq<Ue>, left: seq<nat>, i: nat, alpha: real) returns (k: nat)
    requires 0.0 < alpha < 1.0 && Started(ues) && i < |ues| && ues[i].hasData && ues[i].instRate > 0.0
    requires Countdown(ues, left, i, alpha)
    ensures k <= Sum(left) && ChosenByMetric(After(ues, k, alpha)) == i
    decreases Sum(left)
  {
    var c := ChosenByMetric(ues);
    if c == i {
      k := 0;
    } else {
      CountdownStep(ues, left, i, alpha);
      SumUpdate(left, c, left[c] - 1);
      k := ChosenWithin(TtiBestOnly(ues, alpha), left[c := left[c] - 1], i, alpha);
      k := k + 1;
    }
  }

  lemma {:induction false} CountdownExists(ues: seq<Ue>, i: nat, n: nat, alpha: real) returns (left: seq<nat>)
    requires 0.0 < alpha < 1.0 && Started(ues) && n <= |ues| && i < |ues| && CanBeChosen(ues, i)
    ensures |left| == n && forall b :: 0 <= b < n ==> BehindAfter(ues, b, i, left[b], alpha)
  {
    left := [];
    if n > 0 {
      left := CountdownExists(ues, i, n - 1, alpha);
      var m := ServicesNeeded(ues, n - 1, i, alpha);
      left := left + [m];
    }
  }

  ghost predicate EverChosen(ues: seq<Ue>, i: nat, alpha: real)
    requires 0.0 < alpha < 1.0 && Started(ues)
  {
    exists k: nat :: ChosenByMetric(After(ues, k, alpha)) == i
  }

  /** The first listing serves a UE at some time exactly if it has data and a positive
      rate, and everyone ahead of it in the first TTI tends to a lower metric than its. */
  lemma BestOnlyServesIff(ues: seq<Ue>, i: nat, alpha: real)
    requires 0.0 < alpha < 1.0 && Started(ues) && i < |ues|
    ensures EverChosen(ues, i, alpha) <==> CanBeChosen(ues, i)
  {
    if CanBeChosen(ues, i) {
      var left := CountdownExists(ues, i, |ues|, alpha);
      var k := ChosenWithin(ues, left, i, alpha);
      assert ChosenByMetric(After(ues, k, alpha)) == i;
    } else {
      forall k: nat ensures ChosenByMetric(After(ues, k, alpha)) != i {
        if ues[i].hasData && ues[i].instRate > 0.0 {
          var b :| 0 <= b < |ues| && Ahead(ues, b, i) && !Yields(ues[b], ues[i]);
          BlockedIsNeverChosen(ues, b, i, k, alpha);
        } else {
          IdleIsNeverChosen(ues, i, k, alpha);
        }
      }
    }
  }

  // ------------------------------------------------ chosen again and again

  /** The highest average b ever has. */
  function Ceiling(b: Ue): real {
    if b.avgRate < b.actualRate then b.actualRate else b.avgRate
  }

  /** However far service takes i's metric down, towards instRate / actualRate, b's lowest
      metric does not stay above it. */
  predicate NeverOutlasts(b: Ue, i: Ue) {
    Times(b.instRate, i.actualRate) <= Times(i.instRate, Ceiling(b))
  }

  /** What decides whether service recurs, on the state before the first TTI: UE i has
      data and a positive rate, and if service lowers its metric, nobody with data outlasts
      it; if not, everyone ahead of it would yield. */
  predicate CanRecur(ues: seq<Ue>, i: nat)
    requires i < |ues|
  {
    && ues[i].hasData && ues[i].instRate > 0.0
    && if ues[i].avgRate < ues[i].actualRate
       then forall b :: 0 <= b < |ues| && b != i && ues[b].hasData ==> NeverOutlasts(ues[b], ues[i])
       else forall b :: 0 <= b < |ues| && Ahead(ues, b, i) ==> Yields(ues[b], ues[i])
  }

  ghost predicate ChosenLater(ues: seq<Ue>, i: nat, from: nat, alpha: real)
    requires 0.0 < alpha < 1.0 && Started(ues)
  {
    exists k: nat :: k >= from && ChosenByMetric(After(ues, k, alpha)) == i
  }

  ghost predicate ChosenForGood(ues: seq<Ue>, i: nat, alpha: real)
    requires 0.0 < alpha < 1.0 && Started(ues)
  {
    forall from: nat :: ChosenLater(ues, i, from, alpha)
  }

  lemma {:induction false} AfterAfter(ues: seq<Ue>, k: nat, l: nat, alpha: real)
    requires 0.0 < alpha < 1.0 && Started(ues)
    ensures After(After(ues, k, alpha), l, alpha) == After(ues, k + l, alpha)
    decreases k
  {
    if k > 0 { AfterAfter(TtiBestOnly(ues, alpha), k - 1, l, alpha); }
  }

  /** Service takes the average towards the actual rate without crossing it. */
  lemma ServedStaysPut(ues: seq<Ue>, c: nat, alpha: real)
    requires 0.0 < alpha < 1.0 && Started(ues) && c < |ues| && ChosenByMetric(ues) == c
    ensures var r := TtiBestOnly(ues, alpha)[c];
            && r == Aged(ues[c], true, alpha)
            && (ues[c].avgRate < ues[c].actualRate ==> ues[c].avgRate < r.avgRate < r.actualRate)
            && (ues[c].avgRate >= ues[c].actualRate ==> r.actualRate <= r.avgRate <= ues[c].avgRate)
  {
    SmoothIsBetween(alpha, ues[c].avgRate, ues[c].actualRate);
  }

  /** A UE whose metric service does not lower, once it is the first choice, stays it. */
  lemma FirstStaysFirst(ues: seq<Ue>, i: nat, b: nat, alpha: real)
    requires 0.0 < alpha < 1.0 && Started(ues) && i < |ues| && b < |ues|
    requires ues[i].hasData && ues[i].instRate > 0.0 && ues[i].avgRate >= ues[i].actualRate
    requires ChosenByMetric(ues) == i
    ensures !Ahead(TtiBestOnly(ues, alpha), b, i)
  {
    var next := TtiBestOnly(ues, alpha);
    ServedStaysPut(ues, i, alpha);
    if b != i {
      AheadIsHigher(ues, b, i);
      assert IsBest(Metrics(ues), |ues|, i);
      if ues[b].instRate > 0.0 {
        AtMost(next[i].avgRate, ues[i].avgRate, ues[b].instRate);
      } else {
        TimesPositive(ues[i].instRate, ues[b].avgRate);
        NonPositiveTimes(ues[b].instRate, next[i].avgRate);
      }
    }
  }

  lemma AtMost(x: real, y: real, z: real)
    requires x <= y && 0.0 < z
    ensures Times(z, x) <= Times(z, y)
  {
    LessTimes(x, y, z);
  }

  /** Ahead of a UE whose metric service lowers there is nobody but those whose metric
      service lowers too, and further, if nobody outlasts it. */
  lemma PastCeilingIsBehind(ues: seq<Ue>, i: nat, b: nat)
    requires Started(ues) && i < |ues| && b < |ues|
    requires ues[i].instRate > 0.0 && ues[i].avgRate < ues[i].actualRate && NeverOutlasts(ues[b], ues[i])
    requires Ahead(ues, b, i)
    ensures ues[b].avgRate < ues[b].actualRate && Yields(ues[b], ues[i])
  {
    AheadIsPositive(ues[i].instRate, ues[b].avgRate, ues[b].instRate, ues[i].avgRate);
    LessTimes(ues[i].avgRate, ues[i].actualRate, ues[b].instRate);
    assert Times(ues[i].instRate, ues[b].actualRate) == Times(ues[b].actualRate, ues[i].instRate);
  }

  lemma RecurringCanBeChosen(ues: seq<Ue>, i: nat)
    requires Started(ues) && i < |ues| && CanRecur(ues, i)
    ensures CanBeChosen(ues, i)
  {
    if ues[i].avgRate < ues[i].actualRate {
      forall b | 0 <= b < |ues| && Ahead(ues, b, i) ensures Yields(ues[b], ues[i]) {
        PastCeilingIsBehind(ues, i, b);
      }
    }
  }

  lemma RecurStep(ues: seq<Ue>, i: nat, alpha: real)
    requires 0.0 < alpha < 1.0 && Started(ues) && i < |ues| && CanRecur(ues, i)
    ensures CanRecur(TtiBestOnly(ues, alpha), i)
  {
    var c, next := ChosenByMetric(ues), TtiBestOnly(ues, alpha);
    ChosenIsAhead(ues, i);
    ServedStaysPut(ues, c, alpha);
    forall b | 0 <= b < |next| && b != i && next[b].hasData && next[i].avgRate < next[i].actualRate
      ensures NeverOutlasts(next[b], next[i])
    {
      assert NeverOutlasts(ues[b], ues[i]);
      if b == c { PastCeilingIsBehind(ues, i, b); }
    }
    forall b | 0 <= b < |next| && Ahead(next, b, i) ensures Yields(next[b], next[i]) {
      if next[i].avgRate < next[i].actualRate {
        PastCeilingIsBehind(next, i, b);
      } else if c == i {
        FirstStaysFirst(ues, i, b, alpha);
      }
    }
  }

  lemma {:induction false} CanRecurLater(ues: seq<Ue>, i: nat, k: nat, alpha: real)
    requires 0.0 < alpha < 1.0 && Started(ues) && i < |ues| && CanRecur(ues, i)
    ensures CanRecur(After(ues, k, alpha), i)
    decreases k
  {
    if k > 0 {
      RecurStep(ues, i, alpha);
      CanRecurLater(TtiBestOnly(ues, alpha), i, k - 1, alpha);
    }
  }

  /** Once i has been served m more times, b is ahead of it for good. */
  predicate LostAfter(b: Ue, i: Ue, m: nat, alpha: real) {
    Times(b.instRate, AvgAfter(i.avgRate, i.actualRate, alpha, m)) > Times(i.instRate, Ceiling(b))
  }

  lemma LostIsBlocked(ues: seq<Ue>, b: nat, i: nat, k: nat, alpha: real)
    requires 0.0 < alpha < 1.0 && Started(ues) && b < |ues| && i < |ues| && b != i
    requires ues[b].hasData && ues[i].hasData && ues[i].instRate > 0.0 && LostAfter(ues[b], ues[i], 0, alpha)
    ensures ChosenByMetric(After(ues, k, alpha)) != i
  {
    LessTimes(ues[b].avgRate, Ceiling(ues[b]), ues[i].instRate);
    LessTimes(ues[b].actualRate, Ceiling(ues[b]), ues[i].instRate);
    BlockedIsNeverChosen(ues, b, i, k, alpha);
  }

  /** If b is to be ahead after m more services of i, i is not chosen for good. */
  lemma {:induction false} LostInTheEnd(ues: seq<Ue>, b: nat, i: nat, m: nat, k: nat, alpha: real)
    requires 0.0 < alpha < 1.0 && Started(ues) && b < |ues| && i < |ues| && b != i
    requires ues[b].hasData && ues[i].hasData && ues[i].instRate > 0.0 && LostAfter(ues[b], ues[i], m, alpha)
    requires ChosenByMetric(After(ues, k, alpha)) == i
    ensures !ChosenForGood(ues, i, alpha)
    decreases m, k
  {
    if m == 0 {
      LostIsBlocked(ues, b, i, k, alpha);
      assert false;
    } else if ChosenForGood(ues, i, alpha) {
      var next := TtiBestOnly(ues, alpha);
      LaterToo(ues, i, alpha);
      var k' := FirstAfter(next, i, alpha);
      LostStep(ues, b, i, m, alpha);
      if ChosenByMetric(ues) == i {
        LostInTheEnd(next, b, i, m - 1, k', alpha);
      } else {
        LostInTheEnd(next, b, i, m, k - 1, alpha);
      }
    }
  }

  lemma LaterToo(ues: seq<Ue>, i: nat, alpha: real)
    requires 0.0 < alpha < 1.0 && Started(ues) && ChosenForGood(ues, i, alpha)
    ensures ChosenForGood(TtiBestOnly(ues, alpha), i, alpha)
  {
    var next := TtiBestOnly(ues, alpha);
    forall from: nat ensures ChosenLater(next, i, from, alpha) {
      assert ChosenLater(ues, i, from + 1, alpha);
      var k: nat :| k >= from + 1 && ChosenByMetric(After(ues, k, alpha)) == i;
      assert ChosenByMetric(After(next, k - 1, alpha)) == i;
    }
  }

  lemma FirstAfter(ues: seq<Ue>, i: nat, alpha: real) returns (k: nat)
    requires 0.0 < alpha < 1.0 && Started(ues) && ChosenForGood(ues, i, alpha)
    ensures ChosenByMetric(After(ues, k, alpha)) == i
  {
    assert ChosenLater(ues, i, 0, alpha);
    k :| ChosenByMetric(After(ues, k, alpha)) == i;
  }

  lemma LostStep(ues: seq<Ue>, b: nat, i: nat, m: nat, alpha: real)
    requires 0.0 < alpha < 1.0 && Started(ues) && b < |ues| && i < |ues| && b != i
    requires ues[i].instRate > 0.0 && LostAfter(ues[b], ues[i], m, alpha)
    ensures var next := TtiBestOnly(ues, alpha);
            && (ChosenByMetric(ues) == i && m > 0 ==> LostAfter(next[b], next[i], m - 1, alpha))
            && (ChosenByMetric(ues) != i ==> LostAfter(next[b], next[i], m, alpha))
  {
    var c, next := ChosenByMetric(ues), TtiBestOnly(ues, alpha);
    if c == b {
      ServedStaysPut(ues, b, alpha);
      LessTimes(Ceiling(next[b]), Ceiling(ues[b]), ues[i].instRate);
    }
  }

  /** The first listing serves a UE for good, again and again, exactly if CanRecur holds. */
  lemma BestOnlyServesForGoodIff(ues: seq<Ue>, i: nat, alpha: real)
    requires 0.0 < alpha < 1.0 && Started(ues) && i < |ues|
    ensures ChosenForGood(ues, i, alpha) <==> CanRecur(ues, i)
  {
    BestOnlyServesIff(ues, i, alpha);
    if CanRecur(ues, i) {
      forall from: nat ensures ChosenLater(ues, i, from, alpha) {
        CanRecurLater(ues, i, from, alpha);
        var mid := After(ues, from, alpha);
        RecurringCanBeChosen(mid, i);
        BestOnlyServesIff(mid, i, alpha);
        var k: nat :| ChosenByMetric(After(mid, k, alpha)) == i;
        AfterAfter(ues, from, k, alpha);
        assert from + k >= from && ChosenByMetric(After(ues, from + k, alpha)) == i;
      }
    } else if ChosenForGood(ues, i, alpha) {
      var k := FirstAfter(ues, i, alpha);
      var b :| 0 <= b < |ues| && b != i && ues[b].hasData && !NeverOutlasts(ues[b], ues[i]);
      var m := ServicesUntilLost(ues[b], ues[i], alpha);
      LostInTheEnd(ues, b, i, m, k, alpha);
    }
  }

  lemma ServicesUntilLost(b: Ue, i: Ue, alpha: real) returns (m: nat)
    requires 0.0 < alpha < 1.0 && 0.0 < b.avgRate && 0.0 < i.avgRate < i.actualRate && 0.0 < i.instRate
    requires !NeverOutlasts(b, i)
    ensures LostAfter(b, i, m, alpha)
  {
    m := 0;
    TimesPositive(i.instRate, Ceiling(b));
    if b.instRate <= 0.0 { NonPositiveTimes(b.instRate, i.actualRate); }
    var level := Times(i.instRate, Ceiling(b));
    if Times(b.instRate, i.avgRate) <= level {
      m := RisesAbove(i.avgRate, i.actualRate, b.instRate, level, alpha);
    }
  }

  /** With the rates agreeing, service takes every metric to 1: a UE is served for good,
      and even once, exactly if its metric exceeds 1 or it is the first choice. */
  lemma MetricAboveOneIff(ues: seq<Ue>, i: nat, alpha: real)
    requires 0.0 < alpha < 1.0 && Started(ues) && i < |ues|
    requires forall j :: 0 <= j < |ues| ==> ues[j].instRate == ues[j].actualRate
    requires ues[i].hasData && ues[i].instRate > 0.0
    ensures ChosenForGood(ues, i, alpha) <==> PfMetric(ues[i]) > 1.0 || ChosenByMetric(ues) == i
    ensures EverChosen(ues, i, alpha) <==> ChosenForGood(ues, i, alpha)
  {
    BestOnlyServesIff(ues, i, alpha);
    BestOnlyServesForGoodIff(ues, i, alpha);
    RatioOrder(1.0, 1.0, ues[i].instRate, ues[i].avgRate);
    forall b | 0 <= b < |ues| && Ahead(ues, b, i)
      ensures Yields(ues[b], ues[i]) <==> ues[i].avgRate < ues[i].instRate
    {
      AheadIsPositive(ues[i].instRate, ues[b].avgRate, ues[b].instRate, ues[i].avgRate);
      SameOrder(ues[b].instRate, ues[i].avgRate, ues[i].instRate);
    }
    forall b | 0 <= b < |ues| ensures NeverOutlasts(ues[b], ues[i]) {
      AtMost(ues[b].instRate, Ceiling(ues[b]), ues[i].instRate);
      assert Times(ues[b].instRate, ues[i].actualRate) == Times(ues[i].instRate, ues[b].instRate);
    }
    ChosenIsAhead(ues, i);
    if ChosenByMetric(ues) == i {
      assert After(ues, 0, alpha) == ues;
    }
  }

  lemma AheadIsPositive(x: real, d: real, y: real, e: real)
    requires 0.0 < x && 0.0 < d && 0.0 < e && Times(x, d) <= Times(y, e)
    ensures 0.0 < y
  {
    TimesPositive(x, d);
  }

  /** For one: UE 1, with half the metric of UE 0, is never chosen. */
  lemma BestOnlyStarves(alpha: real)
    requires 0.0 < alpha < 1.0
    ensures !EverChosen([Ue(true, 2.0, 2.0, 2.0), Ue(true, 1.0, 1.0, 2.0)], 1, alpha)
  {
    var ues := [Ue(true, 2.0, 2.0, 2.0), Ue(true, 1.0, 1.0, 2.0)];
    assert Ahead(ues, 0, 1) && !Yields(ues[0], ues[1]);
    BestOnlyServesIff(ues, 1, alpha);
  }

  /** For another: UE 1 is the first choice, and starves all the same after a while,
      because service takes its metric down to half of what UE 0 keeps. */
  lemma ChosenOnceThenStarves(alpha: real)
    requires 0.0 < alpha < 1.0
    ensures var ues := [Ue(true, 1.0, 1.0, 1.0), Ue(true, 1.0, 2.0, 0.5)];
            EverChosen(ues, 1, alpha) && !ChosenForGood(ues, 1, alpha)
  {
    var ues := [Ue(true, 1.0, 1.0, 1.0), Ue(true, 1.0, 2.0, 0.5)];
    assert !Ahead(ues, 0, 1) && !Ahead(ues, 1, 1);
    assert !NeverOutlasts(ues[0], ues[1]);
    BestOnlyServesIff(ues, 1, alpha);
    BestOnlyServesForGoodIff(ues, 1, alpha);
  }
}
